/**
  A byte stream as seen through successive read(2) calls.

  The model never performs I/O: a descriptor (or an RTMP session) is a script of
  outcomes, consumed from the front by each read.
 */
module Stream {

  import opened Wrappers

  newtype byte = x: int | 0 <= x < 256

  /** The newline character, '\n'. */
  const NL: byte := 10

  /** What the next read on the descriptor observes.
      - Data(bytes): the bytes queued by the peer (a read takes a prefix of them);
      - Eof: the peer closed its end; every later read returns 0;
      - Err: the read fails;
      - Timeout: nothing arrives within the caller's wait. */
  datatype Outcome = Data(bytes: seq<byte>) | Eof | Err | Timeout

  type Script = seq<Outcome>

  /** The result of one read: the count returned (-1 on failure), the bytes
      delivered and what remains of the script. */
  datatype ReadResult = ReadResult(count: int, bytes: seq<byte>, rest: Script)

  /** The bytes that are queued right now, before the next non-data outcome. */
  function Pending(s: Script): seq<byte>
  {
    if |s| == 0 then []
    else match s[0]
      case Data(bs) => bs + Pending(s[1..])
      case _ => []
  }

  /** The script from its first outcome that is not Data on: what a reader
      meets once every queued byte has been consumed. */
  function AfterData(s: Script): (r: Script)
    ensures |r| == 0 || !r[0].Data?
  {
    if |s| == 0 then []
    else if s[0].Data? then AfterData(s[1..])
    else s
  }

  /** The peer has closed and nothing is queued: every read returns 0. */
  predicate AtEof(s: Script)
  {
    |s| == 0 || s[0].Eof?
  }

  /** No Data outcome is empty, so that a read of 0 bytes only ever means end of stream. */
  predicate WellFormed(s: Script)
  {
    |s| == 0 || ((s[0].Data? ==> |s[0].bytes| > 0) && WellFormed(s[1..]))
  }

  /** Nothing in the script fails or times out. */
  predicate Clean(s: Script)
  {
    |s| == 0 || ((s[0].Data? || s[0].Eof?) && Clean(s[1..]))
  }

  /** One read of at most cnt bytes. A read that takes only part of a Data outcome
      leaves the remainder at the head of the script; end of stream is sticky; a
      Timeout with nobody waiting for it is a read that finds nothing (-1). */
  function Read(s: Script, cnt: nat): (r: ReadResult)
    ensures r.count == -1 || (0 <= r.count <= cnt && r.count == |r.bytes|)
    ensures r.count >= 0 ==> r.bytes + Pending(r.rest) == Pending(s)
    ensures r.count == -1 <==> |s| > 0 && (s[0].Err? || s[0].Timeout?)
    ensures r.count == -1 ==> r.rest == s[1..]
    ensures r.count >= 0 ==> AfterData(r.rest) == AfterData(s)
    ensures r.count == 0 && cnt > 0 && WellFormed(s) ==> AtEof(s) && r.rest == s
    ensures WellFormed(s) ==> WellFormed(r.rest)
  {
    if |s| == 0 then ReadResult(0, [], s)
    else match s[0]
      case Eof => ReadResult(0, [], s)
      case Err => ReadResult(-1, [], s[1..])
      case Timeout => ReadResult(-1, [], s[1..])
      case Data(bs) =>
        var n := Min(cnt, |bs|);
        if n < |bs| then
          var rest := [Data(bs[n..])] + s[1..];
          assert rest[1..] == s[1..];
          assert Pending(rest) == bs[n..] + Pending(s[1..]);
          assert bs[..n] + bs[n..] == bs;
          ReadResult(n, bs[..n], rest)
        else
          ReadResult(n, bs, s[1..])
  }

  /** A read on a stream that never fails succeeds and leaves a stream that never fails. */
  lemma ReadClean(s: Script, cnt: nat)
    requires Clean(s)
    ensures Read(s, cnt).count >= 0 && Clean(Read(s, cnt).rest)
  {
    if |s| > 0 && s[0].Data? {
      var n := Min(cnt, |s[0].bytes|);
      if n < |s[0].bytes| {
        var rest: Script := [Data(s[0].bytes[n..])] + s[1..];
        assert rest[1..] == s[1..];
      }
    }
  }
}
