/**
  Data connections (NetconData in src/netcon.cpp): reads that serve the
  private line buffer first, exact-count reads, line framing through a
  200-byte buffer, and the default readiness handler.

  The descriptor is a Stream.Script; a wait with a positive timeout
  (select1) observes a Timeout outcome at the head of the script.
 */
module NetconData {

  import opened Wrappers
  import opened Stream
  import opened Netcon

  /** Size of the private line buffer (defbufsize). */
  const BufSize: nat := 200

  /** Size of the scratch buffer the default handler drains into (BS). */
  const DrainSize: nat := 200

  /** A data connection: the connection record and the unconsumed bytes of its
      line buffer (m_bufbase .. m_bufbase + m_bufbytes). */
  datatype DataConn = DataConn(base: Netcon, buf: seq<byte>)

  /** The outcome of a receive: the value returned, the bytes copied into the
      caller's buffer, the connection and the descriptor afterwards. On failure
      `data` holds bytes that were copied but not reported: they are lost. */
  datatype Received = Received(ret: int, data: seq<byte>, conn: DataConn, rest: Script)

  /** The bytes a reader of the connection can still obtain without an error or
      end of stream: the buffer's leftovers, then the bytes queued on the
      descriptor. */
  function Avail(c: DataConn, s: Script): seq<byte>
  {
    c.buf + Pending(s)
  }

  /** The wait with a positive timeout expires before anything happens. */
  predicate TimesOut(timeo: int, s: Script)
  {
    timeo > 0 && |s| > 0 && s[0].Timeout?
  }

  /** The part of receive after the buffer: the wait when the timeout is
      positive, then one read of at most cnt bytes. didTimo records whether the
      wait expired. */
  function WaitAndRead(c: DataConn, cnt: nat, timeo: int, s: Script): (r: Received)
    ensures r.ret == -1 || (0 <= r.ret <= cnt && r.ret == |r.data|)
    ensures r.ret >= 0 ==> r.data + Pending(r.rest) == Pending(s)
    ensures r.ret == -1 ==> r.data == []
    ensures r.ret == -1 <==> |s| > 0 && (s[0].Err? || s[0].Timeout?)
    ensures r.ret == -1 ==> r.rest == s[1..]
    ensures r.ret >= 0 ==> AfterData(r.rest) == AfterData(s)
    ensures r.conn == c.(base := c.base.(didTimo := TimesOut(timeo, s)))
    ensures WellFormed(s) ==> WellFormed(r.rest)
  {
    if TimesOut(timeo, s) then Received(-1, [], c.(base := c.base.(didTimo := true)), s[1..])
    else
      var rd := Read(s, cnt);
      Received(rd.count, rd.bytes, c.(base := c.base.(didTimo := false)), rd.rest)
  }

  /** NetconData::receive: at most cnt bytes, leftovers of the line buffer first.
      When the leftovers satisfy the request no read happens; otherwise a
      positive timeout waits for readiness (expiry sets didTimo and returns -1),
      then one read supplies the remainder. */
  function Receive(c: DataConn, cnt: nat, timeo: int, s: Script): (r: Received)
    ensures r.ret == -1 || (0 <= r.ret <= cnt && r.ret == |r.data|)
    ensures r.ret >= 0 ==> r.data + Avail(r.conn, r.rest) == Avail(c, s)
    ensures r.ret == -1 ==> r.data + r.conn.buf == c.buf
    ensures r.ret >= 0 ==> AfterData(r.rest) == AfterData(s)
    ensures r.ret == -1 && c.base.fd >= 0 ==>
      && |s| > 0 && (s[0].Err? || s[0].Timeout?) && r.rest == s[1..]
      && r.conn.buf == [] && (|c.buf| < cnt || c.buf == [])
      && (r.conn.base.didTimo <==> TimesOut(timeo, s))
    ensures c.base.fd < 0 ==> r == Received(-1, [], c, s)
    ensures c.buf == [] ==> r.conn.buf == []
    ensures r.conn.base == c.base.(didTimo := r.conn.base.didTimo)
    ensures WellFormed(s) ==> WellFormed(r.rest)
  {
    if c.base.fd < 0 then Received(-1, [], c, s)
    else
      var fromBuf := Min(|c.buf|, cnt);
      var taken := c.buf[..fromBuf];
      var c1 := c.(buf := c.buf[fromBuf..]);
      assert taken + c1.buf == c.buf;
      if |c.buf| > 0 && cnt - fromBuf <= 0 then Received(fromBuf, taken, c1, s)
      else
        assert taken == c.buf && c1.buf == [];
        var w := WaitAndRead(c1, cnt - fromBuf, timeo, s);
        if w.ret < 0 then Received(-1, taken, w.conn, w.rest)
        else
          assert taken + (w.data + Pending(w.rest)) == taken + w.data + Pending(w.rest);
          assert Avail(w.conn, w.rest) == Pending(w.rest);
          Received(fromBuf + w.ret, taken + w.data, w.conn, w.rest)
  }

  /** How receive proceeds on an open connection: the leftovers of the line buffer
      are served first; a request they satisfy reads nothing; otherwise the wait
      and the read decide, and bytes taken from the buffer stay taken even when
      the call fails. */
  lemma ReceiveOrder(c: DataConn, cnt: nat, timeo: int, s: Script)
    requires c.base.fd >= 0
    ensures var r := Receive(c, cnt, timeo, s);
      var fromBuf := Min(|c.buf|, cnt);
      fromBuf <= |r.data| && r.data[..fromBuf] == c.buf[..fromBuf] && r.conn.buf == c.buf[fromBuf..]
    ensures var r := Receive(c, cnt, timeo, s);
      cnt <= |c.buf| && cnt > 0 ==> r.ret == cnt && r.rest == s && r.conn == c.(buf := c.buf[cnt..])
    ensures var r := Receive(c, cnt, timeo, s);
      |c.buf| < cnt ==>
        (r.conn.base.didTimo <==> TimesOut(timeo, s))
        && (r.ret == -1 <==> |s| > 0 && (s[0].Err? || s[0].Timeout?))
  {
  }

  /** On an open connection and a well-formed stream, receive returns 0 only at
      end of stream with the buffer empty, and makes progress whenever the buffer
      satisfies the request or bytes are queued. */
  lemma ReceiveProgress(c: DataConn, cnt: nat, timeo: int, s: Script)
    requires c.base.fd >= 0 && cnt > 0 && WellFormed(s)
    ensures var r := Receive(c, cnt, timeo, s);
      r.ret == 0 ==> c.buf == [] && AtEof(s) && r.rest == s && r.conn.buf == []
    ensures var r := Receive(c, cnt, timeo, s);
      |c.buf| >= cnt || |Pending(s)| > 0 ==> r.ret > 0
  {
  }

  /** On an open connection, a stream that never fails makes receive succeed and
      stays such a stream. */
  lemma ReceiveClean(c: DataConn, cnt: nat, timeo: int, s: Script)
    requires c.base.fd >= 0 && Clean(s)
    ensures Receive(c, cnt, timeo, s).ret >= 0 && Clean(Receive(c, cnt, timeo, s).rest)
  {
    ReadClean(s, cnt - Min(|c.buf|, cnt));
  }

  /** ReceiveProgress and ReceiveClean together, each under its own hypothesis. */
  lemma ReceiveFacts(c: DataConn, cnt: nat, timeo: int, s: Script)
    ensures var r := Receive(c, cnt, timeo, s);
      c.base.fd >= 0 && cnt > 0 && WellFormed(s) ==>
        (r.ret == 0 ==> c.buf == [] && AtEof(s) && r.rest == s && r.conn.buf == [])
        && (|c.buf| >= cnt || |Pending(s)| > 0 ==> r.ret > 0)
    ensures var r := Receive(c, cnt, timeo, s);
      c.base.fd >= 0 && Clean(s) ==> r.ret >= 0 && Clean(r.rest)
  {
    if c.base.fd >= 0 && cnt > 0 && WellFormed(s) {
      ReceiveProgress(c, cnt, timeo, s);
    }
    if c.base.fd >= 0 && Clean(s) {
      ReceiveClean(c, cnt, timeo, s);
    }
  }

  /** NetconData::doreceive: exactly cnt bytes, fewer only at end of stream, -1 on
      any failure or timeout (a timeout sets didTimo). The bytes delivered are
      the buffer's leftovers followed by the stream's, in order. */
  method DoReceive(c: DataConn, cnt: nat, timeo: int, s: Script) returns (r: Received)
    ensures ExactResult(c, cnt, timeo, s, r)
    ensures c.base.fd >= 0 && WellFormed(s) && r.ret >= 0 ==> r.ret == Min(cnt, |Avail(c, s)|)
    // -1 exactly when the available bytes fall short and what follows them is
    // an error or an expired wait, which is then consumed
    ensures c.base.fd >= 0 && WellFormed(s) ==>
      (r.ret == -1 <==> |Avail(c, s)| < cnt && !AtEof(AfterData(s)))
  {
    r := ReceiveLoop(c, cnt, timeo, s);
    ExactFailsExactly(c, cnt, timeo, s, r);
  }

  /** What doreceive promises about its result r for a call on c for cnt
      bytes over the stream s. */
  predicate ExactResult(c: DataConn, cnt: nat, timeo: int, s: Script, r: Received)
  {
    && (r.ret == -1 || (0 <= r.ret <= cnt && r.ret == |r.data|))
    && (r.ret >= 0 ==> r.data + Avail(r.conn, r.rest) == Avail(c, s))
    && (r.ret >= 0 ==> AfterData(r.rest) == AfterData(s))
    && (r.ret >= 0 && r.ret < cnt && WellFormed(s) ==> AtEof(r.rest) && r.conn.buf == [])
    && (c.base.fd >= 0 && WellFormed(s) && |Avail(c, s)| >= cnt ==> r.ret == cnt)
    && (c.base.fd >= 0 && r.ret == -1 ==>
          && |Avail(c, s)| < cnt && |AfterData(s)| > 0 && !AtEof(AfterData(s))
          && r.rest == AfterData(s)[1..]
          && (r.conn.base.didTimo <==> TimesOut(timeo, AfterData(s))))
    && (r.ret == -1 ==> c.base.fd < 0 || !Clean(s))
    && (c.base.fd < 0 && cnt > 0 ==> r.ret == -1)
    && r.conn.base.fd == c.base.fd
  }

  /** Given doreceive's other promises, the count is the whole request or all
      that is available, and the call fails exactly when the available bytes
      fall short and are followed by an error or an expired wait. */
  lemma ExactFailsExactly(c: DataConn, cnt: nat, timeo: int, s: Script, r: Received)
    requires ExactResult(c, cnt, timeo, s, r)
    ensures c.base.fd >= 0 && WellFormed(s) && r.ret >= 0 ==> r.ret == Min(cnt, |Avail(c, s)|)
    ensures c.base.fd >= 0 && WellFormed(s) ==>
      (r.ret == -1 <==> |Avail(c, s)| < cnt && !AtEof(AfterData(s)))
  {
    if c.base.fd >= 0 && WellFormed(s) && r.ret >= 0 && r.ret < cnt {
      assert AtEof(r.rest) && AfterData(r.rest) == r.rest && Pending(r.rest) == [];
      assert r.data == Avail(c, s) by {
        assert r.data + [] == r.data;
      }
    }
  }

  /** The state of doreceive's loop: cur bytes gathered in acc, the
      connection and the stream, related to the call's start (c, cnt, s). */
  predicate ExactLoop(c: DataConn, cnt: nat, s: Script, cur: nat, acc: seq<byte>, conn: DataConn, rest: Script)
  {
    && cur <= cnt && |acc| == cur
    && acc + Avail(conn, rest) == Avail(c, s)
    && conn.base.fd == c.base.fd
    && (WellFormed(s) ==> WellFormed(rest))
    && (Clean(s) ==> Clean(rest))
    && AfterData(rest) == AfterData(s)
    && (cur == 0 ==> conn == c && rest == s)
    && (c.base.fd < 0 ==> cur == 0)
  }

  /** One turn of doreceive's loop: one receive for the bytes still missing,
      and either finish or go on with what it brought. */
  method ReceiveTurn(c: DataConn, cnt: nat, timeo: int, s: Script, cur: nat, acc: seq<byte>, conn: DataConn, rest: Script)
    returns (done: Option<Received>, cur': nat, acc': seq<byte>, conn': DataConn, rest': Script)
    requires ExactLoop(c, cnt, s, cur, acc, conn, rest) && cur < cnt
    ensures done.Some? ==> ExactResult(c, cnt, timeo, s, done.value)
    ensures done.None? ==> ExactLoop(c, cnt, s, cur', acc', conn', rest') && cur' > cur
  {
    cur', acc', conn', rest' := cur, acc, conn, rest;
    var got := Receive(conn, cnt - cur, timeo, rest);
    if got.ret <= 0 {
      TurnEnds(c, cnt, timeo, s, cur, acc, conn, rest);
      done := Some(if got.ret < 0 then Received(-1, acc + got.data, got.conn, got.rest)
                   else Received(cur, acc, got.conn, got.rest));
    } else {
      assert acc + (got.data + Avail(got.conn, got.rest)) == acc + got.data + Avail(got.conn, got.rest);
      ReceiveFacts(conn, cnt - cur, timeo, rest);
      done := None;
      acc' := acc + got.data;
      cur' := cur + got.ret;
      conn' := got.conn;
      rest' := got.rest;
    }
  }

  /** A receive in doreceive's loop that fails or meets end of stream ends the
      call with a result that keeps doreceive's promises. */
  lemma TurnEnds(c: DataConn, cnt: nat, timeo: int, s: Script, cur: nat, acc: seq<byte>, conn: DataConn, rest: Script)
    requires ExactLoop(c, cnt, s, cur, acc, conn, rest) && cur < cnt
    ensures var got := Receive(conn, cnt - cur, timeo, rest);
      got.ret < 0 ==> ExactResult(c, cnt, timeo, s, Received(-1, acc + got.data, got.conn, got.rest))
    ensures var got := Receive(conn, cnt - cur, timeo, rest);
      got.ret == 0 ==> ExactResult(c, cnt, timeo, s, Received(cur, acc, got.conn, got.rest))
  {
    var got := Receive(conn, cnt - cur, timeo, rest);
    ReceiveFacts(conn, cnt - cur, timeo, rest);
    if got.ret < 0 && c.base.fd >= 0 {
      // The failing outcome is the first one after the queued bytes.
      assert AfterData(rest) == rest && Pending(rest) == [];
      assert |acc + conn.buf| < cnt by {
        assert Avail(conn, rest) == conn.buf;
      }
    }
    if got.ret == 0 {
      assert Avail(got.conn, got.rest) == Avail(conn, rest) by {
        assert got.data == [];
        assert [] + Avail(got.conn, got.rest) == Avail(got.conn, got.rest);
      }
      if c.base.fd >= 0 && WellFormed(s) {
        assert AtEof(rest) && AfterData(rest) == rest;
      }
    }
  }

  /** doreceive's loop: receive until cnt bytes are in, end of stream, or a
      failure. */
  method ReceiveLoop(c: DataConn, cnt: nat, timeo: int, s: Script) returns (r: Received)
    ensures ExactResult(c, cnt, timeo, s, r)
  {
    var cur: nat := 0;
    var acc: seq<byte> := [];
    var conn := c;
    var rest := s;
    assert acc + Avail(conn, rest) == Avail(c, s);
    while cur < cnt
      invariant ExactLoop(c, cnt, s, cur, acc, conn, rest)
      decreases cnt - cur
    {
      var done;
      done, cur, acc, conn, rest := ReceiveTurn(c, cnt, timeo, s, cur, acc, conn, rest);
      if done.Some? {
        return done.value;
      }
    }
    return Received(cur, acc, conn, rest);
  }

  /** A peer that sends 4 bytes and closes: a request for 10 gets the 4 bytes,
      not a failure. */
  method PartialAtClose(c: DataConn, four: seq<byte>) returns (r: Received)
    requires c.base.fd >= 0 && c.buf == [] && |four| == 4
    ensures r.ret == 4 && r.data == four
  {
    var s: Script := [Data(four), Eof];
    assert Pending(s) == four by {
      assert Pending(s[1..]) == [];
    }
    assert WellFormed(s) && Clean(s);
    assert Avail(c, s) == four;
    r := DoReceive(c, 10, 5, s);
    assert |r.data| <= 4 by {
      assert |r.data + Avail(r.conn, r.rest)| == 4;
    }
    assert Avail(r.conn, r.rest) == [];
  }

  /** A peer that sends nothing within the timeout: -1, with the timed-out flag. */
  method SilentPeerTimesOut(c: DataConn) returns (r: Received)
    requires c.base.fd >= 0 && c.buf == []
    ensures r.ret == -1 && r.conn.base.didTimo
  {
    r := DoReceive(c, 10, 5, [Timeout]);
  }

  /** An error after one byte of a two-byte request fails the whole call, and
      so does a wait that expires after that byte, which also sets the
      timed-out flag. */
  method FailureAfterPartialData(c: DataConn, b: byte) returns (r1: Received, r2: Received)
    requires c.base.fd >= 0 && c.buf == []
    ensures r1.ret == -1 && !r1.conn.base.didTimo
    ensures r2.ret == -1 && r2.conn.base.didTimo
  {
    var s1: Script := [Data([b]), Outcome.Err];
    var s2: Script := [Data([b]), Timeout];
    assert Pending(s1) == [b] && Pending(s2) == [b] by {
      assert Pending(s1[1..]) == [] && Pending(s2[1..]) == [];
    }
    assert WellFormed(s1) && WellFormed(s2) by {
      assert WellFormed(s1[1..]) && WellFormed(s2[1..]);
    }
    assert AfterData(s1) == [Outcome.Err] by {
      assert s1[1..] == [Outcome.Err];
    }
    assert AfterData(s2) == [Timeout] by {
      assert s2[1..] == [Timeout];
    }
    r1 := DoReceive(c, 2, 0, s1);
    r2 := DoReceive(c, 2, 5, s2);
  }

  // ---------------------------------------------------------------------
  // Line framing

  /** How many bytes of buf one pass of getline's copy loop takes with room for
      max: up to and including the first newline, else all it may. */
  function TransferCount(buf: seq<byte>, max: nat): (t: nat)
    ensures t <= max && t <= |buf|
    ensures forall i :: 0 <= i < t - 1 ==> buf[i] != NL
    ensures t == Min(|buf|, max) || (t > 0 && buf[t - 1] == NL)
    ensures t < Min(|buf|, max) ==> t > 0 && buf[t - 1] == NL
  {
    if max == 0 || |buf| == 0 then 0
    else if buf[0] == NL then 1
    else
      var t := 1 + TransferCount(buf[1..], max - 1);
      assert forall i :: 1 <= i < t - 1 ==> buf[i] == buf[1..][i - 1];
      t
  }

  /** The outcome of a getline: the value returned (line length or -1), the line
      delivered (NUL terminator not included), the connection and the
      descriptor afterwards. */
  datatype GotLine = GotLine(ret: int, line: seq<byte>, conn: DataConn, rest: Script)

  predicate EndsWithNewline(line: seq<byte>)
  {
    |line| > 0 && line[|line| - 1] == NL
  }

  predicate NoNewlineBeforeEnd(line: seq<byte>)
  {
    forall i :: 0 <= i < |line| - 1 ==> line[i] != NL
  }

  /** One pass of getline's copy loop: bytes move from the buffer to the line,
      up to and including the first newline and within the room left (cnt - 1
      bytes, one being kept for the NUL). */
  datatype Taken = Taken(line: seq<byte>, buf: seq<byte>, cnt: nat)

  function Take(line: seq<byte>, buf: seq<byte>, cnt: nat): (t: Taken)
    requires cnt >= 1 && NL !in line
    ensures t.line + t.buf == line + buf
    ensures 1 <= t.cnt <= cnt && |t.line| - |line| == cnt - t.cnt
    ensures NoNewlineBeforeEnd(t.line)
    ensures t.cnt == cnt ==> buf == [] || cnt == 1
    ensures t.cnt > 1 && !EndsWithNewline(t.line) ==> t.buf == [] && NL !in t.line
  {
    var n := TransferCount(buf, cnt - 1);
    var moved := buf[..n];
    assert moved + buf[n..] == buf;
    assert line + (moved + buf[n..]) == line + moved + buf[n..];
    var line1 := line + moved;
    assert forall i :: |line| <= i < |line1| ==> line1[i] == buf[i - |line|];
    Taken(line1, buf[n..], cnt - n)
  }

  /** What getline promises about its result r for a call on c with room cnt
      over the stream s. */
  predicate LineResult(c: DataConn, cnt: nat, timeo: int, s: Script, r: GotLine)
  {
    && (r.ret == -1 || (0 <= r.ret <= cnt - 1 && r.ret == |r.line|))
    && (r.ret >= 0 ==> NoNewlineBeforeEnd(r.line))
    && (r.ret >= 0 ==> r.line + Avail(r.conn, r.rest) == Avail(c, s))
    && (r.ret >= 0 && WellFormed(s) ==>
          r.ret == cnt - 1 || EndsWithNewline(r.line) || (AtEof(r.rest) && r.conn.buf == []))
    && (r.ret == -1 ==> r.conn.buf == [] && (c.base.fd < 0 || !Clean(s)))
    && (r.ret >= 0 ==> AfterData(r.rest) == AfterData(s))
    && (c.base.fd >= 0 && r.ret == -1 ==>
          && |Avail(c, s)| < cnt - 1 && NL !in Avail(c, s)
          && |AfterData(s)| > 0 && !AtEof(AfterData(s)) && r.rest == AfterData(s)[1..]
          && (r.conn.base.didTimo <==> TimesOut(timeo, AfterData(s))))
    && (c.base.fd < 0 ==> (r.ret == -1 <==> |c.buf| < cnt - 1 && NL !in c.buf))
    && |r.conn.buf| <= BufSize && r.conn.base.fd == c.base.fd
    && (WellFormed(s) ==> WellFormed(r.rest))
    && (Clean(s) ==> Clean(r.rest))
  }

  /** The state of getline's loop: `line` copied so far with `room` left, the
      connection and the stream, related to the call's start (c, cnt, s). */
  predicate LineLoop(c: DataConn, cnt: nat, s: Script, line: seq<byte>, room: nat, conn: DataConn, rest: Script)
  {
    && 1 <= room <= cnt && |line| == cnt - room
    && NL !in line
    && line + Avail(conn, rest) == Avail(c, s)
    && |conn.buf| <= BufSize && conn.base.fd == c.base.fd
    && AfterData(rest) == AfterData(s)
    && (WellFormed(s) ==> WellFormed(rest))
    && (Clean(s) ==> Clean(rest))
    && (c.base.fd < 0 ==> line + conn.buf == c.buf && rest == s)
  }

  /** getline's refill: one receive of up to BufSize bytes into an emptied
      buffer. */
  method Refill(conn: DataConn, timeo: int, rest: Script) returns (got: Received)
    requires conn.buf == []
    ensures got.ret == -1 || (0 <= got.ret <= BufSize && got.ret == |got.data|)
    ensures got.ret >= 0 ==> got.data + Pending(got.rest) == Pending(rest)
    ensures got.conn.buf == [] && got.conn.base.fd == conn.base.fd
    ensures got.ret == 0 && WellFormed(rest) ==> AtEof(got.rest)
    ensures got.ret == -1 ==> conn.base.fd < 0 || !Clean(rest)
    ensures got.ret >= 0 ==> AfterData(got.rest) == AfterData(rest)
    ensures got.ret == -1 && conn.base.fd >= 0 ==>
      && |rest| > 0 && (rest[0].Err? || rest[0].Timeout?) && got.rest == rest[1..]
      && (got.conn.base.didTimo <==> TimesOut(timeo, rest))
    ensures WellFormed(rest) ==> WellFormed(got.rest)
    ensures Clean(rest) ==> Clean(got.rest)
    ensures conn.base.fd < 0 ==> got.ret == -1 && got.rest == rest
  {
    got := Receive(conn, BufSize, timeo, rest);
    ReceiveFacts(conn, BufSize, timeo, rest);
    assert got.ret >= 0 ==> Avail(got.conn, got.rest) == Pending(got.rest);
  }

  /** One turn of getline's loop: copy from the buffer, and either finish or
      refill the buffer with one receive. */
  method GetLineTurn(c: DataConn, cnt: nat, s: Script, timeo: int, line: seq<byte>, room: nat, conn: DataConn, rest: Script)
    returns (done: Option<GotLine>, line': seq<byte>, room': nat, conn': DataConn, rest': Script)
    requires LineLoop(c, cnt, s, line, room, conn, rest)
    ensures done.Some? ==> LineResult(c, cnt, timeo, s, done.value)
    ensures done.None? ==> LineLoop(c, cnt, s, line', room', conn', rest')
    ensures done.None? ==> room' < room || (room' == room && |conn.buf| == 0 && |conn'.buf| > 0)
  {
    var t := Take(line, conn.buf, room);
    assert line + (conn.buf + Pending(rest)) == line + conn.buf + Pending(rest);
    assert t.line + (t.buf + Pending(rest)) == t.line + t.buf + Pending(rest);
    assert t.line + Avail(conn.(buf := t.buf), rest) == Avail(c, s);
    line', room', conn', rest' := t.line, t.cnt, conn, rest;
    if t.cnt <= 1 || EndsWithNewline(t.line) {
      done := Some(GotLine(|t.line|, t.line, conn.(buf := t.buf), rest));
      return;
    }
    // The buffer is drained: refill it with one receive into the buffer itself.
    done, conn', rest' := RefillTurn(c, cnt, s, timeo, t.line, t.cnt, conn.(buf := []), rest);
  }

  /** The second half of a turn of getline's loop, with the buffer drained and
      room left: one receive into the buffer ends the line at end of stream,
      fails it on an error, or brings more bytes. */
  method RefillTurn(c: DataConn, cnt: nat, s: Script, timeo: int, line: seq<byte>, room: nat, conn: DataConn, rest: Script)
    returns (done: Option<GotLine>, conn': DataConn, rest': Script)
    requires LineLoop(c, cnt, s, line, room, conn, rest) && conn.buf == [] && room > 1
    ensures done.Some? ==> LineResult(c, cnt, timeo, s, done.value)
    ensures done.None? ==> LineLoop(c, cnt, s, line, room, conn', rest') && |conn'.buf| > 0
  {
    var got := Refill(conn, timeo, rest);
    conn', rest' := conn, rest;
    if got.ret == 0 {
      done := Some(GotLine(|line|, line, got.conn, got.rest));
    } else if got.ret < 0 {
      if c.base.fd >= 0 {
        // The line so far is everything that was available.
        assert AfterData(rest) == rest && Pending(rest) == [];
        assert line + [] == line;
      }
      done := Some(GotLine(-1, line, got.conn.(buf := []), got.rest));
    } else {
      assert line + (got.data + Pending(got.rest)) == line + got.data + Pending(got.rest);
      done := None;
      conn' := got.conn.(buf := got.data);
      rest' := got.rest;
    }
  }

  /** Given getline's other promises, it fails on an open connection over a
      well-formed stream exactly when the available bytes hold no newline,
      fall short of cnt - 1, and are followed by an error or an expired wait. */
  lemma LineFailsExactly(c: DataConn, cnt: nat, timeo: int, s: Script, r: GotLine)
    requires cnt >= 1 && LineResult(c, cnt, timeo, s, r)
    ensures c.base.fd >= 0 && WellFormed(s) ==>
      (r.ret == -1 <==> |Avail(c, s)| < cnt - 1 && NL !in Avail(c, s) && !AtEof(AfterData(s)))
  {
    var all := Avail(c, s);
    if c.base.fd >= 0 && WellFormed(s) && r.ret >= 0 && |all| < cnt - 1 && NL !in all {
      assert r.line == all[..|r.line|];
      assert AtEof(r.rest) && AfterData(r.rest) == r.rest;
    }
  }

  /** NetconData::getline: a line of at most cnt - 1 bytes (cnt counts the
      terminating NUL), ending just after the first newline if one comes in
      time; leftovers stay in the buffer for the next call. The value is the
      line's length, 0 at end of stream with nothing read, -1 on error (the
      buffer is then emptied and the partial line lost). */
  method GetLine(c: DataConn, cnt: nat, timeo: int, s: Script) returns (r: GotLine)
    requires cnt >= 1 && |c.buf| <= BufSize
    ensures LineResult(c, cnt, timeo, s, r)
    ensures c.base.fd >= 0 && WellFormed(s) ==>
      (r.ret == -1 <==> |Avail(c, s)| < cnt - 1 && NL !in Avail(c, s) && !AtEof(AfterData(s)))
  {
    var line: seq<byte> := [];
    var room := cnt;
    var conn := c;
    var rest := s;
    assert line + Avail(conn, rest) == Avail(c, s);
    while true
      invariant LineLoop(c, cnt, s, line, room, conn, rest)
      decreases room, if |conn.buf| == 0 then 1 else 0
    {
      var done;
      done, line, room, conn, rest := GetLineTurn(c, cnt, s, timeo, line, room, conn, rest);
      if done.Some? {
        r := done.value;
        LineFailsExactly(c, cnt, timeo, s, r);
        return;
      }
    }
  }

  /** A closed connection reads nothing: with the buffer empty, doreceive of
      one byte and getline both fail, even with a whole line queued. */
  method ClosedConnectionFails(c: DataConn) returns (r1: Received, r2: GotLine)
    requires c.base.fd < 0 && c.buf == []
    ensures r1.ret == -1 && r2.ret == -1
  {
    r1 := DoReceive(c, 1, 0, [Data([7])]);
    r2 := GetLine(c, 5, 0, [Data([97, 98, NL])]);
  }

  /** At end of stream with an empty buffer nothing more can be obtained. */
  lemma EofLeavesNothing(c: DataConn, s: Script)
    ensures AtEof(s) && c.buf == [] ==> Avail(c, s) == []
  {
  }

  /** The two parts of a concatenation are its prefix and suffix at the
      first part's length. */
  lemma Split(a: seq<byte>, b: seq<byte>, all: seq<byte>)
    requires a + b == all
    ensures a == all[..|a|] && b == all[|a|..]
  {
  }

  /** Buffer straddling: "ab\ncd" arriving as reads of 1 then 4 bytes gives
      "ab\n" on the first call, "cd" at end of stream on the second, and 0 on
      the third. */
  method LineStraddlesReads(c: DataConn) returns (first: GotLine, second: GotLine, third: GotLine)
    requires c.base.fd >= 0 && c.buf == []
    ensures first.ret == 3 && first.line == [97, 98, NL]
    ensures second.ret == 2 && second.line == [99, 100]
    ensures third.ret == 0
  {
    var s: Script := [Data([97]), Data([98, NL, 99, 100]), Eof];
    var all: seq<byte> := [97, 98, NL, 99, 100];
    assert s[1..][1..] == [Eof] && [Eof][1..] == [];
    assert Pending(s[1..]) == [98, NL, 99, 100] by {
      assert Pending([Eof]) == [];
    }
    assert Avail(c, s) == all;
    assert WellFormed(s) && Clean(s) by {
      assert WellFormed([Eof]) && Clean([Eof]);
    }

    first := GetLine(c, 100, 0, s);
    var k := |first.line|;
    assert first.ret == k;
    Split(first.line, Avail(first.conn, first.rest), all);
    EofLeavesNothing(first.conn, first.rest);
    assert first.line[..k] == all[..k];
    assert k <= 3 by {
      assert all[2] == NL;
    }
    assert all[0] != NL && all[1] != NL;
    assert k == 3;
    assert first.line == all[..3] == [97, 98, NL];

    var cd := Avail(first.conn, first.rest);
    assert cd == [99, 100];
    second := GetLine(first.conn, 100, 0, first.rest);
    var k2 := |second.line|;
    assert second.ret == k2;
    Split(second.line, Avail(second.conn, second.rest), cd);
    EofLeavesNothing(second.conn, second.rest);
    assert cd[0] != NL && cd[1] != NL;
    assert k2 == 2;
    assert second.line == cd;

    third := GetLine(second.conn, 100, 0, second.rest);
    assert |third.line + Avail(third.conn, third.rest)| == 0;
  }

  /** A line cut short by an error is lost: "a" followed by an error gives -1,
      not a line of length 1. */
  method ErrorMidLineFails(c: DataConn) returns (r: GotLine)
    requires c.base.fd >= 0 && c.buf == []
    ensures r.ret == -1 && r.conn.buf == []
  {
    var s: Script := [Data([97]), Outcome.Err];
    assert Pending(s) == [97] by {
      assert Pending(s[1..]) == [];
    }
    assert WellFormed(s) by {
      assert WellFormed(s[1..]);
    }
    assert AfterData(s) == [Outcome.Err] by {
      assert s[1..] == [Outcome.Err];
    }
    assert NL !in Avail(c, s);
    r := GetLine(c, 100, 0, s);
  }

  // ---------------------------------------------------------------------
  // Default readiness handler

  /** NetconData::cando: (value returned, connection, descriptor). With a user
      callback its result is returned as is (userResult). Otherwise a READ drains
      up to 200 bytes without waiting and returns -1 on error or 0 at end of
      stream; then the WRITE interest is cleared and 1 returned. */
  function Cando(c: DataConn, reason: Event, userResult: Option<int>, s: Script): (r: (int, DataConn, Script))
    ensures userResult.Some? ==> r == (userResult.value, c, s)
    ensures userResult.None? && reason == WriteEvent ==>
      r == (1, c.(base := c.base.(events := c.base.events.(write := false))), s)
    ensures userResult.None? && reason == ReadEvent ==>
      var drained := Receive(c, DrainSize, 0, s);
      && r.2 == drained.rest
      && (r.0 == -1 <==> drained.ret < 0)
      && (r.0 == 0 <==> drained.ret == 0)
      && (r.0 == 1 <==> drained.ret > 0)
      && (r.0 == 1 ==> !r.1.base.events.write && r.1.base.events.read == c.base.events.read)
    ensures r.0 in {-1, 0, 1} || userResult.Some?
  {
    match userResult
    case Some(v) => (v, c, s)
    case None =>
      if reason == ReadEvent then
        var drained := Receive(c, DrainSize, 0, s);
        if drained.ret < 0 then (-1, drained.conn, drained.rest)
        else if drained.ret == 0 then (0, drained.conn, drained.rest)
        else
          var c1 := drained.conn;
          (1, c1.(base := c1.base.(events := c1.base.events.(write := false))), drained.rest)
      else
        (1, c.(base := c.base.(events := c.base.events.(write := false))), s)
  }

  /** The default handler on an open connection over a stream that never fails:
      a READ discards from the front of the available bytes, at most 200 and at
      least one unless at end of stream; it returns 0 exactly at end of stream
      with nothing buffered, and otherwise 1. */
  lemma CandoDrains(c: DataConn, s: Script)
    requires c.base.fd >= 0 && WellFormed(s) && Clean(s)
    ensures var r := Cando(c, ReadEvent, None, s);
      var before, after := Avail(c, s), Avail(r.1, r.2);
      && (r.0 == 0 <==> c.buf == [] && AtEof(s))
      && (r.0 == 1 <==> !(c.buf == [] && AtEof(s)))
      && |after| <= |before| <= |after| + DrainSize
      && after == before[|before| - |after|..]
      && (r.0 == 1 ==> |after| < |before|)
  {
    var d := Receive(c, DrainSize, 0, s);
    ReceiveFacts(c, DrainSize, 0, s);
    var before, after := Avail(c, s), Avail(d.conn, d.rest);
    assert d.data + after == before;
    assert after == before[|d.data|..];
    if c.buf == [] && AtEof(s) {
      assert Pending(s) == [];
    }
    var r := Cando(c, ReadEvent, None, s);
    assert Avail(r.1, r.2) == after;
  }
}
