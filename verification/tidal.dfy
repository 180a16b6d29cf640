/**
  The Tidal content-directory plugin (src/cdplugins/tidal.cxx): paging of the
  helper's JSON listing into UPnP entries, the search criterion mapping, the
  browse/search error paths, the stream read with its byte cap, the cached
  mimetype and the unsupported seek.

  The helper subprocess (CmdTalk) is a function from requests to optional
  replies; the JSON decoder and the criterion tokenizer are inputs; the RTMP
  and HTTP clients are replaced by the sequence of values their read calls
  return.
 */
module Tidal {

  import opened Wrappers

  // ---------------------------------------------------------------------
  // The helper protocol

  /** A call into the helper subprocess: a verb and its string parameters. */
  datatype Request = Request(verb: string, params: map<string, string>)

  /** The helper: None when the call fails, otherwise its reply fields. */
  type Helper = Request -> Option<map<string, string>>

  /** One decoded listing entry: a JSON object whose values are strings. */
  type Entry = map<string, string>

  /** JSON decoding of the helper's "entries" field. */
  type Decoder = string -> seq<Entry>

  // ---------------------------------------------------------------------
  // Entries

  /** The fields of an UpSong that the plugin fills in; unset fields are empty. */
  datatype UpSong = UpSong(
    isContainer: bool,
    id: string, parentId: string, title: string,
    uri: string, artist: string, genre: string, trackNum: string, artUri: string, duration: string)

  /** The value of key in e, or dflt when e has no such key (the JSONTOUPS macro). */
  function FieldOr(e: Entry, key: string, dflt: string): string
  {
    if key in e then e[key] else dflt
  }

  /** Whether the entry carries a type the plugin understands. */
  predicate Typed(e: Entry)
  {
    "tp" in e && (e["tp"] == "ct" || e["tp"] == "it")
  }

  /** The UpSong built from one entry, or None when the entry is skipped
      (no "tp", or a "tp" that is neither "ct" nor "it"). */
  function ToSong(e: Entry): (r: Option<UpSong>)
    ensures r.Some? <==> Typed(e)
    ensures r.Some? ==> (r.value.isContainer <==> e["tp"] == "ct")
    ensures r.Some? ==>
      && r.value.id == FieldOr(e, "id", "")
      && r.value.parentId == FieldOr(e, "pid", "")
      && r.value.title == FieldOr(e, "tt", "")
    ensures r.Some? && r.value.isContainer ==>
      r.value.uri == r.value.artist == r.value.genre == r.value.trackNum == r.value.artUri == r.value.duration == ""
    ensures r.Some? && !r.value.isContainer ==>
      && r.value.uri == FieldOr(e, "uri", "")
      && r.value.genre == FieldOr(e, "upnp:genre", "")
      && r.value.trackNum == FieldOr(e, "upnp:originalTrackNumber", "")
      && r.value.artUri == FieldOr(e, "upnp:albumArtURI", "")
      && r.value.duration == FieldOr(e, "duration", "")
      && (("upnp:artist" in e ==> r.value.artist == e["upnp:artist"])
          && ("upnp:artist" !in e && "dc:creator" in e ==> r.value.artist == e["dc:creator"])
          && ("upnp:artist" !in e && "dc:creator" !in e ==> r.value.artist == ""))
  {
    if "tp" !in e then None
    else
      var common := UpSong(false, FieldOr(e, "id", ""), FieldOr(e, "pid", ""), FieldOr(e, "tt", ""),
                           "", "", "", "", "", "");
      if e["tp"] == "ct" then Some(common.(isContainer := true))
      else if e["tp"] == "it" then
        // The creator is copied first, then overwritten by upnp:artist when present.
        var artist := FieldOr(e, "upnp:artist", FieldOr(e, "dc:creator", ""));
        Some(common.(uri := FieldOr(e, "uri", ""), artist := artist,
                     genre := FieldOr(e, "upnp:genre", ""),
                     trackNum := FieldOr(e, "upnp:originalTrackNumber", ""),
                     artUri := FieldOr(e, "upnp:albumArtURI", ""),
                     duration := FieldOr(e, "duration", "")))
      else None
  }

  /** The songs built from a run of entries, in order, skipped entries omitted. */
  function Songs(es: seq<Entry>): (r: seq<UpSong>)
    ensures |r| <= |es|
  {
    if |es| == 0 then []
    else
      var last := ToSong(es[|es| - 1]);
      Songs(es[..|es| - 1]) + (if last.Some? then [last.value] else [])
  }

  /** The songs of a concatenation are those of each part, one after the other. */
  lemma {:induction false} SongsAppend(a: seq<Entry>, b: seq<Entry>)
    ensures Songs(a + b) == Songs(a) + Songs(b)
    decreases |b|
  {
    if |b| == 0 {
      assert a + b == a;
    } else {
      var b' := b[..|b| - 1];
      assert (a + b)[..|a + b| - 1] == a + b';
      assert (a + b)[|a + b| - 1] == b[|b| - 1];
      SongsAppend(a, b');
    }
  }

  /** Every entry yields at most one song, every typed entry exactly one, and
      every song comes from an entry of the run. */
  lemma {:induction false} SongsCount(es: seq<Entry>)
    ensures |Songs(es)| <= |es|
    ensures |Songs(es)| == |es| <==> forall i :: 0 <= i < |es| ==> Typed(es[i])
    ensures forall s :: s in Songs(es) ==> exists i :: 0 <= i < |es| && ToSong(es[i]) == Some(s)
  {
    if |es| > 0 {
      var init := es[..|es| - 1];
      SongsCount(init);
      assert forall i :: 0 <= i < |init| ==> init[i] == es[i];
      if |Songs(es)| == |es| {
        assert |Songs(init)| == |init| && Typed(es[|es| - 1]);
      }
    }
  }

  // ---------------------------------------------------------------------
  // resultToEntries

  /** The size of the helper's listing is 32-bit-unsigned: stidx is converted
      to unsigned int, so a negative start lands beyond any listing. */
  const UIntRange: int := 0x1_0000_0000

  function Start(stidx: int): (r: nat)
    ensures r < UIntRange
    ensures 0 <= stidx < UIntRange ==> r == stidx
    ensures -UIntRange <= stidx < 0 ==> r == stidx + UIntRange
  {
    stidx % UIntRange
  }

  /** The entries the loop visits: from the start index, one slot per visited
      entry whether or not it is kept, at most cnt of them. */
  function Window(decoded: seq<Entry>, stidx: int, cnt: int): (w: seq<Entry>)
    ensures |w| <= Max(cnt, 0)
    ensures Start(stidx) >= |decoded| || cnt <= 0 ==> w == []
    ensures Start(stidx) < |decoded| ==>
      && |w| == Min(Max(cnt, 0), |decoded| - Start(stidx))
      && w == decoded[Start(stidx)..Start(stidx) + |w|]
  {
    var lo := Start(stidx);
    if lo >= |decoded| then [] else decoded[lo..Min(|decoded|, lo + Max(cnt, 0))]
  }

  /** resultToEntries: appends to entries the songs of the window of the
      decoded listing and returns the size of the whole listing. */
  method ResultToEntries(decoded: seq<Entry>, stidx: int, cnt: int, entries: seq<UpSong>)
    returns (total: int, out: seq<UpSong>)
    ensures total == |decoded|
    ensures out == entries + Songs(Window(decoded, stidx, cnt))
    ensures |entries| <= |out| <= |entries| + Max(cnt, 0)
  {
    var i := Start(stidx);
    var left := cnt;
    out := entries;
    if i >= |decoded| {
      return |decoded|, out;
    }
    var lo := i;
    while i < |decoded|
      invariant lo <= i <= |decoded|
      invariant i - lo <= Max(cnt, 0) && left == cnt - (i - lo)
      invariant out == entries + Songs(decoded[lo..i])
      decreases |decoded| - i
    {
      left := left - 1;
      if left < 0 {
        break;
      }
      var song := ToSong(decoded[i]);
      assert Songs(decoded[lo..i + 1]) == Songs(decoded[lo..i]) + (if song.Some? then [song.value] else []) by {
        assert decoded[lo..i + 1][..i - lo] == decoded[lo..i];
        assert decoded[lo..i + 1][i - lo] == decoded[i];
      }
      if song.Some? {
        out := out + [song.value];
      }
      i := i + 1;
    }
    assert i - lo == Min(Max(cnt, 0), |decoded| - lo);
    assert decoded[lo..i] == Window(decoded, stidx, cnt);
    SongsCount(decoded[lo..i]);
    total := |decoded|;
  }

  /** Paging: the page of n entries at a, followed by the page of m entries at
      a + n, is the page of n + m entries at a. */
  lemma {:induction false} PagesConcatenate(decoded: seq<Entry>, a: int, n: nat, m: nat)
    requires 0 <= a && a + n + m < UIntRange
    ensures Songs(Window(decoded, a, n)) + Songs(Window(decoded, a + n, m)) == Songs(Window(decoded, a, n + m))
  {
    var w1, w2, w := Window(decoded, a, n), Window(decoded, a + n, m), Window(decoded, a, n + m);
    if a >= |decoded| {
      assert w1 == w2 == w == [];
    } else if a + n >= |decoded| {
      assert w2 == [] && w1 == w;
    } else {
      assert w == w1 + w2;
      SongsAppend(w1, w2);
    }
  }

  /** An entry without a type is skipped but still uses the only slot, so the
      typed entry after it is not reached. */
  lemma SkippedEntryUsesSlot(untyped: Entry, item: Entry)
    requires "tp" !in untyped && Typed(item)
    ensures Songs(Window([untyped, item], 0, 1)) == []
    ensures |Songs(Window([untyped, item], 0, 2))| == 1
  {
    assert Window([untyped, item], 0, 1) == [untyped];
    assert Window([untyped, item], 0, 2) == [untyped, item];
    assert [untyped, item][..1] == [untyped];
  }

  // ---------------------------------------------------------------------
  // browse and search

  /** A listing call's result: the value returned and the caller's entry vector. */
  datatype Listing = Listing(ret: int, entries: seq<UpSong>)

  /** The common tail of browse and search: a failed call or a reply without
      "entries" is -1 with entries untouched; otherwise resultToEntries. */
  method Listed(reply: Option<map<string, string>>, decode: Decoder, stidx: int, cnt: int, entries: seq<UpSong>)
    returns (r: Listing)
    ensures reply.None? || "entries" !in reply.value ==> r == Listing(-1, entries)
    ensures reply.Some? && "entries" in reply.value ==>
      var decoded := decode(reply.value["entries"]);
      r == Listing(|decoded|, entries + Songs(Window(decoded, stidx, cnt)))
  {
    if reply.None? || "entries" !in reply.value {
      return Listing(-1, entries);
    }
    var total, out := ResultToEntries(decode(reply.value["entries"]), stidx, cnt, entries);
    return Listing(total, out);
  }

  /** Tidal::browse: -1 when the helper cannot be started (started is false),
      the call fails or its reply has no "entries". */
  method Browse(started: bool, helper: Helper, decode: Decoder, objid: string, stidx: int, cnt: int,
                entries: seq<UpSong>) returns (r: Listing)
    ensures !started ==> r == Listing(-1, entries)
    ensures started ==>
      var reply := helper(Request("browse", map["objid" := objid]));
      (reply.None? || "entries" !in reply.value ==> r == Listing(-1, entries))
      && (reply.Some? && "entries" in reply.value ==>
            var decoded := decode(reply.value["entries"]);
            r == Listing(|decoded|, entries + Songs(Window(decoded, stidx, cnt))))
    ensures r.ret >= 0 ==> |entries| <= |r.entries| && r.entries[..|entries|] == entries
  {
    if !started {
      return Listing(-1, entries);
    }
    r := Listed(helper(Request("browse", map["objid" := objid])), decode, stidx, cnt, entries);
  }

  /** The helper's search field for a UPnP property. */
  function FieldFor(property: string): (r: Option<string>)
    ensures r == Some("artist") <==> property == "upnp:artist" || property == "dc:author"
    ensures r == Some("album") <==> property == "upnp:album"
    ensures r == Some("track") <==> property == "dc:title"
    ensures r.None? <==> property !in {"upnp:artist", "dc:author", "upnp:album", "dc:title"}
  {
    if property == "upnp:artist" || property == "dc:author" then Some("artist")
    else if property == "upnp:album" then Some("album")
    else if property == "dc:title" then Some("track")
    else None
  }

  /** The helper request for a search of value in field under container ctid. */
  function SearchRequest(ctid: string, field: string, value: string): Request
  {
    Request("search", map["objid" := ctid, "field" := field, "value" := value])
  }

  /** The request carries the whole criterion: two searches send the same
      request exactly when container, field and value all agree. */
  lemma SearchRequestKeepsCriterion(ctid: string, field: string, value: string,
                                    ctid': string, field': string, value': string)
    ensures SearchRequest(ctid, field, value) == SearchRequest(ctid', field', value')
      <==> ctid == ctid' && field == field' && value == value'
  {
    if SearchRequest(ctid, field, value) == SearchRequest(ctid', field', value') {
      var p, p' := SearchRequest(ctid, field, value).params, SearchRequest(ctid', field', value').params;
      assert p["objid"] == p'["objid"] && p["field"] == p'["field"] && p["value"] == p'["value"];
    }
  }

  /** Tidal::search: the criterion, already split into tokens, must be exactly
      "property op value"; the operator is not looked at and the value is the
      third token. */
  method Search(started: bool, helper: Helper, decode: Decoder, ctid: string, stidx: int, cnt: int,
                tokens: seq<string>, entries: seq<UpSong>) returns (r: Listing)
    ensures !started || |tokens| != 3 ==> r == Listing(-1, entries)
    ensures |tokens| == 3 && FieldFor(tokens[0]).None? ==> r == Listing(-1, entries)
    ensures started && |tokens| == 3 && FieldFor(tokens[0]).Some? ==>
      var reply := helper(SearchRequest(ctid, FieldFor(tokens[0]).value, tokens[2]));
      (reply.None? || "entries" !in reply.value ==> r == Listing(-1, entries))
      && (reply.Some? && "entries" in reply.value ==>
            var decoded := decode(reply.value["entries"]);
            r == Listing(|decoded|, entries + Songs(Window(decoded, stidx, cnt))))
  {
    if !started || |tokens| != 3 {
      return Listing(-1, entries);
    }
    var field := FieldFor(tokens[0]);
    if field.None? {
      return Listing(-1, entries);
    }
    r := Listed(helper(SearchRequest(ctid, field.value, tokens[2])), decode, stidx, cnt, entries);
  }

  /** The operator token plays no part: two criteria that differ only there
      send the same request and give the same listing. */
  method SearchIgnoresOperator(helper: Helper, decode: Decoder, ctid: string, prop: string, op1: string,
                               op2: string, value: string, entries: seq<UpSong>)
    returns (r1: Listing, r2: Listing)
    ensures r1 == r2
  {
    r1 := Search(true, helper, decode, ctid, 0, 10, [prop, op1, value], entries);
    r2 := Search(true, helper, decode, ctid, 0, 10, [prop, op2, value], entries);
  }

  // ---------------------------------------------------------------------
  // Streaming: read and seek

  /** What an open StreamHandle holds: an RTMP session, an HTTP download, or neither. */
  datatype Handle = Rtmp | Http | Neither

  /** The byte cap: pupnp asks for up to 1 MB, the plugin reads at most 100 KB. */
  const ReadCap: nat := 100 * 1024

  function Capped(cnt: nat): (r: nat)
    ensures r <= ReadCap && r <= cnt
    ensures r == cnt || r == ReadCap
  {
    if cnt > ReadCap then ReadCap else cnt
  }

  /** What the RTMP read loop accumulates: successive RTMP_Read results while
      they are positive and the total is below want. */
  function RtmpTotal(results: seq<int>, want: int): (t: nat)
    ensures t == 0 <==> want <= 0 || |results| == 0 || results[0] <= 0
  {
    if want <= 0 || |results| == 0 || results[0] <= 0 then 0
    else results[0] + RtmpTotal(results[1..], want - results[0])
  }

  /** RTMP_Read never delivers more than the room it was given. */
  predicate WithinRoom(results: seq<int>, want: int)
  {
    want <= 0 || |results| == 0 || results[0] <= 0
      || (results[0] <= want && WithinRoom(results[1..], want - results[0]))
  }

  /** With a well-behaved RTMP client the loop never reads past its request. */
  lemma {:induction false} RtmpTotalWithinRequest(results: seq<int>, want: int)
    requires WithinRoom(results, want)
    ensures RtmpTotal(results, want) <= Max(want, 0)
  {
    if !(want <= 0 || |results| == 0 || results[0] <= 0) {
      RtmpTotalWithinRequest(results[1..], want - results[0]);
    }
  }

  /** Tidal::Internal::read. rtmpReads: what successive RTMP_Read calls return
      (an exhausted sequence reads as 0); http: the UpnpReadHttpGet status and
      the count it reports. A null handle, an HTTP error, a handle with neither
      stream, and an RTMP read that gets nothing, return -1. */
  method Read(handle: Option<Handle>, cnt: nat, rtmpReads: seq<int>, http: (int, int)) returns (ret: int)
    ensures handle.None? || handle == Some(Neither) ==> ret == -1
    ensures handle == Some(Rtmp) ==>
      var total := RtmpTotal(rtmpReads, Capped(cnt));
      ret == (if total > 0 then total else -1)
    ensures handle == Some(Http) ==> ret == (if http.0 != 0 then -1 else http.1)
    ensures handle == Some(Rtmp) && WithinRoom(rtmpReads, Capped(cnt)) ==> ret == -1 || 0 < ret <= ReadCap
  {
    if handle.None? {
      return -1;
    }
    var want := Capped(cnt);
    match handle.value
    case Rtmp =>
      var totread := 0;
      var k := 0;
      while totread < want
        invariant 0 <= k <= |rtmpReads|
        invariant totread + RtmpTotal(rtmpReads[k..], want - totread) == RtmpTotal(rtmpReads, want)
        invariant totread >= 0
        decreases |rtmpReads| - k
      {
        var didread := if k < |rtmpReads| then rtmpReads[k] else 0;
        if didread <= 0 {
          break;
        }
        assert rtmpReads[k..][1..] == rtmpReads[k + 1..];
        totread := totread + didread;
        k := k + 1;
      }
      if WithinRoom(rtmpReads, want) {
        RtmpTotalWithinRequest(rtmpReads, want);
      }
      ret := if totread > 0 then totread else -1;
    case Http =>
      ret := if http.0 != 0 then -1 else http.1;
    case Neither =>
      ret := -1;
  }

  /** Tidal::Internal::seek: the streams cannot seek; every request fails. */
  function Seek(handle: Option<Handle>, offset: int, whence: int): (r: int)
    ensures r == -1
  {
    -1
  }

  // ---------------------------------------------------------------------
  // The mimetype cache

  /** get_mimetype's result and the cache after the call. */
  datatype Mimetype = Mimetype(mime: string, cache: string)

  /** Tidal::Internal::get_mimetype: the helper is asked only while the cache is
      empty; a failed call or a reply without "mimetype" gives "" and leaves the
      cache as it was. When the helper cannot be started the result is "" even
      with a filled cache. */
  function GetMimetype(started: bool, helper: Helper, cache: string, path: string): (r: Mimetype)
    ensures !started ==> r == Mimetype("", cache)
    ensures started && cache != [] ==> r == Mimetype(cache, cache)
    ensures r.cache == cache || cache == []
    ensures r.mime == [] || r.mime == r.cache
    ensures started && cache == [] ==>
      var reply := helper(Request("mimetype", map["path" := path]));
      if reply.Some? && "mimetype" in reply.value then r == Mimetype(reply.value["mimetype"], reply.value["mimetype"])
      else r == Mimetype("", cache)
  {
    if !started then Mimetype("", cache)
    else if cache == [] then
      var reply := helper(Request("mimetype", map["path" := path]));
      if reply.None? || "mimetype" !in reply.value then Mimetype("", cache)
      else
        var m := reply.value["mimetype"];
        Mimetype(m, m)
    else Mimetype(cache, cache)
  }

  /** Once filled the cache answers alone: a second call returns the same
      mimetype whatever the helper would say now, and for any path. */
  lemma MimetypeCached(helper1: Helper, helper2: Helper, path1: string, path2: string, cache: string)
    ensures var first := GetMimetype(true, helper1, cache, path1);
      first.cache != [] ==> GetMimetype(true, helper2, first.cache, path2) == Mimetype(first.cache, first.cache)
  {
  }
}
