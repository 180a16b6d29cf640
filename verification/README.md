# upmpdcli core, modelled in Dafny

This project models three parts of upmpdcli and proves properties of them.

- **The connection library (src/netcon.cpp).**
  - The `SelectLoop` reactor: the registry of connections, the periodic-task deadline, one iteration of `doLoop` and the fairness sweep over ready descriptors.
  - `NetconData`'s buffered reads: `receive`, `doreceive`, `getline` and the default `cando`.
  - Descriptor ownership in `closeconn`/`setconn`.
  - The choice between Unix-domain and IPv4 addressing in `openconn`/`openservice`/`accept`.
  - The listener's admission filter `checkperms`.
- **The Tidal content-directory plugin (src/cdplugins/tidal.cxx).**
  - Paging the helper's JSON listing into UPnP entries.
  - Mapping a search criterion to the helper's fields.
  - The browse/search error paths.
  - The byte cap of `read`, the mimetype cache, and `seek`.
- **The RenderingControl client (libupnpp/control/renderingcontrol.cxx).**
  - Recognising the service type, whose URN form is defined in section 2.1 of the UPnP Device Architecture 1.0.
  - Tracking volume and mute from LastChange events.
  - The return codes of the volume and mute actions.

Everything is immutable data. Operations are pure functions, except for methods in three places. The first is where the source loops: `doreceive`, `getline`, `resultToEntries` and the RTMP read loop, whose loop turns (`ReceiveTurn`, `GetLineTurn`, `RefillTurn`, `Refill`) are methods too. The second is the Tidal operations that call the listing loop: `Listed`, `Browse` and `Search`. The third is worked examples that run those methods on fixed inputs, such as `PartialAtClose`, `LineStraddlesReads` and `SearchIgnoresOperator`. System calls and foreign code become inputs:

- **Descriptors.** A descriptor is a script of read outcomes (`Stream.Script`): queued data, end of stream, error, or a wait that expires.
- **`select`.** It is represented by the sets of ready descriptors, or a failure.
- **The clock.** It is given as readings in microseconds, `tv_sec` * 10^6 + `tv_usec`.
- **`cando` callbacks.** They are a function from (descriptor, event) to the callback's result.
- **The Tidal helper process.** It is a function from requests to optional replies. The JSON decoder and the RTMP/HTTP clients are inputs too.
- **SOAP, the LastChange decoder, `atoi` and `stringToBool`.** All four are inputs.

Modules: `Wrappers` (Option/Result), `Stream`, `Netcon`, `SelectLoop`, `NetconData`, `Tidal`, `RenderingControl`.

## Model

| member | source | states |
|---|---|---|
| Stream.Read | src/netcon.cpp:475-483 | one read(2): at most cnt bytes, which are a prefix of the queued bytes, the remainder staying queued; -1 exactly when the head is an error, or a Timeout nobody waits for (a read that would block); 0 on an open well-formed stream only at end of stream |
| Stream.ReadClean | src/netcon.cpp:475-483 | on a stream that never fails a read never returns -1, and the stream stays failure-free |
| Netcon.CloseConn | src/netcon.cpp:328-335 | the descriptor is closed exactly when it is open and owned; afterwards there is no descriptor and ownership is set |
| Netcon.CloseConnIdempotent | src/netcon.cpp:328-335 | a second closeconn releases nothing and changes nothing |
| Netcon.SetConn | src/netcon.cpp:713-723 | the old descriptor is released as closeconn would; the new one is adopted without ownership, with an empty peer name |
| Netcon.AdoptedDescriptorNeverReleased | src/netcon.cpp:713-723 | a descriptor adopted by setconn is never closed by the connection, which owns the next descriptor it opens |
| Netcon.UnixPathBound | src/netcon.cpp:643-646 | the limit is on strlen, in bytes: a path that fits has at most UNIX_PATH_MAX - 1 = 89 characters, an ASCII path fits exactly when it has at most 89 characters, and 89 copies of 'é' (178 bytes) do not fit |
| Netcon.StrLen | src/netcon.cpp:643 | a name's length in bytes is at least its length in characters, and equal to it for ASCII |
| Netcon.StrLenUniform | src/netcon.cpp:643 | a name whose characters all take k bytes has k times its length in bytes |
| Netcon.Htons | src/netcon.cpp:619 | the port that reaches the address is below 2^16, the same as the given port when in range, and otherwise congruent to it modulo 2^16 |
| Netcon.ClientAddress | src/netcon.cpp:616-655 | a host starting with '/' is a Unix path, used exactly when it fits; otherwise inet_addr, then, when that yields INADDR_NONE, gethostbyname's address or nothing when it fails; the port is cut to 16 bits as htons does |
| Netcon.OpenConn | src/netcon.cpp:604-692 | 0 exactly when the address resolves, socket(2) succeeds and connect succeeds (at once, or with a positive timeout after an in-progress connect becomes writable); on failure no descriptor is kept and a created socket is closed; the old descriptor is released first |
| Netcon.OpenConnService | src/netcon.cpp:695-710 | a Unix path ignores the service; otherwise an unknown TCP service fails at once without touching the connection, and a known one connects to its port |
| Netcon.OpenConnReleasesOnce | src/netcon.cpp:604-692 | every descriptor openconn owns is released exactly once and no other: the old one at once, a new socket at once on failure or at the next closeconn on success |
| Netcon.Bind | src/netcon.cpp:780-805 | 0 exactly when socket, bind and listen all succeed; a failure after socket(2) closes the new descriptor |
| Netcon.OpenService | src/netcon.cpp:750-848 | a null service fails; 0 exactly when the name reaches socket(2) (a '/' name that fits, or a known TCP service) and socket, bind and listen succeed; a '/' name binds that path, another the wildcard address on the service's port; the socket is released exactly when a step after it fails |
| Netcon.OpenServiceReleasesOnce | src/netcon.cpp:750-848 | the socket openservice creates is released exactly once, at once on failure or at the listener's next closeconn; a call that stops before socket(2) releases nothing and leaves the descriptor alone |
| Netcon.UnixPathsSkipResolver | src/netcon.cpp:616-655 | a name starting with '/' gives the same client address and the same listener whatever the resolver answers |
| Netcon.ClientAndListenerAgree | src/netcon.cpp:766-830 | when socket, bind and listen succeed, a listener opens on a Unix path exactly when a client can address it, at the same address; for a TCP service both sides use its port cut to 16 bits |
| Netcon.CheckPerms | src/netcon.cpp:987-1018 | the peer is admitted exactly when either list is empty, or the peer is IPv4 and some address i matches under mask i, the last mask standing in past the end of the mask list |
| Netcon.MaskClampIsPadding | src/netcon.cpp:1004-1012 | a short mask list behaves as if its last mask were repeated |
| Netcon.ScanFrom | src/netcon.cpp:1004-1015 | the scan from address i admits the peer exactly when some address at or after i matches it under its mask |
| Netcon.AllowListExample | src/netcon.cpp:987-1018 | a 10.0.0.0/255.0.0.0 list admits 10.1.2.3 and rejects 11.1.2.3; empty lists admit everyone |
| Netcon.Accept | src/netcon.cpp:910-983 | an expired wait sets the timed-out flag and yields no connection; a new connection owns the accepted descriptor; on an IPv4 listener with access control a connection is made only for an admitted peer, and a rejected peer's descriptor is closed; the peer is named by path, reverse lookup, or numeric address when the lookup fails; once the wait did not expire the timed-out flag is cleared; a failing wait leaves the listener untouched |
| Netcon.AcceptReleasesOnce | src/netcon.cpp:910-983 | the descriptor accept(2) hands over is released exactly once: at once when the peer is refused, otherwise at the new connection's closeconn |
| Netcon.AcceptFilters | src/netcon.cpp:931-949 | once accept(2) has produced a descriptor, a connection is made exactly when access control is off, the listener is Unix-domain, or checkperms admits the peer |
| SelectLoop.TopWanted | src/netcon.cpp:184-198 | one past the highest descriptor below n that is registered with a wanted event, or 0 when there is none |
| SelectLoop.Nfds | src/netcon.cpp:184-198 | nfds exceeds every selectable descriptor, nfds - 1 is selectable, and nfds is 0 exactly when no registered connection wants an event |
| SelectLoop.SetPeriodicHandler | src/netcon.cpp:112-120 | sets period and handler; the last-call time restarts only for a positive period |
| SelectLoop.PeriodicTimeout | src/netcon.cpp:124-146 | the wait is never zero; with no period it is 10000 s; otherwise it is max(1, period - elapsed) ms, split into seconds and microseconds below 10^6 |
| SelectLoop.DeadlineToTheMillisecond | src/netcon.cpp:124-146 | before the periodic handler is due the wait is the milliseconds MILLIS counts as left and ends within 1 ms of the last call plus the period; a due handler waits 1 ms; a wait that runs 1 ms past its length finds it due |
| SelectLoop.Millis | src/netcon.cpp:84 | MILLIS, with the microseconds difference truncated toward zero, is within 1 ms of the true elapsed time either way |
| SelectLoop.WakeAtDeadlineCanBeEarly | src/netcon.cpp:84 | because MILLIS truncates, a wait that ends exactly at its length can find the handler 1 ms short of due (last call 0.000999 s, reading 1.000500 s, period 1500 ms) |
| SelectLoop.MaybeCallPeriodic | src/netcon.cpp:150-167 | with no period, or when not due, 1 and no change; when due the last-call time becomes the second clock reading and the handler's result (0 with no handler) is returned |
| SelectLoop.PeriodicFiresOncePerPeriod | src/netcon.cpp:150-167 | after firing, the periodic handler is not due again until a period less 1 ms has passed since the reading it recorded |
| SelectLoop.AddSelCon | src/netcon.cpp:287-298 | a null connection returns -1; otherwise the connection is stored under its descriptor with the given events, replacing any previous entry, and no other key changes |
| SelectLoop.RemSelCon | src/netcon.cpp:301-315 | -1 when the connection is null or its descriptor is absent; otherwise exactly that key is erased |
| SelectLoop.AddThenRemove | src/netcon.cpp:287-315 | removing what was just added restores the registry, less any entry the descriptor had before |
| SelectLoop.Dispatch | src/netcon.cpp:268-274 | a wanted bit is cleared exactly when its event was ready and its cando returned 0 or less; nothing else in the connection changes |
| SelectLoop.Visit | src/netcon.cpp:246-278 | one descriptor's turn in the sweep: only its entry can change; the cursor moves to fd + 1 exactly when it is ready and registered |
| SelectLoop.Settle | src/netcon.cpp:262-278 | a serviced entry keeps a bit exactly when it had it and the event was not ready with cando returning 0 or less, and is erased exactly when no bit is left; an entry not serviced is unchanged |
| SelectLoop.VisitOrder | src/netcon.cpp:242-249 | the visiting order starts at the cursor and is a permutation of [0, nfds) |
| SelectLoop.LoopVisitsInOrder | src/netcon.cpp:246-279 | the loop as written, with i counting and fd wrapping at nfds, visits exactly VisitOrder in that order |
| SelectLoop.SweepLoop | src/netcon.cpp:246-279 | the loop never touches an entry outside [0, nfds) and keeps the cursor within nfds |
| SelectLoop.Sweep | src/netcon.cpp:242-279 | the whole sweep leaves entries outside [0, nfds) alone and ends with the cursor at most nfds |
| SelectLoop.SweepSeqEffect | src/netcon.cpp:246-279 | visiting distinct descriptors settles each visited entry once against the registry before the sweep, leaves the others alone, and puts the cursor one past the last serviced one |
| SelectLoop.SweepEffect | src/netcon.cpp:242-279 | the cursor resets to 0 when not below nfds; each entry in [0, nfds) is settled (a bit cleared exactly when its cando returned <= 0, the entry erased exactly when both bits are clear); others are untouched; the cursor ends at 1 + the last serviced descriptor, or at its start when none was serviced |
| SelectLoop.LastFoundExists | src/netcon.cpp:266-267 | when some visited descriptor is serviced, there is a last one |
| SelectLoop.Step | src/netcon.cpp:169-284 | exits in this order: a deferred return clears its flag and yields the stored value; no wanted events clears the registry and yields 0 with no wait; a select failure yields -1; a due periodic task whose handler yields <= 0, or that has no handler, yields 1; the wait is never zero; an iteration the periodic task does not end goes on; a return request is recorded exactly when a callback ran and posted one |
| SelectLoop.ReturnRequestHonoured | src/netcon.cpp:172-175 | a return request posted by a callback makes the next iteration leave at once with the posted value, clearing the request |
| SelectLoop.StepSweeps | src/netcon.cpp:232-279 | an iteration that continues after readiness settles exactly the ready registered connections, and moves the cursor one past the last one serviced |
| SelectLoop.StepOnlyShrinks | src/netcon.cpp:169-284 | an iteration never adds connections or wanted events: each surviving entry is the same connection with a subset of its bits |
| SelectLoop.EmptyMaskReturnsZero | src/netcon.cpp:200-211 | a connection registered with no events, alone, makes the loop return 0 at once and empties the registry |
| SelectLoop.ReadDoneKeepsWriter | src/netcon.cpp:269-278 | a READ handler returning 0 leaves the connection registered for WRITE only; a later WRITE returning 0 erases it |
| NetconData.WaitAndRead | src/netcon.cpp:463-483 | a positive timeout that expires sets the timed-out flag and yields -1; otherwise one read; the flag records exactly whether the wait expired |
| NetconData.Receive | src/netcon.cpp:442-484 | at most cnt bytes, buffered leftovers first; on success the bytes delivered followed by what is still available are exactly what was available; on failure the bytes taken from the buffer are lost; a closed connection yields -1 |
| NetconData.ReceiveOrder | src/netcon.cpp:445-476 | the buffer is served first; a request it satisfies does no read; otherwise the timed-out flag and -1 follow the wait and the read exactly |
| NetconData.ReceiveProgress | src/netcon.cpp:442-484 | on an open connection receive returns 0 only at end of stream with an empty buffer, and returns a positive count whenever the buffer satisfies the request or bytes are queued |
| NetconData.ReceiveClean | src/netcon.cpp:442-484 | on an open connection a stream that never fails makes receive succeed |
| NetconData.DoReceive | src/netcon.cpp:487-505 | on an open connection over a well-formed stream: exactly min(cnt, available) bytes, in order, from what was available; -1 exactly when fewer than cnt are available and the stream does not end after them, which covers an error or timeout after some bytes have arrived; the timed-out flag is set exactly when that failure is an expired wait; on a closed connection any request for one or more bytes gives -1 |
| NetconData.ExactFailsExactly | src/netcon.cpp:487-505 | from doreceive's invariant at exit, on an open connection over a well-formed stream, the count is min(cnt, available) and -1 comes exactly when the data runs out before cnt bytes without end of stream |
| NetconData.ReceiveLoop | src/netcon.cpp:493-504 | the loop of doreceive ends with the result doreceive promises |
| NetconData.ReceiveTurn | src/netcon.cpp:493-503 | one receive for the missing bytes keeps the loop's invariant and progress, or ends the loop with the promised result |
| NetconData.TurnEnds | src/netcon.cpp:495-500 | a receive that fails or meets end of stream ends doreceive's loop with -1 or the count so far, as promised |
| NetconData.FailureAfterPartialData | src/netcon.cpp:495-497 | one byte then an error, on a 2-byte request, gives -1 without the timed-out flag; one byte then a silent peer gives -1 with it |
| NetconData.PartialAtClose | src/netcon.cpp:487-505 | a peer that sends 4 bytes and closes gives a request for 10 those 4 bytes |
| NetconData.SilentPeerTimesOut | src/netcon.cpp:487-505 | a peer that stays silent past the timeout gives -1 and sets the timed-out flag |
| NetconData.TransferCount | src/netcon.cpp:533-546 | the copy takes bytes up to and including the first newline, within the room left, and stops short only just after a newline |
| NetconData.Take | src/netcon.cpp:533-548 | the bytes moved keep their order; the line never holds a newline before its last byte; a pass that neither fills the room nor ends the line drains the buffer |
| NetconData.Refill | src/netcon.cpp:557-568 | one receive of up to 200 bytes into the emptied buffer: bytes come from the stream in order, 0 only at end of stream, -1 only on a closed connection or on an error or expired wait at the head of the stream, which it consumes |
| NetconData.GetLineTurn | src/netcon.cpp:530-570 | one turn of getline's loop keeps the loop's invariant, makes progress, or ends with getline's promised result |
| NetconData.RefillTurn | src/netcon.cpp:557-569 | the refill half of a turn keeps the loop's invariant, or ends with getline's promised result on end of stream or failure |
| NetconData.LineFailsExactly | src/netcon.cpp:515-571 | from getline's other promises, on an open connection over a well-formed stream it returns -1 exactly when fewer than cnt - 1 bytes without a newline are available and the stream does not end after them |
| NetconData.GetLine | src/netcon.cpp:515-571 | at most cnt - 1 bytes, ending just after the first newline when one comes in time; the line followed by what is still available is what was available; end of stream returns the count so far; on an open connection over a well-formed stream, -1, with the buffer emptied, exactly when the available bytes hold no newline, are fewer than cnt - 1 and are followed by an error or an expired wait (the flag telling which); on a closed connection, -1 exactly when the leftovers in the buffer do not complete the line; leftovers never exceed 200 bytes |
| NetconData.LineStraddlesReads | src/netcon.cpp:515-571 | "ab\ncd" arriving as reads of 1 then 4 bytes yields "ab\n", then "cd" at end of stream, then 0 |
| NetconData.ErrorMidLineFails | src/netcon.cpp:565-568 | "a" followed by an error gives -1 and the byte is lost |
| NetconData.ClosedConnectionFails | src/netcon.cpp:445-448 | on a closed connection with an empty buffer, doreceive of one byte and getline fail, even with a whole line queued |
| NetconData.Cando | src/netcon.cpp:577-600 | a user callback's result is returned unchanged; WRITE clears the write interest and returns 1; READ drains up to 200 bytes without waiting: -1 on error, 0 at end of stream, otherwise 1 with the write interest cleared |
| NetconData.CandoDrains | src/netcon.cpp:584-599 | on an open connection over a stream that never fails, a READ without a user callback discards bytes from the front of what is available, at most 200 and at least one unless at end of stream; 0 exactly at end of stream with nothing buffered, otherwise 1 |
| Tidal.ToSong | src/cdplugins/tidal.cxx:301-334 | an entry is kept exactly when its "tp" is "ct" or "it"; a container carries only id, pid and title; an item also carries uri, genre, track number, art URI and duration; upnp:artist overrides dc:creator |
| Tidal.Songs | src/cdplugins/tidal.cxx:297-336 | a run of entries yields at most one song per entry |
| Tidal.SongsAppend | src/cdplugins/tidal.cxx:297-336 | the songs of two consecutive runs of entries are the songs of the whole run |
| Tidal.SongsCount | src/cdplugins/tidal.cxx:297-336 | each entry yields at most one song, the count is the run's length exactly when every entry is typed, and every song comes from an entry of the run |
| Tidal.Start | src/cdplugins/tidal.cxx:297 | the start index is stidx converted to unsigned int: unchanged when in range, 2^32 + stidx when negative |
| Tidal.Window | src/cdplugins/tidal.cxx:297-300 | the visited entries start at the start index and are at most cnt (none when cnt <= 0 or the start is past the end); skipped entries use a slot |
| Tidal.ResultToEntries | src/cdplugins/tidal.cxx:290-340 | returns the total listing size whatever stidx and cnt are; appends the songs of the window, at most cnt, after the existing entries, which stay as they were |
| Tidal.PagesConcatenate | src/cdplugins/tidal.cxx:297-336 | the page of n entries at a, followed by the page of m entries at a + n, is the page of n + m entries at a |
| Tidal.SkippedEntryUsesSlot | src/cdplugins/tidal.cxx:298-307 | an untyped entry uses the only slot, so the typed entry after it is not reached |
| Tidal.Listed | src/cdplugins/tidal.cxx:351-362 | a failed helper call or a reply without "entries" gives -1 with the entries unchanged; otherwise the listing is paged |
| Tidal.Browse | src/cdplugins/tidal.cxx:342-363 | -1 with the entries unchanged when the helper cannot start, fails or returns no "entries"; otherwise the decoded listing's size and its window appended |
| Tidal.FieldFor | src/cdplugins/tidal.cxx:384-396 | upnp:artist and dc:author map to artist, upnp:album to album, dc:title to track, anything else to nothing |
| Tidal.Search | src/cdplugins/tidal.cxx:366-413 | -1 unless the helper starts, the criterion has exactly 3 tokens and its property maps to a field; the request carries that field and the third token as value; then the browse error paths and paging |
| Tidal.SearchIgnoresOperator | src/cdplugins/tidal.cxx:384-402 | the middle token plays no part in the search |
| Tidal.SearchRequestKeepsCriterion | src/cdplugins/tidal.cxx:399-402 | the search request (SearchRequest) carries the whole criterion: two requests are equal exactly when container, field and value all agree |
| Tidal.Capped | src/cdplugins/tidal.cxx:222-223 | the request is capped at 100*1024 bytes |
| Tidal.RtmpTotal | src/cdplugins/tidal.cxx:229-236 | the RTMP loop's total is 0 exactly when the first read yields nothing or nothing is asked |
| Tidal.RtmpTotalWithinRequest | src/cdplugins/tidal.cxx:229-236 | with a client that never exceeds the room it is given, the total never exceeds the request |
| Tidal.Read | src/cdplugins/tidal.cxx:214-250 | a null handle, a handle with neither stream, or an HTTP error gives -1; RTMP gives the total read if positive, else -1, and, with an RTMP client that stays within the room it is given, at most 100*1024 bytes; HTTP gives the reported count |
| Tidal.Seek | src/cdplugins/tidal.cxx:252-256 | every seek returns -1 |
| Tidal.GetMimetype | src/cdplugins/tidal.cxx:106-127 | the helper is asked only while the cache is empty; a failed call or a reply without "mimetype" gives "" and leaves the cache unchanged; a filled cache is never changed; with no helper the result is "" |
| Tidal.MimetypeCached | src/cdplugins/tidal.cxx:111-126 | once the cache is filled, a later call returns the cached mimetype whatever the helper would answer and for any path |
| RenderingControl.IsRDCService | libupnpp/control/renderingcontrol.cxx:34-43 | st is accepted exactly when it is at least as long as SType minus its last two characters and starts with them |
| RenderingControl.AnyVersionAccepted | libupnpp/control/renderingcontrol.cxx:37-43 | the RenderingControl service type is accepted with any version suffix |
| RenderingControl.AcceptedHasPrefix | libupnpp/control/renderingcontrol.cxx:39-43 | an accepted string starts with urn:schemas-upnp-org:service:RenderingControl; strings shorter than that are rejected |
| RenderingControl.OtherServicesRejected | libupnpp/control/renderingcontrol.cxx:39-43 | AVTransport and ConnectionManager service types are rejected whatever their version |
| RenderingControl.ApplyLastChange | libupnpp/control/renderingcontrol.cxx:57-65 | Volume sets the volume through atoi; Mute sets the flag when it parses as a boolean; nothing else changes either |
| RenderingControl.OtherVariablesIgnored | libupnpp/control/renderingcontrol.cxx:57-65 | variables other than Volume and Mute change nothing |
| RenderingControl.ApplyIdempotent | libupnpp/control/renderingcontrol.cxx:57-65 | applying the same LastChange twice is applying it once |
| RenderingControl.EvtCallback | libupnpp/control/renderingcontrol.cxx:45-73 | an event without a LastChange variable leaves volume and mute unchanged |
| RenderingControl.DecodeFailureStops | libupnpp/control/renderingcontrol.cxx:50-56 | a LastChange that fails to decode ends the callback; nothing after it is looked at |
| RenderingControl.EvtCallbackEffect | libupnpp/control/renderingcontrol.cxx:45-73 | with distinct variable names, whatever their order, the effect is the decoded LastChange applied once, or nothing when decoding fails |
| RenderingControl.SetVolume | libupnpp/control/renderingcontrol.cxx:80-90 | 0 exactly when the action succeeds; otherwise the action's code |
| RenderingControl.SetMute | libupnpp/control/renderingcontrol.cxx:109-119 | 0 exactly when the action succeeds; otherwise the action's code |
| RenderingControl.GetVolume | libupnpp/control/renderingcontrol.cxx:92-108 | the action's code on failure, UPNP_E_BAD_RESPONSE without CurrentVolume, otherwise CurrentVolume |
| RenderingControl.ActionCodesPassThrough | libupnpp/control/renderingcontrol.cxx:80-119 | for any code runAction returns with no values: setVolume and setMute return it unchanged, getVolume returns it when it is an error and UPNP_E_BAD_RESPONSE when it is success, and the corrected getMute fails with the same code |
| RenderingControl.GetMuteAsWritten | libupnpp/control/renderingcontrol.cxx:121-137 | as written: every failure reads as true |
| RenderingControl.FailedGetMuteReadsAsMuted | libupnpp/control/renderingcontrol.cxx:126-136 | a failing action and a successful "muted" reply give the same answer |
| RenderingControl.GetMute | libupnpp/control/renderingcontrol.cxx:121-137 | corrected: Ok(mute) exactly when the action succeeds and CurrentMute is readable; failures carry their nonzero code |
| RenderingControl.GetMuteAgreesOnSuccess | libupnpp/control/renderingcontrol.cxx:121-137 | the corrected and as-written versions agree whenever the action succeeds |

## Left out

- System calls are not executed. They are represented only by their results:
  - `select`/`select1`, `read`, `send` and `MSG_OOB`;
  - `socket`, `connect`, `bind`, `listen`, `accept`, `setsockopt` and `fcntl`;
  - the resolver calls;
  - `gettimeofday`, as clock readings in microseconds.
- `NetconData::send`, `readready` and `writeready` are not modelled. They are thin wrappers around system calls.
- `Netcon::select1`'s failure inside `receive` is not modelled separately. A failing wait and a failing read are one error outcome.
- SelectLoop.Nfds: only counts descriptors in [0, FD_SETSIZE) (1024 with glibc). `FD_SET` on a larger descriptor is undefined behaviour in the source.
- SelectLoop.PeriodicTimeout: the millisecond difference is an unbounded integer. The source's `int` overflow after about 24 days is not modelled.
- SelectLoop.Step: a callback posts a return request through a setter declared in netcon.h, which is not part of this model. The request is an input of the iteration (`Tick.returnRequest`) and is recorded only when a callback ran.
- The registry holds connection values, where the source holds `NetconP` handles shared with their owners, and the `setloop(this)` back-link that `addselcon` gives the connection is not modelled.
- SelectLoop.Dispatch: `cando` is a result oracle, so the sweep does not apply the WRITE-interest clearing that `NetconData::cando` performs on the registered connection (src/netcon.cpp:598); `NetconData.Cando` models that clearing on its own.
- Re-entrant registry changes made from inside a `cando` callback are not modelled. For example, a listener adding a connection during the sweep.
- Netcon.StrLen: a name's bytes are taken to be its UTF-8 encoding. The source measures whatever bytes its caller passed.
- `NetconServLis::initperms` reads the configuration. The allow-lists are taken as given, together with the access-control compile switch.
- NetconData.GetLine: requires cnt >= 1 and a buffer of at most 200 bytes. The source assumes both: room for the NUL, and the class invariant of its buffer.
- NetconData.Cando: netcon.h is not part of this model. The drain uses `receive` with no wait.
- All of src/upmpd.cxx: process lifecycle and service wiring.
- In tidal.cxx:
  - The helper subprocess (CmdTalk and `maybeStartCmd`) is an input: whether it started, and its replies.
  - `json::parse` is an input. A listing whose JSON fails to parse throws in the source and is not modelled.
  - Every JSON value is taken as a string. The source converts `duration` to an integer field.
  - `open`, `get_media_url` and `getinfo` are not modelled.
- Tidal.ResultToEntries: the listing size is returned as an unbounded integer. The source's conversion of a size above 2^31 - 1 to `int` is not modelled.
- In renderingcontrol.cxx:
  - SOAP `runAction` is an input. So are `decodeAVLastChange`, `atoi` and `stringToBool`, where an unparsable boolean leaves the flag unchanged.
  - `registerCallback` is not modelled.
  - SOAP argument encoding is not modelled: the action carries typed arguments.
  - `data.getInt`/`getBool` (soaphelp) are not part of this model. They are taken as a key lookup followed by `atoi`/`stringToBool`.
- UPNP_E_SUCCESS = 0 and UPNP_E_BAD_RESPONSE = -113 are taken from pupnp's upnp.h, which is not part of this model.
- Logging.

## Findings

| source | as written | input that shows it | evidently intended | confidence | as-written member | corrected member |
|---|---|---|---|---|---|---|
| libupnpp/control/renderingcontrol.cxx:121-137 | `getMute` returns `bool` but its failure paths return an int code (the action's error, or UPNP_E_BAD_RESPONSE = -113), which converts to `true` | a GetMute action that fails with code -1: the caller gets `true`, the same as a renderer that reports CurrentMute = 1 | report failure apart from the mute state | medium (not executed) | RenderingControl.GetMuteAsWritten, RenderingControl.FailedGetMuteReadsAsMuted | RenderingControl.GetMute |
