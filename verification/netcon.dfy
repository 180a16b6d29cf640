/**
  Connections over socket descriptors (class Netcon and its client and
  listener variants in src/netcon.cpp): descriptor ownership, the choice
  between Unix-domain and IPv4 addressing, and the listener's admission filter.

  Resolver calls, socket(2), connect(2), bind(2), listen(2), accept(2) and
  select(2) are replaced by oracle inputs that stand for their results.
 */
module Netcon {

  import opened Wrappers

  /** The wanted-events mask: the NETCONPOLL_READ and NETCONPOLL_WRITE bits. */
  datatype Mask = Mask(read: bool, write: bool)
  {
    predicate Empty() { !read && !write }
  }

  /** A readiness event handed to a connection's cando. */
  datatype Event = ReadEvent | WriteEvent

  /** A connection: its descriptor (-1 when closed), whether it owns the
      descriptor, the peer name, the wanted events and the sticky timed-out flag. */
  datatype Netcon = Netcon(fd: int, ownFd: bool, peer: string, events: Mask, didTimo: bool)

  /** A connection after closeconn, together with the descriptor that close(2) released, if any. */
  datatype Closing = Closing(conn: Netcon, released: Option<int>)

  /** Netcon::closeconn: the descriptor is released only when it is open and
      owned; afterwards the connection holds no descriptor and owns the next one. */
  function CloseConn(c: Netcon): (r: Closing)
    ensures r.conn.fd == -1 && r.conn.ownFd
    ensures r.released.Some? <==> c.ownFd && c.fd >= 0
    ensures r.released.Some? ==> r.released.value == c.fd
    ensures r.conn.peer == c.peer && r.conn.events == c.events && r.conn.didTimo == c.didTimo
  {
    Closing(c.(fd := -1, ownFd := true), if c.ownFd && c.fd >= 0 then Some(c.fd) else None)
  }

  /** Closing twice releases nothing the second time. */
  lemma CloseConnIdempotent(c: Netcon)
    ensures CloseConn(CloseConn(c).conn).released == None
    ensures CloseConn(CloseConn(c).conn).conn == CloseConn(c).conn
  {
  }

  /** NetconCli::setconn: the current descriptor is closed per its ownership,
      then the given descriptor is adopted without taking ownership of it. */
  function SetConn(c: Netcon, fd: int): (r: Closing)
    ensures r.conn.fd == fd && !r.conn.ownFd && r.conn.peer == ""
    ensures r.released == CloseConn(c).released
  {
    var cl := CloseConn(c);
    Closing(cl.conn.(fd := fd, ownFd := false, peer := ""), cl.released)
  }

  /** An adopted descriptor is never closed by the connection: closing after
      setconn releases nothing, and the connection owns whatever it opens next. */
  lemma AdoptedDescriptorNeverReleased(c: Netcon, fd: int)
    ensures CloseConn(SetConn(c, fd).conn).released == None
    ensures CloseConn(SetConn(c, fd).conn).conn.ownFd
  {
  }

  /** Size bound for a Unix-domain socket path (UNIX_PATH_MAX); the path and its
      terminating NUL must fit. */
  const UnixPathMax: nat := 90

  /** A service or host name beginning with '/' names a Unix-domain socket.
      An empty C string starts with NUL, so it is an IPv4 name. */
  predicate IsUnixPath(name: string)
  {
    |name| > 0 && name[0] == '/'
  }

  /** The bytes a character takes in UTF-8, the encoding of the C string
      that carries the name. */
  function Utf8Size(ch: char): nat
  {
    if ch as int < 0x80 then 1
    else if ch as int < 0x800 then 2
    else if ch as int < 0x1_0000 then 3
    else 4
  }

  /** strlen: the length in bytes of the name's encoding. */
  function StrLen(name: string): (n: nat)
    ensures n >= |name|
    ensures (forall i :: 0 <= i < |name| ==> name[i] as int < 0x80) ==> n == |name|
  {
    if |name| == 0 then 0 else Utf8Size(name[0]) + StrLen(name[1..])
  }

  /** A name whose characters all take k bytes is k times as long in bytes. */
  lemma {:induction false} StrLenUniform(name: string, k: nat)
    requires forall i :: 0 <= i < |name| ==> Utf8Size(name[i]) == k
    ensures StrLen(name) == k * |name|
  {
    if |name| > 0 {
      assert forall i :: 0 <= i < |name[1..]| ==> name[1..][i] == name[i + 1];
      StrLenUniform(name[1..], k);
    }
  }

  /** The path length test shared by the client and listener sides: the path
      and its terminating NUL must fit in UNIX_PATH_MAX bytes. */
  predicate UnixPathFits(path: string)
  {
    !(StrLen(path) > UnixPathMax - 1)
  }

  /** The bound is on bytes, not characters: a path that fits has at most 89
      characters, an ASCII path fits exactly when it has at most 89, and 89
      two-byte characters (178 bytes) do not fit. */
  lemma UnixPathBound(path: string)
    ensures UnixPathFits(path) ==> |path| <= UnixPathMax - 1
    ensures (forall i :: 0 <= i < |path| ==> path[i] as int < 0x80) ==>
      (UnixPathFits(path) <==> |path| <= UnixPathMax - 1)
    ensures !UnixPathFits(seq(89, _ => '\U{e9}'))
  {
    StrLenUniform(seq(89, _ => '\U{e9}'), 2);
  }

  /** The port field of sockaddr_in holds 16 bits. */
  const PortRange: int := 0x1_0000

  /** htons applied to an unsigned int or a short port: only the low 16 bits
      reach the address. */
  function Htons(port: int): (p: nat)
    ensures p < PortRange
    ensures 0 <= port < PortRange ==> p == port
    ensures (p - port) % PortRange == 0
  {
    port % PortRange
  }

  /** A socket address built for connect(2) or bind(2). */
  datatype SockAddr = InetAddr(addr: bv32, port: nat) | UnixAddr(path: string)

  /** Name service results: inet_addr, gethostbyname and getservbyname ("tcp"),
      the last giving the service's port in host order. */
  datatype Resolver = Resolver(
    inetAddr: string -> bv32,
    hostByName: string -> Option<bv32>,
    servByName: string -> Option<int>)

  /** inet_addr's failure value; it is also the encoding of 255.255.255.255. */
  const InaddrNone: bv32 := 0xFFFF_FFFF

  /** The address NetconCli::openconn(host, port) connects to, or None when the
      host cannot be resolved or the path is too long. */
  function ClientAddress(host: string, port: int, res: Resolver): (r: Option<SockAddr>)
    ensures r.Some? ==> (r.value.UnixAddr? <==> IsUnixPath(host))
    ensures r.Some? && r.value.UnixAddr? ==> r.value.path == host && UnixPathFits(host)
    ensures r.Some? && r.value.InetAddr? ==> r.value.port == Htons(port)
    ensures IsUnixPath(host) ==> (r.Some? <==> UnixPathFits(host))
    ensures !IsUnixPath(host) && res.inetAddr(host) != InaddrNone ==> r == Some(InetAddr(res.inetAddr(host), Htons(port)))
    ensures !IsUnixPath(host) && res.inetAddr(host) == InaddrNone ==> (r.Some? <==> res.hostByName(host).Some?)
    ensures !IsUnixPath(host) && res.inetAddr(host) == InaddrNone && res.hostByName(host).Some? ==>
      r == Some(InetAddr(res.hostByName(host).value, Htons(port)))
  {
    if !IsUnixPath(host) then
      var a := res.inetAddr(host);
      if a != InaddrNone then Some(InetAddr(a, Htons(port)))
      else match res.hostByName(host)
        case None => None
        case Some(h) => Some(InetAddr(h, Htons(port)))
    else if !UnixPathFits(host) then None
    else Some(UnixAddr(host))
  }

  /** Outcome of connect(2): done, EINPROGRESS on a non-blocking socket, or failed. */
  datatype ConnectOutcome = Connected | InProgress | Refused

  /** Oracle results for one openconn: the descriptor socket(2) returns (negative
      on failure), connect(2)'s outcome, and select1's result while waiting for
      writability. */
  datatype ClientOracle = ClientOracle(socketFd: int, connect: ConnectOutcome, waitWritable: int)

  /** A connection after an open call, the value returned, and every descriptor
      close(2) released on the way, in order. */
  datatype Opened = Opened(ret: int, conn: Netcon, released: seq<int>)

  /** Whether the connect step succeeds: at once, or (with a positive timeout) after
      the in-progress connect becomes writable within the timeout. */
  predicate ConnectSucceeds(timeo: int, o: ClientOracle)
  {
    o.connect.Connected? || (timeo > 0 && o.connect.InProgress? && o.waitWritable == 1)
  }

  /** NetconCli::openconn(host, port, timeo). */
  function OpenConn(c: Netcon, host: string, port: int, timeo: int, res: Resolver, o: ClientOracle): (r: Opened)
    ensures r.ret == 0 || r.ret == -1
    ensures r.ret == 0 <==> ClientAddress(host, port, res).Some? && o.socketFd >= 0 && ConnectSucceeds(timeo, o)
    ensures r.ret == 0 ==> r.conn.fd == o.socketFd && r.conn.ownFd && r.conn.peer == host
    ensures r.ret == -1 ==> r.conn.fd < 0
    ensures r.ret == -1 && ClientAddress(host, port, res).Some? && o.socketFd >= 0 ==> o.socketFd in r.released
    ensures |r.released| > 0 && CloseConn(c).released.Some? ==> r.released[0] == c.fd
  {
    var cl := CloseConn(c);
    var before := if cl.released.Some? then [cl.released.value] else [];
    match ClientAddress(host, port, res)
    case None => Opened(-1, cl.conn, before)
    case Some(_) =>
      if o.socketFd < 0 then Opened(-1, cl.conn.(fd := o.socketFd), before)
      else
        var conn1 := cl.conn.(fd := o.socketFd);
        if ConnectSucceeds(timeo, o) then Opened(0, conn1.(peer := host), before)
        else
          var out := CloseConn(conn1);
          Opened(-1, out.conn, before + [o.socketFd])
  }

  /** NetconCli::openconn(host, serv, timeo): a Unix path needs no service
      lookup; otherwise a service the database does not know fails before the
      connection is touched. */
  function OpenConnService(c: Netcon, host: string, serv: string, timeo: int, res: Resolver, o: ClientOracle): (r: Opened)
    ensures !IsUnixPath(host) && res.servByName(serv).None? ==> r == Opened(-1, c, [])
    ensures IsUnixPath(host) ==> r == OpenConn(c, host, 0, timeo, res, o)
    ensures !IsUnixPath(host) && res.servByName(serv).Some? ==> r == OpenConn(c, host, res.servByName(serv).value, timeo, res, o)
  {
    if !IsUnixPath(host) then
      match res.servByName(serv)
      case None => Opened(-1, c, [])
      case Some(port) => OpenConn(c, host, port, timeo, res, o)
    else OpenConn(c, host, 0, timeo, res, o)
  }

  /** The descriptors released so far followed by the one the connection's
      next closeconn releases, if any. */
  function ReleasedBy(now: seq<int>, later: Netcon): seq<int>
  {
    now + (match CloseConn(later).released case Some(fd) => [fd] case None => [])
  }

  /** openconn releases every descriptor it owns exactly once and no other:
      the old one at once, the new socket at once on failure, or at the next
      closeconn on success. */
  lemma OpenConnReleasesOnce(c: Netcon, host: string, port: int, timeo: int, res: Resolver, o: ClientOracle)
    ensures var r := OpenConn(c, host, port, timeo, res, o);
      ReleasedBy(r.released, r.conn) ==
        (if c.ownFd && c.fd >= 0 then [c.fd] else [])
        + (if ClientAddress(host, port, res).Some? && o.socketFd >= 0 then [o.socketFd] else [])
  {
  }

  /** A listening connection: the service it was opened for and its allow-lists of
      addresses and masks (as read once from the configuration). */
  datatype Listener = Listener(base: Netcon, serv: string, okAddrs: seq<bv32>, okMasks: seq<bv32>)

  /** Oracle results for one openservice: socket(2)'s descriptor, bind(2), listen(2). */
  datatype ServerOracle = ServerOracle(socketFd: int, bindOk: bool, listenOk: bool)

  /** The address a listener binds: the wildcard IPv4 address and a port, or a path. */
  function ListenAddress(serv: string, port: int): SockAddr
  {
    if IsUnixPath(serv) then UnixAddr(serv) else InetAddr(0, Htons(port))
  }

  /** The common tail of both openservice variants: socket, bind, listen; a
      failure after socket(2) closes the new descriptor. */
  function Bind(l: Listener, o: ServerOracle): (r: (int, Listener, seq<int>))
    ensures r.0 == 0 <==> o.socketFd >= 0 && o.bindOk && o.listenOk
    ensures r.0 == 0 ==> r.1.base.fd == o.socketFd
    ensures r.0 != 0 ==> r.0 == -1 && r.1.base.fd < 0
    ensures r.0 != 0 && o.socketFd >= 0 ==> r.2 == [o.socketFd]
    ensures r.1.serv == l.serv && r.1.okAddrs == l.okAddrs && r.1.okMasks == l.okMasks
  {
    if o.socketFd < 0 then (-1, l.(base := l.base.(fd := o.socketFd)), [])
    else if !o.bindOk || !o.listenOk then (-1, l.(base := l.base.(fd := -1)), [o.socketFd])
    else (0, l.(base := l.base.(fd := o.socketFd)), [])
  }

  /** A listener after openservice: the value returned, the listener, the
      address bound on success, and the descriptors close(2) released. */
  datatype Listening = Listening(ret: int, lis: Listener, addr: Option<SockAddr>, released: seq<int>)

  /** Whether openservice gets as far as socket(2): a service name is given,
      and it is a path that fits or a service the database knows. */
  predicate ReachesSocket(serv: Option<string>, res: Resolver)
  {
    serv.Some? &&
    (if IsUnixPath(serv.value) then UnixPathFits(serv.value) else res.servByName(serv.value).Some?)
  }

  /** NetconServLis::openservice(serv, backlog), with the resulting bound address.
      A missing service name fails at once; a name not starting with '/' is
      looked up as a TCP service; a path must fit a Unix-domain address. */
  function OpenService(l: Listener, serv: Option<string>, res: Resolver, o: ServerOracle): (r: Listening)
    ensures serv.None? ==> r == Listening(-1, l, None, [])
    ensures r.ret == 0 || r.ret == -1
    ensures r.ret == 0 <==> ReachesSocket(serv, res) && o.socketFd >= 0 && o.bindOk && o.listenOk
    ensures r.ret == 0 ==> serv.Some? && r.addr.Some? && r.lis.serv == serv.value && r.lis.base.fd == o.socketFd >= 0
    ensures r.ret == 0 ==> (r.addr.value.UnixAddr? <==> IsUnixPath(serv.value))
    ensures r.ret == 0 && IsUnixPath(serv.value) ==> r.addr.value.path == serv.value
    ensures r.ret == 0 && !IsUnixPath(serv.value) ==>
      r.addr == Some(InetAddr(0, Htons(res.servByName(serv.value).value)))
    ensures r.ret == -1 ==> r.addr.None? && (ReachesSocket(serv, res) || r.lis.base == l.base)
    ensures r.released == (if ReachesSocket(serv, res) && o.socketFd >= 0 && r.ret == -1 then [o.socketFd] else [])
  {
    match serv
    case None => Listening(-1, l, None, [])
    case Some(s) =>
      var l1 := l.(serv := s);
      if !IsUnixPath(s) then
        match res.servByName(s)
        case None => Listening(-1, l1, None, [])
        case Some(port) =>
          var b := Bind(l1, o);
          Listening(b.0, b.1, if b.0 == 0 then Some(ListenAddress(s, port)) else None, b.2)
      else if !UnixPathFits(s) then Listening(-1, l1, None, [])
      else
        var b := Bind(l1, o);
        Listening(b.0, b.1, if b.0 == 0 then Some(ListenAddress(s, 0)) else None, b.2)
  }

  /** openservice on a listener that owns its descriptors releases the socket
      it creates exactly once: at once when bind or listen fails, otherwise at
      the listener's next closeconn. A call that stops before socket(2) leaves
      the descriptor alone. */
  lemma OpenServiceReleasesOnce(l: Listener, serv: Option<string>, res: Resolver, o: ServerOracle)
    requires l.base.ownFd
    ensures var r := OpenService(l, serv, res, o);
      ReachesSocket(serv, res) ==>
        ReleasedBy(r.released, r.lis.base) == (if o.socketFd >= 0 then [o.socketFd] else [])
    ensures var r := OpenService(l, serv, res, o);
      !ReachesSocket(serv, res) ==> r.ret == -1 && r.released == [] && r.lis.base == l.base
  {
  }

  /** A name starting with '/' never consults the name service, on either side. */
  lemma UnixPathsSkipResolver(name: string, port: int, res: Resolver, res': Resolver, l: Listener, o: ServerOracle)
    requires IsUnixPath(name)
    ensures ClientAddress(name, port, res) == ClientAddress(name, port, res')
    ensures OpenService(l, Some(name), res, o) == OpenService(l, Some(name), res', o)
  {
  }

  /** Client and listener agree on names: with socket, bind and listen
      succeeding, a listener opens on a Unix path exactly when a client can
      address that path, and binds the address the client connects to; for a
      TCP service both use the service's port, cut to 16 bits. */
  lemma ClientAndListenerAgree(name: string, host: string, port: int, res: Resolver, l: Listener, o: ServerOracle)
    requires o.socketFd >= 0 && o.bindOk && o.listenOk
    ensures var lis := OpenService(l, Some(name), res, o);
      IsUnixPath(name) ==>
        && (lis.ret == 0 <==> ClientAddress(name, port, res).Some?)
        && (lis.ret == 0 ==> lis.addr == ClientAddress(name, port, res))
    ensures var lis := OpenService(l, Some(name), res, o);
      !IsUnixPath(name) && !IsUnixPath(host) && res.servByName(name).Some? ==>
        && lis.ret == 0
        && var client := ClientAddress(host, res.servByName(name).value, res);
           client.Some? ==> client.value.InetAddr? && client.value.port == lis.addr.value.port
  {
  }

  /** The family a peer connected from. */
  datatype Peer = InetPeer(addr: bv32) | OtherPeer

  /** The mask paired with address i: masks past the end of the list reuse the last one. */
  function MaskAt(masks: seq<bv32>, i: nat): bv32
    requires |masks| > 0
  {
    if i < |masks| then masks[i] else masks[|masks| - 1]
  }

  /** ip lies in the network of addr under mask. */
  predicate SameNetwork(ip: bv32, addr: bv32, mask: bv32)
  {
    ip & mask == addr & mask
  }

  /** Address i of the allow-list admits ip. */
  predicate Admits(addrs: seq<bv32>, masks: seq<bv32>, ip: bv32, i: nat)
    requires |masks| > 0 && i < |addrs|
  {
    SameNetwork(ip, addrs[i], MaskAt(masks, i))
  }

  /** The scan of checkperms from index i on: true at the first admitting entry. */
  function ScanFrom(addrs: seq<bv32>, masks: seq<bv32>, ip: bv32, i: nat): (r: bool)
    requires |masks| > 0 && i <= |addrs|
    ensures r <==> exists j :: i <= j < |addrs| && Admits(addrs, masks, ip, j)
    decreases |addrs| - i
  {
    if i == |addrs| then false
    else if Admits(addrs, masks, ip, i) then true
    else ScanFrom(addrs, masks, ip, i + 1)
  }

  /** NetconServLis::checkperms: 0 admits the peer, -1 rejects it. */
  function CheckPerms(addrs: seq<bv32>, masks: seq<bv32>, peer: Peer): (r: int)
    ensures r == 0 || r == -1
    ensures r == 0 <==>
      || |masks| == 0 || |addrs| == 0
      || (peer.InetPeer? && exists i :: 0 <= i < |addrs| && Admits(addrs, masks, peer.addr, i))
  {
    if |masks| <= 0 || |addrs| <= 0 then 0
    else if !peer.InetPeer? then -1
    else if ScanFrom(addrs, masks, peer.addr, 0) then 0
    else -1
  }

  /** Padding the mask list with copies of its last mask never changes a verdict:
      a short mask list behaves as if its last mask were repeated. */
  lemma MaskClampIsPadding(addrs: seq<bv32>, masks: seq<bv32>, peer: Peer)
    requires |masks| > 0
    ensures CheckPerms(addrs, masks + [masks[|masks| - 1]], peer) == CheckPerms(addrs, masks, peer)
  {
    if peer.InetPeer? && |addrs| > 0 {
      ScanPadded(addrs, masks, peer.addr, 0);
    }
  }

  lemma {:induction false} ScanPadded(addrs: seq<bv32>, masks: seq<bv32>, ip: bv32, i: nat)
    requires |masks| > 0 && i <= |addrs|
    ensures ScanFrom(addrs, masks + [masks[|masks| - 1]], ip, i) == ScanFrom(addrs, masks, ip, i)
    decreases |addrs| - i
  {
    if i < |addrs| {
      assert MaskAt(masks + [masks[|masks| - 1]], i) == MaskAt(masks, i);
      ScanPadded(addrs, masks, ip, i + 1);
    }
  }

  /** A 10.0.0.0/255.0.0.0 allow-list admits 10.1.2.3 and rejects 11.1.2.3;
      empty lists admit both. */
  lemma AllowListExample()
    ensures CheckPerms([0x0A00_0000], [0xFF00_0000], InetPeer(0x0A01_0203)) == 0
    ensures CheckPerms([0x0A00_0000], [0xFF00_0000], InetPeer(0x0B01_0203)) == -1
    ensures CheckPerms([], [], InetPeer(0x0A01_0203)) == 0
    ensures CheckPerms([], [], InetPeer(0x0B01_0203)) == 0
  {
    assert SameNetwork(0x0A01_0203, 0x0A00_0000, 0xFF00_0000);
    assert !SameNetwork(0x0B01_0203, 0x0A00_0000, 0xFF00_0000);
    assert Admits([0x0A00_0000], [0xFF00_0000], 0x0A01_0203, 0);
    assert !Admits([0x0A00_0000], [0xFF00_0000], 0x0B01_0203, 0);
  }

  /** Oracle results for one accept: select1 while waiting (when a timeout is
      given), the descriptor accept(2) returns, the peer address, and its
      reverse lookup. */
  datatype AcceptOracle = AcceptOracle(
    waitReady: int,
    acceptFd: int,
    peer: Peer,
    reverseName: Option<string>,
    numericName: string)

  /** The listener after an accept, the new data connection (None is a null
      result) and the descriptors closed on the way. */
  datatype Accepted = Accepted(lis: Listener, conn: Option<Netcon>, released: seq<int>)

  /** NetconServLis::accept. The allow-list is consulted only when the listener
      is an IPv4 one and access control is compiled in; a rejected peer's
      descriptor is closed before any connection exists. */
  function Accept(l: Listener, timeo: int, accessControl: bool, o: AcceptOracle): (r: Accepted)
    ensures timeo > 0 && o.waitReady == 0 ==> r.conn.None? && r.lis.base.didTimo
    ensures r.conn.Some? ==> r.conn.value.fd == o.acceptFd >= 0 && r.conn.value.ownFd && !r.lis.base.didTimo
    ensures r.conn.Some? && accessControl && !IsUnixPath(l.serv) ==> CheckPerms(l.okAddrs, l.okMasks, o.peer) == 0
    ensures r.released == [] || r.released == [o.acceptFd]
    ensures !(timeo > 0 && o.waitReady <= 0) && o.acceptFd >= 0 ==> (r.conn.Some? <==> r.released == [])
    ensures r.conn.Some? && IsUnixPath(l.serv) ==> r.conn.value.peer == l.serv
    ensures r.conn.Some? && !IsUnixPath(l.serv) && o.reverseName.Some? ==> r.conn.value.peer == o.reverseName.value
    ensures r.conn.Some? && !IsUnixPath(l.serv) && o.reverseName.None? ==> r.conn.value.peer == o.numericName
    ensures !(timeo > 0 && o.waitReady <= 0) ==> !r.lis.base.didTimo
    ensures timeo > 0 && o.waitReady < 0 ==> r == Accepted(l, None, [])
    ensures r.lis.base.fd == l.base.fd && r.lis.serv == l.serv
  {
    if timeo > 0 && o.waitReady == 0 then Accepted(l.(base := l.base.(didTimo := true)), None, [])
    else if timeo > 0 && o.waitReady < 0 then Accepted(l, None, [])
    else
      var l1 := l.(base := l.base.(didTimo := false));
      if o.acceptFd < 0 then Accepted(l1, None, [])
      else if !IsUnixPath(l.serv) && accessControl && CheckPerms(l.okAddrs, l.okMasks, o.peer) < 0 then
        Accepted(l1, None, [o.acceptFd])
      else
        var peer :=
          if IsUnixPath(l.serv) then l.serv
          else match o.reverseName
            case Some(name) => name
            case None => o.numericName;
        Accepted(l1, Some(Netcon(o.acceptFd, true, peer, Mask(false, false), false)), [])
  }

  /** Every descriptor accept(2) hands over is released exactly once: at once
      when the peer is refused, otherwise at the new connection's closeconn. */
  lemma AcceptReleasesOnce(l: Listener, timeo: int, accessControl: bool, o: AcceptOracle)
    ensures var r := Accept(l, timeo, accessControl, o);
      r.released + (if r.conn.Some? then ReleasedBy([], r.conn.value) else []) ==
        (if !(timeo > 0 && o.waitReady <= 0) && o.acceptFd >= 0 then [o.acceptFd] else [])
  {
  }

  /** Once accept(2) has produced a descriptor, a connection is made exactly
      when the allow-list is not in force (no access control, or a Unix-domain
      listener) or checkperms admits the peer. */
  lemma AcceptFilters(l: Listener, timeo: int, accessControl: bool, o: AcceptOracle)
    requires !(timeo > 0 && o.waitReady <= 0) && o.acceptFd >= 0
    ensures Accept(l, timeo, accessControl, o).conn.Some? <==>
      !accessControl || IsUnixPath(l.serv) || CheckPerms(l.okAddrs, l.okMasks, o.peer) == 0
  {
  }
}
