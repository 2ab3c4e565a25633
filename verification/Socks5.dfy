/** The SOCKS5 wire formats both ends of the embedded relay speak (internal/amneziawgnet/relay.go,
    internal/amneziawgnet/egress.go): UDP request headers of section 7 of RFC 1928, and the user/password
    sub-negotiation of section 2 of RFC 1929. Each file's encoder is read by the other file's decoder. */
module Socks5 {
  import opened Text

  type byte = b: int | 0 <= b < 256
  type port = p: int | 0 <= p < 65536
  type Bytes = seq<byte>

  const IPV4: byte := 0x01
  const DOMAIN: byte := 0x03
  const IPV6: byte := 0x04

  /** netip.Addr: IPv4, or IPv6 with an optional zone. */
  datatype Addr = V4(bytes: Bytes) | V6(bytes: Bytes, zone: string)

  predicate ValidAddr(a: Addr) { |a.bytes| == if a.V4? then 4 else 16 }

  predicate ZoneFree(a: Addr) { a.V6? ==> a.zone == "" }

  function WithoutZone(a: Addr): Addr { if a.V4? then a else V6(a.bytes, "") }

  datatype AddrPort = AddrPort(addr: Addr, port: port)

  // ---------------------------------------------------------------- encoding

  function PortBytes(p: port): (b: Bytes)
    ensures |b| == 2
  {
    [p / 256, p % 256]
  }

  function Uint16(b: Bytes): port
    requires |b| == 2
  {
    b[0] as int * 256 + b[1] as int
  }

  lemma PortRoundTrip(p: port)
    ensures Uint16(PortBytes(p)) == p
  {
  }

  lemma PortBytesOf(b: Bytes)
    requires |b| == 2
    ensures PortBytes(Uint16(b)) == b
  {
    assert PortBytes(Uint16(b))[0] == b[0] && PortBytes(Uint16(b))[1] == b[1];
  }

  function Kind(a: Addr): byte { if a.V4? then IPV4 else IPV6 }

  /** RSV RSV FRAG ATYP ADDR PORT DATA. */
  function Datagram(dest: AddrPort, payload: Bytes): Bytes {
    [0, 0, 0] + ([Kind(dest.addr)] + (dest.addr.bytes + (PortBytes(dest.port) + payload)))
  }

  /** sendTo, and pumpUDPEgress towards its client: both append the header piece by piece. Whichever side reads the
      datagram recovers the payload, the port and the address without its zone; the reserved bytes are zero. */
  method EncodeDatagram(dest: AddrPort, payload: Bytes) returns (hdr: Bytes)
    ensures hdr == Datagram(dest, payload)
    ensures |hdr| >= 4 && hdr[..4] == [0, 0, 0, if dest.addr.V4? then 1 else 4]
    ensures ValidAddr(dest.addr) ==>
              EgressRead(hdr) == ToAddr(AddrPort(WithoutZone(dest.addr), dest.port), payload)
    ensures ValidAddr(dest.addr) ==> forall parse: LiteralParser ::
              RelayReceive(hdr, parse) == Some((AddrPort(WithoutZone(dest.addr), dest.port), payload))
  {
    hdr := [];
    hdr := hdr + [0x00, 0x00, 0x00];
    if dest.addr.V4? {
      hdr := hdr + [0x01];
      hdr := hdr + dest.addr.bytes;
    } else {
      hdr := hdr + [0x04];
      hdr := hdr + dest.addr.bytes;
    }
    hdr := hdr + PortBytes(dest.port);
    hdr := hdr + payload;
    assert hdr == Datagram(dest, payload);
    if ValidAddr(dest.addr) {
      SendToIsRead(dest, payload);
      forall parse: LiteralParser
        ensures RelayReceive(hdr, parse) == Some((AddrPort(WithoutZone(dest.addr), dest.port), payload))
      {
        PumpIsReceived(dest, payload, parse);
      }
    }
  }

  // ---------------------------------------------------------------- decoding in the egress server

  function AddrLen(atyp: byte): int {
    if atyp == IPV4 then 4 else if atyp == IPV6 then 16 else -1
  }

  /** parseDatagramHeader. */
  function ParseHeader(hdr: Bytes): Option<AddrPort> {
    if |hdr| < 4 then None
    else
      var body := hdr[4..];
      if hdr[3] == IPV4 then
        if |body| < 6 then None else Some(AddrPort(V4(body[..4]), Uint16(body[4..6])))
      else if hdr[3] == IPV6 then
        if |body| < 18 then None else Some(AddrPort(V6(body[..16], ""), Uint16(body[16..18])))
      else None
  }

  datatype DomainHeader = DomainHeader(name: Bytes, port: port, length: nat)

  /** parseDatagramDomainHeader. */
  function ParseDomainHeader(data: Bytes): Option<DomainHeader> {
    if |data| < 5 then None
    else
      var l: int := data[4];
      if l == 0 || |data| < 7 + l then None
      else Some(DomainHeader(data[5..5 + l], Uint16(data[5 + l..7 + l]), 7 + l))
  }

  datatype Incoming =
    | Dropped
    | ToAddr(dst: AddrPort, payload: Bytes)
    | ToName(name: Bytes, port: port, payload: Bytes)

  /** The reader loop of a UDP association, for one datagram. */
  function EgressRead(data: Bytes): Incoming {
    if |data| < 4 then Dropped
    else if data[3] == DOMAIN then
      var h := ParseDomainHeader(data);
      if h.None? then Dropped else ToName(h.value.name, h.value.port, data[h.value.length..])
    else
      var hdrLen := 4 + AddrLen(data[3]) + 2;
      if hdrLen <= 6 || |data| < hdrLen then Dropped
      else
        var d := ParseHeader(data[..hdrLen]);
        if d.None? then Dropped else ToAddr(d.value, data[hdrLen..])
  }

  // ---------------------------------------------------------------- decoding in the relay

  /** netip.ParseAddr over the bytes of a name. */
  type LiteralParser = Bytes -> Option<Addr>

  /** splitSocks5Addr: the address, and what follows it. */
  function SplitAddr(b: Bytes, atyp: byte, parse: LiteralParser): Option<(Addr, Bytes)> {
    if atyp == IPV4 then
      if |b| < 4 then None else Some((V4(b[..4]), b[4..]))
    else if atyp == IPV6 then
      if |b| < 16 then None else Some((V6(b[..16], ""), b[16..]))
    else if atyp == DOMAIN then
      if |b| < 1 || |b| < 1 + b[0] as int then None
      else
        var l: int := b[0];
        var addr := parse(b[1..1 + l]);
        if addr.None? then None else Some((addr.value, b[1 + l..]))
    else None
  }

  /** receive. */
  function RelayReceive(data: Bytes, parse: LiteralParser): Option<(AddrPort, Bytes)> {
    if |data| < 4 then None
    else
      var split := SplitAddr(data[4..], data[3], parse);
      if split.None? || |split.value.1| < 2 then None
      else Some((AddrPort(split.value.0, Uint16(split.value.1[..2])), split.value.1[2..]))
  }

  // ---------------------------------------------------------------- round trips

  lemma DatagramParts(dest: AddrPort, payload: Bytes)
    requires ValidAddr(dest.addr)
    ensures var d, n := Datagram(dest, payload), |dest.addr.bytes|;
            && |d| == 6 + n + |payload| && d[3] == Kind(dest.addr) && d[4..4 + n] == dest.addr.bytes
            && d[4 + n..6 + n] == PortBytes(dest.port) && d[6 + n..] == payload
  {
  }

  /** What sendTo writes, the egress reader reads: the address and port it was meant for, and the payload. A zone is
      lost on the wire, so the address comes back exactly when it had none. */
  lemma SendToIsRead(dest: AddrPort, payload: Bytes)
    requires ValidAddr(dest.addr)
    ensures EgressRead(Datagram(dest, payload)) == ToAddr(dest, payload) <==> ZoneFree(dest.addr)
    ensures EgressRead(Datagram(dest, payload)) == ToAddr(AddrPort(WithoutZone(dest.addr), dest.port), payload)
  {
    var d, n := Datagram(dest, payload), |dest.addr.bytes|;
    DatagramParts(dest, payload);
    PortRoundTrip(dest.port);
    var hdr := d[..6 + n];
    assert hdr[4..][..n] == d[4..4 + n] && hdr[4..][n..n + 2] == d[4 + n..6 + n];
    assert EgressRead(d) == ToAddr(AddrPort(WithoutZone(dest.addr), dest.port), payload);
  }

  /** What the egress pump writes, the relay receives. */
  lemma PumpIsReceived(dest: AddrPort, payload: Bytes, parse: LiteralParser)
    requires ValidAddr(dest.addr)
    ensures RelayReceive(Datagram(dest, payload), parse) == Some((dest, payload)) <==> ZoneFree(dest.addr)
    ensures RelayReceive(Datagram(dest, payload), parse)
         == Some((AddrPort(WithoutZone(dest.addr), dest.port), payload))
  {
    var d, n := Datagram(dest, payload), |dest.addr.bytes|;
    DatagramParts(dest, payload);
    PortRoundTrip(dest.port);
    var a := WithoutZone(dest.addr);
    var b := d[4..];
    assert b[..n] == d[4..4 + n] && b[n..] == d[4 + n..];
    assert b[n..][..2] == d[4 + n..6 + n] && b[n..][2..] == d[6 + n..];
    assert SplitAddr(b, d[3], parse) == Some((a, b[n..]));
  }

  /** Everything the egress reader forwards to an address is the encoding of what it forwards; only the three reserved
      bytes are ignored. */
  lemma ReadIsEncoded(data: Bytes)
    requires EgressRead(data).ToAddr?
    ensures var r := EgressRead(data);
            ValidAddr(r.dst.addr) && ZoneFree(r.dst.addr) && data[3..] == Datagram(r.dst, r.payload)[3..]
  {
    var r := EgressRead(data);
    var n := |r.dst.addr.bytes|;
    HeaderParts(data, n);
    DatagramParts(r.dst, r.payload);
    PortBytesOf(data[4 + n..6 + n]);
    Pieces(data, n);
    Pieces(Datagram(r.dst, r.payload), n);
  }

  /** What the reader takes from an address header of n address bytes. */
  lemma HeaderParts(data: Bytes, n: nat)
    requires EgressRead(data).ToAddr? && n == |EgressRead(data).dst.addr.bytes|
    ensures var r := EgressRead(data);
            && ValidAddr(r.dst.addr) && ZoneFree(r.dst.addr) && n == AddrLen(data[3]) && |data| >= 6 + n
            && Kind(r.dst.addr) == data[3] && r.dst.addr.bytes == data[4..4 + n]
            && r.dst.port == Uint16(data[4 + n..6 + n]) && r.payload == data[6 + n..]
  {
    var m := AddrLen(data[3]);
    var hdr := data[..6 + m];
    assert hdr[4..][..m] == data[4..4 + m];
    assert hdr[4..][m..m + 2] == data[4 + m..6 + m];
  }

  lemma Pieces(d: Bytes, n: nat)
    requires |d| >= 6 + n
    ensures d[3..] == [d[3]] + d[4..4 + n] + d[4 + n..6 + n] + d[6 + n..]
  {
  }

  /** RSV RSV FRAG 0x03 LEN NAME PORT DATA, as a SOCKS client addresses a name. */
  function NamedDatagram(name: Bytes, p: port, payload: Bytes): Bytes
    requires |name| < 256
  {
    [0, 0, 0, DOMAIN, |name|] + (name + (PortBytes(p) + payload))
  }

  /** A named datagram is read back for every non-empty name; an empty name is dropped. */
  lemma NamedIsRead(name: Bytes, p: port, payload: Bytes)
    requires |name| < 256
    ensures EgressRead(NamedDatagram(name, p, payload)) == if name == [] then Dropped else ToName(name, p, payload)
    ensures NamedDatagram(name, p, payload)[..5] == [0, 0, 0, 3, |name|]
  {
    var d, l := NamedDatagram(name, p, payload), |name|;
    PortRoundTrip(p);
    assert d[5..5 + l] == name && d[5 + l..7 + l] == PortBytes(p) && d[7 + l..] == payload;
  }

  /** And nothing else is read as a name. */
  lemma NameReadIsEncoded(data: Bytes)
    requires EgressRead(data).ToName?
    ensures var r := EgressRead(data);
            && 0 < |r.name| < 256
            && data[3..] == NamedDatagram(r.name, r.port, r.payload)[3..]
  {
    var r := EgressRead(data);
    var l: int := data[4];
    PortBytesOf(data[5 + l..7 + l]);
    var d := NamedDatagram(r.name, r.port, r.payload);
    NamedPieces(data, l);
    NamedPieces(d, l);
    assert d[5..5 + l] == r.name && d[5 + l..7 + l] == PortBytes(r.port) && d[7 + l..] == r.payload;
  }

  lemma NamedPieces(d: Bytes, l: nat)
    requires |d| >= 7 + l
    ensures d[3..] == [d[3], d[4]] + d[5..5 + l] + d[5 + l..7 + l] + d[7 + l..]
  {
  }

  // ---------------------------------------------------------------- user and password

  /** VER ULEN UNAME PLEN PASSWD; a length is cut to one byte. */
  function AuthRequest(user: Bytes, password: Bytes): Bytes {
    [1, |user| % 256] + (user + ([|password| % 256] + password))
  }

  /** The branch of socks5Handshake for method 2. Whatever follows on the connection, the server reads back exactly
      these credentials if and only if both fit in 255 bytes. */
  method EncodeAuth(user: Bytes, password: Bytes) returns (req: Bytes)
    ensures req == AuthRequest(user, password)
    ensures forall rest ::
              ReadAuth(req + rest) == Some(Auth(user, password, rest)) <==> |user| <= 255 && |password| <= 255
  {
    req := [];
    req := req + [0x01, |user| % 256];
    req := req + user;
    req := req + [|password| % 256];
    req := req + password;
    assert req == AuthRequest(user, password);
    forall rest
      ensures ReadAuth(req + rest) == Some(Auth(user, password, rest)) <==> |user| <= 255 && |password| <= 255
    {
      AuthRoundTripIff(user, password, rest);
    }
  }

  datatype Auth = Auth(user: Bytes, password: Bytes, rest: Bytes)

  /** The reads of handleConn, over the bytes of the connection; None when it ends too early. */
  function ReadAuth(conn: Bytes): Option<Auth> {
    if |conn| < 2 then None
    else
      var ulen: int := conn[1];
      if |conn| < 3 + ulen then None
      else
        var plen: int := conn[2 + ulen];
        if |conn| < 3 + ulen + plen then None
        else Some(Auth(conn[2..2 + ulen], conn[3 + ulen..3 + ulen + plen], conn[3 + ulen + plen..]))
  }

  /** The server reads exactly the credentials that were sent, and not a byte more, if and only if both fit in 255
      bytes. */
  lemma AuthRoundTripIff(user: Bytes, password: Bytes, rest: Bytes)
    ensures ReadAuth(AuthRequest(user, password) + rest) == Some(Auth(user, password, rest))
       <==> |user| <= 255 && |password| <= 255
  {
    var conn := AuthRequest(user, password) + rest;
    var u, p := |user|, |password|;
    assert conn[1] == u % 256;
    if u <= 255 && p <= 255 {
      assert conn[2 + u] == p;
      assert conn[2..2 + u] == user && conn[3 + u..3 + u + p] == password && conn[3 + u + p..] == rest;
    } else if ReadAuth(conn).Some? {
      var r := ReadAuth(conn).value;
      assert |r.user| == u % 256;
      if u <= 255 {
        assert conn[2 + u] == p % 256;
        assert |r.password| == p % 256;
      }
    }
  }
}
