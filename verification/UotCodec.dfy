/**
 UDP-over-TCP framing: the two address encodings, and packets with a two-byte length.

 `SOCKS` is the encoding of the initial request, with the address types of section 5
 of RFC 1928; `PER_PACKET` is the one in front of each packet. Parsers work on a byte
 sequence and return the unconsumed rest; running out of bytes and malformed input are
 kept apart. Whether a name is valid UTF-8 is a parameter.
 */
module UotCodec {
  import opened Polls

  datatype Parse<T> = Parsed(value: T, rest: seq<Byte>) | Truncated | Malformed

  type Port = p: nat | p < 65536

  datatype Host = V4(ip: seq<Byte>) | V6(ip: seq<Byte>) | Name(name: seq<Byte>)

  datatype Endpoint = Endpoint(host: Host, port: Port)

  datatype Tags = Tags(v4: Byte, v6: Byte, name: Byte)

  const SOCKS := Tags(1, 4, 3)
  const PER_PACKET := Tags(0, 1, 2)

  predicate DistinctTags(t: Tags) {
    t.v4 != t.v6 && t.v4 != t.name && t.v6 != t.name
  }

  predicate ValidHost(utf8: seq<Byte> -> bool, h: Host) {
    match h
    case V4(ip) => |ip| == 4
    case V6(ip) => |ip| == 16
    case Name(name) => |name| <= 255 && utf8(name)
  }

  function U16Bytes(n: nat): (b: seq<Byte>)
    ensures |b| == 2
  {
    [n % 65536 / 256, n % 256]
  }

  lemma U16RoundTrip(n: nat, hi: Byte, lo: Byte)
    requires n < 65536
    ensures U16Bytes(n) == [hi, lo] <==> U16(hi, lo) == n
  {
    Digits(n, hi, lo);
    assert U16Bytes(n) == [n / 256, n % 256];
  }

  lemma Digits(n: nat, h: nat, l: nat)
    requires l < 256
    ensures n / 256 == h && n % 256 == l <==> h * 256 + l == n
  {
  }

  function ReadExact(s: seq<Byte>, n: nat): Parse<seq<Byte>> {
    if |s| < n then Truncated else Parsed(s[..n], s[n..])
  }

  function ReadU16(s: seq<Byte>): Parse<Port> {
    if |s| < 2 then Truncated else Parsed(U16(s[0], s[1]), s[2..])
  }

  /** The bytes of an address of n bytes and the port after it. */
  function ReadHostPort(s: seq<Byte>, n: nat): Parse<(seq<Byte>, Port)> {
    match ReadExact(s, n)
    case Parsed(host, rest) =>
      (match ReadU16(rest)
       case Parsed(port, rest') => Parsed((host, port), rest')
       case _ => Truncated)
    case _ => Truncated
  }

  function ToEndpoint(p: Parse<(seq<Byte>, Port)>, kind: seq<Byte> -> Host): Parse<Endpoint> {
    match p
    case Parsed((host, port), rest) => Parsed(Endpoint(kind(host), port), rest)
    case Truncated => Truncated
    case Malformed => Malformed
  }

  /** `read_socks_addr` and `read_addr_parser`. A name is only looked at after the port was read. */
  function ReadAddr(t: Tags, utf8: seq<Byte> -> bool, s: seq<Byte>): Parse<Endpoint> {
    if s == [] then Truncated
    else if s[0] == t.v4 then ToEndpoint(ReadHostPort(s[1..], 4), ip => V4(ip))
    else if s[0] == t.v6 then ToEndpoint(ReadHostPort(s[1..], 16), ip => V6(ip))
    else if s[0] == t.name then
      if |s| < 2 then Truncated
      else
        var p := ToEndpoint(ReadHostPort(s[2..], s[1]), name => Name(name));
        if p.Parsed? && !utf8(p.value.host.name) then Malformed else p
    else Malformed
  }

  /** The encoding of an endpoint; `write_addr_parser` produces the two numeric forms with `PER_PACKET`. */
  function WriteAddr(t: Tags, e: Endpoint): seq<Byte>
    requires e.host.Name? ==> |e.host.name| <= 255
  {
    match e.host
    case V4(ip) => [t.v4] + ip + U16Bytes(e.port)
    case V6(ip) => [t.v6] + ip + U16Bytes(e.port)
    case Name(name) => [t.name, |name|] + name + U16Bytes(e.port)
  }

  lemma HostPortExact(s: seq<Byte>, n: nat, host: seq<Byte>, port: Port, rest: seq<Byte>)
    ensures ReadHostPort(s, n) == Parsed((host, port), rest) <==> |host| == n && s == host + U16Bytes(port) + rest
  {
    if |s| >= n + 2 {
      var t := s[n..];
      U16RoundTrip(port, t[0], t[1]);
      assert s == s[..n] + ([t[0], t[1]] + t[2..]);
    }
    if |host| == n && s == host + U16Bytes(port) + rest {
      assert s == host + (U16Bytes(port) + rest);
      assert s[..n] == host && s[n..] == U16Bytes(port) + rest;
      var t := s[n..];
      assert t[2..] == rest && U16Bytes(port) == [t[0], t[1]];
      U16RoundTrip(port, t[0], t[1]);
    }
  }

  /**
   The parser accepts exactly the encodings of valid endpoints, returns the endpoint that
   was encoded, and consumes exactly its encoding.
   */
  lemma ReadAddrExact(t: Tags, utf8: seq<Byte> -> bool, s: seq<Byte>, e: Endpoint, rest: seq<Byte>)
    requires DistinctTags(t)
    ensures ReadAddr(t, utf8, s) == Parsed(e, rest) <==>
            ValidHost(utf8, e.host) && s == WriteAddr(t, e) + rest
  {
    match e.host
    case V4(ip) => NumericExact(t, utf8, s, e, rest);
    case V6(ip) => NumericExact(t, utf8, s, e, rest);
    case Name(name) => NameExact(t, utf8, s, e, rest);
  }

  lemma NumericExact(t: Tags, utf8: seq<Byte> -> bool, s: seq<Byte>, e: Endpoint, rest: seq<Byte>)
    requires DistinctTags(t) && !e.host.Name?
    ensures ReadAddr(t, utf8, s) == Parsed(e, rest) <==>
            ValidHost(utf8, e.host) && s == WriteAddr(t, e) + rest
  {
    var tag, n := if e.host.V4? then t.v4 else t.v6, if e.host.V4? then 4 else 16;
    if s != [] {
      HostPortExact(s[1..], n, e.host.ip, e.port, rest);
      assert s == [s[0]] + s[1..];
      assert [tag] + e.host.ip + U16Bytes(e.port) + rest == [tag] + (e.host.ip + U16Bytes(e.port) + rest);
    }
  }

  lemma NameExact(t: Tags, utf8: seq<Byte> -> bool, s: seq<Byte>, e: Endpoint, rest: seq<Byte>)
    requires DistinctTags(t) && e.host.Name?
    ensures ReadAddr(t, utf8, s) == Parsed(e, rest) <==>
            ValidHost(utf8, e.host) && s == WriteAddr(t, e) + rest
  {
    var name := e.host.name;
    if |s| >= 2 {
      HostPortExact(s[2..], s[1], name, e.port, rest);
      assert s == [s[0], s[1]] + s[2..];
      if |name| <= 255 {
        assert WriteAddr(t, e) + rest == [t.name, |name|] + (name + U16Bytes(e.port) + rest);
      }
    }
  }

  // ── Packets ─────────────────────────────────────────────────────────────

  /** A packet with the peer address it carries, which a connected stream leaves out. */
  datatype Packet = Packet(peer: Option<Endpoint>, data: seq<Byte>)

  const MAX_DATAGRAM: nat := 65535

  predicate ValidPacket(connected: bool, utf8: seq<Byte> -> bool, p: Packet) {
    && |p.data| <= MAX_DATAGRAM
    && (p.peer.None? <==> connected)
    && (p.peer.Some? ==> ValidHost(utf8, p.peer.value.host))
  }

  /** `write_uot_packet`. The length is cast to sixteen bits. */
  function WritePacket(p: Packet): seq<Byte>
    requires p.peer.Some? && p.peer.value.host.Name? ==> |p.peer.value.host.name| <= 255
  {
    (if p.peer.Some? then WriteAddr(PER_PACKET, p.peer.value) else []) + U16Bytes(|p.data|) + p.data
  }

  /** A length and that many bytes. */
  function ReadPayload(s: seq<Byte>): Parse<seq<Byte>> {
    match ReadU16(s)
    case Parsed(n, rest) => ReadExact(rest, n)
    case _ => Truncated
  }

  function WithPeer(peer: Option<Endpoint>, p: Parse<seq<Byte>>): Parse<Packet> {
    match p
    case Parsed(data, rest) => Parsed(Packet(peer, data), rest)
    case Truncated => Truncated
    case Malformed => Malformed
  }

  /** What one turn of the input loop reads. */
  function ReadPacket(connected: bool, utf8: seq<Byte> -> bool, s: seq<Byte>): Parse<Packet> {
    if connected then WithPeer(None, ReadPayload(s))
    else match ReadAddr(PER_PACKET, utf8, s)
      case Parsed(peer, rest) => WithPeer(Some(peer), ReadPayload(rest))
      case Truncated => Truncated
      case Malformed => Malformed
  }

  lemma PayloadExact(s: seq<Byte>, data: seq<Byte>, rest: seq<Byte>)
    ensures ReadPayload(s) == Parsed(data, rest) <==>
            |data| <= MAX_DATAGRAM && s == U16Bytes(|data|) + data + rest
  {
    if |s| >= 2 {
      assert s == [s[0], s[1]] + s[2..];
      if |data| <= MAX_DATAGRAM {
        U16RoundTrip(|data|, s[0], s[1]);
        assert U16Bytes(|data|) + data + rest == U16Bytes(|data|) + (data + rest);
      }
      assert (data + rest)[..|data|] == data && (data + rest)[|data|..] == rest;
      if ReadPayload(s) == Parsed(data, rest) {
        assert s[2..] == data + rest;
      }
    }
  }

  /** The packet parser accepts exactly the encodings of valid packets and consumes exactly one. */
  lemma ReadPacketExact(connected: bool, utf8: seq<Byte> -> bool, s: seq<Byte>, p: Packet, rest: seq<Byte>)
    ensures ReadPacket(connected, utf8, s) == Parsed(p, rest) <==>
            ValidPacket(connected, utf8, p) && s == WritePacket(p) + rest
  {
    if connected {
      PayloadExact(s, p.data, rest);
      if p.peer.None? {
        assert [] + U16Bytes(|p.data|) + p.data == U16Bytes(|p.data|) + p.data;
      }
    } else if p.peer.Some? {
      AddressedExact(utf8, s, p, rest);
    }
  }

  lemma AddressedParse(utf8: seq<Byte> -> bool, s: seq<Byte>, p: Packet, rest: seq<Byte>)
    requires p.peer.Some? && ReadPacket(false, utf8, s) == Parsed(p, rest)
    ensures ValidPacket(false, utf8, p) && s == WritePacket(p) + rest
  {
    var e := p.peer.value;
    var tail := ReadAddr(PER_PACKET, utf8, s).rest;
    ReadAddrExact(PER_PACKET, utf8, s, e, tail);
    PayloadExact(tail, p.data, rest);
    Regroup(WriteAddr(PER_PACKET, e), U16Bytes(|p.data|), p.data, rest);
  }

  lemma AddressedWrite(utf8: seq<Byte> -> bool, p: Packet, rest: seq<Byte>)
    requires p.peer.Some? && ValidPacket(false, utf8, p)
    ensures ReadPacket(false, utf8, WritePacket(p) + rest) == Parsed(p, rest)
  {
    var e := p.peer.value;
    var tail := U16Bytes(|p.data|) + p.data + rest;
    Regroup(WriteAddr(PER_PACKET, e), U16Bytes(|p.data|), p.data, rest);
    ReadAddrExact(PER_PACKET, utf8, WritePacket(p) + rest, e, tail);
    PayloadExact(tail, p.data, rest);
  }

  lemma AddressedExact(utf8: seq<Byte> -> bool, s: seq<Byte>, p: Packet, rest: seq<Byte>)
    requires p.peer.Some?
    ensures ReadPacket(false, utf8, s) == Parsed(p, rest) <==>
            ValidPacket(false, utf8, p) && s == WritePacket(p) + rest
  {
    if ReadPacket(false, utf8, s) == Parsed(p, rest) {
      AddressedParse(utf8, s, p, rest);
    }
    if ValidPacket(false, utf8, p) {
      AddressedWrite(utf8, p, rest);
    }
  }

  lemma Regroup(a: seq<Byte>, b: seq<Byte>, c: seq<Byte>, d: seq<Byte>)
    ensures a + b + c + d == a + (b + c + d)
  {
  }

  lemma Regrouped(a: seq<Byte>, b: seq<Byte>, c: seq<Byte>)
    ensures a + (b + c) == (a + b) + c
  {
  }

  /** More bytes never change a packet that was already complete. */
  lemma ReadPacketExtends(connected: bool, utf8: seq<Byte> -> bool, s: seq<Byte>, p: Packet, rest: seq<Byte>, more: seq<Byte>)
    requires ReadPacket(connected, utf8, s) == Parsed(p, rest)
    ensures ReadPacket(connected, utf8, s + more) == Parsed(p, rest + more)
  {
    ReadPacketExact(connected, utf8, s, p, rest);
    Regrouped(WritePacket(p), rest, more);
    ReadPacketExact(connected, utf8, s + more, p, rest + more);
  }

  lemma ReadWhole(connected: bool, utf8: seq<Byte> -> bool, p: Packet)
    requires ValidPacket(connected, utf8, p)
    ensures ReadPacket(connected, utf8, WritePacket(p)) == Parsed(p, [])
  {
    var bytes := WritePacket(p);
    assert bytes == bytes + [];
    ReadPacketExact(connected, utf8, bytes, p, []);
  }

  /** No encoding is the beginning of another. */
  lemma PrefixFree(connected: bool, utf8: seq<Byte> -> bool, p: Packet, frag: seq<Byte>)
    requires ValidPacket(connected, utf8, p) && frag < WritePacket(p)
    ensures !ReadPacket(connected, utf8, frag).Parsed?
  {
    var next := ReadPacket(connected, utf8, frag);
    if next.Parsed? {
      var bytes := WritePacket(p);
      var more := bytes[|frag|..];
      assert frag + more == bytes;
      ReadPacketExtends(connected, utf8, frag, next.value, next.rest, more);
      ReadWhole(connected, utf8, p);
      assert false;
    }
  }

  // ── Packet streams ──────────────────────────────────────────────────────

  predicate ValidPackets(connected: bool, utf8: seq<Byte> -> bool, ps: seq<Packet>) {
    forall i :: 0 <= i < |ps| ==> ValidPacket(connected, utf8, ps[i])
  }

  function WritePackets(connected: bool, utf8: seq<Byte> -> bool, ps: seq<Packet>): seq<Byte>
    requires ValidPackets(connected, utf8, ps)
    decreases |ps|
  {
    if ps == [] then [] else WritePacket(ps[0]) + WritePackets(connected, utf8, ps[1..])
  }

  /** All packets up to the first that is incomplete or malformed, and the bytes from there on. */
  function ReadPackets(connected: bool, utf8: seq<Byte> -> bool, s: seq<Byte>): (seq<Packet>, seq<Byte>)
    decreases |s|
  {
    match ReadPacket(connected, utf8, s)
    case Parsed(p, rest) =>
      ReadPacketExact(connected, utf8, s, p, rest);
      var (ps, left) := ReadPackets(connected, utf8, rest);
      ([p] + ps, left)
    case _ => ([], s)
  }

  lemma PacketFirst(connected: bool, utf8: seq<Byte> -> bool, p: Packet, rest: seq<Byte>)
    requires ValidPacket(connected, utf8, p)
    ensures var (ps, left) := ReadPackets(connected, utf8, rest);
            ReadPackets(connected, utf8, WritePacket(p) + rest) == ([p] + ps, left)
  {
    ReadPacketExact(connected, utf8, WritePacket(p) + rest, p, rest);
  }

  /** Parsing the concatenated encodings of any packets gives back those packets, whatever incomplete bytes follow. */
  lemma {:induction false} PacketsRoundTrip(connected: bool, utf8: seq<Byte> -> bool, ps: seq<Packet>, tail: seq<Byte>)
    requires ValidPackets(connected, utf8, ps) && !ReadPacket(connected, utf8, tail).Parsed?
    ensures ReadPackets(connected, utf8, WritePackets(connected, utf8, ps) + tail) == (ps, tail)
    decreases |ps|
  {
    if ps == [] {
      assert WritePackets(connected, utf8, ps) + tail == tail;
    } else {
      PacketsRoundTrip(connected, utf8, ps[1..], tail);
      PacketFirst(connected, utf8, ps[0], WritePackets(connected, utf8, ps[1..]) + tail);
      WriteFirst(connected, utf8, ps, tail);
    }
  }

  lemma WriteFirst(connected: bool, utf8: seq<Byte> -> bool, ps: seq<Packet>, tail: seq<Byte>)
    requires ps != [] && ValidPackets(connected, utf8, ps)
    ensures ps == [ps[0]] + ps[1..]
    ensures WritePackets(connected, utf8, ps) + tail == WritePacket(ps[0]) + (WritePackets(connected, utf8, ps[1..]) + tail)
  {
  }

  lemma {:induction false} WritePacketsSnoc(connected: bool, utf8: seq<Byte> -> bool, ps: seq<Packet>, p: Packet)
    requires ValidPackets(connected, utf8, ps) && ValidPacket(connected, utf8, p)
    ensures ValidPackets(connected, utf8, ps + [p])
    ensures WritePackets(connected, utf8, ps + [p]) == WritePackets(connected, utf8, ps) + WritePacket(p)
    decreases |ps|
  {
    if ps == [] {
      assert ps + [p] == [p];
      assert [p][1..] == [];
    } else {
      assert (ps + [p])[1..] == ps[1..] + [p];
      WritePacketsSnoc(connected, utf8, ps[1..], p);
      Regrouped(WritePacket(ps[0]), WritePackets(connected, utf8, ps[1..]), WritePacket(p));
    }
  }

  // ── The input loop ──────────────────────────────────────────────────────

  /** A datagram handed to the socket: no destination on a connected socket. */
  datatype Datagram = Datagram(dest: Option<Endpoint>, data: seq<Byte>)

  /** What a packet causes: nothing if it is empty, otherwise one datagram to the resolved peer. */
  function Sent(resolve: Endpoint -> Option<Endpoint>, p: Packet): seq<Datagram> {
    if p.data == [] then []
    else if p.peer.None? then [Datagram(None, p.data)]
    else [Datagram(resolve(p.peer.value), p.data)]
  }

  /** The datagrams of a packet list, in order, up to the first peer that does not resolve. */
  function Delivered(resolve: Endpoint -> Option<Endpoint>, ps: seq<Packet>): seq<Datagram> {
    if ps == [] || (ps[0].peer.Some? && resolve(ps[0].peer.value).None?) then []
    else Sent(resolve, ps[0]) + Delivered(resolve, ps[1..])
  }

  /** Everything the loop would still send for the bytes s. */
  function Ahead(connected: bool, utf8: seq<Byte> -> bool, resolve: Endpoint -> Option<Endpoint>, s: seq<Byte>): seq<Datagram> {
    Delivered(resolve, ReadPackets(connected, utf8, s).0)
  }

  /**
   The input loop over the bytes the client sends. It may be stopped after any number of
   turns, by a token or by a socket error, and has then sent a prefix; left alone, it sends
   exactly the non-empty packets, in order, up to the first bad packet or unresolved peer.
   */
  method InputLoop(connected: bool, utf8: seq<Byte> -> bool, resolve: Endpoint -> Option<Endpoint>,
                   s: seq<Byte>, turns: nat) returns (out: seq<Datagram>, read: nat)
    ensures out <= Ahead(connected, utf8, resolve, s)
    ensures read <= turns
    ensures read < turns ==> out == Ahead(connected, utf8, resolve, s)
  {
    out, read := [], 0;
    var rest := s;
    while read < turns
      invariant read <= turns
      invariant out + Ahead(connected, utf8, resolve, rest) == Ahead(connected, utf8, resolve, s)
    {
      AheadTurn(connected, utf8, resolve, rest);
      var next := ReadPacket(connected, utf8, rest);
      if !next.Parsed? || !Resolves(resolve, next.value) {
        return;
      }
      out := out + Sent(resolve, next.value);
      rest := next.rest;
      read := read + 1;
    }
  }

  predicate Resolves(resolve: Endpoint -> Option<Endpoint>, p: Packet) {
    p.peer.Some? ==> resolve(p.peer.value).Some?
  }

  /** What one more turn of the loop adds. */
  lemma AheadTurn(connected: bool, utf8: seq<Byte> -> bool, resolve: Endpoint -> Option<Endpoint>, s: seq<Byte>)
    ensures var next := ReadPacket(connected, utf8, s);
            Ahead(connected, utf8, resolve, s) ==
            if !next.Parsed? || !Resolves(resolve, next.value) then []
            else Sent(resolve, next.value) + Ahead(connected, utf8, resolve, next.rest)
  {
    var next := ReadPacket(connected, utf8, s);
    if next.Parsed? {
      var ps := ReadPackets(connected, utf8, next.rest).0;
      assert ([next.value] + ps)[1..] == ps;
    }
  }

  /** The non-empty packets, in order, up to the first whose peer does not resolve. */
  function Wanted(resolve: Endpoint -> Option<Endpoint>, ps: seq<Packet>): seq<Packet> {
    if ps == [] || !Resolves(resolve, ps[0]) then []
    else (if ps[0].data != [] then [ps[0]] else []) + Wanted(resolve, ps[1..])
  }

  /** The datagram carries the packet's data, to what its peer resolves to; without a peer, to the connected one. */
  predicate Carries(resolve: Endpoint -> Option<Endpoint>, d: Datagram, p: Packet) {
    && d.data == p.data
    && match p.peer
       case None => d.dest.None?
       case Some(e) => d.dest.Some? && d.dest == resolve(e)
  }

  ghost predicate CarriesAll(resolve: Endpoint -> Option<Endpoint>, ds: seq<Datagram>, ps: seq<Packet>) {
    |ds| == |ps| && forall j :: 0 <= j < |ps| ==> Carries(resolve, ds[j], ps[j])
  }

  lemma CarriesBoth(resolve: Endpoint -> Option<Endpoint>, d: Datagram, p: Packet, ds: seq<Datagram>, ps: seq<Packet>)
    requires Carries(resolve, d, p) && CarriesAll(resolve, ds, ps)
    ensures CarriesAll(resolve, [d] + ds, [p] + ps)
  {
  }

  /** What the loop sends for a packet list, datagram by datagram: the data of each wanted packet, to its resolved peer. */
  lemma {:induction false} DeliveredExactly(resolve: Endpoint -> Option<Endpoint>, ps: seq<Packet>)
    ensures CarriesAll(resolve, Delivered(resolve, ps), Wanted(resolve, ps))
    decreases |ps|
  {
    if ps != [] && Resolves(resolve, ps[0]) {
      DeliveredExactly(resolve, ps[1..]);
      var ds, rest := Delivered(resolve, ps[1..]), Wanted(resolve, ps[1..]);
      if ps[0].data == [] {
        assert [] + ds == ds && [] + rest == rest;
      } else {
        CarriesBoth(resolve, Sent(resolve, ps[0])[0], ps[0], ds, rest);
      }
    }
  }

  /** The bytes of a packet on a stream with addresses, and of a request address. */
  lemma BytesOnTheWire()
    ensures WritePacket(Packet(Some(Endpoint(V4([1, 2, 3, 4]), 53)), [7])) == [0, 1, 2, 3, 4, 0, 53, 0, 1, 7]
    ensures WritePacket(Packet(Some(Endpoint(Name([97]), 443)), [])) == [2, 1, 97, 1, 187, 0, 0]
    ensures WriteAddr(SOCKS, Endpoint(Name([97]), 443)) == [3, 1, 97, 1, 187]
    ensures WriteAddr(SOCKS, Endpoint(V4([1, 2, 3, 4]), 53)) == [1, 1, 2, 3, 4, 0, 53]
    ensures WriteAddr(SOCKS, Endpoint(V6(seq(16, _ => 0)), 1))[0] == 4 && WriteAddr(PER_PACKET, Endpoint(V6(seq(16, _ => 0)), 1))[0] == 1
  {
  }

  /** What the client encodes is what the loop sends: the non-empty packets in order, up to an unresolved peer. */
  lemma ClientPacketsAreSent(connected: bool, utf8: seq<Byte> -> bool, resolve: Endpoint -> Option<Endpoint>, ps: seq<Packet>)
    requires ValidPackets(connected, utf8, ps)
    ensures Ahead(connected, utf8, resolve, WritePackets(connected, utf8, ps)) == Delivered(resolve, ps)
  {
    var bytes := WritePackets(connected, utf8, ps);
    assert !ReadPacket(connected, utf8, []).Parsed?;
    PacketsRoundTrip(connected, utf8, ps, []);
    assert bytes + [] == bytes;
  }
}
