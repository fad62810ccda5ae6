/**
 From a CONNECT target to the addresses that are dialled: the private-address filter,
 the resolve-and-check step, the two routers and the direct connect path.

 DNS is an arbitrary answer, or a failure, at each lookup. The access-control engine is
 an arbitrary match. A name handed to a custom dialler without addresses is a `ByName`
 attempt, because the dialler then looks it up by itself.
 */
module Routing {
  import opened Polls

  type Octets4 = s: seq<Byte> | |s| == 4 witness [0, 0, 0, 0]
  type Octets6 = s: seq<Byte> | |s| == 16 witness [0, 0, 0, 0, 0, 0, 0, 0, 0, 0, 0, 0, 0, 0, 0, 0]

  datatype Ip = V4(v4: Octets4) | V6(v6: Octets6)

  datatype Target = Literal(ip: Ip, port: nat) | Domain(name: string, port: nat)

  // ── The private-address filter ──────────────────────────────────────────

  function Masked(b: Byte, mask: bv8): bv8 {
    (b as bv8) & mask
  }

  predicate IsPrivate4(o: Octets4) {
    || o[0] == 127
    || o[0] == 10 || (o[0] == 172 && 16 <= o[1] <= 31) || (o[0] == 192 && o[1] == 168)
    || (o[0] == 169 && o[1] == 254)
    || o[0] == 0
    || (o[0] == 100 && Masked(o[1], 0xC0) == 64)
    || (o[0] == 192 && o[1] == 0 && o[2] == 0)
    || o == [255, 255, 255, 255]
    || 224 <= o[0] <= 239
  }

  predicate IsPrivate6(o: Octets6) {
    || o == [0, 0, 0, 0, 0, 0, 0, 0, 0, 0, 0, 0, 0, 0, 0, 1]
    || Masked(o[0], 0xFE) == 0xFC
    || (o[0] == 0xFE && Masked(o[1], 0xC0) == 0x80)
  }

  predicate IsPrivate(ip: Ip) {
    match ip case V4(o) => IsPrivate4(o) case V6(o) => IsPrivate6(o)
  }

  function Pow2(n: nat): nat {
    if n == 0 then 1 else 2 * Pow2(n - 1)
  }

  /** The address starts with the given number of bits of the prefix, as in `10.0.0.0/8`. */
  predicate InBlock(o: seq<Byte>, prefix: seq<Byte>, bits: nat)
    requires bits <= 8 * |prefix| && |prefix| <= |o|
  {
    var whole, left := bits / 8, bits % 8;
    && o[..whole] == prefix[..whole]
    && (left > 0 ==> Pow2(8 - left) > 0 && o[whole] / Pow2(8 - left) == prefix[whole] / Pow2(8 - left))
  }

  lemma TopBitsAre64(b: Byte)
    ensures Masked(b, 0xC0) == 64 <==> 64 <= b < 128
  {
    var v := b as bv8;
    assert (v & 0xC0 == 64) == (64 <= v && v < 128);
  }

  lemma TopBitsAre128(b: Byte)
    ensures Masked(b, 0xC0) == 0x80 <==> 128 <= b < 192
  {
    var v := b as bv8;
    assert (v & 0xC0 == 0x80) == (0x80 <= v && v < 0xC0);
  }

  lemma TopSevenBits(b: Byte)
    ensures Masked(b, 0xFE) == 0xFC <==> 252 <= b < 254
  {
    var v := b as bv8;
    assert (v & 0xFE == 0xFC) == (0xFC <= v && v < 0xFE);
  }

  lemma Powers()
    ensures Pow2(1) == 2 && Pow2(4) == 16 && Pow2(6) == 64
  {
    assert Pow2(2) == 4 && Pow2(3) == 8 && Pow2(5) == 32;
  }

  lemma BlockOf1(o: seq<Byte>, a: Byte)
    requires |o| >= 1
    ensures InBlock(o, [a], 8) <==> o[0] == a
  {
    assert o[..1] == [o[0]] && [a][..1] == [a];
  }

  lemma BlockOf2(o: seq<Byte>, a: Byte, b: Byte)
    requires |o| >= 2
    ensures InBlock(o, [a, b], 16) <==> o[0] == a && o[1] == b
  {
    assert o[..2] == [o[0], o[1]] && [a, b][..2] == [a, b];
  }

  lemma BlockOf2Part(o: seq<Byte>, a: Byte, b: Byte, left: nat)
    requires |o| >= 2 && 0 < left < 8 && Pow2(8 - left) > 0
    ensures InBlock(o, [a, b], 8 + left) <==> o[0] == a && o[1] / Pow2(8 - left) == b / Pow2(8 - left)
  {
    assert o[..1] == [o[0]] && [a, b][..1] == [a];
    assert (8 + left) / 8 == 1 && (8 + left) % 8 == left;
  }

  lemma BlockOf3(o: seq<Byte>, a: Byte, b: Byte, c: Byte)
    requires |o| >= 3
    ensures InBlock(o, [a, b, c], 24) <==> o[0] == a && o[1] == b && o[2] == c
  {
    assert o[..3] == [o[0], o[1], o[2]] && [a, b, c][..3] == [a, b, c];
  }

  /** The IPv4 filter is exactly these address blocks. */
  lemma Filter4IsBlocks(o: Octets4)
    ensures IsPrivate4(o) <==>
            || InBlock(o, [127], 8) || InBlock(o, [10], 8) || InBlock(o, [172, 16], 12) || InBlock(o, [192, 168], 16)
            || InBlock(o, [169, 254], 16) || InBlock(o, [0], 8) || InBlock(o, [100, 64], 10) || InBlock(o, [192, 0, 0], 24)
            || InBlock(o, [255, 255, 255, 255], 32) || InBlock(o, [224], 4)
  {
    TopBitsAre64(o[1]);
    Powers();
    BlockOf1(o, 127);
    BlockOf1(o, 10);
    BlockOf1(o, 0);
    BlockOf2Part(o, 172, 16, 4);
    BlockOf2Part(o, 100, 64, 2);
    BlockOf2(o, 192, 168);
    BlockOf2(o, 169, 254);
    BlockOf3(o, 192, 0, 0);
    assert o[..4] == o && [255, 255, 255, 255][..4] == [255, 255, 255, 255];
    assert InBlock(o, [224], 4) <==> o[0] / 16 == 14;
  }

  /** The IPv6 filter is loopback, unique local and link local. */
  lemma Filter6IsBlocks(o: Octets6)
    ensures IsPrivate6(o) <==>
            || InBlock(o, [0, 0, 0, 0, 0, 0, 0, 0, 0, 0, 0, 0, 0, 0, 0, 1], 128)
            || InBlock(o, [0xFC], 7) || InBlock(o, [0xFE, 0x80], 10)
  {
    TopSevenBits(o[0]);
    TopBitsAre128(o[1]);
    Powers();
    var loopback := [0, 0, 0, 0, 0, 0, 0, 0, 0, 0, 0, 0, 0, 0, 0, 1];
    assert o[..16] == o && loopback[..16] == loopback;
    assert InBlock(o, [0xFC], 7) <==> o[0] / 2 == 0xFC / 2;
    BlockOf2Part(o, 0xFE, 0x80, 2);
  }

  // ── Resolve and check ───────────────────────────────────────────────────

  /** The answer of one DNS lookup; `None` is a failure. */
  type Answer = Option<seq<Ip>>

  datatype Checked = Checked(private: bool, resolved: Option<seq<Ip>>)

  predicate AnyPrivate(ips: seq<Ip>) {
    exists i :: 0 <= i < |ips| && IsPrivate(ips[i])
  }

  /** A target is private if any of its addresses is; otherwise all addresses of a name are passed on. */
  function CheckPrivate(t: Target, dns: Answer): Checked {
    match t
    case Literal(ip, _) => Checked(IsPrivate(ip), None)
    case Domain(_, _) =>
      if dns.None? || dns.value == [] then Checked(false, None)
      else if AnyPrivate(dns.value) then Checked(true, None)
      else Checked(false, Some(dns.value))
  }

  method CheckPrivateAndResolve(t: Target, dns: Answer) returns (private: bool, resolved: Option<seq<Ip>>)
    ensures Checked(private, resolved) == CheckPrivate(t, dns)
  {
    if t.Literal? {
      return IsPrivate(t.ip), None;
    }
    if dns.None? {
      return false, None;
    }
    var public: seq<Ip> := [];
    for i := 0 to |dns.value|
      invariant public == dns.value[..i]
      invariant forall j :: 0 <= j < i ==> !IsPrivate(dns.value[j])
    {
      if IsPrivate(dns.value[i]) {
        return true, None;
      }
      public := public + [dns.value[i]];
    }
    assert public == dns.value;
    return false, if public == [] then None else Some(public);
  }

  // ── Routers ─────────────────────────────────────────────────────────────

  datatype Handler = DirectHandler(customDial: bool) | Socks5Handler | HttpHandler | RejectHandler

  datatype Outbound = Direct(resolved: Option<seq<Ip>>, dialer: Option<Handler>) | Reject | Proxy(handler: Handler)

  /** `DirectRouter::route`. */
  function RouteDirect(block: bool, t: Target, dns: Answer): Outbound {
    if !block then Direct(None, None)
    else
      var c := CheckPrivate(t, dns);
      if c.private then Reject
      else if c.resolved.None? && t.Domain? then Reject
      else Direct(c.resolved, None)
  }

  function DirectDecision(block: bool, t: Target, resolved: Option<seq<Ip>>, dialer: Option<Handler>): Outbound {
    if block && resolved.None? && t.Domain? then Reject else Direct(resolved, dialer)
  }

  function CustomDialer(h: Handler): Option<Handler> {
    if h.DirectHandler? && h.customDial then Some(h) else None
  }

  function RouteResolved(block: bool, t: Target, resolved: Option<seq<Ip>>, matched: Option<Handler>): Outbound {
    match matched
    case None => DirectDecision(block, t, resolved, None)
    case Some(h) =>
      match h
      case DirectHandler(_) => DirectDecision(block, t, resolved, CustomDialer(h))
      case RejectHandler => Reject
      case _ => Proxy(h)
  }

  /** `AclRouter::route`, given what the engine matches. */
  function RouteAcl(block: bool, t: Target, dns: Answer, matched: Option<Handler>): Outbound {
    var c := if block then CheckPrivate(t, dns) else Checked(false, None);
    if c.private then Reject else RouteResolved(block, t, c.resolved, matched)
  }

  // ── Dialling ────────────────────────────────────────────────────────────

  /** What is handed to a connect call or to a dialler. */
  datatype Attempt = ByAddress(ip: Ip, port: nat) | ByName(name: string, port: nat)

  function First4(ips: seq<Ip>): Option<Ip> {
    if ips == [] then None else if ips[0].V4? then Some(ips[0]) else First4(ips[1..])
  }

  function First6(ips: seq<Ip>): Option<Ip> {
    if ips == [] then None else if ips[0].V6? then Some(ips[0]) else First6(ips[1..])
  }

  /** The first address of the family in the list, or none if there is none. */
  predicate IsFirst(ips: seq<Ip>, ip: Option<Ip>, v4: bool) {
    if ip.None? then forall i :: 0 <= i < |ips| ==> ips[i].V4? != v4
    else exists i :: 0 <= i < |ips| && ips[i] == ip.value && ip.value.V4? == v4 && forall j :: 0 <= j < i ==> ips[j].V4? != v4
  }

  lemma FirstLater(ips: seq<Ip>, ip: Option<Ip>, v4: bool)
    requires ips != [] && ips[0].V4? != v4 && IsFirst(ips[1..], ip, v4)
    ensures IsFirst(ips, ip, v4)
  {
    var rest := ips[1..];
    if ip.Some? {
      var i :| 0 <= i < |rest| && rest[i] == ip.value && ip.value.V4? == v4 && forall j :: 0 <= j < i ==> rest[j].V4? != v4;
      assert ips[i + 1] == ip.value;
      assert forall j :: 0 < j < i + 1 ==> ips[j] == rest[j - 1];
    } else {
      assert forall j :: 0 < j < |ips| ==> ips[j] == rest[j - 1];
    }
  }

  /** The first address of each family, or none if the family does not occur. */
  lemma {:induction false} FirstsAreFirst(ips: seq<Ip>)
    ensures IsFirst(ips, First4(ips), true) && IsFirst(ips, First6(ips), false)
    decreases |ips|
  {
    if ips != [] {
      FirstsAreFirst(ips[1..]);
      if ips[0].V4? {
        FirstLater(ips, First6(ips[1..]), false);
      } else {
        FirstLater(ips, First4(ips[1..]), true);
      }
    }
  }

  /** `resolve_info_from_ips`: the first address of each family. */
  method ResolveInfoFromIps(ips: seq<Ip>) returns (ipv4: Option<Ip>, ipv6: Option<Ip>)
    ensures ipv4 == First4(ips) && ipv6 == First6(ips)
    ensures IsFirst(ips, ipv4, true) && IsFirst(ips, ipv6, false)
  {
    FirstsAreFirst(ips);
    ipv4, ipv6 := None, None;
    for i := 0 to |ips|
      invariant First4(ips) == if ipv4.Some? then ipv4 else First4(ips[i..])
      invariant First6(ips) == if ipv6.Some? then ipv6 else First6(ips[i..])
    {
      assert ips[i..][1..] == ips[i + 1..];
      match ips[i] {
        case V4(_) =>
          if ipv4.None? {
            ipv4 := Some(ips[i]);
          }
        case V6(_) =>
          if ipv6.None? {
            ipv6 := Some(ips[i]);
          }
      }
    }
  }

  /** What a custom dialler can dial: the addresses it was given, or else the target itself. */
  function DialerAttempts(t: Target, resolved: Option<seq<Ip>>): seq<Attempt> {
    var ips := if resolved.Some? then resolved.value else [];
    var given := Listed(First4(ips), t.port) + Listed(First6(ips), t.port);
    if given != [] then given
    else if t.Literal? then [ByAddress(t.ip, t.port)]
    else [ByName(t.name, t.port)]
  }

  function Listed(ip: Option<Ip>, port: nat): seq<Attempt> {
    if ip.Some? then [ByAddress(ip.value, port)] else []
  }

  /** How many addresses are tried, from index i on, until one answers. */
  function Tried(ips: seq<Ip>, alive: Ip -> bool, i: nat): (n: nat)
    requires i <= |ips|
    ensures i <= n <= |ips|
    decreases |ips| - i
  {
    if i == |ips| then i else if alive(ips[i]) then i + 1 else Tried(ips, alive, i + 1)
  }

  /** `connect_ip_list`: every address in order up to the first that answers. */
  function ListAttempts(ips: seq<Ip>, port: nat, alive: Ip -> bool): seq<Attempt> {
    seq(Tried(ips, alive, 0), i requires 0 <= i < |ips| => ByAddress(ips[i], port))
  }

  method ConnectIpList(ips: seq<Ip>, port: nat, alive: Ip -> bool) returns (attempts: seq<Attempt>, connected: Option<Ip>)
    ensures attempts == ListAttempts(ips, port, alive)
    ensures connected.None? <==> forall i :: 0 <= i < |ips| ==> !alive(ips[i])
    ensures connected.Some? ==> alive(connected.value) && attempts != []
                                && attempts[|attempts| - 1] == ByAddress(connected.value, port)
                                && connected.value == ips[|attempts| - 1]
                                && forall i :: 0 <= i < |attempts| - 1 ==> !alive(ips[i])
  {
    attempts, connected := [], None;
    for i := 0 to |ips|
      invariant Tried(ips, alive, 0) == Tried(ips, alive, i)
      invariant |attempts| == i && forall j :: 0 <= j < i ==> attempts[j] == ByAddress(ips[j], port)
      invariant forall j :: 0 <= j < i ==> !alive(ips[j])
    {
      attempts := attempts + [ByAddress(ips[i], port)];
      if alive(ips[i]) {
        connected := Some(ips[i]);
        return;
      }
    }
  }

  /** `connect_direct`: the router's addresses, or else the target resolved once more. */
  function PlainAttempts(t: Target, resolved: Option<seq<Ip>>, again: Answer, alive: Ip -> bool): seq<Attempt> {
    if resolved.Some? && resolved.value != [] then ListAttempts(resolved.value, t.port, alive)
    else if t.Literal? then [ByAddress(t.ip, t.port)]
    else if again.Some? && again.value != [] then [ByAddress(again.value[0], t.port)]
    else []
  }

  /** Everything the TCP direct path dials for a routing decision; `again` answers a second lookup. */
  function Attempts(out: Outbound, t: Target, again: Answer, alive: Ip -> bool): seq<Attempt> {
    match out
    case Direct(resolved, dialer) =>
      if dialer.Some? then DialerAttempts(t, resolved) else PlainAttempts(t, resolved, again, alive)
    case _ => []
  }

  /** The attempt goes to an address that belongs to the target, as written or as resolved, and is not private. */
  predicate Safe(a: Attempt, t: Target, dns: Answer) {
    && a.ByAddress?
    && !IsPrivate(a.ip)
    && (a.ip in Belongs(t, dns))
  }

  function Belongs(t: Target, dns: Answer): seq<Ip> {
    if t.Literal? then [t.ip] else if dns.Some? then dns.value else []
  }

  predicate AllSafe(attempts: seq<Attempt>, t: Target, dns: Answer) {
    forall i :: 0 <= i < |attempts| ==> Safe(attempts[i], t, dns)
  }

  lemma FirstsAreMembers(ips: seq<Ip>)
    ensures First4(ips).Some? ==> First4(ips).value in ips
    ensures First6(ips).Some? ==> First6(ips).value in ips
    ensures ips != [] ==> First4(ips).Some? || First6(ips).Some?
  {
    FirstsAreFirst(ips);
  }

  lemma ListIsSafe(ips: seq<Ip>, alive: Ip -> bool, t: Target, dns: Answer)
    requires forall i :: 0 <= i < |ips| ==> !IsPrivate(ips[i]) && ips[i] in Belongs(t, dns)
    ensures AllSafe(ListAttempts(ips, t.port, alive), t, dns)
  {
    var attempts := ListAttempts(ips, t.port, alive);
    forall i | 0 <= i < |attempts| ensures Safe(attempts[i], t, dns) {
      assert attempts[i].ip == ips[i];
    }
  }

  /** A direct decision that carries only checked addresses, or none for a checked literal. */
  predicate Vetted(resolved: Option<seq<Ip>>, t: Target, dns: Answer) {
    match t
    case Literal(ip, _) => resolved.None? && !IsPrivate(ip)
    case Domain(_, _) => resolved.Some? && dns == resolved && resolved.value != [] && !AnyPrivate(resolved.value)
  }

  lemma VettedIsSafe(resolved: Option<seq<Ip>>, dialer: Option<Handler>, t: Target, dns: Answer, again: Answer,
                     alive: Ip -> bool)
    requires Vetted(resolved, t, dns)
    ensures AllSafe(Attempts(Direct(resolved, dialer), t, again, alive), t, dns)
  {
    if t.Domain? {
      var ips := resolved.value;
      forall i | 0 <= i < |ips| ensures !IsPrivate(ips[i]) && ips[i] in Belongs(t, dns) {
      }
      FirstsAreMembers(ips);
      ListIsSafe(ips, alive, t, dns);
    }
  }

  /**
   With private blocking on, for every target, every DNS answer or failure at either lookup
   and every match of the engine: whatever either router decides, each address dialled on
   the direct path belongs to the target as written or as first resolved, and is not private.
   */
  lemma DialledAddressesAreChecked(t: Target, dns: Answer, again: Answer, matched: Option<Handler>, alive: Ip -> bool)
    ensures AllSafe(Attempts(RouteDirect(true, t, dns), t, again, alive), t, dns)
    ensures AllSafe(Attempts(RouteAcl(true, t, dns, matched), t, again, alive), t, dns)
  {
    var c := CheckPrivate(t, dns);
    if Vetted(c.resolved, t, dns) {
      VettedIsSafe(c.resolved, None, t, dns, again, alive);
      if matched.Some? {
        VettedIsSafe(c.resolved, CustomDialer(matched.value), t, dns, again, alive);
      }
    }
  }

  /**
   Without blocking nothing is looked up before routing, and on the plain direct path the
   lookup at connect time alone decides what is dialled: its first address, whatever that is.
   A custom dialler is handed the name itself. The guarantee above then holds exactly if that address happens not to be private.
   */
  lemma OnlyWithBlocking(name: string, port: nat, dns: Answer, again: Answer, alive: Ip -> bool)
    ensures var t := Domain(name, port);
            var dialled := if again.Some? && again.value != [] then [ByAddress(again.value[0], port)] else [];
            && Attempts(RouteDirect(false, t, dns), t, again, alive) == dialled
            && Attempts(RouteAcl(false, t, dns, None), t, again, alive) == dialled
            && Attempts(RouteAcl(false, t, dns, Some(DirectHandler(false))), t, again, alive) == dialled
            && Attempts(RouteAcl(false, t, dns, Some(DirectHandler(true))), t, again, alive) == [ByName(name, port)]
            && (AllSafe(dialled, t, again) <==> dialled == [] || !IsPrivate(again.value[0]))
  {
    if again.Some? && again.value != [] {
      OneIsSafe(again.value[0], Domain(name, port), again);
    }
  }

  lemma OneIsSafe(ip: Ip, t: Target, dns: Answer)
    requires ip in Belongs(t, dns)
    ensures AllSafe([ByAddress(ip, t.port)], t, dns) <==> !IsPrivate(ip)
  {
    assert [ByAddress(ip, t.port)][0] == ByAddress(ip, t.port);
  }

  /** Dialling stops at the first address that answers, gives up only after every address, and goes to the target's port. */
  predicate Thorough(attempts: seq<Attempt>, ips: seq<Ip>, port: nat, alive: Ip -> bool) {
    && (forall i :: 0 <= i < |attempts| ==> attempts[i].port == port)
    && (forall i :: 0 <= i < |attempts| - 1 ==> attempts[i].ByAddress? && !alive(attempts[i].ip))
    && ((forall i :: 0 <= i < |ips| ==> ByAddress(ips[i], port) in attempts)
        || exists i :: 0 <= i < |attempts| && attempts[i].ByAddress? && alive(attempts[i].ip))
  }

  lemma {:induction false} TriedStops(ips: seq<Ip>, alive: Ip -> bool, i: nat)
    requires i <= |ips|
    ensures var n := Tried(ips, alive, i); n == |ips| || (i < n && alive(ips[n - 1]))
    ensures forall j :: i <= j < Tried(ips, alive, i) - 1 ==> !alive(ips[j])
    decreases |ips| - i
  {
    if i < |ips| && !alive(ips[i]) {
      TriedStops(ips, alive, i + 1);
    }
  }

  lemma ListIsThorough(ips: seq<Ip>, port: nat, alive: Ip -> bool)
    ensures Thorough(ListAttempts(ips, port, alive), ips, port, alive)
  {
    var attempts := ListAttempts(ips, port, alive);
    TriedStops(ips, alive, 0);
    if |attempts| < |ips| {
      assert alive(attempts[|attempts| - 1].ip);
    } else {
      forall i | 0 <= i < |ips| ensures ByAddress(ips[i], port) in attempts {
        assert attempts[i] == ByAddress(ips[i], port);
      }
    }
  }

  /**
   With blocking on, a target that was not refused is dialled on the direct path: a plain
   connect tries the target's addresses, all of them or up to one that answers; a custom
   dialler is handed the first of each family, in every family the target has.
   */
  lemma DialsEnough(t: Target, dns: Answer, again: Answer, matched: Option<Handler>, alive: Ip -> bool)
    ensures var out := RouteAcl(true, t, dns, matched);
            var attempts := Attempts(out, t, again, alive);
            var ips := Belongs(t, dns);
            out.Direct? ==>
              && attempts != []
              && (forall i :: 0 <= i < |attempts| ==> attempts[i].port == t.port)
              && if out.dialer.None? then Thorough(attempts, ips, t.port, alive) else Offered(attempts, ips, t.port)
    ensures var out := RouteDirect(true, t, dns);
            out.Direct? ==> Thorough(Attempts(out, t, again, alive), Belongs(t, dns), t.port, alive)
  {
    DecidedExactly(true, t, dns, matched);
    var ips := Belongs(t, dns);
    if t.Literal? {
      LiteralDialled(t, again, alive);
    } else if ips != [] {
      DialerOffers(t, ips);
      ListIsThorough(ips, t.port, alive);
      TriedStops(ips, alive, 0);
    }
  }

  lemma LiteralDialled(t: Target, again: Answer, alive: Ip -> bool)
    requires t.Literal?
    ensures var attempts := [ByAddress(t.ip, t.port)];
            && PlainAttempts(t, None, again, alive) == attempts && DialerAttempts(t, None) == attempts
            && Thorough(attempts, [t.ip], t.port, alive) && Offered(attempts, [t.ip], t.port)
  {
    assert [ByAddress(t.ip, t.port)][0] == ByAddress(t.ip, t.port);
    LiteralOffered(t.ip, t.port);
  }

  /** For each family that occurs, its first address is among the attempts. */
  predicate Offered(attempts: seq<Attempt>, ips: seq<Ip>, port: nat) {
    OffersFamily(attempts, ips, port, true) && OffersFamily(attempts, ips, port, false)
  }

  predicate OffersFamily(attempts: seq<Attempt>, ips: seq<Ip>, port: nat, v4: bool) {
    (exists i :: 0 <= i < |ips| && ips[i].V4? == v4) ==>
      exists j :: 0 <= j < |attempts| && attempts[j].ByAddress? && attempts[j].port == port && IsFirst(ips, Some(attempts[j].ip), v4)
  }

  lemma LiteralOffered(ip: Ip, port: nat)
    ensures Offered([ByAddress(ip, port)], [ip], port)
  {
    assert IsFirst([ip], Some(ip), ip.V4?) by {
      assert [ip][0] == ip;
    }
    assert [ByAddress(ip, port)][0].ip == ip;
  }

  lemma DialerOffers(t: Target, ips: seq<Ip>)
    requires ips != []
    ensures Offered(DialerAttempts(t, Some(ips)), ips, t.port)
    ensures DialerAttempts(t, Some(ips)) != []
    ensures forall i :: 0 <= i < |DialerAttempts(t, Some(ips))| ==> DialerAttempts(t, Some(ips))[i].port == t.port
  {
    FirstsAreFirst(ips);
    FirstsAreMembers(ips);
    var attempts := DialerAttempts(t, Some(ips));
    if First4(ips).Some? {
      assert attempts[0] == ByAddress(First4(ips).value, t.port);
    }
    if First6(ips).Some? {
      assert attempts[|attempts| - 1] == ByAddress(First6(ips).value, t.port);
    }
  }

  /**
   What either router decides, for every target, answer, match and setting. Under blocking,
   a private target is refused, and a name that did not resolve is refused on the direct
   path but still handed to a proxy, which resolves it. A direct decision carries exactly
   the checked addresses of a name, and the handler if that has dialling options.
   */
  lemma DecidedExactly(block: bool, t: Target, dns: Answer, matched: Option<Handler>)
    ensures var private := block && if t.Literal? then IsPrivate(t.ip) else dns.Some? && AnyPrivate(dns.value);
            var unresolved := block && t.Domain? && (dns.None? || dns.value == []);
            var resolved := if block && t.Domain? then dns else None;
            var dialer := if matched == Some(DirectHandler(true)) then matched else None;
            && RouteDirect(block, t, dns) == (if private || unresolved then Reject else Direct(resolved, None))
            && RouteAcl(block, t, dns, matched) ==
               if private || matched == Some(RejectHandler) then Reject
               else if matched == Some(Socks5Handler) || matched == Some(HttpHandler) then Proxy(matched.value)
               else if unresolved then Reject
               else Direct(resolved, dialer)
  {
  }

  /**
   Exactly when the routers refuse a target under private blocking. A name that did not
   resolve is refused on the direct path but still handed to a proxy, which resolves it.
   */
  lemma RefusedExactly(t: Target, dns: Answer, matched: Option<Handler>)
    ensures var private := if t.Literal? then IsPrivate(t.ip) else dns.Some? && AnyPrivate(dns.value);
            var unresolved := t.Domain? && (dns.None? || dns.value == []);
            var viaProxy := matched == Some(Socks5Handler) || matched == Some(HttpHandler);
            && (RouteDirect(true, t, dns) == Reject <==> private || unresolved)
            && (RouteAcl(true, t, dns, matched) == Reject <==>
                  private || matched == Some(RejectHandler) || (unresolved && !viaProxy))
            && (viaProxy && !private ==> RouteAcl(true, t, dns, matched) == Proxy(matched.value))
  {
  }
}
