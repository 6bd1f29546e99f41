/** The proxy's decision whether, and at which address, a destination may be dialled. */
module Destination {
  import opened Options

  /** net.IP: four octets, or sixteen (which may hold a mapped IPv4 address). */
  type IP = seq<bv8>

  predicate IsIP(ip: IP) {
    |ip| == 4 || |ip| == 16
  }

  // ----- net.IP, by its documentation -----

  const ZEROS: seq<bv8> := [0, 0, 0, 0, 0, 0, 0, 0, 0, 0, 0, 0]

  /** The four octets of an IPv4 address in either form. */
  function To4(ip: IP): Option<IP> {
    if |ip| == 4 then Some(ip)
    else if |ip| == 16 && ip[..10] == ZEROS[..10] && ip[10] == 0xff && ip[11] == 0xff then Some(ip[12..])
    else None
  }

  predicate IsLoopback(ip: IP)
    requires IsIP(ip)
  {
    match To4(ip)
    case Some(v4) => v4[0] == 127
    case None => ip == ZEROS + [0, 0, 0, 1]
  }

  // Section 3 of RFC 1918 and section 3 of RFC 4193.
  predicate IsPrivate(ip: IP)
    requires IsIP(ip)
  {
    match To4(ip)
    case Some(v4) => v4[0] == 10 || (v4[0] == 172 && v4[1] & 0xf0 == 16) || (v4[0] == 192 && v4[1] == 168)
    case None => ip[0] & 0xfe == 0xfc
  }

  predicate IsLinkLocalUnicast(ip: IP)
    requires IsIP(ip)
  {
    match To4(ip)
    case Some(v4) => v4[0] == 169 && v4[1] == 254
    case None => ip[0] == 0xfe && ip[1] & 0xc0 == 0x80
  }

  predicate IsLinkLocalMulticast(ip: IP)
    requires IsIP(ip)
  {
    match To4(ip)
    case Some(v4) => v4[0] == 224 && v4[1] == 0 && v4[2] == 0
    case None => ip[0] == 0xff && ip[1] & 0x0f == 0x02
  }

  predicate IsMulticast(ip: IP)
    requires IsIP(ip)
  {
    match To4(ip)
    case Some(v4) => v4[0] & 0xf0 == 0xe0
    case None => ip[0] == 0xff
  }

  predicate IsUnspecified(ip: IP)
    requires IsIP(ip)
  {
    match To4(ip)
    case Some(v4) => v4 == [0, 0, 0, 0]
    case None => ip == ZEROS + [0, 0, 0, 0]
  }

  const CGNAT: IP := [100, 64, 0, 0]
  const CGNAT_MASK: IP := [0xff, 0xc0, 0, 0]

  /** net.IPNet.Contains for 100.64.0.0/10 (section 7 of RFC 6598). */
  predicate InCgnatRange(ip: IP)
    requires IsIP(ip)
  {
    To4(ip).Some? &&
    forall i | 0 <= i < 4 :: CGNAT[i] & CGNAT_MASK[i] == To4(ip).value[i] & CGNAT_MASK[i]
  }

  predicate IsLocalOrPrivate(ip: IP)
    requires IsIP(ip)
  {
    IsLoopback(ip) || IsPrivate(ip) || IsLinkLocalUnicast(ip) ||
    IsLinkLocalMulticast(ip) || IsMulticast(ip) || IsUnspecified(ip) ||
    InCgnatRange(ip)
  }

  // ----- The same ranges as intervals of addresses -----

  /** Numeric order of addresses of equal length. */
  predicate AtMost(a: IP, b: IP)
    requires |a| == |b|
  {
    a == [] || a[0] < b[0] || (a[0] == b[0] && AtMost(a[1..], b[1..]))
  }

  predicate Between(lo: IP, ip: IP, hi: IP)
    requires |lo| == |ip| == |hi|
  {
    AtMost(lo, ip) && AtMost(ip, hi)
  }

  lemma AtMostStep(a: IP, b: IP)
    requires |a| == |b| > 0
    ensures AtMost(a, b) <==> a[0] < b[0] || (a[0] == b[0] && AtMost(a[1..], b[1..]))
  {
  }

  lemma NothingAtMost(a: IP, b: IP)
    requires |a| == |b| == 0
    ensures AtMost(a, b)
  {
  }

  lemma FourOctets(a: IP, b: IP)
    requires |a| == |b| == 4
    ensures AtMost(a, b) <==>
            a[0] < b[0] || (a[0] == b[0] &&
                            (a[1] < b[1] || (a[1] == b[1] && (a[2] < b[2] || (a[2] == b[2] && a[3] <= b[3])))))
  {
    hide AtMost;
    var a1, b1 := a[1..], b[1..];
    var a2, b2 := a1[1..], b1[1..];
    var a3, b3 := a2[1..], b2[1..];
    AtMostStep(a, b);
    AtMostStep(a1, b1);
    AtMostStep(a2, b2);
    AtMostStep(a3, b3);
    NothingAtMost(a3[1..], b3[1..]);
  }

  lemma FourBetween(lo: IP, ip: IP, hi: IP)
    requires |lo| == |ip| == |hi| == 4
    ensures Between(lo, ip, hi) <==>
            (lo[0] < ip[0] || (lo[0] == ip[0] &&
                               (lo[1] < ip[1] || (lo[1] == ip[1] &&
                                                  (lo[2] < ip[2] || (lo[2] == ip[2] && lo[3] <= ip[3])))))) &&
            (ip[0] < hi[0] || (ip[0] == hi[0] &&
                               (ip[1] < hi[1] || (ip[1] == hi[1] &&
                                                  (ip[2] < hi[2] || (ip[2] == hi[2] && ip[3] <= hi[3]))))))
  {
    FourOctets(lo, ip);
    FourOctets(ip, hi);
  }

  /** The CGNAT mask test is the interval 100.64.0.0 to 100.127.255.255. */
  lemma CgnatInterval(ip: IP)
    requires IsIP(ip) && To4(ip).Some?
    ensures InCgnatRange(ip) <==> Between([100, 64, 0, 0], To4(ip).value, [100, 127, 255, 255])
  {
    var v4 := To4(ip).value;
    FourBetween([100, 64, 0, 0], v4, [100, 127, 255, 255]);
    MaskTest(v4[1]);
    MaskedOctets(v4);
  }

  lemma MaskedOctets(v4: IP)
    requires |v4| == 4
    ensures (forall i | 0 <= i < 4 :: CGNAT[i] & CGNAT_MASK[i] == v4[i] & CGNAT_MASK[i]) <==>
            v4[0] == 100 && v4[1] & 0xc0 == 64
  {
  }

  lemma MaskTest(x: bv8)
    ensures x & 0xc0 == 64 <==> 64 <= x <= 127
    ensures x & 0xf0 == 16 <==> 16 <= x <= 31
    ensures x & 0xf0 == 0xe0 <==> 224 <= x <= 239
    ensures x & 0xfe == 0xfc <==> 0xfc <= x <= 0xfd
    ensures x & 0xc0 == 0x80 <==> 0x80 <= x <= 0xbf
  {
  }

  /** Exactly these blocks of IPv4 addresses are local or private. */
  predicate InLocalBlock(v4: IP)
    requires |v4| == 4
  {
    Between([0, 0, 0, 0], v4, [0, 0, 0, 0]) ||
    Between([10, 0, 0, 0], v4, [10, 255, 255, 255]) ||
    Between([100, 64, 0, 0], v4, [100, 127, 255, 255]) ||
    Between([127, 0, 0, 0], v4, [127, 255, 255, 255]) ||
    Between([169, 254, 0, 0], v4, [169, 254, 255, 255]) ||
    Between([172, 16, 0, 0], v4, [172, 31, 255, 255]) ||
    Between([192, 168, 0, 0], v4, [192, 168, 255, 255]) ||
    Between([224, 0, 0, 0], v4, [239, 255, 255, 255])
  }

  lemma LocalBlocksExact(ip: IP)
    requires IsIP(ip) && To4(ip).Some?
    ensures IsLocalOrPrivate(ip) <==> InLocalBlock(To4(ip).value)
  {
    hide AtMost, Between, InCgnatRange, To4;
    var v4 := To4(ip).value;
    assert |v4| == 4 by { To4Length(ip); }
    CgnatInterval(ip);
    MaskTest(v4[0]);
    MaskTest(v4[1]);
    FourBetween([0, 0, 0, 0], v4, [0, 0, 0, 0]);
    FourBetween([10, 0, 0, 0], v4, [10, 255, 255, 255]);
    FourBetween([127, 0, 0, 0], v4, [127, 255, 255, 255]);
    FourBetween([169, 254, 0, 0], v4, [169, 254, 255, 255]);
    FourBetween([172, 16, 0, 0], v4, [172, 31, 255, 255]);
    FourBetween([192, 168, 0, 0], v4, [192, 168, 255, 255]);
    FourBetween([224, 0, 0, 0], v4, [239, 255, 255, 255]);
  }

  lemma To4Length(ip: IP)
    requires To4(ip).Some?
    ensures |To4(ip).value| == 4
  {
  }

  /** Exactly these IPv6 addresses are: unspecified, loopback, fc00::/7, fe80::/10 and multicast. */
  lemma LocalBlocks6Exact(ip: IP)
    requires IsIP(ip) && To4(ip).None?
    ensures IsLocalOrPrivate(ip) <==>
            ip == ZEROS + [0, 0, 0, 0] || ip == ZEROS + [0, 0, 0, 1] ||
            0xfc <= ip[0] <= 0xfd || (ip[0] == 0xfe && 0x80 <= ip[1] <= 0xbf) || ip[0] == 0xff
  {
  }

  /**
   * An address is IPv4 in its own four octets or after ten zero octets and two of 0xff, and loopback in 127.0.0.0/8.
   */
  lemma LoopbackExact(ip: IP)
    requires IsIP(ip)
    ensures forall v4: IP | |v4| == 4 ::
              To4(ip) == Some(v4) <==> ip == v4 || ip == [0, 0, 0, 0, 0, 0, 0, 0, 0, 0, 0xff, 0xff] + v4
    ensures To4(ip).Some? ==> |To4(ip).value| == 4
    ensures IsLoopback(ip) <==>
            if To4(ip).Some? then Between([127, 0, 0, 0], To4(ip).value, [127, 255, 255, 255])
            else ip == [0, 0, 0, 0, 0, 0, 0, 0, 0, 0, 0, 0, 0, 0, 0, 1]
  {
    if To4(ip).Some? {
      FourBetween([127, 0, 0, 0], To4(ip).value, [127, 255, 255, 255]);
    }
    if |ip| == 16 {
      assert ip[..12] + ip[12..] == ip;
      MappedPrefix(ip);
    }
    assert ZEROS + [0, 0, 0, 1] == [0, 0, 0, 0, 0, 0, 0, 0, 0, 0, 0, 0, 0, 0, 0, 1];
  }

  lemma MappedPrefix(ip: IP)
    requires |ip| == 16
    ensures ip[..10] == ZEROS[..10] && ip[10] == 0xff && ip[11] == 0xff <==>
            ip[..12] == [0, 0, 0, 0, 0, 0, 0, 0, 0, 0, 0xff, 0xff]
  {
    if ip[..12] == [0, 0, 0, 0, 0, 0, 0, 0, 0, 0, 0xff, 0xff] {
      assert forall i | 0 <= i < 12 :: ip[i] == ip[..12][i];
    }
    if ip[..10] == ZEROS[..10] {
      assert forall i | 0 <= i < 10 :: ip[i] == ip[..10][i] == ZEROS[..10][i];
    }
  }

  // ----- The decision -----

  predicate Digit(c: char) {
    '0' <= c <= '9'
  }

  function Number(s: string): nat
    requires forall c | c in s :: Digit(c)
  {
    if s == "" then 0
    else
      var c := s[|s| - 1];
      assert c in s && Digit(c);
      10 * Number(s[..|s| - 1]) + (c as int - '0' as int)
  }

  function Digits(s: string): string {
    if s != "" && (s[0] == '+' || s[0] == '-') then s[1..] else s
  }

  /** strconv.Atoi: an optional sign and at least one digit. */
  function Atoi(s: string): Option<int> {
    var ds := Digits(s);
    if ds == "" || exists c | c in ds :: !Digit(c) then None
    else
      var n: int := Number(ds);
      Some(if s[0] == '-' then -n else n)
  }

  /** The port a destination names, if it is one. */
  function Port(s: string): Option<int> {
    var n :- Atoi(s);
    if 1 <= n <= 65535 then Some(n) else None
  }

  // The number n written in decimal, nothing for zero.
  function Decimal(n: nat): (s: string)
    ensures forall c | c in s :: Digit(c)
    ensures n > 0 ==> s != ""
  {
    if n == 0 then "" else Decimal(n / 10) + [('0' as int + n % 10) as char]
  }

  lemma NumberStep(s: string, c: char)
    requires (forall d | d in s :: Digit(d)) && Digit(c)
    ensures forall d | d in s + [c] :: Digit(d)
    ensures Number(s + [c]) == 10 * Number(s) + (c as int - '0' as int)
  {
    assert (s + [c])[..|s + [c]| - 1] == s;
  }

  /** Digits are the decimal form of the number they give, after some zeros. */
  lemma {:induction false} NumberExact(s: string)
    requires forall c | c in s :: Digit(c)
    ensures var d := Decimal(Number(s));
            |d| <= |s| && s[|s| - |d|..] == d && forall i | 0 <= i < |s| - |d| :: s[i] == '0'
    decreases |s|
  {
    if s != "" {
      var t, c := s[..|s| - 1], s[|s| - 1];
      assert c in s;
      NumberExact(t);
      assert s == t + [c];
      var n, digit := Number(t), c as int - '0' as int;
      NumberStep(t, c);
      LastDigit(n, digit);
      if Number(s) > 0 {
        assert Decimal(Number(s)) == Decimal(n) + [c];
      }
    }
  }

  lemma LastDigit(n: nat, digit: int)
    requires 0 <= digit < 10
    ensures (10 * n + digit) / 10 == n && (10 * n + digit) % 10 == digit
  {
  }

  /** Zeros in front of a decimal form do not change its value. */
  lemma {:induction false} NumberOf(zeros: string, n: nat)
    requires forall c | c in zeros :: c == '0'
    ensures forall c | c in zeros + Decimal(n) :: Digit(c)
    ensures Number(zeros + Decimal(n)) == n
    decreases |zeros|, n
  {
    if n > 0 {
      NumberOf(zeros, n / 10);
      var c := ('0' as int + n % 10) as char;
      assert zeros + Decimal(n) == zeros + Decimal(n / 10) + [c];
      NumberStep(zeros + Decimal(n / 10), c);
    } else if zeros != "" {
      var init := zeros[..|zeros| - 1];
      assert zeros[|zeros| - 1] in zeros && forall c | c in init :: c in zeros;
      NumberOf(init, 0);
      assert zeros == init + ['0'] && zeros + Decimal(0) == zeros && init + Decimal(0) == init;
      NumberStep(init, '0');
    } else {
      assert zeros + Decimal(0) == "";
    }
  }

  predicate Spells(s: string, sign: string, zeros: string, n: nat) {
    (sign == "" || sign == "+") && (forall c | c in zeros :: c == '0') && s == sign + zeros + Decimal(n)
  }

  lemma SpelledPort(s: string, sign: string, zeros: string, n: nat)
    requires Spells(s, sign, zeros, n) && 1 <= n <= 65535
    ensures Port(s) == Some(n)
  {
    hide Number, Decimal;
    NumberOf(zeros, n);
    SignedDigits(sign, zeros + Decimal(n));
    assert s == sign + (zeros + Decimal(n));
  }

  lemma PortSpelled(s: string) returns (sign: string, zeros: string)
    requires Port(s).Some?
    ensures Port(s).value > 0 && Spells(s, sign, zeros, Port(s).value)
  {
    hide Number, Decimal;
    var ds := Digits(s);
    sign := if s[0] == '+' then "+" else "";
    assert s == sign + ds;
    NumberExact(ds);
    zeros := ds[..|ds| - |Decimal(Port(s).value)|];
    assert ds == zeros + Decimal(Port(s).value);
    assert s == sign + zeros + Decimal(Port(s).value);
  }

  /** A port is one to 65535 in decimal, perhaps after zeros and perhaps after a plus sign; nothing else is one. */
  lemma PortIff(s: string, n: int)
    ensures Port(s) == Some(n) <==> 1 <= n <= 65535 && exists sign, zeros :: Spells(s, sign, zeros, n)
  {
    hide Spells, Atoi;
    if Port(s) == Some(n) {
      var sign, zeros := PortSpelled(s);
    }
    if 1 <= n <= 65535 {
      if sign, zeros :| Spells(s, sign, zeros, n) {
        SpelledPort(s, sign, zeros, n);
      }
    }
  }

  lemma SignedDigits(sign: string, ds: string)
    requires (sign == "" || sign == "+") && ds != "" && forall c | c in ds :: Digit(c)
    ensures Digits(sign + ds) == ds && (sign + ds)[0] != '-'
  {
    assert ds[0] in ds;
    if sign == "" {
      assert sign + ds == ds;
    } else {
      assert (sign + ds)[1..] == ds;
    }
  }

  datatype Decision =
    | Dial(ip: IP, port: string)
    | InvalidPort
    | CannotResolve
    | NoAddresses
    | LocalBlocked
    | PortBlocked

  method PortAllowed(allowPorts: seq<int>, port: int) returns (allowed: bool)
    ensures allowed <==> port in allowPorts
  {
    for i := 0 to |allowPorts|
      invariant port !in allowPorts[..i]
    {
      if allowPorts[i] == port {
        return true;
      }
    }
    return false;
  }

  /** Every resolved address that is not loopback is a public one. */
  predicate NothingBlocked(ips: seq<IP>)
    requires forall ip | ip in ips :: IsIP(ip)
  {
    forall ip | ip in ips :: IsLoopback(ip) || !IsLocalOrPrivate(ip)
  }

  predicate AnyLoopback(ips: seq<IP>)
    requires forall ip | ip in ips :: IsIP(ip)
  {
    exists ip | ip in ips :: IsLoopback(ip)
  }

  predicate Loopback4(ip: IP)
    requires IsIP(ip)
  {
    IsLoopback(ip) && To4(ip).Some?
  }

  /** ips[k] is the first IPv4 loopback address or, when there is none, the first loopback address. */
  predicate PreferredLoopback(ips: seq<IP>, k: nat)
    requires (forall ip | ip in ips :: IsIP(ip)) && k < |ips|
  {
    IsLoopback(ips[k]) &&
    if Loopback4(ips[k]) then forall j | 0 <= j < k :: !Loopback4(ips[j])
    else (forall j | 0 <= j < |ips| :: !Loopback4(ips[j])) && forall j | 0 <= j < k :: !IsLoopback(ips[j])
  }

  /** A destination is dialled exactly when its port is valid, it resolves, and its addresses may be reached. */
  predicate Accepts(allowPorts: seq<int>, portStr: string, lookup: Option<seq<IP>>)
    requires lookup.Some? ==> forall ip | ip in lookup.value :: IsIP(ip)
  {
    Port(portStr).Some? && lookup.Some? && lookup.value != [] && NothingBlocked(lookup.value) &&
    (AnyLoopback(lookup.value) ==> Port(portStr).value in allowPorts)
  }

  // One more address: a first IPv4 loopback displaces a loopback that is not IPv4.
  lemma PreferNext(ips: seq<IP>, i: nat, at: nat)
    requires (forall ip | ip in ips :: IsIP(ip)) && at < i < |ips| && PreferredLoopback(ips[..i], at)
    ensures PreferredLoopback(ips[..i + 1], if Loopback4(ips[i]) && To4(ips[at]).None? then i else at)
  {
    hide IsLoopback, To4;
    assert forall j | 0 <= j < i :: ips[..i][j] == ips[j] && ips[..i + 1][j] == ips[j];
    assert ips[..i + 1][i] == ips[i];
  }

  lemma PreferFirst(ips: seq<IP>, i: nat)
    requires (forall ip | ip in ips :: IsIP(ip)) && i < |ips| && IsLoopback(ips[i])
    requires forall j | 0 <= j < i :: !IsLoopback(ips[j])
    ensures PreferredLoopback(ips[..i + 1], i)
  {
    hide IsLoopback, To4;
    assert forall j | 0 <= j <= i :: ips[..i + 1][j] == ips[j];
  }

  // lookup is what resolving the host name gave.
  method ResolveAndCheck(allowPorts: seq<int>, portStr: string, lookup: Option<seq<IP>>) returns (r: Decision)
    requires lookup.Some? ==> forall ip | ip in lookup.value :: IsIP(ip)
    ensures r.Dial? <==> Accepts(allowPorts, portStr, lookup)
    ensures r.InvalidPort? <==> Port(portStr).None?
    ensures r.Dial? ==> r.port == portStr
    ensures r.Dial? && !AnyLoopback(lookup.value) ==> r.ip == lookup.value[0]
    ensures r.Dial? && AnyLoopback(lookup.value) ==>
              exists k | 0 <= k < |lookup.value| :: r.ip == lookup.value[k] && PreferredLoopback(lookup.value, k)
    ensures r.CannotResolve? <==> Port(portStr).Some? && lookup.None?
    ensures r.NoAddresses? <==> Port(portStr).Some? && lookup == Some([])
    ensures r.LocalBlocked? <==>
              Port(portStr).Some? && lookup.Some? && lookup.value != [] && !NothingBlocked(lookup.value)
    ensures r.PortBlocked? <==>
              Port(portStr).Some? && lookup.Some? && lookup.value != [] && NothingBlocked(lookup.value) &&
              AnyLoopback(lookup.value) && Port(portStr).value !in allowPorts
  {
    hide IsLocalOrPrivate, IsLoopback, To4, Port, PreferredLoopback;
    var port := Port(portStr);
    if port.None? {
      return InvalidPort;
    }
    if lookup.None? {
      return CannotResolve;
    }
    var ips := lookup.value;
    if |ips| == 0 {
      return NoAddresses;
    }
    var hasLoopback, blockedNonLoopback := false, false;
    var loopbackIP: Option<IP> := None;
    ghost var at := 0;
    for i := 0 to |ips|
      invariant !blockedNonLoopback
      invariant forall j | 0 <= j < i :: IsLoopback(ips[j]) || !IsLocalOrPrivate(ips[j])
      invariant hasLoopback <==> exists j | 0 <= j < i :: IsLoopback(ips[j])
      invariant hasLoopback <==> loopbackIP.Some?
      invariant hasLoopback ==> at < i && loopbackIP.value == ips[at] && PreferredLoopback(ips[..i], at)
    {
      var ip := ips[i];
      assert ip in ips;
      if hasLoopback {
        PreferNext(ips, i, at);
      } else if IsLoopback(ip) {
        PreferFirst(ips, i);
      }
      if IsLoopback(ip) {
        hasLoopback := true;
        if loopbackIP.None? || (To4(loopbackIP.value).None? && To4(ip).Some?) {
          loopbackIP := Some(ip);
          at := i;
        }
        continue;
      }
      if IsLocalOrPrivate(ip) {
        blockedNonLoopback := true;
        break;
      }
    }
    if blockedNonLoopback {
      return LocalBlocked;
    }
    assert ips[..|ips|] == ips;
    if hasLoopback {
      var allowed := PortAllowed(allowPorts, port.value);
      if !allowed {
        return PortBlocked;
      }
      return Dial(loopbackIP.value, portStr);
    }
    return Dial(ips[0], portStr);
  }

  /** Whether a destination is accepted does not depend on the order or repetition of its addresses. */
  lemma AcceptsInAnyOrder(allowPorts: seq<int>, portStr: string, a: seq<IP>, b: seq<IP>)
    requires (forall ip | ip in a :: IsIP(ip)) && forall ip :: ip in a <==> ip in b
    ensures Accepts(allowPorts, portStr, Some(a)) <==> Accepts(allowPorts, portStr, Some(b))
  {
    hide IsLocalOrPrivate, IsLoopback, Port;
    if a != [] {
      assert a[0] in b;
    }
    if b != [] {
      assert b[0] in a;
    }
  }
}
