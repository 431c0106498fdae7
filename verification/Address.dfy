/** Addresses, address ranges, and the unit a rate limit applies to. */
module Address {


  type Octet = bv8

  /** An IPv4 address has 4 octets and an IPv6 address 16, most significant first. */
  datatype IpAddr = V4(octets: seq<Octet>) | V6(octets: seq<Octet>)
  {
    predicate Valid() {
      |octets| == if V4? then 4 else 16
    }
  }

  predicate IsMapped(octets: seq<Octet>)
    requires |octets| == 16
  {
    (forall i :: 0 <= i < 10 ==> octets[i] == 0) && octets[10] == 0xFF && octets[11] == 0xFF
  }

  /** RFC 4291 section 2.5.5.2: a mapped address is the IPv4 address it carries. */
  function Normalize(a: IpAddr): (n: IpAddr)
    requires a.Valid()
    ensures n.Valid()
  {
    if a.V6? && IsMapped(a.octets) then V4(a.octets[12..]) else a
  }

  /** The leading `prefix` bits of the two lists are the same. */
  predicate MatchesPrefix(network: seq<Octet>, candidate: seq<Octet>, prefix: Octet)
    requires |network| == |candidate| && prefix as nat <= 8 * |network|
  {
    OctetParts(prefix);
    var whole, remainder := (prefix / 8) as nat, prefix % 8;
    && network[..whole] == candidate[..whole]
    && (remainder == 0 || network[whole] & (0xFF << (8 - remainder)) == candidate[whole] & (0xFF << (8 - remainder)))
  }

  lemma OctetParts(prefix: Octet)
    ensures prefix as nat == 8 * ((prefix / 8) as nat) + (prefix % 8) as nat
    ensures prefix % 8 < 8 && (prefix % 8 == 0 <==> (prefix % 8) as nat == 0)
  {
  }

  datatype Cidr = Cidr(network: IpAddr, prefix: Octet)
  {
    /** What parsing a range establishes. */
    predicate Valid() {
      network.Valid() && prefix as nat <= 8 * |network.octets|
    }

    predicate Contains(candidate: IpAddr)
      requires Valid() && candidate.Valid()
    {
      var c := Normalize(candidate);
      network.V4? == c.V4? && MatchesPrefix(network.octets, c.octets, prefix)
    }
  }

  // ---------------------------------------------------------------------------
  // Prefix matching is division
  // ---------------------------------------------------------------------------

  function Pow2(n: nat): (p: nat)
    ensures p > 0
  {
    if n == 0 then 1 else 2 * Pow2(n - 1)
  }

  /** The octets read as one big-endian number. */
  function BigEndian(octets: seq<Octet>): nat {
    if octets == [] then 0
    else BigEndian(octets[..|octets| - 1]) * 256 + octets[|octets| - 1] as nat
  }

  /** `a` without its `k` low bits. */
  function Halve(a: nat, k: nat): nat {
    if k == 0 then a else Halve(a, k - 1) / 2
  }

  lemma {:induction false} HalveAdds(a: nat, m: nat, n: nat)
    ensures Halve(a, m + n) == Halve(Halve(a, m), n)
  {
    if n > 0 {
      HalveAdds(a, m, n - 1);
    }
  }

  lemma HalfOfQuotient(a: nat, d: nat)
    requires d > 0
    ensures a / (2 * d) == a / d / 2
  {
    var x := a / d;
    var r := a - x * d;
    var y := x / 2;
    var z := x - 2 * y;
    assert x * d == y * (2 * d) + z * d;
    assert 0 <= z * d + r < 2 * d;
    QuotientIs(a, 2 * d, y, z * d + r);
  }

  lemma MulMono(x: nat, y: nat, d: nat)
    ensures x <= y ==> x * d <= y * d
  {
  }

  lemma QuotientIs(a: nat, d: nat, q: nat, r: nat)
    requires r < d && a == q * d + r
    ensures a / d == q
  {
    var t := a / d;
    MulMono(t + 1, q, d);
    MulMono(q + 1, t, d);
  }

  lemma {:induction false} HalvingIsDivision(a: nat, k: nat)
    ensures Halve(a, k) == a / Pow2(k)
  {
    if k > 0 {
      HalvingIsDivision(a, k - 1);
      HalfOfQuotient(a, Pow2(k - 1));
    }
  }

  /** Halving leaves a higher part alone. */
  lemma {:induction false} HalveSplits(h: nat, x: nat, m: nat, k: nat)
    requires k <= m
    ensures Halve(h * Pow2(m) + x, k) == h * Pow2(m - k) + Halve(x, k)
  {
    if k > 0 {
      HalveSplits(h, x, m, k - 1);
      HalfOfSum(h, Pow2(m - k), Halve(x, k - 1));
    }
  }

  lemma HalfOfSum(h: nat, p: nat, x: nat)
    ensures (h * (2 * p) + x) / 2 == h * p + x / 2
  {
    assert h * (2 * p) == 2 * (h * p);
  }

  lemma {:induction false} HalveShrinks(x: nat, m: nat, k: nat)
    requires k <= m && x < Pow2(m)
    ensures Halve(x, k) < Pow2(m - k)
  {
    if k > 0 {
      HalveShrinks(x, m, k - 1);
    }
  }

  lemma ShiftByOne(a: Octet)
    ensures (a >> 1) as nat == (a as nat) / 2
  {
  }

  lemma ShiftOnceMore(a: Octet, k: Octet)
    requires k < 7
    ensures (a >> k) >> 1 == a >> (k + 1)
  {
  }

  lemma MaskIsShift(a: Octet, b: Octet, k: Octet)
    requires k < 8
    ensures a & (0xFF << k) == b & (0xFF << k) <==> a >> k == b >> k
  {
  }

  lemma SameNumber(a: Octet, b: Octet)
    ensures a as nat == b as nat <==> a == b
  {
  }

  lemma OneLess(k: Octet)
    requires 0 < k
    ensures (k - 1) as nat == k as nat - 1
  {
  }

  lemma {:induction false} ShiftIsHalving(a: Octet, k: Octet)
    requires k < 8
    ensures (a >> k) as nat == Halve(a as nat, k as nat)
    decreases k as nat
  {
    if k == 0 {
      assert a >> 0 == a;
    } else {
      OneLess(k);
      ShiftIsHalving(a, k - 1);
      ShiftByOne(a >> (k - 1));
      ShiftOnceMore(a, k - 1);
    }
  }

  lemma SameShift(a: Octet, b: Octet, k: Octet)
    requires k < 8
    ensures a & (0xFF << k) == b & (0xFF << k) <==> (a >> k) as nat == (b >> k) as nat
  {
    MaskIsShift(a, b, k);
    SameNumber(a >> k, b >> k);
  }

  /** Masking an octet keeps what halving away the dropped bits keeps. */
  lemma MaskIsHalving(a: Octet, b: Octet, k: Octet)
    requires k < 8
    ensures a & (0xFF << k) == b & (0xFF << k) <==> Halve(a as nat, k as nat) == Halve(b as nat, k as nat)
  {
    SameShift(a, b, k);
    ShiftIsHalving(a, k);
    ShiftIsHalving(b, k);
  }

  lemma {:induction false} BigEndianIsInjective(a: seq<Octet>, b: seq<Octet>)
    requires |a| == |b|
    ensures BigEndian(a) == BigEndian(b) <==> a == b
  {
    if a != [] {
      var n := |a| - 1;
      BigEndianIsInjective(a[..n], b[..n]);
      SameNumber(a[n], b[n]);
      assert a == a[..n] + [a[n]] && b == b[..n] + [b[n]];
      assert (a[n] as nat) < 256 && (b[n] as nat) < 256;
    }
  }

  lemma EightHalvingsDropAnOctet(h: nat, o: nat)
    requires o < 256
    ensures Halve(h * 256 + o, 8) == h
  {
    HalveSplits(h, o, 8, 8);
    HalveShrinks(o, 8, 8);
    assert Pow2(8) == 256;
    assert Pow2(0) == 1;
  }

  /** Halving eight times an octet drops the last octets. */
  lemma {:induction false} DropOctets(a: seq<Octet>, keep: nat)
    requires keep <= |a|
    ensures Halve(BigEndian(a), 8 * (|a| - keep)) == BigEndian(a[..keep])
    decreases |a|
  {
    if keep == |a| {
      assert a[..keep] == a;
    } else {
      var n := |a| - 1;
      DropOctets(a[..n], keep);
      assert a[..n][..keep] == a[..keep];
      HalveAdds(BigEndian(a), 8, 8 * (n - keep));
      assert 8 + 8 * (n - keep) == 8 * (|a| - keep);
      EightHalvingsDropAnOctet(BigEndian(a[..n]), a[n] as nat);
    }
  }

  lemma OneOctetMore(a: seq<Octet>, whole: nat)
    requires whole < |a|
    ensures BigEndian(a[..whole + 1]) == BigEndian(a[..whole]) * 256 + a[whole] as nat
  {
    assert a[..whole + 1][..whole] == a[..whole];
  }

  lemma SplitOctet(h: nat, o: nat, r: nat)
    requires 0 < r < 8
    ensures Halve(h * 256 + o, 8 - r) == h * Pow2(r) + Halve(o, 8 - r)
  {
    HalveSplits(h, o, 8, 8 - r);
    assert Pow2(8) == 256;
  }

  lemma HalveIntoOctet(number: nat, rest: nat, h: nat, o: nat, r: nat)
    requires 0 < r < 8 && Halve(number, rest) == h * 256 + o
    ensures Halve(number, rest + (8 - r)) == h * Pow2(r) + Halve(o, 8 - r)
  {
    HalveAdds(number, rest, 8 - r);
    SplitOctet(h, o, r);
  }

  /** What a list of octets keeps when its prefix ends inside the octet at `whole`. */
  lemma PartialNumber(a: seq<Octet>, whole: nat, r: nat, rest: nat)
    requires whole < |a| && 0 < r < 8 && rest == 8 * (|a| - (whole + 1))
    ensures Halve(BigEndian(a), rest + (8 - r)) == BigEndian(a[..whole]) * Pow2(r) + Halve(a[whole] as nat, 8 - r)
  {
    DropOctets(a, whole + 1);
    OneOctetMore(a, whole);
    HalveIntoOctet(BigEndian(a), rest, BigEndian(a[..whole]), a[whole] as nat, r);
  }

  lemma RadixIsUnique(h: nat, x: nat, k: nat, y: nat, p: nat)
    requires x < p && y < p
    ensures h * p + x == k * p + y <==> h == k && x == y
  {
    MulMono(h + 1, k, p);
    MulMono(k + 1, h, p);
  }

  lemma MaskIsTop(a: Octet, b: Octet, r: Octet, n: nat)
    requires 0 < r < 8 && n == r as nat
    ensures a & (0xFF << (8 - r)) == b & (0xFF << (8 - r)) <==> Halve(a as nat, 8 - n) == Halve(b as nat, 8 - n)
  {
    MaskIsHalving(a, b, 8 - r);
    Complement(r);
  }

  lemma OctetsInRadix(h: nat, a: Octet, k: nat, b: Octet, n: nat)
    requires 0 < n < 8
    ensures h == k && Halve(a as nat, 8 - n) == Halve(b as nat, 8 - n) <==>
            h * Pow2(n) + Halve(a as nat, 8 - n) == k * Pow2(n) + Halve(b as nat, 8 - n)
  {
    OctetHalves(a, n);
    OctetHalves(b, n);
    RadixIsUnique(h, Halve(a as nat, 8 - n), k, Halve(b as nat, 8 - n), Pow2(n));
  }

  lemma Complement(r: Octet)
    requires r < 8
    ensures (8 - r) as nat == 8 - r as nat
  {
  }

  lemma OctetHalves(a: Octet, r: nat)
    requires 0 < r < 8
    ensures Halve(a as nat, 8 - r) < Pow2(r)
  {
    assert Pow2(8) == 256;
    HalveShrinks(a as nat, 8, 8 - r);
  }

  lemma PartialMatchIsHalving(network: seq<Octet>, candidate: seq<Octet>, whole: nat, r: Octet, n: nat, rest: nat)
    requires |network| == |candidate| && whole < |network| && 0 < r < 8 && n == r as nat && 0 < n < 8
    requires rest == 8 * (|network| - (whole + 1))
    ensures network[..whole] == candidate[..whole]
            && network[whole] & (0xFF << (8 - r)) == candidate[whole] & (0xFF << (8 - r)) <==>
            Halve(BigEndian(network), rest + (8 - n)) == Halve(BigEndian(candidate), rest + (8 - n))
  {
    BigEndianIsInjective(network[..whole], candidate[..whole]);
    MaskIsTop(network[whole], candidate[whole], r, n);
    PartialNumbers(network, candidate, whole, n, rest);
  }

  lemma PartialNumbers(network: seq<Octet>, candidate: seq<Octet>, whole: nat, n: nat, rest: nat)
    requires |network| == |candidate| && whole < |network| && 0 < n < 8 && rest == 8 * (|network| - (whole + 1))
    ensures Halve(BigEndian(network), rest + (8 - n)) == Halve(BigEndian(candidate), rest + (8 - n)) <==>
            BigEndian(network[..whole]) == BigEndian(candidate[..whole])
            && Halve(network[whole] as nat, 8 - n) == Halve(candidate[whole] as nat, 8 - n)
  {
    PartialNumber(network, whole, n, rest);
    PartialNumber(candidate, whole, n, rest);
    OctetsInRadix(BigEndian(network[..whole]), network[whole], BigEndian(candidate[..whole]), candidate[whole], n);
  }

  lemma WholeMatchIsHalving(network: seq<Octet>, candidate: seq<Octet>, whole: nat)
    requires |network| == |candidate| && whole <= |network|
    ensures network[..whole] == candidate[..whole] <==>
            Halve(BigEndian(network), 8 * |network| - 8 * whole) ==
            Halve(BigEndian(candidate), 8 * |network| - 8 * whole)
  {
    DropOctets(network, whole);
    DropOctets(candidate, whole);
    BigEndianIsInjective(network[..whole], candidate[..whole]);
  }

  lemma PrefixMatchIsHalving(network: seq<Octet>, candidate: seq<Octet>, prefix: Octet)
    requires |network| == |candidate| && prefix as nat <= 8 * |network|
    ensures MatchesPrefix(network, candidate, prefix) <==>
            Halve(BigEndian(network), 8 * |network| - prefix as nat) ==
            Halve(BigEndian(candidate), 8 * |network| - prefix as nat)
  {
    var whole, r := (prefix / 8) as nat, prefix % 8;
    OctetParts(prefix);
    if r == 0 {
      WholeMatchIsHalving(network, candidate, whole);
    } else {
      PartialMatchIsHalving(network, candidate, whole, r, r as nat, 8 * (|network| - (whole + 1)));
    }
  }

  /** RFC 4632 section 3.1: the prefix test compares the big-endian numbers without their low bits. */
  lemma PrefixMatchIsDivision(network: seq<Octet>, candidate: seq<Octet>, prefix: Octet)
    requires |network| == |candidate| && prefix as nat <= 8 * |network|
    ensures var d := Pow2(8 * |network| - prefix as nat);
            MatchesPrefix(network, candidate, prefix) <==> BigEndian(network) / d == BigEndian(candidate) / d
  {
    PrefixMatchIsHalving(network, candidate, prefix);
    HalvingIsDivision(BigEndian(network), 8 * |network| - prefix as nat);
    HalvingIsDivision(BigEndian(candidate), 8 * |network| - prefix as nat);
  }

  lemma HalvingForgets(a: nat, b: nat, m: nat, n: nat)
    requires m <= n && Halve(a, m) == Halve(b, m)
    ensures Halve(a, n) == Halve(b, n)
  {
    HalveAdds(a, m, n - m);
    HalveAdds(b, m, n - m);
  }

  /** A longer prefix matches less. */
  lemma LongerPrefixIsNarrower(network: seq<Octet>, candidate: seq<Octet>, shorter: Octet, longer: Octet)
    requires |network| == |candidate| && shorter as nat <= longer as nat <= 8 * |network|
    requires MatchesPrefix(network, candidate, longer)
    ensures MatchesPrefix(network, candidate, shorter)
  {
    PrefixMatchIsHalving(network, candidate, longer);
    PrefixMatchIsHalving(network, candidate, shorter);
    HalvingForgets(BigEndian(network), BigEndian(candidate),
                   8 * |network| - longer as nat, 8 * |network| - shorter as nat);
  }

  /** Lengthening a range's prefix only takes addresses away from it. */
  lemma ContainmentIsAntitone(network: IpAddr, shorter: Octet, longer: Octet, candidate: IpAddr)
    requires network.Valid() && candidate.Valid() && shorter as nat <= longer as nat <= 8 * |network.octets|
    requires Cidr(network, longer).Contains(candidate)
    ensures Cidr(network, shorter).Contains(candidate)
  {
    LongerPrefixIsNarrower(network.octets, Normalize(candidate).octets, shorter, longer);
  }

  /** An IPv6 address that carries an IPv4 address: ten zero octets, two of ones, and the four it carries. */
  predicate CarriesV4(a: IpAddr, carried: seq<Octet>) {
    a.V6? && a.octets == [0, 0, 0, 0, 0, 0, 0, 0, 0, 0, 0xFF, 0xFF] + carried
  }

  /** The number is the network's once its low bits are divided away. */
  ghost predicate InNetwork(network: seq<Octet>, octets: seq<Octet>, bits: int) {
    bits >= 0 && BigEndian(octets) / Pow2(bits) == BigEndian(network) / Pow2(bits)
  }

  lemma MappedIff(a: IpAddr)
    requires a.Valid() && a.V6?
    ensures IsMapped(a.octets) <==> CarriesV4(a, a.octets[12..])
    ensures forall c: seq<Octet> :: |c| == 4 && CarriesV4(a, c) ==> c == a.octets[12..]
  {
    var head: seq<Octet> := [0, 0, 0, 0, 0, 0, 0, 0, 0, 0, 0xFF, 0xFF];
    if IsMapped(a.octets) {
      assert a.octets[..12] == head;
      assert a.octets == a.octets[..12] + a.octets[12..];
    }
    if CarriesV4(a, a.octets[12..]) {
      assert forall i :: 0 <= i < 12 ==> a.octets[i] == head[i];
    }
    forall c: seq<Octet> | |c| == 4 && CarriesV4(a, c) ensures c == a.octets[12..] {
    }
  }

  /**
   * The addresses of a range. An IPv4 range has those of its network, mapped or not; an IPv6 range has those of its
   * network that carry no IPv4 address.
   */
  ghost predicate Holds(range: Cidr, a: IpAddr)
    requires range.Valid() && a.Valid()
  {
    match range.network
    case V4(network) =>
      var bits := 32 - range.prefix as int;
      || (a.V4? && InNetwork(network, a.octets, bits))
      || (a.V6? && CarriesV4(a, a.octets[12..]) && InNetwork(network, a.octets[12..], bits))
    case V6(network) =>
      a.V6? && !CarriesV4(a, a.octets[12..]) && InNetwork(network, a.octets, 128 - range.prefix as int)
  }

  lemma PlainHoldsIff(range: Cidr, n: IpAddr)
    requires range.Valid() && n.Valid() && n.V4? == range.network.V4?
    ensures MatchesPrefix(range.network.octets, n.octets, range.prefix) <==>
            InNetwork(range.network.octets, n.octets, 8 * |n.octets| - range.prefix as int)
  {
    PrefixMatchIsDivision(range.network.octets, n.octets, range.prefix);
  }

  lemma RangeHoldsIff(range: Cidr, a: IpAddr)
    requires range.Valid() && a.Valid()
    ensures range.Contains(a) <==> Holds(range, a)
  {
    if a.V6? {
      MappedIff(a);
    }
    if Normalize(a).V4? == range.network.V4? {
      PlainHoldsIff(range, Normalize(a));
    }
  }

  // ---------------------------------------------------------------------------
  // The unit a rate limit applies to
  // ---------------------------------------------------------------------------

  datatype ClientBucket = ClientBucket(address: IpAddr)

  const IPV6_CLIENT_PREFIX_BITS: Octet := 64

  /** IPv4 by address, IPv6 by `/64`, with mapped addresses taken as IPv4. */
  function BucketOf(a: IpAddr): (b: ClientBucket)
    requires a.Valid()
    ensures b.address.Valid()
  {
    match a
    case V4(_) => ClientBucket(a)
    case V6(octets) =>
      if IsMapped(octets) then ClientBucket(V4(octets[12..]))
      else ClientBucket(V6(octets[..8] + seq(8, i => 0)))
  }

  /** Two addresses share a bucket exactly when they are one IPv4 address or agree on an IPv6 `/64`. */
  lemma SharedBucketIff(a: IpAddr, b: IpAddr)
    requires a.Valid() && b.Valid()
    ensures BucketOf(a) == BucketOf(b) <==>
            var x, y := Normalize(a), Normalize(b);
            if x.V4? || y.V4? then x == y else MatchesPrefix(x.octets, y.octets, IPV6_CLIENT_PREFIX_BITS)
  {
    var x, y := Normalize(a), Normalize(b);
    if x.V6? && y.V6? {
      var p, q := BucketOf(a).address.octets, BucketOf(b).address.octets;
      assert p[..8] == x.octets[..8] && q[..8] == y.octets[..8];
      assert p[8..] == q[8..] && p == p[..8] + p[8..] && q == q[..8] + q[8..];
    }
  }

  /** Two clients are charged as one: one IPv4 address in either spelling, or IPv6 addresses of one `/64`. */
  lemma SharedBucketInOctets(a: IpAddr, b: IpAddr)
    requires a.Valid() && b.Valid()
    ensures a.V4? && b.V4? ==> (BucketOf(a) == BucketOf(b) <==> a.octets == b.octets)
    ensures a.V4? && b.V6? ==> (BucketOf(a) == BucketOf(b) <==> CarriesV4(b, a.octets))
    ensures a.V6? && b.V6? && CarriesV4(a, a.octets[12..]) ==> (BucketOf(a) == BucketOf(b) <==> a == b)
    ensures a.V6? && b.V6? && !CarriesV4(a, a.octets[12..]) && !CarriesV4(b, b.octets[12..]) ==>
              (BucketOf(a) == BucketOf(b) <==> a.octets[..8] == b.octets[..8])
  {
    SharedBucketIff(a, b);
    if a.V6? {
      MappedIff(a);
    }
    if b.V6? {
      MappedIff(b);
    }
    if a.V6? && b.V6? && !IsMapped(a.octets) && !IsMapped(b.octets) {
      assert a.octets[..8] == b.octets[..8] <==> MatchesPrefix(a.octets, b.octets, IPV6_CLIENT_PREFIX_BITS);
    }
  }

  lemma BucketIsIdempotent(a: IpAddr)
    requires a.Valid()
    ensures BucketOf(BucketOf(a).address) == BucketOf(a)
  {
    if a.V6? && !IsMapped(a.octets) {
      var octets := BucketOf(a).address.octets;
      assert octets[10] == 0;
      assert octets[..8] == a.octets[..8];
    }
  }
}
