/** Trusted-proxy address ranges. Addresses are unsigned words of 32 or 128 bits; the bit
    operations of the source are written out bit by bit. */
module Cidr {
  import opened Division

  const V4_WIDTH: nat := 32
  const V6_WIDTH: nat := 128

  datatype IpAddr = V4(bits: nat) | V6(bits: nat) {
    function Width(): nat { if V4? then V4_WIDTH else V6_WIDTH }
    predicate Valid() { bits < Pow2(Width()) }
  }

  datatype TrustedProxyCidr = TrustedProxyCidr(network: IpAddr, prefixLen: nat) {
    /** What parsing a range checks. */
    predicate Valid() {
      network.Valid() && prefixLen <= network.Width()
    }

    function HostBits(): nat
      requires Valid()
    {
      network.Width() - prefixLen
    }

    predicate Contains(ip: IpAddr)
      requires Valid()
    {
      match (network, ip)
      case (V4(network), V4(ip)) => BitAnd(ip, Ipv4Mask(prefixLen)) == BitAnd(network, Ipv4Mask(prefixLen))
      case (V6(network), V6(ip)) => BitAnd(ip, Ipv6Mask(prefixLen)) == BitAnd(network, Ipv6Mask(prefixLen))
      case _ => false
    }
  }

  function Pow2(n: nat): (r: nat)
    ensures r >= 1
  {
    if n == 0 then 1 else 2 * Pow2(n - 1)
  }

  /** Bitwise conjunction, lowest bit first. */
  function BitAnd(a: nat, b: nat): nat
    decreases a
  {
    if a == 0 then 0
    else 2 * BitAnd(a / 2, b / 2) + (if a % 2 == 1 && b % 2 == 1 then 1 else 0)
  }

  /** Shift to the left in a word of `width` bits: what leaves the word is lost. */
  function ShiftLeft(a: nat, n: nat, width: nat): nat {
    a * Pow2(n) % Pow2(width)
  }

  /** The mask of a prefix, in a word of `width` bits. */
  function Mask(prefixLen: nat, width: nat): nat
    requires prefixLen <= width
  {
    if prefixLen == 0 then 0 else ShiftLeft(Pow2(width) - 1, width - prefixLen, width)
  }

  function Ipv4Mask(prefixLen: nat): nat
    requires prefixLen <= V4_WIDTH
  {
    Mask(prefixLen, V4_WIDTH)
  }

  function Ipv6Mask(prefixLen: nat): nat
    requires prefixLen <= V6_WIDTH
  {
    Mask(prefixLen, V6_WIDTH)
  }

  lemma {:induction false} Pow2Adds(a: nat, b: nat)
    ensures Pow2(a + b) == Pow2(a) * Pow2(b)
  {
    if a > 0 {
      Pow2Adds(a - 1, b);
      assert Pow2(a + b) == 2 * Pow2(a - 1 + b);
    }
  }

  lemma {:induction false} Pow2Increases(a: nat, b: nat)
    requires a <= b
    ensures Pow2(a) <= Pow2(b)
    decreases b - a
  {
    if a < b {
      Pow2Increases(a, b - 1);
    }
  }

  /** All ones shifted left: ones above, `host` zeros below. */
  lemma OnesShifted(host: nat, width: nat)
    requires host <= width
    ensures Pow2(host) <= Pow2(width)
    ensures ShiftLeft(Pow2(width) - 1, host, width) == Pow2(width) - Pow2(host)
  {
    Pow2Increases(host, width);
    ShiftedRemainder(Pow2(width), Pow2(host));
  }

  lemma ShiftedRemainder(w: nat, h: nat)
    requires 1 <= h <= w
    ensures (w - 1) * h % w == w - h
  {
    assert (w - 1) * h == w * (h - 1) + (w - h);
    DivisionIs((w - 1) * h, w, h - 1, w - h);
  }

  lemma HalvedQuotient(a: nat, m: nat)
    requires m > 0
    ensures a / (2 * m) == a / 2 / m
  {
    var q, r := a / 2 / m, a / 2 % m;
    assert a / 2 == m * q + r;
    assert a == (2 * m) * q + (2 * r + a % 2);
    DivisionIs(a, 2 * m, q, 2 * r + a % 2);
  }

  /** A mask of ones alone keeps the whole word. */
  lemma {:induction false} OnesKeepWord(a: nat, width: nat)
    requires a < Pow2(width)
    ensures BitAnd(a, Pow2(width) - 1) == a
  {
    if a > 0 {
      var mask := Pow2(width) - 1;
      assert mask / 2 == Pow2(width - 1) - 1 && mask % 2 == 1;
      OnesKeepWord(a / 2, width - 1);
    }
  }

  /** A word without its lowest `n` bits. */
  function DropBits(a: nat, n: nat): nat {
    if n == 0 then a else DropBits(a / 2, n - 1)
  }

  /** And with `n` zeros put there again. */
  function AppendZeros(a: nat, n: nat): nat {
    if n == 0 then a else 2 * AppendZeros(a, n - 1)
  }

  lemma {:induction false} DropBitsDivides(a: nat, n: nat)
    ensures DropBits(a, n) == a / Pow2(n)
  {
    if n > 0 {
      DropBitsDivides(a / 2, n - 1);
      HalvedQuotient(a, Pow2(n - 1));
    }
  }

  lemma {:induction false} AppendZerosMultiplies(a: nat, n: nat)
    ensures AppendZeros(a, n) == a * Pow2(n)
  {
    if n > 0 {
      AppendZerosMultiplies(a, n - 1);
      DoubledMultiple(a, Pow2(n - 1));
    }
  }

  lemma {:induction false} ZerosKeepDifference(a: nat, b: nat, n: nat)
    ensures AppendZeros(a, n) == AppendZeros(b, n) <==> a == b
  {
    if n > 0 {
      ZerosKeepDifference(a, b, n - 1);
    }
  }

  /** Masking with ones above `host` zeros clears the lowest bits. */
  lemma {:induction false} MaskClearsBits(a: nat, host: nat, width: nat)
    requires host <= width && a < Pow2(width) && Pow2(host) <= Pow2(width)
    ensures BitAnd(a, Pow2(width) - Pow2(host)) == AppendZeros(DropBits(a, host), host)
    decreases host
  {
    if host == 0 {
      OnesKeepWord(a, width);
    } else {
      Pow2Increases(host - 1, width - 1);
      MaskClearsBits(a / 2, host - 1, width - 1);
      EvenMask(a, Pow2(width - 1) - Pow2(host - 1));
    }
  }

  /** It clears the host bits and nothing else. */
  lemma MaskClearsHostBits(a: nat, host: nat, width: nat)
    requires host <= width && a < Pow2(width) && Pow2(host) <= Pow2(width)
    ensures BitAnd(a, Pow2(width) - Pow2(host)) == a / Pow2(host) * Pow2(host)
  {
    MaskClearsBits(a, host, width);
    DropBitsDivides(a, host);
    AppendZerosMultiplies(DropBits(a, host), host);
  }

  /** A mask whose lowest bit is clear works on the rest of the word. */
  lemma EvenMask(a: nat, half: nat)
    ensures BitAnd(a, 2 * half) == 2 * BitAnd(a / 2, half)
  {
    assert 2 * half / 2 == half && 2 * half % 2 == 0;
    if a == 0 {
      assert BitAnd(0, half) == 0;
    }
  }

  lemma DoubledMultiple(q: nat, m: nat)
    ensures 2 * (q * m) == q * (2 * m)
  {
  }

  /** The mask of a prefix is ones above the host bits: the special case for length zero
      gives what the shift would. */
  lemma MaskIs(prefixLen: nat, width: nat)
    requires prefixLen <= width
    ensures Pow2(width - prefixLen) <= Pow2(width)
    ensures Mask(prefixLen, width) == Pow2(width) - Pow2(width - prefixLen)
  {
    OnesShifted(width - prefixLen, width);
  }

  /** Masking compares quotients. */
  lemma MaskedEqual(a: nat, b: nat, prefixLen: nat, width: nat)
    requires prefixLen <= width && a < Pow2(width) && b < Pow2(width)
    ensures BitAnd(a, Mask(prefixLen, width)) == BitAnd(b, Mask(prefixLen, width)) <==>
            a / Pow2(width - prefixLen) == b / Pow2(width - prefixLen)
  {
    var host := width - prefixLen;
    MaskIs(prefixLen, width);
    MaskClearsBits(a, host, width);
    MaskClearsBits(b, host, width);
    ZerosKeepDifference(DropBits(a, host), DropBits(b, host), host);
    DropBitsDivides(a, host);
    DropBitsDivides(b, host);
  }

  /** The network number of an address: what is left of it without the host bits. */
  function NetworkNumber(c: TrustedProxyCidr, ip: IpAddr): nat
    requires c.Valid()
  {
    Quotient(ip.bits, Pow2(c.HostBits()))
  }

  function Quotient(a: nat, m: nat): nat
    requires m > 0
  {
    a / m
  }

  predicate SameFamily(a: IpAddr, b: IpAddr) {
    a.V4? <==> b.V4?
  }

  /** Section 3.1 of RFC 4632 and section 2.3 of RFC 4291: an address is in the range
      exactly when it has the network number of the range. */
  lemma ContainsIsPrefixEquality(c: TrustedProxyCidr, ip: IpAddr)
    requires c.Valid() && ip.Valid()
    ensures c.Contains(ip) <==> SameFamily(c.network, ip) && NetworkNumber(c, ip) == NetworkNumber(c, c.network)
  {
    if SameFamily(c.network, ip) {
      if ip.V4? {
        ContainsV4(c, ip);
      } else {
        ContainsV6(c, ip);
      }
    }
  }

  lemma ContainsV4(c: TrustedProxyCidr, ip: IpAddr)
    requires c.Valid() && ip.Valid() && c.network.V4? && ip.V4?
    ensures c.Contains(ip) <==> NetworkNumber(c, ip) == NetworkNumber(c, c.network)
  {
    MaskedEqual(ip.bits, c.network.bits, c.prefixLen, V4_WIDTH);
  }

  lemma ContainsV6(c: TrustedProxyCidr, ip: IpAddr)
    requires c.Valid() && ip.Valid() && c.network.V6? && ip.V6?
    ensures c.Contains(ip) <==> NetworkNumber(c, ip) == NetworkNumber(c, c.network)
  {
    MaskedEqual(ip.bits, c.network.bits, c.prefixLen, V6_WIDTH);
  }

  /** The words of the addresses in the range. */
  function Words(c: TrustedProxyCidr): set<nat>
    requires c.Valid()
  {
    set w: nat | 0 <= w < Pow2(c.network.Width()) && c.Contains(if c.network.V4? then V4(w) else V6(w)) :: w
  }

  function FirstWord(c: TrustedProxyCidr): nat
    requires c.Valid()
  {
    Multiple(NetworkNumber(c, c.network), Pow2(c.HostBits()))
  }

  function Multiple(q: nat, m: nat): nat {
    q * m
  }

  /** The `n` words from `lo` on. */
  function Interval(lo: nat, n: nat): (r: set<nat>)
    ensures forall w :: w in r <==> lo <= w < lo + n
  {
    if n == 0 then {} else Interval(lo, n - 1) + {lo + n - 1}
  }

  lemma {:induction false} IntervalSize(lo: nat, n: nat)
    ensures |Interval(lo, n)| == n
  {
    if n > 0 {
      IntervalSize(lo, n - 1);
    }
  }

  lemma QuotientInterval(w: nat, q: nat, m: nat)
    requires m > 0
    ensures w / m == q <==> q * m <= w < q * m + m
  {
    if q * m <= w < q * m + m {
      DivisionIs(w, m, q, w - q * m);
    }
  }

  /** The range ends inside the address space. */
  lemma LastWordFits(c: TrustedProxyCidr)
    requires c.Valid()
    ensures FirstWord(c) + Pow2(c.HostBits()) <= Pow2(c.network.Width())
  {
    var h, p := Pow2(c.HostBits()), Pow2(c.prefixLen);
    Pow2Adds(c.prefixLen, c.HostBits());
    var q := NetworkNumber(c, c.network);
    QuotientInterval(c.network.bits, q, h);
    BlockFits(q, h, p, c.network.bits);
  }

  /** A block of `h` words that starts inside `p` blocks ends inside them. */
  lemma BlockFits(q: nat, h: nat, p: nat, w: nat)
    requires h > 0 && q * h <= w < p * h
    ensures q * h + h <= p * h
  {
    MultipleApart(h, p - q);
    assert h * (p - q) == p * h - q * h;
  }

  /** The words of a range are one block. */
  lemma RangeIsInterval(c: TrustedProxyCidr)
    requires c.Valid()
    ensures Words(c) == Interval(FirstWord(c), Pow2(c.HostBits()))
  {
    LastWordFits(c);
    forall w: nat
      ensures w in Words(c) <==> FirstWord(c) <= w < FirstWord(c) + Pow2(c.HostBits())
    {
      WordInRange(c, w);
    }
  }

  /** A range holds exactly 2^(width - prefix) addresses, one after the other. */
  lemma RangeSize(c: TrustedProxyCidr)
    requires c.Valid()
    ensures Words(c) == Interval(FirstWord(c), Pow2(c.HostBits()))
    ensures |Words(c)| == Pow2(c.HostBits())
  {
    RangeIsInterval(c);
    SizeOfInterval(Words(c), FirstWord(c), Pow2(c.HostBits()));
  }

  lemma SizeOfInterval(words: set<nat>, lo: nat, n: nat)
    requires words == Interval(lo, n)
    ensures |words| == n
  {
    IntervalSize(lo, n);
  }

  /** In the widths themselves: 32 bits for the one family. */
  lemma V4Ranges(network: nat, prefixLen: nat, ip: nat)
    requires prefixLen <= 32 && network < Pow2(32) && ip < Pow2(32)
    ensures var c := TrustedProxyCidr(V4(network), prefixLen);
            && c.Valid() && !c.Contains(V6(ip))
            && (c.Contains(V4(ip)) <==> ip / Pow2(32 - prefixLen) == network / Pow2(32 - prefixLen))
            && |Words(c)| == Pow2(32 - prefixLen)
  {
    var c := TrustedProxyCidr(V4(network), prefixLen);
    ContainsV4(c, V4(ip));
    RangeSize(c);
  }

  /** And 128 bits for the other. */
  lemma V6Ranges(network: nat, prefixLen: nat, ip: nat)
    requires prefixLen <= 128 && network < Pow2(128) && ip < Pow2(128)
    ensures var c := TrustedProxyCidr(V6(network), prefixLen);
            && c.Valid() && !c.Contains(V4(ip))
            && (c.Contains(V6(ip)) <==> ip / Pow2(128 - prefixLen) == network / Pow2(128 - prefixLen))
            && |Words(c)| == Pow2(128 - prefixLen)
  {
    var c := TrustedProxyCidr(V6(network), prefixLen);
    ContainsV6(c, V6(ip));
    RangeSize(c);
  }

  lemma WordInRange(c: TrustedProxyCidr, w: nat)
    requires c.Valid()
    ensures w in Words(c) <==> w < Pow2(c.network.Width()) && FirstWord(c) <= w < FirstWord(c) + Pow2(c.HostBits())
  {
    if w < Pow2(c.network.Width()) {
      ContainsIsPrefixEquality(c, if c.network.V4? then V4(w) else V6(w));
      QuotientInterval(w, NetworkNumber(c, c.network), Pow2(c.HostBits()));
    }
  }

  lemma {:induction false} DropBitsTwice(a: nat, m: nat, n: nat)
    ensures DropBits(a, m + n) == DropBits(DropBits(a, m), n)
  {
    if m > 0 {
      DropBitsTwice(a / 2, m - 1, n);
    }
  }

  /** Of two ranges of one family, the longer prefix either lies in the shorter one or
      shares no address with it. */
  lemma NestedOrDisjoint(wide: TrustedProxyCidr, narrow: TrustedProxyCidr)
    requires wide.Valid() && narrow.Valid() && SameFamily(wide.network, narrow.network)
    requires wide.prefixLen <= narrow.prefixLen
    ensures if wide.Contains(narrow.network) then Words(narrow) <= Words(wide) else Words(narrow) !! Words(wide)
  {
    forall w | w in Words(narrow)
      ensures w in Words(wide) <==> wide.Contains(narrow.network)
    {
      var ip := if narrow.network.V4? then V4(w) else V6(w);
      ContainsIsPrefixEquality(narrow, ip);
      ContainsIsPrefixEquality(wide, ip);
      ContainsIsPrefixEquality(wide, narrow.network);
      CoarserNumber(wide, narrow, ip);
      CoarserNumber(wide, narrow, narrow.network);
    }
  }

  /** The network number for a shorter prefix is a function of the one for a longer. */
  lemma CoarserNumber(wide: TrustedProxyCidr, narrow: TrustedProxyCidr, ip: IpAddr)
    requires wide.Valid() && narrow.Valid() && SameFamily(wide.network, narrow.network)
    requires wide.prefixLen <= narrow.prefixLen
    ensures NetworkNumber(wide, ip) == NetworkNumber(narrow, ip) / Pow2(narrow.prefixLen - wide.prefixLen)
  {
    var host, more := narrow.HostBits(), narrow.prefixLen - wide.prefixLen;
    DropBitsTwice(ip.bits, host, more);
    DropBitsDivides(ip.bits, host);
    DropBitsDivides(ip.bits, host + more);
    DropBitsDivides(DropBits(ip.bits, host), more);
  }
}
