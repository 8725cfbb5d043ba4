/** Zero-padded decimal numbers and the order of character strings. */
module DecimalText {
  import opened Division

  function Digit(n: nat): char
    requires n < 10
  {
    ('0' as int + n) as char
  }

  predicate AllDigits(s: string) {
    forall i :: 0 <= i < |s| ==> '0' <= s[i] <= '9'
  }

  /** `n` in decimal, with zeros in front up to at least `width` digits. */
  function Pad(n: nat, width: nat): string
    decreases n + width
  {
    if n < 10 && width <= 1 then [Digit(n)]
    else Pad(n / 10, if width == 0 then 0 else width - 1) + [Digit(n % 10)]
  }

  /** The number a digit string stands for. */
  function Value(s: string): nat
    requires AllDigits(s)
  {
    if s == "" then 0
    else
      var last := s[|s| - 1];
      10 * Value(s[..|s| - 1]) + (last as int - '0' as int)
  }

  function Pow10(width: nat): nat {
    if width == 0 then 1 else 10 * Pow10(width - 1)
  }

  lemma {:induction false} PadReads(n: nat, width: nat)
    ensures AllDigits(Pad(n, width)) && Value(Pad(n, width)) == n
    decreases n + width
  {
    if n < 10 && width <= 1 {
      ValueOfMore("", n);
    } else {
      PadReads(n / 10, if width == 0 then 0 else width - 1);
      ValueOfMore(Pad(n / 10, if width == 0 then 0 else width - 1), n % 10);
    }
  }

  lemma ValueOfMore(s: string, digit: nat)
    requires AllDigits(s) && digit < 10
    ensures AllDigits(s + [Digit(digit)]) && Value(s + [Digit(digit)]) == 10 * Value(s) + digit
  {
    assert (s + [Digit(digit)])[..|s|] == s;
  }

  /** A number fits its width exactly when it has no more digits than that. */
  lemma {:induction false} PadLength(n: nat, width: nat)
    requires width >= 1
    ensures |Pad(n, width)| == width <==> n < Pow10(width)
    ensures |Pad(n, width)| >= width
    decreases n + width
  {
    if n >= 10 || width > 1 {
      PadLength(n / 10, if width == 1 then 1 else width - 1);
      if width == 1 {
        assert |Pad(n / 10, 0)| >= 1;
      }
    }
  }

  lemma {:induction false} ValueBound(s: string)
    requires AllDigits(s)
    ensures Value(s) < Pow10(|s|)
  {
    if s != "" {
      ValueBound(s[..|s| - 1]);
    }
  }

  /** Reading digits and writing them back at the same width changes nothing. */
  lemma {:induction false} PadOfValue(s: string)
    requires AllDigits(s) && s != ""
    ensures Pad(Value(s), |s|) == s
  {
    var front := s[..|s| - 1];
    assert s == front + [s[|s| - 1]];
    if front == "" {
      assert Value(front) == 0;
    } else {
      PadOfValue(front);
      assert Value(s) / 10 == Value(front);
    }
  }

  /** Plain character-by-character order, a proper prefix coming first. */
  predicate LexLess(s: string, t: string) {
    t != "" && (s == "" || s[0] < t[0] || (s[0] == t[0] && LexLess(s[1..], t[1..])))
  }

  lemma {:induction false} LexLessPrefix(s: string, t: string, u: string, v: string)
    requires |s| == |t|
    ensures LexLess(s + u, t + v) <==> LexLess(s, t) || (s == t && LexLess(u, v))
  {
    if s == "" {
      assert s + u == u && t + v == v;
    } else {
      LexLessPrefix(s[1..], t[1..], u, v);
      assert (s + u)[1..] == s[1..] + u && (t + v)[1..] == t[1..] + v;
      assert s == t <==> s[0] == t[0] && s[1..] == t[1..] by {
        assert s == [s[0]] + s[1..] && t == [t[0]] + t[1..];
      }
    }
  }

  lemma {:induction false} LexLessIrreflexive(s: string)
    ensures !LexLess(s, s)
  {
    if s != "" {
      LexLessIrreflexive(s[1..]);
    }
  }

  /** Among digit strings of one length, character order is numeric order. */
  lemma {:induction false} LexLessIsNumeric(s: string, t: string)
    requires |s| == |t| && AllDigits(s) && AllDigits(t)
    ensures LexLess(s, t) <==> Value(s) < Value(t)
  {
    if s != "" {
      var n := |s| - 1;
      LexLessIsNumeric(s[..n], t[..n]);
      LexLessIsNumeric'(s[n..], t[n..]);
      LexLessPrefix(s[..n], t[..n], s[n..], t[n..]);
      assert s == s[..n] + s[n..] && t == t[..n] + t[n..];
      if s[..n] != t[..n] {
        ValueInjective(s[..n], t[..n]);
      }
    }
  }

  lemma LexLessIsNumeric'(s: string, t: string)
    requires |s| == |t| == 1
    ensures LexLess(s, t) <==> s[0] < t[0]
  {
  }

  lemma {:induction false} ValueInjective(s: string, t: string)
    requires |s| == |t| && AllDigits(s) && AllDigits(t)
    ensures Value(s) == Value(t) <==> s == t
  {
    if s != "" {
      PadOfValue(s);
      PadOfValue(t);
    }
  }

  /** More digits for larger numbers. */
  lemma {:induction false} PadLengthMonotone(m: nat, n: nat, width: nat)
    requires m <= n
    ensures |Pad(m, width)| <= |Pad(n, width)|
    decreases n + width
  {
    if n >= 10 || width > 1 {
      if m >= 10 || width > 1 {
        PadLengthMonotone(m / 10, n / 10, if width == 0 then 0 else width - 1);
      }
    }
  }

  /** The front of a digit string is its number without the last digits. */
  lemma {:induction false} ValueOfFront(s: string, k: nat)
    requires AllDigits(s) && k <= |s|
    ensures Pow10(k) > 0 && Value(s[..|s| - k]) == Value(s) / Pow10(k)
  {
    if k == 0 {
      assert s[..|s|] == s;
    } else {
      var front := s[..|s| - 1];
      ValueOfFront(front, k - 1);
      assert front[..|front| - (k - 1)] == s[..|s| - k];
      assert Value(s) / 10 == Value(front);
      TenfoldQuotient(Value(s), Pow10(k - 1));
    }
  }

  lemma TenfoldQuotient(n: nat, d: nat)
    requires d > 0
    ensures n / (10 * d) == n / 10 / d
  {
    var q, r := n / 10 / d, n / 10 % d;
    assert n == 10 * d * q + (10 * r + n % 10);
    DivisionIs(n, 10 * d, q, 10 * r + n % 10);
  }

  lemma {:induction false} LexLessAsymmetric(s: string, t: string)
    requires LexLess(s, t)
    ensures !LexLess(t, s)
  {
    if s != "" && s[0] == t[0] {
      LexLessAsymmetric(s[1..], t[1..]);
    }
  }

  lemma {:induction false} LexLessTotal(s: string, t: string)
    ensures s == t || LexLess(s, t) || LexLess(t, s)
  {
    if s != "" && t != "" && s[0] == t[0] {
      LexLessTotal(s[1..], t[1..]);
      assert s == [s[0]] + s[1..] && t == [t[0]] + t[1..];
    }
  }

  /** Two numbers of one width, each followed by the same separator: the numbers decide,
      and what follows decides when they are the same. */
  lemma FieldFirst(f: string, g: string, separator: char, u: string, v: string)
    requires |f| == |g| && AllDigits(f) && AllDigits(g)
    ensures LexLess(f + [separator] + u, g + [separator] + v) <==>
            Value(f) < Value(g) || (Value(f) == Value(g) && LexLess(u, v))
  {
    assert f + [separator] + u == f + ([separator] + u) && g + [separator] + v == g + ([separator] + v);
    LexLessPrefix(f, g, [separator] + u, [separator] + v);
    LexLessPrefix([separator], [separator], u, v);
    LexLessIrreflexive([separator]);
    LexLessIsNumeric(f, g);
    ValueInjective(f, g);
  }

  /** A shorter number, followed by a separator that sorts before every digit, comes before
      a longer one exactly when it is at most the longer one's front. */
  lemma ShorterFirst(f: string, g: string, separator: char, u: string, v: string)
    requires |f| < |g| && AllDigits(f) && AllDigits(g) && separator < '0'
    ensures Pow10(|g| - |f|) > 0
    ensures LexLess(f + [separator] + u, g + v) <==> Value(f) <= Value(g) / Pow10(|g| - |f|)
  {
    var front, rest := g[..|f|], g[|f|..];
    ValueOfFront(g, |g| - |f|);
    assert f + [separator] + u == f + ([separator] + u) && g + v == front + (rest + v);
    LexLessPrefix(f, front, [separator] + u, rest + v);
    LexLessIsNumeric(f, front);
    ValueInjective(f, front);
  }
}
