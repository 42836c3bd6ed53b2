/** Python's ordering of `str` values: lexicographic by code point, a
    proper prefix sorting first.  `sorted()` on a list of strings orders
    them by it. */
module TextOrder {
  import opened Digits

  predicate Less(a: string, b: string)
    decreases |a|
  {
    if |a| == 0 then |b| > 0
    else if |b| == 0 then false
    else if a[0] != b[0] then a[0] < b[0]
    else Less(a[1..], b[1..])
  }

  predicate LessEq(a: string, b: string) {
    a == b || Less(a, b)
  }

  lemma {:induction false} LessIrreflexive(a: string)
    ensures !Less(a, a)
  {
    if |a| > 0 {
      LessIrreflexive(a[1..]);
    }
  }

  lemma {:induction false} LessAsymmetric(a: string, b: string)
    requires Less(a, b)
    ensures !Less(b, a)
  {
    if |a| > 0 && a[0] == b[0] {
      LessAsymmetric(a[1..], b[1..]);
    }
  }

  lemma {:induction false} LessTransitive(a: string, b: string, c: string)
    requires Less(a, b) && Less(b, c)
    ensures Less(a, c)
  {
    if |a| > 0 && a[0] == b[0] && b[0] == c[0] {
      LessTransitive(a[1..], b[1..], c[1..]);
    }
  }

  /** Any two strings are comparable. */
  lemma {:induction false} LessTotal(a: string, b: string)
    ensures a == b || Less(a, b) || Less(b, a)
  {
    if |a| > 0 && |b| > 0 && a[0] == b[0] {
      LessTotal(a[1..], b[1..]);
      if a[1..] == b[1..] {
        assert a == [a[0]] + a[1..] && b == [b[0]] + b[1..];
      }
    }
  }

  /** Two concatenations whose first parts have equal length compare by
      the first parts, and by the second parts when the first are equal. */
  lemma {:induction false} LessConcat(a1: string, r1: string, a2: string, r2: string)
    requires |a1| == |a2|
    ensures Less(a1 + r1, a2 + r2) <==> Less(a1, a2) || (a1 == a2 && Less(r1, r2))
  {
    if |a1| == 0 {
      assert a1 + r1 == r1 && a2 + r2 == r2;
    } else {
      assert (a1 + r1)[1..] == a1[1..] + r1;
      assert (a2 + r2)[1..] == a2[1..] + r2;
      LessConcat(a1[1..], r1, a2[1..], r2);
      if a1[0] == a2[0] && a1[1..] == a2[1..] {
        assert a1 == [a1[0]] + a1[1..] && a2 == [a2[0]] + a2[1..];
      }
    }
  }

  /** One-digit strings compare as their digits. */
  lemma DigitOrder(d: nat, e: nat)
    requires d < 10 && e < 10
    ensures Less([DigitChar(d)], [DigitChar(e)]) <==> d < e
  {
    assert [DigitChar(d)][1..] == [] == [DigitChar(e)][1..];
  }

  /** Numbers compare by all but their last digit, then by the last. */
  lemma SplitLastDigit(v: nat, w: nat)
    ensures v < w <==> v / 10 < w / 10 || (v / 10 == w / 10 && v % 10 < w % 10)
  {
  }

  /** Zero-padded fields of one width compare as their values: this is
      what makes `sorted()` on `strftime` keys chronological. */
  lemma {:induction false} PaddedOrder(width: nat, v: nat, w: nat)
    requires v < Pow10(width) && w < Pow10(width)
    ensures Less(Padded(width, v), Padded(width, w)) <==> v < w
  {
    if width > 0 {
      var pv, pw := Padded(width - 1, v / 10), Padded(width - 1, w / 10);
      PaddedOrder(width - 1, v / 10, w / 10);
      LessConcat(pv, [DigitChar(v % 10)], pw, [DigitChar(w % 10)]);
      DigitOrder(v % 10, w % 10);
      SplitLastDigit(v, w);
      if pv == pw {
        NumberOfPadded(width - 1, v / 10);
        NumberOfPadded(width - 1, w / 10);
      }
    }
  }
}
