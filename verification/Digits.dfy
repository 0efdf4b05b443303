/** Fixed-width decimal text: printing, reading, and how it compares as a string. */
module Digits {
  import opened Base

  predicate IsDigit(c: char) {
    '0' <= c <= '9'
  }

  predicate AllDigits(s: string) {
    forall i :: 0 <= i < |s| ==> IsDigit(s[i])
  }

  function Digit(n: int): (c: char)
    requires 0 <= n < 10
    ensures IsDigit(c)
  {
    ('0' as int + n) as char
  }

  /** n in decimal, padded with zeros to at least width digits. */
  function Pad(n: nat, width: nat): (s: string)
    requires width >= 1
    ensures AllDigits(s) && |s| >= width
    decreases n + width
  {
    if n < 10 && width == 1 then [Digit(n)]
    else Pad(n / 10, if width == 1 then 1 else width - 1) + [Digit(n % 10)]
  }

  function Value(s: string): nat
    requires AllDigits(s)
  {
    if |s| == 0 then 0 else 10 * Value(s[..|s| - 1]) + (s[|s| - 1] as int - '0' as int)
  }

  function Power10(k: nat): nat {
    if k == 0 then 1 else 10 * Power10(k - 1)
  }

  lemma {:induction false} ValueOfPad(n: nat, width: nat)
    requires width >= 1
    ensures Value(Pad(n, width)) == n
    decreases n + width
  {
    if n < 10 && width == 1 {
    } else {
      var s := Pad(n, width);
      ValueOfPad(n / 10, if width == 1 then 1 else width - 1);
      assert s[..|s| - 1] == Pad(n / 10, if width == 1 then 1 else width - 1);
    }
  }

  lemma {:induction false} PadWidth(n: nat, width: nat)
    requires width >= 1
    ensures |Pad(n, width)| == width <==> n < Power10(width)
    decreases n + width
  {
    if n < 10 && width == 1 {
      assert Power10(1) == 10 * Power10(0);
    } else if width == 1 {
      assert Power10(1) == 10 * Power10(0);
    } else {
      PadWidth(n / 10, width - 1);
    }
  }

  lemma {:induction false} PadOfValue(s: string)
    requires AllDigits(s) && |s| >= 1
    ensures Pad(Value(s), |s|) == s
  {
    hide Value, Pad, Digit;
    var t := s[..|s| - 1];
    var d := s[|s| - 1] as int - '0' as int;
    assert s == t + [s[|s| - 1]];
    ValueOfLast(s, t, d);
    if |s| <= 1 {
    } else {
      PadOfValue(t);
      PadAppend(Value(t), d, |t|);
    }
  }

  lemma ValueOfLast(s: string, t: string, d: int)
    requires AllDigits(s) && |s| >= 1 && t == s[..|s| - 1] && d == s[|s| - 1] as int - '0' as int
    ensures Value(s) == 10 * Value(t) + d && Digit(d) == s[|s| - 1]
    ensures |s| == 1 ==> Pad(Value(s), 1) == s
  {
    if |s| == 1 { assert Value(t) == 0; }
  }

  lemma PadAppend(n: nat, d: int, width: nat)
    requires 0 <= d < 10 && width >= 1
    ensures Pad(10 * n + d, width + 1) == Pad(n, width) + [Digit(d)]
  {
    LastDigit(n, d);
  }

  lemma {:induction false} ValueBound(s: string)
    requires AllDigits(s)
    ensures Value(s) < Power10(|s|)
  {
    if |s| == 0 {
    } else {
      ValueBound(s[..|s| - 1]);
    }
  }

  lemma LastDigit(n: nat, d: int)
    requires 0 <= d < 10
    ensures (10 * n + d) / 10 == n && (10 * n + d) % 10 == d
  {
  }

  /** Digit strings of one width compare as numbers. */
  lemma {:induction false} DigitOrder(a: string, b: string)
    requires AllDigits(a) && AllDigits(b) && |a| == |b|
    ensures StringLess(a, b) <==> Value(a) < Value(b)
    ensures a == b <==> Value(a) == Value(b)
  {
    if |a| == 0 {
    } else {
      var k := |a| - 1;
      DigitOrder(a[..k], b[..k]);
      StringLessConcat(a[..k], b[..k], [a[k]], [b[k]]);
      assert a == a[..k] + [a[k]] && b == b[..k] + [b[k]];
    }
  }

  lemma PadOrder(m: nat, n: nat, width: nat)
    requires width >= 1 && m < Power10(width) && n < Power10(width)
    ensures StringLess(Pad(m, width), Pad(n, width)) <==> m < n
    ensures Pad(m, width) == Pad(n, width) <==> m == n
  {
    PadWidth(m, width);
    PadWidth(n, width);
    ValueOfPad(m, width);
    ValueOfPad(n, width);
    DigitOrder(Pad(m, width), Pad(n, width));
  }

  /** strconv.Atoi: an optional sign and at least one digit. */
  function Atoi(s: string): Option<int> {
    if |s| > 0 && (s[0] == '+' || s[0] == '-') then
      if |s| > 1 && AllDigits(s[1..]) then
        (var n: int := Value(s[1..]); Some(if s[0] == '-' then -n else n))
      else None
    else if |s| > 0 && AllDigits(s) then Some(Value(s))
    else None
  }

  lemma AtoiOfPad(n: nat, width: nat)
    requires width >= 1
    ensures Atoi(Pad(n, width)) == Some(n)
  {
    ValueOfPad(n, width);
    assert IsDigit(Pad(n, width)[0]);
  }

  lemma PowersOfTen()
    ensures Power10(2) == 100 && Power10(3) == 1000 && Power10(4) == 10000
  {
    assert Power10(1) == 10 * Power10(0);
    assert Power10(2) == 10 * Power10(1);
    assert Power10(3) == 10 * Power10(2);
  }
}
