/** Decimal numbers as text: printing them, the two paddings, and reading them back. */
module Decimals {
  import opened Numbers
  import opened Sequences

  predicate IsDigit(c: char) {
    '0' <= c <= '9'
  }

  ghost predicate AllDigits(s: string) {
    forall i {:trigger s[i]} :: 0 <= i < |s| ==> IsDigit(s[i])
  }

  function DigitChar(d: nat): (c: char)
    requires d < 10
    ensures IsDigit(c) && DigitValue(c) == d
  {
    (48 + d) as char
  }

  function DigitValue(c: char): nat {
    if IsDigit(c) then c as int - 48 else 0
  }

  function Digits(n: nat): (s: string)
    ensures |s| > 0 && AllDigits(s)
  {
    if n < 10 then [DigitChar(n)] else Digits(n / 10) + [DigitChar(n % 10)]
  }

  function ReadNat(s: string): nat {
    if s == [] then 0 else 10 * ReadNat(s[..|s| - 1]) + DigitValue(s[|s| - 1])
  }

  function Pow10(k: nat): (p: nat)
    ensures p > 0
  {
    if k == 0 then 1 else 10 * Pow10(k - 1)
  }

  function Zeros(k: nat): (s: string)
    ensures |s| == k && AllDigits(s)
  {
    seq(k, _ => '0')
  }

  /** Leading zeros up to width `w`. */
  function Padded(n: nat, w: nat): (s: string)
    ensures |s| >= w && AllDigits(s)
  {
    var s := Digits(n);
    if |s| >= w then s else Zeros(w - |s|) + s
  }

  lemma {:induction false} ReadMore(s: string, c: char)
    ensures ReadNat(s + [c]) == 10 * ReadNat(s) + DigitValue(c)
  {
    assert (s + [c])[..|s|] == s;
  }

  /** Reading what was printed gives the number back. */
  lemma {:induction false} ReadDigits(n: nat)
    ensures ReadNat(Digits(n)) == n
  {
    if n < 10 {
      ReadMore([], DigitChar(n));
      assert [] + [DigitChar(n)] == [DigitChar(n)];
    } else {
      ReadDigits(n / 10);
      ReadMore(Digits(n / 10), DigitChar(n % 10));
    }
  }

  lemma {:induction false} ReadZeros(k: nat, s: string)
    ensures ReadNat(Zeros(k) + s) == ReadNat(s)
    decreases k, |s|
  {
    if s != [] {
      ReadZeros(k, s[..|s| - 1]);
      ReadMore(Zeros(k) + s[..|s| - 1], s[|s| - 1]);
      assert Zeros(k) + s == Zeros(k) + s[..|s| - 1] + [s[|s| - 1]];
    } else if k > 0 {
      ReadZeros(k - 1, []);
      ReadMore(Zeros(k - 1), '0');
      assert Zeros(k) == Zeros(k - 1) + ['0'];
      assert Zeros(k) + [] == Zeros(k) && Zeros(k - 1) + [] == Zeros(k - 1);
    } else {
      assert Zeros(0) + s == s;
    }
  }

  lemma {:induction false} DigitsShort(n: nat, w: nat)
    requires w > 0 && n < Pow10(w)
    ensures |Digits(n)| <= w
  {
    if n >= 10 {
      DigitsShort(n / 10, w - 1);
    }
  }

  /** A number of at most `w` digits is padded to exactly `w`, and still reads as itself. */
  lemma {:induction false} ReadPadded(n: nat, w: nat)
    requires w > 0 && n < Pow10(w)
    ensures |Padded(n, w)| == w && ReadNat(Padded(n, w)) == n
  {
    DigitsShort(n, w);
    ReadDigits(n);
    if |Digits(n)| < w {
      ReadZeros(w - |Digits(n)|, Digits(n));
    }
  }

  // ----- Three decimals, trimmed -----

  /** The nearest integer; a tie goes to the even neighbour. */
  function Nearest(x: real): (n: nat)
    requires x >= 0.0
  {
    var f := x.Floor;
    var d := x - f as real;
    if d < 0.5 || (d == 0.5 && f % 2 == 0) then f else f + 1
  }

  /** Thousandths, to the nearest. */
  function Magnitude(v: real): nat {
    Nearest(Abs(v) * 1000.0)
  }

  function Sign(v: real): string {
    if v < 0.0 then "-" else ""
  }

  /** `std::fixed` with three decimals. */
  function Fixed3(v: real): string {
    Sign(v) + Digits(Magnitude(v) / 1000) + "." + Padded(Magnitude(v) % 1000, 3)
  }

  /** Without its zeros at the end. */
  function Trimmed(s: string): (r: string)
    ensures r <= s && (r == [] || r[|r| - 1] != '0')
  {
    if s != [] && s[|s| - 1] == '0' then Trimmed(s[..|s| - 1]) else s
  }

  /** A point and the decimals without zeros at the end; nothing when no decimal is left. */
  function Tail(decimals: string): string {
    if Trimmed(decimals) == [] then "" else "." + Trimmed(decimals)
  }

  function UnsignedText(t: nat): string {
    Digits(t / 1000) + Tail(Padded(t % 1000, 3))
  }

  /** The shortest form of the three decimals: no zeros at the end, and no bare point. */
  function NumText(v: real): string {
    Sign(v) + UnsignedText(Magnitude(v))
  }

  /** `num`. */
  method Num(v: real) returns (s: string)
    ensures s == NumText(v)
  {
    s := Fixed3(v);
    ghost var t := Magnitude(v);
    s := DropZeros(s, Sign(v) + Digits(t / 1000), Padded(t % 1000, 3));
    Assoc(Sign(v), Digits(t / 1000), Tail(Padded(t % 1000, 3)));
    if s == [] {
      s := "0";
    }
  }

  /** The two trimming statements of `num`, on a text with a point. */
  method DropZeros(text: string, ghost whole: string, ghost decimals: string) returns (s: string)
    requires text == whole + "." + decimals && AllDigits(decimals)
    ensures s == whole + Tail(decimals)
  {
    ghost var rest: string;
    s, rest := DropLastZeros(text, whole + ".", decimals);
    LastOff(s, whole + ".", rest);
    assert (whole + ".")[..|whole|] == whole;
    if s != [] && s[|s| - 1] == '.' {
      s := s[..|s| - 1];
    }
    Assoc(whole, ".", rest);
  }

  method DropLastZeros(text: string, ghost head: string, ghost decimals: string)
    returns (s: string, ghost rest: string)
    requires text == head + decimals && head != [] && head[|head| - 1] == '.' && AllDigits(decimals)
    ensures s == head + rest && rest == Trimmed(decimals) && AllDigits(rest)
  {
    s, rest := text, decimals;
    while |s| > 1 && s[|s| - 1] == '0'
      invariant s == head + rest && AllDigits(rest) && Trimmed(rest) == Trimmed(decimals)
      decreases |s|
    {
      LastOff(s, head, rest);
      s, rest := s[..|s| - 1], rest[..|rest| - 1];
    }
    LastOff(s, head, rest);
  }

  /** The last character of a text that ends in `rest`, and what is left without it. */
  lemma {:induction false} LastOff(s: string, head: string, rest: string)
    requires s == head + rest && head != []
    ensures s != [] && s[|s| - 1] == if rest == [] then head[|head| - 1] else rest[|rest| - 1]
    ensures rest == [] ==> s == head
    ensures rest != [] ==> s[..|s| - 1] == head + rest[..|rest| - 1]
  {
  }

  // ----- Reading a number back -----

  function PointAt(s: string): (i: nat)
    ensures i <= |s|
  {
    if s == [] || s[0] == '.' then 0 else 1 + PointAt(s[1..])
  }

  /** The value of the digits after a point. */
  function Fraction(decimals: string): real {
    ReadNat(decimals) as real / Pow10(|decimals|) as real
  }

  /** The value of digits, and decimals after a point. */
  function ReadUnsigned(s: string): real {
    var i := PointAt(s);
    var decimals := if i < |s| then s[i + 1..] else [];
    ReadNat(s[..i]) as real + Fraction(decimals)
  }

  function ReadDecimal(s: string): real {
    if s != [] && s[0] == '-' then -ReadUnsigned(s[1..]) else ReadUnsigned(s)
  }

  /** `v` to three decimals. */
  function Rounded(v: real): real {
    var t := Magnitude(v) as real / 1000.0;
    if v < 0.0 then -t else t
  }

  /** Three decimals are at most half a thousandth off. */
  lemma {:induction false} RoundedIsClose(v: real)
    ensures v - 0.0005 <= Rounded(v) <= v + 0.0005
  {
    var x := Abs(v) * 1000.0;
    assert x - 0.5 <= Nearest(x) as real <= x + 0.5;
  }

  lemma {:induction false} PointAfter(s: string, rest: string)
    requires AllDigits(s) && (rest == [] || rest[0] == '.')
    ensures PointAt(s + rest) == |s|
  {
    if s == [] {
      assert s + rest == rest;
    } else {
      assert (s + rest)[1..] == s[1..] + rest;
      PointAfter(s[1..], rest);
    }
  }

  /** Dropping zeros at the end does not change the value of the decimals. */
  lemma {:induction false} TrimmedValue(s: string)
    ensures Fraction(Trimmed(s)) == Fraction(s)
  {
    if s != [] && s[|s| - 1] == '0' {
      TrimmedValue(s[..|s| - 1]);
      Tenth(ReadNat(s[..|s| - 1]) as real, Pow10(|s| - 1) as real);
    }
  }

  lemma {:induction false} Tenth(a: real, b: real)
    requires b > 0.0
    ensures (10.0 * a) / (10.0 * b) == a / b
  {
    var q := a / b;
    assert q * b == a;
    assert q * (10.0 * b) == 10.0 * a;
  }

  lemma {:induction false} Thousandths(t: nat)
    ensures (t / 1000) as real + (t % 1000) as real / 1000.0 == t as real / 1000.0
  {
    assert t == 1000 * (t / 1000) + t % 1000;
  }

  lemma {:induction false} ReadParts(whole: string, decimals: string)
    requires AllDigits(whole)
    ensures ReadUnsigned(whole + (if decimals == [] then "" else "." + decimals))
         == ReadNat(whole) as real + Fraction(decimals)
  {
    var rest := if decimals == [] then "" else "." + decimals;
    PointAfter(whole, rest);
    assert (whole + rest)[..|whole|] == whole;
    if decimals != [] {
      assert (whole + rest)[|whole| + 1..] == decimals;
    }
  }

  lemma {:induction false} ThreeDecimals(d: nat)
    requires d < 1000
    ensures Fraction(Trimmed(Padded(d, 3))) == d as real / 1000.0
  {
    assert Pow10(1) == 10 && Pow10(2) == 100 && Pow10(3) == 1000;
    ReadPadded(d, 3);
    TrimmedValue(Padded(d, 3));
  }

  lemma {:induction false} UnsignedReads(t: nat)
    ensures ReadUnsigned(UnsignedText(t)) == t as real / 1000.0
    ensures UnsignedText(t) != [] && IsDigit(UnsignedText(t)[0])
  {
    var w, d := t / 1000, t % 1000;
    ThreeDecimals(d);
    ReadDigits(w);
    ReadParts(Digits(w), Trimmed(Padded(d, 3)));
    Thousandths(t);
  }

  lemma {:induction false} SignedReads(minus: bool, s: string)
    requires s != [] && IsDigit(s[0])
    ensures ReadDecimal((if minus then "-" else "") + s)
         == if minus then -ReadUnsigned(s) else ReadUnsigned(s)
  {
    if minus {
      assert ("-" + s)[1..] == s;
    } else {
      assert "" + s == s;
    }
  }

  /** Reading a printed number gives the number back, to three decimals. */
  lemma {:induction false} NumReads(v: real)
    ensures ReadDecimal(NumText(v)) == Rounded(v)
  {
    UnsignedReads(Magnitude(v));
    SignedReads(v < 0.0, UnsignedText(Magnitude(v)));
  }

  /** Printed numbers hold digits, a sign and a point, and nothing else. */
  lemma {:induction false} NumIsWord(v: real, c: char)
    requires !IsDigit(c) && c != '-' && c != '.'
    ensures c !in NumText(v) && NumText(v) != []
  {
    assert c !in Digits(Magnitude(v) / 1000);
    assert c !in Trimmed(Padded(Magnitude(v) % 1000, 3));
  }

  // ----- Minus zero -----

  lemma {:induction false} RoundsToZero(v: real)
    ensures Magnitude(v) == 0 <==> -0.0005 <= v <= 0.0005
  {
    var x := Abs(v) * 1000.0;
    assert Nearest(x) == 0 <==> x <= 0.5;
  }

  lemma {:induction false} OnlyZeros(k: nat)
    ensures Trimmed(Zeros(k)) == []
  {
    if k > 0 {
      assert Zeros(k)[..k - 1] == Zeros(k - 1);
      OnlyZeros(k - 1);
    }
  }

  lemma {:induction false} ZeroPrints()
    ensures UnsignedText(0) == "0"
  {
    assert Digits(0) == "0";
    assert Padded(0, 3) == Zeros(3);
    OnlyZeros(3);
  }

  /** Only zero is printed as `0`. */
  lemma {:induction false} ZeroText(t: nat)
    ensures UnsignedText(t) == "0" <==> t == 0
  {
    UnsignedReads(t);
    UnsignedReads(0);
    ZeroPrints();
  }

  lemma {:induction false} MinusText(s: string, minus: bool)
    requires s != [] && IsDigit(s[0])
    ensures (if minus then "-" else "") + s == "-0" <==> minus && s == "0"
  {
    if minus {
      assert ("-" + s)[1..] == s && "-0"[1..] == "0";
    } else {
      assert ("" + s)[0] == s[0] && "-0"[0] == '-';
    }
  }

  /** Exactly when a number is printed as `-0`: it is negative and rounds to zero. */
  lemma {:induction false} MinusZeroIff(v: real)
    ensures NumText(v) == "-0" <==> -0.0005 <= v < 0.0
  {
    var t := Magnitude(v);
    UnsignedReads(t);
    MinusText(UnsignedText(t), v < 0.0);
    ZeroText(t);
    RoundsToZero(v);
  }
}
