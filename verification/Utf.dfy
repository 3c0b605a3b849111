/**
  * The codec between UTF-8 bytes and UTF-16 code units. Decoding never fails: a byte that starts no
  * sequence becomes U+FFFD. Encoding never fails either: an unpaired surrogate is encoded as itself.
  */
module Utf {
  import opened Sequences
  import opened Units

  type Byte = bv8
  type Bytes = seq<Byte>
  type Code = bv32

  const REPLACEMENT: Code := 0xFFFD

  predicate IsTail(b: Byte) {
    b & 0xC0 == 0x80
  }

  // ----- One code point -----

  /** How many bytes the decoder takes at the head of `bs`; malformed heads take one. */
  function StepLength(bs: Bytes): (n: nat)
    requires bs != []
    ensures 1 <= n <= 4 && n <= |bs|
  {
    var c := bs[0];
    if c < 0x80 then 1
    else if c & 0xE0 == 0xC0 && |bs| >= 2 && IsTail(bs[1]) then 2
    else if c & 0xF0 == 0xE0 && |bs| >= 3 && IsTail(bs[1]) && IsTail(bs[2]) then 3
    else if c & 0xF8 == 0xF0 && |bs| >= 4 && IsTail(bs[1]) && IsTail(bs[2]) && IsTail(bs[3]) then 4
    else 1
  }

  /** The code point the decoder reads there. */
  function StepCode(bs: Bytes): Code
    requires bs != []
  {
    var c := bs[0];
    var n := StepLength(bs);
    if n == 4 then Code4(c, bs[1], bs[2], bs[3])
    else if n == 3 then Code3(c, bs[1], bs[2])
    else if n == 2 then Code2(c, bs[1])
    else if c < 0x80 then c as Code
    else REPLACEMENT
  }

  function HighOf(cp: Code): Unit {
    (0xD800 | (((cp - 0x1_0000) >> 10) & 0x3FF)) as Unit
  }

  function LowOf(cp: Code): Unit {
    (0xDC00 | ((cp - 0x1_0000) & 0x3FF)) as Unit
  }

  /** One or two code units for a code point. */
  function UnitsOf(cp: Code): (us: Text)
    ensures 1 <= |us| <= 2
  {
    if cp <= 0xFFFF then [cp as Unit] else [HighOf(cp), LowOf(cp)]
  }

  /** A continuation byte carrying the low six bits of `x`. */
  function Tail(x: Code): Byte {
    (0x80 | (x & 0x3F)) as Byte
  }

  function Lead2(cp: Code): Byte
    requires cp <= 0x7FF
  {
    (0xC0 | (cp >> 6)) as Byte
  }

  function Lead3(cp: Code): Byte
    requires cp <= 0xFFFF
  {
    (0xE0 | (cp >> 12)) as Byte
  }

  /** The source's `char` keeps the low byte. */
  function Lead4(cp: Code): Byte {
    ((0xF0 | (cp >> 18)) & 0xFF) as Byte
  }

  /** `emit_utf8`: the bytes of a code point, by magnitude. */
  function Emit(cp: Code): (bs: Bytes)
    ensures 1 <= |bs| <= 4
  {
    if cp <= 0x7F then [cp as Byte]
    else if cp <= 0x7FF then [Lead2(cp), Tail(cp)]
    else if cp <= 0xFFFF then [Lead3(cp), Tail(cp >> 6), Tail(cp)]
    else [Lead4(cp), Tail(cp >> 12), Tail(cp >> 6), Tail(cp)]
  }

  // The code points that two, three and four bytes carry.

  function Code2(a: Byte, b: Byte): Code {
    ((a & 0x1F) as Code << 6) | (b & 0x3F) as Code
  }

  function Code3(a: Byte, b: Byte, c: Byte): Code {
    ((a & 0x0F) as Code << 12) | ((b & 0x3F) as Code << 6) | (c & 0x3F) as Code
  }

  function Code4(a: Byte, b: Byte, c: Byte, d: Byte): Code {
    ((a & 0x07) as Code << 18) | ((b & 0x3F) as Code << 12) | ((c & 0x3F) as Code << 6)
    | (d & 0x3F) as Code
  }

  predicate IsHigh(u: Unit) {
    0xD800 <= u <= 0xDBFF
  }

  predicate IsLow(u: Unit) {
    0xDC00 <= u <= 0xDFFF
  }

  function PairCode(hi: Unit, lo: Unit): Code
    requires IsHigh(hi) && IsLow(lo)
  {
    0x1_0000 + (((hi - 0xD800) as Code << 10) | (lo - 0xDC00) as Code)
  }

  // ----- Whole strings -----

  function Decode(bs: Bytes): Text {
    if bs == [] then [] else UnitsOf(StepCode(bs)) + Decode(bs[StepLength(bs)..])
  }

  /** Does a surrogate pair stand at the head? */
  predicate StartsPair(us: Text) {
    |us| >= 2 && IsHigh(us[0]) && IsLow(us[1])
  }

  function Encode(us: Text): Bytes {
    if us == [] then []
    else if StartsPair(us) then Emit(PairCode(us[0], us[1])) + Encode(us[2..])
    else Emit(us[0] as Code) + Encode(us[1..])
  }

  /** Reads the code point at `p`: the branches of the decoder's loop. */
  method DecodeOne(input: Bytes, p: nat) returns (cp: Code, next: nat)
    requires p < |input|
    ensures cp == StepCode(input[p..]) && next == p + StepLength(input[p..])
  {
    var c := input[p];
    var left := |input| - p;
    if c < 0x80 {
      cp, next := c as Code, p + 1;
    } else if c & 0xE0 == 0xC0 && left >= 2 && IsTail(input[p + 1]) {
      cp, next := Code2(c, input[p + 1]), p + 2;
    } else if c & 0xF0 == 0xE0 && left >= 3 && IsTail(input[p + 1]) && IsTail(input[p + 2]) {
      cp, next := Code3(c, input[p + 1], input[p + 2]), p + 3;
    } else if c & 0xF8 == 0xF0 && left >= 4 && IsTail(input[p + 1]) && IsTail(input[p + 2])
              && IsTail(input[p + 3]) {
      cp, next := Code4(c, input[p + 1], input[p + 2], input[p + 3]), p + 4;
    } else {
      cp, next := REPLACEMENT, p + 1;
    }
  }

  method Utf8ToUtf16(input: Bytes) returns (out: Text)
    ensures out == Decode(input)
  {
    out := [];
    var p := 0;
    ghost var rest := input;
    while p < |input|
      invariant 0 <= p <= |input| && rest == input[p..]
      invariant out + Decode(rest) == Decode(input)
    {
      var cp, next := DecodeOne(input, p);
      DropDrop(input, p, next);
      Assoc(out, UnitsOf(cp), Decode(input[next..]));
      out := out + UnitsOf(cp);
      p, rest := next, input[next..];
    }
  }

  /** Writes the code point at `i`, a pair when one stands there: the body of the encoder's loop. */
  method EncodeOne(input: Text, i: nat) returns (emitted: Bytes, next: nat)
    requires i < |input|
    ensures i < next <= |input| && Encode(input[i..]) == emitted + Encode(input[next..])
  {
    var c := input[i];
    if IsHigh(c) && i + 1 < |input| && IsLow(input[i + 1]) {
      DropDrop(input, i, i + 2);
      return Emit(PairCode(c, input[i + 1])), i + 2;
    }
    DropDrop(input, i, i + 1);
    return Emit(c as Code), i + 1;
  }

  method Utf16ToUtf8(input: Text) returns (out: Bytes)
    ensures out == Encode(input)
  {
    out := [];
    var i := 0;
    ghost var rest := input;
    while i < |input|
      invariant 0 <= i <= |input| && rest == input[i..]
      invariant out + Encode(rest) == Encode(input)
    {
      var emitted, next := EncodeOne(input, i);
      Assoc(out, emitted, Encode(input[next..]));
      out := out + emitted;
      i, rest := next, input[next..];
    }
  }

  lemma {:induction false} DropDrop<T>(s: seq<T>, i: nat, j: nat)
    requires i <= j <= |s|
    ensures s[i..][j - i..] == s[j..]
  {
  }

  // ----- Code units survive the trip through bytes -----

  // What the decoder's tests say of a lead byte.

  predicate IsLead2(c: Byte) {
    c >= 0x80 && c & 0xE0 == 0xC0
  }

  predicate IsLead3(c: Byte) {
    c >= 0x80 && c & 0xE0 != 0xC0 && c & 0xF0 == 0xE0
  }

  predicate IsLead4(c: Byte) {
    c >= 0x80 && c & 0xE0 != 0xC0 && c & 0xF0 != 0xE0 && c & 0xF8 == 0xF0
  }

  lemma {:induction false} TwoBits(cp: Code)
    requires 0x7F < cp <= 0x7FF
    ensures IsLead2(Lead2(cp)) && IsTail(Tail(cp)) && Code2(Lead2(cp), Tail(cp)) == cp
  {
  }

  lemma {:induction false} ThreeBits(cp: Code)
    requires 0x7FF < cp <= 0xFFFF
    ensures IsLead3(Lead3(cp)) && IsTail(Tail(cp >> 6)) && IsTail(Tail(cp))
    ensures Code3(Lead3(cp), Tail(cp >> 6), Tail(cp)) == cp
  {
  }

  lemma {:induction false} FourBits(cp: Code)
    requires 0xFFFF < cp <= 0x10_FFFF
    ensures IsLead4(Lead4(cp)) && IsTail(Tail(cp >> 12)) && IsTail(Tail(cp >> 6)) && IsTail(Tail(cp))
    ensures Code4(Lead4(cp), Tail(cp >> 12), Tail(cp >> 6), Tail(cp)) == cp
  {
  }

  /** The decoder reads an emitted code point back, whatever follows it. */
  lemma {:induction false} StepEmit(cp: Code, rest: Bytes)
    requires cp <= 0x10_FFFF
    ensures StepLength(Emit(cp) + rest) == |Emit(cp)| && StepCode(Emit(cp) + rest) == cp
    ensures (Emit(cp) + rest)[|Emit(cp)|..] == rest && (Emit(cp) + rest)[..|Emit(cp)|] == Emit(cp)
  {
    var bs := Emit(cp) + rest;
    if 0x7F < cp <= 0x7FF {
      TwoBits(cp);
      assert bs[0] == Lead2(cp) && bs[1] == Tail(cp);
    } else if 0x7FF < cp <= 0xFFFF {
      ThreeBits(cp);
      assert bs[0] == Lead3(cp) && bs[1] == Tail(cp >> 6) && bs[2] == Tail(cp);
    } else if 0xFFFF < cp {
      FourBits(cp);
      assert bs[0] == Lead4(cp) && bs[1] == Tail(cp >> 12);
      assert bs[2] == Tail(cp >> 6) && bs[3] == Tail(cp);
    }
  }

  lemma {:induction false} PairUnits(hi: Unit, lo: Unit)
    requires IsHigh(hi) && IsLow(lo)
    ensures 0x1_0000 <= PairCode(hi, lo) <= 0x10_FFFF
    ensures HighOf(PairCode(hi, lo)) == hi && LowOf(PairCode(hi, lo)) == lo
  {
  }

  /** The code point the encoder emits first, and the code units it leaves. */
  function HeadCode(us: Text): Code
    requires us != []
  {
    if StartsPair(us) then PairCode(us[0], us[1]) else us[0] as Code
  }

  function TailUnits(us: Text): Text
    requires us != []
  {
    if StartsPair(us) then us[2..] else us[1..]
  }

  lemma {:induction false} EncodeHead(us: Text)
    requires us != []
    ensures HeadCode(us) <= 0x10_FFFF
    ensures Encode(us) == Emit(HeadCode(us)) + Encode(TailUnits(us))
    ensures us == UnitsOf(HeadCode(us)) + TailUnits(us)
  {
    if StartsPair(us) {
      PairUnits(us[0], us[1]);
      assert us == [us[0], us[1]] + us[2..];
    } else {
      UnitCode(us[0]);
      assert us == [us[0]] + us[1..];
    }
  }

  /** Any code units, unpaired surrogates included, come back from their UTF-8 form. */
  lemma {:induction false} DecodeEncode(us: Text)
    ensures Decode(Encode(us)) == us
    decreases |us|
  {
    if us != [] {
      EncodeHead(us);
      StepEmit(HeadCode(us), Encode(TailUnits(us)));
      DecodeEncode(TailUnits(us));
    }
  }

  // ----- Bytes survive the trip through code units exactly when they are canonical -----

  predicate IsHighCode(cp: Code) {
    0xD800 <= cp <= 0xDBFF
  }

  predicate IsLowCode(cp: Code) {
    0xDC00 <= cp <= 0xDFFF
  }

  /**
    * Every step reads a code point of the Unicode range from exactly the bytes that encode it, and
    * no encoded high surrogate is followed by an encoded low one.
    */
  predicate Canonical(bs: Bytes) {
    bs == [] ||
    (var n, cp := StepLength(bs), StepCode(bs);
     && cp <= 0x10_FFFF && Emit(cp) == bs[..n]
     && !(IsHighCode(cp) && n < |bs| && IsLowCode(StepCode(bs[n..])))
     && Canonical(bs[n..]))
  }

  lemma {:induction false} PairOf(cp: Code)
    requires 0xFFFF < cp <= 0x10_FFFF
    ensures IsHigh(HighOf(cp)) && IsLow(LowOf(cp)) && PairCode(HighOf(cp), LowOf(cp)) == cp
  {
  }

  lemma {:induction false} HighIsNotLow(cp: Code)
    ensures IsHigh(HighOf(cp)) && !IsLow(HighOf(cp))
  {
  }

  lemma {:induction false} UnitCode(u: Unit)
    ensures u as Code <= 0xFFFF && (u as Code) as Unit == u
    ensures IsHigh(u) <==> IsHighCode(u as Code)
    ensures IsLow(u) <==> IsLowCode(u as Code)
  {
  }

  lemma {:induction false} CodeUnit(cp: Code)
    requires cp <= 0xFFFF
    ensures (cp as Unit) as Code == cp
    ensures IsHigh(cp as Unit) <==> IsHighCode(cp)
    ensures IsLow(cp as Unit) <==> IsLowCode(cp)
  {
  }

  lemma {:induction false} FirstUnitLow(cp: Code)
    ensures IsLow(UnitsOf(cp)[0]) ==> IsLowCode(cp)
  {
    if cp <= 0xFFFF {
      CodeUnit(cp);
    } else {
      HighIsNotLow(cp);
    }
  }

  lemma {:induction false} EncodeSingle(u: Unit, us: Text)
    requires !StartsPair([u] + us)
    ensures Encode([u] + us) == Emit(u as Code) + Encode(us)
  {
    assert ([u] + us)[1..] == us;
  }

  lemma {:induction false} EncodePair(hi: Unit, lo: Unit, us: Text)
    requires IsHigh(hi) && IsLow(lo)
    ensures Encode([hi, lo] + us) == Emit(PairCode(hi, lo)) + Encode(us)
  {
    assert ([hi, lo] + us)[2..] == us;
  }

  lemma {:induction false} EncodeUnits(cp: Code, us: Text)
    requires cp <= 0x10_FFFF
    requires IsHighCode(cp) && us != [] ==> !IsLow(us[0])
    ensures Encode(UnitsOf(cp) + us) == Emit(cp) + Encode(us)
  {
    if cp <= 0xFFFF {
      CodeUnit(cp);
      EncodeSingle(cp as Unit, us);
    } else {
      PairOf(cp);
      EncodePair(HighOf(cp), LowOf(cp), us);
    }
  }

  lemma {:induction false} CanonicalReencodes(bs: Bytes)
    requires Canonical(bs)
    ensures Encode(Decode(bs)) == bs
    decreases |bs|
  {
    if bs != [] {
      var n, cp := StepLength(bs), StepCode(bs);
      var rest := bs[n..];
      CanonicalReencodes(rest);
      if rest != [] {
        DecodeHead(rest);
      }
      EncodeUnits(cp, Decode(rest));
      Rejoin(bs, n);
    }
  }

  lemma {:induction false} Rejoin(bs: Bytes, n: nat)
    requires n <= |bs|
    ensures bs[..n] + bs[n..] == bs
  {
  }

  lemma {:induction false} DecodeHead(bs: Bytes)
    requires bs != []
    ensures Decode(bs) != [] && (IsLow(Decode(bs)[0]) ==> IsLowCode(StepCode(bs)))
  {
    FirstUnitLow(StepCode(bs));
    assert Decode(bs)[0] == UnitsOf(StepCode(bs))[0];
  }

  lemma {:induction false} EncodedIsCanonical(us: Text)
    ensures Canonical(Encode(us))
    decreases |us|
  {
    if us != [] {
      var cp, tail := HeadCode(us), TailUnits(us);
      EncodeHead(us);
      StepEmit(cp, Encode(tail));
      EncodedIsCanonical(tail);
      if tail != [] {
        EncodeHead(tail);
        StepEmit(HeadCode(tail), Encode(TailUnits(tail)));
        HighNotBeforeLow(us);
      }
    }
  }

  lemma {:induction false} HighNotBeforeLow(us: Text)
    requires us != [] && TailUnits(us) != []
    ensures !(IsHighCode(HeadCode(us)) && IsLowCode(HeadCode(TailUnits(us))))
  {
    if StartsPair(us) {
      PairUnits(us[0], us[1]);
    } else {
      UnitCode(us[0]);
      var tail := TailUnits(us);
      if StartsPair(tail) {
        PairUnits(tail[0], tail[1]);
      } else {
        UnitCode(tail[0]);
      }
    }
  }

  /** Exactly the canonical byte strings re-encode to themselves. */
  lemma {:induction false} ReencodesIffCanonical(bs: Bytes)
    ensures Encode(Decode(bs)) == bs <==> Canonical(bs)
  {
    if Canonical(bs) {
      CanonicalReencodes(bs);
    }
    EncodedIsCanonical(Decode(bs));
  }

  // ----- Well-formed UTF-8 (RFC 3629, section 4) -----

  predicate Between(b: Byte, lo: Byte, hi: Byte) {
    lo <= b <= hi
  }

  predicate ThreeBytes(a: Byte, b: Byte, c: Byte) {
    && Between(c, 0x80, 0xBF)
    && (|| (a == 0xE0 && Between(b, 0xA0, 0xBF))
        || (Between(a, 0xE1, 0xEC) && Between(b, 0x80, 0xBF))
        || (a == 0xED && Between(b, 0x80, 0x9F))
        || (Between(a, 0xEE, 0xEF) && Between(b, 0x80, 0xBF)))
  }

  predicate FourBytes(a: Byte, b: Byte, c: Byte, d: Byte) {
    && Between(c, 0x80, 0xBF) && Between(d, 0x80, 0xBF)
    && (|| (a == 0xF0 && Between(b, 0x90, 0xBF))
        || (Between(a, 0xF1, 0xF3) && Between(b, 0x80, 0xBF))
        || (a == 0xF4 && Between(b, 0x80, 0x8F)))
  }

  /** The length of the character of the grammar at the head, or 0 when there is none. */
  function CharLength(bs: Bytes): (n: nat)
    ensures n <= |bs|
  {
    if bs == [] then 0
    else if Between(bs[0], 0x00, 0x7F) then 1
    else if |bs| >= 2 && Between(bs[0], 0xC2, 0xDF) && Between(bs[1], 0x80, 0xBF) then 2
    else if |bs| >= 3 && ThreeBytes(bs[0], bs[1], bs[2]) then 3
    else if |bs| >= 4 && FourBytes(bs[0], bs[1], bs[2], bs[3]) then 4
    else 0
  }

  predicate WellFormed(bs: Bytes) {
    bs == [] || (CharLength(bs) > 0 && WellFormed(bs[CharLength(bs)..]))
  }

  lemma {:induction false} CharStep(bs: Bytes)
    requires CharLength(bs) > 0
    ensures StepLength(bs) == CharLength(bs) && StepCode(bs) <= 0x10_FFFF
    ensures !IsHighCode(StepCode(bs)) && !IsLowCode(StepCode(bs))
    ensures Emit(StepCode(bs)) == bs[..CharLength(bs)]
  {
    var n := CharLength(bs);
    if n == 1 {
      CharStep1(bs);
    } else if n == 2 {
      CharStep2(bs);
    } else if n == 3 {
      CharStep3(bs);
    } else {
      CharStep4(bs);
    }
  }

  lemma {:induction false} CharStep1(bs: Bytes)
    requires CharLength(bs) == 1
    ensures StepLength(bs) == 1 && StepCode(bs) <= 0x10_FFFF
    ensures !IsHighCode(StepCode(bs)) && !IsLowCode(StepCode(bs))
    ensures Emit(StepCode(bs)) == bs[..1]
  {
    TakeFour(bs);
    OneChar(bs[0]);
  }

  lemma {:induction false} CharStep2(bs: Bytes)
    requires CharLength(bs) == 2
    ensures StepLength(bs) == 2 && StepCode(bs) <= 0x10_FFFF
    ensures !IsHighCode(StepCode(bs)) && !IsLowCode(StepCode(bs))
    ensures Emit(StepCode(bs)) == bs[..2]
  {
    TakeFour(bs);
    TwoChar(bs[0], bs[1]);
  }

  lemma {:induction false} CharStep3(bs: Bytes)
    requires CharLength(bs) == 3
    ensures StepLength(bs) == 3 && StepCode(bs) <= 0x10_FFFF
    ensures !IsHighCode(StepCode(bs)) && !IsLowCode(StepCode(bs))
    ensures Emit(StepCode(bs)) == bs[..3]
  {
    TakeFour(bs);
    ThreeChar(bs[0], bs[1], bs[2]);
  }

  lemma {:induction false} CharStep4(bs: Bytes)
    requires CharLength(bs) == 4
    ensures StepLength(bs) == 4 && StepCode(bs) <= 0x10_FFFF
    ensures !IsHighCode(StepCode(bs)) && !IsLowCode(StepCode(bs))
    ensures Emit(StepCode(bs)) == bs[..4]
  {
    TakeFour(bs);
    FourChar(bs[0], bs[1], bs[2], bs[3]);
  }

  lemma {:induction false} TakeFour(bs: Bytes)
    ensures |bs| >= 1 ==> bs[..1] == [bs[0]]
    ensures |bs| >= 2 ==> bs[..2] == [bs[0], bs[1]]
    ensures |bs| >= 3 ==> bs[..3] == [bs[0], bs[1], bs[2]]
    ensures |bs| >= 4 ==> bs[..4] == [bs[0], bs[1], bs[2], bs[3]]
  {
  }

  lemma {:induction false} OneChar(a: Byte)
    requires Between(a, 0x00, 0x7F)
    ensures a < 0x80 && a as Code <= 0x7F && (a as Code) as Byte == a
  {
  }

  lemma {:induction false} TwoChar(a: Byte, b: Byte)
    requires Between(a, 0xC2, 0xDF) && Between(b, 0x80, 0xBF)
    ensures IsLead2(a) && IsTail(b) && 0x7F < Code2(a, b) <= 0x7FF
    ensures Lead2(Code2(a, b)) == a && Tail(Code2(a, b)) == b
  {
  }

  lemma {:induction false} ThreeChar(a: Byte, b: Byte, c: Byte)
    requires ThreeBytes(a, b, c)
    ensures IsLead3(a) && IsTail(b) && IsTail(c) && 0x7FF < Code3(a, b, c) <= 0xFFFF
    ensures !IsHighCode(Code3(a, b, c)) && !IsLowCode(Code3(a, b, c))
    ensures Lead3(Code3(a, b, c)) == a && Tail(Code3(a, b, c) >> 6) == b && Tail(Code3(a, b, c)) == c
  {
  }

  lemma {:induction false} FourChar(a: Byte, b: Byte, c: Byte, d: Byte)
    requires FourBytes(a, b, c, d)
    ensures IsLead4(a) && IsTail(b) && IsTail(c) && IsTail(d)
    ensures 0xFFFF < Code4(a, b, c, d) <= 0x10_FFFF
    ensures Lead4(Code4(a, b, c, d)) == a && Tail(Code4(a, b, c, d) >> 12) == b
    ensures Tail(Code4(a, b, c, d) >> 6) == c && Tail(Code4(a, b, c, d)) == d
  {
  }

  lemma {:induction false} WellFormedIsCanonical(bs: Bytes)
    requires WellFormed(bs)
    ensures Canonical(bs)
    decreases |bs|
  {
    if bs != [] {
      CharStep(bs);
      WellFormedIsCanonical(bs[CharLength(bs)..]);
    }
  }

  /** Well-formed UTF-8 comes back unchanged. */
  lemma {:induction false} EncodeDecode(bs: Bytes)
    requires WellFormed(bs)
    ensures Encode(Decode(bs)) == bs
  {
    WellFormedIsCanonical(bs);
    CanonicalReencodes(bs);
  }

  lemma {:induction false} UnitsFitStep(bs: Bytes)
    requires bs != []
    ensures |UnitsOf(StepCode(bs))| <= StepLength(bs)
  {
  }

  /** Whatever the bytes, decoding yields at most one code unit per byte. */
  lemma {:induction false} DecodeShortens(bs: Bytes)
    ensures |Decode(bs)| <= |bs|
    decreases |bs|
  {
    if bs != [] {
      UnitsFitStep(bs);
      DecodeShortens(bs[StepLength(bs)..]);
    }
  }
}
