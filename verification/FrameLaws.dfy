/** What the frame decoder accepts, and that its verdicts do not depend on how bytes arrive. */
module FrameLaws {
  import opened Options
  import opened Bytes
  import opened Frames

  // ----- Later bytes never change a verdict -----

  lemma {:induction false} NumberStable(buf: Bytes, more: Bytes, at: nat, n: nat)
    requires at + n <= |buf|
    ensures Number(buf + more, at, n) == Number(buf, at, n)
  {
    NumberAgrees(buf, at, buf + more, at, n);
  }

  lemma {:induction false} HeaderStable(buf: Bytes, more: Bytes)
    requires !ParseHeader(buf).Short?
    ensures ParseHeader(buf + more) == ParseHeader(buf)
  {
    var all := buf + more;
    assert all[0] == buf[0] && all[1] == buf[1];
    if |buf| >= 4 {
      NumberStable(buf, more, 2, 2);
    }
    if |buf| >= 10 {
      NumberStable(buf, more, 2, 8);
    }
  }

  lemma {:induction false} PayloadStable(buf: Bytes, more: Bytes, masked: bool, size: nat, len: nat)
    requires (if masked then size + 4 else size) + len <= |buf|
    ensures PayloadAt(buf + more, masked, size, len) == PayloadAt(buf, masked, size, len)
  {
    var all := buf + more;
    assert all[size..size + len] == buf[size..size + len];
    if masked {
      assert all[size..size + 4] == buf[size..size + 4];
      assert all[size + 4..size + 4 + len] == buf[size + 4..size + 4 + len];
    }
  }

  /** A success or an error stays what it is when more bytes follow. */
  lemma {:induction false} VerdictStable(buf: Bytes, more: Bytes, requireMask: bool)
    requires !Decode(buf, requireMask).NeedMore?
    ensures Decode(buf + more, requireMask) == Decode(buf, requireMask)
  {
    HeaderStable(buf, more);
    if Decode(buf, requireMask).Decoded? {
      var h := ParseHeader(buf);
      PayloadStable(buf, more, h.masked, h.size, h.len);
    }
  }

  lemma {:induction false} TakenIsPresent(buf: Bytes, requireMask: bool)
    requires Decode(buf, requireMask).Decoded?
    ensures 2 <= Decode(buf, requireMask).taken <= |buf|
  {
  }

  // ----- Decoding what was encoded -----

  lemma {:induction false} EightBytes()
    ensures Pow256(2) == 0x1_0000 && Pow256(8) == 0x1_0000_0000_0000_0000
  {
    assert Pow256(3) == 0x100_0000;
    assert Pow256(5) == 0x100_0000_0000;
    assert Pow256(7) == 0x100_0000_0000_0000;
  }

  function Lead(form: LengthForm, fin: bool, opcode: nat, masked: bool, len: nat): Bytes
    requires Holds(form, len)
  {
    [(if fin then 128 else 0) + opcode % 16] + LengthField(form, masked, len)
  }

  lemma {:induction false} HeaderOfDirect(fin: bool, opcode: nat, masked: bool, len: nat)
    requires len < 126 && opcode < 16
    ensures ParseHeader([(if fin then 128 else 0) + opcode % 16] + [(if masked then 128 else 0) + len])
         == Parsed(fin, opcode, masked, len, 2)
  {
  }

  lemma {:induction false} HeaderOfTwo(fin: bool, opcode: nat, masked: bool, field: Bytes)
    requires opcode < 16 && |field| == 2
    ensures var lead := [(if fin then 128 else 0) + opcode % 16] + ([(if masked then 128 else 0) + 126] + field);
            ParseHeader(lead) == Parsed(fin, opcode, masked, Number(lead, 2, 2), 4)
  {
  }

  lemma {:induction false} HeaderOfEight(fin: bool, opcode: nat, masked: bool, field: Bytes)
    requires opcode < 16 && |field| == 8
    ensures var lead := [(if fin then 128 else 0) + opcode % 16] + ([(if masked then 128 else 0) + 127] + field);
            Number(lead, 2, 8) < 0x8000_0000_0000_0000 ==>
              ParseHeader(lead) == Parsed(fin, opcode, masked, Number(lead, 2, 8), 10)
  {
  }

  lemma {:induction false} HeaderOfLead(form: LengthForm, fin: bool, opcode: nat, masked: bool,
                                        len: nat)
    requires Holds(form, len) && opcode < 16
    ensures ParseHeader(Lead(form, fin, opcode, masked, len))
         == Parsed(fin, opcode, masked, len, |Lead(form, fin, opcode, masked, len)|)
  {
    var b0, bit := (if fin then 128 else 0) + opcode % 16, if masked then 128 else 0;
    match form {
      case Direct =>
        HeaderOfDirect(fin, opcode, masked, len);
      case Two =>
        FieldNumber(b0, bit + 126, len, 2);
        HeaderOfTwo(fin, opcode, masked, BigEndian(len, 2));
      case Eight =>
        FieldNumber(b0, bit + 127, len, 8);
        HeaderOfEight(fin, opcode, masked, BigEndian(len, 8));
    }
  }

  lemma {:induction false} FieldNumber(b0: Byte, b1: Byte, len: nat, n: nat)
    requires (n == 2 && len < 0x1_0000) || (n == 8 && len < 0x8000_0000_0000_0000)
    ensures Number([b0] + ([b1] + BigEndian(len, n)), 2, n) == len
  {
    EightBytes();
    NumberOfBigEndian(len, n);
    NumberAgrees([b0] + ([b1] + BigEndian(len, n)), 2, BigEndian(len, n), 0, n);
  }

  /** The verdict on a whole frame, in the order the decoder looks for faults. */
  function Expected(masked: bool, f: Frame, size: nat, requireMask: bool): Verdict {
    if requireMask && !masked then Rejected(NotMasked)
    else if |f.payload| > MAX_FRAME_BYTES then Rejected(TooLong)
    else if f.opcode >= 8 && !f.fin then Rejected(FragmentedControl)
    else if f.opcode >= 8 && |f.payload| > 125 then Rejected(OversizedControl)
    else Decoded(f, size)
  }

  /**
    * A frame on the wire, in any length form, with any key, followed by anything: the decoder gives
    * the frame back and takes exactly its bytes, or names the fault.
    */
  lemma {:induction false} DecodeWire(form: LengthForm, mask: Option<Bytes>, f: Frame, tail: Bytes,
                                      requireMask: bool)
    requires Holds(form, |f.payload|) && (mask.Some? ==> |mask.value| == 4) && f.opcode < 16
    ensures var w := Wire(form, mask, f);
            Decode(w + tail, requireMask) == Expected(mask.Some?, f, |w|, requireMask)
  {
    DecodeWhole(form, mask, f, requireMask);
    VerdictStable(Wire(form, mask, f), tail, requireMask);
  }

  lemma {:induction false} DecodeWhole(form: LengthForm, mask: Option<Bytes>, f: Frame, requireMask: bool)
    requires Holds(form, |f.payload|) && (mask.Some? ==> |mask.value| == 4) && f.opcode < 16
    ensures var w := Wire(form, mask, f);
            Decode(w, requireMask) == Expected(mask.Some?, f, |w|, requireMask)
  {
    WireHeader(form, mask, f);
    WirePayload(form, mask, f);
  }

  lemma {:induction false} WireHeader(form: LengthForm, mask: Option<Bytes>, f: Frame)
    requires Holds(form, |f.payload|) && (mask.Some? ==> |mask.value| == 4) && f.opcode < 16
    ensures ParseHeader(Wire(form, mask, f))
         == Parsed(f.fin, f.opcode, mask.Some?, |f.payload|,
                   |Lead(form, f.fin, f.opcode, mask.Some?, |f.payload|)|)
  {
    var lead := Lead(form, f.fin, f.opcode, mask.Some?, |f.payload|);
    var rest := (if mask.Some? then mask.value else []) + Body(mask, f.payload);
    WireParts(form, mask, f);
    HeaderOfLead(form, f.fin, f.opcode, mask.Some?, |f.payload|);
    HeaderStable(lead, rest);
  }

  lemma {:induction false} WireParts(form: LengthForm, mask: Option<Bytes>, f: Frame)
    requires Holds(form, |f.payload|) && (mask.Some? ==> |mask.value| == 4)
    ensures Wire(form, mask, f)
         == Lead(form, f.fin, f.opcode, mask.Some?, |f.payload|)
            + ((if mask.Some? then mask.value else []) + Body(mask, f.payload))
  {
  }

  lemma {:induction false} WirePayload(form: LengthForm, mask: Option<Bytes>, f: Frame)
    requires Holds(form, |f.payload|) && (mask.Some? ==> |mask.value| == 4)
    ensures var w := Wire(form, mask, f);
            var size := |Lead(form, f.fin, f.opcode, mask.Some?, |f.payload|)|;
            && |w| == (if mask.Some? then size + 4 else size) + |f.payload|
            && PayloadAt(w, mask.Some?, size, |f.payload|) == f.payload
  {
    var w := Wire(form, mask, f);
    var lead := Lead(form, f.fin, f.opcode, mask.Some?, |f.payload|);
    if mask.Some? {
      KeyAndBody(lead, mask.value, Masked(f.payload, mask.value), w);
      MaskedTwice(f.payload, mask.value);
    } else {
      KeyAndBody(lead, [], f.payload, w);
    }
  }

  lemma {:induction false} KeyAndBody(lead: Bytes, key: Bytes, body: Bytes, w: Bytes)
    requires w == lead + key + body
    ensures w[|lead|..|lead| + |key|] == key
    ensures w[|lead| + |key|..|lead| + |key| + |body|] == body
  {
  }

  /** Nothing shorter decodes than what decodes to its very end. */
  lemma {:induction false} StrictPrefixWaits(w: Bytes, p: nat, requireMask: bool)
    requires p < |w| && Decode(w, requireMask).Decoded? && Decode(w, requireMask).taken == |w|
    ensures Decode(w[..p], requireMask) == NeedMore
  {
    if !Decode(w[..p], requireMask).NeedMore? {
      assert w[..p] + w[p..] == w;
      VerdictStable(w[..p], w[p..], requireMask);
      TakenIsPresent(w[..p], requireMask);
      assert false;
    }
  }

  /** A strict prefix of an acceptable frame asks for more, and the buffer is left alone. */
  lemma {:induction false} PrefixNeedsMore(form: LengthForm, mask: Option<Bytes>, f: Frame, p: nat,
                                           requireMask: bool)
    requires Holds(form, |f.payload|) && (mask.Some? ==> |mask.value| == 4) && f.opcode < 16
    requires p < |Wire(form, mask, f)|
    requires Expected(mask.Some?, f, |Wire(form, mask, f)|, requireMask).Decoded?
    ensures Decode(Wire(form, mask, f)[..p], requireMask) == NeedMore
  {
    DecodeWhole(form, mask, f, requireMask);
    StrictPrefixWaits(Wire(form, mask, f), p, requireMask);
  }

  // ----- Nothing else decodes -----

  lemma {:induction false} DirectIsLead(buf: Bytes)
    requires ParseHeader(buf).Parsed? && buf[1] % 128 < 126
    ensures var h := ParseHeader(buf);
            Holds(Direct, h.len) && buf[..h.size] == Lead(Direct, h.fin, h.opcode, h.masked, h.len)
  {
    FirstByte(buf[0]);
    assert buf[..2] == [buf[0]] + [buf[1]];
  }

  lemma {:induction false} TwoIsLead(buf: Bytes)
    requires ParseHeader(buf).Parsed? && buf[1] % 128 == 126
    ensures var h := ParseHeader(buf);
            Holds(Two, h.len) && buf[..h.size] == Lead(Two, h.fin, h.opcode, h.masked, h.len)
  {
    ShortHeader(buf);
    FirstByte(buf[0]);
    LengthIsField(buf, 2);
  }

  lemma {:induction false} ShortHeader(buf: Bytes)
    requires ParseHeader(buf).Parsed? && buf[1] % 128 == 126
    ensures |buf| >= 4 && buf[0] / 16 % 8 == 0
    ensures ParseHeader(buf) == Parsed(buf[0] >= 128, buf[0] % 16, buf[1] >= 128, Number(buf, 2, 2), 4)
    ensures buf[1] == (if buf[1] >= 128 then 128 else 0) + 126
  {
  }

  lemma {:induction false} EightIsLead(buf: Bytes)
    requires ParseHeader(buf).Parsed? && buf[1] % 128 == 127
    ensures var h := ParseHeader(buf);
            Holds(Eight, h.len) && buf[..h.size] == Lead(Eight, h.fin, h.opcode, h.masked, h.len)
  {
    LongHeader(buf);
    FirstByte(buf[0]);
    LengthIsField(buf, 8);
  }

  lemma {:induction false} LongHeader(buf: Bytes)
    requires ParseHeader(buf).Parsed? && buf[1] % 128 == 127
    ensures |buf| >= 10 && Number(buf, 2, 8) < 0x8000_0000_0000_0000 && buf[0] / 16 % 8 == 0
    ensures ParseHeader(buf) == Parsed(buf[0] >= 128, buf[0] % 16, buf[1] >= 128, Number(buf, 2, 8), 10)
    ensures buf[1] == (if buf[1] >= 128 then 128 else 0) + 127
  {
  }

  lemma {:induction false} HeaderIsLead(buf: Bytes) returns (form: LengthForm)
    requires ParseHeader(buf).Parsed?
    ensures var h := ParseHeader(buf);
            && Holds(form, h.len)
            && buf[..h.size] == Lead(form, h.fin, h.opcode, h.masked, h.len)
  {
    if buf[1] % 128 < 126 {
      form := Direct;
      DirectIsLead(buf);
    } else if buf[1] % 128 == 126 {
      form := Two;
      TwoIsLead(buf);
    } else {
      form := Eight;
      EightIsLead(buf);
    }
  }

  lemma {:induction false} LengthIsField(buf: Bytes, n: nat)
    requires |buf| >= 2 + n && (n == 2 || n == 8)
    ensures Number(buf, 2, 2) < 0x1_0000
    ensures buf[..2 + n] == [buf[0]] + ([buf[1]] + BigEndian(Number(buf, 2, n), n))
  {
    EightBytes();
    BigEndianOfNumber(buf, 2, n);
    assert buf[..2 + n] == [buf[0]] + ([buf[1]] + buf[2..2 + n]);
  }

  lemma {:induction false} FirstByte(b: Byte)
    requires b / 16 % 8 == 0
    ensures b == (if b >= 128 then 128 else 0) + b % 16
  {
  }

  /** Every decoded frame stood at the head of the buffer in some wire form. */
  lemma {:induction false} DecodedIsWire(buf: Bytes, requireMask: bool)
    returns (form: LengthForm, mask: Option<Bytes>)
    requires Decode(buf, requireMask).Decoded?
    ensures var v := Decode(buf, requireMask);
            && Holds(form, |v.frame.payload|) && (mask.Some? ==> |mask.value| == 4)
            && v.frame.opcode < 16 && (requireMask ==> mask.Some?)
            && v.taken <= |buf| && buf[..v.taken] == Wire(form, mask, v.frame)
  {
    var h := ParseHeader(buf);
    form := HeaderIsLead(buf);
    mask := if h.masked then Some(buf[h.size..h.size + 4]) else None;
    PartsAreWire(buf, form, mask, h, Decode(buf, requireMask).frame.payload);
  }

  lemma {:induction false} PartsAreWire(buf: Bytes, form: LengthForm, mask: Option<Bytes>, h: Header,
                                        payload: Bytes)
    requires h.Parsed? && Holds(form, h.len) && h.len == |payload|
    requires (if h.masked then h.size + 4 else h.size) + h.len <= |buf|
    requires buf[..h.size] == Lead(form, h.fin, h.opcode, h.masked, h.len)
    requires mask == if h.masked then Some(buf[h.size..h.size + 4]) else None
    requires payload == PayloadAt(buf, h.masked, h.size, h.len)
    ensures buf[..(if h.masked then h.size + 4 else h.size) + h.len]
         == Wire(form, mask, Frame(h.fin, h.opcode, payload))
  {
    var at := if h.masked then h.size + 4 else h.size;
    var key := if mask.Some? then mask.value else [];
    WireParts(form, mask, Frame(h.fin, h.opcode, payload));
    MaskFound(buf, mask, h.masked, h.size);
    BodyFound(buf, mask, h.masked, h.size, h.len);
    Cut(buf, h.size, at, at + h.len, Lead(form, h.fin, h.opcode, h.masked, h.len), key, Body(mask, payload));
  }

  lemma {:induction false} MaskFound(buf: Bytes, mask: Option<Bytes>, masked: bool, size: nat)
    requires (if masked then size + 4 else size) <= |buf|
    requires mask == if masked then Some(buf[size..size + 4]) else None
    ensures (if mask.Some? then mask.value else []) == buf[size..if masked then size + 4 else size]
  {
  }

  /** The payload in the buffer, masked again, is what stands there. */
  lemma {:induction false} BodyFound(buf: Bytes, mask: Option<Bytes>, masked: bool, size: nat, len: nat)
    requires (if masked then size + 4 else size) + len <= |buf|
    requires mask == if masked then Some(buf[size..size + 4]) else None
    ensures var at := if masked then size + 4 else size;
            Body(mask, PayloadAt(buf, masked, size, len)) == buf[at..at + len]
  {
    if masked {
      MaskedTwice(buf[size + 4..size + 4 + len], buf[size..size + 4]);
    }
  }

  lemma {:induction false} Cut(buf: Bytes, i: nat, j: nat, k: nat, x: Bytes, y: Bytes, z: Bytes)
    requires i <= j <= k <= |buf| && buf[..i] == x && y == buf[i..j] && z == buf[j..k]
    ensures buf[..k] == x + (y + z)
  {
  }
}
