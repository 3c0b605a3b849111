/** WebSocket framing (RFC 6455, sections 5.2, 5.3 and 5.5): one frame to bytes and back. */
module Frames {
  import opened Options
  import opened Bytes

  const MAX_FRAME_BYTES: nat := 16 * 1024 * 1024

  datatype Frame = Frame(fin: bool, opcode: nat, payload: Bytes)

  /** The decoder's error texts. */
  datatype Error =
    | ReservedBits       // reserved WebSocket bits set
    | InvalidLength      // invalid WebSocket 64-bit length
    | NotMasked          // client WebSocket frames must be masked
    | TooLong            // WebSocket frame exceeds 16777216-byte limit
    | FragmentedControl  // fragmented WebSocket control frame
    | OversizedControl   // oversized WebSocket control frame

  /** `taken` bytes leave the buffer when a frame is decoded. */
  datatype Verdict = NeedMore | Rejected(error: Error) | Decoded(frame: Frame, taken: nat)

  // ----- The wire format -----

  /** The three ways to write a length: in seven bits, in two bytes, in eight bytes. */
  datatype LengthForm = Direct | Two | Eight

  predicate Holds(form: LengthForm, len: nat) {
    match form
    case Direct => len <= 125
    case Two => len < 0x1_0000
    case Eight => len < 0x8000_0000_0000_0000
  }

  function MinimalForm(len: nat): LengthForm {
    if len <= 125 then Direct else if len <= 65535 then Two else Eight
  }

  function LengthField(form: LengthForm, masked: bool, len: nat): (bs: Bytes)
    requires Holds(form, len)
  {
    var bit := if masked then 128 else 0;
    match form
    case Direct => [bit + len]
    case Two => [bit + 126] + BigEndian(len, 2)
    case Eight => [bit + 127] + BigEndian(len, 8)
  }

  function Masked(payload: Bytes, key: Bytes): (r: Bytes)
    requires |key| == 4
    ensures |r| == |payload|
  {
    seq(|payload|, i requires 0 <= i < |payload| => Xor(payload[i], key[i % 4]))
  }

  lemma {:induction false} MaskedTwice(payload: Bytes, key: Bytes)
    requires |key| == 4
    ensures Masked(Masked(payload, key), key) == payload
  {
    forall i | 0 <= i < |payload|
      ensures Masked(Masked(payload, key), key)[i] == payload[i]
    {
      XorTwice(payload[i], key[i % 4]);
    }
  }

  /** Everything before the payload. */
  function Head(form: LengthForm, fin: bool, opcode: nat, mask: Option<Bytes>, len: nat): Bytes
    requires Holds(form, len) && (mask.Some? ==> |mask.value| == 4)
  {
    [(if fin then 128 else 0) + opcode % 16] + LengthField(form, mask.Some?, len)
    + (if mask.Some? then mask.value else [])
  }

  function Body(mask: Option<Bytes>, payload: Bytes): Bytes
    requires mask.Some? ==> |mask.value| == 4
  {
    if mask.Some? then Masked(payload, mask.value) else payload
  }

  /** A frame on the wire. */
  function Wire(form: LengthForm, mask: Option<Bytes>, f: Frame): Bytes
    requires Holds(form, |f.payload|) && (mask.Some? ==> |mask.value| == 4)
  {
    Head(form, f.fin, f.opcode, mask, |f.payload|) + Body(mask, f.payload)
  }

  // ----- Encoding -----

  function KeyBytes(key: nat): (bs: Bytes)
    ensures |bs| == 4
  {
    BigEndian(key, 4)
  }

  method AppendBigEndian(out: Bytes, v: nat, n: nat) returns (r: Bytes)
    ensures r == out + BigEndian(v, n)
  {
    r := out;
    var i := n;
    while i > 0
      invariant 0 <= i <= n
      invariant r == out + BigEndian(ShiftBytes(v, i), n - i)
    {
      i := i - 1;
      r := r + [ShiftBytes(v, i) % 256];
    }
  }

  /** The length, in the shortest form. */
  method AppendLength(head: Bytes, len: nat, mask: bool) returns (out: Bytes)
    requires len < 0x8000_0000_0000_0000
    ensures out == head + LengthField(MinimalForm(len), mask, len)
  {
    out := head;
    var maskBit := if mask then 128 else 0;
    if len <= 125 {
      out := out + [maskBit + len];
    } else if len <= 65535 {
      out := out + [maskBit + 126];
      out := AppendBigEndian(out, len, 2);
    } else {
      out := out + [maskBit + 127];
      out := AppendBigEndian(out, len, 8);
    }
  }

  /** `encode_frame`: always final, always the shortest length form. */
  method EncodeFrame(payload: Bytes, opcode: nat, mask: bool, maskKey: nat) returns (out: Bytes)
    requires |payload| < 0x8000_0000_0000_0000
    ensures out == Wire(MinimalForm(|payload|), if mask then Some(KeyBytes(maskKey)) else None,
                        Frame(true, opcode, payload))
  {
    out := [128 + opcode % 16];
    var len := |payload|;
    out := AppendLength(out, len, mask);
    var key: Bytes := [];
    key := AppendBigEndian(key, maskKey, 4);
    if mask {
      out := out + key;
    }
    ghost var m := if mask then Some(KeyBytes(maskKey)) else None;
    HeadIs(out, MinimalForm(len), true, opcode, m, len);
    out := AppendPayload(out, payload, mask, key);
  }

  lemma {:induction false} HeadIs(
    out: Bytes, form: LengthForm, fin: bool, opcode: nat, mask: Option<Bytes>, len: nat)
    requires Holds(form, len) && (mask.Some? ==> |mask.value| == 4)
    requires var first := (if fin then 128 else 0) + opcode % 16;
             var lead := [first] + LengthField(form, mask.Some?, len);
             out == if mask.Some? then lead + mask.value else lead
    ensures out == Head(form, fin, opcode, mask, len)
  {
  }

  /** The encoder's payload loop. */
  method AppendPayload(head: Bytes, payload: Bytes, mask: bool, key: Bytes) returns (out: Bytes)
    requires |key| == 4
    ensures out == head + if mask then Masked(payload, key) else payload
  {
    out := head;
    var i := 0;
    ghost var body := if mask then Masked(payload, key) else payload;
    while i < |payload|
      invariant 0 <= i <= |payload|
      invariant out == head + body[..i]
    {
      var b := if mask then Xor(payload[i], key[i % 4]) else payload[i];
      out := out + [b];
      i := i + 1;
    }
  }

  // ----- Decoding -----

  datatype Header =
    | Short
    | Bad(error: Error)
    | Parsed(fin: bool, opcode: nat, masked: bool, len: nat, size: nat)

  /** The first bytes of a frame up to its length; `size` counts them. */
  function ParseHeader(buf: Bytes): (h: Header)
    ensures h.Parsed? ==> 2 <= h.size <= |buf| && h.opcode < 16
  {
    if |buf| < 2 then Short
    else if buf[0] / 16 % 8 != 0 then Bad(ReservedBits)
    else
      var fin, opcode := buf[0] >= 128, buf[0] % 16;
      var masked, n := buf[1] >= 128, buf[1] % 128;
      if n == 126 then
        if |buf| < 4 then Short else Parsed(fin, opcode, masked, Number(buf, 2, 2), 4)
      else if n == 127 then
        if |buf| < 10 then Short
        else if Number(buf, 2, 8) >= 0x8000_0000_0000_0000 then Bad(InvalidLength)
        else Parsed(fin, opcode, masked, Number(buf, 2, 8), 10)
      else Parsed(fin, opcode, masked, n, 2)
  }

  function Decode(buf: Bytes, requireMask: bool): (v: Verdict) {
    match ParseHeader(buf)
    case Short => NeedMore
    case Bad(e) => Rejected(e)
    case Parsed(fin, opcode, masked, len, size) =>
      if requireMask && !masked then Rejected(NotMasked)
      else
        var at := if masked then size + 4 else size;
        if at > |buf| then NeedMore
        else if len > MAX_FRAME_BYTES then Rejected(TooLong)
        else if at + len > |buf| then NeedMore
        else if opcode >= 8 && !fin then Rejected(FragmentedControl)
        else if opcode >= 8 && len > 125 then Rejected(OversizedControl)
        else
          Decoded(Frame(fin, opcode, PayloadAt(buf, masked, size, len)), at + len)
  }

  /** The `len` payload bytes after a header of `size` bytes, unmasked with the key in between. */
  function PayloadAt(buf: Bytes, masked: bool, size: nat, len: nat): Bytes
    requires (if masked then size + 4 else size) + len <= |buf|
  {
    if masked then Masked(buf[size + 4..size + 4 + len], buf[size..size + 4])
    else buf[size..size + len]
  }

  /** The first half of `decode_frame_from_buffer`, up to the length. */
  method ReadHeader(buffer: Bytes) returns (h: Header)
    ensures h == ParseHeader(buffer)
  {
    if |buffer| < 2 {
      return Short;
    }
    var b0, b1 := buffer[0], buffer[1];
    if b0 / 16 % 8 != 0 {
      return Bad(ReservedBits);
    }
    var len: nat := b1 % 128;
    var pos := 2;
    if len == 126 {
      if |buffer| < pos + 2 {
        return Short;
      }
      assert Number(buffer, 2, 2) == Number(buffer, 2, 1) * 256 + buffer[3];
      len := buffer[pos] as nat * 256 + buffer[pos + 1];
      pos := pos + 2;
    } else if len == 127 {
      if |buffer| < pos + 8 {
        return Short;
      }
      len := 0;
      var i := 0;
      while i < 8
        invariant 0 <= i <= 8 && len == Number(buffer, 2, i)
      {
        len := len * 256 + buffer[pos + i];
        i := i + 1;
      }
      pos := pos + 8;
      if len >= 0x8000_0000_0000_0000 {
        return Bad(InvalidLength);
      }
    }
    h := Parsed(b0 >= 128, b0 % 16, b1 >= 128, len, pos);
  }

  /** `decode_frame_from_buffer`: `rest` is what remains in the buffer. */
  method DecodeFrameFromBuffer(buffer: Bytes, requireMask: bool)
    returns (ok: bool, out: Frame, error: Option<Error>, rest: Bytes)
    ensures match Decode(buffer, requireMask)
            case NeedMore => !ok && error == None && rest == buffer
            case Rejected(e) => !ok && error == Some(e) && rest == buffer
            case Decoded(f, n) => ok && out == f && n <= |buffer| && rest == buffer[n..]
  {
    ok, out, error, rest := false, Frame(true, 0, []), None, buffer;
    var h := ReadHeader(buffer);
    if h.Short? {
      return;
    }
    if h.Bad? {
      error := Some(h.error);
      return;
    }
    var Parsed(fin, opcode, masked, len, size) := h;
    if requireMask && !masked {
      error := Some(NotMasked);
      return;
    }
    var pos := size;
    var key: Bytes := [0, 0, 0, 0];
    if masked {
      if |buffer| < pos + 4 {
        return;
      }
      key := buffer[pos..pos + 4];
      pos := pos + 4;
    }
    if len > MAX_FRAME_BYTES {
      error := Some(TooLong);
      return;
    }
    if len > |buffer| - pos {
      return;
    }
    if opcode >= 8 {
      if !fin {
        error := Some(FragmentedControl);
        return;
      }
      if len > 125 {
        error := Some(OversizedControl);
        return;
      }
    }
    var payload := Unmask(buffer, pos, size, len, masked, key);
    ok, out, rest := true, Frame(fin, opcode, payload), buffer[pos + len..];
  }

  /** The payload loop: copy, undoing the mask. */
  method Unmask(buffer: Bytes, pos: nat, ghost size: nat, len: nat, masked: bool, key: Bytes)
    returns (payload: Bytes)
    requires pos == (if masked then size + 4 else size) && pos + len <= |buffer| && |key| == 4
    requires masked ==> key == buffer[size..size + 4]
    ensures payload == PayloadAt(buffer, masked, size, len)
  {
    payload := [];
    var i := 0;
    while i < len
      invariant 0 <= i <= len && |payload| == i
      invariant forall k :: 0 <= k < i ==>
        payload[k] == if masked then Xor(buffer[pos + k], key[k % 4]) else buffer[pos + k]
    {
      var b := buffer[pos + i];
      payload := payload + [if masked then Xor(b, key[i % 4]) else b];
      i := i + 1;
    }
  }
}
