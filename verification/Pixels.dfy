/** A page of bytes in rows of equal length: reading one byte, writing a stretch of one row. */
module Pixels {
  import opened Bytes

  /** Where row `r` begins: `r` times the row length, added up. */
  function RowStart(r: nat, stride: nat): nat {
    if r == 0 then 0 else RowStart(r - 1, stride) + stride
  }

  lemma {:induction false} RowStartIsProduct(r: nat, stride: nat)
    ensures RowStart(r, stride) == r * stride
  {
    if r > 0 {
      RowStartIsProduct(r - 1, stride);
      assert r * stride == (r - 1) * stride + stride;
    }
  }

  lemma {:induction false} RowsInOrder(r: nat, s: nat, stride: nat)
    requires r < s
    ensures RowStart(r, stride) + stride <= RowStart(s, stride)
    decreases s
  {
    if r + 1 < s {
      RowsInOrder(r, s - 1, stride);
    }
  }

  /** The byte at row `r`, column `c`; 0 outside the page. */
  function At(px: Bytes, stride: nat, r: nat, c: nat): Byte {
    var i := RowStart(r, stride) + c;
    if c < stride && i < |px| then px[i] else 0
  }

  /** `px` with `row` written over the bytes from `o` on. */
  function Overwrite(px: Bytes, o: nat, row: Bytes): (r: Bytes)
    requires o + |row| <= |px|
    ensures |r| == |px|
  {
    px[..o] + row + px[o + |row|..]
  }

  /** Writing inside one row changes that stretch of that row and nothing else. */
  lemma {:induction false} OverwriteAt(px: Bytes, stride: nat, height: nat, y: nat, x: nat, row: Bytes,
                                       r: nat, c: nat)
    requires |px| == RowStart(height, stride) && y < height && r < height && c < stride
    requires x + |row| <= stride
    ensures RowStart(y, stride) + x + |row| <= |px|
    ensures At(Overwrite(px, RowStart(y, stride) + x, row), stride, r, c)
         == if r == y && x <= c < x + |row| then row[c - x] else At(px, stride, r, c)
  {
    RowsInOrder(y, height, stride);
    RowsInOrder(r, height, stride);
    if r < y {
      RowsInOrder(r, y, stride);
    } else if y < r {
      RowsInOrder(y, r, stride);
    }
  }

  /** `b` is `a` with the rows of `src`, `n` bytes each, written at row `y`, column `x`, `h` of them. */
  ghost predicate Blitted(a: Bytes, b: Bytes, stride: nat, height: nat, x: nat, y: nat, n: nat, h: nat,
                          src: Bytes)
  {
    && |b| == |a|
    && forall r, c {:trigger At(b, stride, r, c)} :: 0 <= r < height && 0 <= c < stride ==>
         At(b, stride, r, c)
         == if y <= r < y + h && x <= c < x + n then At(src, n, r - y, c - x)
            else At(a, stride, r, c)
  }

  lemma {:induction false} BlitRow(a: Bytes, b: Bytes, stride: nat, height: nat, x: nat, y: nat,
                                   n: nat, h: nat, src: Bytes)
    requires |a| == RowStart(height, stride) && y + h < height && x + n <= stride
    requires RowStart(h + 1, n) <= |src|
    requires Blitted(a, b, stride, height, x, y, n, h, src)
    ensures RowStart(y + h, stride) + x + n <= |b|
    ensures Blitted(a, Overwrite(b, RowStart(y + h, stride) + x, src[RowStart(h, n)..RowStart(h + 1, n)]),
                    stride, height, x, y, n, h + 1, src)
  {
    var row := src[RowStart(h, n)..RowStart(h + 1, n)];
    RowsInOrder(y + h, height, stride);
    var d := Overwrite(b, RowStart(y + h, stride) + x, row);
    forall r, c | 0 <= r < height && 0 <= c < stride
      ensures At(d, stride, r, c)
           == if y <= r < y + (h + 1) && x <= c < x + n then At(src, n, r - y, c - x)
              else At(a, stride, r, c)
    {
      OverwriteAt(b, stride, height, y + h, x, row, r, c);
    }
  }

  /** Row after row of `src`, each `n` bytes, copied to row `y` on, column `x`. */
  method Blit(px: Bytes, stride: nat, ghost height: nat, x: nat, y: nat, n: nat, h: nat, src: Bytes)
    returns (out: Bytes)
    requires |px| == RowStart(height, stride) && y + h <= height && x + n <= stride
    requires |src| == RowStart(h, n)
    ensures Blitted(px, out, stride, height, x, y, n, h, src)
  {
    out := px;
    var i := 0;
    while i < h
      invariant 0 <= i <= h
      invariant Blitted(px, out, stride, height, x, y, n, i, src)
    {
      if i + 1 < h {
        RowsInOrder(i, h, n);
        RowsInOrder(i + 1, h, n);
      }
      BlitRow(px, out, stride, height, x, y, n, i, src);
      out := Overwrite(out, RowStart(y + i, stride) + x, src[RowStart(i, n)..RowStart(i + 1, n)]);
      i := i + 1;
    }
  }
}
