/** Bit-level view of a register value, and the single-field transforms that
    the field helpers hand to the read-modify-write engine: set, clear or toggle
    a one-bit field, replace a multi-bit field. A register value is a natural
    number below 2^8, 2^16 or 2^32; bit `i` is the remainder modulo 2 after `i`
    halvings. Each transform is the usual mask operation written on integers
    (`v | 1 << o` is `v + 2^o` when bit `o` is clear), and its contract says,
    bit by bit, which bits change and which keep their value. */
module Bitfield {

  /** Widths a register value can have. */
  datatype Width = W8 | W16 | W32 {
    function Bits(): (n: nat)
      ensures n == 8 || n == 16 || n == 32
    {
      match this
      case W8 => 8
      case W16 => 16
      case W32 => 32
    }
  }

  /** A field: `width` bits starting at bit `offset` of its register. */
  datatype Field = Field(offset: nat, width: nat)

  /** The field descriptor invariant: a field is non-empty and lies inside a
      register of width `w`. */
  predicate FieldWithin(f: Field, w: Width) {
    1 <= f.width && f.offset + f.width <= w.Bits()
  }

  /** A field that the single-bit helpers accept: one bit inside the register. */
  predicate BitField(f: Field, w: Width) {
    FieldWithin(f, w) && f.width == 1
  }

  function Pow2(n: nat): (p: nat)
    ensures p >= 1
    ensures n >= 1 ==> p % 2 == 0
  {
    if n == 0 then 1 else 2 * Pow2(n - 1)
  }

  /** Bit `i` of `v`; bit 0 is the least significant. */
  predicate BitAt(v: nat, i: nat) {
    if i == 0 then v % 2 == 1 else BitAt(v / 2, i - 1)
  }

  /** `v` is a value of a register of width `w`: no bit at or above `w` is set. */
  predicate Fits(v: nat, w: Width) {
    v < Pow2(w.Bits())
  }

  /** `v` with bit `offset` forced to one; every other bit as in `v`. */
  function SetBit(v: nat, offset: nat): (r: nat)
    ensures forall i: nat {:trigger BitAt(r, i)} :: BitAt(r, i) == (i == offset || BitAt(v, i))
  {
    if BitAt(v, offset) then v
    else
      AddBit(v, offset);
      v + Pow2(offset)
  }

  /** `v` with bit `offset` forced to zero; every other bit as in `v`. */
  function ClearBit(v: nat, offset: nat): (r: nat)
    ensures forall i: nat {:trigger BitAt(r, i)} :: BitAt(r, i) == (i != offset && BitAt(v, i))
  {
    if BitAt(v, offset) then
      RemoveBit(v, offset);
      v - Pow2(offset)
    else v
  }

  /** `v` with bit `offset` flipped; every other bit as in `v`. */
  function ToggleBit(v: nat, offset: nat): (r: nat)
    ensures forall i: nat {:trigger BitAt(r, i)} :: BitAt(r, i) == (if i == offset then !BitAt(v, i) else BitAt(v, i))
  {
    if BitAt(v, offset) then
      RemoveBit(v, offset);
      v - Pow2(offset)
    else
      AddBit(v, offset);
      v + Pow2(offset)
  }

  /** `v` with the bits of field `f` replaced by the low `f.width` bits of
      `bits`; higher bits of `bits` are dropped, not rejected. The field is
      written from its lowest bit up. */
  function WriteBits(v: nat, f: Field, bits: nat): (r: nat)
    decreases f.width
    ensures forall i: nat {:trigger BitAt(r, i)} ::
              BitAt(r, i) == (if f.offset <= i < f.offset + f.width
                              then BitAt(bits, i - f.offset) else BitAt(v, i))
  {
    if f.width == 0 then v
    else
      var low := if BitAt(bits, 0) then SetBit(v, f.offset) else ClearBit(v, f.offset);
      var r := WriteBits(low, Field(f.offset + 1, f.width - 1), bits / 2);
      assert forall j: nat :: BitAt(bits / 2, j) == BitAt(bits, j + 1);
      r
  }

  /** Adding 2^o to a value whose bit `o` is clear sets exactly that bit. */
  lemma AddBit(v: nat, o: nat)
    requires !BitAt(v, o)
    ensures forall i: nat {:trigger BitAt(v + Pow2(o), i)} :: BitAt(v + Pow2(o), i) == (i == o || BitAt(v, i))
  {
    forall i: nat ensures BitAt(v + Pow2(o), i) == (i == o || BitAt(v, i)) {
      AddBitAt(v, o, i);
    }
  }

  /** Bit `i` of `v + 2^o`, when bit `o` of `v` is clear. */
  lemma {:induction false} AddBitAt(v: nat, o: nat, i: nat)
    requires !BitAt(v, o)
    ensures BitAt(v + Pow2(o), i) == (i == o || BitAt(v, i))
    decreases i
  {
    var x := v + Pow2(o);
    if o == 0 {
      assert x / 2 == v / 2 && x % 2 == 1;
    } else {
      assert x == v + 2 * Pow2(o - 1);
      assert x / 2 == v / 2 + Pow2(o - 1) && x % 2 == v % 2;
      if i > 0 {
        AddBitAt(v / 2, o - 1, i - 1);
      }
    }
  }

  /** Subtracting 2^o from a value whose bit `o` is set clears exactly that bit. */
  lemma RemoveBit(v: nat, o: nat)
    requires BitAt(v, o)
    ensures v >= Pow2(o)
    ensures forall i: nat {:trigger BitAt(v - Pow2(o), i)} :: BitAt(v - Pow2(o), i) == (i != o && BitAt(v, i))
  {
    RemoveBitAt(v, o, 0);
    forall i: nat ensures BitAt(v - Pow2(o), i) == (i != o && BitAt(v, i)) {
      RemoveBitAt(v, o, i);
    }
  }

  /** Bit `i` of `v - 2^o`, when bit `o` of `v` is set. */
  lemma {:induction false} RemoveBitAt(v: nat, o: nat, i: nat)
    requires BitAt(v, o)
    ensures v >= Pow2(o)
    ensures BitAt(v - Pow2(o), i) == (i != o && BitAt(v, i))
    decreases o
  {
    if o == 0 {
      assert (v - 1) / 2 == v / 2 && (v - 1) % 2 == 0;
    } else {
      RemoveBitAt(v / 2, o - 1, if i > 0 then i - 1 else 0);
      var x := v - Pow2(o);
      assert x == v - 2 * Pow2(o - 1);
      assert x / 2 == v / 2 - Pow2(o - 1) && x % 2 == v % 2;
    }
  }

  /** Two values with the same bits are the same value. */
  lemma {:induction false} BitsDetermine(a: nat, b: nat)
    requires forall i: nat {:trigger BitAt(a, i)} {:trigger BitAt(b, i)} :: BitAt(a, i) == BitAt(b, i)
    ensures a == b
    decreases a + b
  {
    assert BitAt(a, 0) == BitAt(b, 0);
    if a != 0 || b != 0 {
      forall j: nat ensures BitAt(a / 2, j) == BitAt(b / 2, j) {
        assert BitAt(a, j + 1) == BitAt(b, j + 1);
      }
      BitsDetermine(a / 2, b / 2);
    }
  }

  /** Zero has no bit set. */
  lemma {:induction false} ZeroBits(i: nat)
    ensures !BitAt(0, i)
  {
    if i > 0 {
      ZeroBits(i - 1);
    }
  }

  /** No bit of `v` at or above `n` is set. */
  ghost predicate HighClear(v: nat, n: nat) {
    forall i: nat {:trigger BitAt(v, i)} :: n <= i ==> !BitAt(v, i)
  }

  /** A value is below 2^n exactly when none of its bits at or above n is set. */
  lemma {:induction false} BelowPow2(v: nat, n: nat)
    ensures v < Pow2(n) <==> HighClear(v, n)
    decreases n
  {
    if n == 0 {
      if v == 0 {
        forall i: nat ensures !BitAt(v, i) {
          ZeroBits(i);
        }
      } else {
        HasSomeBit(v);
      }
    } else {
      BelowPow2(v / 2, n - 1);
      if v < Pow2(n) {
        assert HighClear(v / 2, n - 1);
        forall i: nat | n <= i ensures !BitAt(v, i) {
          assert !BitAt(v / 2, i - 1);
        }
      } else {
        assert !HighClear(v / 2, n - 1);
        var k: nat :| n - 1 <= k && BitAt(v / 2, k);
        assert BitAt(v, k + 1);
      }
    }
  }

  /** A positive value has some bit set. */
  lemma {:induction false} HasSomeBit(v: nat)
    requires v > 0
    ensures exists i: nat {:trigger BitAt(v, i)} :: BitAt(v, i)
    decreases v
  {
    if v % 2 == 0 {
      HasSomeBit(v / 2);
      var k: nat :| BitAt(v / 2, k);
      assert BitAt(v, k + 1);
    } else {
      assert BitAt(v, 0);
    }
  }

  /** Setting, clearing, toggling or writing a field inside the register keeps
      a register value a register value. */
  lemma TransformsFit(v: nat, f: Field, bits: nat, w: Width)
    requires Fits(v, w) && FieldWithin(f, w)
    ensures Fits(SetBit(v, f.offset), w)
    ensures Fits(ClearBit(v, f.offset), w)
    ensures Fits(ToggleBit(v, f.offset), w)
    ensures Fits(WriteBits(v, f, bits), w)
  {
    BitWithinFits(v, SetBit(v, f.offset), f.offset, w);
    BitWithinFits(v, ClearBit(v, f.offset), f.offset, w);
    BitWithinFits(v, ToggleBit(v, f.offset), f.offset, w);
    FieldWithinFits(v, WriteBits(v, f, bits), f, w);
  }

  /** A value that differs from a register value in at most one bit inside
      the register is a register value. */
  lemma BitWithinFits(v: nat, r: nat, o: nat, w: Width)
    requires Fits(v, w) && o < w.Bits()
    requires forall i: nat {:trigger BitAt(r, i)} :: i != o ==> BitAt(r, i) == BitAt(v, i)
    ensures Fits(r, w)
  {
    BelowPow2(v, w.Bits());
    BelowPow2(r, w.Bits());
  }

  /** A value that differs from a register value only inside a field of the
      register is a register value. */
  lemma FieldWithinFits(v: nat, r: nat, f: Field, w: Width)
    requires Fits(v, w) && FieldWithin(f, w)
    requires forall i: nat {:trigger BitAt(r, i)} :: !(f.offset <= i < f.offset + f.width) ==> BitAt(r, i) == BitAt(v, i)
    ensures Fits(r, w)
  {
    BelowPow2(v, w.Bits());
    BelowPow2(r, w.Bits());
  }

  /** Toggling the same bit twice gives the original value back. */
  lemma ToggleTwice(v: nat, offset: nat)
    ensures ToggleBit(ToggleBit(v, offset), offset) == v
  {
    BitsDetermine(ToggleBit(ToggleBit(v, offset), offset), v);
  }

  /** Setting or clearing a bit only depends on the last write to it: a
      repeated set or clear changes nothing, and a set followed by a clear (or
      a clear followed by a set) is the second operation alone. */
  lemma LastBitWriteWins(v: nat, offset: nat)
    ensures SetBit(SetBit(v, offset), offset) == SetBit(v, offset)
    ensures ClearBit(ClearBit(v, offset), offset) == ClearBit(v, offset)
    ensures ClearBit(SetBit(v, offset), offset) == ClearBit(v, offset)
    ensures SetBit(ClearBit(v, offset), offset) == SetBit(v, offset)
  {
    BitsDetermine(ClearBit(SetBit(v, offset), offset), ClearBit(v, offset));
    BitsDetermine(SetBit(ClearBit(v, offset), offset), SetBit(v, offset));
  }

  /** Writing a field twice is the second write alone; in particular writing
      the same bits twice is the same as writing them once. */
  lemma LastFieldWriteWins(v: nat, f: Field, first: nat, second: nat)
    ensures WriteBits(WriteBits(v, f, first), f, second) == WriteBits(v, f, second)
  {
    BitsDetermine(WriteBits(WriteBits(v, f, first), f, second), WriteBits(v, f, second));
  }

  /** Fields that share no bit. */
  predicate Disjoint(f: Field, g: Field) {
    f.offset + f.width <= g.offset || g.offset + g.width <= f.offset
  }

  /** Writes to disjoint fields commute, and each leaves the other field as it was. */
  lemma DisjointWritesCommute(v: nat, f: Field, a: nat, g: Field, b: nat)
    requires Disjoint(f, g)
    ensures WriteBits(WriteBits(v, f, a), g, b) == WriteBits(WriteBits(v, g, b), f, a)
  {
    BitsDetermine(WriteBits(WriteBits(v, f, a), g, b), WriteBits(WriteBits(v, g, b), f, a));
  }

  /** A one-bit write of 1 is a set, of 0 a clear. */
  lemma OneBitWrite(v: nat, offset: nat)
    ensures WriteBits(v, Field(offset, 1), 1) == SetBit(v, offset)
    ensures WriteBits(v, Field(offset, 1), 0) == ClearBit(v, offset)
  {
    BitsDetermine(WriteBits(v, Field(offset, 1), 1), SetBit(v, offset));
    BitsDetermine(WriteBits(v, Field(offset, 1), 0), ClearBit(v, offset));
  }
}
