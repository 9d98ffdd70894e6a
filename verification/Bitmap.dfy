/** Bitmaps over 32-bit words (libs/bitmap.c). */
module Bitmap {
  type Words = seq<bv32>

  // ----- one word, with the offset as the shift operand -----

  predicate BitOf(w: bv32, k: bv6)
    requires k < 32
  {
    w & ((1 as bv32) << k) != 0
  }

  function Or(w: bv32, k: bv6): bv32
    requires k < 32
  {
    w | ((1 as bv32) << k)
  }

  function AndNot(w: bv32, k: bv6): bv32
    requires k < 32
  {
    w & !((1 as bv32) << k)
  }

  function Xor(w: bv32, k: bv6): bv32
    requires k < 32
  {
    w ^ ((1 as bv32) << k)
  }

  lemma OrOther(w: bv32, k: bv6, j: bv6)
    requires k < 32 && j < 32 && k != j
    ensures (w | ((1 as bv32) << k)) & ((1 as bv32) << j) == w & ((1 as bv32) << j)
  {
  }

  lemma AndNotOther(w: bv32, k: bv6, j: bv6)
    requires k < 32 && j < 32 && k != j
    ensures (w & !((1 as bv32) << k)) & ((1 as bv32) << j) == w & ((1 as bv32) << j)
  {
  }

  lemma XorOther(w: bv32, k: bv6, j: bv6)
    requires k < 32 && j < 32 && k != j
    ensures (w ^ ((1 as bv32) << k)) & ((1 as bv32) << j) == w & ((1 as bv32) << j)
  {
  }

  lemma OrSame(w: bv32, k: bv6)
    requires k < 32
    ensures (w | ((1 as bv32) << k)) & ((1 as bv32) << k) != 0
  {
  }

  lemma AndNotSame(w: bv32, k: bv6)
    requires k < 32
    ensures (w & !((1 as bv32) << k)) & ((1 as bv32) << k) == 0
  {
  }

  lemma XorSets(w: bv32, k: bv6)
    requires k < 32 && w & ((1 as bv32) << k) == 0
    ensures (w ^ ((1 as bv32) << k)) & ((1 as bv32) << k) != 0
  {
  }

  lemma XorClears(w: bv32, k: bv6)
    requires k < 32 && w & ((1 as bv32) << k) != 0
    ensures (w ^ ((1 as bv32) << k)) & ((1 as bv32) << k) == 0
  {
  }

  lemma OrThenAndNot(w: bv32, k: bv6)
    requires k < 32 && w & ((1 as bv32) << k) == 0
    ensures (w | ((1 as bv32) << k)) & !((1 as bv32) << k) == w
  {
  }

  lemma OrBit(w: bv32, k: bv6, j: bv6)
    requires k < 32 && j < 32
    ensures BitOf(Or(w, k), j) <==> j == k || BitOf(w, j)
  {
    if j == k { OrSame(w, k); } else { OrOther(w, k, j); }
  }

  lemma AndNotBit(w: bv32, k: bv6, j: bv6)
    requires k < 32 && j < 32
    ensures BitOf(AndNot(w, k), j) <==> j != k && BitOf(w, j)
  {
    if j == k { AndNotSame(w, k); } else { AndNotOther(w, k, j); }
  }

  lemma XorBit(w: bv32, k: bv6, j: bv6)
    requires k < 32 && j < 32
    ensures BitOf(Xor(w, k), j) <==> (j == k) != BitOf(w, j)
  {
    if j != k { XorOther(w, k, j); } else if BitOf(w, k) { XorClears(w, k); } else { XorSets(w, k); }
  }

  lemma AndNotUndoesOr(w: bv32, k: bv6)
    requires k < 32 && !BitOf(w, k)
    ensures AndNot(Or(w, k), k) == w
  {
    OrThenAndNot(w, k);
  }

  // ----- bitmaps -----

  predicate InRange(w: Words, id: nat) {
    id / 32 < |w|
  }

  function Offset(id: nat): (k: bv6)
    ensures k < 32 && k as int == id % 32
  {
    (id % 32) as bv6
  }

  /** bitmap_check. */
  predicate Check(w: Words, id: nat)
    requires InRange(w, id)
  {
    BitOf(w[id / 32], Offset(id))
  }

  function SetBit(w: Words, id: nat): Words
    requires InRange(w, id)
  {
    w[id / 32 := Or(w[id / 32], Offset(id))]
  }

  function ClearBit(w: Words, id: nat): Words
    requires InRange(w, id)
  {
    w[id / 32 := AndNot(w[id / 32], Offset(id))]
  }

  function FlipBit(w: Words, id: nat): Words
    requires InRange(w, id)
  {
    w[id / 32 := Xor(w[id / 32], Offset(id))]
  }

  lemma OffsetsDistinct(id: nat, j: nat)
    ensures Offset(id) == Offset(j) <==> id % 32 == j % 32
  {
  }

  /** Setting, clearing or flipping a bit affects that bit alone. */
  lemma ReadBits(w: Words, id: nat, j: nat)
    requires InRange(w, id) && InRange(w, j)
    ensures Check(SetBit(w, id), j) <==> j == id || Check(w, j)
    ensures Check(ClearBit(w, id), j) <==> j != id && Check(w, j)
    ensures Check(FlipBit(w, id), j) <==> (j == id) != Check(w, j)
  {
    OffsetsDistinct(id, j);
    hide BitOf, Or, AndNot, Xor, Offset;
    OrBit(w[id / 32], Offset(id), Offset(j));
    AndNotBit(w[id / 32], Offset(id), Offset(j));
    XorBit(w[id / 32], Offset(id), Offset(j));
  }

  /** Clearing a bit that was just set restores the whole bitmap. */
  lemma ClearUndoesSet(w: Words, id: nat)
    requires InRange(w, id) && !Check(w, id)
    ensures ClearBit(SetBit(w, id), id) == w
  {
    hide BitOf, Or, AndNot, Offset;
    AndNotUndoesOr(w[id / 32], Offset(id));
  }

  method BitmapSet(a: array<bv32>, id: nat)
    requires id / 32 < a.Length
    modifies a
    ensures a[..] == SetBit(old(a[..]), id)
  {
    hide Or, AndNot, Xor, Offset;
    var group, offset := id / 32, Offset(id);
    a[group] := Or(a[group], offset);
  }

  method BitmapClear(a: array<bv32>, id: nat)
    requires id / 32 < a.Length
    modifies a
    ensures a[..] == ClearBit(old(a[..]), id)
  {
    hide Or, AndNot, Xor, Offset;
    var group, offset := id / 32, Offset(id);
    a[group] := AndNot(a[group], offset);
  }

  method BitmapReverse(a: array<bv32>, id: nat)
    requires id / 32 < a.Length
    modifies a
    ensures a[..] == FlipBit(old(a[..]), id)
  {
    hide Or, AndNot, Xor, Offset;
    var group, offset := id / 32, Offset(id);
    a[group] := Xor(a[group], offset);
  }

  /** bitmap_assign: afterwards the bit reads as `value`, every other bit as before. */
  method BitmapAssign(a: array<bv32>, id: nat, value: bool)
    requires id / 32 < a.Length
    modifies a
    ensures forall j: nat | j / 32 < a.Length :: Check(a[..], j) == if j == id then value else Check(old(a[..]), j)
  {
    ghost var w := a[..];
    if value {
      BitmapSet(a, id);
    } else {
      BitmapClear(a, id);
    }
    forall j: nat | j / 32 < a.Length
      ensures Check(a[..], j) == if j == id then value else Check(w, j)
    {
      ReadBits(w, id, j);
    }
  }
}
