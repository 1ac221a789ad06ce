/**
 * Packing of unsigned C bit-fields into one unsigned integer word.
 *
 * A layout is the sequence of field widths in declaration order. Fields are
 * allocated least-significant bit first, each one directly after the previous
 * one (the GCC/ARM little-endian convention), so the field declared at index i
 * occupies the bits [Offset(ws, i), Offset(ws, i) + ws[i]) of the word.
 *
 * Words are natural numbers. The shift and mask operators a compiler uses to
 * read and write a bit-field are defined bit by bit (Shl, Shr, Low), and are
 * shown equal to multiplication, division and remainder by powers of two.
 */
module BitField {

  /** 2 raised to the power n. */
  function Pow2(n: nat): (r: nat)
    ensures r >= 1
  {
    if n == 0 then 1 else 2 * Pow2(n - 1)
  }

  /** x << n */
  function Shl(x: nat, n: nat): nat
  {
    if n == 0 then x else 2 * Shl(x, n - 1)
  }

  /** x >> n */
  function Shr(x: nat, n: nat): nat
  {
    if n == 0 then x else Shr(x / 2, n - 1)
  }

  /** x & (2^n - 1): the n lowest bits of x, a value below 2^n. */
  function Low(x: nat, n: nat): (r: nat)
    ensures r < Pow2(n)
  {
    if n == 0 then 0 else x % 2 + 2 * Low(x / 2, n - 1)
  }

  /** Total number of bits a layout occupies. */
  function Sum(ws: seq<nat>): nat
  {
    if ws == [] then 0 else ws[0] + Sum(ws[1..])
  }

  /** Position of the lowest bit of the field at index i. */
  function Offset(ws: seq<nat>, i: nat): nat
    requires i <= |ws|
  {
    Sum(ws[..i])
  }

  /** Every value is representable in the width its field declares. */
  predicate Fits(vals: seq<nat>, ws: seq<nat>)
  {
    |vals| == |ws| && forall i :: 0 <= i < |vals| ==> vals[i] < Pow2(ws[i])
  }

  /** The word whose fields hold vals, the first field in the lowest bits. */
  function Pack(vals: seq<nat>, ws: seq<nat>): nat
    requires |vals| == |ws|
  {
    if ws == [] then 0 else vals[0] + Shl(Pack(vals[1..], ws[1..]), ws[0])
  }

  /** The field values of v, lowest field first; bits above Sum(ws) are dropped. */
  function Unpack(v: nat, ws: seq<nat>): (vals: seq<nat>)
    ensures Fits(vals, ws)
    decreases ws
  {
    if ws == [] then [] else [Low(v, ws[0])] + Unpack(Shr(v, ws[0]), ws[1..])
  }

  /** Read of a w-bit unsigned field at bit offset off: (v >> off) & (2^w - 1). */
  function Extract(v: nat, off: nat, w: nat): nat
  {
    Low(Shr(v, off), w)
  }

  /**
   * Store of x into a w-bit unsigned field at bit offset off, as C does it:
   * x is cut to its w low bits, the old field bits are cleared, the new ones
   * set, and every other bit of v is kept.
   */
  function Insert(v: nat, off: nat, w: nat, x: nat): int
  {
    v - Shl(Extract(v, off, w), off) + Shl(Low(x, w), off)
  }

  // ----- shifts and masks -----

  /** Every number is its n low bits plus its remaining bits shifted back into place. */
  lemma {:induction false} SplitAt(v: nat, n: nat)
    ensures v == Low(v, n) + Shl(Shr(v, n), n)
  {
    if n > 0 {
      SplitAt(v / 2, n - 1);
    }
  }

  /** Below a value of n bits, a number shifted left by n can be taken back apart. */
  lemma {:induction false} LowShl(a: nat, b: nat, n: nat)
    requires a < Pow2(n)
    ensures Low(a + Shl(b, n), n) == a
    ensures Shr(a + Shl(b, n), n) == b
  {
    if n > 0 {
      var x := a + Shl(b, n);
      assert x / 2 == a / 2 + Shl(b, n - 1) && x % 2 == a % 2;
      LowShl(a / 2, b, n - 1);
    }
  }

  /** An n-bit value below a value shifted left by n fits in the total width. */
  lemma {:induction false} ShlBound(a: nat, b: nat, n: nat, m: nat)
    requires a < Pow2(n) && b < Pow2(m)
    ensures a + Shl(b, n) < Pow2(n + m)
  {
    if n > 0 {
      ShlBound(a / 2, b, n - 1, m);
      assert Pow2(n + m) == 2 * Pow2(n - 1 + m);
    }
  }

  /** Shifting right by n a number of n + m bits leaves a number of m bits. */
  lemma {:induction false} ShrBound(v: nat, n: nat, m: nat)
    requires v < Pow2(n + m)
    ensures Shr(v, n) < Pow2(m)
  {
    if n > 0 {
      assert Pow2(n + m) == 2 * Pow2(n - 1 + m);
      ShrBound(v / 2, n - 1, m);
    }
  }

  lemma {:induction false} ShrShr(v: nat, a: nat, b: nat)
    ensures Shr(Shr(v, a), b) == Shr(v, a + b)
  {
    if a > 0 {
      ShrShr(v / 2, a - 1, b);
    }
  }

  lemma {:induction false} ShlShl(x: nat, a: nat, b: nat)
    ensures Shl(Shl(x, a), b) == Shl(x, a + b)
  {
    if b > 0 {
      ShlShl(x, a, b - 1);
    }
  }

  lemma {:induction false} ShlAdd(x: nat, y: nat, n: nat)
    ensures Shl(x + y, n) == Shl(x, n) + Shl(y, n)
  {
    if n > 0 {
      ShlAdd(x, y, n - 1);
    }
  }

  lemma {:induction false} ShlZero(n: nat)
    ensures Shl(0, n) == 0
  {
    if n > 0 {
      ShlZero(n - 1);
    }
  }

  // ----- the shift operators as arithmetic -----

  lemma MulLeft(p: int, a: int, b: int)
    requires p >= 0 && a <= b
    ensures p * a <= p * b
  {
    assert p * b - p * a == p * (b - a);
  }

  /** Euclidean division is determined by its quotient and remainder. */
  lemma DivModUnique(x: int, p: int, q: int, r: int)
    requires p > 0 && 0 <= r < p && x == p * q + r
    ensures x / p == q && x % p == r
  {
    var q0, r0 := x / p, x % p;
    assert x == p * q0 + r0;
    if q0 < q {
      MulLeft(p, q0 + 1, q);
      assert false;
    } else if q < q0 {
      MulLeft(p, q + 1, q0);
      assert false;
    }
  }

  /** Shifting left by n multiplies by 2^n. */
  lemma {:induction false} ShlIsMul(x: nat, n: nat)
    ensures Shl(x, n) == Pow2(n) * x
  {
    if n > 0 {
      ShlIsMul(x, n - 1);
      assert 2 * (Pow2(n - 1) * x) == (2 * Pow2(n - 1)) * x;
    }
  }

  /** Shifting right by n and masking n bits are division and remainder by 2^n. */
  lemma ShiftIsDivMod(x: nat, n: nat)
    ensures Shr(x, n) == x / Pow2(n) && Low(x, n) == x % Pow2(n)
  {
    SplitAt(x, n);
    ShlIsMul(Shr(x, n), n);
    DivModUnique(x, Pow2(n), Shr(x, n), Low(x, n));
  }

  lemma {:induction false} Pow2Add(a: nat, b: nat)
    ensures Pow2(a + b) == Pow2(a) * Pow2(b)
  {
    if a > 0 {
      Pow2Add(a - 1, b);
      assert Pow2(a + b) == 2 * Pow2(a - 1 + b);
      assert 2 * (Pow2(a - 1) * Pow2(b)) == (2 * Pow2(a - 1)) * Pow2(b);
    }
  }

  // ----- the layout lemmas -----

  lemma {:induction false} OffsetStep(ws: seq<nat>, i: nat)
    requires 0 < i <= |ws|
    ensures Offset(ws, i) == ws[0] + Offset(ws[1..], i - 1)
  {
    assert ws[..i][1..] == ws[1..][..i - 1];
  }

  lemma FitsTail(vals: seq<nat>, ws: seq<nat>)
    requires Fits(vals, ws) && ws != []
    ensures Fits(vals[1..], ws[1..])
  {
    forall i | 0 <= i < |vals| - 1 ensures vals[1..][i] < Pow2(ws[1..][i]) {
      assert vals[1..][i] == vals[i + 1];
    }
  }

  /** A packed word fits in the number of bits the layout declares. */
  lemma {:induction false} PackBound(vals: seq<nat>, ws: seq<nat>)
    requires Fits(vals, ws)
    ensures Pack(vals, ws) < Pow2(Sum(ws))
  {
    if ws != [] {
      FitsTail(vals, ws);
      PackBound(vals[1..], ws[1..]);
      ShlBound(vals[0], Pack(vals[1..], ws[1..]), ws[0], Sum(ws[1..]));
    }
  }

  /** Unpacking a packed word gives back every field unchanged. */
  lemma {:induction false} UnpackPack(vals: seq<nat>, ws: seq<nat>)
    requires Fits(vals, ws)
    ensures Unpack(Pack(vals, ws), ws) == vals
  {
    if ws != [] {
      FitsTail(vals, ws);
      LowShl(vals[0], Pack(vals[1..], ws[1..]), ws[0]);
      UnpackPack(vals[1..], ws[1..]);
      assert vals == [vals[0]] + vals[1..];
    }
  }

  /** Packing the fields of a word that fits the layout gives back the word. */
  lemma {:induction false} PackUnpack(v: nat, ws: seq<nat>)
    requires v < Pow2(Sum(ws))
    ensures Pack(Unpack(v, ws), ws) == v
    decreases ws
  {
    if ws != [] {
      var rest := Shr(v, ws[0]);
      ShrBound(v, ws[0], Sum(ws[1..]));
      PackUnpack(rest, ws[1..]);
      SplitAt(v, ws[0]);
      assert Unpack(v, ws)[1..] == Unpack(rest, ws[1..]);
    }
  }

  /** Field i of the unpacked word is the bits of that field: shift, then mask. */
  lemma {:induction false} UnpackAt(v: nat, ws: seq<nat>, i: nat)
    requires i < |ws|
    ensures Unpack(v, ws)[i] == Extract(v, Offset(ws, i), ws[i])
    decreases i
  {
    if i == 0 {
      assert ws[..0] == [];
    } else {
      UnpackAt(Shr(v, ws[0]), ws[1..], i - 1);
      OffsetStep(ws, i);
      ShrShr(v, ws[0], Offset(ws[1..], i - 1));
    }
  }

  /**
   * Replacing one field value changes the packed word by exactly that field's
   * contribution at its offset, so no other bit of the word moves.
   */
  lemma {:induction false} PackUpdate(vals: seq<nat>, ws: seq<nat>, i: nat, x: nat)
    requires |vals| == |ws| && i < |ws|
    ensures Pack(vals[i := x], ws) + Shl(vals[i], Offset(ws, i))
         == Pack(vals, ws) + Shl(x, Offset(ws, i))
  {
    if i == 0 {
      assert ws[..0] == [];
      assert vals[i := x][1..] == vals[1..];
    } else {
      var off := Offset(ws[1..], i - 1);
      assert vals[i := x][1..] == vals[1..][i - 1 := x];
      PackUpdate(vals[1..], ws[1..], i - 1, x);
      OffsetStep(ws, i);
      var a, b := Pack(vals[1..][i - 1 := x], ws[1..]), Pack(vals[1..], ws[1..]);
      ShlAdd(a, Shl(vals[i], off), ws[0]);
      ShlAdd(b, Shl(x, off), ws[0]);
      ShlShl(vals[i], off, ws[0]);
      ShlShl(x, off, ws[0]);
    }
  }

  /**
   * Storing x into field i of a word that fits the layout, as Insert does it
   * on the bits, is the same as unpacking, replacing field i by the low bits
   * of x, and packing again.
   */
  lemma InsertIsRepack(v: nat, ws: seq<nat>, i: nat, x: nat)
    requires v < Pow2(Sum(ws)) && i < |ws|
    ensures Insert(v, Offset(ws, i), ws[i], x) == Pack(Unpack(v, ws)[i := Low(x, ws[i])], ws)
  {
    PackUnpack(v, ws);
    UnpackAt(v, ws, i);
    PackUpdate(Unpack(v, ws), ws, i, Low(x, ws[i]));
  }

  /** A word whose fields are all zero is zero. */
  lemma {:induction false} PackZeros(vals: seq<nat>, ws: seq<nat>)
    requires |vals| == |ws| && forall i :: 0 <= i < |vals| ==> vals[i] == 0
    ensures Pack(vals, ws) == 0
  {
    if ws != [] {
      PackZeros(vals[1..], ws[1..]);
      ShlZero(ws[0]);
    }
  }
}
