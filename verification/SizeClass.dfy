/** size_class_index of memory_pool.cc: round a size up to a power of two by bit smearing and read the class off the
    number of trailing zeros. */
module SizeClass {
  import opened Words

  const CLASSES: nat := 6
  const SMALL_MAX: nat := 256

  /** The object size of class c: 8, 16, 32, 64, 128, 256. */
  function ClassSize(c: nat): nat { Pow2(c + 3) }

  function Or(x: nat, y: nat): nat {
    if x == 0 && y == 0 then 0
    else 2 * Or(x / 2, y / 2) + (if x % 2 == 1 || y % 2 == 1 then 1 else 0)
  }

  function Shr(x: nat, k: nat): nat { if k == 0 then x else Shr(x / 2, k - 1) }

  /** s |= s >> k */
  function Fold(x: nat, k: nat): nat { Or(x, Shr(x, k)) }

  /** The first n of the folds by 1, 2, 4, 8, 16, 32. */
  function Folds(x: nat, n: nat): nat { if n == 0 then x else Fold(Folds(x, n - 1), Pow2(n - 1)) }

  /** All six folds of the 64-bit variant, plus one: the next power of two. */
  function RoundUp(x: nat): (r: nat)
    requires x > 0 && Log2(x) < 64
    ensures r == Pow2(Log2(x) + 1)
  {
    FoldsFill(x, 6);
    Folds(x, 6) + 1
  }

  /** Count of trailing zeros. */
  function Ctz(x: nat): nat
    requires x > 0
  {
    if x % 2 == 1 then 0 else 1 + Ctz(x / 2)
  }

  /** The source's index computation; sizes above 2^63 would count the trailing zeros of zero, which is undefined. */
  function SizeClassIndex(size: nat): (c: nat)
    requires size <= HALF
    ensures size > 8 ==> var l := Log2(size - 1); c == if l < 8 then l - 2 else CLASSES
  {
    if size <= 8 then 0
    else
      LogRange(size - 1);
      CtzOfPow2(Log2(size - 1) + 1);
      var idx := Ctz(RoundUp(size - 1)) - 3;
      if idx < CLASSES then idx else CLASSES
  }

  predicate Bit(x: nat, i: nat) { if i == 0 then x % 2 == 1 else Bit(x / 2, i - 1) }

  /** Some bit of x among the w bits from i on is set. */
  ghost predicate Near(x: nat, i: nat, w: nat) { exists j: nat :: i <= j < i + w && Bit(x, j) }

  lemma {:induction false} OrBit(x: nat, y: nat, i: nat)
    ensures Bit(Or(x, y), i) <==> Bit(x, i) || Bit(y, i)
  {
    if x == 0 && y == 0 {
      ZeroBit(i);
    } else if i > 0 {
      OrBit(x / 2, y / 2, i - 1);
    }
  }

  lemma {:induction false} ZeroBit(i: nat)
    ensures !Bit(0, i)
  {
    if i > 0 {
      ZeroBit(i - 1);
    }
  }

  lemma {:induction false} ShrBit(x: nat, k: nat, i: nat)
    ensures Bit(Shr(x, k), i) <==> Bit(x, i + k)
  {
    if k > 0 {
      ShrBit(x / 2, k - 1, i);
    }
  }

  /** Folding doubles how far each bit looks ahead. */
  lemma FoldNear(x: nat, y: nat, w: nat)
    requires forall i: nat :: Bit(y, i) <==> Near(x, i, w)
    ensures forall i: nat :: Bit(Fold(y, w), i) <==> Near(x, i, 2 * w)
  {
    forall i: nat
      ensures Bit(Fold(y, w), i) <==> Near(x, i, 2 * w)
    {
      OrBit(y, Shr(y, w), i);
      ShrBit(y, w, i);
      assert Bit(y, i) <==> Near(x, i, w);
      assert Bit(y, i + w) <==> Near(x, i + w, w);
    }
  }

  lemma {:induction false} FoldsNear(x: nat, n: nat)
    ensures forall i: nat :: Bit(Folds(x, n), i) <==> Near(x, i, Pow2(n))
  {
    if n == 0 {
      forall i: nat
        ensures Bit(x, i) <==> Near(x, i, 1)
      {
      }
    } else {
      FoldsNear(x, n - 1);
      FoldNear(x, Folds(x, n - 1), Pow2(n - 1));
    }
  }

  /** The leading one, and nothing above it. */
  lemma {:induction false} TopBit(x: nat, i: nat)
    requires x > 0
    ensures Bit(x, Log2(x)) && (i > Log2(x) ==> !Bit(x, i))
  {
    if x == 1 {
      if i > 0 {
        ZeroBit(i - 1);
      }
    } else if i > 0 {
      TopBit(x / 2, i - 1);
    } else {
      TopBit(x / 2, 0);
    }
  }

  lemma {:induction false} OnesBit(m: nat, i: nat)
    ensures Bit(Pow2(m) - 1, i) <==> i < m
  {
    if m == 0 {
      ZeroBit(i);
    } else if i > 0 {
      assert (Pow2(m) - 1) / 2 == Pow2(m - 1) - 1;
      OnesBit(m - 1, i - 1);
    }
  }

  lemma {:induction false} BitsDetermine(x: nat, y: nat)
    requires forall i: nat :: Bit(x, i) <==> Bit(y, i)
    ensures x == y
  {
    assert Bit(x, 0) <==> Bit(y, 0);
    if x > 0 || y > 0 {
      forall i: nat
        ensures Bit(x / 2, i) <==> Bit(y / 2, i)
      {
        assert Bit(x, i + 1) <==> Bit(y, i + 1);
      }
      BitsDetermine(x / 2, y / 2);
    }
  }

  lemma LogBound(x: nat, e: nat)
    requires x > 0
    ensures x < Pow2(e) <==> Log2(x) < e
  {
    if Log2(x) < e {
      PowGrows(Log2(x) + 1, e);
    } else {
      PowGrows(e, Log2(x));
    }
  }

  lemma FoldsBit(x: nat, n: nat, i: nat)
    requires x > 0 && Log2(x) < Pow2(n)
    ensures Bit(Folds(x, n), i) <==> i <= Log2(x)
  {
    FoldsNear(x, n);
    TopBit(x, i);
    if Near(x, i, Pow2(n)) {
      var j: nat :| i <= j < i + Pow2(n) && Bit(x, j);
      TopBit(x, j);
    }
  }

  /** Enough folds fill every bit from the leading one down. */
  lemma FoldsFill(x: nat, n: nat)
    requires x > 0 && Log2(x) < Pow2(n)
    ensures Folds(x, n) == Pow2(Log2(x) + 1) - 1
  {
    forall i: nat
      ensures Bit(Folds(x, n), i) <==> Bit(Pow2(Log2(x) + 1) - 1, i)
    {
      FoldsBit(x, n, i);
      OnesBit(Log2(x) + 1, i);
    }
    BitsDetermine(Folds(x, n), Pow2(Log2(x) + 1) - 1);
  }

  lemma {:induction false} CtzOfPow2(m: nat)
    ensures Ctz(Pow2(m)) == m
  {
    if m > 0 {
      CtzOfPow2(m - 1);
    }
  }

  lemma LogRange(x: nat)
    requires 8 <= x < HALF
    ensures 3 <= Log2(x) < 63
  {
    assert Pow2(3) == 8;
    LogBound(x, 3);
    HalfIsPow2();
    LogBound(x, 63);
  }

  lemma SmallPowers()
    ensures Pow2(3) == 8 && Pow2(8) == 256
  {
    assert Pow2(4) == 16;
    PowSum(4, 4);
  }

  /** The index is the least class that holds the size, and CLASSES exactly for sizes above the largest class. */
  lemma IndexIsLeastFit(size: nat)
    requires size <= HALF
    ensures var c := SizeClassIndex(size);
            && (c == CLASSES <==> size > SMALL_MAX)
            && (size <= SMALL_MAX ==> c < CLASSES && size <= ClassSize(c) && (c > 0 ==> ClassSize(c - 1) < size))
  {
    SmallPowers();
    if size > 8 {
      LogRange(size - 1);
      LogBound(size - 1, 8);
      var l := Log2(size - 1);
      assert Pow2(l) <= size - 1 < Pow2(l + 1);
    }
  }
}
