/** Sixty-four-bit machine words as naturals below 2^64: wrap-around, bit masks, powers of two; and the minimum. */
module Words {

  const WORD: nat := 0x1_0000_0000_0000_0000
  const HALF: nat := 0x8000_0000_0000_0000

  function Min(x: nat, y: nat): nat { if x < y then x else y }

  function Pow2(e: nat): (p: nat)
    ensures p > 0
  {
    if e == 0 then 1 else 2 * Pow2(e - 1)
  }

  /** Bitwise conjunction, one binary digit at a time. */
  function And(x: nat, y: nat): nat
  {
    if x == 0 || y == 0 then 0
    else 2 * And(x / 2, y / 2) + (if x % 2 == 1 && y % 2 == 1 then 1 else 0)
  }

  lemma {:induction false} PowSum(a: nat, b: nat)
    ensures Pow2(a + b) == Pow2(a) * Pow2(b)
  {
    if a > 0 {
      PowSum(a - 1, b);
    }
  }

  lemma Pow2Sixteen()
    ensures Pow2(16) == 0x1_0000
  {
    assert Pow2(4) == 16;
    PowSum(4, 4);
    PowSum(8, 8);
  }

  lemma WordIsPow2()
    ensures Pow2(64) == WORD
  {
    Pow2Sixteen();
    PowSum(16, 16);
    PowSum(32, 32);
  }

  lemma HalfIsPow2()
    ensures Pow2(63) == HALF
  {
    WordIsPow2();
  }

  lemma {:induction false} PowGrows(a: nat, b: nat)
    requires a <= b
    ensures Pow2(a) <= Pow2(b)
  {
    if a < b {
      PowGrows(a, b - 1);
    }
  }

  /** Quotient and remainder are determined by x == a * q + r with 0 <= r < a. */
  lemma DivModUnique(x: nat, a: nat, q: int, r: nat)
    requires a > 0 && r < a && x == a * q + r
    ensures x / a == q && x % a == r
  {
    var d := x / a - q;
    assert a * d == r - x % a by {
      assert a * d == a * (x / a) - a * q;
    }
    if d >= 1 {
      MulOrder(a, 1, d);
    } else if d <= -1 {
      MulOrder(a, d, -1);
    }
  }

  lemma MulOrder(a: nat, x: int, y: int)
    requires x <= y
    ensures a * x <= a * y
  {
    assert a * (y - x) >= 0;
  }

  lemma ModOfProduct(x: nat, a: nat, b: nat)
    requires a > 0 && b > 0
    ensures a * b > 0
    ensures (x % (a * b)) % a == x % a
  {
    var q := x / (a * b);
    var r := x % (a * b);
    assert x == a * (b * q + r / a) + r % a by {
      assert (a * b) * q == a * (b * q);
      assert r == a * (r / a) + r % a;
    }
    DivModUnique(x, a, b * q + r / a, r % a);
  }

  /** A multiple of a power of two is a multiple of every smaller one. */
  lemma PowDivides(x: nat, k: nat, m: nat)
    requires k <= m && x % Pow2(m) == 0
    ensures x % Pow2(k) == 0
  {
    PowSum(k, m - k);
    ModOfProduct(x, Pow2(k), Pow2(m - k));
    assert 0 % Pow2(k) == 0;
  }

  /** Reducing a ticket to a word first does not change its slot in a power-of-two table. */
  lemma WordThenMod(x: nat, e: nat)
    requires e <= 64
    ensures (x % WORD) % Pow2(e) == x % Pow2(e)
  {
    PowSum(e, 64 - e);
    WordIsPow2();
    ModOfProduct(x, Pow2(e), Pow2(64 - e));
  }

  /** Masking with 2^e - 1 is reduction modulo 2^e. */
  lemma {:induction false} AndMask(x: nat, e: nat)
    ensures And(x, Pow2(e) - 1) == x % Pow2(e)
  {
    if e == 0 {
      assert x % 1 == 0;
    } else {
      var h := Pow2(e - 1);
      assert Pow2(e) - 1 == 2 * (h - 1) + 1;
      AndOdd(x, h - 1);
      AndMask(x / 2, e - 1);
      HalveMod(x, h);
    }
  }

  lemma AndOdd(x: nat, m: nat)
    ensures And(x, 2 * m + 1) == 2 * And(x / 2, m) + x % 2
  {
    assert (2 * m + 1) / 2 == m && (2 * m + 1) % 2 == 1;
  }

  lemma HalveMod(x: nat, h: nat)
    requires h > 0
    ensures x % (2 * h) == 2 * ((x / 2) % h) + x % 2
  {
    var q := (x / 2) / h;
    var r := (x / 2) % h;
    assert x == (2 * h) * q + (2 * r + x % 2) by {
      assert x / 2 == h * q + r;
      assert 2 * (h * q) == (2 * h) * q;
    }
    DivModUnique(x, 2 * h, q, 2 * r + x % 2);
  }

  /** Subtraction of words recovers the true difference while that difference fits in a word. */
  lemma WordSub(x: nat, y: nat)
    requires y <= x < y + WORD
    ensures (x % WORD - y % WORD) % WORD == x - y
  {
  }

  lemma WordAdd(x: nat, y: nat)
    ensures (x % WORD + y) % WORD == (x + y) % WORD
  {
  }

  /** Words of two naturals less than 2^64 apart are equal only when the naturals are. */
  lemma WordEq(x: nat, y: nat)
    requires x < y + WORD && y < x + WORD
    ensures x % WORD == y % WORD <==> x == y
  {
  }

  /** Two tickets of one window of `c` consecutive tickets never share a slot. */
  lemma SlotUnique(a: nat, b: nat, c: nat, base: nat)
    requires base <= a < base + c && base <= b < base + c && a != b
    ensures a % c != b % c
  {
    if a % c == b % c {
      var d := a / c - b / c;
      assert a - b == c * d by {
        assert a == c * (a / c) + a % c && b == c * (b / c) + b % c;
      }
      if d >= 1 {
        MulOrder(c, 1, d);
      } else if d <= -1 {
        MulOrder(c, d, -1);
      }
    }
  }

  /** 63 - clz(v): the position of the leading one. */
  function Log2(v: nat): (b: nat)
    requires v > 0
    ensures Pow2(b) <= v < 2 * Pow2(b)
  {
    if v == 1 then 0 else 1 + Log2(v / 2)
  }

  /** The arithmetic of a ring's counters: tickets that never wrap, or 64-bit words. */
  datatype Arith = Unbounded | Word64

  function Add(ar: Arith, x: nat, y: nat): nat {
    if ar.Unbounded? then x + y else (x + y) % WORD
  }

  function Sub(ar: Arith, x: nat, y: nat): nat {
    if ar.Word64? then (x - y) % WORD else if x >= y then x - y else 0
  }

  function Index(ar: Arith, capacity: nat, x: nat): (i: nat)
    requires capacity > 0
    ensures i < capacity
  {
    if ar.Unbounded? then x % capacity else AndBounded(x, capacity - 1); And(x, capacity - 1)
  }

  lemma {:induction false} AndBounded(x: nat, y: nat)
    ensures And(x, y) <= y
  {
    if x > 0 && y > 0 {
      AndBounded(x / 2, y / 2);
    }
  }

  /** A ticket cut to a word has the slot of the ticket in a power-of-two table. */
  lemma WordIndex(e: nat, x: nat)
    requires e <= 63
    ensures Index(Word64, Pow2(e), x % WORD) == Index(Unbounded, Pow2(e), x)
  {
    AndMask(x % WORD, e);
    WordThenMod(x, e);
  }
}
