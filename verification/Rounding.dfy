/** The size and offset rounding of memory_pool.cc on 64-bit words. */
module Rounding {
  import opened Words
  import opened SizeClass

  /** (x + a - 1) & ~(a - 1) on 64-bit words: adding, then clearing the low bits. */
  function AlignUp(x: nat, a: nat): nat
    requires a > 0
  {
    var y := (x + a - 1) % WORD;
    AndSmaller(y, a - 1);
    y - And(y, a - 1)
  }

  lemma {:induction false} AndSmaller(x: nat, y: nat)
    ensures And(x, y) <= x
  {
    if x > 0 && y > 0 {
      AndSmaller(x / 2, y / 2);
    }
  }

  lemma RoundDown(y: nat, a: nat)
    requires a > 0
    ensures 0 <= y % a < a && (y - y % a) % a == 0
  {
    assert y - y % a == a * (y / a) + 0;
    DivModUnique(y - y % a, a, y / a, 0);
  }

  lemma NoWrap(y: nat)
    ensures y < WORD ==> y % WORD == y
    ensures WORD <= y < 2 * WORD ==> y % WORD == y - WORD
  {
  }

  lemma AlignUpIs(x: nat, e: nat)
    ensures var y := (x + Pow2(e) - 1) % WORD; AlignUp(x, Pow2(e)) == y - y % Pow2(e)
  {
    AndMask((x + Pow2(e) - 1) % WORD, e);
  }

  /** Rounding up to a power of two, as long as the addition does not wrap. */
  lemma AlignUpExact(x: nat, e: nat)
    requires x + Pow2(e) - 1 < WORD
    ensures x <= AlignUp(x, Pow2(e)) < x + Pow2(e) && AlignUp(x, Pow2(e)) % Pow2(e) == 0
  {
    AlignUpIs(x, e);
    NoWrap(x + Pow2(e) - 1);
    RoundDown(x + Pow2(e) - 1, Pow2(e));
  }

  lemma AlignUpWraps(x: nat, e: nat)
    requires x < WORD && Pow2(e) < WORD && x + Pow2(e) - 1 >= WORD
    ensures AlignUp(x, Pow2(e)) < x
  {
    AlignUpIs(x, e);
    NoWrap(x + Pow2(e) - 1);
    RoundDown(x + Pow2(e) - 1 - WORD, Pow2(e));
  }

  /** The size actually allocated for a request aligned to 2^e. */
  function AllocSize(bytes: nat, e: nat): nat {
    if Pow2(e) > 16 then AlignUp(bytes, Pow2(e)) else bytes
  }

  /** The rounded size covers the request exactly when the rounding does not overflow 64 bits. */
  lemma SizeCoversRequest(bytes: nat, e: nat)
    requires 1 <= bytes < WORD && e <= 63
    ensures AllocSize(bytes, e) >= bytes <==> Pow2(e) <= 16 || bytes + Pow2(e) - 1 < WORD
  {
    var a := Pow2(e);
    if a > 16 {
      if bytes + a - 1 < WORD {
        AlignUpExact(bytes, e);
      } else {
        PowGrows(e, 63);
        HalfIsPow2();
        AlignUpWraps(bytes, e);
      }
    }
  }

  /** A request the pool serves: at least one byte, and no overflow in rounding. */
  predicate Request(bytes: nat, e: nat) {
    1 <= bytes < WORD && e <= 63 && (Pow2(e) > 16 ==> bytes + Pow2(e) - 1 < WORD)
  }
}
