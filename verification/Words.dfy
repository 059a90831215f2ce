/** Bits of machine words, kept as naturals, and rounding up to a power of two by bit smearing. */
module Words {
  const WORD: nat := 0x1_0000_0000_0000_0000
  const HALF_WORD: nat := 0x8000_0000_0000_0000

  function Pow(k: nat): (p: nat)
    ensures p >= 1
  {
    if k == 0 then 1 else 2 * Pow(k - 1)
  }

  function Shr(n: nat, k: nat): nat {
    if k == 0 then n else Shr(n / 2, k - 1)
  }

  function Or(a: nat, b: nat): nat {
    if a == 0 && b == 0 then 0 else
    2 * Or(a / 2, b / 2) + if a % 2 == 1 || b % 2 == 1 then 1 else 0
  }

  predicate Bit(n: nat, i: nat) {
    if i == 0 then n % 2 == 1 else Bit(n / 2, i - 1)
  }

  lemma {:induction false} BitOfOr(a: nat, b: nat, i: nat)
    ensures Bit(Or(a, b), i) <==> Bit(a, i) || Bit(b, i)
  {
    OrStep(a, b);
    hide Or;
    if i > 0 {
      BitOfOr(a / 2, b / 2, i - 1);
    }
  }

  lemma OrStep(a: nat, b: nat)
    ensures Or(a, b) / 2 == Or(a / 2, b / 2)
    ensures Or(a, b) % 2 == 1 <==> a % 2 == 1 || b % 2 == 1
  {
    assert Or(0, 0) == 0;
  }

  lemma {:induction false} BitOfShr(n: nat, k: nat, i: nat)
    ensures Bit(Shr(n, k), i) <==> Bit(n, i + k)
  {
    if k > 0 {
      BitOfShr(n / 2, k - 1, i);
    }
  }

  /** The highest bit of `n` is bit `p`. */
  predicate TopBit(n: nat, p: nat) { Pow(p) <= n < Pow(p + 1) }

  lemma {:induction false} BitsBelowTop(n: nat, p: nat, i: nat)
    requires TopBit(n, p)
    ensures Bit(n, p)
    ensures i > p ==> !Bit(n, i)
  {
    if p > 0 {
      assert Pow(p + 1) == 2 * Pow(p) == 4 * Pow(p - 1);
      BitsBelowTop(n / 2, p - 1, if i > p then i - 1 else 0);
    } else if i > 0 {
      NoBits(i - 1);
    }
  }

  lemma {:induction false} NoBits(i: nat)
    ensures !Bit(0, i)
  {
    if i > 0 {
      NoBits(i - 1);
    }
  }

  lemma {:induction false} HasTopBit(n: nat) returns (p: nat)
    requires n > 0
    ensures TopBit(n, p)
  {
    if n == 1 {
      p := 0;
    } else {
      p := HasTopBit(n / 2);
      p := p + 1;
    }
  }

  lemma {:induction false} PowMonotone(j: nat, k: nat)
    requires j < k
    ensures Pow(j) < Pow(k)
  {
    if j < k - 1 {
      PowMonotone(j, k - 1);
    }
  }

  /** A number whose bits below `k` are set, and no others, is one less than a power of two. */
  lemma {:induction false} AllOnes(n: nat, k: nat)
    requires forall i: nat :: Bit(n, i) <==> i < k
    ensures n == Pow(k) - 1
  {
    if k == 0 {
      if n > 0 {
        var p := HasTopBit(n);
        BitsBelowTop(n, p, p);
      }
    } else {
      forall i: nat
        ensures Bit(n / 2, i) <==> i < k - 1
      {
        assert Bit(n, i + 1) <==> Bit(n / 2, i);
      }
      AllOnes(n / 2, k - 1);
      assert Bit(n, 0);
    }
  }

  /** The `j` highest bits from bit `p` down are set, and no bit above `p` is. */
  ghost predicate Smeared(n: nat, p: nat, j: nat) {
    forall i: nat :: (p < i ==> !Bit(n, i)) && (i <= p < i + j ==> Bit(n, i))
  }

  lemma SmearStep(n: nat, p: nat, j: nat)
    requires Smeared(n, p, j)
    ensures Smeared(Or(n, Shr(n, j)), p, 2 * j)
  {
    forall i: nat
      ensures p < i ==> !Bit(Or(n, Shr(n, j)), i)
      ensures i <= p < i + 2 * j ==> Bit(Or(n, Shr(n, j)), i)
    {
      BitOfOr(n, Shr(n, j), i);
      BitOfShr(n, j, i);
    }
  }

  ghost predicate IsPow(r: nat) { exists k: nat :: r == Pow(k) }

  /** The least power of two that is at least `n`. */
  ghost predicate IsCeilPow(r: nat, n: nat) {
    IsPow(r) && n <= r && forall p: nat :: IsPow(p) && n <= p ==> r <= p
  }

  /** Rounding up: the power of two just above the highest bit of `n - 1`. */
  lemma AboveTopBit(n: nat, p: nat)
    requires n >= 2 && TopBit(n - 1, p)
    ensures IsCeilPow(Pow(p + 1), n)
  {
    forall q: nat | IsPow(q) && n <= q
      ensures Pow(p + 1) <= q
    {
      var k: nat :| q == Pow(k);
      if k < p {
        PowMonotone(k, p);
      } else if k > p + 1 {
        PowMonotone(p + 1, k);
      }
    }
  }

  lemma {:induction false} PowSum(j: nat, k: nat)
    ensures Pow(j + k) == Pow(j) * Pow(k)
  {
    if j > 0 {
      PowSum(j - 1, k);
    }
  }

  lemma WordPowers()
    ensures Pow(63) == HALF_WORD && Pow(64) == WORD
  {
    PowerOfByte();
    hide Pow;
    PowSum(8, 8);
    PowSum(16, 16);
    PowSum(32, 32);
  }

  lemma PowerOfByte()
    ensures Pow(8) == 0x100 && Pow(64) == 2 * Pow(63)
  {
  }

  lemma TopBitOfWord(n: nat, p: nat)
    requires TopBit(n, p)
    ensures n < HALF_WORD ==> p < 63
    ensures HALF_WORD <= n < WORD ==> p == 63
  {
    WordPowers();
    if p > 64 {
      PowMonotone(64, p);
    } else if p < 62 {
      PowMonotone(p + 1, 63);
    }
    if p > 63 {
      PowMonotone(63, p);
    }
  }

  lemma {:induction false} ShrZero(k: nat)
    ensures Shr(0, k) == 0
  {
    if k > 0 {
      ShrZero(k - 1);
    }
  }

  /** Six doublings, the value of the local word after the shifts. */
  ghost function Smear(n: nat): nat {
    var a := Or(n, Shr(n, 1));
    var b := Or(a, Shr(a, 2));
    var c := Or(b, Shr(b, 4));
    var d := Or(c, Shr(c, 8));
    var e := Or(d, Shr(d, 16));
    Or(e, Shr(e, 32))
  }

  lemma SmearZero()
    ensures Smear(0) == 0
  {
    ShrZero(1); ShrZero(2); ShrZero(4); ShrZero(8); ShrZero(16); ShrZero(32);
  }

  /** They cover every bit of a word. */
  lemma SmearFills(n: nat, p: nat)
    requires TopBit(n, p) && p < 64
    ensures Smear(n) == Pow(p + 1) - 1
  {
    SmearedOnce(n, p);
    hide *;
    var a := Or(n, Shr(n, 1));
    SmearStep(n, p, 1);
    var b := Or(a, Shr(a, 2));
    SmearStep(a, p, 2);
    var c := Or(b, Shr(b, 4));
    SmearStep(b, p, 4);
    var d := Or(c, Shr(c, 8));
    SmearStep(c, p, 8);
    var e := Or(d, Shr(d, 16));
    SmearStep(d, p, 16);
    SmearStep(e, p, 32);
    SmearedAll(Or(e, Shr(e, 32)), p);
    SmearIs(n, a, b, c, d, e);
  }

  lemma SmearIs(n: nat, a: nat, b: nat, c: nat, d: nat, e: nat)
    requires a == Or(n, Shr(n, 1)) && b == Or(a, Shr(a, 2)) && c == Or(b, Shr(b, 4)) && d == Or(c, Shr(c, 8))
    requires e == Or(d, Shr(d, 16))
    ensures Smear(n) == Or(e, Shr(e, 32))
  {
    hide Or;
    hide Shr;
  }

  lemma SmearedOnce(n: nat, p: nat)
    requires TopBit(n, p)
    ensures Smeared(n, p, 1)
  {
    forall i: nat
      ensures (p < i ==> !Bit(n, i)) && (i == p ==> Bit(n, i))
    {
      BitsBelowTop(n, p, i);
    }
  }

  lemma SmearedAll(n: nat, p: nat)
    requires Smeared(n, p, 64) && p < 64
    ensures n == Pow(p + 1) - 1
  {
    AllOnes(n, p + 1);
  }

  lemma SmearRoundsUp(word: nat)
    requires 1 <= word < WORD
    ensures word <= HALF_WORD ==> Smear(word - 1) + 1 <= HALF_WORD && IsCeilPow(Smear(word - 1) + 1, word)
    ensures word > HALF_WORD ==> Smear(word - 1) + 1 == WORD
  {
    if word == 1 {
      SmearZero();
      assert 1 == Pow(0);
    } else {
      var p := HasTopBit(word - 1);
      WordPowers();
      TopBitOfWord(word - 1, p);
      SmearFills(word - 1, p);
      AboveTopBit(word, p);
      if p < 63 {
        PowMonotone(p + 1, 64);
      }
      if p < 62 {
        PowMonotone(p + 1, 63);
      }
    }
  }

  /** `nextPowerOfTwo` on 64-bit words; the final increment wraps, so no result exceeds 2^63, and the
      loop of `growFor` cannot end for a need beyond that. */
  method NextPowerOfTwo(word: nat) returns (r: nat)
    requires word < WORD
    ensures 1 <= word <= HALF_WORD ==> IsCeilPow(r, word)
    ensures word == 0 ==> r == 1
    ensures word > HALF_WORD ==> r == 0
    ensures r <= HALF_WORD
  {
    hide Or;
    hide Shr;
    if word == 0 {
      return 1;
    }
    var n := word - 1;
    n := Or(n, Shr(n, 1));
    n := Or(n, Shr(n, 2));
    n := Or(n, Shr(n, 4));
    n := Or(n, Shr(n, 8));
    n := Or(n, Shr(n, 16));
    n := Or(n, Shr(n, 32));
    r := (n + 1) % WORD;
    assert n == Smear(word - 1);
    SmearRoundsUp(word);
  }

  /** The least power of two that is at least `n`, as a function. */
  function CeilPow(n: nat): (r: nat)
    ensures r >= n && r >= 1
  {
    if n <= 1 then 1 else 2 * CeilPow((n + 1) / 2)
  }

  lemma {:induction false} CeilPowIsCeil(n: nat)
    requires n >= 1
    ensures IsCeilPow(CeilPow(n), n)
    ensures CeilPow(n) < 2 * n
  {
    if n == 1 {
      assert 1 == Pow(0);
    } else {
      var m := (n + 1) / 2;
      CeilPowIsCeil(m);
      var k: nat :| CeilPow(m) == Pow(k);
      assert CeilPow(n) == Pow(k + 1);
      forall p: nat | IsPow(p) && n <= p
        ensures CeilPow(n) <= p
      {
        var j: nat :| p == Pow(j);
        assert IsPow(Pow(j - 1)) && m <= Pow(j - 1);
      }
    }
  }

  /** Rounding a number between `n` and its round-up up again changes nothing. */
  lemma CeilPowBetween(r: nat, n: nat, m: nat)
    requires IsCeilPow(r, n) && n <= m <= r && m >= 1
    ensures r == CeilPow(m)
  {
    CeilPowIsCeil(m);
  }

  lemma CeilPowOfPow(k: nat)
    ensures CeilPow(Pow(k) + 1) == Pow(k + 1)
  {
    CeilPowIsCeil(Pow(k) + 1);
    assert IsPow(Pow(k + 1));
    var j: nat :| CeilPow(Pow(k) + 1) == Pow(j);
    if j < k {
      PowMonotone(j, k);
    } else if j > k + 1 {
      PowMonotone(k + 1, j);
    }
  }
}
