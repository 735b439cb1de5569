/** Masking arithmetic on naturals, as the ring buffers and the arena use it. */
module Bits {

  /** The number of values of a 64-bit word. */
  const WORD: nat := 0x1_0000_0000_0000_0000

  function Pow2(k: nat): (p: nat)
    ensures p >= 1
  {
    if k == 0 then 1 else 2 * Pow2(k - 1)
  }

  predicate IsPow2(n: nat) {
    n == 1 || (n > 1 && n % 2 == 0 && IsPow2(n / 2))
  }

  /** Bitwise "and" of two naturals, low bit first. */
  function And(x: nat, y: nat): nat {
    if x == 0 || y == 0 then 0 else (x % 2) * (y % 2) + 2 * And(x / 2, y / 2)
  }

  function Log2(n: nat): (k: nat)
    requires IsPow2(n)
    ensures Pow2(k) == n
  {
    if n == 1 then 0 else 1 + Log2(n / 2)
  }

  lemma {:induction false} Pow2IsPow2(k: nat)
    ensures IsPow2(Pow2(k))
  {
    if k > 0 {
      Pow2IsPow2(k - 1);
      assert Pow2(k) / 2 == Pow2(k - 1);
    }
  }

  lemma Pow2OfWord()
    ensures Pow2(64) == WORD
  {
    Times256(0, 1);
    Times256(8, 0x100);
    Times256(16, 0x1_0000);
    Times256(24, 0x100_0000);
    Times256(32, 0x1_0000_0000);
    Times256(40, 0x100_0000_0000);
    Times256(48, 0x1_0000_0000_0000);
    Times256(56, 0x100_0000_0000_0000);
  }

  lemma WordIsPow2()
    ensures IsPow2(WORD)
  {
    Pow2OfWord();
    Pow2IsPow2(64);
  }

  lemma Times256(k: nat, p: nat)
    requires Pow2(k) == p
    ensures Pow2(k + 8) == 256 * p
  {
    assert Pow2(k + 2) == 4 * p;
    assert Pow2(k + 4) == 16 * p;
    assert Pow2(k + 6) == 64 * p;
  }

  /** Masking with n - 1 is reduction modulo n when n is a power of two. */
  lemma {:induction false} MaskIsMod(x: nat, n: nat)
    requires IsPow2(n)
    ensures And(x, n - 1) == x % n
    decreases n
  {
    if n == 1 {
    } else if x != 0 {
      hide And;
      var h := n / 2;
      assert n == 2 * h;
      MaskIsMod(x / 2, h);
      ModByHalves(x, h);
      AndOddMask(x, h);
    }
  }

  lemma AndOddMask(x: nat, h: nat)
    requires h > 0
    ensures And(x, 2 * h - 1) == x % 2 + 2 * And(x / 2, h - 1)
  {
    var y := 2 * h - 1;
    assert y % 2 == 1 && y / 2 == h - 1;
  }

  lemma ModByHalves(x: nat, h: nat)
    requires h > 0
    ensures x % (2 * h) == x % 2 + 2 * ((x / 2) % h)
  {
    var y := x / 2;
    var q, r := y / h, y % h;
    assert y == q * h + r;
    assert x == (2 * h) * q + (2 * r + x % 2);
    ModUnique(x, 2 * h, q, 2 * r + x % 2);
  }

  /** Quotient and remainder are determined by the division equation. */
  lemma ModUnique(x: int, d: int, q: int, r: int)
    requires d > 0 && 0 <= r < d && x == d * q + r
    ensures x % d == r && x / d == q
  {
    var q', r' := x / d, x % d;
    assert x == d * q' + r';
    SameQuotient(d, q, r, q', r');
  }

  lemma SameQuotient(d: int, q: int, r: int, q': int, r': int)
    requires d > 0 && 0 <= r < d && 0 <= r' < d && d * q + r == d * q' + r'
    ensures q == q' && r == r'
  {
    if q > q' {
      AtLeastOneStep(d, q' + 1, q);
    } else if q < q' {
      AtLeastOneStep(d, q + 1, q');
    }
  }

  lemma {:induction false} AtLeastOneStep(d: int, a: int, b: int)
    requires d > 0 && a <= b
    ensures d * a <= d * b && d * a == d * (a - 1) + d
    decreases b - a
  {
    if a < b {
      AtLeastOneStep(d, a, b - 1);
    }
  }
}

/** Slot numbering of the ring buffers: position p of an unbounded sequence lives in slot p mod n. */
module Ring {
  import Bits

  /** The slot of position `pos` in a ring of `n` slots, by repeated subtraction. */
  function SlotIndex(pos: nat, n: nat): (i: nat)
    requires n > 0
    ensures i < n
  {
    if pos < n then pos else SlotIndex(pos - n, n)
  }

  /** The source computes `pos & (N - 1)`; for a power of two that is this slot. */
  lemma SlotIndexIsMask(pos: nat, n: nat)
    requires Bits.IsPow2(n)
    ensures SlotIndex(pos, n) == Bits.And(pos, n - 1) == pos % n
  {
    Bits.MaskIsMod(pos, n);
    SlotIndexIsMod(pos, n);
  }

  lemma {:induction false} SlotIndexIsMod(pos: nat, n: nat)
    requires n > 0
    ensures SlotIndex(pos, n) == pos % n
  {
    if pos < n {
      Bits.ModUnique(pos, n, 0, pos);
    } else {
      SlotIndexIsMod(pos - n, n);
      var q, r := (pos - n) / n, (pos - n) % n;
      assert pos == n * (q + 1) + r;
      Bits.ModUnique(pos, n, q + 1, r);
    }
  }

  /** Two positions share a slot only if they are a whole lap apart. */
  lemma {:induction false} Distinct(a: nat, b: nat, n: nat)
    requires n > 0 && a < b < a + n
    ensures SlotIndex(a, n) != SlotIndex(b, n)
    decreases b
  {
    if a >= n {
      Distinct(a - n, b - n, n);
    } else if b >= n {
      assert SlotIndex(b, n) == b - n;
    }
  }

  lemma Lap(a: nat, n: nat)
    requires n > 0
    ensures SlotIndex(a + n, n) == SlotIndex(a, n)
  {}

  /** Every slot is the slot of exactly one position of each window of length n. */
  lemma {:induction false} WindowHas(i: nat, lo: nat, n: nat) returns (p: nat)
    requires i < n
    ensures lo <= p < lo + n && SlotIndex(p, n) == i
    decreases lo
  {
    if lo == 0 {
      p := i;
    } else {
      p := WindowHas(i, lo - 1, n);
      if p == lo - 1 {
        Lap(p, n);
        p := p + n;
      }
    }
  }
}
