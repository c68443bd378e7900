/** Unsigned machine words as bounded natural numbers, with the bit operations the secure
    channel uses written out: a shift multiplies and truncates, an or of a single bit adds
    the bit unless it is set. */
module Words {

  const TWO_64: nat := 0x1_0000_0000_0000_0000

  type uint64 = x: nat | x < TWO_64
  type byte = x: nat | x < 256

  function Pow2(n: nat): (p: nat)
    ensures p >= 1
  {
    if n == 0 then 1 else 2 * Pow2(n - 1)
  }

  /** Whether bit `d` of `x` is set. */
  predicate Bit(x: nat, d: nat) {
    if d == 0 then x % 2 == 1 else Bit(x / 2, d - 1)
  }

  function ShiftLeft64(x: uint64, n: nat): uint64 {
    (x * Pow2(n)) % TWO_64
  }

  /** `x | 1<<k`. */
  function OrBit64(x: uint64, k: nat): uint64
    requires k < 64
  {
    if Bit(x, k) then x else PowOf64(); AddedBitFits(x, k, 64); x + Pow2(k)
  }

  lemma Pow2Plus8(n: nat)
    ensures Pow2(n + 8) == 256 * Pow2(n)
  {
    assert Pow2(n + 4) == 16 * Pow2(n) by {
      assert Pow2(n + 2) == 4 * Pow2(n);
    }
    assert Pow2(n + 8) == 16 * Pow2(n + 4) by {
      assert Pow2(n + 6) == 4 * Pow2(n + 4);
    }
  }

  lemma PowOf64()
    ensures Pow2(64) == TWO_64
  {
    Pow2Plus8(0);
    Pow2Plus8(8);
    Pow2Plus8(16);
    Pow2Plus8(24);
    Pow2Plus8(32);
    Pow2Plus8(40);
    Pow2Plus8(48);
    Pow2Plus8(56);
    assert Pow2(0) == 1;
  }

  lemma {:induction false} AddedBitFits(x: nat, k: nat, n: nat)
    requires k < n && x < Pow2(n) && !Bit(x, k)
    ensures x + Pow2(k) < Pow2(n)
  {
    var half := x / 2;
    assert x == 2 * half + x % 2 && Pow2(n) == 2 * Pow2(n - 1);
    if k > 0 {
      AddedBitFits(half, k - 1, n - 1);
    }
  }

  lemma {:induction false} AddedBit(x: nat, k: nat, d: nat)
    requires !Bit(x, k)
    ensures Bit(x + Pow2(k), d) <==> d == k || Bit(x, d)
  {
    if k > 0 && d > 0 {
      assert (x + Pow2(k)) / 2 == x / 2 + Pow2(k - 1);
      AddedBit(x / 2, k - 1, d - 1);
    }
  }

  lemma {:induction false} ProductBit(x: nat, n: nat, d: nat)
    ensures Bit(x * Pow2(n), d) <==> d >= n && Bit(x, d - n)
  {
    if n > 0 {
      assert x * Pow2(n) == 2 * (x * Pow2(n - 1));
      if d > 0 {
        ProductBit(x, n - 1, d - 1);
      }
    }
  }

  lemma {:induction false} LowBit(x: nat, high: nat, n: nat, d: nat)
    requires d < n
    ensures Bit(x + high * Pow2(n), d) <==> Bit(x, d)
  {
    assert high * Pow2(n) == 2 * (high * Pow2(n - 1));
    if d > 0 {
      assert (x + high * Pow2(n)) / 2 == x / 2 + high * Pow2(n - 1);
      LowBit(x / 2, high, n - 1, d - 1);
    }
  }

  lemma ShiftedBit(x: uint64, n: nat, d: nat)
    requires d < 64
    ensures Bit(ShiftLeft64(x, n), d) <==> d >= n && Bit(x, d - n)
  {
    PowOf64();
    ProductBit(x, n, d);
    var product := x * Pow2(n);
    LowBit(product % TWO_64, product / TWO_64, 64, d);
  }

  lemma SetBit(x: uint64, k: nat, d: nat)
    requires k < 64
    ensures Bit(OrBit64(x, k), d) <==> d == k || Bit(x, d)
  {
    if !Bit(x, k) {
      AddedBit(x, k, d);
    }
  }

  lemma {:induction false} ZeroHasNoBits(d: nat)
    ensures !Bit(0, d)
  {
    if d > 0 {
      ZeroHasNoBits(d - 1);
    }
  }

  lemma WrappedIncrement(n: nat)
    ensures (n % TWO_64 + 1) % TWO_64 == (n + 1) % TWO_64
  {
    var q, r := n / TWO_64, n % TWO_64;
    assert n + 1 == q * TWO_64 + (r + 1);
    if r + 1 == TWO_64 {
      assert n + 1 == (q + 1) * TWO_64;
    }
  }
}
