/**
 JavaScript's bitwise operators. Operands and results are represented by their residues modulo
 2^32; the sign that JavaScript gives to the result of | and << is the same residue.
 */
module JsBits {
  import opened Radix

  const WORD: nat := 0x1_0000_0000

  function ToUint32(x: int): nat {
    x % WORD
  }

  function Or(a: nat, b: nat): nat {
    if a == 0 && b == 0 then 0
    else 2 * Or(a / 2, b / 2) + if a % 2 == 1 || b % 2 == 1 then 1 else 0
  }

  function And(a: nat, b: nat): nat {
    if a == 0 || b == 0 then 0
    else 2 * And(a / 2, b / 2) + if a % 2 == 1 && b % 2 == 1 then 1 else 0
  }

  function Xor(a: nat, b: nat): nat {
    if a == 0 && b == 0 then 0
    else 2 * Xor(a / 2, b / 2) + if a % 2 != b % 2 then 1 else 0
  }

  /** a << k */
  function Shl(a: nat, k: nat): nat {
    (a * Pow(2, k)) % WORD
  }

  /** a >>> k */
  function Shr(a: nat, k: nat): nat {
    PowPositive(2, k);
    a / Pow(2, k)
  }

  lemma {:induction false} OrZero(a: nat, b: nat)
    ensures Or(a, b) == 0 <==> a == 0 && b == 0
  {
    if a != 0 || b != 0 {
      OrZero(a / 2, b / 2);
    }
  }

  lemma {:induction false} XorZero(a: nat, b: nat)
    ensures Xor(a, b) == 0 <==> a == b
  {
    if a != 0 || b != 0 {
      XorZero(a / 2, b / 2);
    }
  }

  lemma {:induction false} OrOfZero(b: nat)
    ensures Or(0, b) == b
  {
    if b != 0 {
      OrOfZero(b / 2);
    }
  }

  /** Or puts disjoint bit fields side by side. */
  lemma {:induction false} OrFields(x: nat, k: nat, y: nat)
    requires y < Pow(2, k)
    ensures Or(x * Pow(2, k), y) == x * Pow(2, k) + y
  {
    if k == 0 {
      OrOfZero(x);
      OrCommutes(x, 0);
    } else if x == 0 {
      OrOfZero(y);
    } else {
      var h := x * Pow(2, k - 1);
      assert x * Pow(2, k) == 2 * h;
      OrFields(x, k - 1, y / 2);
    }
  }

  lemma {:induction false} OrCommutes(a: nat, b: nat)
    ensures Or(a, b) == Or(b, a)
  {
    if a != 0 || b != 0 {
      OrCommutes(a / 2, b / 2);
    }
  }

  /** And with 2^k - 1 keeps the k lowest bits. */
  lemma {:induction false} AndMask(x: nat, k: nat)
    ensures Pow(2, k) > 0 && And(x, Pow(2, k) - 1) == x % Pow(2, k)
    decreases k
  {
    hide And;
    PowPositive(2, k);
    if k == 0 {
      AndZero(x);
    } else {
      PowPositive(2, k - 1);
      AndMask(x / 2, k - 1);
      AndMaskStep(x, Pow(2, k - 1));
    }
  }

  lemma AndMaskStep(x: nat, p: nat)
    requires p > 0 && And(x / 2, p - 1) == (x / 2) % p
    ensures And(x, 2 * p - 1) == x % (2 * p)
  {
    hide And;
    ModTimes(x, 2, p);
    AndUnfold(x, p - 1);
    assert 2 * (p - 1) + 1 == 2 * p - 1;
  }

  lemma AndZero(x: nat)
    ensures And(x, 0) == 0 == x % 1
  {
  }

  lemma AndUnfold(a: nat, c: nat)
    ensures And(a, 2 * c + 1) == 2 * And(a / 2, c) + a % 2
  {
    assert (2 * c + 1) / 2 == c;
  }

  /** The powers of two that appear as masks and shifts. */
  lemma SmallPowers()
    ensures Pow(2, 0) == 1 && Pow(2, 1) == 2 && Pow(2, 2) == 4 && Pow(2, 3) == 8 && Pow(2, 4) == 16
    ensures Pow(2, 5) == 32 && Pow(2, 6) == 64 && Pow(2, 7) == 128 && Pow(2, 8) == 256
    ensures Pow(2, 16) == 0x1_0000 && Pow(2, 24) == 0x100_0000 && Pow(2, 32) == WORD
  {
    PowAdd(2, 8, 8);
    PowAdd(2, 16, 8);
    PowAdd(2, 16, 16);
  }
}
