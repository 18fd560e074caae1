/** The bits of a number, as shifts and masks see them. */
module Bits {
  /** Bit i of a number, counted from the lowest. */
  predicate TestBit(b: nat, i: nat) {
    if i == 0 then b % 2 == 1 else TestBit(b / 2, i - 1)
  }

  /** The number with bit i set. */
  function SetBit(b: nat, i: nat): nat {
    if i > 0 then 2 * SetBit(b / 2, i - 1) + b % 2 else if b % 2 == 1 then b else b + 1
  }

  function Pow2(n: nat): (r: nat)
    ensures r > 0
  {
    if n == 0 then 1 else 2 * Pow2(n - 1)
  }

  lemma {:induction false} SetBitFits(b: nat, i: nat, n: nat)
    requires i < n && b < Pow2(n)
    ensures SetBit(b, i) < Pow2(n)
  {
    if i > 0 {
      assert b / 2 < Pow2(n - 1);
      SetBitFits(b / 2, i - 1, n - 1);
    }
  }

  lemma {:induction false} SetBitTests(b: nat, i: nat, j: nat)
    ensures TestBit(SetBit(b, i), j) <==> j == i || TestBit(b, j)
  {
    if i > 0 && j > 0 { SetBitTests(b / 2, i - 1, j - 1); }
  }

  lemma {:induction false} ZeroBits(i: nat)
    ensures !TestBit(0, i)
  {
    if i > 0 { ZeroBits(i - 1); }
  }

  /** Bitwise and. */
  function And(a: nat, b: nat): nat {
    if a == 0 || b == 0 then 0 else 2 * And(a / 2, b / 2) + if a % 2 == 1 && b % 2 == 1 then 1 else 0
  }

  /** Bitwise and has the bits both numbers have. */
  lemma {:induction false} AndTests(a: nat, b: nat, i: nat)
    ensures TestBit(And(a, b), i) <==> TestBit(a, i) && TestBit(b, i)
  {
    if a == 0 || b == 0 {
      ZeroBits(i);
    } else if i > 0 {
      AndTests(a / 2, b / 2, i - 1);
    }
  }

  /** The number its lowest k bits make. */
  function Low(a: nat, k: nat): (r: nat)
    ensures r < Pow2(k)
  {
    if k == 0 then 0 else 2 * Low(a / 2, k - 1) + a % 2
  }

  /** What lies above the lowest k bits. */
  function High(a: nat, k: nat): nat {
    if k == 0 then a else High(a / 2, k - 1)
  }

  lemma {:induction false} LowAndHigh(a: nat, k: nat)
    ensures a == Pow2(k) * High(a, k) + Low(a, k)
  {
    if k > 0 {
      LowAndHigh(a / 2, k - 1);
      Doubled(Pow2(k - 1), High(a, k));
    }
  }

  lemma Doubled(m: nat, q: nat)
    ensures 2 * m * q == 2 * (m * q)
  {
  }

  lemma {:induction false} MaskIsLow(a: nat, k: nat)
    ensures And(a, Pow2(k) - 1) == Low(a, k)
  {
    if k == 0 {
      assert Pow2(0) - 1 == 0;
    } else if a == 0 {
      MaskIsLow(0, k - 1);
    } else {
      var p := Pow2(k - 1);
      assert (2 * p - 1) / 2 == p - 1 && (2 * p - 1) % 2 == 1;
      MaskIsLow(a / 2, k - 1);
    }
  }

  /** Quotient and remainder are determined by what they must satisfy. */
  lemma OneRemainder(a: nat, m: nat, q: nat, r: nat)
    requires r < m && a == m * q + r
    ensures a % m == r
  {
    var q', r' := a / m, a % m;
    assert m * q' + r' == m * q + r;
    if q' > q { AtLeastOnce(m, q', q); }
    else if q > q' { AtLeastOnce(m, q, q'); }
  }

  lemma AtLeastOnce(m: nat, p: nat, q: nat)
    requires p > q
    ensures m * p >= m * q + m
  {
    assert m * p == m * (q + 1) + m * (p - q - 1);
  }

  /** Masking with one less than a power of two takes the remainder. */
  lemma MaskIsRemainder(a: nat, k: nat)
    ensures And(a, Pow2(k) - 1) == a % Pow2(k)
  {
    MaskIsLow(a, k);
    LowAndHigh(a, k);
    OneRemainder(a, Pow2(k), High(a, k), Low(a, k));
  }
}
