/** The 64-by-32-bit divisions behind DIV and IDIV. */
module Divide {
  import opened Words

  function Magnitude(x: int): nat {
    if x < 0 then -x else x
  }

  /** C division rounds towards zero. */
  function Quot(a: int, b: int): int
    requires b != 0
  {
    var q := Magnitude(a) / Magnitude(b);
    if (a < 0) == (b < 0) then q else 0 - q
  }

  /** C remainder takes the sign of the dividend. */
  function Rem(a: int, b: int): int
    requires b != 0
  {
    var r := Magnitude(a) % Magnitude(b);
    if a < 0 then 0 - r else r
  }

  function Signed32(w: Word32): int {
    if w < 0x8000_0000 then w else w - TWO32
  }

  function Pair(edx: Word32, eax: Word32): nat {
    edx * TWO32 + eax
  }

  /** EDX:EAX read as a signed 64-bit number. */
  function SignedPair(edx: Word32, eax: Word32): int {
    Signed32(edx) * TWO32 + eax
  }

  /** What both divisions promise of their two results. */
  predicate Divides(num: int, val: int, quo: int, rem: int) {
    && num == quo * val + rem
    && Magnitude(rem) < Magnitude(val)
    && (rem == 0 || (rem < 0 <==> num < 0))
  }

  predicate Fits32(x: int) {
    -0x8000_0000 <= x < 0x8000_0000
  }

  // -------- arithmetic --------

  lemma AtLeast(b: nat, d: nat)
    requires d >= 1
    ensures b * d >= b
  {
  }

  lemma MinusTimes(x: int, y: int)
    ensures (0 - x) * y == 0 - x * y && x * (0 - y) == 0 - x * y && (0 - x) * (0 - y) == x * y
  {
  }

  lemma DivMod(a: nat, b: nat)
    requires b > 0
    ensures a == (a / b) * b + a % b && 0 <= a % b < b
  {
  }

  /** Quotient and remainder of naturals are the only ones. */
  lemma UniqueNat(b: nat, q: int, r: int, q': int, r': int)
    requires q * b + r == q' * b + r' && 0 <= r < b && 0 <= r' < b
    ensures q == q' && r == r'
  {
    assert (q - q') * b == r' - r;
    if q > q' {
      AtLeast(b, q - q');
    } else if q < q' {
      AtLeast(b, q' - q);
    }
  }

  /** C's quotient and remainder are as promised. */
  lemma QuotDivides(a: int, b: int)
    requires b != 0
    ensures Divides(a, b, Quot(a, b), Rem(a, b))
  {
    var q, r := Magnitude(a) / Magnitude(b), Magnitude(a) % Magnitude(b);
    DivMod(Magnitude(a), Magnitude(b));
    MinusTimes(q, Magnitude(b));
  }

  /** No other results keep the promise. */
  lemma DividesUnique(a: int, b: int, q: int, r: int)
    requires b != 0 && Divides(a, b, q, r)
    ensures q == Quot(a, b) && r == Rem(a, b)
  {
    var s := if (a < 0) == (b < 0) then q else 0 - q;
    MinusTimes(q, b);
    DivMod(Magnitude(a), Magnitude(b));
    assert s * Magnitude(b) + Magnitude(r) == Magnitude(a);
    UniqueNat(Magnitude(b), s, Magnitude(r), Magnitude(a) / Magnitude(b), Magnitude(a) % Magnitude(b));
  }

  lemma QuotientBound(a: nat, b: nat, n: nat)
    requires b > 0
    ensures a / b < n <==> a < n * b
  {
    DivMod(a, b);
    var q := a / b;
    if q < n {
      var d := n - q;
      AtLeast(b, d);
      assert d * b == n * b - q * b;
    } else {
      var d := q - n;
      assert d * b == q * b - n * b;
      assert d * b >= 0;
    }
  }

  /** A negative quotient may be one larger. */
  function Limit(a: int, b: int): nat {
    if (a < 0) == (b < 0) then 0x8000_0000 else 0x8000_0001
  }

  /** When the truncated quotient fits 32 bits, by products and not by dividing. */
  lemma FitsExactly(a: int, b: int)
    requires b != 0
    ensures Fits32(Quot(a, b)) <==> Magnitude(a) < Limit(a, b) * Magnitude(b)
  {
    QuotientBound(Magnitude(a), Magnitude(b), Limit(a, b));
  }

  lemma UnsignedFits(edx: Word32, eax: Word32, val: Word32)
    requires val > 0
    ensures Pair(edx, eax) / val < TWO32 <==> edx < val
  {
    QuotientBound(Pair(edx, eax), val, TWO32);
  }

  class Divider {
    var eax: Word32
    var edx: Word32
    var divexcp: bool

    constructor (eax: Word32, edx: Word32)
      ensures this.eax == eax && this.edx == edx && !divexcp
    {
      this.eax, this.edx, divexcp := eax, edx, false;
    }

    /** Unsigned division, in C's steps: the quotient is cut to 32 bits and compared. */
    method Divl(val: Word32) returns (fault: bool)
      modifies this
      ensures fault <==> old(edx) >= val
      ensures fault ==> eax == old(eax) && edx == old(edx) && divexcp
      ensures !fault ==> Pair(old(edx), old(eax)) == eax * val + edx && edx < val && divexcp == old(divexcp)
    {
      if val == 0 {
        divexcp := true;
        return true;
      }
      var num := Pair(edx, eax);
      UnsignedFits(edx, eax, val);
      DivMod(num, val);
      var quo, rem := num / val, num % val;
      var quo32 := Wrap32(quo);
      if quo != quo32 {
        divexcp := true;
        return true;
      }
      edx := rem;
      eax := quo32;
      return false;
    }

    /** Signed division. The one quotient with no 64-bit value is excluded. */
    method Idivl(val: int) returns (fault: bool)
      requires Fits32(val) && !(SignedPair(edx, eax) == -0x8000_0000_0000_0000 && val == -1)
      modifies this
      ensures var num := SignedPair(old(edx), old(eax));
              fault <==> val == 0 || Magnitude(num) >= Limit(num, val) * Magnitude(val)
      ensures fault ==> eax == old(eax) && edx == old(edx) && divexcp
      ensures !fault ==> Divides(SignedPair(old(edx), old(eax)), val, Signed32(eax), Signed32(edx))
      ensures !fault ==> divexcp == old(divexcp)
    {
      if val == 0 {
        divexcp := true;
        return true;
      }
      var num := SignedPair(edx, eax);
      QuotDivides(num, val);
      FitsExactly(num, val);
      var quo, rem := Quot(num, val), Rem(num, val);
      var quo32 := Signed32(Wrap32(quo));
      SignedWrap(quo);
      SignedWrap(rem);
      if quo != quo32 {
        divexcp := true;
        return true;
      }
      edx := Wrap32(rem);
      eax := Wrap32(quo32);
      return false;
    }
  }

  lemma SignedWrap(x: int)
    ensures Signed32(Wrap32(x)) == x <==> Fits32(x)
  {
  }

  /** EDX:EAX is read as a 64-bit two's complement number, and a 32-bit result is put
      back as one. */
  lemma TwosComplement(edx: Word32, eax: Word32)
    ensures var n := SignedPair(edx, eax);
            && -0x8000_0000_0000_0000 <= n < 0x8000_0000_0000_0000
            && (n == edx * 0x1_0000_0000 + eax || n == edx * 0x1_0000_0000 + eax - 0x1_0000_0000_0000_0000)
    ensures -0x8000_0000 <= Signed32(eax) < 0x8000_0000
    ensures Signed32(eax) == eax || Signed32(eax) == eax - 0x1_0000_0000
  {
  }
}
