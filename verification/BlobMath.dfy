/** The integer arithmetic of the blob layer (utils/Math.h, DataNodeLayout). */
module BlobMath {
  import opened Bytes

  // ----- Node layout

  const HEADERSIZE_BYTES: nat := 8
  const BLOCKID_LENGTH: nat := 16

  datatype LayoutFields = LayoutFields(maxBytes: nat, maxChildren: nat)

  /** The capacity of a leaf in bytes and of an inner node in children. */
  type Layout = l: LayoutFields | 1 <= l.maxBytes && 2 <= l.maxChildren witness LayoutFields(32, 2)

  /** Every block size that the constructor accepts leaves room for two children. */
  function LayoutFor(blocksize: nat): (r: Result<Layout>)
    ensures r.Err? <==> blocksize < HEADERSIZE_BYTES + 2 * BLOCKID_LENGTH
    ensures r.Ok? ==> HEADERSIZE_BYTES + r.value.maxBytes == blocksize
                      && r.value.maxChildren * BLOCKID_LENGTH <= r.value.maxBytes < (r.value.maxChildren + 1) * BLOCKID_LENGTH
  {
    if blocksize < HEADERSIZE_BYTES + 2 * BLOCKID_LENGTH
    then Result<Layout>.Err("Blocksize too small, not enough space to store two children in an inner node")
    else
      var layout: Layout := LayoutFields(blocksize - HEADERSIZE_BYTES, (blocksize - HEADERSIZE_BYTES) / BLOCKID_LENGTH);
      Result<Layout>.Ok(layout)
  }

  // ----- Powers

  function Pow(base: nat, exponent: nat): (r: nat)
    ensures base > 0 ==> r > 0
  {
    if exponent == 0 then 1 else base * Pow(base, exponent - 1)
  }

  /** The power in 64 bits. */
  function Pow64(base: nat, exponent: nat): nat {
    Pow(base, exponent) % U64_SIZE
  }

  /** intPow: the loop multiplies in 64 bits. */
  method IntPow(base: nat, exponent: nat) returns (result: nat)
    requires base < U64_SIZE
    ensures result == Pow64(base, exponent)
  {
    result := 1;
    var i := 0;
    while i < exponent
      invariant 0 <= i <= exponent
      invariant result == Pow64(base, i)
    {
      MulMod(base, Pow(base, i), U64_SIZE);
      result := (result * base) % U64_SIZE;
      i := i + 1;
    }
  }

  lemma MulMod(a: nat, b: nat, m: nat)
    requires m > 0
    ensures (a * b) % m == ((b % m) * a) % m
  {
    var q, r := b / m, b % m;
    assert a * b == (a * q) * m + r * a by {
      assert b == q * m + r;
    }
    ModAdd(a * q, r * a, m);
  }

  lemma ModAdd(k: nat, r: nat, m: nat)
    requires m > 0
    ensures (k * m + r) % m == r % m
  {
    DivBounds(r, m);
    var q := r / m;
    MulAdd(k, q, m);
    DivIs(k * m + r, m, k + q);
    DivIs(r, m, q);
  }

  // ----- Division

  function CeilDivision(dividend: nat, divisor: nat): nat
    requires divisor > 0
  {
    (dividend + divisor - 1) / divisor
  }

  function MaxZeroSubtraction(minuend: nat, subtrahend: nat): nat {
    if minuend < subtrahend then 0 else minuend - subtrahend
  }

  // ----- Words of 32 and 64 bits

  function Word32(n: nat): (r: nat)
    ensures r < U32_SIZE && (n < U32_SIZE ==> r == n)
  {
    n % U32_SIZE
  }

  function Word64(n: nat): (r: nat)
    ensures r < U64_SIZE && (n < U64_SIZE ==> r == n)
  {
    n % U64_SIZE
  }

  /** ceilDivision of 32-bit numbers: the sum may overflow. */
  function CeilDivision32(dividend: nat, divisor: nat): nat
    requires divisor > 0
  {
    Word32(dividend + divisor - 1) / divisor
  }

  /** The rounding division is exact or, once the sum overflows, zero. */
  lemma CeilDivision32Is(a: nat, b: nat)
    requires 0 < b < U32_SIZE && a < U32_SIZE
    ensures CeilDivision32(a, b) == if a + b - 1 < U32_SIZE then CeilDivision(a, b) else 0
  {
    if a + b - 1 >= U32_SIZE {
      assert Word32(a + b - 1) == a + b - 1 - U32_SIZE < b;
    }
  }

  /** A difference in 32 bits. */
  function Minus32(a: nat, b: nat): nat
    requires b <= U32_SIZE
  {
    Word32(a + U32_SIZE - b)
  }

  /** A sum in 64 bits. */
  function Sum64(a: nat, b: nat): (r: nat)
    ensures r <= a + b
  {
    (a + b) % U64_SIZE
  }

  function Min(a: nat, b: nat): nat { if a < b then a else b }

  function Max(a: nat, b: nat): nat { if a < b then b else a }

  lemma MulMono(a: nat, b: nat, k: nat)
    requires a <= b
    ensures a * k <= b * k
  {
  }

  lemma MulAdd(a: nat, b: nat, k: nat)
    ensures (a + b) * k == a * k + b * k
  {
  }

  lemma DivIs(a: nat, b: nat, q: nat)
    requires b > 0 && q * b <= a < q * b + b
    ensures a / b == q && a % b == a - q * b
  {
    var p := a / b;
    assert p * b + a % b == a;
    if p < q {
      MulMono(p + 1, q, b);
      MulAdd(p, 1, b);
      assert false;
    }
    if q < p {
      MulMono(q + 1, p, b);
      MulAdd(q, 1, b);
      assert false;
    }
  }

  /** The quotient rounded up is the one that covers `a` and no more. */
  lemma CeilIs(a: nat, b: nat, q: nat)
    requires b > 0 && a <= q * b && (q == 0 || q * b - b < a)
    ensures CeilDivision(a, b) == q
  {
    DivIs(a + b - 1, b, q);
  }

  lemma CeilBounds(a: nat, b: nat)
    requires b > 0
    ensures var q := CeilDivision(a, b); a <= q * b && (q == 0 || q * b - b < a) && (a > 0 ==> q > 0)
  {
  }

  lemma DivBounds(a: nat, b: nat)
    requires b > 0
    ensures a / b * b <= a < a / b * b + b
  {
  }

  /** Rounding up commutes with taking out whole multiples. */
  lemma CeilShift(q: nat, a: nat, b: nat)
    requires b > 0
    ensures CeilDivision(q * b + a, b) == q + CeilDivision(a, b)
  {
    var c := CeilDivision(a, b);
    CeilBounds(a, b);
    MulAdd(q, c, b);
    if q + c > 0 {
      if c == 0 {
        assert q * b + a == q * b;
      }
      CeilIs(q * b + a, b, q + c);
    }
  }

  lemma PowMono(b: nat, d: nat)
    requires b >= 2
    ensures Pow(b, d) < Pow(b, d + 1)
  {
  }
}
