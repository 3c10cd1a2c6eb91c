/** The stand-in embedding used when no embedding endpoint is configured: a vector drawn from the hash blocks of a text,
    block after block until it is long enough, and scaled to length one. Arithmetic is over the reals. */
module Embedding {

  const BLOCK := 32

  type Block = b: seq<int> | |b| == BLOCK && forall i :: 0 <= i < |b| ==> 0 <= b[i] < 256
    witness seq(BLOCK, i => 0)

  function Centred(byte: int): real {
    (byte as real - 127.5) / 127.5
  }

  function Times(a: real, b: real): real {
    a * b
  }

  function Square(x: real): real {
    Times(x, x)
  }

  function SumSquares(v: seq<real>): real {
    if v == [] then 0.0 else SumSquares(v[..|v| - 1]) + Square(v[|v| - 1])
  }

  /** What is asked of `math.sqrt`, rounding apart. */
  ghost predicate SquareRoot(sqrt: real -> real) {
    forall x :: x >= 0.0 ==> sqrt(x) >= 0.0 && Square(sqrt(x)) == x
  }

  /** `hash` gives the block of the text and a block number. */
  function Component(hash: (string, nat) -> Block, text: string, i: nat): real {
    Centred(hash(text, i / BLOCK)[i % BLOCK])
  }

  ghost predicate Drawn(hash: (string, nat) -> Block, text: string, vec: seq<real>) {
    forall i :: 0 <= i < |vec| ==> vec[i] == Component(hash, text, i)
  }

  /** The components before scaling, and the sum of their squares. */
  method Draw(text: string, dim: nat, hash: (string, nat) -> Block) returns (vec: seq<real>, sqSum: real)
    ensures |vec| == dim && sqSum == SumSquares(vec) && Drawn(hash, text, vec)
  {
    hide Centred;
    vec, sqSum := [], 0.0;
    var blockIdx := 0;
    while |vec| < dim
      invariant |vec| <= dim && sqSum == SumSquares(vec)
      invariant |vec| == dim || |vec| == blockIdx * BLOCK
      invariant Drawn(hash, text, vec)
      decreases dim - |vec|
    {
      var block := hash(text, blockIdx);
      var j := 0;
      while j < BLOCK && |vec| < dim
        invariant 0 <= j <= BLOCK && |vec| <= dim && sqSum == SumSquares(vec)
        invariant |vec| == blockIdx * BLOCK + j
        invariant Drawn(hash, text, vec)
        decreases BLOCK - j
      {
        var v := Centred(block[j]);
        PlaceIn(blockIdx, j);
        assert v == Component(hash, text, |vec|);
        SumSnoc(vec, v);
        vec, sqSum := vec + [v], sqSum + Square(v);
        j := j + 1;
      }
      blockIdx := blockIdx + 1;
    }
  }

  /** `mem_embed_deterministic`: exactly `dim` components, together of length one; apart from that scaling the i-th is
      the i-th byte of the blocks, laid evenly between -1 for 0 and 1 for 255. */
  method EmbedDeterministic(text: string, dim: nat, hash: (string, nat) -> Block, sqrt: real -> real)
    returns (unit: seq<real>, ghost norm: real)
    requires SquareRoot(sqrt)
    ensures |unit| == dim
    ensures dim > 0 ==> SumSquares(unit) == 1.0
    ensures norm > 0.0
    ensures forall i :: 0 <= i < dim ==> unit[i] == (2.0 * hash(text, i / 32)[i % 32] as real / 255.0 - 1.0) / norm
  {
    hide SumSquares, Component, Square;
    var vec, sqSum := Draw(text, dim, hash);
    var root := if sqrt(sqSum) == 0.0 then 1.0 else sqrt(sqSum);
    SumPositive(hash, text, vec);
    RootPositive(sqSum, sqrt);
    unit := seq(|vec|, i requires 0 <= i < |vec| => vec[i] / root);
    norm := root;
    forall i | 0 <= i < dim ensures Component(hash, text, i) == 2.0 * hash(text, i / 32)[i % 32] as real / 255.0 - 1.0 {
      ComponentIs(hash, text, i);
    }
    if dim > 0 {
      UnitLength(vec, unit, root);
    }
  }

  lemma ComponentIs(hash: (string, nat) -> Block, text: string, i: nat)
    ensures Component(hash, text, i) == 2.0 * hash(text, i / 32)[i % 32] as real / 255.0 - 1.0
  {}

  lemma SumSnoc(vec: seq<real>, v: real)
    ensures SumSquares(vec + [v]) == SumSquares(vec) + Square(v)
  {
    assert (vec + [v])[..|vec|] == vec;
  }

  lemma PlaceIn(block: nat, j: nat)
    requires j < BLOCK
    ensures (block * BLOCK + j) / BLOCK == block && (block * BLOCK + j) % BLOCK == j
  {}

  lemma TimesSign(a: real, b: real)
    ensures a > 0.0 && b > 0.0 ==> Times(a, b) > 0.0
    ensures a < 0.0 && b < 0.0 ==> Times(a, b) > 0.0
    ensures a == 0.0 ==> Times(a, b) == 0.0
  {
    if a < 0.0 && b < 0.0 {
      var c, d := 0.0 - a, 0.0 - b;
      assert c * d > 0.0;
      assert c * d == a * b;
    }
  }

  lemma SquarePositive(v: real)
    ensures Square(v) >= 0.0 && (v != 0.0 ==> Square(v) > 0.0) && (v == 0.0 ==> Square(v) == 0.0)
  {
    hide Times;
    TimesSign(v, v);
  }

  lemma CentredNonzero(byte: int)
    ensures Centred(byte) != 0.0
  {
    var v := Centred(byte);
    assert v * 127.5 == byte as real - 127.5;
    assert 2.0 * byte as real == (2 * byte) as real && (2 * byte) as real != 255.0;
  }

  lemma {:induction false} SumNonNegative(v: seq<real>)
    ensures SumSquares(v) >= 0.0
  {
    hide Square;
    if v != [] {
      SumNonNegative(v[..|v| - 1]);
      SquarePositive(v[|v| - 1]);
    }
  }

  /** No component is zero, so neither is the sum of squares. */
  lemma SumPositive(hash: (string, nat) -> Block, text: string, vec: seq<real>)
    requires Drawn(hash, text, vec)
    ensures SumSquares(vec) >= 0.0 && (vec != [] ==> SumSquares(vec) > 0.0)
  {
    hide Square, Centred;
    SumNonNegative(vec);
    if vec != [] {
      var n := |vec| - 1;
      SumNonNegative(vec[..n]);
      CentredNonzero(hash(text, n / BLOCK)[n % BLOCK]);
      SquarePositive(vec[n]);
    }
  }

  lemma RootPositive(x: real, sqrt: real -> real)
    requires SquareRoot(sqrt) && x >= 0.0
    ensures sqrt(x) >= 0.0 && (x > 0.0 ==> sqrt(x) > 0.0) && Square(sqrt(x)) == x
  {
    hide Square;
    SquarePositive(sqrt(x));
  }

  lemma {:induction false} ScaledSum(v: seq<real>, u: seq<real>, norm: real)
    requires norm > 0.0 && |u| == |v| && forall i :: 0 <= i < |v| ==> u[i] == v[i] / norm
    ensures Times(SumSquares(u), Square(norm)) == SumSquares(v)
  {
    hide Square, Times;
    if v == [] {
      TimesSign(0.0, Square(norm));
    } else {
      var n := |v| - 1;
      ScaledSum(v[..n], u[..n], norm);
      ScaledSquare(v[n], u[n], norm);
      Distribute(SumSquares(u[..n]), Square(u[n]), Square(norm));
    }
  }

  lemma Distribute(a: real, b: real, c: real)
    ensures Times(a + b, c) == Times(a, c) + Times(b, c)
  {}

  lemma ScaledSquare(x: real, y: real, norm: real)
    requires norm > 0.0 && y == x / norm
    ensures Times(Square(y), Square(norm)) == Square(x)
  {
    assert x == y * norm;
    Rearrange(y, y, norm, norm);
    assert Times(y, norm) == x;
  }

  lemma Rearrange(a: real, b: real, c: real, d: real)
    ensures Times(Times(a, b), Times(c, d)) == Times(Times(a, c), Times(b, d))
  {}

  lemma UnitLength(v: seq<real>, u: seq<real>, norm: real)
    requires norm > 0.0 && |u| == |v| && forall i :: 0 <= i < |v| ==> u[i] == v[i] / norm
    requires Square(norm) == SumSquares(v)
    ensures SumSquares(u) == 1.0
  {
    hide SumSquares, Square, Times;
    ScaledSum(v, u, norm);
    SquarePositive(norm);
    Cancel(SumSquares(u), Square(norm));
  }

  lemma Cancel(t: real, n: real)
    requires n > 0.0 && Times(t, n) == n
    ensures t == 1.0
  {
    assert (t - 1.0) * n == 0.0;
  }
}
