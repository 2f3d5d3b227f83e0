/** Bytes, optional values and failure-compatible results shared by every module. */
module Common {

  /** One octet, as a number. */
  type byte = b: int | 0 <= b < 256

  datatype Option<+T> = None | Some(value: T)

  /** A Rust `Result`: usable with `:-` in functions and methods. */
  datatype Result<+T, +E> = Ok(value: T) | Err(error: E) {

    predicate IsFailure() {
      Err?
    }

    function PropagateFailure<U>(): Result<U, E>
      requires Err?
    {
      Err(error)
    }

    function Extract(): T
      requires Ok?
    {
      value
    }
  }

  /** 2 to the power `n`. */
  function Pow2(n: nat): (p: nat)
    ensures p > 0
    ensures n > 0 ==> p % 2 == 0
  {
    if n == 0 then 1 else 2 * Pow2(n - 1)
  }

  /** The quotient and remainder of `p * q + r`. */
  lemma DivModOf(p: nat, q: nat, r: nat)
    requires r < p
    ensures (p * q + r) / p == q && (p * q + r) % p == r
  {
    var n := p * q + r;
    var d := n / p;
    assert n == p * d + n % p;
    if d != q {
      var gap := if d > q then d - q else q - d;
      MulMono(p, 1, gap);
    }
  }

  lemma MulMono(p: nat, a: int, b: int)
    requires a <= b
    ensures p * a <= p * b
  {
  }

  function Min(a: int, b: int): int {
    if a <= b then a else b
  }

  function Max(a: int, b: int): int {
    if a >= b then a else b
  }

  /** `n` zero bytes. */
  function Zeros(n: nat): (z: seq<byte>)
    ensures |z| == n && forall i :: 0 <= i < n ==> z[i] == 0
  {
    seq(n, _ => 0)
  }

  /** A slice of a slice. */
  lemma SubSlice<T>(s: seq<T>, i: nat, end: nat, a: nat, b: nat)
    requires a <= b && i + b <= end <= |s|
    ensures s[i..end][a..b] == s[i + a..i + b]
  {
    forall k | 0 <= k < b - a
      ensures s[i..end][a..b][k] == s[i + a..i + b][k]
    {
    }
  }

  /** All the pieces, one after the other. */
  function Concat<T>(pieces: seq<seq<T>>): seq<T> {
    if pieces == [] then [] else pieces[0] + Concat(pieces[1..])
  }

  lemma {:induction false} ConcatAppend<T>(a: seq<seq<T>>, b: seq<seq<T>>)
    ensures Concat(a + b) == Concat(a) + Concat(b)
  {
    if a == [] {
      assert a + b == b;
    } else {
      assert (a + b)[1..] == a[1..] + b;
      ConcatAppend(a[1..], b);
    }
  }
}
