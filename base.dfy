/** Bytes, machine-integer arithmetic of the C reader, and the error type shared by
    every component. */
module Base {

  /** One unsigned byte of the disk image. */
  type byte = x: int | 0 <= x < 256

  const TWO_16: int := 0x1_0000
  const TWO_31: int := 0x8000_0000
  const TWO_32: int := 0x1_0000_0000
  const TWO_64: int := 0x1_0000_0000_0000_0000

  /** The ways a read of the volume can fail. */
  datatype Error =
    | IoError        // a read outside the image, or before its first byte
    | CorruptChain   // a FAT chain that revisits a cluster

  /** A value or an error; usable with `:-`. */
  datatype Result<+T> = Ok(value: T) | Err(error: Error) {
    predicate IsFailure() { Err? }
    function PropagateFailure<U>(): Result<U> requires Err? { Err(error) }
    function Extract(): T requires Ok? { value }
  }

  /** An optional value. */
  datatype Option<+T> = None | Some(value: T)

  /** How a traversal ended: normally at a chain terminator, or with an error. */
  datatype Status = Complete | Failed(error: Error)

  /** What a traversal has produced so far and how it ended. Once a traversal fails it
      produces nothing more. */
  datatype Trace<T> = Trace(out: seq<T>, status: Status)

  /** The output of `a` followed by that of `b`, unless `a` already failed. */
  function Then<T>(a: Trace<T>, b: Trace<T>): Trace<T> {
    if a.status.Failed? then a else Trace(a.out + b.out, b.status)
  }

  /** Sequencing traversals is associative. */
  lemma ThenAssoc<T>(a: Trace<T>, b: Trace<T>, c: Trace<T>)
    ensures Then(Then(a, b), c) == Then(a, Then(b, c))
  {
    if a.status == Complete && b.status == Complete {
      assert (a.out + b.out) + c.out == a.out + (b.out + c.out);
    }
  }

  /** Reduction modulo 2^32: the value an `unsigned int` holds. */
  function Wrap32(x: int): (r: nat)
    ensures r < TWO_32
    ensures 0 <= x < TWO_32 ==> r == x
  {
    x % TWO_32
  }

  /** Reduction modulo 2^64: the value an `unsigned long` holds. */
  function Wrap64(x: int): (r: nat)
    ensures r < TWO_64
    ensures 0 <= x < TWO_64 ==> r == x
  {
    x % TWO_64
  }

  /** Reducing a running `unsigned long` total before each addition gives the reduction
      of the exact sum. */
  lemma Wrap64Add(a: int, b: int)
    ensures Wrap64(Wrap64(a) + b) == Wrap64(a + b)
  {
    var q := a / TWO_64;
    assert a == q * TWO_64 + Wrap64(a);
    assert (Wrap64(a) + b) + q * TWO_64 == a + b;
  }

  /** The 32-bit two's-complement reading of an integer, as a cast to `int` gives it. */
  function Int32(x: int): (r: int)
    ensures -TWO_31 <= r < TWO_31
  {
    var w := Wrap32(x);
    if w < TWO_31 then w else w - TWO_32
  }

  /** A signed 32-bit value read from the image and stored in an `unsigned long`:
      negative values are sign-extended. */
  function SignExtend32(v: nat): (r: nat)
    requires v < TWO_32
    ensures v < TWO_31 ==> r == v
    ensures v >= TWO_31 ==> r >= TWO_64 - TWO_31
    ensures r % TWO_32 == v
  {
    Wrap64(Int32(v))
  }

  /** C division of integers, which truncates toward zero. */
  function CDiv(a: int, b: int): (q: int)
    requires b > 0
    ensures a >= 0 ==> q == a / b
    ensures a < 0 ==> q == -((-a) / b)
  {
    if a >= 0 then a / b else -((-a) / b)
  }

  /** Unsigned 16-bit little-endian field at `off`. */
  function Le16(s: seq<byte>, off: nat): (r: nat)
    requires off + 2 <= |s|
    ensures r < TWO_16
    ensures r % 256 == s[off] && r / 256 == s[off + 1]
  {
    s[off] as int + 256 * s[off + 1] as int
  }

  /** Unsigned 32-bit little-endian field at `off`. */
  function Le32(s: seq<byte>, off: nat): (r: nat)
    requires off + 4 <= |s|
    ensures r < TWO_32
    ensures r % TWO_16 == Le16(s, off) && r / TWO_16 == Le16(s, off + 2)
  {
    Le16(s, off) + TWO_16 * Le16(s, off + 2)
  }

  /** Products of bounded naturals are bounded. */
  lemma MulMonotone(a: nat, b: nat, bigA: nat, bigB: nat)
    requires a <= bigA && b <= bigB
    ensures a * b <= bigA * bigB
  {
    assert a * b <= bigA * b by { assert (bigA - a) * b >= 0; }
    assert bigA * b <= bigA * bigB by { assert bigA * (bigB - b) >= 0; }
  }

  /** The index of the first NUL byte at or after `i`, or `|s|` when there is none. */
  function StrLenFrom(s: seq<byte>, i: nat): (n: nat)
    requires i <= |s|
    ensures i <= n <= |s|
    ensures forall k :: i <= k < n ==> s[k] != 0
    ensures n < |s| ==> s[n] == 0
    decreases |s| - i
  {
    if i == |s| || s[i] == 0 then i else StrLenFrom(s, i + 1)
  }

  /** strlen: the number of bytes before the first NUL, or `|s|` when `s` holds none. */
  function StrLen(s: seq<byte>): (n: nat)
    ensures n <= |s|
    ensures forall k :: 0 <= k < n ==> s[k] != 0
    ensures n < |s| ==> s[n] == 0
  {
    StrLenFrom(s, 0)
  }

  /** The C string held in `s`: everything before the first NUL byte. */
  function CStr(s: seq<byte>): (r: seq<byte>)
    ensures |r| == StrLen(s) && r == s[..|r|]
    ensures 0 !in r
  {
    s[..StrLen(s)]
  }

  /** The first `n` bytes of `s`, or all of `s` when it is shorter. */
  function Take(s: seq<byte>, n: nat): (r: seq<byte>)
    ensures |r| == if n < |s| then n else |s|
    ensures r == s[..|r|]
  {
    if n < |s| then s[..n] else s
  }

  /** `strncmp(a, b, n) == 0` for two C strings `a` and `b` (contents without their NUL):
      both agree on their first `n` characters, counting the terminating NUL. */
  predicate StrNEq(a: seq<byte>, b: seq<byte>, n: nat) {
    Take(a + [0], n) == Take(b + [0], n)
  }

  /** For strings without NUL, `strncmp == 0` holds exactly when the strings are equal,
      or both are at least `n` long and share their first `n` bytes. */
  lemma StrNEqMeaning(a: seq<byte>, b: seq<byte>, n: nat)
    requires 0 !in a && 0 !in b
    ensures StrNEq(a, b, n) <==> (a == b || (n <= |a| && n <= |b| && a[..n] == b[..n]))
  {
    var A, B := a + [0], b + [0];
    if n <= |a| && n <= |b| {
      assert Take(A, n) == A[..n] == a[..n];
      assert Take(B, n) == B[..n] == b[..n];
    } else if |a| == |b| {
      assert Take(A, n) == A && Take(B, n) == B;
      assert StrNEq(a, b, n) == (A == B);
      if A == B { assert a == A[..|a|] == B[..|b|] == b; }
    } else if |a| < |b| {
      assert b[|a|] in b;
      assert Take(A, n)[|a|] != Take(B, n)[|a|];
    } else {
      assert a[|b|] in a;
      assert Take(A, n)[|b|] != Take(B, n)[|b|];
    }
  }
}
