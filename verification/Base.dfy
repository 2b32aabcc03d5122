/** Vocabulary shared by every module: optional values, results, machine-integer limits. */
module Base {

  datatype Option<+T> = None | Some(value: T) {
    function GetOr(default: T): T {
      match this
      case Some(v) => v
      case None => default
    }
  }

  datatype Result<+T, +E> = Ok(value: T) | Err(error: E)

  /** An account, or a contract deployed by another address under a salt: deployment is
      deterministic, and different deployers or salts give different addresses. */
  datatype Address = Account(key: nat) | Deployed(deployer: Address, salt: nat)

  const ZERO_ADDRESS := Account(0)

  const U32_MAX: nat := 0xFFFF_FFFF
  const U64_MAX: nat := 0xFFFF_FFFF_FFFF_FFFF
  const U128_MAX: nat := 0xFFFF_FFFF_FFFF_FFFF_FFFF_FFFF_FFFF_FFFF
  const I128_MAX: int := 0x7FFF_FFFF_FFFF_FFFF_FFFF_FFFF_FFFF_FFFF
  const I128_MIN: int := -I128_MAX - 1

  function Min(a: nat, b: nat): nat { if a <= b then a else b }

  function Max(a: nat, b: nat): nat { if a >= b then a else b }

  /** Rust's `saturating_sub` on unsigned integers. */
  function SatSub(a: nat, b: nat): nat { if a >= b then a - b else 0 }

  /** Rust's `saturating_add` on an unsigned integer with the given maximum. */
  function SatAdd(a: nat, b: nat, max: nat): nat { Min(a + b, max) }

  /** No value occurs twice in `s`. */
  ghost predicate NoDuplicates<T>(s: seq<T>) {
    forall i, j :: 0 <= i < j < |s| ==> s[i] != s[j]
  }

  /** `s` without any occurrence of `x`, order kept. */
  function Without<T(==)>(s: seq<T>, x: T): seq<T> {
    if s == [] then []
    else Without(s[..|s| - 1], x) + if s[|s| - 1] == x then [] else [s[|s| - 1]]
  }

  lemma {:induction false} WithoutMembers<T>(s: seq<T>, x: T)
    ensures forall y :: y in Without(s, x) <==> y in s && y != x
  {
    if s != [] {
      WithoutMembers(s[..|s| - 1], x);
      assert s == s[..|s| - 1] + [s[|s| - 1]];
    }
  }

  lemma {:induction false} WithoutAbsent<T>(s: seq<T>, x: T)
    requires x !in s
    ensures Without(s, x) == s
  {
    if s != [] {
      WithoutAbsent(s[..|s| - 1], x);
      assert s == s[..|s| - 1] + [s[|s| - 1]];
    }
  }

  lemma LastIsNew<T>(s: seq<T>)
    requires s != [] && NoDuplicates(s)
    ensures NoDuplicates(s[..|s| - 1]) && s[|s| - 1] !in s[..|s| - 1]
  {
  }

  lemma {:induction false} WithoutLength<T>(s: seq<T>, x: T)
    requires NoDuplicates(s)
    ensures |Without(s, x)| == |s| - if x in s then 1 else 0
  {
    hide NoDuplicates;
    if s != [] {
      var rest, last := s[..|s| - 1], s[|s| - 1];
      LastIsNew(s);
      WithoutLength(rest, x);
      assert s == rest + [last];
    }
  }

  lemma {:induction false} WithoutDistinct<T>(s: seq<T>, x: T)
    requires NoDuplicates(s)
    ensures NoDuplicates(Without(s, x))
  {
    if s != [] {
      LastIsNew(s);
      WithoutDistinct(s[..|s| - 1], x);
      WithoutMembers(s[..|s| - 1], x);
    }
  }

  /** Removing a value removes it and nothing else. */
  lemma WithoutRemoves<T>(s: seq<T>, x: T)
    ensures forall y :: y in Without(s, x) <==> y in s && y != x
    ensures NoDuplicates(s) ==> NoDuplicates(Without(s, x))
    ensures NoDuplicates(s) ==> |Without(s, x)| == |s| - if x in s then 1 else 0
    ensures |Without(s, x)| <= |s|
    ensures x !in s ==> Without(s, x) == s
  {
    hide NoDuplicates, Without;
    WithoutMembers(s, x);
    WithoutShrinks(s, x);
    if x !in s {
      WithoutAbsent(s, x);
    }
    if NoDuplicates(s) {
      WithoutLength(s, x);
      WithoutDistinct(s, x);
    }
  }

  lemma {:induction false} WithoutShrinks<T>(s: seq<T>, x: T)
    ensures |Without(s, x)| <= |s|
  {
    if s != [] {
      WithoutShrinks(s[..|s| - 1], x);
    }
  }

  /** What is left is what came before and after, in the same order. */
  lemma {:induction false} WithoutCuts<T>(before: seq<T>, x: T, after: seq<T>)
    requires x !in before && x !in after
    ensures Without(before + [x] + after, x) == before + after
  {
    var s := before + [x] + after;
    if after == [] {
      WithoutAbsent(before, x);
      assert s[..|s| - 1] == before;
    } else {
      var n := |after| - 1;
      WithoutCuts(before, x, after[..n]);
      assert after == after[..n] + [after[n]];
      assert s[..|s| - 1] == before + [x] + after[..n];
    }
  }

  /** Division rounds down. */
  lemma QuotientFloor(x: nat, n: nat)
    requires n > 0
    ensures (x / n) * n <= x < (x / n + 1) * n
  {
    assert x == (x / n) * n + x % n;
  }

  /** Integer products grow with their factors. */
  lemma MulMonotone(n: int, a: int, b: int)
    requires n >= 0 && 0 <= a <= b
    ensures 0 <= n * a <= n * b
  {
    assert n * b == n * a + n * (b - a);
  }

  lemma MulOrder(a: nat, b: nat, n: nat)
    requires a < b
    ensures a * n + n <= b * n
  {
    assert b * n == (a + 1) * n + (b - a - 1) * n;
  }
}
