/** Small building blocks shared by every other module. */
module Common {

  datatype Option<+T> = None | Some(value: T)

  /** A returned value or a raised exception; `:-` propagates the exception. */
  datatype Result<+T, +E> = Ok(value: T) | Err(error: E) {
    predicate IsFailure() { Err? }

    function PropagateFailure<U>(): Result<U, E>
      requires Err?
    {
      Err(error)
    }

    function Extract(): T
      requires Ok?
    {
      value
    }
  }

  function Min(a: int, b: int): int { if a <= b then a else b }

  function Max(a: int, b: int): int { if a <= b then b else a }

  function MinR(a: real, b: real): real { if a <= b then a else b }

  function MaxR(a: real, b: real): real { if a <= b then b else a }

  /** `s[lo:hi]` with Python's clipping at the end of the sequence. */
  function Slice<T>(s: seq<T>, lo: nat, hi: nat): seq<T>
    requires lo <= hi
  {
    s[Min(lo, |s|)..Min(hi, |s|)]
  }

  /** A non-empty sequence is its initial part and its last element. */
  lemma Snoc<T>(s: seq<T>)
    requires s != []
    ensures s == s[..|s| - 1] + [s[|s| - 1]]
  {
  }

  ghost predicate Distinct<T>(s: seq<T>) {
    forall i, j :: 0 <= i < j < |s| ==> s[i] != s[j]
  }

  /** A set of naturals below n that holds at least n of them holds them all. */
  lemma {:induction false} FullPrefix(keys: set<nat>, n: nat)
    requires forall k :: k in keys ==> k < n
    requires |keys| >= n
    ensures forall k :: 0 <= k < n ==> k in keys
    ensures |keys| == n
    decreases n
  {
    if n == 0 {
      if k :| k in keys { assert false; }
      assert keys == {};
    } else {
      var rest := keys - {n - 1};
      assert forall k :: k in rest ==> k < n - 1;
      FullPrefix(rest, n - 1);
      assert n - 1 !in keys ==> rest == keys;
      forall k | 0 <= k < n ensures k in keys {
        assert k < n - 1 ==> k in rest;
      }
    }
  }

  /** The members of a duplicate-free sequence number as many as its positions. */
  lemma {:induction false} DistinctCount<T>(s: seq<T>)
    requires Distinct(s)
    ensures |set x | x in s| == |s|
  {
    if s == [] {
      assert (set x | x in s) == {};
    } else {
      var n := |s| - 1;
      DistinctCount(s[..n]);
      assert s == s[..n] + [s[n]];
      assert (set x | x in s) == (set x | x in s[..n]) + {s[n]};
      assert s[n] !in s[..n];
    }
  }
}
