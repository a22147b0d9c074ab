/** `InboxDedup` of `store_forward.py`: duplicate detection over the last `capacity` accepted keys. */
module Dedup {
  import opened Common

  datatype Key = Key(sender: string, msgId: nat)

  /** The most recent `capacity` acceptances. */
  function Window(accepted: seq<Key>, capacity: nat): seq<Key> {
    if |accepted| <= capacity then accepted else accepted[|accepted| - capacity..]
  }

  /** What is accepted out of a stream of keys when duplicates within the window are refused. */
  function Accepted(stream: seq<Key>, capacity: nat): seq<Key> {
    if stream == [] then []
    else
      var before, key := Accepted(stream[..|stream| - 1], capacity), stream[|stream| - 1];
      if key in Window(before, capacity) then before else before + [key]
  }

  /** Two acceptances of one key are more than `capacity` acceptances apart. */
  ghost predicate Spread(accepted: seq<Key>, capacity: nat) {
    forall i, j :: 0 <= i < j < |accepted| && accepted[i] == accepted[j] ==> j - i > capacity
  }

  lemma SpreadAppend(accepted: seq<Key>, key: Key, capacity: nat)
    requires Spread(accepted, capacity) && key !in Window(accepted, capacity)
    ensures Spread(accepted + [key], capacity)
  {
    var n := |accepted|;
    var w := Window(accepted, capacity);
    forall i | 0 <= i < n && n - i <= capacity ensures accepted[i] != key {
      assert accepted[i] == w[i - (n - |w|)];
    }
  }

  lemma {:induction false} AcceptedSpread(stream: seq<Key>, capacity: nat)
    ensures Spread(Accepted(stream, capacity), capacity)
  {
    if stream != [] {
      var before := Accepted(stream[..|stream| - 1], capacity);
      AcceptedSpread(stream[..|stream| - 1], capacity);
      if stream[|stream| - 1] !in Window(before, capacity) {
        SpreadAppend(before, stream[|stream| - 1], capacity);
      }
    }
  }

  /** Between two acceptances of one key at least `capacity` other keys are accepted, all of them different. */
  lemma SpreadApart(accepted: seq<Key>, capacity: nat, i: nat, j: nat)
    requires Spread(accepted, capacity) && i < j < |accepted| && accepted[i] == accepted[j]
    ensures i < j - capacity
    ensures var others := accepted[j - capacity..j];
      accepted[j] !in others && |set k | k in others| == capacity
  {
    var others := accepted[j - capacity..j];
    assert forall u :: 0 <= u < |others| ==> others[u] == accepted[j - capacity + u];
    assert Distinct(others);
    DistinctCount(others);
  }

  /** However often messages are sent again, the acceptances of one key are that far apart. */
  lemma OthersInBetween(stream: seq<Key>, capacity: nat, i: nat, j: nat)
    requires i < j < |Accepted(stream, capacity)|
    requires Accepted(stream, capacity)[i] == Accepted(stream, capacity)[j]
    ensures i < j - capacity
    ensures var a := Accepted(stream, capacity);
      var others := a[j - capacity..j];
      a[j] !in others && |set k | k in others| == capacity
  {
    AcceptedSpread(stream, capacity);
    SpreadApart(Accepted(stream, capacity), capacity, i, j);
  }

  /** The window after one more acceptance: the oldest key leaves when the window is full. */
  lemma Slide(accepted: seq<Key>, key: Key, capacity: nat)
    requires Spread(accepted, capacity) && capacity >= 1
    ensures var w := Window(accepted, capacity);
      && Distinct(w) && |w| <= capacity
      && Window(accepted + [key], capacity) == (if |w| >= capacity then w[1..] else w) + [key]
  {
    var w := Window(accepted, capacity);
    forall u, v | 0 <= u < v < |w| ensures w[u] != w[v] {
      assert w[u] == accepted[|accepted| - |w| + u] && w[v] == accepted[|accepted| - |w| + v];
    }
  }

  lemma TailSet<T>(w: seq<T>)
    requires Distinct(w) && w != []
    ensures (set k | k in w[1..]) == (set k | k in w) - {w[0]}
  {
    assert w == [w[0]] + w[1..];
  }

  lemma SnocSet<T>(w: seq<T>, key: T)
    ensures (set k | k in w + [key]) == (set k | k in w) + {key}
  {
  }

  class InboxDedup {
    var seen: set<Key>
    var order: seq<Key>
    const capacity: nat
    /** Every key ever accepted, in order. */
    ghost var accepted: seq<Key>

    ghost predicate Valid()
      reads this
    {
      && capacity >= 1
      && Spread(accepted, capacity)
      && order == Window(accepted, capacity)
      && seen == set k | k in order
    }

    constructor (capacity: int)
      ensures Valid() && accepted == [] && this.capacity == Max(1, capacity)
    {
      this.capacity := Max(1, capacity);
      seen, order, accepted := {}, [], [];
    }

    /** A key is a duplicate exactly when it is among the last `capacity` accepted ones; a hit changes nothing. */
    method IsDuplicate(sender: string, msgId: int) returns (duplicate: bool)
      requires Valid()
      modifies this
      ensures Valid()
      ensures var key := Key(sender, msgId % 0x1_0000_0000);
        && (duplicate <==> key in Window(old(accepted), capacity))
        && accepted == if duplicate then old(accepted) else old(accepted) + [key]
    {
      var key := Key(sender, msgId % 0x1_0000_0000);
      if key in seen { return true; }
      SpreadAppend(accepted, key, capacity);
      Slide(accepted, key, capacity);
      hide Spread, Window;
      if |order| >= capacity {
        TailSet(order);
        var oldest := order[0];
        order := order[1..];
        seen := seen - {oldest};
      }
      SnocSet(order, key);
      seen := seen + {key};
      order := order + [key];
      accepted := accepted + [key];
      return false;
    }
  }
}
