/**
 * Sequence helpers shared by the membership lists, the solution-id lists and
 * the page state machines.
 */
module Seqs {
  import opened Wrappers

  /** No element occurs twice. */
  predicate NoDup<T(==)>(s: seq<T>) {
    forall i, j :: 0 <= i < j < |s| ==> s[i] != s[j]
  }

  /**
   * `java.util.List.remove(Object)`: drop the first occurrence of `x`, if any,
   * keeping the order of everything else.
   */
  function RemoveFirst<T(==,!new)>(s: seq<T>, x: T): (r: seq<T>)
    ensures x !in s ==> r == s
    ensures x in s ==> |r| == |s| - 1
    ensures multiset(r) == multiset(s) - multiset{x}
    ensures forall y :: y != x ==> (y in r <==> y in s)
  {
    if |s| == 0 then []
    else
      assert s == [s[0]] + s[1..];
      if s[0] == x then s[1..]
      else [s[0]] + RemoveFirst(s[1..], x)
  }

  /** The tail of a duplicate-free list is duplicate-free and does not hold the head. */
  lemma TailNoDup<T>(s: seq<T>)
    requires NoDup(s) && s != []
    ensures NoDup(s[1..]) && s[0] !in s[1..]
  {
    forall i, j | 0 <= i < j < |s[1..]| ensures s[1..][i] != s[1..][j] {
      assert s[1..][i] == s[i + 1] && s[1..][j] == s[j + 1];
    }
    forall i | 0 <= i < |s[1..]| ensures s[1..][i] != s[0] {
      assert s[1..][i] == s[i + 1];
    }
  }

  /** Putting a fresh head on a duplicate-free list keeps it duplicate-free. */
  lemma ConsNoDup<T>(h: T, r: seq<T>)
    requires NoDup(r) && h !in r
    ensures NoDup([h] + r)
  {
    forall i, j | 0 <= i < j < |[h] + r| ensures ([h] + r)[i] != ([h] + r)[j] {
      if i == 0 {
        assert ([h] + r)[j] == r[j - 1];
      } else {
        assert ([h] + r)[i] == r[i - 1] && ([h] + r)[j] == r[j - 1];
      }
    }
  }

  /** Removing the first occurrence from a duplicate-free list removes every occurrence. */
  lemma {:induction false} RemoveFirstNoDup<T(!new)>(s: seq<T>, x: T)
    requires NoDup(s)
    ensures x !in RemoveFirst(s, x)
    ensures NoDup(RemoveFirst(s, x))
  {
    if |s| != 0 {
      TailNoDup(s);
      if s[0] != x {
        RemoveFirstNoDup(s[1..], x);
        ConsNoDup(s[0], RemoveFirst(s[1..], x));
      }
    }
  }

  /** Appending an element that is not yet present keeps a list duplicate-free. */
  lemma AppendFreshNoDup<T>(s: seq<T>, x: T)
    requires NoDup(s) && x !in s
    ensures NoDup(s + [x])
  {
    forall i, j | 0 <= i < j < |s + [x]| ensures (s + [x])[i] != (s + [x])[j] {
      if j == |s| {
        assert (s + [x])[i] == s[i];
      } else {
        assert (s + [x])[i] == s[i] && (s + [x])[j] == s[j];
      }
    }
  }

  /** Removing an element just appended to a list that did not hold it gives the list back. */
  lemma {:induction false} RemoveFirstAppended<T(!new)>(s: seq<T>, x: T)
    requires x !in s
    ensures RemoveFirst(s + [x], x) == s
  {
    if |s| == 0 {
      assert s + [x] == [x];
    } else {
      assert (s + [x])[1..] == s[1..] + [x];
      assert x !in s[1..];
      RemoveFirstAppended(s[1..], x);
      assert s == [s[0]] + s[1..];
    }
  }

  /** The head and tail of a concatenation whose left part is non-empty. */
  lemma SplitAppend<T>(a: seq<T>, b: seq<T>)
    requires a != []
    ensures (a + b)[0] == a[0]
    ensures (a + b)[1..] == a[1..] + b
  {
  }

  /**
   * Feeds `events` one by one to `step`, threading the state and
   * concatenating what each step emits.
   */
  function Fold<S, E, O>(step: (S, E) -> Handled<seq<O>, S>, s: S, events: seq<E>): Handled<seq<O>, S>
    decreases |events|
  {
    if events == [] then Handled([], s)
    else
      var first := step(s, events[0]);
      var rest := Fold(step, first.state, events[1..]);
      Handled(first.response + rest.response, rest.state)
  }

  /** Folding `a + b` is folding `a`, then folding `b` from where `a` left off. */
  lemma {:induction false} FoldAppend<S, E, O>(step: (S, E) -> Handled<seq<O>, S>, s: S, a: seq<E>, b: seq<E>)
    ensures var ra := Fold(step, s, a);
      var rb := Fold(step, ra.state, b);
      Fold(step, s, a + b) == Handled(ra.response + rb.response, rb.state)
    decreases |a|
  {
    if a == [] {
      assert a + b == b;
      assert [] + Fold(step, s, b).response == Fold(step, s, b).response;
    } else {
      var first := step(s, a[0]);
      var ra := Fold(step, first.state, a[1..]);
      var rb := Fold(step, ra.state, b);
      SplitAppend(a, b);
      FoldAppend(step, first.state, a[1..], b);
      assert first.response + (ra.response + rb.response) == (first.response + ra.response) + rb.response;
    }
  }
}
