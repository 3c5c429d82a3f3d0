/** Order-preserving filters on sequences: what TArray's removal and
  * filtering loops leave and what they take out. */
module Sequences {

  /** The elements of s that `remove` does not select, in order. */
  function Keep<T>(s: seq<T>, remove: T -> bool): seq<T>
  {
    if |s| == 0 then []
    else (if remove(s[0]) then [] else [s[0]]) + Keep(s[1..], remove)
  }

  /** Keep retains exactly the elements not selected. */
  lemma {:induction false} KeepMembers<T>(s: seq<T>, remove: T -> bool, x: T)
    ensures x in Keep(s, remove) <==> x in s && !remove(x)
  {
    if |s| > 0 {
      KeepMembers(s[1..], remove, x);
      assert s == [s[0]] + s[1..];
    }
  }

  lemma {:induction false} KeepAppend<T>(a: seq<T>, b: seq<T>, remove: T -> bool)
    ensures Keep(a + b, remove) == Keep(a, remove) + Keep(b, remove)
  {
    if |a| == 0 {
      assert a + b == b;
    } else {
      var head: seq<T> := if remove(a[0]) then [] else [a[0]];
      assert (a + b)[0] == a[0];
      assert (a + b)[1..] == a[1..] + b;
      assert Keep(a + b, remove) == head + Keep(a[1..] + b, remove);
      assert Keep(a, remove) == head + Keep(a[1..], remove);
      KeepAppend(a[1..], b, remove);
      assert head + (Keep(a[1..], remove) + Keep(b, remove)) == (head + Keep(a[1..], remove)) + Keep(b, remove);
    }
  }

  /** Keep keeps every occurrence of the elements not selected and none of
    * the others. */
  lemma {:induction false} KeepCounts<T>(s: seq<T>, remove: T -> bool, x: T)
    ensures multiset(Keep(s, remove))[x] == if remove(x) then 0 else multiset(s)[x]
  {
    if |s| > 0 {
      var head: seq<T> := if remove(s[0]) then [] else [s[0]];
      KeepCounts(s[1..], remove, x);
      assert Keep(s, remove) == head + Keep(s[1..], remove);
      assert multiset(Keep(s, remove)) == multiset(head) + multiset(Keep(s[1..], remove));
      assert s == [s[0]] + s[1..];
      assert multiset(s) == multiset([s[0]]) + multiset(s[1..]);
    }
  }

  /** Sequences with the same count of every element are permutations. */
  lemma SameCounts<T>(a: seq<T>, b: seq<T>)
    requires forall x :: multiset(a)[x] == multiset(b)[x]
    ensures multiset(a) == multiset(b)
  {
  }

  /** What holds the survivors in any order holds exactly the elements not
    * selected. */
  lemma SurvivorMembers<T>(s: seq<T>, r: seq<T>, remove: T -> bool)
    requires multiset(r) == multiset(Keep(s, remove))
    ensures forall e :: e in r <==> e in s && !remove(e)
  {
    forall e
      ensures e in r <==> e in s && !remove(e)
    {
      assert e in r <==> e in multiset(r);
      KeepMembers(s, remove, e);
    }
  }

  /** Permutations keep permutations of the same survivors. */
  lemma KeepPermutation<T>(a: seq<T>, b: seq<T>, remove: T -> bool)
    requires multiset(a) == multiset(b)
    ensures multiset(Keep(a, remove)) == multiset(Keep(b, remove))
  {
    forall x
      ensures multiset(Keep(a, remove))[x] == multiset(Keep(b, remove))[x]
    {
      KeepCounts(a, remove, x);
      KeepCounts(b, remove, x);
    }
    SameCounts(Keep(a, remove), Keep(b, remove));
  }

  /** The survivors are taken from s, none more often than there. */
  lemma KeepSubMultiset<T>(s: seq<T>, remove: T -> bool)
    ensures multiset(Keep(s, remove)) <= multiset(s)
  {
    forall x
      ensures multiset(Keep(s, remove))[x] <= multiset(s)[x]
    {
      KeepCounts(s, remove, x);
    }
  }

  /** The elements of s that `pick` selects, in order: what Keep drops. */
  function Select<T>(s: seq<T>, pick: T -> bool): seq<T>
  {
    if |s| == 0 then []
    else (if pick(s[0]) then [s[0]] else []) + Select(s[1..], pick)
  }

  lemma {:induction false} SelectAppend<T>(a: seq<T>, b: seq<T>, pick: T -> bool)
    ensures Select(a + b, pick) == Select(a, pick) + Select(b, pick)
  {
    if |a| == 0 {
      assert a + b == b;
    } else {
      var head: seq<T> := if pick(a[0]) then [a[0]] else [];
      assert (a + b)[0] == a[0];
      assert (a + b)[1..] == a[1..] + b;
      assert Select(a + b, pick) == head + Select(a[1..] + b, pick);
      assert Select(a, pick) == head + Select(a[1..], pick);
      SelectAppend(a[1..], b, pick);
      assert head + (Select(a[1..], pick) + Select(b, pick)) == (head + Select(a[1..], pick)) + Select(b, pick);
    }
  }

  /** Every element of s is kept or selected, as often as it occurs. */
  lemma {:induction false} KeepSelectPartition<T>(s: seq<T>, remove: T -> bool)
    ensures multiset(Keep(s, remove)) + multiset(Select(s, remove)) == multiset(s)
  {
    if |s| > 0 {
      KeepSelectPartition(s[1..], remove);
      assert s == [s[0]] + s[1..];
    }
  }

  /** Select takes exactly the selected elements. */
  lemma {:induction false} SelectMembers<T>(s: seq<T>, pick: T -> bool, x: T)
    ensures x in Select(s, pick) <==> x in s && pick(x)
  {
    if |s| > 0 {
      SelectMembers(s[1..], pick, x);
      assert s == [s[0]] + s[1..];
    }
  }

  /** Extending the prefix by one element extends what Keep and Select
    * give by that element on one side. */
  lemma FilterStep<T>(s: seq<T>, n: nat, pick: T -> bool)
    requires n < |s|
    ensures Keep(s[..n + 1], pick) == Keep(s[..n], pick) + (if pick(s[n]) then [] else [s[n]])
    ensures Select(s[..n + 1], pick) == Select(s[..n], pick) + (if pick(s[n]) then [s[n]] else [])
  {
    assert s[..n + 1] == s[..n] + [s[n]];
    KeepAppend(s[..n], [s[n]], pick);
    SelectAppend(s[..n], [s[n]], pick);
    assert [s[n]][1..] == [];
  }

  /** The filtering loops of the core (Algo::TransformIf, the component
    * iterations that skip invalid entries): the selected elements, in order. */
  method SelectInOrder<T>(s: seq<T>, pick: T -> bool) returns (selected: seq<T>)
    ensures selected == Select(s, pick)
  {
    selected := [];
    var i := 0;
    while i < |s|
      invariant 0 <= i <= |s|
      invariant selected == Select(s[..i], pick)
    {
      FilterStep(s, i, pick);
      if pick(s[i]) {
        selected := selected + [s[i]];
      }
      i := i + 1;
    }
    assert s[..i] == s;
  }

  /** One step of an iterator loop that removes the selected elements in
    * place: the element at the iterator is the next element of the original, and removing it or stepping over
    * it moves the split between the filtered prefix and the rest by one. */
  lemma RemoveCurrentStep<T>(s: seq<T>, n: nat, remaining: seq<T>, i: nat, pick: T -> bool)
    requires n < |s| && remaining == Keep(s[..n], pick) + s[n..] && i == |Keep(s[..n], pick)|
    ensures i < |remaining| && remaining[i] == s[n]
    ensures pick(s[n]) ==>
      remaining[..i] + remaining[i + 1..] == Keep(s[..n + 1], pick) + s[n + 1..] && i == |Keep(s[..n + 1], pick)|
    ensures !pick(s[n]) ==>
      remaining == Keep(s[..n + 1], pick) + s[n + 1..] && i + 1 == |Keep(s[..n + 1], pick)|
    ensures Select(s[..n + 1], pick) == Select(s[..n], pick) + (if pick(s[n]) then [s[n]] else [])
  {
    FilterStep(s, n, pick);
    var kept := Keep(s[..n], pick);
    if pick(s[n]) {
      assert remaining[..i] == kept && remaining[i + 1..] == s[n + 1..];
    } else {
      assert kept + [s[n]] + s[n + 1..] == remaining;
    }
  }

  /** Select takes every occurrence of the selected elements and none of the
    * others. */
  lemma SelectCounts<T>(s: seq<T>, pick: T -> bool, x: T)
    ensures multiset(Select(s, pick))[x] == if pick(x) then multiset(s)[x] else 0
  {
    KeepSelectPartition(s, pick);
    KeepCounts(s, pick, x);
  }

  /** Keep leaves a sequence none of whose elements is selected as it is. */
  lemma {:induction false} KeepNothing<T>(s: seq<T>, remove: T -> bool)
    requires forall k :: 0 <= k < |s| ==> !remove(s[k])
    ensures Keep(s, remove) == s
  {
    if |s| > 0 {
      KeepNothing(s[1..], remove);
      assert s == [s[0]] + s[1..];
    }
  }

  /** Select takes nothing from a sequence none of whose elements is
    * selected. */
  lemma {:induction false} SelectNothing<T>(s: seq<T>, pick: T -> bool)
    requires forall k :: 0 <= k < |s| ==> !pick(s[k])
    ensures Select(s, pick) == []
  {
    if |s| > 0 {
      SelectNothing(s[1..], pick);
    }
  }
}
