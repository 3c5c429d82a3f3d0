/** TMultisourceValue and its resolvers (MultisourceValue.h): a value that
  * many sources modify at once, with a resolver that settles the conflict.
  * Each resolver is modelled as one class holding both its own state and the
  * default value that TMultisourceValue keeps for it. */
module MultisourceValues {
  import opened Wrappers
  import opened Sequences

  const Int32Max: int := 0x7fff_ffff

  // ---------------------------------------------------------------------
  // TArray::RemoveAllSwap, shared by the priority and the sum resolver.

  /** RemoveAllSwap: every selected element is removed by moving the last
    * element into its place, so the survivors are those of Keep, in an
    * order of their own. */
  method RemoveAllSwap<T>(s: seq<T>, remove: T -> bool) returns (r: seq<T>)
    ensures multiset(r) == multiset(Keep(s, remove))
    ensures forall k :: 0 <= k < |r| ==> !remove(r[k])
    ensures (forall k :: 0 <= k < |s| ==> !remove(s[k])) ==> r == s
  {
    r := s;
    ghost var untouched := forall k :: 0 <= k < |s| ==> !remove(s[k]);
    var i := 0;
    while i < |r|
      invariant 0 <= i <= |r|
      invariant forall k :: 0 <= k < i ==> !remove(r[k])
      invariant forall x :: !remove(x) ==> multiset(r)[x] == multiset(s)[x]
      invariant untouched ==> r == s
      decreases |r| - i
    {
      if remove(r[i]) {
        var last := |r| - 1;
        var next := r[i := r[last]][..last];
        SwapRemovesOne(r, next, i);
        assert forall k :: 0 <= k < i ==> next[k] == r[k];
        r := next;
      } else {
        i := i + 1;
      }
    }
    SurvivorsAreKept(s, r, remove);
  }

  /** A sequence holding no selected element, and every element of s not
    * selected as often as s, holds exactly the survivors of s. */
  lemma SurvivorsAreKept<T>(s: seq<T>, r: seq<T>, remove: T -> bool)
    requires forall k :: 0 <= k < |r| ==> !remove(r[k])
    requires forall x :: !remove(x) ==> multiset(r)[x] == multiset(s)[x]
    ensures multiset(r) == multiset(Keep(s, remove))
  {
    forall x
      ensures multiset(r)[x] == multiset(Keep(s, remove))[x]
    {
      KeepCounts(s, remove, x);
      assert x in multiset(r) ==> x in r;
    }
    SameCounts(r, Keep(s, remove));
  }

  /** Replacing an element by the last one and dropping the last removes
    * one occurrence of it. */
  lemma SwapRemovesOne<T>(r: seq<T>, next: seq<T>, i: nat)
    requires i < |r|
    requires next == r[i := r[|r| - 1]][..|r| - 1]
    ensures multiset(next) == multiset(r) - multiset{r[i]}
  {
    var last := |r| - 1;
    var updated := r[i := r[last]];
    assert updated == next + [r[last]];
    assert multiset(updated) == multiset(next) + multiset{r[last]};
    assert multiset(updated) == multiset(r) - multiset{r[i]} + multiset{r[last]};
    forall x
      ensures multiset(next)[x] == (multiset(r) - multiset{r[i]})[x]
    {
      assert multiset(updated)[x] == multiset(next)[x] + multiset{r[last]}[x];
    }
  }

  /** An element occurring twice occurs at two positions. */
  lemma {:induction false} TwoOccurrences<T>(s: seq<T>, e: T)
    requires multiset(s)[e] >= 2
    ensures exists i, j :: 0 <= i < j < |s| && s[i] == e && s[j] == e
  {
    assert s == [s[0]] + s[1..];
    if s[0] == e {
      assert e in multiset(s[1..]);
      var j :| 0 <= j < |s[1..]| && s[1..][j] == e;
      assert s[0] == e && s[j + 1] == e;
    } else {
      TwoOccurrences(s[1..], e);
      var i, j :| 0 <= i < j < |s[1..]| && s[1..][i] == e && s[1..][j] == e;
      assert s[i + 1] == e && s[j + 1] == e;
    }
  }

  /** An element at two positions occurs twice. */
  lemma TwoPositions<T>(s: seq<T>, i: nat, j: nat)
    requires i < j < |s| && s[i] == s[j]
    ensures multiset(s)[s[i]] >= 2
  {
    assert s == s[..j] + [s[j]] + s[j + 1..];
    assert s[..j][i] == s[i];
    assert s[i] in multiset(s[..j]);
  }

  // ---------------------------------------------------------------------
  // TPriorityBasedResolver (MultisourceValue.h:90-147).

  /** FSourceEntry. */
  datatype Entry<V> = Entry(sourceId: int, priority: int, value: V)

  /** The selection RemoveAllSwap is given by PopValue. */
  function HasSourceId<V>(sourceId: int): Entry<V> -> bool
  {
    (e: Entry<V>) => e.sourceId == sourceId
  }

  /** The condition under which GetValue's loop moves to a new entry: a
    * higher priority, or the same priority and a later source. */
  predicate Beats<V>(e: Entry<V>, best: Entry<V>)
  {
    e.priority > best.priority || (e.priority == best.priority && e.sourceId > best.sourceId)
  }

  /** The entry GetValue's loop ends on: the first, replaced by every later
    * entry that beats the one held. */
  function Winner<V>(s: seq<Entry<V>>): Entry<V>
    requires |s| > 0
  {
    if |s| == 1 then s[0]
    else
      var best := Winner(s[..|s| - 1]);
      if Beats(s[|s| - 1], best) then s[|s| - 1] else best
  }

  predicate UniqueIds<V>(s: seq<Entry<V>>)
  {
    forall i, j :: 0 <= i < j < |s| ==> s[i].sourceId != s[j].sourceId
  }

  /** Entries taken from a sequence with unique ids, no entry more often
    * than there, have unique ids. */
  lemma SubMultisetKeepsUniqueIds<V>(s: seq<Entry<V>>, r: seq<Entry<V>>)
    requires multiset(r) <= multiset(s) && UniqueIds(s)
    ensures UniqueIds(r)
  {
    forall k1, k2 | 0 <= k1 < k2 < |r|
      ensures r[k1].sourceId != r[k2].sourceId
    {
      if r[k1] == r[k2] {
        TwoPositions(r, k1, k2);
        TwoOccurrences(s, r[k1]);
      } else {
        assert r[k1] in multiset(s) && r[k2] in multiset(s);
        var i :| 0 <= i < |s| && s[i] == r[k1];
        var j :| 0 <= j < |s| && s[j] == r[k2];
        assert i != j;
        if i < j {
          assert s[i].sourceId != s[j].sourceId;
        } else {
          assert s[j].sourceId != s[i].sourceId;
        }
      }
    }
  }

  /** Entries taken from a sequence with ids in 1..last have ids in 1..last. */
  lemma SubMultisetKeepsRange<V>(s: seq<Entry<V>>, r: seq<Entry<V>>, last: int)
    requires forall e :: e in r ==> e in s
    requires forall k :: 0 <= k < |s| ==> 1 <= s[k].sourceId <= last
    ensures forall k :: 0 <= k < |r| ==> 1 <= r[k].sourceId <= last
  {
    forall k | 0 <= k < |r|
      ensures 1 <= r[k].sourceId <= last
    {
      assert r[k] in s;
    }
  }

  /** The winner is an entry no other entry beats: one of highest priority,
    * and the latest among those. */
  lemma {:induction false} WinnerIsMaximal<V>(s: seq<Entry<V>>)
    requires |s| > 0
    ensures Winner(s) in s
    ensures forall e :: e in s ==> !Beats(e, Winner(s))
  {
    if |s| > 1 {
      var prefix := s[..|s| - 1];
      WinnerIsMaximal(prefix);
      assert s == prefix + [s[|s| - 1]];
    }
  }

  /** With unique ids at most one entry is beaten by no other, so it is the
    * winner. */
  lemma WinnerUnique<V>(s: seq<Entry<V>>, w: Entry<V>)
    requires UniqueIds(s) && w in s
    requires forall e :: e in s ==> !Beats(e, w)
    ensures Winner(s) == w
  {
    WinnerIsMaximal(s);
    var v := Winner(s);
    var i :| 0 <= i < |s| && s[i] == v;
    var j :| 0 <= j < |s| && s[j] == w;
    assert s[i].sourceId == s[j].sourceId;
  }

  /** The winner depends only on which entries there are, not on their
    * order, so the reordering of RemoveAllSwap never changes GetValue. */
  lemma WinnerOrderIndependent<V>(s: seq<Entry<V>>, t: seq<Entry<V>>)
    requires |s| > 0 && UniqueIds(s) && UniqueIds(t)
    requires forall e :: e in s <==> e in t
    ensures |t| > 0 && Winner(s) == Winner(t)
  {
    WinnerIsMaximal(s);
    WinnerUnique(t, Winner(s));
  }

  class PriorityBasedResolver<V> {
    /** TMultisourceValue::DefaultValue. */
    var defaultValue: V
    var lastSourceId: int
    var sources: seq<Entry<V>>

    /** Every id was handed out by PushValue: positive, at most
      * LastSourceId, and no two entries share one. */
    ghost predicate Valid()
      reads this
    {
      && 0 <= lastSourceId <= Int32Max
      && (forall k :: 0 <= k < |sources| ==> 1 <= sources[k].sourceId <= lastSourceId)
      && UniqueIds(sources)
    }

    /** The TMultisourceValue constructor with a default value
      * (MultisourceValue.h:27-29). */
    constructor (defaultValue: V)
      ensures this.defaultValue == defaultValue && lastSourceId == 0 && sources == []
      ensures Valid()
    {
      this.defaultValue := defaultValue;
      lastSourceId := 0;
      sources := [];
    }

    /** SetDefaultValue (MultisourceValue.h:31-34). */
    method SetDefaultValue(v: V)
      modifies this
      ensures defaultValue == v && lastSourceId == old(lastSourceId) && sources == old(sources)
    {
      defaultValue := v;
    }

    /** PushValue (MultisourceValue.h:101-107): the new entry gets the id
      * ++LastSourceId, which is greater than every earlier one; the int32
      * counter must not overflow. */
    method PushValue(value: V, priority: int) returns (id: int)
      requires Valid() && lastSourceId < Int32Max
      modifies this
      ensures id == old(lastSourceId) + 1 && lastSourceId == id
      ensures sources == old(sources) + [Entry(id, priority, value)]
      ensures forall k :: 0 <= k < |old(sources)| ==> old(sources)[k].sourceId < id
      ensures defaultValue == old(defaultValue)
      ensures Valid()
    {
      lastSourceId := lastSourceId + 1;
      id := lastSourceId;
      sources := sources + [Entry(id, priority, value)];
    }

    /** PopValue (MultisourceValue.h:109-112): every entry of that id goes,
      * the others stay, possibly reordered; an unknown id changes nothing. */
    method PopValue(id: int)
      requires Valid()
      modifies this
      ensures multiset(sources) == multiset(Keep(old(sources), HasSourceId(id)))
      ensures forall e :: e in sources <==> e in old(sources) && e.sourceId != id
      ensures (forall k :: 0 <= k < |old(sources)| ==> old(sources)[k].sourceId != id) ==> sources == old(sources)
      ensures lastSourceId == old(lastSourceId) && defaultValue == old(defaultValue)
      ensures Valid()
    {
      ghost var before := sources;
      var remaining := RemoveAllSwap(sources, HasSourceId(id));
      sources := remaining;
      SurvivorMembers(before, sources, HasSourceId(id));
      SubMultisetKeepsRange(before, sources, lastSourceId);
      KeepSubMultiset(before, HasSourceId(id));
      SubMultisetKeepsUniqueIds(before, sources);
    }

    /** GetValue (MultisourceValue.h:114-132): the default value without
      * sources, else the value of the winning entry. */
    method GetValue() returns (r: V)
      ensures |sources| == 0 ==> r == defaultValue
      ensures |sources| > 0 ==> r == Winner(sources).value
    {
      if |sources| == 0 {
        return defaultValue;
      }
      var best: Option<Entry<V>> := None;
      var k := 0;
      while k < |sources|
        invariant 0 <= k <= |sources|
        invariant k == 0 ==> best == None
        invariant k > 0 ==> best == Some(Winner(sources[..k]))
      {
        assert sources[..k + 1][..k] == sources[..k];
        if best == None || Beats(sources[k], best.value) {
          best := Some(sources[k]);
        }
        k := k + 1;
      }
      assert sources[..k] == sources;
      r := best.value.value;
    }
  }

  /** Sequences that are permutations of each other hold the same entries. */
  lemma SameMembers<T>(s: seq<T>, t: seq<T>)
    requires multiset(s) == multiset(t)
    ensures forall e :: e in s <==> e in t
  {
    forall e
      ensures e in s <==> e in t
    {
      assert e in s <==> e in multiset(s);
      assert e in t <==> e in multiset(t);
    }
  }

  /** The entries of MultisourceValueTest.cpp:38 without the latest, and
    * then without the priority-1 source. */
  lemma TestPops()
    ensures Keep([Entry(1, 0, 0), Entry(2, 1, 1), Entry(3, 0, 2), Entry(4, 2, 3)], HasSourceId(4))
      == [Entry(1, 0, 0), Entry(2, 1, 1), Entry(3, 0, 2)]
    ensures Keep([Entry(1, 0, 0), Entry(2, 1, 1), Entry(3, 0, 2)], HasSourceId(2))
      == [Entry(1, 0, 0), Entry(3, 0, 2)]
  {
    var four := [Entry(1, 0, 0), Entry(2, 1, 1), Entry(3, 0, 2), Entry(4, 2, 3)];
    assert four[1..][1..][1..][1..] == [];
    assert Keep(four[1..][1..][1..], HasSourceId(4)) == [];
    var three := [Entry(1, 0, 0), Entry(2, 1, 1), Entry(3, 0, 2)];
    assert three[1..][1..][1..] == [];
    assert Keep(three[1..][1..], HasSourceId(2)) == [Entry(3, 0, 2)];
  }

  /** Who wins among the entries left by those pops. */
  lemma TestWinners()
    ensures UniqueIds([Entry(1, 0, 0), Entry(2, 1, 1), Entry(3, 0, 2)])
    ensures Winner([Entry(1, 0, 0), Entry(2, 1, 1), Entry(3, 0, 2)]) == Entry(2, 1, 1)
    ensures UniqueIds([Entry(1, 0, 0), Entry(3, 0, 2)])
    ensures Winner([Entry(1, 0, 0), Entry(3, 0, 2)]) == Entry(3, 0, 2)
  {
    var three := [Entry(1, 0, 0), Entry(2, 1, 1), Entry(3, 0, 2)];
    assert three[..2][..1] == [Entry(1, 0, 0)];
    var two := [Entry(1, 0, 0), Entry(3, 0, 2)];
    assert two[..1] == [Entry(1, 0, 0)];
  }

  /** MultisourceValueTest.cpp:12-22: a value without sources, and one
    * emptied again, yields its default. */
  method NoSourcesYieldDefault() returns (empty: int, emptied: int)
    ensures empty == 42 && emptied == 42
  {
    var value := new PriorityBasedResolver(42);
    empty := value.GetValue();
    var id := value.PushValue(666, 0);
    value.PopValue(id);
    emptied := value.GetValue();
  }

  /** MultisourceValueTest.cpp:26-40: pushes of (value, priority) (0, 0),
    * (1, 1), (2, 0) and (3, 2) yield 0, 1, 1 and 3. */
  method PushFourSources() returns (value: PriorityBasedResolver<int>, r0: int, r1: int, r2: int, r3: int)
    ensures fresh(value) && value.Valid()
    ensures value.sources == [Entry(1, 0, 0), Entry(2, 1, 1), Entry(3, 0, 2), Entry(4, 2, 3)]
    ensures r0 == 0 && r1 == 1 && r2 == 1 && r3 == 3
  {
    value := new PriorityBasedResolver(42);
    var id0 := value.PushValue(0, 0);
    r0 := value.GetValue();
    var id1 := value.PushValue(1, 1);
    WinnerUnique(value.sources, Entry(2, 1, 1));
    r1 := value.GetValue();
    var id2 := value.PushValue(2, 0);
    WinnerUnique(value.sources, Entry(2, 1, 1));
    r2 := value.GetValue();
    var id3 := value.PushValue(3, 2);
    WinnerUnique(value.sources, Entry(4, 2, 3));
    r3 := value.GetValue();
  }

  /** MultisourceValueTest.cpp:42-44: popping the latest source yields 1
    * again, whatever order the removal left. */
  method PopLatestSource() returns (value: PriorityBasedResolver<int>, r: int)
    ensures fresh(value) && value.Valid()
    ensures multiset(value.sources) == multiset([Entry(1, 0, 0), Entry(2, 1, 1), Entry(3, 0, 2)])
    ensures r == 1
  {
    var r0, r1, r2, r3;
    value, r0, r1, r2, r3 := PushFourSources();
    value.PopValue(4);
    TestPops();
    TestWinners();
    SameMembers(value.sources, [Entry(1, 0, 0), Entry(2, 1, 1), Entry(3, 0, 2)]);
    WinnerOrderIndependent([Entry(1, 0, 0), Entry(2, 1, 1), Entry(3, 0, 2)], value.sources);
    r := value.GetValue();
  }

  /** MultisourceValueTest.cpp:46-48: popping the priority-1 source then
    * yields 2, the later of the two priority-0 sources. */
  method LatestHighestPriorityWins() returns (r: int)
    ensures r == 2
  {
    var value, before := PopLatestSource();
    ghost var three := value.sources;
    value.PopValue(2);
    TestPops();
    KeepPermutation(three, [Entry(1, 0, 0), Entry(2, 1, 1), Entry(3, 0, 2)], HasSourceId(2));
    TestWinners();
    SameMembers(value.sources, [Entry(1, 0, 0), Entry(3, 0, 2)]);
    WinnerOrderIndependent([Entry(1, 0, 0), Entry(3, 0, 2)], value.sources);
    r := value.GetValue();
  }

  // ---------------------------------------------------------------------
  // TIfAnyResolver (MultisourceValue.h:56-84).

  class IfAnyResolver<S(==)> {
    var defaultValue: bool
    /** The TSet of sources. */
    var sources: set<S>

    constructor (defaultValue: bool)
      ensures this.defaultValue == defaultValue && sources == {}
    {
      this.defaultValue := defaultValue;
      sources := {};
    }

    method SetDefaultValue(v: bool)
      modifies this
      ensures defaultValue == v && sources == old(sources)
    {
      defaultValue := v;
    }

    /** PushValue (MultisourceValue.h:66-69): a source already present is
      * not added twice. */
    method PushValue(source: S)
      modifies this
      ensures sources == old(sources) + {source} && defaultValue == old(defaultValue)
    {
      sources := sources + {source};
    }

    /** PopValue (MultisourceValue.h:71-74). */
    method PopValue(source: S)
      modifies this
      ensures sources == old(sources) - {source} && defaultValue == old(defaultValue)
    {
      sources := sources - {source};
    }

    /** GetValue (MultisourceValue.h:76-80): the default exactly when no
      * source is present. */
    function GetValue(): (r: bool)
      reads this
      ensures r == defaultValue <==> sources == {}
    {
      if sources == {} then defaultValue else !defaultValue
    }
  }

  /** MultisourceValueTest.cpp:60-67: without voters the default. */
  method IfAnyDefaults() returns (defaultTrue: bool, defaultFalse: bool)
    ensures defaultTrue && !defaultFalse
  {
    var t := new IfAnyResolver<int>(true);
    var f := new IfAnyResolver<int>(false);
    defaultTrue := t.GetValue();
    defaultFalse := f.GetValue();
  }

  /** MultisourceValueTest.cpp:69-90 for one default: any voter yields its
    * negation, and the default comes back once the last voter is gone. */
  method VotersYieldNegation(default: bool) returns (votes: seq<bool>)
    ensures votes == [!default, !default, !default, default]
  {
    var value := new IfAnyResolver<int>(default);
    value.PushValue(1);
    var oneVoter := value.GetValue();
    value.PushValue(2);
    var twoVoters := value.GetValue();
    value.PopValue(1);
    var oneAgain := value.GetValue();
    value.PopValue(2);
    var none := value.GetValue();
    votes := [oneVoter, twoVoters, oneAgain, none];
  }

  /** A voter pushed twice and popped once is gone. */
  method PushedTwicePoppedOnce() returns (value: bool)
    ensures !value
  {
    var once := new IfAnyResolver<int>(false);
    once.PushValue(7);
    once.PushValue(7);
    once.PopValue(7);
    value := once.GetValue();
  }

  // ---------------------------------------------------------------------
  // TSumResolver (MultisourceValue.h:151-185).

  datatype SumEntry<S> = SumEntry(sourceId: S, value: int)

  function HasSumSourceId<S(==)>(sourceId: S): SumEntry<S> -> bool
  {
    (e: SumEntry<S>) => e.sourceId == sourceId
  }

  /** Algo::TransformAccumulate of the values from 0, a left fold. */
  function Total<S>(s: seq<SumEntry<S>>): int
  {
    if |s| == 0 then 0 else Total(s[..|s| - 1]) + s[|s| - 1].value
  }

  /** Taking an entry out of any position takes its value out of the
    * total. */
  lemma {:induction false} TotalRemoveAt<S>(s: seq<SumEntry<S>>, j: nat)
    requires j < |s|
    ensures Total(s) == s[j].value + Total(s[..j] + s[j + 1..])
  {
    var prefix := s[..|s| - 1];
    if j == |s| - 1 {
      assert s[..j] + s[j + 1..] == prefix;
    } else {
      TotalRemoveAt(prefix, j);
      assert s[..j] + s[j + 1..] == (prefix[..j] + prefix[j + 1..]) + [s[|s| - 1]];
    }
  }

  /** The total does not depend on the order of the entries. */
  lemma {:induction false} TotalPermutation<S>(a: seq<SumEntry<S>>, b: seq<SumEntry<S>>)
    requires multiset(a) == multiset(b)
    ensures Total(a) == Total(b)
    decreases |a|
  {
    if |a| == 0 {
      assert |b| == |multiset(b)| == 0;
    } else {
      var x := a[|a| - 1];
      var prefix := a[..|a| - 1];
      assert a == prefix + [x];
      assert x in multiset(b);
      var j :| 0 <= j < |b| && b[j] == x;
      var rest := b[..j] + b[j + 1..];
      assert b == b[..j] + [b[j]] + b[j + 1..];
      assert multiset(rest) == multiset(b) - multiset{x};
      TotalPermutation(prefix, rest);
      TotalRemoveAt(b, j);
    }
  }

  lemma {:induction false} TotalAppend<S>(a: seq<SumEntry<S>>, b: seq<SumEntry<S>>)
    ensures Total(a + b) == Total(a) + Total(b)
    decreases |b|
  {
    if |b| == 0 {
      assert a + b == a;
    } else {
      var prefix := b[..|b| - 1];
      TotalAppend(a, prefix);
      assert (a + b)[..|a + b| - 1] == a + prefix;
    }
  }

  /** The total splits into the entries a selection keeps and those it
    * selects. */
  lemma {:induction false} TotalPartition<S>(s: seq<SumEntry<S>>, remove: SumEntry<S> -> bool)
    ensures Total(s) == Total(Keep(s, remove)) + Total(Select(s, remove))
  {
    if |s| > 0 {
      var prefix := s[..|s| - 1];
      var x := s[|s| - 1];
      TotalPartition(prefix, remove);
      assert s == prefix + [x];
      KeepAppend(prefix, [x], remove);
      SelectAppend(prefix, [x], remove);
      assert [x][1..] == [];
      TotalAppend(Keep(prefix, remove), Keep([x], remove));
      TotalAppend(Select(prefix, remove), Select([x], remove));
    }
  }

  class SumResolver<S(==)> {
    /** TMultisourceValue::DefaultValue, which this resolver never reads. */
    var defaultValue: int
    var sources: seq<SumEntry<S>>

    constructor (defaultValue: int)
      ensures this.defaultValue == defaultValue && sources == []
    {
      this.defaultValue := defaultValue;
      sources := [];
    }

    /** PushValue (MultisourceValue.h:161-164): an entry per call, also for
      * a source already present. */
    method PushValue(sourceId: S, value: int)
      modifies this
      ensures sources == old(sources) + [SumEntry(sourceId, value)]
      ensures GetValue() == old(GetValue()) + value
      ensures defaultValue == old(defaultValue)
    {
      sources := sources + [SumEntry(sourceId, value)];
      assert sources[..|sources| - 1] == old(sources);
    }

    /** PopValue (MultisourceValue.h:166-169): every entry of that source
      * goes, and the total loses exactly their values. */
    method PopValue(sourceId: S)
      modifies this
      ensures multiset(sources) == multiset(Keep(old(sources), HasSumSourceId(sourceId)))
      ensures forall e :: e in sources <==> e in old(sources) && e.sourceId != sourceId
      ensures (forall k :: 0 <= k < |old(sources)| ==> old(sources)[k].sourceId != sourceId) ==> sources == old(sources)
      ensures GetValue() == Total(Keep(old(sources), HasSumSourceId(sourceId)))
      ensures GetValue() == old(GetValue()) - Total(Select(old(sources), HasSumSourceId(sourceId)))
      ensures defaultValue == old(defaultValue)
    {
      ghost var before := sources;
      var remaining := RemoveAllSwap(sources, HasSumSourceId(sourceId));
      sources := remaining;
      SurvivorMembers(before, sources, HasSumSourceId(sourceId));
      TotalPermutation(sources, Keep(before, HasSumSourceId(sourceId)));
      TotalPartition(before, HasSumSourceId(sourceId));
    }

    /** GetValue (MultisourceValue.h:171-174): the total of every entry,
      * 0 without any. */
    function GetValue(): int
      reads this
    {
      Total(sources)
    }
  }

  /** Source 1 pushes 1, source 2 pushes 2, source 1 pushes 3. */
  method PushOneTwoThree() returns (sum: SumResolver<int>)
    ensures fresh(sum) && sum.sources == [SumEntry(1, 1), SumEntry(2, 2), SumEntry(1, 3)]
  {
    sum := new SumResolver<int>(0);
    sum.PushValue(1, 1);
    sum.PushValue(2, 2);
    sum.PushValue(1, 3);
  }

  /** Two sources pushing 1, 2 and 3 give 6, and popping the source of 1
    * and 3 leaves 2. */
  method SumScenario() returns (all: int, afterPop: int)
    ensures all == 6 && afterPop == 2
  {
    var sum := PushOneTwoThree();
    ghost var pushed := sum.sources;
    assert Total(pushed) == 6 by {
      assert pushed[..2][..1][..0] == [];
      assert Total(pushed[..2][..1]) == 1;
      assert Total(pushed[..2]) == 3;
    }
    all := sum.GetValue();
    assert Keep(pushed, HasSumSourceId(1)) == [SumEntry(2, 2)] by {
      assert pushed[1..][1..][1..] == [];
      assert Keep(pushed[1..][1..], HasSumSourceId(1)) == [];
    }
    sum.PopValue(1);
    afterPop := sum.GetValue();
  }

  /** Popping a source that pushed nothing changes nothing. */
  method SumPopAbsent() returns (before: int, after: int, entries: seq<SumEntry<int>>)
    ensures before == 2 && after == 2 && entries == [SumEntry(2, 2)]
  {
    var sum := new SumResolver<int>(0);
    sum.PushValue(2, 2);
    before := sum.GetValue();
    sum.PopValue(3);
    after := sum.GetValue();
    entries := sum.sources;
  }
}
