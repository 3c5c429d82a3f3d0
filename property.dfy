/** ModifyAndPropagateChange (Property.h:48-100): applies a change to an
  * object and, when the object is a class default object or an archetype,
  * to every instance derived from it, archetypes before their instances.
  * Objects are values of a type O; the engine queries the function reads
  * (HasAnyFlags, GetArchetypeInstances, IsValid with IsA, GetArchetype) are
  * its parameters, and the calls of the change function and of Modify are
  * returned in the order they happen. */
module Properties {
  import opened Sequences

  /** The selection of the candidates whose archetype is `archetype`. */
  function InstanceOf<O(==)>(archetypeOf: O -> O, archetype: O): O -> bool
  {
    (o: O) => archetypeOf(o) == archetype
  }

  /** ArchetypeInstances after Algo::TransformIf (Property.h:63-73): the
    * valid instances of ObjectType among the archetype instances of a CDO or
    * archetype, in their order; none for any other object. */
  function Candidates<O>(isArchetype: bool, instances: seq<O>, eligible: O -> bool): (r: seq<O>)
  {
    if isArchetype then Select(instances, eligible) else []
  }

  /** Only valid instances become candidates, each as often as it was
    * reported, and only for a CDO or an archetype. */
  lemma CandidatesAreEligible<O>(isArchetype: bool, instances: seq<O>, eligible: O -> bool, o: O)
    ensures o in Candidates(isArchetype, instances, eligible) <==> isArchetype && o in instances && eligible(o)
    ensures multiset(Candidates(isArchetype, instances, eligible)) <= multiset(instances)
  {
    if isArchetype {
      SelectMembers(instances, eligible, o);
      KeepSelectPartition(instances, eligible);
    }
  }

  /** The iterator loop of Property.h:87-96: every candidate whose archetype
    * is the object just changed is appended to the queue and removed from
    * the candidates in place; the others stay in order. */
  method EnqueueInstancesOf<O(==)>(candidates: seq<O>, queue: seq<O>, archetypeOf: O -> O, changed: O)
    returns (remaining: seq<O>, extended: seq<O>)
    ensures remaining == Keep(candidates, InstanceOf(archetypeOf, changed))
    ensures extended == queue + Select(candidates, InstanceOf(archetypeOf, changed))
  {
    var isInstance := InstanceOf(archetypeOf, changed);
    remaining := candidates;
    extended := queue;
    var i := 0;
    ghost var n := 0;
    while i < |remaining|
      invariant 0 <= n <= |candidates| && 0 <= i <= |remaining|
      invariant remaining == Keep(candidates[..n], isInstance) + candidates[n..]
      invariant i == |Keep(candidates[..n], isInstance)|
      invariant extended == queue + Select(candidates[..n], isInstance)
      decreases |remaining| - i
    {
      RemoveCurrentStep(candidates, n, remaining, i, isInstance);
      if archetypeOf(remaining[i]) == changed {
        extended := extended + [remaining[i]];
        remaining := remaining[..i] + remaining[i + 1..];
      } else {
        i := i + 1;
      }
      n := n + 1;
    }
    assert candidates[..n] == candidates;
  }

  /** The archetype of every entry after the first was changed earlier. */
  ghost predicate ArchetypesFirst<O>(order: seq<O>, archetypeOf: O -> O, changedCount: nat)
  {
    forall k :: 1 <= k < |order| ==>
      exists j :: 0 <= j < k && j < changedCount && order[j] == archetypeOf(order[k])
  }

  /** The state of the worklist loop: `changes` were popped and changed,
    * `queue` waits, and `candidates` were not enqueued yet. Everything
    * enqueued after the modified object was a candidate, after its
    * archetype was changed, and no candidate left has a changed archetype. */
  ghost predicate Worklist<O>(modified: O, initial: seq<O>, archetypeOf: O -> O,
                              changes: seq<O>, queue: seq<O>, candidates: seq<O>)
  {
    && |changes + queue| >= 1 && (changes + queue)[0] == modified
    && multiset((changes + queue)[1..]) + multiset(candidates) == multiset(initial)
    && ArchetypesFirst(changes + queue, archetypeOf, |changes|)
    && (forall k :: 0 <= k < |candidates| ==> archetypeOf(candidates[k]) !in changes)
  }

  /** ModifyAndPropagateChange: `changes` lists the objects the change
    * function is applied to, in order, and `modifyCalls` the objects Modify
    * is called on. */
  method ModifyAndPropagateChange<O(==)>(modified: O, isArchetype: bool, instances: seq<O>,
                                         eligible: O -> bool, archetypeOf: O -> O)
    returns (changes: seq<O>, modifyCalls: seq<O>)
    ensures |changes| >= 1 && changes[0] == modified
    ensures !isArchetype ==> changes == [modified]
    ensures multiset(changes[1..]) <= multiset(Candidates(isArchetype, instances, eligible))
    ensures ArchetypesFirst(changes, archetypeOf, |changes|)
    ensures forall c :: archetypeOf(c) in changes ==>
      multiset(changes[1..])[c] == multiset(Candidates(isArchetype, instances, eligible))[c]
    ensures modifyCalls == [modified]
  {
    ghost var initial := Candidates(isArchetype, instances, eligible);
    var candidates: seq<O> := [];
    if isArchetype {
      candidates := SelectInOrder(instances, eligible);
    }
    var queue := [modified];
    changes := [];
    assert ([] + queue)[1..] == [];
    while |queue| > 0
      invariant Worklist(modified, initial, archetypeOf, changes, queue, candidates)
      invariant !isArchetype ==> candidates == [] && changes + queue == [modified]
      decreases |candidates|, |queue|
    {
      ghost var changed := changes;
      ghost var waiting := queue;
      ghost var before := candidates;
      var current := queue[0];
      queue := queue[1..];
      changes := changes + [current];
      candidates, queue := EnqueueInstancesOf(candidates, queue, archetypeOf, current);
      WorklistStep(modified, initial, archetypeOf, changed, waiting, before);
    }
    assert changes + queue == changes;
    Completeness(changes, candidates, initial, archetypeOf);
    modifyCalls := [modified];
  }

  /** One iteration of the worklist loop keeps its invariant. */
  lemma WorklistStep<O>(modified: O, initial: seq<O>, archetypeOf: O -> O,
                        changes: seq<O>, queue: seq<O>, candidates: seq<O>)
    requires |queue| > 0 && Worklist(modified, initial, archetypeOf, changes, queue, candidates)
    ensures Worklist(modified, initial, archetypeOf, changes + [queue[0]],
      queue[1..] + Select(candidates, InstanceOf(archetypeOf, queue[0])),
      Keep(candidates, InstanceOf(archetypeOf, queue[0])))
  {
    var isInstance := InstanceOf(archetypeOf, queue[0]);
    var enqueued := changes + queue;
    var remaining := Keep(candidates, isInstance);
    var next := changes + [queue[0]] + (queue[1..] + Select(candidates, isInstance));
    assert enqueued[|changes|] == queue[0];
    assert next == enqueued + Select(candidates, isInstance);
    PropagationStep(enqueued, candidates, archetypeOf, |changes|, remaining, next);
    forall k | 0 <= k < |remaining|
      ensures archetypeOf(remaining[k]) !in changes + [queue[0]]
    {
      KeepMembers(candidates, isInstance, remaining[k]);
    }
  }

  /** One iteration keeps the invariant: popping the object at position
    * `popped` and appending the candidates whose archetype it is. */
  lemma PropagationStep<O>(enqueued: seq<O>, before: seq<O>, archetypeOf: O -> O, popped: nat,
                           remaining: seq<O>, next: seq<O>)
    requires popped < |enqueued| && ArchetypesFirst(enqueued, archetypeOf, popped)
    requires remaining == Keep(before, InstanceOf(archetypeOf, enqueued[popped]))
    requires next == enqueued + Select(before, InstanceOf(archetypeOf, enqueued[popped]))
    ensures ArchetypesFirst(next, archetypeOf, popped + 1)
    ensures |next| >= 1 && next[0] == enqueued[0]
    ensures multiset(next[1..]) + multiset(remaining) == multiset(enqueued[1..]) + multiset(before)
  {
    var taken := Select(before, InstanceOf(archetypeOf, enqueued[popped]));
    forall k | 1 <= k < |next|
      ensures exists j :: 0 <= j < k && j <= popped && next[j] == archetypeOf(next[k])
    {
      if k < |enqueued| {
        assert next[k] == enqueued[k];
        var j :| 0 <= j < k && j < popped && enqueued[j] == archetypeOf(enqueued[k]);
        assert next[j] == enqueued[j];
      } else {
        assert next[k] == taken[k - |enqueued|] && taken[k - |enqueued|] in taken;
        SelectMembers(before, InstanceOf(archetypeOf, enqueued[popped]), next[k]);
        assert next[popped] == enqueued[popped];
      }
    }
    assert next[1..] == enqueued[1..] + taken;
    KeepSelectPartition(before, InstanceOf(archetypeOf, enqueued[popped]));
  }

  /** When the queue is empty, every candidate whose archetype was changed
    * has been changed as often as it was a candidate. */
  lemma Completeness<O>(changes: seq<O>, left: seq<O>, initial: seq<O>, archetypeOf: O -> O)
    requires |changes| >= 1
    requires multiset(changes[1..]) + multiset(left) == multiset(initial)
    requires forall k :: 0 <= k < |left| ==> archetypeOf(left[k]) !in changes
    ensures forall c :: archetypeOf(c) in changes ==> multiset(changes[1..])[c] == multiset(initial)[c]
  {
    forall c | archetypeOf(c) in changes
      ensures multiset(changes[1..])[c] == multiset(initial)[c]
    {
      assert c !in left;
    }
  }

  /** An object that is neither a CDO nor an archetype is changed once,
    * whatever instances are reported. */
  method PlainObjectChangedOnce() returns (changes: seq<int>, modifyCalls: seq<int>)
    ensures changes == [1] && modifyCalls == [1]
  {
    changes, modifyCalls := ModifyAndPropagateChange(1, false, [2, 3], o => true, o => 1);
  }

  /** The archetype used in ArchetypeChangePropagates: 2 derives from 1, 3
    * from 2, and every other object from 9. */
  function ExampleArchetype(o: int): int
  {
    if o == 2 then 1 else if o == 3 then 2 else 9
  }

  /** Changing archetype 1 with reported instances 2, 3, 4 and an invalid 5
    * changes 1, then its instance 2, then 2's instance 3; 4 derives from an
    * object not changed, and 5 is no candidate. */
  method ArchetypeChangePropagates() returns (changes: seq<int>, modifyCalls: seq<int>)
    ensures changes == [1, 2, 3] && modifyCalls == [1]
  {
    changes, modifyCalls := ModifyAndPropagateChange(1, true, [2, 3, 4, 5], ExampleEligible, ExampleArchetype);
    ExampleCandidates();
    ExampleOrder(changes);
  }

  /** The example's reported instances that are valid: all but 5. */
  predicate ExampleEligible(o: int)
  {
    o != 5
  }

  lemma ExampleCandidates()
    ensures Candidates(true, [2, 3, 4, 5], ExampleEligible) == [2, 3, 4]
  {
    var instances := [2, 3, 4, 5];
    assert instances[1..][1..][1..][1..] == [];
    assert Select(instances[1..][1..][1..], ExampleEligible) == [];
  }

  /** The only order in which the example can be changed. */
  lemma ExampleOrder(changes: seq<int>)
    requires |changes| >= 1 && changes[0] == 1
    requires multiset(changes[1..]) <= multiset([2, 3, 4])
    requires ArchetypesFirst(changes, ExampleArchetype, |changes|)
    requires forall c :: ExampleArchetype(c) in changes ==> multiset(changes[1..])[c] == multiset([2, 3, 4])[c]
    ensures changes == [1, 2, 3]
  {
    var rest := changes[1..];
    ExampleMembers(changes);
    assert ExampleArchetype(2) in changes;
    assert multiset(rest)[2] == 1;
    assert changes[1 + 0] == rest[0];
    assert 2 in changes[1..];
    assert 2 in changes;
    assert ExampleArchetype(3) in changes;
    assert multiset(rest)[3] == 1;
    ExampleCounts(rest);
    assert changes[1] == 2 by {
      var j :| 0 <= j < 1 && changes[j] == ExampleArchetype(changes[1]);
    }
  }

  /** Nothing derives from 9 in the example, so 4 is never changed. */
  lemma ExampleMembers(changes: seq<int>)
    requires |changes| >= 1 && changes[0] == 1
    requires multiset(changes[1..]) <= multiset([2, 3, 4])
    requires ArchetypesFirst(changes, ExampleArchetype, |changes|)
    ensures multiset(changes[1..])[4] == 0
    ensures forall x :: x !in {2, 3} ==> multiset(changes[1..])[x] == 0
  {
    ExampleNoFour(changes);
    assert 4 !in changes[1..] by {
      forall i | 0 <= i < |changes[1..]|
        ensures changes[1..][i] != 4
      {
        assert changes[1..][i] == changes[1 + i];
      }
    }
    forall x | x !in {2, 3}
      ensures multiset(changes[1..])[x] == 0
    {
      assert multiset(changes[1..])[x] <= multiset([2, 3, 4])[x];
    }
  }

  /** The archetype 9 of 4 is never changed, so neither is 4. */
  lemma ExampleNoFour(changes: seq<int>)
    requires |changes| >= 1 && changes[0] == 1
    requires multiset(changes[1..]) <= multiset([2, 3, 4])
    requires ArchetypesFirst(changes, ExampleArchetype, |changes|)
    ensures forall k :: 1 <= k < |changes| ==> changes[k] != 4
  {
    ExampleNoNine(changes);
    forall k | 1 <= k < |changes|
      ensures changes[k] != 4
    {
      var j :| 0 <= j < k && changes[j] == ExampleArchetype(changes[k]);
      assert changes[j] != 9;
    }
  }

  /** 9 is neither the modified object nor a candidate. */
  lemma ExampleNoNine(changes: seq<int>)
    requires |changes| >= 1 && changes[0] == 1
    requires multiset(changes[1..]) <= multiset([2, 3, 4])
    ensures forall k :: 0 <= k < |changes| ==> changes[k] != 9
  {
    forall k | 1 <= k < |changes|
      ensures changes[k] != 9
    {
      assert changes[k] == changes[1..][k - 1];
      assert changes[k] in multiset(changes[1..]);
    }
  }

  /** Two elements, once each: the sequence has length two. */
  lemma ExampleCounts(rest: seq<int>)
    requires multiset(rest)[2] == 1 && multiset(rest)[3] == 1
    requires forall x :: x !in {2, 3} ==> multiset(rest)[x] == 0
    ensures |rest| == 2 && multiset(rest) == multiset{2, 3}
  {
    assert multiset(rest) == multiset{2, 3} by {
      forall x
        ensures multiset(rest)[x] == multiset{2, 3}[x]
      {
      }
    }
  }
}
