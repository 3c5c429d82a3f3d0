/** FComponentHierarchy's bookkeeping (Component.cpp): the parent/child maps
  * of an archetype hierarchy, the name map, the queries over them and
  * FindComponentInSubtree. */
module ComponentHierarchies {
  import opened Wrappers
  import opened Sequences
  import opened Components

  // ---------------------------------------------------------------------
  // Names.

  /** UActorComponent::ComponentTemplateNameSuffix. */
  const ComponentTemplateNameSuffix: string := "_GEN_VARIABLE"

  /** ASCII lower case, the case folding of FString comparisons. */
  function ToLower(c: char): char
  {
    if 'A' <= c <= 'Z' then (c as int + 32) as char else c
  }

  predicate EqualsIgnoringCase(a: string, b: string)
  {
    |a| == |b| && forall i :: 0 <= i < |a| ==> ToLower(a[i]) == ToLower(b[i])
  }

  predicate EndsWithIgnoringCase(s: string, suffix: string)
  {
    |suffix| <= |s| && EqualsIgnoringCase(s[|s| - |suffix|..], suffix)
  }

  /** GetComponentNameNoSuffix (Component.cpp:80-84): FString::RemoveFromEnd
    * with its default case-insensitive search drops one trailing template
    * suffix. */
  function GetComponentNameNoSuffix(name: string): (r: string)
    ensures EndsWithIgnoringCase(name, ComponentTemplateNameSuffix) ==>
      |r| + |ComponentTemplateNameSuffix| == |name| && r == name[..|r|]
    ensures !EndsWithIgnoringCase(name, ComponentTemplateNameSuffix) ==> r == name
  {
    if EndsWithIgnoringCase(name, ComponentTemplateNameSuffix) then
      name[..|name| - |ComponentTemplateNameSuffix|]
    else name
  }

  /** A name with the suffix appended loses exactly that suffix, however
    * it ends itself: one suffix is removed, never two. */
  lemma NoSuffixRemovesAppendedSuffix(name: string)
    ensures GetComponentNameNoSuffix(name + ComponentTemplateNameSuffix) == name
  {
    var s := name + ComponentTemplateNameSuffix;
    assert s[|s| - |ComponentTemplateNameSuffix|..] == ComponentTemplateNameSuffix;
    assert s[..|name|] == name;
  }

  /** Stripping a name that does not end with the suffix changes nothing,
    * so stripping is idempotent on such names. */
  lemma NoSuffixKeepsOtherNames(name: string)
    requires !EndsWithIgnoringCase(name, ComponentTemplateNameSuffix)
    ensures GetComponentNameNoSuffix(name) == name
    ensures GetComponentNameNoSuffix(GetComponentNameNoSuffix(name)) == GetComponentNameNoSuffix(name)
  {
  }

  /** The suffix is matched ignoring case: any spelling of it that differs
    * in case only is removed as well. */
  lemma NoSuffixIgnoresCase(name: string, suffix: string)
    requires EqualsIgnoringCase(suffix, ComponentTemplateNameSuffix)
    ensures GetComponentNameNoSuffix(name + suffix) == name
  {
    var s := name + suffix;
    assert s[|s| - |ComponentTemplateNameSuffix|..] == suffix;
    assert s[..|name|] == name;
  }

  lemma NoSuffixExamples()
    ensures GetComponentNameNoSuffix("Mesh_GEN_VARIABLE") == "Mesh"
    ensures GetComponentNameNoSuffix("Mesh") == "Mesh"
    ensures GetComponentNameNoSuffix("A_GEN_VARIABLE_GEN_VARIABLE") == "A_GEN_VARIABLE"
  {
    NoSuffixRemovesAppendedSuffix("Mesh");
    assert "Mesh" + ComponentTemplateNameSuffix == "Mesh_GEN_VARIABLE";
    NoSuffixRemovesAppendedSuffix("A_GEN_VARIABLE");
    assert "A_GEN_VARIABLE" + ComponentTemplateNameSuffix == "A_GEN_VARIABLE_GEN_VARIABLE";
  }

  /** FindComponentInSubtreeByName (Component.cpp:527-535): the search of
    * the subtree for a component whose name without the template suffix
    * equals the given one without it, compared as FString == does,
    * ignoring case. It calls FindComponentInSubtree as written, so of
    * several matches the last one of the traversal is found. */
  function FindComponentInSubtreeByName<C>(t: Tree<C>, nameOf: C -> string, name: string): Option<C>
  {
    FindComponentInSubtreeAsWritten(t, (c: C) => EqualsIgnoringCase(GetComponentNameNoSuffix(nameOf(c)), GetComponentNameNoSuffix(name)))
  }

  /** The component found carries the name, suffix or not, and none is
    * found exactly when no component of the subtree does. */
  lemma FindComponentInSubtreeByNameMeaning<C>(t: Tree<C>, nameOf: C -> string, name: string)
    ensures FindComponentInSubtreeByName(t, nameOf, name).Some? ==>
      FindComponentInSubtreeByName(t, nameOf, name).value in Nodes(t) &&
      EqualsIgnoringCase(GetComponentNameNoSuffix(nameOf(FindComponentInSubtreeByName(t, nameOf, name).value)), GetComponentNameNoSuffix(name))
    ensures FindComponentInSubtreeByName(t, nameOf, name).None? <==>
      forall c :: c in Nodes(t) ==> !EqualsIgnoringCase(GetComponentNameNoSuffix(nameOf(c)), GetComponentNameNoSuffix(name))
  {
    FindComponentInSubtreeAsWrittenMeaning(t, (c: C) => EqualsIgnoringCase(GetComponentNameNoSuffix(nameOf(c)), GetComponentNameNoSuffix(name)));
  }


  // ---------------------------------------------------------------------
  // The parent/child maps.

  /** An entry of CompsByParent: the parent (None for null) and the child. */
  type Link<C> = (Option<C>, C)

  /** CompsByParent, a multimap kept as its entries in order, and
    * CompsByChild. */
  datatype Links<C> = Links(byParent: seq<Link<C>>, byChild: map<C, Option<C>>)

  /** The two maps describe the same relation: every entry of CompsByParent
    * occurs once and is the child's entry in CompsByChild, and every child
    * in CompsByChild has its entry in CompsByParent. */
  ghost predicate Consistent<C(!new)>(links: Links<C>)
  {
    forall link: Link<C> :: multiset(links.byParent)[link] ==
      if link.1 in links.byChild && links.byChild[link.1] == link.0 then 1 else 0
  }

  function KeyIs<C(==)>(key: Option<C>): Link<C> -> bool
  {
    (link: Link<C>) => link.0 == key
  }

  function IsLink<C(==)>(key: Option<C>, child: C): Link<C> -> bool
  {
    (link: Link<C>) => link == (key, child)
  }

  /** The values of multimap entries, in order. */
  function Values<C>(links: seq<Link<C>>): (r: seq<C>)
    ensures |r| == |links| && forall k :: 0 <= k < |links| ==> r[k] == links[k].1
  {
    if |links| == 0 then [] else [links[0].1] + Values(links[1..])
  }

  /** The entries of `children` under one parent, in order. */
  function LinksUnder<C>(parent: Option<C>, children: seq<C>): (r: seq<Link<C>>)
    ensures |r| == |children| && forall k :: 0 <= k < |children| ==> r[k] == (parent, children[k])
  {
    if |children| == 0 then [] else [(parent, children[0])] + LinksUnder(parent, children[1..])
  }

  /** The two Emplace calls that record a new child (Component.cpp:220-221,
    * 427-428, 447-448). */
  function Attach<C(==)>(links: Links<C>, parent: Option<C>, child: C): Links<C>
  {
    Links(links.byParent + [(parent, child)], links.byChild[child := parent])
  }

  /** The map updates for one removed component (Component.cpp:301-323):
    * its own entries go, the entries of its children are taken out by the
    * key iterator and re-emplaced under its parent, and CompsByChild gives
    * those children that parent. */
  function Detach<C(==)>(links: Links<C>, comp: C): Links<C>
    requires comp in links.byChild
  {
    var parent := links.byChild[comp];
    var rest := Keep(links.byParent, IsLink(parent, comp));
    var children := Values(Select(rest, KeyIs(Some(comp))));
    Links(Keep(rest, KeyIs(Some(comp))) + LinksUnder(parent, children),
          Reattached(links.byChild - {comp}, children, parent))
  }

  /** CompsByChild after each of the children got the given parent. */
  function Reattached<C>(byChild: map<C, Option<C>>, children: seq<C>, parent: Option<C>): map<C, Option<C>>
  {
    byChild + map c | c in children :: parent
  }

  /** What removing a component from a hierarchy means: it disappears, and
    * each of its children now has its parent. */
  function DetachedParents<C(==)>(byChild: map<C, Option<C>>, comp: C): map<C, Option<C>>
    requires comp in byChild
  {
    map c | c in byChild && c != comp :: if byChild[c] == Some(comp) then byChild[comp] else byChild[c]
  }

  lemma {:induction false} ValuesCounts<C>(links: seq<Link<C>>, key: Option<C>, c: C)
    requires forall k :: 0 <= k < |links| ==> links[k].0 == key
    ensures multiset(Values(links))[c] == multiset(links)[(key, c)]
  {
    if |links| > 0 {
      ValuesCounts(links[1..], key, c);
      assert links == [links[0]] + links[1..];
      assert Values(links) == [links[0].1] + Values(links[1..]);
    }
  }

  lemma {:induction false} LinksUnderCounts<C>(parent: Option<C>, children: seq<C>, link: Link<C>)
    ensures multiset(LinksUnder(parent, children))[link] == if link.0 == parent then multiset(children)[link.1] else 0
  {
    if |children| > 0 {
      LinksUnderCounts(parent, children[1..], link);
      assert children == [children[0]] + children[1..];
    }
  }

  /** Every entry Select takes is selected. */
  lemma SelectedAreSelected<T>(s: seq<T>, pick: T -> bool)
    ensures forall k :: 0 <= k < |Select(s, pick)| ==> pick(Select(s, pick)[k])
  {
    forall k | 0 <= k < |Select(s, pick)|
      ensures pick(Select(s, pick)[k])
    {
      SelectMembers(s, pick, Select(s, pick)[k]);
    }
  }

  /** The children the key iterator takes out are exactly the components
    * whose parent is the removed one, each once. */
  lemma DetachedChildren<C(!new)>(links: Links<C>, comp: C, c: C)
    requires Consistent(links) && comp in links.byChild
    ensures multiset(Values(Select(Keep(links.byParent, IsLink(links.byChild[comp], comp)), KeyIs(Some(comp)))))[c]
      == if c in links.byChild && links.byChild[c] == Some(comp) && c != comp then 1 else 0
  {
    var parent := links.byChild[comp];
    var rest := Keep(links.byParent, IsLink(parent, comp));
    var taken := Select(rest, KeyIs(Some(comp)));
    SelectedAreSelected(rest, KeyIs(Some(comp)));
    ValuesCounts(taken, Some(comp), c);
    SelectCounts(rest, KeyIs(Some(comp)), (Some(comp), c));
    KeepCounts(links.byParent, IsLink(parent, comp), (Some(comp), c));
    assert multiset(links.byParent)[(Some(comp), c)] ==
      if c in links.byChild && links.byChild[c] == Some(comp) then 1 else 0;
  }

  /** The count of one entry after removal is what consistency with the
    * intended CompsByChild demands. */
  lemma DetachedLinkCount<C(!new)>(links: Links<C>, comp: C, link: Link<C>)
    requires Consistent(links) && comp in links.byChild
    ensures multiset(Detach(links, comp).byParent)[link] ==
      var parents := DetachedParents(links.byChild, comp);
      if link.1 in parents && parents[link.1] == link.0 then 1 else 0
  {
    var parent := links.byChild[comp];
    var rest := Keep(links.byParent, IsLink(parent, comp));
    var children := Values(Select(rest, KeyIs(Some(comp))));
    var kept := Keep(rest, KeyIs(Some(comp)));
    assert Detach(links, comp).byParent == kept + LinksUnder(parent, children);
    KeepCounts(rest, KeyIs(Some(comp)), link);
    KeepCounts(links.byParent, IsLink(parent, comp), link);
    LinksUnderCounts(parent, children, link);
    DetachedChildren(links, comp, link.1);
    assert multiset(links.byParent)[link] ==
      if link.1 in links.byChild && links.byChild[link.1] == link.0 then 1 else 0;
  }

  /** Removal gives CompsByChild the intended contents. */
  lemma DetachedParentsMap<C(!new)>(links: Links<C>, comp: C)
    requires Consistent(links) && comp in links.byChild
    ensures Detach(links, comp).byChild == DetachedParents(links.byChild, comp)
  {
    var parent := links.byChild[comp];
    var rest := Keep(links.byParent, IsLink(parent, comp));
    var children := Values(Select(rest, KeyIs(Some(comp))));
    forall c
      ensures c in children <==> c in links.byChild && links.byChild[c] == Some(comp) && c != comp
    {
      DetachedChildren(links, comp, c);
    }
  }

  /** Removing one component from consistent maps keeps them consistent and
    * does what removal means: the component is gone from CompsByChild, and
    * its children have its parent. */
  lemma DetachMeaning<C(!new)>(links: Links<C>, comp: C)
    requires Consistent(links) && comp in links.byChild
    ensures Detach(links, comp).byChild == DetachedParents(links.byChild, comp)
    ensures Consistent(Detach(links, comp))
  {
    DetachedParentsMap(links, comp);
    forall link: Link<C>
      ensures multiset(Detach(links, comp).byParent)[link] ==
        var parents := DetachedParents(links.byChild, comp);
        if link.1 in parents && parents[link.1] == link.0 then 1 else 0
    {
      DetachedLinkCount(links, comp, link);
    }
  }

  /** Removal keeps every other component in CompsByChild. */
  lemma DetachKeepsOthers<C>(links: Links<C>, comp: C)
    requires comp in links.byChild
    ensures forall c :: c in links.byChild && c != comp ==> c in Detach(links, comp).byChild
  {
  }

  /** Recording a component not in the maps yet keeps them consistent. */
  lemma AttachKeepsConsistent<C(!new)>(links: Links<C>, parent: Option<C>, child: C)
    requires Consistent(links) && child !in links.byChild
    ensures Consistent(Attach(links, parent, child))
    ensures Attach(links, parent, child).byChild[child] == parent
  {
    var after := Attach(links, parent, child);
    forall link: Link<C>
      ensures multiset(after.byParent)[link] ==
        if link.1 in after.byChild && after.byChild[link.1] == link.0 then 1 else 0
    {
      assert multiset(after.byParent) == multiset(links.byParent) + multiset{(parent, child)};
    }
  }

  /** Removing a component just recorded, which is nobody's parent, gives
    * the maps back as they were: the failed-rename path of AddNewSubobject
    * undoes its own Emplace calls. */
  lemma DetachUndoesAttach<C(!new)>(links: Links<C>, parent: Option<C>, child: C)
    requires Consistent(links) && child !in links.byChild
    requires forall c :: c in links.byChild ==> links.byChild[c] != Some(child)
    ensures Detach(Attach(links, parent, child), child) == links
  {
    var added := Attach(links, parent, child);
    var pairs := links.byParent;
    forall k | 0 <= k < |pairs|
      ensures pairs[k] != (parent, child) && pairs[k].0 != Some(child)
    {
      assert pairs[k] in multiset(pairs);
    }
    KeepAppend(pairs, [(parent, child)], IsLink(parent, child));
    KeepNothing(pairs, IsLink(parent, child));
    var rest := Keep(added.byParent, IsLink(parent, child));
    assert rest == pairs;
    SelectNothing(pairs, KeyIs(Some(child)));
    KeepNothing(pairs, KeyIs(Some(child)));
    var children := Values(Select(rest, KeyIs(Some(child))));
    assert children == [];
    var byChild := Reattached(added.byChild - {child}, children, parent);
    UpdateThenRemove(links.byChild, child, parent);
    NoChildrenNoUpdate(added.byChild - {child}, children, parent);
    assert Detach(added, child) == Links(Keep(rest, KeyIs(Some(child))) + LinksUnder(parent, children), byChild);
  }

  lemma UpdateThenRemove<K, V>(m: map<K, V>, k: K, v: V)
    requires k !in m
    ensures m[k := v] - {k} == m
  {
  }

  lemma NoChildrenNoUpdate<C(!new)>(m: map<C, Option<C>>, children: seq<C>, parent: Option<C>)
    requires children == []
    ensures Reattached(m, children, parent) == m
  {
  }

  /** The components to remove are known and listed once each. */
  predicate Removable<C(==)>(links: Links<C>, comps: seq<C>)
  {
    && (forall i :: 0 <= i < |comps| ==> comps[i] in links.byChild)
    && (forall i, j :: 0 <= i < j < |comps| ==> comps[i] != comps[j])
  }

  /** The removal loop of RemoveSubobjects (Component.cpp:301-323), one
    * component after the other. */
  function DetachAll<C(==)>(links: Links<C>, comps: seq<C>): Links<C>
    requires Removable(links, comps)
    decreases |comps|
  {
    if |comps| == 0 then links
    else
      DetachKeepsOthers(links, comps[0]);
      DetachAll(Detach(links, comps[0]), comps[1..])
  }

  /** Removing several components from consistent maps keeps them
    * consistent, and exactly the listed components leave CompsByChild. */
  lemma {:induction false} DetachAllMeaning<C(!new)>(links: Links<C>, comps: seq<C>)
    requires Consistent(links) && Removable(links, comps)
    ensures Consistent(DetachAll(links, comps))
    ensures forall c :: c in DetachAll(links, comps).byChild <==> c in links.byChild && c !in comps
    decreases |comps|
  {
    if |comps| > 0 {
      DetachMeaning(links, comps[0]);
      DetachKeepsOthers(links, comps[0]);
      DetachAllMeaning(Detach(links, comps[0]), comps[1..]);
      assert forall c :: c in comps <==> c == comps[0] || c in comps[1..];
    }
  }

  /** After the first listed component is removed, the others are still
    * recorded and listed once each. */
  lemma RemovableAfterDetach<C>(links: Links<C>, comps: seq<C>)
    requires Removable(links, comps) && |comps| > 0
    ensures Removable(Detach(links, comps[0]), comps[1..])
  {
    DetachKeepsOthers(links, comps[0]);
    forall i | 0 <= i < |comps| - 1
      ensures comps[1..][i] in Detach(links, comps[0]).byChild
    {
      assert comps[1..][i] == comps[i + 1] != comps[0];
    }
  }

  // ---------------------------------------------------------------------
  // Loop steps.

  lemma {:induction false} ValuesAppend<C>(a: seq<Link<C>>, b: seq<Link<C>>)
    ensures Values(a + b) == Values(a) + Values(b)
  {
    assert |Values(a + b)| == |Values(a) + Values(b)|;
    forall k | 0 <= k < |a + b|
      ensures Values(a + b)[k] == (Values(a) + Values(b))[k]
    {
      if k < |a| {
        assert (a + b)[k] == a[k];
      } else {
        assert (a + b)[k] == b[k - |a|];
      }
    }
  }

  /** One step of a loop that takes out the selected entries and collects
    * their values. */
  lemma TakeStep<C>(s: seq<Link<C>>, n: nat, pick: Link<C> -> bool)
    requires n < |s|
    ensures Values(Select(s[..n + 1], pick)) == Values(Select(s[..n], pick)) + (if pick(s[n]) then [s[n].1] else [])
  {
    FilterStep(s, n, pick);
    ValuesAppend(Select(s[..n], pick), if pick(s[n]) then [s[n]] else []);
  }

  lemma LinksUnderStep<C>(parent: Option<C>, children: seq<C>, k: nat)
    requires k < |children|
    ensures LinksUnder(parent, children[..k + 1]) == LinksUnder(parent, children[..k]) + [(parent, children[k])]
  {
    assert |LinksUnder(parent, children[..k + 1])| == k + 1;
  }

  lemma ReattachStep<C(!new)>(m: map<C, Option<C>>, children: seq<C>, k: nat, parent: Option<C>)
    requires k < |children|
    ensures Reattached(m, children[..k], parent)[children[k] := parent] == Reattached(m, children[..k + 1], parent)
  {
    assert children[..k + 1] == children[..k] + [children[k]];
  }

  /** Iterating over the entries of a multimap and visiting the values of
    * the selected ones. */
  method VisitEntries<C>(entries: seq<Link<C>>, pick: Link<C> -> bool) returns (visited: seq<C>)
    ensures visited == Values(Select(entries, pick))
  {
    visited := [];
    var i := 0;
    while i < |entries|
      invariant 0 <= i <= |entries|
      invariant visited == Values(Select(entries[..i], pick))
    {
      TakeStep(entries, i, pick);
      if pick(entries[i]) {
        visited := visited + [entries[i].1];
      }
      i := i + 1;
    }
    assert entries[..i] == entries;
  }

  /** The key iterator of Component.cpp:309-313: every entry under the key
    * is collected and removed in place; the other entries stay in order. */
  method TakeValuesUnder<C(==)>(entries: seq<Link<C>>, key: Option<C>) returns (remaining: seq<Link<C>>, taken: seq<C>)
    ensures remaining == Keep(entries, KeyIs(key))
    ensures taken == Values(Select(entries, KeyIs(key)))
  {
    var underKey := KeyIs(key);
    remaining := entries;
    taken := [];
    var i := 0;
    ghost var n := 0;
    while i < |remaining|
      invariant 0 <= n <= |entries| && 0 <= i <= |remaining|
      invariant remaining == Keep(entries[..n], underKey) + entries[n..]
      invariant i == |Keep(entries[..n], underKey)|
      invariant taken == Values(Select(entries[..n], underKey))
      decreases |remaining| - i
    {
      RemoveCurrentStep(entries, n, remaining, i, underKey);
      TakeStep(entries, n, underKey);
      if remaining[i].0 == key {
        taken := taken + [remaining[i].1];
        remaining := remaining[..i] + remaining[i + 1..];
      } else {
        i := i + 1;
      }
      n := n + 1;
    }
    assert entries[..n] == entries;
  }

  // ---------------------------------------------------------------------
  // The hierarchy.

  /** What the engine reports about components: IsValid, the archetype
    * flag, whether a component is a scene component, its attach parent and
    * children (for scene components), and its name. */
  datatype Engine<!C> = Engine(
    isValid: C -> bool,
    isArchetype: C -> bool,
    isScene: C -> bool,
    attachParent: C -> Option<C>,
    attachChildren: C -> seq<C>,
    nameOf: C -> string)

  /** A node of a blueprint's construction script: its identity, its
    * component template (None when invalid or when its class has no
    * blueprint), the template it resolves to in the class being scanned,
    * the parent template it reports, and the identities of its child
    * nodes. */
  datatype ScsNode<C> = ScsNode(
    id: nat,
    template: Option<C>,
    actualTemplate: Option<C>,
    reportedParent: Option<C>,
    childNodes: seq<nat>)

  /** What the class an archetype hierarchy is built from provides. */
  datatype ClassDefaults<C> =
    | InvalidClass
    | BlueprintClass(nodes: seq<ScsNode<C>>)
    | NativeClass(defaults: seq<Option<C>>)

  /** The child node identities of one node, each mapped to the node. */
  function ListedBy<C>(node: ScsNode<C>, ids: seq<nat>): map<nat, ScsNode<C>>
  {
    map id | id in ids :: node
  }

  /** The first scan of Component.cpp:383-391: each node's child nodes map
    * to it, later scans overwriting earlier ones. */
  function KnownParents<C>(nodes: seq<ScsNode<C>>): map<nat, ScsNode<C>>
    decreases |nodes|
  {
    if |nodes| == 0 then map[]
    else
      var last := nodes[|nodes| - 1];
      KnownParents(nodes[..|nodes| - 1]) + ListedBy(last, last.childNodes)
  }

  /** The parent chosen for a node (Component.cpp:400-420): the reported
    * parent when there is one, else the template of the node known to list
    * it as a child. */
  function ChosenParent<C>(node: ScsNode<C>, known: map<nat, ScsNode<C>>): Option<C>
  {
    if node.reportedParent.Some? then node.reportedParent
    else if node.id in known then known[node.id].actualTemplate
    else None
  }

  /** The maps the second scan of a blueprint builds (Component.cpp:393-431). */
  function BlueprintLinks<C(==)>(nodes: seq<ScsNode<C>>, known: map<nat, ScsNode<C>>): Links<C>
    decreases |nodes|
  {
    if |nodes| == 0 then Links([], map[])
    else
      var last := nodes[|nodes| - 1];
      var before := BlueprintLinks(nodes[..|nodes| - 1], known);
      if last.template.Some? then Attach(before, ChosenParent(last, known), last.template.value) else before
  }

  /** The name map built from a blueprint (Component.cpp:429-430): the
    * stripped template name maps to the template the node resolves to. */
  function BlueprintNames<C>(nodes: seq<ScsNode<C>>, nameOf: C -> string): map<string, Option<C>>
    decreases |nodes|
  {
    if |nodes| == 0 then map[]
    else
      var last := nodes[|nodes| - 1];
      var before := BlueprintNames(nodes[..|nodes| - 1], nameOf);
      if last.template.Some? then before[GetComponentNameNoSuffix(nameOf(last.template.value)) := last.actualTemplate] else before
  }

  /** The construction-script templates are distinct: no component is
    * recorded twice. */
  predicate DistinctTemplates<C(==)>(nodes: seq<ScsNode<C>>)
  {
    forall i, j :: 0 <= i < j < |nodes| && nodes[i].template.Some? ==> nodes[i].template != nodes[j].template
  }

  /** The components recorded from a blueprint are its nodes' templates,
    * each with its chosen parent, and the maps are consistent when the
    * templates are distinct. */
  lemma {:induction false} BlueprintLinksMeaning<C(!new)>(nodes: seq<ScsNode<C>>, known: map<nat, ScsNode<C>>)
    requires DistinctTemplates(nodes)
    ensures Consistent(BlueprintLinks(nodes, known))
    ensures forall c :: c in BlueprintLinks(nodes, known).byChild <==> exists k :: 0 <= k < |nodes| && nodes[k].template == Some(c)
    ensures forall k :: 0 <= k < |nodes| && nodes[k].template.Some? ==>
      BlueprintLinks(nodes, known).byChild[nodes[k].template.value] == ChosenParent(nodes[k], known)
    decreases |nodes|
  {
    if |nodes| > 0 {
      var prefix := nodes[..|nodes| - 1];
      var last := nodes[|nodes| - 1];
      assert DistinctTemplates(prefix) by {
        forall i, j | 0 <= i < j < |prefix| && prefix[i].template.Some?
          ensures prefix[i].template != prefix[j].template
        {
          assert prefix[i] == nodes[i] && prefix[j] == nodes[j];
        }
      }
      BlueprintLinksMeaning(prefix, known);
      var before := BlueprintLinks(prefix, known);
      if last.template.Some? {
        var t := last.template.value;
        assert t !in before.byChild by {
          forall k | 0 <= k < |prefix| && prefix[k].template.Some?
            ensures prefix[k].template != Some(t)
          {
            assert prefix[k] == nodes[k];
          }
        }
        AttachKeepsConsistent(before, ChosenParent(last, known), t);
      }
      forall c
        ensures c in BlueprintLinks(nodes, known).byChild <==> exists k :: 0 <= k < |nodes| && nodes[k].template == Some(c)
      {
        if c in BlueprintLinks(nodes, known).byChild {
          if c in before.byChild {
            var k :| 0 <= k < |prefix| && prefix[k].template == Some(c);
            assert nodes[k].template == Some(c);
          } else {
            assert nodes[|nodes| - 1].template == Some(c);
          }
        }
        if exists k :: 0 <= k < |nodes| && nodes[k].template == Some(c) {
          var k :| 0 <= k < |nodes| && nodes[k].template == Some(c);
          if k < |nodes| - 1 {
            assert prefix[k].template == Some(c);
          }
        }
      }
      forall k | 0 <= k < |nodes| && nodes[k].template.Some?
        ensures BlueprintLinks(nodes, known).byChild[nodes[k].template.value] == ChosenParent(nodes[k], known)
      {
        if k < |nodes| - 1 {
          assert prefix[k] == nodes[k];
          assert nodes[k].template != last.template;
        }
      }
    }
  }

  lemma ListedByStep<C>(known: map<nat, ScsNode<C>>, node: ScsNode<C>, ids: seq<nat>, j: nat)
    requires j < |ids|
    ensures (known + ListedBy(node, ids[..j]))[ids[j] := node] == known + ListedBy(node, ids[..j + 1])
  {
    assert ids[..j + 1] == ids[..j] + [ids[j]];
  }

  // ---------------------------------------------------------------------
  // Mutability after construction.

  /** Component.cpp:133 and 357 as written: an archetype hierarchy is
    * mutable when mutable components are allowed OR its class makes them
    * mutable. */
  function ArchetypeMutabilityAsWritten(allowMutable: bool, classMutable: bool): bool
  {
    allowMutable || classMutable
  }

  /** A blueprint class makes the hierarchy mutable even when the caller
    * forbids mutable components, as the constructor taking a const actor
    * does, whose documentation (Component.h:68, 71-74) says the hierarchy
    * is then immutable. */
  lemma ArchetypeMutabilityAsWrittenIgnoresCaller()
    ensures ArchetypeMutabilityAsWritten(false, true)
  {
  }

  /** The documented rule: mutable components need both the caller's
    * permission and a class whose components are mutable. */
  function ArchetypeMutability(allowMutable: bool, classMutable: bool): (r: bool)
    ensures r ==> allowMutable
    ensures r ==> classMutable
    ensures allowMutable && classMutable ==> r
  {
    allowMutable && classMutable
  }

  /** A native class, whose defaults must stay read-only (Component.cpp:436,
    * 444-445), yields a mutable hierarchy as written whenever the caller
    * allows mutable components. */
  lemma ArchetypeMutabilityAsWrittenUnlocksNativeDefaults()
    ensures ArchetypeMutabilityAsWritten(true, false)
    ensures !ArchetypeMutability(true, false)
  {
  }

  // ---------------------------------------------------------------------
  // Selections.

  /** The entries under a key whose child is valid. */
  function ValidUnder<C(==)>(isValid: C -> bool, key: Option<C>): Link<C> -> bool
  {
    (link: Link<C>) => link.0 == key && isValid(link.1)
  }

  /** The entries whose child is valid. */
  function ValidEntry<C>(isValid: C -> bool): Link<C> -> bool
  {
    (link: Link<C>) => isValid(link.1)
  }

  /** Components of an instanced actor without a parent: non-scene
    * components and scene components not attached to anything. */
  function Parentless<C(==)>(engine: Engine<C>): C -> bool
  {
    (c: C) => !engine.isScene(c) || engine.attachParent(c) == None
  }

  /** The valid children recorded under a key, each once in consistent
    * maps, and exactly those whose CompsByChild entry is that key. */
  lemma ValidUnderMeaning<C(!new)>(links: Links<C>, isValid: C -> bool, key: Option<C>, c: C)
    requires Consistent(links)
    ensures multiset(Values(Select(links.byParent, ValidUnder(isValid, key))))[c] ==
      if isValid(c) && c in links.byChild && links.byChild[c] == key then 1 else 0
  {
    var taken := Select(links.byParent, ValidUnder(isValid, key));
    SelectedAreSelected(links.byParent, ValidUnder(isValid, key));
    ValuesCounts(taken, key, c);
    SelectCounts(links.byParent, ValidUnder(isValid, key), (key, c));
    assert multiset(links.byParent)[(key, c)] == if c in links.byChild && links.byChild[c] == key then 1 else 0;
  }

  class ComponentHierarchy<C(==,!new)> {
    const engine: Engine<C>
    /** Whether the actor the hierarchy was built for is still valid. */
    const actorValid: bool
    const actorIsArchetype: bool
    /** The components AActor::ForEachComponent reports for an instanced
      * actor. */
    const actorComponents: seq<C>
    var compsByParent: seq<Link<C>>
    var compsByChild: map<C, Option<C>>
    var compsByName: map<string, Option<C>>
    var componentsMutable: bool

    function Maps(): Links<C>
      reads this
    {
      Links(compsByParent, compsByChild)
    }

    /** The maps built from the class defaults. */
    function CdoLinks(defaults: ClassDefaults<C>): Links<C>
    {
      match defaults
      case InvalidClass => Links([], map[])
      case BlueprintClass(nodes) => BlueprintLinks(nodes, KnownParents(nodes))
      case NativeClass(comps) => NativeLinks(comps)
    }

    function CdoNames(defaults: ClassDefaults<C>): map<string, Option<C>>
    {
      match defaults
      case InvalidClass => map[]
      case BlueprintClass(nodes) => BlueprintNames(nodes, engine.nameOf)
      case NativeClass(comps) => NativeNames(comps)
    }

    /** The parent of a native class default (Component.cpp:446): the
      * attach parent of a scene component, null otherwise. */
    function DefaultParent(c: C): Option<C>
    {
      if engine.isScene(c) then engine.attachParent(c) else None
    }

    /** The maps built from a native class's defaults (Component.cpp:436-453). */
    function NativeLinks(comps: seq<Option<C>>): Links<C>
      decreases |comps|
    {
      if |comps| == 0 then Links([], map[])
      else
        var last := comps[|comps| - 1];
        var before := NativeLinks(comps[..|comps| - 1]);
        if last.Some? && engine.isValid(last.value) then Attach(before, DefaultParent(last.value), last.value) else before
    }

    function NativeNames(comps: seq<Option<C>>): map<string, Option<C>>
      decreases |comps|
    {
      if |comps| == 0 then map[]
      else
        var last := comps[|comps| - 1];
        var before := NativeNames(comps[..|comps| - 1]);
        if last.Some? && engine.isValid(last.value) then before[GetComponentNameNoSuffix(engine.nameOf(last.value)) := last] else before
    }

    /** The constructors taking an actor (Component.cpp:91-100, 345-363) and
      * the one taking a component of the hierarchy (Component.cpp:101-143),
      * with the mutability rule as written (Component.cpp:133, 357).
      * `actorFound` is false when the component's outer is neither an actor
      * nor, for an archetype, a class: the constructor then returns before
      * setting anything (Component.cpp:111-124, 140), and the hierarchy is
      * empty and immutable (Component.h:188); the actor constructors always
      * find theirs. A null actor is never valid. */
    constructor FromActor(engine: Engine<C>, actorFound: bool, actorValid: bool, actorIsArchetype: bool, actorComponents: seq<C>,
                          allowMutable: bool, defaults: ClassDefaults<C>)
      requires !actorFound ==> !actorValid
      ensures this.engine == engine && this.actorValid == actorValid && this.actorIsArchetype == actorIsArchetype
      ensures this.actorComponents == actorComponents
      ensures !actorFound ==> Maps() == Links([], map[]) && compsByName == map[] && !componentsMutable
      ensures actorFound && actorIsArchetype ==> Maps() == CdoLinks(defaults) && compsByName == CdoNames(defaults)
      ensures actorFound && actorIsArchetype ==>
        componentsMutable == (!defaults.InvalidClass? && ArchetypeMutabilityAsWritten(allowMutable, defaults.BlueprintClass?))
      ensures actorFound && !actorIsArchetype ==> Maps() == Links([], map[]) && compsByName == map[] && componentsMutable == allowMutable
    {
      this.engine := engine;
      this.actorValid := actorValid;
      this.actorIsArchetype := actorIsArchetype;
      this.actorComponents := actorComponents;
      compsByParent := [];
      compsByChild := map[];
      compsByName := map[];
      componentsMutable := false;
      new;
      if !actorFound {
        return;
      }
      if actorIsArchetype {
        if !defaults.InvalidClass? {
          ConstructHierarchyFromCDO(defaults);
          componentsMutable := ArchetypeMutabilityAsWritten(allowMutable, componentsMutable);
        }
      } else {
        componentsMutable := allowMutable;
      }
    }

    /** ConstructHierarchyFromCDO (Component.cpp:368-456): the three maps
      * are reset, then filled from the class defaults only. */
    method ConstructHierarchyFromCDO(defaults: ClassDefaults<C>)
      modifies this
      ensures Maps() == CdoLinks(defaults) && compsByName == CdoNames(defaults)
      ensures componentsMutable == match defaults
        case InvalidClass => old(componentsMutable)
        case BlueprintClass(_) => true
        case NativeClass(_) => false
    {
      compsByParent := [];
      compsByChild := map[];
      compsByName := map[];
      match defaults {
        case InvalidClass =>
        case BlueprintClass(nodes) =>
          componentsMutable := true;
          var known := ScanChildNodes(nodes);
          var links: Links<C> := Links([], map[]);
          var names: map<string, Option<C>> := map[];
          for i := 0 to |nodes|
            invariant links == BlueprintLinks(nodes[..i], known)
            invariant names == BlueprintNames(nodes[..i], engine.nameOf)
          {
            assert nodes[..i + 1][..i] == nodes[..i];
            var node := nodes[i];
            if node.template.Some? {
              var parent := if node.reportedParent.Some? then node.reportedParent
                else if node.id in known then known[node.id].actualTemplate
                else None;
              links := Links(links.byParent + [(parent, node.template.value)], links.byChild[node.template.value := parent]);
              names := names[GetComponentNameNoSuffix(engine.nameOf(node.template.value)) := node.actualTemplate];
            }
          }
          assert nodes[..|nodes|] == nodes;
          compsByParent, compsByChild, compsByName := links.byParent, links.byChild, names;
        case NativeClass(comps) =>
          componentsMutable := false;
          var links: Links<C> := Links([], map[]);
          var names: map<string, Option<C>> := map[];
          for i := 0 to |comps|
            invariant links == NativeLinks(comps[..i])
            invariant names == NativeNames(comps[..i])
          {
            assert comps[..i + 1][..i] == comps[..i];
            if comps[i].Some? && engine.isValid(comps[i].value) {
              var comp := comps[i].value;
              var parent := if engine.isScene(comp) then engine.attachParent(comp) else None;
              links := Links(links.byParent + [(parent, comp)], links.byChild[comp := parent]);
              names := names[GetComponentNameNoSuffix(engine.nameOf(comp)) := comps[i]];
            }
          }
          assert comps[..|comps|] == comps;
          compsByParent, compsByChild, compsByName := links.byParent, links.byChild, names;
      }
    }

    /** The native class defaults are distinct components. */
    predicate DistinctDefaults(comps: seq<Option<C>>)
    {
      forall i, j :: 0 <= i < j < |comps| && comps[i].Some? ==> comps[i] != comps[j]
    }

    /** The components recorded from a native class are its valid defaults,
      * each under its attach parent, and the maps are consistent. */
    lemma {:induction false} NativeLinksMeaning(comps: seq<Option<C>>)
      requires DistinctDefaults(comps)
      ensures Consistent(NativeLinks(comps))
      ensures forall c :: c in NativeLinks(comps).byChild <==> Some(c) in comps && engine.isValid(c)
      ensures forall c :: c in NativeLinks(comps).byChild ==> NativeLinks(comps).byChild[c] == DefaultParent(c)
      decreases |comps|
    {
      if |comps| > 0 {
        var prefix := comps[..|comps| - 1];
        var last := comps[|comps| - 1];
        assert DistinctDefaults(prefix) by {
          forall i, j | 0 <= i < j < |prefix| && prefix[i].Some?
            ensures prefix[i] != prefix[j]
          {
            assert prefix[i] == comps[i] && prefix[j] == comps[j];
          }
        }
        NativeLinksMeaning(prefix);
        var before := NativeLinks(prefix);
        assert comps == prefix + [last];
        if last.Some? && engine.isValid(last.value) {
          assert last.value !in before.byChild by {
            forall k | 0 <= k < |prefix| && prefix[k].Some?
              ensures prefix[k] != last
            {
              assert prefix[k] == comps[k];
            }
          }
          AttachKeepsConsistent(before, DefaultParent(last.value), last.value);
        }
      }
    }

    // -------------------------------------------------------------------
    // Queries.

    /** The children ForEachChildComponent visits (Component.h:345-383):
      * none when a mutable traversal is asked of an immutable hierarchy;
      * for an archetype component, the valid children its entry lists in
      * CompsByParent, in order; for an instanced valid scene component,
      * its valid attach children; nothing otherwise. */
    function ChildComponents(comp: C, constFunctor: bool): seq<C>
      reads this
    {
      if !constFunctor && !componentsMutable then []
      else if engine.isArchetype(comp) then Values(Select(compsByParent, ValidUnder(engine.isValid, Some(comp))))
      else if engine.isScene(comp) && engine.isValid(comp) then Select(engine.attachChildren(comp), engine.isValid)
      else []
    }

    /** The components ForEachRootComponent visits (Component.h:385-429):
      * none for an immutable hierarchy asked for mutable access or a stale
      * actor; the valid entries under the null key for an archetype; else
      * the actor's components that are not scene components or have no
      * attach parent. */
    function RootComponents(constFunctor: bool): seq<C>
      reads this
    {
      if !constFunctor && !componentsMutable then []
      else if !actorValid then []
      else if actorIsArchetype then Values(Select(compsByParent, ValidUnder(engine.isValid, None)))
      else Select(actorComponents, Parentless(engine))
    }

    /** The components ForEachComponent visits (Component.h:282-317): every
      * valid recorded child for an archetype, else the actor's valid
      * components. */
    function AllComponents(constFunctor: bool): seq<C>
      reads this
    {
      if !constFunctor && !componentsMutable then []
      else if !actorValid then []
      else if actorIsArchetype then Values(Select(compsByParent, ValidEntry(engine.isValid)))
      else Select(actorComponents, engine.isValid)
    }

    method ForEachChildComponent(comp: C, constFunctor: bool) returns (visited: seq<C>)
      ensures visited == ChildComponents(comp, constFunctor)
    {
      if !constFunctor && !componentsMutable {
        return [];
      }
      if engine.isArchetype(comp) {
        visited := VisitEntries(compsByParent, ValidUnder(engine.isValid, Some(comp)));
      } else if engine.isScene(comp) && engine.isValid(comp) {
        visited := SelectInOrder(engine.attachChildren(comp), engine.isValid);
      } else {
        visited := [];
      }
    }

    method ForEachRootComponent(constFunctor: bool) returns (visited: seq<C>)
      ensures visited == RootComponents(constFunctor)
    {
      if !constFunctor && !componentsMutable {
        return [];
      }
      if !actorValid {
        return [];
      }
      if actorIsArchetype {
        visited := VisitEntries(compsByParent, ValidUnder(engine.isValid, None));
      } else {
        visited := SelectInOrder(actorComponents, Parentless(engine));
      }
    }

    method ForEachComponent(constFunctor: bool) returns (visited: seq<C>)
      ensures visited == AllComponents(constFunctor)
    {
      if !constFunctor && !componentsMutable {
        return [];
      }
      if !actorValid {
        return [];
      }
      if actorIsArchetype {
        visited := VisitEntries(compsByParent, ValidEntry(engine.isValid));
      } else {
        visited := SelectInOrder(actorComponents, engine.isValid);
      }
    }

    /** InternalFindParent (Component.cpp:459-476): the recorded parent of
      * an archetype hierarchy, None when unrecorded or no longer valid; the
      * attach parent of an instanced valid scene component. */
    function InternalFindParent(child: C): Option<C>
      reads this
    {
      if !actorValid then None
      else if actorIsArchetype then
        if child in compsByChild && compsByChild[child].Some? && engine.isValid(compsByChild[child].value)
        then compsByChild[child] else None
      else if engine.isScene(child) && engine.isValid(child) then engine.attachParent(child)
      else None
    }

    /** FindParent (Component.cpp:145-155): mutable access needs a mutable
      * hierarchy. */
    function FindParent(child: C, constAccess: bool): Option<C>
      reads this
    {
      if !constAccess && !componentsMutable then None else InternalFindParent(child)
    }

    /** FindComponentByName (Component.cpp:157-162): the name is stripped of
      * the template suffix and looked up; a stale entry gives None. */
    function FindComponentByName(name: string): Option<C>
      reads this
    {
      var key := GetComponentNameNoSuffix(name);
      if key in compsByName && compsByName[key].Some? && engine.isValid(compsByName[key].value)
      then compsByName[key] else None
    }

    /** An immutable hierarchy refuses every traversal whose functor takes
      * non-const components, before visiting anything. */
    lemma ImmutableRefusesMutableFunctor(comp: C)
      requires !componentsMutable
      ensures ChildComponents(comp, false) == [] && RootComponents(false) == [] && AllComponents(false) == []
    {
    }

    /** In consistent maps, the children of an archetype component are the
      * valid components recorded with it as parent, each visited once. */
    lemma ChildComponentsMeaning(p: C, c: C)
      requires Consistent(Maps()) && engine.isArchetype(p)
      ensures multiset(ChildComponents(p, true))[c] ==
        if engine.isValid(c) && c in compsByChild && compsByChild[c] == Some(p) then 1 else 0
    {
      ValidUnderMeaning(Maps(), engine.isValid, Some(p), c);
    }

    /** FindParent and ForEachChildComponent agree in an archetype
      * hierarchy: a valid component's parent is p exactly when p's children
      * include it. */
    lemma FindParentAgreesWithChildren(p: C, c: C)
      requires Consistent(Maps()) && actorValid && actorIsArchetype
      requires engine.isArchetype(p) && engine.isValid(p) && engine.isValid(c)
      ensures FindParent(c, true) == Some(p) <==> c in ChildComponents(p, true)
    {
      ChildComponentsMeaning(p, c);
    }

    /** The roots of an archetype hierarchy are the valid components
      * recorded without a parent, each once, and have no parent. */
    lemma RootComponentsMeaning(c: C)
      requires Consistent(Maps()) && actorValid && actorIsArchetype
      ensures multiset(RootComponents(true))[c] ==
        if engine.isValid(c) && c in compsByChild && compsByChild[c] == None then 1 else 0
      ensures c in RootComponents(true) ==> FindParent(c, true) == None
    {
      ValidUnderMeaning(Maps(), engine.isValid, None, c);
    }

    /** For an instanced actor, a valid component is a root exactly when it
      * has no parent. */
    lemma InstancedRootsHaveNoParent(c: C)
      requires actorValid && !actorIsArchetype && engine.isValid(c) && c in actorComponents
      ensures c in RootComponents(true) <==> FindParent(c, true) == None
    {
      SelectMembers(actorComponents, Parentless(engine), c);
    }

    /** ForEachComponent over an archetype visits exactly the valid
      * components recorded in CompsByChild. */
    lemma AllComponentsMeaning(c: C)
      requires Consistent(Maps()) && actorValid && actorIsArchetype
      ensures c in AllComponents(true) <==> engine.isValid(c) && c in compsByChild
    {
      var entries := Select(compsByParent, ValidEntry(engine.isValid));
      if c in AllComponents(true) {
        var k :| 0 <= k < |entries| && Values(entries)[k] == c;
        SelectMembers(compsByParent, ValidEntry(engine.isValid), entries[k]);
        assert multiset(compsByParent)[entries[k]] > 0;
      }
      if engine.isValid(c) && c in compsByChild {
        var link := (compsByChild[c], c);
        assert multiset(compsByParent)[link] == 1;
        SelectMembers(compsByParent, ValidEntry(engine.isValid), link);
        var k :| 0 <= k < |entries| && entries[k] == link;
        assert Values(entries)[k] == c;
      }
    }

    /** A lookup by a name with the template suffix appended finds what the
      * plain name finds. */
    lemma FindByNameIgnoresSuffix(name: string)
      requires !EndsWithIgnoringCase(name, ComponentTemplateNameSuffix)
      ensures FindComponentByName(name + ComponentTemplateNameSuffix) == FindComponentByName(name)
    {
      NoSuffixRemovesAppendedSuffix(name);
      NoSuffixKeepsOtherNames(name);
    }

    // -------------------------------------------------------------------
    // Editing an archetype hierarchy.

    /** The stripped names of the valid components listed. */
    function NamesOf(comps: seq<C>): set<string>
    {
      set c | c in comps && engine.isValid(c) :: GetComponentNameNoSuffix(engine.nameOf(c))
    }

    lemma NamesOfStep(comps: seq<C>, i: nat)
      requires i < |comps|
      ensures NamesOf(comps[..i + 1]) ==
        NamesOf(comps[..i]) + if engine.isValid(comps[i]) then {GetComponentNameNoSuffix(engine.nameOf(comps[i]))} else {}
    {
      assert comps[..i + 1] == comps[..i] + [comps[i]];
    }

    /** One component of the removal loop (Component.cpp:301-323), in
      * place. */
    method DetachComponent(comp: C)
      requires comp in compsByChild
      modifies this
      ensures Maps() == Detach(old(Maps()), comp)
      ensures compsByName == old(compsByName) && componentsMutable == old(componentsMutable)
    {
      var parent := compsByChild[comp];
      compsByChild := compsByChild - {comp};
      compsByParent := Keep(compsByParent, IsLink(parent, comp));
      var children;
      compsByParent, children := TakeValuesUnder(compsByParent, Some(comp));
      ReparentChildren(parent, children);
    }

    /** The re-emplacing loop of Component.cpp:317-321. */
    method ReparentChildren(parent: Option<C>, children: seq<C>)
      modifies this
      ensures compsByParent == old(compsByParent) + LinksUnder(parent, children)
      ensures compsByChild == Reattached(old(compsByChild), children, parent)
      ensures compsByName == old(compsByName) && componentsMutable == old(componentsMutable)
    {
      ghost var kept := compsByParent;
      ghost var base := compsByChild;
      NoChildrenNoUpdate(base, children[..0], parent);
      for k := 0 to |children|
        invariant compsByParent == kept + LinksUnder(parent, children[..k])
        invariant compsByChild == Reattached(base, children[..k], parent)
        invariant compsByName == old(compsByName) && componentsMutable == old(componentsMutable)
      {
        LinksUnderStep(parent, children, k);
        ReattachStep(base, children, k, parent);
        compsByParent := compsByParent + [(parent, children[k])];
        compsByChild := compsByChild[children[k] := parent];
      }
      assert children[..|children|] == children;
    }

    /** RemoveSubobjects (Component.cpp:248-336). `deleted` is what
      * USubobjectDataSubsystem::DeleteSubobjects reports, 0 also when one
      * of the editor lookups before it fails. With a mutable hierarchy, a
      * valid actor and something deleted, every listed component leaves
      * the maps, its children move to its parent, and the names of the
      * valid ones are forgotten; otherwise nothing changes and 0 is
      * returned. The checked lookups require the components to be
      * recorded, once each. */
    method RemoveSubobjects(comps: seq<C>, deleted: nat) returns (numRemoved: nat)
      requires componentsMutable && actorValid && deleted > 0 ==> Removable(Maps(), comps)
      modifies this
      ensures componentsMutable == old(componentsMutable)
      ensures !old(componentsMutable && actorValid && deleted > 0) ==>
        numRemoved == 0 && Maps() == old(Maps()) && compsByName == old(compsByName)
      ensures old(componentsMutable && actorValid && deleted > 0) ==>
        && numRemoved == deleted
        && Maps() == DetachAll(old(Maps()), comps)
        && compsByName == old(compsByName) - NamesOf(comps)
    {
      if !componentsMutable || !actorValid || deleted == 0 {
        return 0;
      }
      DetachComponents(comps);
      ForgetNames(comps);
      numRemoved := deleted;
    }

    /** The removal loop of RemoveSubobjects (Component.cpp:301-323). */
    method DetachComponents(comps: seq<C>)
      requires Removable(Maps(), comps)
      modifies this
      ensures Maps() == DetachAll(old(Maps()), comps)
      ensures compsByName == old(compsByName) && componentsMutable == old(componentsMutable)
    {
      ghost var start := Maps();
      assert comps[0..] == comps;
      var i := 0;
      while i < |comps|
        invariant 0 <= i <= |comps|
        invariant Removable(Maps(), comps[i..])
        invariant DetachAll(Maps(), comps[i..]) == DetachAll(start, comps)
        invariant compsByName == old(compsByName) && componentsMutable == old(componentsMutable)
      {
        RemovableAfterDetach(Maps(), comps[i..]);
        assert comps[i..][1..] == comps[i + 1..];
        DetachComponent(comps[i]);
        i := i + 1;
      }
    }

    /** The name loops of RemoveSubobjects (Component.cpp:284-293, 325-328). */
    method ForgetNames(comps: seq<C>)
      modifies this
      ensures compsByName == old(compsByName) - NamesOf(comps)
      ensures Maps() == old(Maps()) && componentsMutable == old(componentsMutable)
    {
      assert NamesOf(comps[..0]) == {};
      for j := 0 to |comps|
        invariant compsByName == old(compsByName) - NamesOf(comps[..j])
        invariant Maps() == old(Maps()) && componentsMutable == old(componentsMutable)
      {
        NamesOfStep(comps, j);
        if engine.isValid(comps[j]) {
          compsByName := compsByName - {GetComponentNameNoSuffix(engine.nameOf(comps[j]))};
        }
      }
      assert comps[..|comps|] == comps;
    }

    /** RemoveSubobject (Component.cpp:242-246). */
    method RemoveSubobject(comp: C, deleted: nat) returns (numRemoved: nat)
      requires componentsMutable && actorValid && deleted > 0 ==> comp in compsByChild
      modifies this
      ensures componentsMutable == old(componentsMutable)
      ensures !old(componentsMutable && actorValid && deleted > 0) ==>
        numRemoved == 0 && Maps() == old(Maps()) && compsByName == old(compsByName)
      ensures old(componentsMutable && actorValid && deleted > 0) ==>
        && numRemoved == deleted
        && Maps() == Detach(old(Maps()), comp)
        && compsByName == old(compsByName) - NamesOf([comp])
    {
      numRemoved := RemoveSubobjects([comp], deleted);
    }

    /** AddNewSubobject (Component.cpp:166-240). `created` is the component
      * the subobject subsystem creates (None when any editor step before
      * it fails), `renamed` whether RenameSubobject succeeds and
      * `deletedOnFailure` what removing the component again reports. A new
      * archetype component is recorded under its parent; after a rename
      * it is also found by its name, otherwise it is removed again and
      * None returned. */
    method AddNewSubobject(classIsComponent: bool, parentComp: Option<C>, name: string,
                           created: Option<C>, renamed: bool, deletedOnFailure: nat) returns (r: Option<C>)
      modifies this
      ensures componentsMutable == old(componentsMutable)
      ensures !AddProceeds(classIsComponent, created) ==>
        r == None && Maps() == old(Maps()) && compsByName == old(compsByName)
      ensures AddProceeds(classIsComponent, created) && renamed ==>
        && r == created
        && Maps() == Attach(old(Maps()), parentComp, created.value)
        && compsByName == old(compsByName)[name := created]
      ensures AddProceeds(classIsComponent, created) && !renamed && deletedOnFailure > 0 ==>
        && r == None
        && Maps() == Detach(Attach(old(Maps()), parentComp, created.value), created.value)
        && compsByName == old(compsByName) - NamesOf([created.value])
      ensures AddProceeds(classIsComponent, created) && !renamed && deletedOnFailure == 0 ==>
        && r == None
        && Maps() == Attach(old(Maps()), parentComp, created.value)
        && compsByName == old(compsByName)
    {
      if !AddProceeds(classIsComponent, created) {
        return None;
      }
      var comp := created.value;
      compsByParent := compsByParent + [(parentComp, comp)];
      compsByChild := compsByChild[comp := parentComp];
      if !renamed {
        var numRemoved := RemoveSubobject(comp, deletedOnFailure);
        return None;
      }
      compsByName := compsByName[name := created];
      r := created;
    }

    /** The guards of AddNewSubobject (Component.cpp:174-218): a component
      * class, a mutable hierarchy, a valid actor, and a valid archetype
      * component created. */
    predicate AddProceeds(classIsComponent: bool, created: Option<C>)
      reads this
    {
      classIsComponent && componentsMutable && actorValid
      && created.Some? && engine.isValid(created.value) && engine.isArchetype(created.value)
    }

    /** A failed rename leaves consistent maps as they were when the new
      * component is not recorded yet and is nobody's parent. */
    lemma FailedAddLeavesMaps(links: Links<C>, parentComp: Option<C>, comp: C)
      requires Consistent(links) && comp !in links.byChild
      requires forall c :: c in links.byChild ==> links.byChild[c] != Some(comp)
      ensures Detach(Attach(links, parentComp, comp), comp) == links
    {
      DetachUndoesAttach(links, parentComp, comp);
    }

    /** The first scan of Component.cpp:383-391. */
    static method ScanChildNodes(nodes: seq<ScsNode<C>>) returns (known: map<nat, ScsNode<C>>)
      ensures known == KnownParents(nodes)
    {
      known := map[];
      for i := 0 to |nodes|
        invariant known == KnownParents(nodes[..i])
      {
        assert nodes[..i + 1][..i] == nodes[..i];
        var node := nodes[i];
        ghost var base := known;
        assert node.childNodes[..0] == [];
        assert base + ListedBy(node, node.childNodes[..0]) == base;
        for j := 0 to |node.childNodes|
          invariant known == base + ListedBy(node, node.childNodes[..j])
        {
          ListedByStep(base, node, node.childNodes, j);
          known := known[node.childNodes[j] := node];
        }
        assert node.childNodes[..|node.childNodes|] == node.childNodes;
      }
      assert nodes[..|nodes|] == nodes;
    }
  }

  // ---------------------------------------------------------------------
  // A blueprint with a chain Root (1) - Arm (2) - Hand (3) whose nodes
  // report no parents: the parents come from the child lists.

  function ChainEngine(): Engine<int>
  {
    Engine((c: int) => true, (c: int) => true, (c: int) => true, (c: int) => None, (c: int) => [],
           (c: int) => if c == 1 then "Root" else if c == 2 then "Arm" else "Hand")
  }

  function ChainNodes(): seq<ScsNode<int>>
  {
    [ScsNode(0, Some(1), Some(1), None, [1]), ScsNode(1, Some(2), Some(2), None, [2]), ScsNode(2, Some(3), Some(3), None, [])]
  }

  /** Removing the middle of the chain hands its child to the root and
    * forgets its name. */
  method RemoveMiddleOfChain() returns (parentBefore: Option<int>, nameBefore: Option<int>, removed: nat,
                                        parentAfter: Option<int>, nameAfter: Option<int>, rootChildren: seq<int>)
    ensures parentBefore == Some(2) && nameBefore == Some(2) && removed == 1
    ensures parentAfter == Some(1) && nameAfter == None
    ensures 3 in rootChildren && 2 !in rootChildren
  {
    var h := new ComponentHierarchy.FromActor(ChainEngine(), true, true, true, [], true, BlueprintClass(ChainNodes()));
    ChainBuilt();
    ChainNames();
    assert h.Maps() == ChainLinks();
    assert h.compsByName == map["Root" := Some(1), "Arm" := Some(2), "Hand" := Some(3)];
    parentBefore := h.FindParent(3, true);
    assert "Arm" in h.compsByName && h.compsByName["Arm"] == Some(2);
    nameBefore := h.FindComponentByName("Arm");
    assert nameBefore == Some(2);
    ChainDetached();
    removed := h.RemoveSubobject(2, 1);
    assert h.Maps() == Detach(ChainLinks(), 2);
    assert h.compsByName == map["Root" := Some(1), "Arm" := Some(2), "Hand" := Some(3)] - h.NamesOf([2]);
    assert "Arm" in h.NamesOf([2]);
    parentAfter := h.FindParent(3, true);
    nameAfter := h.FindComponentByName("Arm");
    rootChildren := h.ForEachChildComponent(1, true);
    h.ChildComponentsMeaning(1, 3);
    h.ChildComponentsMeaning(1, 2);
  }

  function ChainLinks(): Links<int>
  {
    BlueprintLinks(ChainNodes(), KnownParents(ChainNodes()))
  }

  /** The chain as built: each node's parent is found from the child lists,
    * and every template is recorded by its name. */
  lemma ChainBuilt()
    ensures Consistent(ChainLinks())
    ensures 2 in ChainLinks().byChild && 3 in ChainLinks().byChild
    ensures ChainLinks().byChild[2] == Some(1) && ChainLinks().byChild[3] == Some(2)
  {
    BlueprintLinksMeaning(ChainNodes(), KnownParents(ChainNodes()));
    ChainParents();
  }

  lemma ChainParents()
    ensures ChainLinks().byChild == map[1 := None, 2 := Some(1), 3 := Some(2)]
  {
    var nodes := ChainNodes();
    assert KnownParents(nodes[..1]) == map[1 := nodes[0]];
    assert KnownParents(nodes[..2]) == map[1 := nodes[0], 2 := nodes[1]];
    var known := KnownParents(nodes);
    assert BlueprintLinks(nodes[..1], known).byChild == map[1 := None];
    assert BlueprintLinks(nodes[..2], known).byChild == map[1 := None, 2 := Some(1)];
  }

  /** The chain's name map holds every template by its name. */
  lemma ChainNames()
    ensures BlueprintNames(ChainNodes(), ChainEngine().nameOf) == map["Root" := Some(1), "Arm" := Some(2), "Hand" := Some(3)]
    ensures GetComponentNameNoSuffix("Arm") == "Arm"
  {
    var nodes := ChainNodes();
    assert BlueprintNames(nodes[..1], ChainEngine().nameOf) == map["Root" := Some(1)];
    assert BlueprintNames(nodes[..2], ChainEngine().nameOf) == map["Root" := Some(1), "Arm" := Some(2)];
  }

  /** After the arm is removed, the hand hangs from the root. */
  lemma ChainDetached()
    ensures 2 in ChainLinks().byChild
    ensures 3 in Detach(ChainLinks(), 2).byChild && Detach(ChainLinks(), 2).byChild[3] == Some(1)
    ensures 2 !in Detach(ChainLinks(), 2).byChild
    ensures Consistent(Detach(ChainLinks(), 2))
  {
    ChainBuilt();
    DetachMeaning(ChainLinks(), 2);
  }
}
