/** groupHopsByParent and flattenSupportHops: hops shown under the hop that triggered them. */
module HopForest {
  import opened Text

  datatype Hop = Hop(index: nat, parent: Option<nat>, name: string)

  datatype Grouped = Grouped(hop: Hop, depth: nat)

  datatype Group = Group(parent: Hop, supportHops: seq<Grouped>)

  /** The hops whose parent_index is the given one, in list order. */
  function ChildrenOf(hops: seq<Hop>, parent: nat): seq<Hop> {
    if hops == [] then []
    else
      var rest := ChildrenOf(hops[..|hops| - 1], parent);
      if hops[|hops| - 1].parent == Some(parent) then rest + [hops[|hops| - 1]] else rest
  }

  /** The loop of groupHopsByParent. */
  method ChildrenByParent(hops: seq<Hop>) returns (children: map<nat, seq<Hop>>)
    ensures forall p :: p in children <==> ChildrenOf(hops, p) != []
    ensures forall p :: p in children ==> children[p] == ChildrenOf(hops, p)
  {
    children := map[];
    for i := 0 to |hops|
      invariant forall p :: p in children <==> ChildrenOf(hops[..i], p) != []
      invariant forall p :: p in children ==> children[p] == ChildrenOf(hops[..i], p)
    {
      assert hops[..i + 1][..i] == hops[..i];
      if hops[i].parent.Some? {
        var p := hops[i].parent.value;
        var existing := if p in children then children[p] else [];
        children := children[p := existing + [hops[i]]];
      }
    }
    assert hops[..|hops|] == hops;
  }

  /** A stable sort by index. */
  function SortByIndex(hops: seq<Hop>): seq<Hop> {
    if hops == [] then [] else Insert(hops[0], SortByIndex(hops[1..]))
  }

  function Insert(h: Hop, sorted: seq<Hop>): seq<Hop> {
    if sorted == [] || h.index <= sorted[0].index then [h] + sorted
    else [sorted[0]] + Insert(h, sorted[1..])
  }

  function SortedChildren(hops: seq<Hop>, parent: nat): seq<Hop> {
    SortByIndex(ChildrenOf(hops, parent))
  }

  /**
   * flattenSupportHops with a bound on the recursion depth: None when the bound is too small. The program has no
   * bound; it returns what the function returns for any bound that is large enough, and overflows its stack if none is.
   */
  function Flatten(hops: seq<Hop>, parent: nat, depth: nat, bound: nat): Option<seq<Grouped>>
    decreases bound, 0, 0
  {
    if bound == 0 then None
    else FlattenAll(hops, SortedChildren(hops, parent), depth, bound - 1)
  }

  /** The flatMap over the sorted children. */
  function FlattenAll(hops: seq<Hop>, children: seq<Hop>, depth: nat, bound: nat): Option<seq<Grouped>>
    decreases bound, 1, |children|
  {
    if children == [] then Some([])
    else
      var below := Flatten(hops, children[0].index, depth + 1, bound);
      var rest := FlattenAll(hops, children[1..], depth, bound);
      if below.None? || rest.None? then None
      else Some([Grouped(children[0], depth)] + below.value + rest.value)
  }

  /** Once a bound is large enough, every larger bound gives the same result. */
  lemma {:induction false} BoundDoesNotMatter(hops: seq<Hop>, parent: nat, depth: nat, bound: nat, bound': nat)
    requires Flatten(hops, parent, depth, bound).Some? && bound <= bound'
    ensures Flatten(hops, parent, depth, bound') == Flatten(hops, parent, depth, bound)
    decreases bound, 0, 0
  {
    BoundDoesNotMatterForAll(hops, SortedChildren(hops, parent), depth, bound - 1, bound' - 1);
  }

  lemma {:induction false} BoundDoesNotMatterForAll(hops: seq<Hop>, children: seq<Hop>, depth: nat, bound: nat,
                                                    bound': nat)
    requires FlattenAll(hops, children, depth, bound).Some? && bound <= bound'
    ensures FlattenAll(hops, children, depth, bound') == FlattenAll(hops, children, depth, bound)
    decreases bound, 1, |children|
  {
    if children != [] {
      BoundDoesNotMatter(hops, children[0].index, depth + 1, bound, bound');
      BoundDoesNotMatterForAll(hops, children[1..], depth, bound, bound');
    }
  }

  predicate HasIndex(hops: seq<Hop>, index: nat) {
    exists i :: 0 <= i < |hops| && hops[i].index == index
  }

  predicate IsRoot(hops: seq<Hop>, h: Hop) {
    h.parent.None? || !HasIndex(hops, h.parent.value)
  }

  function RootsIn(all: seq<Hop>, hops: seq<Hop>): seq<Hop> {
    if hops == [] then []
    else (if IsRoot(all, hops[0]) then [hops[0]] else []) + RootsIn(all, hops[1..])
  }

  function Roots(hops: seq<Hop>): seq<Hop> {
    SortByIndex(RootsIn(hops, hops))
  }

  function GroupsFor(hops: seq<Hop>, roots: seq<Hop>, bound: nat): Option<seq<Group>> {
    if roots == [] then Some([])
    else
      var below := Flatten(hops, roots[0].index, 1, bound);
      var rest := GroupsFor(hops, roots[1..], bound);
      if below.None? || rest.None? then None else Some([Group(roots[0], below.value)] + rest.value)
  }

  /** groupHopsByParent with the same bound. */
  function GroupHops(hops: seq<Hop>, bound: nat): Option<seq<Group>> {
    GroupsFor(hops, Roots(hops), bound)
  }

  // ---- When the recursion ends ----

  predicate IsEdge(hops: seq<Hop>, from: nat, to: nat) {
    exists i :: 0 <= i < |hops| && hops[i].parent == Some(from) && hops[i].index == to
  }

  /** A walk from one index to a child's index, and so on. */
  ghost predicate IsWalk(hops: seq<Hop>, walk: seq<nat>, from: nat) {
    && |walk| > 0 && walk[0] == from
    && forall i :: 0 <= i < |walk| - 1 ==> IsEdge(hops, walk[i], walk[i + 1])
  }

  lemma {:induction false} InsertSame(h: Hop, sorted: seq<Hop>)
    ensures multiset(Insert(h, sorted)) == multiset([h] + sorted)
    ensures |Insert(h, sorted)| == |sorted| + 1
  {
    if sorted != [] && h.index > sorted[0].index {
      InsertSame(h, sorted[1..]);
      assert sorted == [sorted[0]] + sorted[1..];
    }
  }

  lemma {:induction false} SortSame(hops: seq<Hop>)
    ensures multiset(SortByIndex(hops)) == multiset(hops)
  {
    if hops != [] {
      SortSame(hops[1..]);
      InsertSame(hops[0], SortByIndex(hops[1..]));
      assert hops == [hops[0]] + hops[1..];
    }
  }

  lemma SortKeeps(hops: seq<Hop>, h: Hop)
    ensures h in SortByIndex(hops) <==> h in hops
  {
    SortSame(hops);
    assert h in multiset(hops) <==> h in hops;
    assert h in multiset(SortByIndex(hops)) <==> h in SortByIndex(hops);
  }

  lemma {:induction false} ChildrenMeaning(hops: seq<Hop>, parent: nat, h: Hop)
    ensures h in ChildrenOf(hops, parent) <==> h in hops && h.parent == Some(parent)
  {
    if hops != [] {
      ChildrenMeaning(hops[..|hops| - 1], parent, h);
      assert hops == hops[..|hops| - 1] + [hops[|hops| - 1]];
    }
  }

  lemma SortedChildrenMeaning(hops: seq<Hop>, parent: nat, h: Hop)
    ensures h in SortedChildren(hops, parent) <==> h in hops && h.parent == Some(parent)
  {
    SortKeeps(ChildrenOf(hops, parent), h);
    ChildrenMeaning(hops, parent, h);
  }

  ghost predicate LongWalk(hops: seq<Hop>, from: nat, edges: nat) {
    exists walk :: IsWalk(hops, walk, from) && |walk| == edges + 1
  }

  lemma LongWalkStep(hops: seq<Hop>, from: nat, to: nat, edges: nat)
    requires IsEdge(hops, from, to) && LongWalk(hops, to, edges)
    ensures LongWalk(hops, from, edges + 1)
  {
    hide IsEdge;
    var walk :| IsWalk(hops, walk, to) && |walk| == edges + 1;
    assert IsWalk(hops, [from] + walk, from);
  }

  lemma LongWalkRest(hops: seq<Hop>, from: nat, edges: nat) returns (h: Hop)
    requires LongWalk(hops, from, edges + 1)
    ensures h in hops && h.parent == Some(from) && LongWalk(hops, h.index, edges)
  {
    var walk :| IsWalk(hops, walk, from) && |walk| == edges + 2;
    assert IsEdge(hops, walk[0], walk[1]);
    var i :| 0 <= i < |hops| && hops[i].parent == Some(walk[0]) && hops[i].index == walk[1];
    h := hops[i];
    assert IsWalk(hops, walk[1..], h.index);
  }

  /** The bound is too small exactly when there is a walk as long as the bound. */
  lemma {:induction false} FlattenFails(hops: seq<Hop>, parent: nat, depth: nat, bound: nat)
    ensures Flatten(hops, parent, depth, bound).None? <==> LongWalk(hops, parent, bound)
    decreases bound, 0, 0
  {
    if bound == 0 {
      assert IsWalk(hops, [parent], parent);
    } else {
      hide LongWalk, SortedChildren;
      var children := SortedChildren(hops, parent);
      FlattenAllFails(hops, children, depth, bound - 1);
      if LongWalk(hops, parent, bound) {
        var h := LongWalkRest(hops, parent, bound - 1);
        SortedChildrenMeaning(hops, parent, h);
      }
      if h :| h in children && LongWalk(hops, h.index, bound - 1) {
        SortedChildrenMeaning(hops, parent, h);
        LongWalkStep(hops, parent, h.index, bound - 1);
      }
    }
  }

  lemma {:induction false} FlattenAllFails(hops: seq<Hop>, children: seq<Hop>, depth: nat, bound: nat)
    ensures FlattenAll(hops, children, depth, bound).None?
            <==> exists h :: h in children && LongWalk(hops, h.index, bound)
    decreases bound, 1, |children|
  {
    hide LongWalk;
    if children != [] {
      FlattenFails(hops, children[0].index, depth + 1, bound);
      FlattenAllFails(hops, children[1..], depth, bound);
      assert children == [children[0]] + children[1..];
    }
  }

  /** An index that can be reached again from itself, on a walk from the given index. */
  ghost predicate ReachesCycle(hops: seq<Hop>, from: nat) {
    exists walk, a, b :: IsWalk(hops, walk, from) && 0 <= a < b < |walk| && walk[a] == walk[b]
  }

  ghost predicate Terminates(hops: seq<Hop>, parent: nat) {
    exists bound :: Flatten(hops, parent, 1, bound).Some?
  }

  lemma {:induction false} Pigeonhole(walk: seq<nat>, values: set<nat>)
    requires |walk| > |values| && forall i :: 0 <= i < |walk| ==> walk[i] in values
    ensures exists a, b :: 0 <= a < b < |walk| && walk[a] == walk[b]
    decreases |walk|
  {
    var n := |walk| - 1;
    if b :| 0 <= b < n && walk[b] == walk[n] {
    } else {
      Pigeonhole(walk[..n], values - {walk[n]});
      var a, b :| 0 <= a < b < n && walk[..n][a] == walk[..n][b];
      assert walk[a] == walk[b];
    }
  }

  function Indexes(hops: seq<Hop>): (r: set<nat>)
    ensures |r| <= |hops|
    ensures forall h :: h in hops ==> h.index in r
  {
    if hops == [] then {} else Indexes(hops[..|hops| - 1]) + {hops[|hops| - 1].index}
  }

  lemma LongWalkHasCycle(hops: seq<Hop>, from: nat)
    requires LongWalk(hops, from, |hops| + 1)
    ensures ReachesCycle(hops, from)
  {
    var walk :| IsWalk(hops, walk, from) && |walk| == |hops| + 2;
    forall i | 0 <= i < |walk[1..]| ensures walk[1..][i] in Indexes(hops) {
      assert IsEdge(hops, walk[i], walk[i + 1]);
    }
    Pigeonhole(walk[1..], Indexes(hops));
    var a, b :| 0 <= a < b < |walk[1..]| && walk[1..][a] == walk[1..][b];
    assert walk[a + 1] == walk[b + 1];
  }

  /** A walk that returns to an index can be made as long as one likes. */
  lemma {:induction false} CyclePumps(hops: seq<Hop>, walk: seq<nat>, from: nat, a: nat, b: nat, edges: nat)
    requires IsWalk(hops, walk, from) && a < b < |walk| && walk[a] == walk[b]
    ensures LongWalk(hops, from, edges)
    decreases edges
  {
    hide IsEdge;
    if edges < |walk| {
      assert IsWalk(hops, walk[..edges + 1], from);
    } else if a > 0 {
      CyclePumps(hops, walk[1..], walk[1], a - 1, b - 1, edges - 1);
      assert IsEdge(hops, walk[0], walk[1]);
      LongWalkStep(hops, from, walk[1], edges - 1);
    } else {
      var turned := walk[1..b + 1] + [walk[1]];
      assert IsWalk(hops, turned, walk[1]);
      CyclePumps(hops, turned, walk[1], 0, b, edges - 1);
      assert IsEdge(hops, walk[0], walk[1]);
      LongWalkStep(hops, from, walk[1], edges - 1);
    }
  }

  /** The recursion of flattenSupportHops ends exactly when no index cycle can be reached from where it starts. */
  lemma TerminatesExactlyWhen(hops: seq<Hop>, parent: nat)
    ensures Terminates(hops, parent) <==> !ReachesCycle(hops, parent)
  {
    FlattenFails(hops, parent, 1, |hops| + 1);
    if LongWalk(hops, parent, |hops| + 1) {
      LongWalkHasCycle(hops, parent);
    }
    if walk, a, b :| IsWalk(hops, walk, parent) && 0 <= a < b < |walk| && walk[a] == walk[b] {
      forall bound ensures Flatten(hops, parent, 1, bound).None? {
        CyclePumps(hops, walk, parent, a, b, bound);
        FlattenFails(hops, parent, 1, bound);
      }
    }
    hide Flatten, IsWalk, LongWalk;
  }

  lemma {:induction false} RootsMeaning(all: seq<Hop>, hops: seq<Hop>, h: Hop)
    ensures h in RootsIn(all, hops) <==> h in hops && IsRoot(all, h)
    ensures multiset(RootsIn(all, hops))[h] == if IsRoot(all, h) then multiset(hops)[h] else 0
  {
    hide IsRoot;
    if hops != [] {
      RootsMeaning(all, hops[1..], h);
      assert hops == [hops[0]] + hops[1..];
    }
  }

  lemma {:induction false} GroupsFail(hops: seq<Hop>, roots: seq<Hop>, bound: nat)
    ensures GroupsFor(hops, roots, bound).None? <==> exists r :: r in roots && Flatten(hops, r.index, 1, bound).None?
  {
    hide Flatten;
    if roots != [] {
      GroupsFail(hops, roots[1..], bound);
      assert roots == [roots[0]] + roots[1..];
    }
  }

  /** Grouping a hop list ends exactly when no root of it reaches an index cycle. */
  lemma GroupingEndsExactlyWhen(hops: seq<Hop>)
    ensures (exists bound :: GroupHops(hops, bound).Some?)
            <==> forall r :: r in hops && IsRoot(hops, r) ==> !ReachesCycle(hops, r.index)
  {
    forall r ensures r in Roots(hops) <==> r in hops && IsRoot(hops, r) {
      RootsMeaning(hops, hops, r);
      SortKeeps(RootsIn(hops, hops), r);
    }
    var enough := |hops| + 1;
    hide Roots, IsRoot, ReachesCycle, Flatten;
    if forall r :: r in hops && IsRoot(hops, r) ==> !ReachesCycle(hops, r.index) {
      GroupsFail(hops, Roots(hops), enough);
      forall r | r in Roots(hops) ensures Flatten(hops, r.index, 1, enough).Some? {
        FlattenFails(hops, r.index, 1, enough);
        if LongWalk(hops, r.index, enough) { LongWalkHasCycle(hops, r.index); }
      }
      assert GroupHops(hops, enough).Some?;
    }
    forall bound, r | GroupHops(hops, bound).Some? && r in hops && IsRoot(hops, r)
      ensures !ReachesCycle(hops, r.index)
    {
      GroupsFail(hops, Roots(hops), bound);
      assert Flatten(hops, r.index, 1, bound).Some?;
      TerminatesExactlyWhen(hops, r.index);
    }
  }

  // ---- Grouping a forest ----

  /** What the grouping was written for: indexes are unique and a parent comes before its support hops. */
  ghost predicate IsForest(hops: seq<Hop>) {
    && (forall i, j :: 0 <= i < j < |hops| ==> hops[i].index != hops[j].index)
    && (forall i :: 0 <= i < |hops| && hops[i].parent.Some? ==> hops[i].parent.value < hops[i].index)
  }

  lemma {:induction false} WalksClimb(hops: seq<Hop>, walk: seq<nat>, from: nat, a: nat, b: nat)
    requires IsForest(hops) && IsWalk(hops, walk, from) && a < b < |walk|
    ensures walk[a] < walk[b]
    decreases b
  {
    assert IsEdge(hops, walk[b - 1], walk[b]);
    if a < b - 1 {
      WalksClimb(hops, walk, from, a, b - 1);
    }
  }

  lemma ForestEnds(hops: seq<Hop>)
    requires IsForest(hops)
    ensures exists bound :: GroupHops(hops, bound).Some?
  {
    forall r | r in hops && IsRoot(hops, r) ensures !ReachesCycle(hops, r.index) {
      if walk, a, b :| IsWalk(hops, walk, r.index) && 0 <= a < b < |walk| && walk[a] == walk[b] {
        WalksClimb(hops, walk, r.index, a, b);
      }
    }
    GroupingEndsExactlyWhen(hops);
  }

  function CountHop(list: seq<Grouped>, h: Hop): nat {
    if list == [] then 0 else CountHop(list[..|list| - 1], h) + (if list[|list| - 1].hop == h then 1 else 0)
  }

  /** The number of entries whose index is the hop's parent. */
  function CountParent(list: seq<Grouped>, h: Hop): nat {
    if list == [] then 0
    else CountParent(list[..|list| - 1], h) + (if h.parent == Some(list[|list| - 1].hop.index) then 1 else 0)
  }

  lemma {:induction false} CountsAdd(a: seq<Grouped>, b: seq<Grouped>, h: Hop)
    ensures CountHop(a + b, h) == CountHop(a, h) + CountHop(b, h)
    ensures CountParent(a + b, h) == CountParent(a, h) + CountParent(b, h)
  {
    if b == [] {
      assert a + b == a;
    } else {
      CountsAdd(a, b[..|b| - 1], h);
      assert (a + b)[..|a + b| - 1] == a + b[..|b| - 1];
    }
  }

  lemma {:induction false} ChildrenCount(hops: seq<Hop>, parent: nat, h: Hop)
    ensures multiset(ChildrenOf(hops, parent))[h] == if h.parent == Some(parent) then multiset(hops)[h] else 0
  {
    if hops != [] {
      ChildrenCount(hops[..|hops| - 1], parent, h);
      assert hops == hops[..|hops| - 1] + [hops[|hops| - 1]];
    }
  }

  /** A hop occurs below an index as often as its parent does, counting the index itself. */
  lemma {:induction false} FlattenCounts(hops: seq<Hop>, parent: nat, depth: nat, bound: nat, h: Hop)
    requires Flatten(hops, parent, depth, bound).Some? && multiset(hops)[h] == 1
    ensures var list := Flatten(hops, parent, depth, bound).value;
            CountHop(list, h) == CountParent(list, h) + (if h.parent == Some(parent) then 1 else 0)
    decreases bound, 0, 0
  {
    FlattenAllCounts(hops, SortedChildren(hops, parent), depth, bound - 1, h);
    SortSame(ChildrenOf(hops, parent));
    ChildrenCount(hops, parent, h);
  }

  lemma {:induction false} FlattenAllCounts(hops: seq<Hop>, children: seq<Hop>, depth: nat, bound: nat, h: Hop)
    requires FlattenAll(hops, children, depth, bound).Some? && multiset(hops)[h] == 1
    ensures var list := FlattenAll(hops, children, depth, bound).value;
            CountHop(list, h) == CountParent(list, h) + multiset(children)[h]
    decreases bound, 1, |children|
  {
    if children != [] {
      hide Flatten;
      var first := [Grouped(children[0], depth)];
      var below := Flatten(hops, children[0].index, depth + 1, bound).value;
      var rest := FlattenAll(hops, children[1..], depth, bound).value;
      FlattenCounts(hops, children[0].index, depth + 1, bound, h);
      FlattenAllCounts(hops, children[1..], depth, bound, h);
      CountsAdd(first + below, rest, h);
      CountsAdd(first, below, h);
      CountOne(first[0], h);
      assert children == [children[0]] + children[1..];
    }
  }

  lemma CountOne(g: Grouped, h: Hop)
    ensures CountHop([g], h) == if g.hop == h then 1 else 0
    ensures CountParent([g], h) == if h.parent == Some(g.hop.index) then 1 else 0
  {}

  /** All hops that the groups show, in order; a group's parent is shown at depth 0. */
  function Shown(groups: seq<Group>): seq<Grouped> {
    if groups == [] then [] else [Grouped(groups[0].parent, 0)] + groups[0].supportHops + Shown(groups[1..])
  }

  lemma {:induction false} GroupsCount(hops: seq<Hop>, roots: seq<Hop>, bound: nat, h: Hop)
    requires GroupsFor(hops, roots, bound).Some? && multiset(hops)[h] == 1
    ensures var shown := Shown(GroupsFor(hops, roots, bound).value);
            CountHop(shown, h) == CountParent(shown, h) + multiset(roots)[h]
  {
    if roots != [] {
      hide Flatten;
      var first := [Grouped(roots[0], 0)];
      var below := Flatten(hops, roots[0].index, 1, bound).value;
      var groups := GroupsFor(hops, roots, bound).value;
      assert groups[1..] == GroupsFor(hops, roots[1..], bound).value;
      FlattenCounts(hops, roots[0].index, 1, bound, h);
      GroupsCount(hops, roots[1..], bound, h);
      CountsAdd(first + below, Shown(groups[1..]), h);
      CountsAdd(first, below, h);
      CountOne(first[0], h);
      assert roots == [roots[0]] + roots[1..];
    }
  }

  lemma {:induction false} FlattenShowsHops(hops: seq<Hop>, parent: nat, depth: nat, bound: nat)
    requires Flatten(hops, parent, depth, bound).Some?
    ensures forall g :: g in Flatten(hops, parent, depth, bound).value ==> g.hop in hops
    decreases bound, 0, 0
  {
    forall c | c in SortedChildren(hops, parent) ensures c in hops { SortedChildrenMeaning(hops, parent, c); }
    FlattenAllShowsHops(hops, SortedChildren(hops, parent), depth, bound - 1);
  }

  lemma {:induction false} FlattenAllShowsHops(hops: seq<Hop>, children: seq<Hop>, depth: nat, bound: nat)
    requires FlattenAll(hops, children, depth, bound).Some? && forall c :: c in children ==> c in hops
    ensures forall g :: g in FlattenAll(hops, children, depth, bound).value ==> g.hop in hops
    decreases bound, 1, |children|
  {
    hide Flatten;
    if children != [] {
      FlattenShowsHops(hops, children[0].index, depth + 1, bound);
      FlattenAllShowsHops(hops, children[1..], depth, bound);
    }
  }

  lemma {:induction false} GroupsShowHops(hops: seq<Hop>, roots: seq<Hop>, bound: nat)
    requires GroupsFor(hops, roots, bound).Some? && forall r :: r in roots ==> r in hops
    ensures forall g :: g in Shown(GroupsFor(hops, roots, bound).value) ==> g.hop in hops
  {
    hide Flatten;
    if roots != [] {
      FlattenShowsHops(hops, roots[0].index, 1, bound);
      GroupsShowHops(hops, roots[1..], bound);
      assert GroupsFor(hops, roots, bound).value[1..] == GroupsFor(hops, roots[1..], bound).value;
    }
  }

  lemma {:induction false} ParentIsShown(hops: seq<Hop>, list: seq<Grouped>, h: Hop, q: Hop)
    requires IsForest(hops) && q in hops && h.parent == Some(q.index) && forall g :: g in list ==> g.hop in hops
    ensures CountParent(list, h) == CountHop(list, q)
  {
    if list != [] {
      ParentIsShown(hops, list[..|list| - 1], h, q);
      assert list[|list| - 1].hop in hops;
      if list[|list| - 1].hop.index == q.index {
        SameIndexSameHop(hops, list[|list| - 1].hop, q);
      }
    }
  }

  lemma SameIndexSameHop(hops: seq<Hop>, a: Hop, b: Hop)
    requires IsForest(hops) && a in hops && b in hops && a.index == b.index
    ensures a == b
  {}

  lemma {:induction false} NoParentShown(list: seq<Grouped>, h: Hop)
    requires forall g :: g in list ==> h.parent != Some(g.hop.index)
    ensures CountParent(list, h) == 0
  {
    if list != [] {
      NoParentShown(list[..|list| - 1], h);
      assert list[|list| - 1] in list;
    }
  }

  lemma {:induction false} UniqueOnce(hops: seq<Hop>, h: Hop)
    requires h in hops && forall i, j :: 0 <= i < j < |hops| ==> hops[i].index != hops[j].index
    ensures multiset(hops)[h] == 1
  {
    var n := |hops| - 1;
    assert hops == hops[..n] + [hops[n]];
    if h == hops[n] {
      assert h !in hops[..n];
    } else {
      UniqueOnce(hops[..n], h);
    }
  }

  /** Every hop of a forest is shown exactly once: roots as group parents, other hops as often as their parent. */
  lemma {:induction false} ShownOnce(hops: seq<Hop>, bound: nat, h: Hop)
    requires IsForest(hops) && GroupHops(hops, bound).Some? && h in hops
    ensures CountHop(Shown(GroupHops(hops, bound).value), h) == 1
    decreases h.index
  {
    var roots, shown := Roots(hops), Shown(GroupHops(hops, bound).value);
    UniqueOnce(hops, h);
    RootsMeaning(hops, hops, h);
    SortSame(RootsIn(hops, hops));
    forall r | r in roots ensures r in hops { SortKeeps(RootsIn(hops, hops), r); RootsMeaning(hops, hops, r); }
    GroupsCount(hops, roots, bound, h);
    GroupsShowHops(hops, roots, bound);
    hide Shown, GroupsFor, Roots;
    if IsRoot(hops, h) {
      NoParentShown(shown, h);
    } else {
      var i :| 0 <= i < |hops| && hops[i].index == h.parent.value;
      ParentIsShown(hops, shown, h, hops[i]);
      ShownOnce(hops, bound, hops[i]);
    }
  }

  function HopsOf(list: seq<Grouped>): seq<Hop> {
    if list == [] then [] else HopsOf(list[..|list| - 1]) + [list[|list| - 1].hop]
  }

  lemma {:induction false} CountIsMultiset(list: seq<Grouped>, h: Hop)
    ensures multiset(HopsOf(list))[h] == CountHop(list, h)
    ensures h in HopsOf(list) ==> exists g :: g in list && g.hop == h
  {
    if list != [] {
      CountIsMultiset(list[..|list| - 1], h);
      assert list == list[..|list| - 1] + [list[|list| - 1]];
    }
  }

  // ---- Order and depth ----

  /**
   * The list is an outline below an index, in preorder: an entry of the first depth is a child of the index; a deeper
   * one is a child of the nearest entry above it that is one less deep; siblings come in the order of their indexes.
   */
  ghost predicate IsOutline(list: seq<Grouped>, parent: nat, depth: nat) {
    && (list != [] ==> list[0].depth == depth)
    && (forall i :: 0 <= i < |list| ==> Hangs(list, i, parent, depth))
    && (forall i, k :: 0 <= i < k < |list| && Siblings(list, i, k) ==> list[i].hop.index <= list[k].hop.index)
  }

  ghost predicate Hangs(list: seq<Grouped>, i: nat, parent: nat, depth: nat)
    requires i < |list|
  {
    && list[i].depth >= depth
    && if list[i].depth == depth then list[i].hop.parent == Some(parent) else exists j: nat :: HangsFrom(list, j, i)
  }

  ghost predicate HangsFrom(list: seq<Grouped>, j: nat, i: nat)
    requires i < |list|
  {
    && j < i && list[j].depth + 1 == list[i].depth && list[i].hop.parent == Some(list[j].hop.index)
    && forall k :: j < k < i ==> list[k].depth >= list[i].depth
  }

  ghost predicate Siblings(list: seq<Grouped>, i: nat, k: nat)
    requires i < k < |list|
  {
    list[i].depth == list[k].depth && forall m :: i < m < k ==> list[m].depth >= list[i].depth
  }

  predicate Ordered(hops: seq<Hop>) {
    forall i, j :: 0 <= i < j < |hops| ==> hops[i].index <= hops[j].index
  }

  lemma PrependOrdered(h: Hop, sorted: seq<Hop>)
    requires Ordered(sorted) && (sorted != [] ==> h.index <= sorted[0].index)
    ensures Ordered([h] + sorted)
  {
    var all := [h] + sorted;
    forall i, j | 0 <= i < j < |all| ensures all[i].index <= all[j].index {
      assert all[j] == sorted[j - 1];
      assert i > 0 ==> all[i] == sorted[i - 1];
    }
  }

  lemma {:induction false} InsertOrdered(h: Hop, sorted: seq<Hop>)
    requires Ordered(sorted)
    ensures Ordered(Insert(h, sorted))
  {
    if sorted != [] && h.index > sorted[0].index {
      InsertOrdered(h, sorted[1..]);
      PrependOrdered(sorted[0], Insert(h, sorted[1..]));
    } else {
      PrependOrdered(h, sorted);
    }
  }

  lemma {:induction false} SortOrdered(hops: seq<Hop>)
    ensures Ordered(SortByIndex(hops))
  {
    if hops != [] {
      SortOrdered(hops[1..]);
      InsertOrdered(hops[0], SortByIndex(hops[1..]));
    }
  }

  /** The entries of the first depth are the given children. */
  ghost predicate FirstLevel(list: seq<Grouped>, children: seq<Hop>, depth: nat) {
    forall i :: 0 <= i < |list| && list[i].depth == depth ==> list[i].hop in children
  }

  lemma JoinHangs(first: Grouped, below: seq<Grouped>, rest: seq<Grouped>, parent: nat, depth: nat, i: nat)
    requires first.depth == depth && first.hop.parent == Some(parent)
    requires IsOutline(below, first.hop.index, depth + 1) && IsOutline(rest, parent, depth)
    requires i < 1 + |below| + |rest|
    ensures Hangs([first] + below + rest, i, parent, depth)
  {
    var list := [first] + below + rest;
    var n := 1 + |below|;
    if 0 < i < n {
      assert list[i] == below[i - 1] && Hangs(below, i - 1, first.hop.index, depth + 1);
      assert forall k :: 0 < k < n ==> list[k] == below[k - 1];
      if below[i - 1].depth == depth + 1 {
        forall k | 0 < k < i ensures list[k].depth >= list[i].depth {
          assert Hangs(below, k - 1, first.hop.index, depth + 1);
        }
        assert HangsFrom(list, 0, i);
      } else {
        var j: nat :| HangsFrom(below, j, i - 1);
        assert HangsFrom(list, j + 1, i);
      }
    } else if n <= i {
      assert list[i] == rest[i - n] && Hangs(rest, i - n, parent, depth);
      assert forall k :: n <= k < |list| ==> list[k] == rest[k - n];
      if rest[i - n].depth != depth {
        var j: nat :| HangsFrom(rest, j, i - n);
        assert HangsFrom(list, j + n, i);
      }
    }
  }

  lemma JoinSiblings(first: Grouped, below: seq<Grouped>, rest: seq<Grouped>, parent: nat, depth: nat, i: nat, k: nat)
    requires first.depth == depth
    requires IsOutline(below, first.hop.index, depth + 1) && IsOutline(rest, parent, depth)
    requires forall m :: 0 <= m < |rest| && rest[m].depth == depth ==> first.hop.index <= rest[m].hop.index
    requires i < k < 1 + |below| + |rest| && Siblings([first] + below + rest, i, k)
    ensures ([first] + below + rest)[i].hop.index <= ([first] + below + rest)[k].hop.index
  {
    var list := [first] + below + rest;
    var n := 1 + |below|;
    BelowIsDeeper(below, first.hop.index, depth + 1);
    assert forall m :: 0 < m < n ==> list[m] == below[m - 1] && list[m].depth > depth;
    assert forall m :: n <= m < |list| ==> list[m] == rest[m - n];
    assert rest != [] ==> list[n].depth == depth;
    if 0 < i && k < n {
      forall m | i - 1 < m < k - 1 ensures below[m].depth >= below[i - 1].depth { assert list[m + 1] == below[m]; }
      assert Siblings(below, i - 1, k - 1);
    } else if n <= i {
      forall m | i - n < m < k - n ensures rest[m].depth >= rest[i - n].depth { assert list[m + n] == rest[m]; }
      assert Siblings(rest, i - n, k - n);
    }
  }

  lemma JoinOutline(first: Grouped, below: seq<Grouped>, rest: seq<Grouped>, parent: nat, depth: nat)
    requires first.depth == depth && first.hop.parent == Some(parent)
    requires IsOutline(below, first.hop.index, depth + 1) && IsOutline(rest, parent, depth)
    requires forall m :: 0 <= m < |rest| && rest[m].depth == depth ==> first.hop.index <= rest[m].hop.index
    ensures IsOutline([first] + below + rest, parent, depth)
  {
    var list := [first] + below + rest;
    forall i | 0 <= i < |list| ensures Hangs(list, i, parent, depth) {
      JoinHangs(first, below, rest, parent, depth, i);
    }
    forall i, k | 0 <= i < k < |list| && Siblings(list, i, k) ensures list[i].hop.index <= list[k].hop.index {
      JoinSiblings(first, below, rest, parent, depth, i, k);
    }
  }

  lemma {:induction false} FlattenIsOutline(hops: seq<Hop>, parent: nat, depth: nat, bound: nat)
    requires Flatten(hops, parent, depth, bound).Some?
    ensures IsOutline(Flatten(hops, parent, depth, bound).value, parent, depth)
    decreases bound, 0, 0
  {
    hide IsOutline;
    var children := SortedChildren(hops, parent);
    SortOrdered(ChildrenOf(hops, parent));
    forall c | c in children ensures c.parent == Some(parent) { SortedChildrenMeaning(hops, parent, c); }
    FlattenAllIsOutline(hops, children, parent, depth, bound - 1);
  }

  lemma {:induction false} FlattenAllIsOutline(hops: seq<Hop>, children: seq<Hop>, parent: nat, depth: nat, bound: nat)
    requires FlattenAll(hops, children, depth, bound).Some?
    requires Ordered(children) && forall c :: c in children ==> c.parent == Some(parent)
    ensures var list := FlattenAll(hops, children, depth, bound).value;
            IsOutline(list, parent, depth) && FirstLevel(list, children, depth)
    decreases bound, 1, |children|
  {
    if children == [] {
    } else {
      hide Flatten;
      var first := Grouped(children[0], depth);
      var below := Flatten(hops, children[0].index, depth + 1, bound).value;
      var rest := FlattenAll(hops, children[1..], depth, bound).value;
      FlattenIsOutline(hops, children[0].index, depth + 1, bound);
      FlattenAllIsOutline(hops, children[1..], parent, depth, bound);
      forall m | 0 <= m < |rest| && rest[m].depth == depth ensures children[0].index <= rest[m].hop.index {
        var c :| 0 <= c < |children[1..]| && children[1..][c] == rest[m].hop;
        assert children[c + 1] == rest[m].hop;
      }
      JoinOutline(first, below, rest, parent, depth);
      BelowIsDeeper(below, children[0].index, depth + 1);
      hide IsOutline;
    }
  }

  lemma BelowIsDeeper(list: seq<Grouped>, parent: nat, depth: nat)
    requires IsOutline(list, parent, depth)
    ensures forall i :: 0 <= i < |list| ==> list[i].depth >= depth
  {
    forall i | 0 <= i < |list| ensures list[i].depth >= depth {
      assert Hangs(list, i, parent, depth);
    }
  }

  lemma {:induction false} GroupsAreOutlines(hops: seq<Hop>, roots: seq<Hop>, bound: nat)
    requires GroupsFor(hops, roots, bound).Some?
    ensures var groups := GroupsFor(hops, roots, bound).value;
            |groups| == |roots| && forall i :: 0 <= i < |groups| ==>
              groups[i].parent == roots[i] && IsOutline(groups[i].supportHops, roots[i].index, 1)
  {
    hide Flatten, IsOutline;
    if roots != [] {
      FlattenIsOutline(hops, roots[0].index, 1, bound);
      GroupsAreOutlines(hops, roots[1..], bound);
    }
  }

  /**
   * Hop grouping is a forest flattening. For any hop list with unique indexes in which every parent_index is below the
   * hop's own index, grouping ends; every hop is shown exactly once; the groups are those of the roots in the order of
   * their indexes; and each group is an outline of the hops below its root, in preorder with siblings by index, with
   * the distance to the root as depth.
   */
  lemma ForestFlattening(hops: seq<Hop>)
    requires IsForest(hops)
    ensures exists bound :: GroupHops(hops, bound).Some?
    ensures forall bound :: GroupHops(hops, bound).Some? ==>
              var groups := GroupHops(hops, bound).value;
              && multiset(HopsOf(Shown(groups))) == multiset(hops)
              && (forall i :: 0 <= i < |groups| ==> IsRoot(hops, groups[i].parent))
              && (forall i, j :: 0 <= i < j < |groups| ==> groups[i].parent.index <= groups[j].parent.index)
              && (forall i :: 0 <= i < |groups| ==> IsOutline(groups[i].supportHops, groups[i].parent.index, 1))
  {
    ForestEnds(hops);
    forall bound | GroupHops(hops, bound).Some?
      ensures var groups := GroupHops(hops, bound).value;
              && multiset(HopsOf(Shown(groups))) == multiset(hops)
              && (forall i :: 0 <= i < |groups| ==> IsRoot(hops, groups[i].parent))
              && (forall i, j :: 0 <= i < j < |groups| ==> groups[i].parent.index <= groups[j].parent.index)
              && (forall i :: 0 <= i < |groups| ==> IsOutline(groups[i].supportHops, groups[i].parent.index, 1))
    {
      ForestIsShown(hops, bound);
      GroupsAreOutlines(hops, Roots(hops), bound);
      SortOrdered(RootsIn(hops, hops));
      forall r | r in Roots(hops) ensures IsRoot(hops, r) {
        SortKeeps(RootsIn(hops, hops), r);
        RootsMeaning(hops, hops, r);
      }
      hide IsOutline, GroupsFor, HopsOf, Shown, IsRoot;
    }
  }

  lemma ForestIsShown(hops: seq<Hop>, bound: nat)
    requires IsForest(hops) && GroupHops(hops, bound).Some?
    ensures multiset(HopsOf(Shown(GroupHops(hops, bound).value))) == multiset(hops)
  {
    var shown := Shown(GroupHops(hops, bound).value);
    forall r | r in Roots(hops) ensures r in hops { SortKeeps(RootsIn(hops, hops), r); RootsMeaning(hops, hops, r); }
    GroupsShowHops(hops, Roots(hops), bound);
    hide Shown, GroupHops, HopsOf, CountHop;
    forall h ensures multiset(HopsOf(shown))[h] == multiset(hops)[h] {
      CountIsMultiset(shown, h);
      if h in hops {
        UniqueOnce(hops, h);
        ShownOnce(hops, bound, h);
      } else {
        assert h !in HopsOf(shown);
      }
    }
  }
}
