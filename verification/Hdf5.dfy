/**
 Counting the weights of a model file: a bounded walk over the links of an HDF5 file, which may
 share objects and even link in circles.
 */
module Hdf5 {
  import opened Options

  const HDF5_OBJECTS_MAX: nat := 100_000

  /** A hard link names an object; a soft or external one could point anywhere. */
  datatype Link = Hard(target: nat) | Indirect

  datatype Object = Group(links: seq<Link>) | Dataset(size: nat) | Other

  type File = map<nat, Object>

  datatype Sizes = Total(total: nat) | Unreadable

  /** Every hard link names an object of the file. */
  predicate Closed(file: File) {
    forall id, k | id in file && file[id].Group? && 0 <= k < |file[id].links| && file[id].links[k].Hard? ::
      file[id].links[k].target in file
  }

  // ---------- a file that unfolds to a tree ----------

  datatype Tree = Branch(children: seq<Tree>) | Leaf(size: nat) | Nothing

  /** What hangs below an object is the finite tree `t`, an object linked twice counted twice. */
  ghost predicate Unfolds(file: File, id: nat, t: Tree)
    decreases t
  {
    && id in file
    && match file[id]
       case Group(links) =>
         && t.Branch? && |t.children| == |links|
         && (forall k | 0 <= k < |links| :: links[k].Hard? && Unfolds(file, links[k].target, t.children[k]))
       case Dataset(size) => t == Leaf(size)
       case Other => t == Nothing
  }

  function LinksOf(t: Tree): nat
    decreases t, 1
  {
    if t.Branch? then LinksOfAll(t.children) else 0
  }

  /** The links to these trees and the links in them. */
  function LinksOfAll(ts: seq<Tree>): nat
    decreases ts, 0
  {
    if ts == [] then 0 else 1 + LinksOf(ts[0]) + LinksOfAll(ts[1..])
  }

  function SumOf(t: Tree): nat
    decreases t, 1
  {
    match t
    case Branch(children) => SumOfAll(children)
    case Leaf(size) => size
    case Nothing => 0
  }

  function SumOfAll(ts: seq<Tree>): nat
    decreases ts, 0
  {
    if ts == [] then 0 else SumOf(ts[0]) + SumOfAll(ts[1..])
  }

  lemma {:induction false} UnfoldsOnce(file: File, id: nat, t: Tree, u: Tree)
    requires Unfolds(file, id, t) && Unfolds(file, id, u)
    ensures t == u
    decreases t
  {
    if t.Branch? {
      forall k | 0 <= k < |t.children| ensures t.children[k] == u.children[k] {
        UnfoldsOnce(file, file[id].links[k].target, t.children[k], u.children[k]);
      }
      assert t.children == u.children;
    }
  }

  // ---------- files that do not unfold ----------

  /** The links a walk follows below an object down to `depth`; one it may not follow outweighs any walk. */
  function Weight(file: File, id: nat, depth: nat): nat
    decreases depth, 1, 0
  {
    if depth == 0 || id !in file || !file[id].Group? then 0 else WeightOfLinks(file, file[id].links, depth - 1)
  }

  function WeightOfLinks(file: File, links: seq<Link>, depth: nat): nat
    decreases depth, 2, |links|
  {
    if links == [] then 0
    else 1 + (if links[0].Hard? then Weight(file, links[0].target, depth) else HDF5_OBJECTS_MAX) + WeightOfLinks(file, links[1..], depth)
  }

  lemma {:induction false} DeeperIsHeavier(file: File, id: nat, depth: nat)
    ensures Weight(file, id, depth) <= Weight(file, id, depth + 1)
    decreases depth, 1, 0
  {
    if depth > 0 && id in file && file[id].Group? {
      DeeperLinksAreHeavier(file, file[id].links, depth - 1);
    }
  }

  lemma {:induction false} DeeperLinksAreHeavier(file: File, links: seq<Link>, depth: nat)
    ensures WeightOfLinks(file, links, depth) <= WeightOfLinks(file, links, depth + 1)
    decreases depth, 2, |links|
  {
    if links != [] {
      if links[0].Hard? { DeeperIsHeavier(file, links[0].target, depth); }
      DeeperLinksAreHeavier(file, links[1..], depth);
    }
  }

  ghost predicate LeadsInto(links: seq<Link>, groups: set<nat>) {
    exists k :: 0 <= k < |links| && links[k].Hard? && links[k].target in groups
  }

  /** Groups each of which has a link that may not be followed, or one to another of them. */
  ghost predicate Stuck(file: File, groups: set<nat>) {
    forall g | g in groups ::
      g in file && file[g].Group?
      && ((exists k :: 0 <= k < |file[g].links| && file[g].links[k].Indirect?) || LeadsInto(file[g].links, groups))
  }

  /** From a stuck group no tree comes to an end. */
  lemma {:induction false} StuckHasNoTree(file: File, groups: set<nat>, g: nat, t: Tree)
    requires Stuck(file, groups) && g in groups
    ensures !Unfolds(file, g, t)
    decreases t
  {
    hide HDF5_OBJECTS_MAX;
    if Unfolds(file, g, t) {
      var k :| 0 <= k < |file[g].links| && file[g].links[k].Hard? && file[g].links[k].target in groups;
      StuckHasNoTree(file, groups, file[g].links[k].target, t.children[k]);
    }
  }

  ghost predicate HasTree(file: File, id: nat) {
    exists t :: Unfolds(file, id, t)
  }

  lemma {:induction false} TreesOfLinks(file: File, links: seq<Link>) returns (ts: seq<Tree>)
    requires forall k | 0 <= k < |links| :: links[k].Hard? && HasTree(file, links[k].target)
    ensures LinksUnfold(file, links, ts)
  {
    ts := [];
    if links != [] {
      var t :| Unfolds(file, links[0].target, t);
      var rest := TreesOfLinks(file, links[1..]);
      ts := [t] + rest;
    }
  }

  /** The objects that unfold to no tree are stuck among themselves. */
  lemma {:induction false} TreelessAreStuck(file: File) returns (groups: set<nat>)
    requires Closed(file)
    ensures Stuck(file, groups) && forall id | id in file :: id in groups <==> !HasTree(file, id)
  {
    hide Unfolds, HDF5_OBJECTS_MAX;
    groups := set id | id in file && !HasTree(file, id);
    forall g | g in groups
      ensures file[g].Group?
      ensures (exists k :: 0 <= k < |file[g].links| && file[g].links[k].Indirect?) || LeadsInto(file[g].links, groups)
    {
      TreelessIsGroup(file, g);
      var k :| 0 <= k < |file[g].links| && !(file[g].links[k].Hard? && HasTree(file, file[g].links[k].target));
    }
  }

  lemma {:induction false} TreelessIsGroup(file: File, g: nat)
    requires g in file && !HasTree(file, g)
    ensures file[g].Group?
    ensures exists k :: 0 <= k < |file[g].links| && !(file[g].links[k].Hard? && HasTree(file, file[g].links[k].target))
  {
    hide HasTree;
    LeafHasTree(file, g);
    GroupHasTree(file, g);
  }

  lemma {:induction false} LeafHasTree(file: File, id: nat)
    requires id in file
    ensures !file[id].Group? ==> HasTree(file, id)
  {
    if !file[id].Group? { assert Unfolds(file, id, if file[id].Dataset? then Leaf(file[id].size) else Nothing); }
  }

  lemma {:induction false} GroupHasTree(file: File, id: nat)
    requires id in file
    ensures file[id].Group? && (forall k | 0 <= k < |file[id].links| :: file[id].links[k].Hard? && HasTree(file, file[id].links[k].target)) ==>
              HasTree(file, id)
  {
    hide HDF5_OBJECTS_MAX;
    if file[id].Group? && forall k | 0 <= k < |file[id].links| :: file[id].links[k].Hard? && HasTree(file, file[id].links[k].target) {
      var ts := TreesOfLinks(file, file[id].links);
      assert Unfolds(file, id, Branch(ts));
    }
  }

  /** An object unfolds to no tree exactly when it is one of a set of stuck groups. */
  lemma {:induction false} StuckExactly(file: File, id: nat)
    requires Closed(file) && id in file
    ensures !HasTree(file, id) <==> exists groups :: Stuck(file, groups) && id in groups
  {
    hide Stuck, Unfolds, HDF5_OBJECTS_MAX;
    var treeless := TreelessAreStuck(file);
    forall groups | Stuck(file, groups) && id in groups ensures !HasTree(file, id) {
      forall t ensures !Unfolds(file, id, t) {
        StuckHasNoTree(file, groups, id, t);
      }
    }
  }

  /** Fewer links than the depth they were counted to: what hangs below is a tree. */
  lemma {:induction false} LightUnfolds(file: File, id: nat, depth: nat) returns (t: Tree)
    requires Closed(file) && id in file && Weight(file, id, depth) < depth <= HDF5_OBJECTS_MAX + 1
    ensures Unfolds(file, id, t)
    decreases depth, 1, 0
  {
    match file[id]
    case Group(links) =>
      var ts := LightLinksUnfold(file, links, depth - 1);
      t := Branch(ts);
    case Dataset(size) => t := Leaf(size);
    case Other => t := Nothing;
  }

  lemma {:induction false} LightLinksUnfold(file: File, links: seq<Link>, depth: nat) returns (ts: seq<Tree>)
    requires Closed(file) && forall k | 0 <= k < |links| && links[k].Hard? :: links[k].target in file
    requires WeightOfLinks(file, links, depth) <= depth <= HDF5_OBJECTS_MAX
    ensures LinksUnfold(file, links, ts)
    decreases depth, 2, |links|
  {
    ts := [];
    if links != [] {
      var t := LightUnfolds(file, links[0].target, depth);
      var rest := LightLinksUnfold(file, links[1..], depth);
      ts := [t] + rest;
    }
  }

  // ---------- the walk ----------

  function WeightOfStack(file: File, groups: seq<nat>, depth: nat): nat {
    if groups == [] then 0
    else Weight(file, groups[|groups| - 1], depth) + WeightOfStack(file, groups[..|groups| - 1], depth)
  }

  function LinksOfStack(ts: seq<Tree>): nat {
    if ts == [] then 0 else LinksOf(ts[|ts| - 1]) + LinksOfStack(ts[..|ts| - 1])
  }

  function SumOfStack(ts: seq<Tree>): nat {
    if ts == [] then 0 else SumOf(ts[|ts| - 1]) + SumOfStack(ts[..|ts| - 1])
  }

  predicate AllGroups(file: File, groups: seq<nat>) {
    forall i | 0 <= i < |groups| :: groups[i] in file && file[groups[i]].Group?
  }

  ghost predicate UnfoldAll(file: File, groups: seq<nat>, ts: seq<Tree>) {
    |ts| == |groups| && forall i | 0 <= i < |groups| :: Unfolds(file, groups[i], ts[i])
  }

  lemma {:induction false} StackPush(file: File, groups: seq<nat>, g: nat, depth: nat, ts: seq<Tree>, t: Tree)
    ensures WeightOfStack(file, groups + [g], depth) == Weight(file, g, depth) + WeightOfStack(file, groups, depth)
    ensures LinksOfStack(ts + [t]) == LinksOf(t) + LinksOfStack(ts)
    ensures SumOfStack(ts + [t]) == SumOf(t) + SumOfStack(ts)
  {
    assert (groups + [g])[..|groups|] == groups && (ts + [t])[..|ts|] == ts;
  }

  /** The objects the links name unfold to these trees. */
  ghost predicate LinksUnfold(file: File, links: seq<Link>, ts: seq<Tree>) {
    |ts| == |links| && forall k | 0 <= k < |links| :: links[k].Hard? && Unfolds(file, links[k].target, ts[k])
  }

  datatype Progress = Progress(groups: seq<nat>, visited: nat, total: nat)

  /**
   Follows the links of one group: counts each, keeps groups for later and adds up the datasets. `None`
   for a link that is not hard or one too many. The ghosts are the trees of what the links name and of
   the groups kept, when there are such trees.
   */
  method FollowLinks(file: File, links: seq<Link>, from: Progress, ghost rest: seq<Tree>, ghost ts: seq<Tree>)
    returns (r: Option<Progress>, ghost us: seq<Tree>)
    requires forall k | 0 <= k < |links| && links[k].Hard? :: links[k].target in file
    requires AllGroups(file, from.groups) && from.visited <= HDF5_OBJECTS_MAX
    ensures r.Some? ==>
              && AllGroups(file, r.value.groups)
              && r.value.visited == from.visited + |links| <= HDF5_OBJECTS_MAX
              && (links == [] ==> r.value == from)
              && from.visited + WeightOfLinks(file, links, HDF5_OBJECTS_MAX + 1) + WeightOfStack(file, from.groups, HDF5_OBJECTS_MAX + 1)
                 <= r.value.visited + WeightOfStack(file, r.value.groups, HDF5_OBJECTS_MAX + 1)
    ensures LinksUnfold(file, links, rest) && UnfoldAll(file, from.groups, ts) ==>
              && (r.Some? <==> from.visited + |links| <= HDF5_OBJECTS_MAX)
              && (r.Some? ==>
                    && UnfoldAll(file, r.value.groups, us)
                    && r.value.visited + LinksOfStack(us) == from.visited + LinksOfAll(rest) + LinksOfStack(ts)
                    && r.value.total + SumOfStack(us) == from.total + SumOfAll(rest) + SumOfStack(ts))
  {
    hide HDF5_OBJECTS_MAX, Unfolds, WeightOfStack, LinksOfStack, SumOfStack, Weight;
    ghost var tree := LinksUnfold(file, links, rest) && UnfoldAll(file, from.groups, ts);
    var now := from;
    us := ts;
    for k := 0 to |links|
      invariant AllGroups(file, now.groups) && now.visited == from.visited + k <= HDF5_OBJECTS_MAX
      invariant k == 0 ==> now == from
      invariant from.visited + WeightOfLinks(file, links, HDF5_OBJECTS_MAX + 1) + WeightOfStack(file, from.groups, HDF5_OBJECTS_MAX + 1)
                <= now.visited + WeightOfLinks(file, links[k..], HDF5_OBJECTS_MAX + 1) + WeightOfStack(file, now.groups, HDF5_OBJECTS_MAX + 1)
      invariant tree ==> UnfoldAll(file, now.groups, us)
      invariant tree ==>
                  now.visited + LinksOfAll(rest[k..]) + LinksOfStack(us) == from.visited + LinksOfAll(rest) + LinksOfStack(ts)
      invariant tree ==> now.total + SumOfAll(rest[k..]) + SumOfStack(us) == from.total + SumOfAll(rest) + SumOfStack(ts)
    {
      if now.visited + 1 > HDF5_OBJECTS_MAX {
        return None, us;
      }
      now := now.(visited := now.visited + 1);
      if links[k].Indirect? {
        return None, us;
      }
      var id := links[k].target;
      ghost var first := if tree then rest[k] else Nothing;
      StackPush(file, now.groups, id, HDF5_OBJECTS_MAX + 1, us, first);
      ObjectCounts(file, id, HDF5_OBJECTS_MAX + 1, first);
      assert links[k..][1..] == links[k + 1..];
      if tree { assert rest[k..][1..] == rest[k + 1..]; }
      match file[id] {
        case Group(_) =>
          now := now.(groups := now.groups + [id]);
          us := us + [first];
        case Dataset(size) =>
          now := now.(total := now.total + size);
        case Other =>
      }
    }
    return Some(now), us;
  }

  lemma {:induction false} ObjectCounts(file: File, id: nat, depth: nat, t: Tree)
    requires id in file
    ensures !file[id].Group? ==> Weight(file, id, depth) == 0
    ensures Unfolds(file, id, t) && file[id].Dataset? ==> SumOf(t) == file[id].size && LinksOf(t) == 0
    ensures Unfolds(file, id, t) && file[id].Other? ==> SumOf(t) == 0 && LinksOf(t) == 0
  {
  }

  lemma {:induction false} BranchCounts(file: File, id: nat, t: Tree)
    requires Unfolds(file, id, t) && file[id].Group?
    ensures t.Branch? && LinksUnfold(file, file[id].links, t.children)
    ensures LinksOf(t) == LinksOfAll(t.children) && SumOf(t) == SumOfAll(t.children) && |t.children| <= LinksOf(t)
  {
    LinksAtLeast(t.children);
  }

  lemma {:induction false} PoppedGroup(file: File, g: nat, depth: nat)
    requires g in file && file[g].Group?
    ensures Weight(file, g, depth) <= WeightOfLinks(file, file[g].links, depth)
  {
    if depth > 0 { DeeperLinksAreHeavier(file, file[g].links, depth - 1); }
  }

  /** The one tree a file unfolds to, if there is one, decides. */
  lemma {:induction false} TreeDecides(file: File, id: nat, t: Tree, r: Sizes)
    requires (exists u :: Unfolds(file, id, u)) ==> Unfolds(file, id, t) && r == SizesOf(t)
    ensures forall u | Unfolds(file, id, u) :: r == SizesOf(u)
  {
    forall u | Unfolds(file, id, u) ensures r == SizesOf(u) {
      UnfoldsOnce(file, id, t, u);
    }
  }

  lemma {:induction false} LinksAtLeast(ts: seq<Tree>)
    ensures |ts| <= LinksOfAll(ts)
  {
    if ts != [] { LinksAtLeast(ts[1..]); }
  }

  /** What the walk makes of a tree: its datasets added up, a dataset in the group's place left out. */
  function SizesOf(t: Tree): Sizes {
    if !t.Branch? then Total(0)
    else if LinksOf(t) <= HDF5_OBJECTS_MAX then Total(SumOf(t))
    else Unreadable
  }

  /**
   What counting the weights below a link gives. It always ends; on a file that unfolds to a tree it is
   the sum of its datasets, or an error if and only if it has too many links; and on one that does not,
   because a link that may not be followed or an endless chain of links can be reached (`StuckExactly`), it
   is an error.
   */
  method SizesUnder(file: File, top: Option<Link>) returns (r: Sizes)
    requires Closed(file) && (top.Some? && top.value.Hard? ==> top.value.target in file)
    ensures top.None? ==> r == Total(0)
    ensures top.Some? && top.value.Indirect? ==> r == Unreadable
    ensures top.Some? && top.value.Hard? ==> forall t | Unfolds(file, top.value.target, t) :: r == SizesOf(t)
    ensures top.Some? && top.value.Hard? && r.Total? ==> exists t :: Unfolds(file, top.value.target, t)
  {
    if top.None? {
      return Total(0);
    }
    if top.value.Indirect? {
      return Unreadable;
    }
    r := Walk(file, top.value.target);
  }

  lemma {:induction false} PoppedTree(file: File, below: seq<nat>, g: nat)
    requires AllGroups(file, below + [g])
    ensures AllGroups(file, below) && g in file && file[g].Group?
  {
    assert (below + [g])[|below|] == g;
    forall i | 0 <= i < |below| ensures below[i] in file && file[below[i]].Group? {
      assert (below + [g])[i] == below[i];
    }
  }

  lemma {:induction false} PoppedTrees(file: File, below: seq<nat>, g: nat, under: seq<Tree>, top: Tree)
    requires UnfoldAll(file, below + [g], under + [top])
    ensures UnfoldAll(file, below, under) && Unfolds(file, g, top)
  {
    hide Unfolds;
    assert (below + [g])[|below|] == g && (under + [top])[|under|] == top;
    forall i | 0 <= i < |below| ensures Unfolds(file, below[i], under[i]) {
      assert (below + [g])[i] == below[i] && (under + [top])[i] == under[i];
    }
  }

  /** The walk's invariant: what it saw and has on its stack, against the weight and, when there is one, the tree. */
  ghost predicate Walking(file: File, id: nat, now: Progress, tree: bool, t: Tree, ts: seq<Tree>) {
    && AllGroups(file, now.groups) && now.visited <= HDF5_OBJECTS_MAX
    && Weight(file, id, HDF5_OBJECTS_MAX + 1) <= now.visited + WeightOfStack(file, now.groups, HDF5_OBJECTS_MAX + 1)
    && (tree ==>
          && UnfoldAll(file, now.groups, ts)
          && now.visited + LinksOfStack(ts) == LinksOf(t) && now.total + SumOfStack(ts) == SumOf(t))
  }

  /** Takes the last group off the stack and follows its links. */
  method Expand(file: File, id: nat, now: Progress, ghost tree: bool, ghost t: Tree, ghost ts: seq<Tree>)
    returns (r: Option<Progress>, ghost us: seq<Tree>)
    requires Closed(file) && Walking(file, id, now, tree, t, ts) && now.groups != []
    ensures r.None? && tree ==> HDF5_OBJECTS_MAX < LinksOf(t)
    ensures r.Some? ==> Walking(file, id, r.value, tree, t, us)
    ensures r.Some? ==> now.visited < r.value.visited <= HDF5_OBJECTS_MAX || (r.value.visited == now.visited && |r.value.groups| < |now.groups|)
  {
    hide Unfolds, WeightOfStack, LinksOfStack, SumOfStack, Weight, WeightOfLinks, LinksOf, LinksOfAll, SumOf, SumOfAll, HDF5_OBJECTS_MAX,
         AllGroups, LinksUnfold;
    var last := |now.groups| - 1;
    var g, below := now.groups[last], now.groups[..last];
    ghost var top, under := if tree then ts[last] else Nothing, if tree then ts[..last] else [];
    assert now.groups == below + [g] && (tree ==> ts == under + [top]);
    PoppedTree(file, below, g);
    StackPush(file, below, g, HDF5_OBJECTS_MAX + 1, under, top);
    PoppedGroup(file, g, HDF5_OBJECTS_MAX + 1);
    if tree {
      PoppedTrees(file, below, g, under, top);
      BranchCounts(file, g, top);
    }
    LinksAreClosed(file, g);
    r, us := FollowLinks(file, file[g].links, now.(groups := below), if tree then top.children else [], under);
  }

  lemma {:induction false} LinksAreClosed(file: File, g: nat)
    requires Closed(file) && g in file && file[g].Group?
    ensures forall k | 0 <= k < |file[g].links| && file[g].links[k].Hard? :: file[g].links[k].target in file
  {
  }

  method Walk(file: File, id: nat) returns (r: Sizes)
    requires Closed(file) && id in file
    ensures forall t | Unfolds(file, id, t) :: r == SizesOf(t)
    ensures r.Total? ==> exists t :: Unfolds(file, id, t)
  {
    hide Unfolds, Walking, SizesOf, HDF5_OBJECTS_MAX, Closed;
    if !file[id].Group? {
      var t := SmallTree(file, id);
      return Total(0);
    }
    ghost var tree := exists t :: Unfolds(file, id, t);
    ghost var t: Tree := Nothing;
    if tree {
      t :| Unfolds(file, id, t);
    }
    ghost var ts := [t];
    var now := Progress([id], 0, 0);
    StartsWalking(file, id, tree, t);
    while now.groups != []
      invariant Walking(file, id, now, tree, t, ts) && now.visited <= HDF5_OBJECTS_MAX
      decreases HDF5_OBJECTS_MAX - now.visited, |now.groups|
    {
      var next, us := Expand(file, id, now, tree, t, ts);
      if next.None? {
        if tree { TooManyLinks(file, id, t); }
        TreeDecides(file, id, t, Unreadable);
        return Unreadable;
      }
      now, ts := next.value, us;
    }
    WalkedAll(file, id, now, tree, t, ts);
    TreeDecides(file, id, t, Total(now.total));
    return Total(now.total);
  }

  lemma {:induction false} StartsWalking(file: File, id: nat, tree: bool, t: Tree)
    requires id in file && file[id].Group? && (tree ==> Unfolds(file, id, t))
    ensures Walking(file, id, Progress([id], 0, 0), tree, t, [t]) && 0 <= HDF5_OBJECTS_MAX
  {
    hide Unfolds, Weight, WeightOfStack, LinksOfStack, SumOfStack, LinksOf, SumOf;
    StackPush(file, [], id, HDF5_OBJECTS_MAX + 1, [], t);
    EmptyStack(file, HDF5_OBJECTS_MAX + 1);
    assert [] + [id] == [id] && [] + [t] == [t];
  }

  /** An empty stack: there is a tree, and its datasets are the total. */
  lemma {:induction false} WalkedAll(file: File, id: nat, now: Progress, tree: bool, t: Tree, ts: seq<Tree>)
    requires Closed(file) && id in file && file[id].Group? && Walking(file, id, now, tree, t, ts) && now.groups == []
    requires tree ==> Unfolds(file, id, t)
    ensures exists u :: Unfolds(file, id, u)
    ensures tree ==> Total(now.total) == SizesOf(t)
  {
    hide Unfolds, Weight, WeightOfStack, LinksOfStack, SumOfStack, LinksOf, SumOf, HDF5_OBJECTS_MAX;
    EmptyStack(file, HDF5_OBJECTS_MAX + 1);
    LightEnough(file, id);
    if tree {
      assert ts == [];
      GroupIsBranch(file, id, t);
    }
  }

  lemma {:induction false} SmallTree(file: File, id: nat) returns (t: Tree)
    requires id in file && !file[id].Group?
    ensures Unfolds(file, id, t) && forall u | Unfolds(file, id, u) :: SizesOf(u) == Total(0)
  {
    t := if file[id].Dataset? then Leaf(file[id].size) else Nothing;
  }

  lemma {:induction false} LightEnough(file: File, id: nat)
    requires Closed(file) && id in file && Weight(file, id, HDF5_OBJECTS_MAX + 1) <= HDF5_OBJECTS_MAX
    ensures exists t :: Unfolds(file, id, t)
  {
    var t := LightUnfolds(file, id, HDF5_OBJECTS_MAX + 1);
  }

  lemma {:induction false} EmptyStack(file: File, depth: nat)
    ensures WeightOfStack(file, [], depth) == 0 && LinksOfStack([]) == 0 && SumOfStack([]) == 0
  {
  }

  lemma {:induction false} GroupIsBranch(file: File, id: nat, t: Tree)
    requires Unfolds(file, id, t) && file[id].Group?
    ensures t.Branch?
  {
  }

  lemma {:induction false} TooManyLinks(file: File, id: nat, t: Tree)
    requires Unfolds(file, id, t) && file[id].Group? && HDF5_OBJECTS_MAX < LinksOf(t)
    ensures SizesOf(t) == Unreadable
  {
  }
}
