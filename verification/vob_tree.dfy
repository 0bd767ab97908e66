/**
  The Vob transform tree (Game/world/vob.cpp) as an arena: node `j` of a
  scene holds its parent's index, its children's indices in declaration
  order, its local transform and its runtime variant; the cached world
  transforms are a parallel sequence. A parent always has a smaller index
  than its children, as construction guarantees.
 */
module VobTree {
  import opened Util
  import opened Transform

  /** The runtime classes `Vob::load` can instantiate. */
  datatype Variant =
    | PlainVob | StaticObj | Interactive
    | MoveTrigger | CodeMaster | TriggerList | TriggerScript | TriggerWorldStart
    | ZoneTrigger | Trigger | MessageFilter

  datatype Node = Node(parent: Option<nat>, children: seq<nat>, local: Xf, variant: Variant)

  datatype Scene = Scene(nodes: seq<Node>, world: seq<Xf>)

  /** Node `j`'s parent precedes it and lists it as a child. */
  ghost predicate ParentLinked(nodes: seq<Node>, j: nat)
    requires j < |nodes|
  {
    match nodes[j].parent
    case None => true
    case Some(p) => p < j && j in nodes[p].children
  }

  /** Node `j`'s children follow it, point back to it, and appear once each. */
  ghost predicate ChildrenLinked(nodes: seq<Node>, j: nat)
    requires j < |nodes|
  {
    var cs := nodes[j].children;
    && (forall k | 0 <= k < |cs| :: j < cs[k] < |nodes| && nodes[cs[k]].parent == Some(j))
    && (forall k, l | 0 <= k < l < |cs| :: cs[k] != cs[l])
  }

  ghost predicate WellFormed(nodes: seq<Node>) {
    forall j | 0 <= j < |nodes| :: ParentLinked(nodes, j) && ChildrenLinked(nodes, j)
  }

  ghost predicate Valid(s: Scene) {
    WellFormed(s.nodes) && |s.world| == |s.nodes|
  }

  /** `j` is `i` or lies below it. */
  ghost predicate Desc(nodes: seq<Node>, j: nat, i: nat)
    decreases j
  {
    j < |nodes| &&
    (j == i || (nodes[j].parent.Some? && nodes[j].parent.value < j && Desc(nodes, nodes[j].parent.value, i)))
  }

  /** The transform-tree invariant at node `j`: world = parent.world × local,
      or world = local at a root. */
  ghost predicate Consistent(s: Scene, j: nat)
    requires |s.world| == |s.nodes| && j < |s.nodes|
  {
    match s.nodes[j].parent
    case None => s.world[j] == s.nodes[j].local
    case Some(p) => p < |s.nodes| && s.world[j] == Compose(s.world[p], s.nodes[j].local)
  }

  ghost predicate AllConsistent(s: Scene)
    requires |s.world| == |s.nodes|
  {
    forall j | 0 <= j < |s.nodes| :: Consistent(s, j)
  }

  /** `Vob::position`. */
  function NodePosition(s: Scene, j: nat): Vec3
    requires j < |s.world|
  {
    Position(s.world[j])
  }

  /** The result of one recompute pass: new world transforms, the nodes for
      which the world index was invalidated, and the nodes whose move hook
      ran, in visiting order. */
  datatype Pass = Pass(world: seq<Xf>, invalidated: set<nat>, visited: seq<nat>)

  /** The world transform `recalculateTransform` computes for node `i`. */
  function Recomputed(s: Scene, i: nat): Xf
    requires Valid(s) && i < |s.nodes|
  {
    assert ParentLinked(s.nodes, i);
    match s.nodes[i].parent
    case None => s.nodes[i].local
    case Some(p) => Compose(s.world[p], s.nodes[i].local)
  }

  /** `recalculateTransform` on node `i`: recompute its world transform,
      invalidate the index when its position changed, run its move hook,
      then recurse into every child. */
  function Recalc(s: Scene, i: nat): (r: Pass)
    requires Valid(s) && i < |s.nodes|
    ensures |r.world| == |s.nodes|
    ensures r.world[i] == Recomputed(s, i)
    ensures forall j | 0 <= j < i :: r.world[j] == s.world[j]
    ensures i in r.invalidated <==> Position(r.world[i]) != Position(s.world[i])
    ensures |r.visited| >= 1 && r.visited[0] == i
    decreases |s.nodes| - i, 2, 0, 0
  {
    var w := Recomputed(s, i);
    var inv: set<nat> := if Position(w) != Position(s.world[i]) then {i} else {};
    var s1 := s.(world := s.world[i := w]);
    var rest := RecalcChildren(s1, i, 0);
    RecalcChildrenFacts(s1, i, 0);
    SelfNotInChildren(s.nodes, i, 0);
    assert forall j | 0 <= j < i :: !InChildren(s.nodes, i, 0, j) by {
      forall j | 0 <= j < i ensures !InChildren(s.nodes, i, 0, j) {
        if InChildren(s.nodes, i, 0, j) {
          InChildrenAbove(s.nodes, i, 0, j);
        }
      }
    }
    Pass(rest.world, inv + rest.invalidated, [i] + rest.visited)
  }

  /** The loop over children `k..` of node `i`. */
  function RecalcChildren(s: Scene, i: nat, k: nat): (r: Pass)
    requires Valid(s) && i < |s.nodes| && k <= |s.nodes[i].children|
    ensures |r.world| == |s.nodes|
    ensures forall j | 0 <= j <= i :: r.world[j] == s.world[j]
    decreases |s.nodes| - i, 1, |s.nodes[i].children| - k, 0
  {
    if k == |s.nodes[i].children| then Pass(s.world, {}, [])
    else
      assert ChildrenLinked(s.nodes, i);
      var c := s.nodes[i].children[k];
      var a := Recalc(s, c);
      var b := RecalcChildren(s.(world := a.world), i, k + 1);
      Pass(b.world, a.invalidated + b.invalidated, a.visited + b.visited)
  }

  /** `j` lies below one of the children `k..` of `i`. */
  ghost predicate InChildren(nodes: seq<Node>, i: nat, k: nat, j: nat)
    requires i < |nodes|
    decreases |nodes[i].children| - k
  {
    k < |nodes[i].children| && (Desc(nodes, j, nodes[i].children[k]) || InChildren(nodes, i, k + 1, j))
  }

  /** Every node below a child of `i` comes after `i`. */
  lemma {:induction false} InChildrenAbove(nodes: seq<Node>, i: nat, k: nat, j: nat)
    requires WellFormed(nodes) && i < |nodes| && InChildren(nodes, i, k, j)
    ensures i < j
  {
    var m := InChildrenWitness(nodes, i, k, j);
    assert ChildrenLinked(nodes, i);
    DescLe(nodes, j, nodes[i].children[m]);
  }

  lemma {:induction false} DescLe(nodes: seq<Node>, j: nat, i: nat)
    requires Desc(nodes, j, i)
    ensures i <= j
    decreases j
  {
    if j != i {
      DescLe(nodes, nodes[j].parent.value, i);
    }
  }

  /** Two ancestors of the same node are ancestor and descendant of each other. */
  lemma {:induction false} DescComparable(nodes: seq<Node>, j: nat, a: nat, b: nat)
    requires Desc(nodes, j, a) && Desc(nodes, j, b)
    ensures Desc(nodes, a, b) || Desc(nodes, b, a)
    decreases j
  {
    if j != a && j != b {
      DescComparable(nodes, nodes[j].parent.value, a, b);
    }
  }

  /** Below a child of `i` is below `i`. */
  lemma {:induction false} DescThroughChild(nodes: seq<Node>, j: nat, c: nat, i: nat)
    requires Desc(nodes, j, c) && c < |nodes| && nodes[c].parent == Some(i) && i < c
    ensures Desc(nodes, j, i)
    decreases j
  {
    if j != c {
      DescThroughChild(nodes, nodes[j].parent.value, c, i);
    }
  }

  lemma {:induction false} InChildrenWitness(nodes: seq<Node>, i: nat, k: nat, j: nat) returns (m: nat)
    requires i < |nodes| && InChildren(nodes, i, k, j)
    ensures k <= m < |nodes[i].children| && Desc(nodes, j, nodes[i].children[m])
    decreases |nodes[i].children| - k
  {
    if Desc(nodes, j, nodes[i].children[k]) {
      m := k;
    } else {
      m := InChildrenWitness(nodes, i, k + 1, j);
    }
  }

  lemma {:induction false} InChildrenIntro(nodes: seq<Node>, i: nat, k: nat, m: nat, j: nat)
    requires i < |nodes| && k <= m < |nodes[i].children| && Desc(nodes, j, nodes[i].children[m])
    ensures InChildren(nodes, i, k, j)
    decreases m - k
  {
    if k < m {
      InChildrenIntro(nodes, i, k + 1, m, j);
    }
  }

  /** The subtrees of two different children never overlap. */
  lemma {:induction false} SiblingsDisjoint(nodes: seq<Node>, i: nat, k: nat, m: nat, j: nat)
    requires WellFormed(nodes) && i < |nodes| && k < |nodes[i].children| && m < |nodes[i].children| && k != m
    requires Desc(nodes, j, nodes[i].children[k])
    ensures !Desc(nodes, j, nodes[i].children[m])
  {
    assert ChildrenLinked(nodes, i);
    var ck := nodes[i].children[k];
    var cm := nodes[i].children[m];
    if Desc(nodes, j, cm) {
      DescComparable(nodes, j, ck, cm);
      if Desc(nodes, ck, cm) {
        assert ck != cm;
        DescLe(nodes, i, cm);
      } else {
        assert cm != ck;
        DescLe(nodes, i, ck);
      }
    }
  }

  /** A node below child `k` is below none of the later children. */
  lemma {:induction false} NotInLaterChildren(nodes: seq<Node>, i: nat, k: nat, j: nat)
    requires WellFormed(nodes) && i < |nodes| && k < |nodes[i].children|
    requires Desc(nodes, j, nodes[i].children[k])
    ensures !InChildren(nodes, i, k + 1, j)
  {
    if InChildren(nodes, i, k + 1, j) {
      var m := InChildrenWitness(nodes, i, k + 1, j);
      SiblingsDisjoint(nodes, i, k, m, j);
    }
  }

  /** A node is below none of its own children. */
  lemma {:induction false} SelfNotInChildren(nodes: seq<Node>, i: nat, k: nat)
    requires WellFormed(nodes) && i < |nodes|
    ensures !InChildren(nodes, i, k, i)
  {
    if InChildren(nodes, i, k, i) {
      var m := InChildrenWitness(nodes, i, k, i);
      assert ChildrenLinked(nodes, i);
      DescLe(nodes, i, nodes[i].children[m]);
    }
  }

  /** The subtree of `i` is `i` plus the subtrees of its children. */
  lemma {:induction false} DescSplit(nodes: seq<Node>, i: nat, j: nat)
    requires WellFormed(nodes) && i < |nodes|
    ensures Desc(nodes, j, i) <==> j == i || InChildren(nodes, i, 0, j)
    decreases j
  {
    if InChildren(nodes, i, 0, j) {
      var m := InChildrenWitness(nodes, i, 0, j);
      assert ChildrenLinked(nodes, i);
      DescThroughChild(nodes, j, nodes[i].children[m], i);
    }
    if Desc(nodes, j, i) && j != i {
      var p := nodes[j].parent.value;
      assert ParentLinked(nodes, j);
      if p == i {
        var m :| 0 <= m < |nodes[i].children| && nodes[i].children[m] == j;
        InChildrenIntro(nodes, i, 0, m, j);
      } else {
        DescSplit(nodes, i, p);
        var m := InChildrenWitness(nodes, i, 0, p);
        assert Desc(nodes, j, nodes[i].children[m]);
        InChildrenIntro(nodes, i, 0, m, j);
      }
    }
  }

  /** After `recalculateTransform` on `i`: nodes outside the subtree keep
      their world transform; every node of the subtree satisfies the tree
      invariant; the index was invalidated for exactly the subtree nodes whose
      position changed; and every subtree node was visited. */
  lemma {:induction false} RecalcFacts(s: Scene, i: nat)
    requires Valid(s) && i < |s.nodes|
    ensures var r := Recalc(s, i);
            var s' := s.(world := r.world);
            && (forall j | 0 <= j < |s.nodes| && !Desc(s.nodes, j, i) :: r.world[j] == s.world[j])
            && (forall j | 0 <= j < |s.nodes| && Desc(s.nodes, j, i) :: Consistent(s', j))
            && (forall j :: j in r.invalidated <==>
                  0 <= j < |s.nodes| && Desc(s.nodes, j, i) && Position(r.world[j]) != Position(s.world[j]))
            && (forall j :: j in r.visited <==> 0 <= j < |s.nodes| && Desc(s.nodes, j, i))
    decreases |s.nodes| - i, 3, 0, 0
  {
    RecalcWorld(s, i);
    RecalcSets(s, i);
  }

  /** The world-transform half of `RecalcFacts`. */
  lemma {:induction false} RecalcWorld(s: Scene, i: nat)
    requires Valid(s) && i < |s.nodes|
    ensures var r := Recalc(s, i);
            var s' := s.(world := r.world);
            && (forall j | 0 <= j < |s.nodes| && !Desc(s.nodes, j, i) :: r.world[j] == s.world[j])
            && (forall j | 0 <= j < |s.nodes| && Desc(s.nodes, j, i) :: Consistent(s', j))
    decreases |s.nodes| - i, 2, 0, 2
  {
    RecalcOutside(s, i);
    RecalcInside(s, i);
  }

  lemma {:induction false} RecalcOutside(s: Scene, i: nat)
    requires Valid(s) && i < |s.nodes|
    ensures var r := Recalc(s, i);
            forall j | 0 <= j < |s.nodes| && !Desc(s.nodes, j, i) :: r.world[j] == s.world[j]
    decreases |s.nodes| - i, 2, 0, 1
  {
    var nodes := s.nodes;
    var s1 := s.(world := s.world[i := Recomputed(s, i)]);
    var rest := RecalcChildren(s1, i, 0);
    RecalcChildrenFacts(s1, i, 0);
    var r := Recalc(s, i);
    assert r.world == rest.world;
    forall j | 0 <= j < |nodes| && !Desc(nodes, j, i)
      ensures r.world[j] == s.world[j]
    {
      DescSplit(nodes, i, j);
    }
  }

  lemma {:induction false} RecalcInside(s: Scene, i: nat)
    requires Valid(s) && i < |s.nodes|
    ensures var r := Recalc(s, i);
            forall j | 0 <= j < |s.nodes| && Desc(s.nodes, j, i) :: Consistent(s.(world := r.world), j)
    decreases |s.nodes| - i, 2, 0, 1
  {
    var nodes := s.nodes;
    var s1 := s.(world := s.world[i := Recomputed(s, i)]);
    var rest := RecalcChildren(s1, i, 0);
    var r := Recalc(s, i);
    assert r.world == rest.world;
    var s' := s.(world := r.world);
    assert Consistent(s', i) by {
      assert ParentLinked(nodes, i);
    }
    assert forall j | 0 <= j < |nodes| && InChildren(nodes, i, 0, j) :: Consistent(s', j) by {
      RecalcChildrenFacts(s1, i, 0);
      assert s' == s1.(world := rest.world);
    }
    forall j | 0 <= j < |nodes| && Desc(nodes, j, i)
      ensures Consistent(s', j)
    {
      DescSplit(nodes, i, j);
    }
  }

  /** The invalidated-set and visiting-order half of `RecalcFacts`. */
  lemma {:induction false} RecalcSets(s: Scene, i: nat)
    requires Valid(s) && i < |s.nodes|
    ensures var r := Recalc(s, i);
            && (forall j :: j in r.invalidated <==>
                  0 <= j < |s.nodes| && Desc(s.nodes, j, i) && Position(r.world[j]) != Position(s.world[j]))
            && (forall j :: j in r.visited <==> 0 <= j < |s.nodes| && Desc(s.nodes, j, i))
    decreases |s.nodes| - i, 2, 0, 1
  {
    var nodes := s.nodes;
    var s1 := s.(world := s.world[i := Recomputed(s, i)]);
    var rest := RecalcChildren(s1, i, 0);
    RecalcChildrenFacts(s1, i, 0);
    var r := Recalc(s, i);
    assert r.world == rest.world && r.visited == [i] + rest.visited;
    assert r.invalidated ==
      (if Position(Recomputed(s, i)) != Position(s.world[i]) then {i} else {}) + rest.invalidated;
    SelfNotInChildren(nodes, i, 0);
    forall j
      ensures j in r.invalidated <==>
        0 <= j < |nodes| && Desc(nodes, j, i) && Position(r.world[j]) != Position(s.world[j])
    {
      if 0 <= j < |nodes| {
        DescSplit(nodes, i, j);
      }
    }
    forall j
      ensures j in r.visited <==> 0 <= j < |nodes| && Desc(nodes, j, i)
    {
      if 0 <= j < |nodes| {
        DescSplit(nodes, i, j);
      }
    }
  }

  lemma {:induction false} RecalcChildrenFacts(s: Scene, i: nat, k: nat)
    requires Valid(s) && i < |s.nodes| && k <= |s.nodes[i].children|
    ensures var r := RecalcChildren(s, i, k);
            var s' := s.(world := r.world);
            && (forall j | 0 <= j < |s.nodes| && !InChildren(s.nodes, i, k, j) :: r.world[j] == s.world[j])
            && (forall j | 0 <= j < |s.nodes| && InChildren(s.nodes, i, k, j) :: Consistent(s', j))
            && (forall j :: j in r.invalidated <==>
                  0 <= j < |s.nodes| && InChildren(s.nodes, i, k, j) && Position(r.world[j]) != Position(s.world[j]))
            && (forall j :: j in r.visited <==> 0 <= j < |s.nodes| && InChildren(s.nodes, i, k, j))
    decreases |s.nodes| - i, 1, |s.nodes[i].children| - k, 1
  {
    var nodes := s.nodes;
    if k < |nodes[i].children| {
      assert ChildrenLinked(nodes, i);
      var c := nodes[i].children[k];
      var a := Recalc(s, c);
      var sa := s.(world := a.world);
      var b := RecalcChildren(sa, i, k + 1);
      var r := RecalcChildren(s, i, k);
      assert r.world == b.world;
      RecalcFacts(s, c);
      RecalcChildrenFacts(sa, i, k + 1);
      SelfNotInChildren(nodes, i, k + 1);
      forall j | 0 <= j < |nodes| && Desc(nodes, j, c)
        ensures b.world[j] == a.world[j] && Consistent(s.(world := b.world), j)
      {
        NotInLaterChildren(nodes, i, k, j);
        assert Consistent(sa, j);
        assert ParentLinked(nodes, j);
        if j != c {
          var p := nodes[j].parent.value;
          NotInLaterChildren(nodes, i, k, p);
        }
      }
      forall j | 0 <= j < |nodes| && InChildren(nodes, i, k + 1, j)
        ensures a.world[j] == s.world[j]
      {
        if Desc(nodes, j, c) {
          NotInLaterChildren(nodes, i, k, j);
        }
      }
    }
  }

  /** Changing a local transform leaves the shape of the tree alone. */
  lemma {:induction false} DescIgnoresLocal(nodes: seq<Node>, i: nat, p: Xf, j: nat, a: nat)
    requires i < |nodes|
    ensures Desc(nodes[i := nodes[i].(local := p)], j, a) == Desc(nodes, j, a)
    decreases j
  {
    var nodes' := nodes[i := nodes[i].(local := p)];
    if j < |nodes| && j != a && nodes[j].parent.Some? && nodes[j].parent.value < j {
      DescIgnoresLocal(nodes, i, p, nodes[j].parent.value, a);
    }
  }

  lemma ShapeIgnoresLocal(nodes: seq<Node>, i: nat, p: Xf)
    requires WellFormed(nodes) && i < |nodes|
    ensures WellFormed(nodes[i := nodes[i].(local := p)])
  {
    var nodes' := nodes[i := nodes[i].(local := p)];
    forall j | 0 <= j < |nodes'|
      ensures ParentLinked(nodes', j) && ChildrenLinked(nodes', j)
    {
      assert ParentLinked(nodes, j) && ChildrenLinked(nodes, j);
    }
  }

  /** `setGlobalTransform`: world := p and local := parent.world⁻¹ × p (or p at
      a root). Children and the world index are not touched. */
  function SetGlobalTransform(s: Scene, i: nat, p: Xf): (r: Scene)
    requires Valid(s) && i < |s.nodes|
    ensures Valid(r)
    ensures r.world == s.world[i := p]
    ensures |r.nodes| == |s.nodes| && r.nodes[i] == s.nodes[i].(local := r.nodes[i].local)
    ensures forall j | 0 <= j < |s.nodes| && j != i :: r.nodes[j] == s.nodes[j]
    ensures Consistent(r, i)
  {
    assert ParentLinked(s.nodes, i);
    var local := match s.nodes[i].parent
      case None => p
      case Some(q) => Compose(Inverse(s.world[q]), p);
    assert s.nodes[i].parent.Some? ==> Compose(s.world[s.nodes[i].parent.value], local) == p by {
      if s.nodes[i].parent.Some? {
        RelativeComposesBack(s.world[s.nodes[i].parent.value], p);
      }
    }
    ShapeIgnoresLocal(s.nodes, i, local);
    Scene(s.nodes[i := s.nodes[i].(local := local)], s.world[i := p])
  }

  /** `setLocalTransform`: local := p, then exactly the recompute pass on `i`.
      Returns the new scene and the nodes the index was invalidated for. */
  function SetLocalTransform(s: Scene, i: nat, p: Xf): (r: (Scene, set<nat>))
    requires Valid(s) && i < |s.nodes|
    ensures Valid(r.0)
    ensures |r.0.nodes| == |s.nodes| && r.0.nodes[i] == s.nodes[i].(local := p)
    ensures forall j | 0 <= j < |s.nodes| && j != i :: r.0.nodes[j] == s.nodes[j]
  {
    ShapeIgnoresLocal(s.nodes, i, p);
    var s1 := s.(nodes := s.nodes[i := s.nodes[i].(local := p)]);
    var pass := Recalc(s1, i);
    (s1.(world := pass.world), pass.invalidated)
  }

  /** After `setLocalTransform` the subtree of `i` satisfies the tree invariant,
      the index was invalidated for exactly the subtree nodes whose position
      changed, and a tree that was consistent everywhere stays so. */
  lemma {:induction false} SetLocalTransformFacts(s: Scene, i: nat, p: Xf)
    requires Valid(s) && i < |s.nodes|
    ensures var (s', inv) := SetLocalTransform(s, i, p);
            && (forall j | 0 <= j < |s.nodes| && Desc(s.nodes, j, i) :: Consistent(s', j))
            && (forall j | 0 <= j < |s.nodes| && !Desc(s.nodes, j, i) :: s'.world[j] == s.world[j])
            && (forall j :: j in inv <==>
                  0 <= j < |s.nodes| && Desc(s.nodes, j, i) && NodePosition(s', j) != NodePosition(s, j))
            && (AllConsistent(s) ==> AllConsistent(s'))
  {
    ShapeIgnoresLocal(s.nodes, i, p);
    var s1 := s.(nodes := s.nodes[i := s.nodes[i].(local := p)]);
    var pass := Recalc(s1, i);
    RecalcFacts(s1, i);
    var s' := s1.(world := pass.world);
    forall j | 0 <= j < |s.nodes|
      ensures Desc(s1.nodes, j, i) == Desc(s.nodes, j, i)
    {
      DescIgnoresLocal(s.nodes, i, p, j, i);
    }
    if AllConsistent(s) {
      forall j | 0 <= j < |s.nodes|
        ensures Consistent(s', j)
      {
        if !Desc(s.nodes, j, i) {
          assert Consistent(s, j);
          assert ParentLinked(s.nodes, j);
          if s.nodes[j].parent.Some? {
            var q := s.nodes[j].parent.value;
            assert !Desc(s.nodes, q, i);
          }
        }
      }
    }
  }
}
