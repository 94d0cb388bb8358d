/** Two diverging field writes succeed in one order exactly when they do in the other, and both values stay. */
module Commute {
  import opened Basics
  import opened Nodes
  import opened Identities

  /** The writer gets through: every segment finds a child or a mapping that lacks it, and the end is a scalar. */
  predicate Walkable(n: Node, path: seq<string>)
    decreases |path|
  {
    if path == [] then n.Scalar?
    else if n.Scalar? then false
    else if Lacks(n, path[0]) then true
    else
      match Step(n, path[0])
      case None => false
      case Some(k) => Walkable(n.children[k].node, path[1..])
  }

  lemma Child1(root: Node, a: Address, k: nat)
    requires InTree(root, a) && At(root, a).Branch? && k < |At(root, a).children|
    ensures InTree(root, a + [k]) && At(root, a + [k]) == At(root, a).children[k].node
  {
    InTreeJoin(root, a, [k]);
    assert [k][1..] == [];
  }

  lemma {:induction false} WalkIffWalkable(w: Work, a: Address, path: seq<string>, value: string)
    requires InTree(w.root, a) && path != []
    ensures Walk(w, a, path, value).Ok? <==> Walkable(At(w.root, a), path)
    decreases |path|
  {
    var n, last := At(w.root, a), |path| == 1;
    if n.Branch? {
      WalkStep(w, a, path[0], last, value);
      if Lacks(n, path[0]) {
        if !last { WalkFromFreshSucceeds(Create(w, a, path[0], false, value), a + [|n.children|], path[1..], value); }
      } else if Step(n, path[0]).Some? {
        var k := Step(n, path[0]).value;
        Child1(w.root, a, k);
        if last { assert path[1..] == []; } else { WalkIffWalkable(w, a + [k], path[1..], value); }
      } else {
        IndexOfFirst(n.children, path[0]);
      }
    }
  }

  /** What a grown tree lets through, the smaller one did. */
  lemma {:induction false} WalkableBefore(root: Node, root': Node, a: Address, path: seq<string>)
    requires Grows(root, root') && InTree(root, a) && InTree(root', a) && Walkable(At(root', a), path)
    ensures Walkable(At(root, a), path)
    decreases |path|
  {
    hide Grows;
    GrownAt(root, root', a);
    var n, n' := At(root, a), At(root', a);
    if path != [] && n.Branch? && !Lacks(n, path[0]) {
      IndexOfFirst(n.children, path[0]);
      IndexOfFirst(n'.children, path[0]);
      if Step(n, path[0]).Some? {
        StepStable(n, n', path[0]);
        var k := Step(n, path[0]).value;
        Child1(root, a, k);
        Child1(root', a, k);
        WalkableBefore(root, root', a + [k], path[1..]);
      }
    }
  }

  /** A path into a missing key is created, and goes on from there. */
  lemma PatchCreated(w: Work, a: Address, path: seq<string>, value: string)
    requires InTree(w.root, a) && |path| > 1 && Lacks(At(w.root, a), path[0])
    ensures var w1, next := Create(w, a, path[0], false, value), a + [|At(w.root, a).children|];
            InTree(w1.root, next) && At(w1.root, next) == Branch(MapKind, [], 0) && Patch(w, a, path, value) == Patch(w1, next, path[1..], value)
  {
    hide Grows;
    WalkStep(w, a, path[0], false, value);
  }

  /** Another key of the node does not appear by patching this one. */
  lemma StillLacks(w: Work, a: Address, q: seq<string>, value: string, segment: string)
    requires InTree(w.root, a) && Patch(w, a, q, value).Ok? && Lacks(At(w.root, a), segment) && q[0] != segment
    ensures InTree(Patch(w, a, q, value).value.root, a) && Lacks(At(Patch(w, a, q, value).value.root, a), segment)
  {
    hide Grows, Patch;
    PatchPutGet(w, a, q, value);
    GrownAt(w.root, Patch(w, a, q, value).value.root, a);
    PatchAddsOnlyItsKey(w, a, q, value, segment);
    var n' := At(Patch(w, a, q, value).value.root, a);
    IndexOfFirst(n'.children, segment);
  }

  lemma {:induction false} WalkableAfter(w: Work, a: Address, q: seq<string>, value: string, p: seq<string>)
    requires InTree(w.root, a) && q != [] && Patch(w, a, q, value).Ok? && Diverge(p, q) && Walkable(At(w.root, a), p)
    ensures InTree(Patch(w, a, q, value).value.root, a) && Walkable(At(Patch(w, a, q, value).value.root, a), p)
    decreases |p|
  {
    hide Grows, Patch;
    PatchPutGet(w, a, q, value);
    var root' := Patch(w, a, q, value).value.root;
    GrownAt(w.root, root', a);
    var n, n' := At(w.root, a), At(root', a);
    IndexOfFirst(n.children, p[0]);
    if Lacks(n, p[0]) {
      if p[0] == q[0] {
        DivergeDown(p, q);
        PatchCreated(w, a, q, value);
        var w1, k := Create(w, a, q[0], false, value), |n.children|;
        IndexOfFirst([], p[1]);
        WalkableAfter(w1, a + [k], q[1..], value, p[1..]);
        WalkStep(w, a, q[0], false, value);
        PatchPutGet(w1, a + [k], q[1..], value);
        GrownAt(w1.root, root', a);
        StepStable(At(w1.root, a), n', p[0]);
        IndexOfFirst(n'.children, p[0]);
        Child1(root', a, k);
      } else {
        StillLacks(w, a, q, value, p[0]);
      }
    } else {
      var k := Step(n, p[0]).value;
      StepStable(n, n', p[0]);
      IndexOfFirst(n'.children, p[0]);
      Child1(w.root, a, k);
      if p[0] == q[0] {
        DivergeDown(p, q);
        PatchInto(w, a, q, value, k);
        WalkableAfter(w, a + [k], q[1..], value, p[1..]);
      } else {
        OtherChild(n, p, q, k);
        PatchKeepsSibling(w, a, q, value, k);
      }
      Child1(root', a, k);
    }
  }

  lemma DivergeDown(p: seq<string>, q: seq<string>)
    requires Diverge(p, q) && p[0] == q[0]
    ensures |p| > 1 && |q| > 1 && Diverge(p[1..], q[1..])
  {
  }

  /** Segments that cannot alias select different children. */
  lemma OtherChild(n: Node, p: seq<string>, q: seq<string>, k: nat)
    requires Diverge(p, q) && p[0] != q[0] && Step(n, p[0]) == Some(k)
    ensures Step(n, q[0]) != Some(k)
  {
    IndexOfFirst(n.children, p[0]);
    IndexOfFirst(n.children, q[0]);
  }

  /** If two diverging patches succeed one after the other, they do in the other order too. */
  lemma OrdersSucceed(w: Work, a: Address, p: seq<string>, v: string, q: seq<string>, u: string)
    requires InTree(w.root, a) && Diverge(p, q) && PatchTwice(w, a, p, v, q, u).Ok?
    ensures PatchTwice(w, a, q, u, p, v).Ok?
  {
    hide Grows, Patch;
    PatchPutGet(w, a, p, v);
    var wp := Patch(w, a, p, v).value;
    OkWalks(w, a, p, v);
    OkWalks(wp, a, q, u);
    WalkableBefore(w.root, wp.root, a, q);
    OkWalks(w, a, q, u);
    WalkableAfter(w, a, q, u, p);
    PatchPutGet(w, a, q, u);
    OkWalks(Patch(w, a, q, u).value, a, p, v);
  }

  lemma OkWalks(w: Work, a: Address, path: seq<string>, value: string)
    requires InTree(w.root, a) && path != []
    ensures Patch(w, a, path, value).Ok? <==> Walkable(At(w.root, a), path)
  {
    WalkIffWalkable(w, a, path, value);
  }

  /** Two diverging patches succeed together in both orders or in none, and leave both fields their own values. */
  lemma PatchesCommute(w: Work, a: Address, p: seq<string>, v: string, q: seq<string>, u: string)
    requires InTree(w.root, a) && Diverge(p, q)
    ensures PatchTwice(w, a, p, v, q, u).Ok? <==> PatchTwice(w, a, q, u, p, v).Ok?
    ensures PatchTwice(w, a, p, v, q, u).Ok? ==>
              var pq, qp := PatchTwice(w, a, p, v, q, u).value, PatchTwice(w, a, q, u, p, v).value;
              && InTree(pq.root, a) && InTree(qp.root, a)
              && Lookup(pq.root, a, p) == Some(v) == Lookup(qp.root, a, p)
              && Lookup(pq.root, a, q) == Some(u) == Lookup(qp.root, a, q)
  {
    hide PatchTwice;
    DivergeSymmetric(p, q);
    if PatchTwice(w, a, p, v, q, u).Ok? { OrdersSucceed(w, a, p, v, q, u); }
    if PatchTwice(w, a, q, u, p, v).Ok? {
      OrdersSucceed(w, a, q, u, p, v);
      BothValues(w, a, p, v, q, u);
    }
  }

}
