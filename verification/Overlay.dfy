/**
 What a run of the field writer leaves behind, relative to the decoded tree it started from:
 every source node is still there, its value is the decoded one or the recorded edit, and its
 extra entries are exactly the recorded insertions; everything else is freshly created.
 */
module Overlay {
  import opened Nodes

  function Range(lo: nat, hi: nat): (r: seq<nat>)
    requires lo <= hi
    ensures |r| == hi - lo
    ensures forall i :: 0 <= i < |r| ==> r[i] == lo + i
  {
    if lo == hi then [] else Range(lo, hi - 1) + [hi - 1]
  }

  /** Every node of a decoded tree has a source line. */
  ghost predicate Positioned(root: Node) {
    forall a :: InTree(root, a) ==> At(root, a).line > 0
  }

  ghost predicate Covers(x: Node, y: Node, a: Address, w: Work) {
    && Grown(x, y)
    && (x.Scalar? ==> y.value == if a in w.edits then w.edits[a] else x.value)
    && (x.Branch? ==>
          && (a in w.insertions <==> |y.children| > |x.children|)
          && (a in w.insertions ==> w.insertions[a] == Range(|x.children|, |y.children|)))
  }

  predicate FreshOk(n: Node) {
    n.line == 0 && (n.Branch? ==> n.kind == MapKind)
  }

  ghost predicate Overlaid(root0: Node, w: Work) {
    && (forall a :: InTree(root0, a) ==> InTree(w.root, a) && Covers(At(root0, a), At(w.root, a), a, w))
    && (forall a :: InTree(w.root, a) && !InTree(root0, a) ==> FreshOk(At(w.root, a)))
    && (forall a :: a in w.edits ==> InTree(root0, a) && At(root0, a).Scalar?)
    && (forall a :: a in w.insertions ==> InTree(root0, a) && At(root0, a).Branch? && At(root0, a).kind == MapKind)
  }

  lemma StartOverlaid(root0: Node)
    ensures Overlaid(root0, Work(root0, map[], map[]))
  {
  }

  lemma RangeExtends(lo: nat, hi: nat)
    requires lo <= hi
    ensures Range(lo, hi + 1) == Range(lo, hi) + [hi]
  {
  }

  lemma SourceIffPositioned(root0: Node, w: Work, a: Address)
    requires Positioned(root0) && Overlaid(root0, w) && InTree(w.root, a)
    ensures InTree(root0, a) <==> At(w.root, a).line > 0
  {
    if InTree(root0, a) {
      assert At(root0, a).line > 0 && Grown(At(root0, a), At(w.root, a));
    }
  }

  /** At the mapping itself: one more entry, one more recorded position. */
  lemma CoversAppended(x: Node, n: Node, child: Child, a: Address, w: Work)
    requires Covers(x, n, a, w) && x.Branch? && x.kind == MapKind
    ensures var noted := if a in w.insertions then w.insertions[a] else [];
            Covers(x, n.(children := n.children + [child]), a, w.(insertions := w.insertions[a := noted + [|n.children|]]))
  {
    var y := n.(children := n.children + [child]);
    RangeExtends(|x.children|, |n.children|);
    assert a !in w.insertions ==> |n.children| == |x.children|;
    assert a !in w.insertions ==> Range(|x.children|, |n.children|) == [];
    assert forall i :: 0 <= i < |x.children| ==> y.children[i] == n.children[i];
  }

  /** Elsewhere: a node that looks the same, with the same records, is covered the same. */
  lemma CoversAway(x: Node, y: Node, y': Node, b: Address, w: Work, w': Work)
    requires Covers(x, y, b, w) && SameShallow(y, y')
    requires b in w.edits <==> b in w'.edits
    requires b in w.edits ==> w.edits[b] == w'.edits[b]
    requires b in w.insertions <==> b in w'.insertions
    requires b in w.insertions ==> w.insertions[b] == w'.insertions[b]
    ensures Covers(x, y', b, w')
  {
  }

  lemma CreateCovers(root0: Node, w: Work, a: Address, segment: string, last: bool, value: string, b: Address)
    requires Positioned(root0) && Overlaid(root0, w)
    requires InTree(w.root, a) && Lacks(At(w.root, a), segment) && InTree(root0, b)
    ensures var w' := Create(w, a, segment, last, value);
            InTree(w'.root, b) && Covers(At(root0, b), At(w'.root, b), b, w')
  {
    var w' := Create(w, a, segment, last, value);
    var child := Child(segment, 0, 0, FreshNode(last, value));
    AppendEffect(w.root, a, child, b);
    assert Covers(At(root0, b), At(w.root, b), b, w);
    if b == a {
      SourceIffPositioned(root0, w, a);
      CoversAppended(At(root0, a), At(w.root, a), child, a, w);
    } else {
      CoversAway(At(root0, b), At(w.root, b), At(w'.root, b), b, w, w');
    }
  }

  lemma CreateFresh(root0: Node, w: Work, a: Address, segment: string, last: bool, value: string, b: Address)
    requires Overlaid(root0, w)
    requires InTree(w.root, a) && Lacks(At(w.root, a), segment)
    requires InTree(Create(w, a, segment, last, value).root, b) && !InTree(root0, b)
    ensures FreshOk(At(Create(w, a, segment, last, value).root, b))
  {
    AppendEffect(w.root, a, Child(segment, 0, 0, FreshNode(last, value)), b);
    if InTree(w.root, b) { assert FreshOk(At(w.root, b)); }
  }

  lemma CreateOverlaid(root0: Node, w: Work, a: Address, segment: string, last: bool, value: string)
    requires Positioned(root0) && Overlaid(root0, w)
    requires InTree(w.root, a) && Lacks(At(w.root, a), segment)
    ensures Overlaid(root0, Create(w, a, segment, last, value))
  {
    var w' := Create(w, a, segment, last, value);
    forall b | InTree(root0, b)
      ensures InTree(w'.root, b) && Covers(At(root0, b), At(w'.root, b), b, w')
    {
      CreateCovers(root0, w, a, segment, last, value, b);
    }
    forall b | InTree(w'.root, b) && !InTree(root0, b)
      ensures FreshOk(At(w'.root, b))
    {
      CreateFresh(root0, w, a, segment, last, value, b);
    }
    SourceIffPositioned(root0, w, a);
    forall b | b in w'.insertions
      ensures InTree(root0, b) && At(root0, b).Branch? && At(root0, b).kind == MapKind
    {
      if b == a { assert Covers(At(root0, a), At(w.root, a), a, w); }
    }
  }

  lemma {:induction false} WalkOverlaid(root0: Node, w: Work, a: Address, path: seq<string>, value: string)
    requires Positioned(root0) && Overlaid(root0, w)
    requires InTree(w.root, a) && Walk(w, a, path, value).Ok?
    ensures Overlaid(root0, Walk(w, a, path, value).value.0)
    decreases |path|
  {
    var n, last := At(w.root, a), |path| == 1;
    WalkStep(w, a, path[0], last, value);
    var w' := if Lacks(n, path[0]) then Create(w, a, path[0], last, value) else w;
    var k := if Lacks(n, path[0]) then |n.children| else Step(n, path[0]).value;
    if Lacks(n, path[0]) { CreateOverlaid(root0, w, a, path[0], last, value); }
    if !last { WalkOverlaid(root0, w', a + [k], path[1..], value); }
  }

  lemma AssignCovers(root0: Node, w: Work, b: Address, value: string, c: Address)
    requires Positioned(root0) && Overlaid(root0, w)
    requires InTree(w.root, b) && At(w.root, b).Scalar? && InTree(root0, c)
    ensures InTree(Assign(w, b, value).root, c) && Covers(At(root0, c), At(Assign(w, b, value).root, c), c, Assign(w, b, value))
  {
    SourceIffPositioned(root0, w, b);
    SetValueEffect(w.root, b, value, c);
    assert Covers(At(root0, c), At(w.root, c), c, w);
  }

  lemma AssignOverlaid(root0: Node, w: Work, b: Address, value: string)
    requires Positioned(root0) && Overlaid(root0, w)
    requires InTree(w.root, b) && At(w.root, b).Scalar?
    ensures Overlaid(root0, Assign(w, b, value))
  {
    var w' := Assign(w, b, value);
    forall c | InTree(root0, c)
      ensures InTree(w'.root, c) && Covers(At(root0, c), At(w'.root, c), c, w')
    {
      AssignCovers(root0, w, b, value, c);
    }
    forall c | InTree(w'.root, c) && !InTree(root0, c)
      ensures FreshOk(At(w'.root, c))
    {
      SetValueEffect(w.root, b, value, c);
      assert FreshOk(At(w.root, c));
    }
    SourceIffPositioned(root0, w, b);
    forall c | c in w'.edits
      ensures InTree(root0, c) && At(root0, c).Scalar?
    {
      if c == b { assert Covers(At(root0, b), At(w.root, b), b, w); }
    }
  }

  /** Each rendered patch keeps the bookkeeping exact: every created node is recorded exactly once. */
  lemma PatchOverlaid(root0: Node, w: Work, a: Address, path: seq<string>, value: string)
    requires Positioned(root0) && Overlaid(root0, w)
    requires InTree(w.root, a) && Patch(w, a, path, value).Ok?
    ensures Overlaid(root0, Patch(w, a, path, value).value)
  {
    WalkReaches(w, a, path, value);
    WalkOverlaid(root0, w, a, path, value);
    var (w', b) := Walk(w, a, path, value).value;
    AssignOverlaid(root0, w', b, value);
  }

  // ----- no mapping is left empty -----

  predicate IsEmptyMap(n: Node) {
    n.Branch? && n.kind == MapKind && n.children == []
  }

  ghost predicate FilledBut(root: Node, hole: Address) {
    forall a :: InTree(root, a) && a != hole ==> !IsEmptyMap(At(root, a))
  }

  ghost predicate Filled(root: Node) {
    forall a :: InTree(root, a) ==> !IsEmptyMap(At(root, a))
  }

  lemma {:induction false} WalkFills(w: Work, a: Address, path: seq<string>, value: string)
    requires InTree(w.root, a) && FilledBut(w.root, a) && Walk(w, a, path, value).Ok?
    ensures Filled(Walk(w, a, path, value).value.0.root)
    decreases |path|
  {
    var n, last := At(w.root, a), |path| == 1;
    WalkStep(w, a, path[0], last, value);
    var w' := if Lacks(n, path[0]) then Create(w, a, path[0], last, value) else w;
    var next := a + [if Lacks(n, path[0]) then |n.children| else Step(n, path[0]).value];
    forall b | InTree(w'.root, b) && b != next
      ensures !IsEmptyMap(At(w'.root, b))
    {
      if Lacks(n, path[0]) {
        AppendEffect(w.root, a, Child(path[0], 0, 0, FreshNode(last, value)), b);
        if b != a { assert SameShallow(At(w.root, b), At(w'.root, b)); }
      }
    }
    if last {
      assert At(w'.root, next).Scalar?;
    } else {
      WalkFills(w', next, path[1..], value);
    }
  }

  lemma PatchFills(w: Work, a: Address, path: seq<string>, value: string)
    requires InTree(w.root, a) && Filled(w.root) && Patch(w, a, path, value).Ok?
    ensures Filled(Patch(w, a, path, value).value.root)
  {
    WalkReaches(w, a, path, value);
    WalkFills(w, a, path, value);
    var (w', b) := Walk(w, a, path, value).value;
    forall c | InTree(SetValue(w'.root, b, value), c)
      ensures !IsEmptyMap(At(SetValue(w'.root, b, value), c))
    {
      SetValueEffect(w'.root, b, value, c);
    }
  }
}
