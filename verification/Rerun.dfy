/**
 Running UpdateManifest on its own output. The second run follows the first step by step on a
 tree that differs only in the values not yet rewritten, creates nothing, and ends with the edits
 already in place.
 */
module Rerun {
  import opened Basics
  import opened Text
  import opened Scan
  import opened Nodes
  import opened Overlay
  import opened Manifest
  import opened Identities
  import opened Shapes

  // ----- one-line inputs stay one-line -----

  ghost predicate OneLinePatches(patches: seq<PatchSpec>, render: string -> Result<string>) {
    forall p :: p in patches ==>
      OneLine(p.field) && (render(p.template).Ok? ==> OneLine(render(p.template).value))
  }

  ghost predicate OneLineTargets(targets: seq<Target>, render: string -> Result<string>) {
    forall t :: t in targets ==> OneLinePatches(t.patches, render)
  }

  predicate OneLineAll(path: seq<string>) {
    forall i :: 0 <= i < |path| ==> OneLine(path[i])
  }

  lemma {:induction false} SplitOneLine(s: string, sep: char)
    requires OneLine(s)
    ensures OneLineAll(Split(s, sep))
  {
    if s != [] { SplitOneLine(s[1..], sep); }
  }

  lemma CreateOneLine(root0: Node, w: Work, a: Address, segment: string, last: bool, value: string)
    requires OneLineWrites(root0, w) && InTree(w.root, a) && Lacks(At(w.root, a), segment) && OneLine(segment) && OneLine(value)
    ensures OneLineWrites(root0, Create(w, a, segment, last, value))
  {
    var w' := Create(w, a, segment, last, value);
    var child := Child(segment, 0, 0, FreshNode(last, value));
    forall b | InTree(w'.root, b) && !InTree(root0, b) && At(w'.root, b).Scalar?
      ensures OneLine(At(w'.root, b).value)
    {
      AppendEffect(w.root, a, child, b);
    }
    forall b, k: nat | InTree(w'.root, b) && At(w'.root, b).Branch? && k < |At(w'.root, b).children| && !InTree(root0, b + [k])
      ensures OneLine(At(w'.root, b).children[k].key)
    {
      CreateOneLineKey(root0, w, a, segment, last, value, b, k);
    }
  }

  lemma CreateOneLineKey(root0: Node, w: Work, a: Address, segment: string, last: bool, value: string, b: Address, k: nat)
    requires OneLineWrites(root0, w) && InTree(w.root, a) && Lacks(At(w.root, a), segment) && OneLine(segment)
    requires InTree(Create(w, a, segment, last, value).root, b) && At(Create(w, a, segment, last, value).root, b).Branch?
    requires k < |At(Create(w, a, segment, last, value).root, b).children| && !InTree(root0, b + [k])
    ensures OneLine(At(Create(w, a, segment, last, value).root, b).children[k].key)
  {
    AppendEffect(w.root, a, Child(segment, 0, 0, FreshNode(last, value)), b);
    var n := At(Create(w, a, segment, last, value).root, b);
    if InTree(w.root, b) && b != a {
      assert SameEntry(At(w.root, b).children[k], n.children[k]);
      KeyOneLine(root0, w, b, k);
    } else if b == a && k < |At(w.root, a).children| {
      KeyOneLine(root0, w, a, k);
    }
  }

  lemma {:induction false} WalkOneLine(root0: Node, w: Work, a: Address, path: seq<string>, value: string)
    requires OneLineWrites(root0, w) && OneLineAll(path) && OneLine(value)
    requires InTree(w.root, a) && Walk(w, a, path, value).Ok?
    ensures OneLineWrites(root0, Walk(w, a, path, value).value.0)
    decreases |path|
  {
    hide OneLineWrites, Grows, OneLine;
    var n, last := At(w.root, a), |path| == 1;
    WalkStep(w, a, path[0], last, value);
    var w' := if Lacks(n, path[0]) then Create(w, a, path[0], last, value) else w;
    var k := if Lacks(n, path[0]) then |n.children| else Step(n, path[0]).value;
    if Lacks(n, path[0]) { CreateOneLine(root0, w, a, path[0], last, value); }
    if !last { WalkOneLine(root0, w', a + [k], path[1..], value); }
  }

  lemma AssignOneLine(root0: Node, w: Work, b: Address, value: string)
    requires OneLineWrites(root0, w) && InTree(w.root, b) && At(w.root, b).Scalar? && OneLine(value)
    ensures OneLineWrites(root0, Assign(w, b, value))
  {
    var w' := Assign(w, b, value);
    forall c | InTree(w'.root, c) && !InTree(root0, c) && At(w'.root, c).Scalar?
      ensures OneLine(At(w'.root, c).value)
    {
      SetValueEffect(w.root, b, value, c);
    }
    forall c, k: nat | InTree(w'.root, c) && At(w'.root, c).Branch? && k < |At(w'.root, c).children| && !InTree(root0, c + [k])
      ensures OneLine(At(w'.root, c).children[k].key)
    {
      SetValueEffect(w.root, b, value, c);
      assert SameEntry(At(w.root, c).children[k], At(w'.root, c).children[k]);
      KeyOneLine(root0, w, c, k);
    }
  }

  lemma PatchOneLine(root0: Node, w: Work, a: Address, field: string, value: string)
    requires OneLineWrites(root0, w) && OneLine(field) && OneLine(value)
    requires InTree(w.root, a) && Patch(w, a, Split(field, '.'), value).Ok?
    ensures OneLineWrites(root0, Patch(w, a, Split(field, '.'), value).value)
  {
    hide OneLineWrites, Grows, OneLine;
    var path := Split(field, '.');
    SplitOneLine(field, '.');
    WalkReaches(w, a, path, value);
    WalkOneLine(root0, w, a, path, value);
    var (w', b) := Walk(w, a, path, value).value;
    AssignOneLine(root0, w', b, value);
  }

  lemma {:induction false} RunPatchesOneLine(root0: Node, w: Work, d: nat, patches: seq<PatchSpec>, render: string -> Result<string>)
    requires OneLineWrites(root0, w) && OneLinePatches(patches, render)
    requires InTree(w.root, [d]) && RunPatches(w, d, patches, render).Ok?
    ensures OneLineWrites(root0, RunPatches(w, d, patches, render).value)
    decreases |patches|
  {
    hide OneLineWrites, OneLine, Patch;
    if patches != [] {
      assert patches[0] in patches;
      var value := render(patches[0].template).value;
      if Blank(value) {
        RunPatchesOneLine(root0, w, d, patches[1..], render);
      } else {
        var path := Split(patches[0].field, '.');
        PatchPutGet(w, [d], path, value);
        PatchOneLine(root0, w, [d], patches[0].field, value);
        RunPatchesOneLine(root0, Patch(w, [d], path, value).value, d, patches[1..], render);
      }
    }
  }

  lemma {:induction false} RunDocsOneLine(root0: Node, w: Work, d: nat, t: Target, render: string -> Result<string>)
    requires OneLineWrites(root0, w) && OneLinePatches(t.patches, render)
    requires w.root.Branch? && w.root.kind == SeqKind && d <= |w.root.children| && RunDocs(w, d, t, render).Ok?
    ensures OneLineWrites(root0, RunDocs(w, d, t, render).value.0)
    decreases |w.root.children| - d
  {
    hide OneLineWrites, OneLinePatches, RunPatches;
    if d < |w.root.children| {
      DocInTree(w.root, d);
      if MatchesTarget(IdentityOf(w.root.children[d].node), t).value {
        RunPatchesOneLine(root0, w, d, t.patches, render);
        RunPatchesGrows(w, d, t.patches, render);
        var w' := RunPatches(w, d, t.patches, render).value;
        GrowsKeepsDocs(w.root, w'.root, d);
        RunDocsOneLine(root0, w', d + 1, t, render);
      } else {
        RunDocsOneLine(root0, w, d + 1, t, render);
      }
    }
  }

  lemma {:induction false} RunTargetsOneLine(root0: Node, w: Work, targets: seq<Target>, render: string -> Result<string>)
    requires OneLineWrites(root0, w) && OneLineTargets(targets, render)
    requires w.root.Branch? && w.root.kind == SeqKind && RunTargets(w, targets, render).Ok?
    ensures OneLineWrites(root0, RunTargets(w, targets, render).value)
    decreases |targets|
  {
    hide OneLineWrites, OneLinePatches, RunDocs;
    if targets != [] {
      assert targets[0] in targets;
      RunDocsOneLine(root0, w, 0, targets[0], render);
      RunDocsGrows(w, 0, targets[0], render);
      var w' := RunDocs(w, 0, targets[0], render).value.0;
      GrowsKeepsDocs(w.root, w'.root, 0);
      RunTargetsOneLine(root0, w', targets[1..], render);
    }
  }

  // ----- the second run beside the first -----

  /** Nodes that resolve paths alike: same kind, same keys. */
  predicate Alike(x: Node, y: Node) {
    match x
    case Scalar(_, _, _, _) => y.Scalar?
    case Branch(kind, children, _) =>
      y.Branch? && y.kind == kind && |y.children| == |children|
      && forall i :: 0 <= i < |children| ==> y.children[i].key == children[i].key
  }

  ghost predicate SameShape(x: Node, y: Node) {
    forall a :: (InTree(x, a) <==> InTree(y, a)) && (InTree(x, a) ==> Alike(At(x, a), At(y, a)))
  }

  /**
   The first run is at w and will end at final; the second is at u. They agree on the nodes
   written so far, and on the others u already has the final values.
   */
  ghost predicate Shadows(root0: Node, w: Work, u: Work, final: Node, written: set<Address>) {
    && Grows(w.root, final) && SameShape(final, u.root) && u.insertions == map[] && Positioned(u.root)
    && (forall a :: a in written ==>
          InTree(w.root, a) && At(w.root, a).Scalar? && (a in w.edits || !InTree(root0, a)))
    && (forall a :: InTree(final, a) && At(final, a).Scalar? ==>
          At(u.root, a).value == if a in written then At(w.root, a).value else At(final, a).value)
    && (forall a :: a in u.edits ==> a in written && u.edits[a] == At(u.root, a).value)
  }

  lemma AlikeStep(x: Node, y: Node, segment: string)
    requires Alike(x, y)
    ensures Step(x, segment) == Step(y, segment)
  {
    if x.Branch? && x.kind == MapKind {
      IndexOfFirst(x.children, segment);
      IndexOfFirst(y.children, segment);
    }
  }

  lemma {:induction false} ResolveAlike(x: Node, y: Node, a: Address, path: seq<string>)
    requires SameShape(x, y) && InTree(x, a)
    ensures InTree(y, a) && Resolve(y, a, path) == Resolve(x, a, path)
    decreases |path|
  {
    if path != [] {
      AlikeStep(At(x, a), At(y, a), path[0]);
      if Step(At(x, a), path[0]).Some? {
        var k := Step(At(x, a), path[0]).value;
        InTreeJoin(x, a, [k]);
        ResolveAlike(x, y, a + [k], path[1..]);
      }
    }
  }

  /** Where a patch of the first run lands, in every tree of interest. */
  lemma PatchLands(w: Work, a: Address, path: seq<string>, value: string, final: Node) returns (b: Address)
    requires InTree(w.root, a) && Patch(w, a, path, value).Ok? && Grows(Patch(w, a, path, value).value.root, final)
    ensures Walk(w, a, path, value).Ok? && b == Walk(w, a, path, value).value.1 && path != []
    ensures InTree(final, a) && Resolve(final, a, path) == Some(b) && InTree(final, b) && At(final, b).Scalar?
    ensures var w' := Patch(w, a, path, value).value;
            && Grows(w.root, w'.root) && InTree(w'.root, b) && At(w'.root, b).Scalar? && At(w'.root, b).value == value
  {
    var w' := Patch(w, a, path, value).value;
    WalkReaches(w, a, path, value);
    PatchPutGet(w, a, path, value);
    var (w1, b1) := Walk(w, a, path, value).value;
    b := b1;
    SetValueEffect(w1.root, b, value, b);
    SetValueGrows(w1.root, b, value);
    ResolveStable(w1.root, w'.root, a, path);
    ResolveStable(w'.root, final, a, path);
    GrownAt(w'.root, final, b);
  }

  /** The second run's patch finds the same scalar and creates nothing. */
  lemma ShadowPatch(u: Work, a: Address, path: seq<string>, value: string, final: Node, b: Address)
    requires SameShape(final, u.root) && Positioned(u.root) && path != []
    requires InTree(final, a) && Resolve(final, a, path) == Some(b) && At(final, b).Scalar?
    ensures InTree(u.root, a) && InTree(u.root, b) && At(u.root, b).Scalar?
    ensures Patch(u, a, path, value) == Ok(u.(root := SetValue(u.root, b, value), edits := u.edits[b := value]))
  {
    ResolveAlike(final, u.root, a, path);
    assert Alike(At(final, b), At(u.root, b));
    WalkExisting(u, a, path, value);
    assert At(u.root, b).line > 0;
  }

  lemma SetValueShape(x: Node, root: Node, b: Address, value: string)
    requires SameShape(x, root) && Positioned(root) && InTree(root, b) && At(root, b).Scalar?
    ensures SameShape(x, SetValue(root, b, value)) && Positioned(SetValue(root, b, value))
  {
    var root' := SetValue(root, b, value);
    forall a
      ensures InTree(x, a) <==> InTree(root', a)
      ensures InTree(x, a) ==> Alike(At(x, a), At(root', a))
      ensures InTree(root', a) ==> At(root', a).line > 0
    {
      SetValueEffect(root, b, value, a);
      if InTree(x, a) {
        assert Alike(At(x, a), At(root, a));
        if a != b { ShallowAlike(At(x, a), At(root, a), At(root', a)); }
      }
      if InTree(root', a) && a != b { ShallowLine(At(root, a), At(root', a)); }
    }
  }

  lemma ShallowAlike(x: Node, y: Node, z: Node)
    requires Alike(x, y) && SameShallow(y, z)
    ensures Alike(x, z)
  {
    if y.Branch? {
      assert forall i :: 0 <= i < |y.children| ==> SameEntry(y.children[i], z.children[i]);
    }
  }

  lemma ShallowLine(x: Node, y: Node)
    requires SameShallow(x, y)
    ensures x.line == y.line
  {
  }

  lemma ShadowStep(root0: Node, w: Work, u: Work, final: Node, written: set<Address>, a: Address, path: seq<string>, value: string)
      returns (b: Address)
    requires Positioned(root0) && Overlaid(root0, w)
    requires Shadows(root0, w, u, final, written) && InTree(w.root, a)
    requires Patch(w, a, path, value).Ok? && Grows(Patch(w, a, path, value).value.root, final)
    ensures InTree(u.root, a) && Patch(u, a, path, value).Ok?
    ensures Shadows(root0, Patch(w, a, path, value).value, Patch(u, a, path, value).value, final, written + {b})
  {
    hide Grows, SameShape, Overlaid, SetValue, Resolve, Grown, Positioned, Walk;
    var w' := Patch(w, a, path, value).value;
    b := PatchLands(w, a, path, value, final);
    ShadowPatch(u, a, path, value, final, b);
    var u' := Patch(u, a, path, value).value;
    SetValueShape(final, u.root, b, value);
    forall c | c in written + {b}
      ensures InTree(w'.root, c) && At(w'.root, c).Scalar? && (c in w'.edits || !InTree(root0, c))
      ensures c != b ==> At(w'.root, c).value == At(w.root, c).value
    {
      WrittenStay(root0, w, a, path, value, b, c);
    }
    forall c | InTree(final, c) && At(final, c).Scalar?
      ensures InTree(u'.root, c) && At(u'.root, c).Scalar?
      ensures At(u'.root, c).value == if c in written + {b} then At(w'.root, c).value else At(final, c).value
    {
      ShapeScalar(final, u.root, c);
      SetValueScalar(u.root, b, value, c);
    }
    forall c | c in u'.edits
      ensures c in written + {b} && InTree(u'.root, c) && At(u'.root, c).Scalar? && u'.edits[c] == At(u'.root, c).value
    {
      if c != b {
        GrownAt(w.root, final, c);
        GrownScalar(w.root, final, c);
        ShapeScalar(final, u.root, c);
      }
      SetValueScalar(u.root, b, value, c);
    }
  }

  lemma GrownScalar(root: Node, final: Node, c: Address)
    requires Grows(root, final) && InTree(root, c) && At(root, c).Scalar?
    ensures InTree(final, c) && At(final, c).Scalar?
  {
    assert Grown(At(root, c), At(final, c));
  }

  lemma ShapeScalar(x: Node, y: Node, c: Address)
    requires SameShape(x, y) && InTree(x, c) && At(x, c).Scalar?
    ensures InTree(y, c) && At(y, c).Scalar?
  {
    assert Alike(At(x, c), At(y, c));
  }

  lemma SetValueScalar(root: Node, b: Address, value: string, c: Address)
    requires InTree(root, b) && At(root, b).Scalar? && InTree(root, c) && At(root, c).Scalar?
    ensures InTree(SetValue(root, b, value), c) && At(SetValue(root, b, value), c).Scalar?
    ensures At(SetValue(root, b, value), c).value == if c == b then value else At(root, c).value
  {
    SetValueEffect(root, b, value, c);
  }

  lemma WrittenStay(root0: Node, w: Work, a: Address, path: seq<string>, value: string, b: Address, c: Address)
    requires Positioned(root0) && Overlaid(root0, w) && InTree(w.root, a) && Patch(w, a, path, value).Ok?
    requires Walk(w, a, path, value).Ok? && b == Walk(w, a, path, value).value.1
    requires c == b || (InTree(w.root, c) && At(w.root, c).Scalar? && (c in w.edits || !InTree(root0, c)))
    ensures var w' := Patch(w, a, path, value).value;
            && InTree(w'.root, c) && At(w'.root, c).Scalar? && (c in w'.edits || !InTree(root0, c))
            && (c != b ==> At(w'.root, c).value == At(w.root, c).value)
  {
    hide Grows, Overlaid, Positioned;
    WalkReaches(w, a, path, value);
    WalkOverlaid(root0, w, a, path, value);
    var (w1, b1) := Walk(w, a, path, value).value;
    SetValueEffect(w1.root, b, value, c);
    if c == b {
      SourceIffPositioned(root0, w1, b);
    } else {
      WalkKeepsScalars(w, a, path, value, c);
    }
  }

  // ----- the two runs, patch by patch, document by document, target by target -----

  ghost predicate SameIdentities(x: Node, y: Node) {
    forall d: nat :: InTree(x, [d]) ==>
      InTree(y, [d]) && IdentityOf(At(x, [d])) == IdentityOf(At(y, [d])) && IsMapping(At(x, [d])) == IsMapping(At(y, [d]))
  }

  ghost predicate KeepsIdentities(x: Node, y: Node) {
    SameIdentities(x, y) && SameIdentities(y, x)
  }

  lemma PatchKeepsIdentities(w: Work, d: nat, path: seq<string>, value: string)
    requires InTree(w.root, [d]) && IsMapping(At(w.root, [d])) && Patch(w, [d], path, value).Ok?
    requires !IsIdentityPath(path) && IdentityOf(At(w.root, [d])).hasMetadata
    requires w.root.Branch? && w.root.kind == SeqKind
    ensures KeepsIdentities(w.root, Patch(w, [d], path, value).value.root)
    ensures var root' := Patch(w, [d], path, value).value.root; root'.Branch? && root'.kind == SeqKind
  {
    hide Patch, IdentityOf, Grows;
    var root' := Patch(w, [d], path, value).value.root;
    PatchPutGet(w, [d], path, value);
    forall e: nat | InTree(w.root, [e])
      ensures InTree(root', [e]) && IdentityOf(At(w.root, [e])) == IdentityOf(At(root', [e]))
      ensures IsMapping(At(w.root, [e])) == IsMapping(At(root', [e]))
    {
      PatchKeepsIdentity(w, d, path, value, e);
    }
    GrowsKeepsDocs(w.root, root', 0);
    forall e: nat | InTree(root', [e])
      ensures InTree(w.root, [e])
    {
      DocInTree(w.root, e);
    }
  }

  lemma IdentitiesCarry(x: Node, y: Node, x': Node, y': Node)
    requires SameIdentities(x, y) && KeepsIdentities(x, x') && KeepsIdentities(y, y')
    ensures SameIdentities(x', y')
  {
    hide IdentityOf;
    forall d: nat | InTree(x', [d])
      ensures InTree(y', [d]) && IdentityOf(At(x', [d])) == IdentityOf(At(y', [d])) && IsMapping(At(x', [d])) == IsMapping(At(y', [d]))
    {
      assert InTree(x, [d]) && InTree(y, [d]);
    }
  }

  ghost predicate SafePatches(patches: seq<PatchSpec>) {
    forall p :: p in patches ==> !IsIdentityPath(Split(p.field, '.'))
  }

  lemma {:induction false} ShadowPatches(root0: Node, w: Work, u: Work, final: Node, written: set<Address>,
                                         d: nat, patches: seq<PatchSpec>, render: string -> Result<string>)
      returns (written': set<Address>)
    requires Positioned(root0) && Overlaid(root0, w) && Shadows(root0, w, u, final, written)
    requires w.root.Branch? && w.root.kind == SeqKind && u.root.Branch? && u.root.kind == SeqKind
    requires InTree(w.root, [d]) && IsMapping(At(w.root, [d])) && SafePatches(patches) && SameIdentities(w.root, u.root)
    requires IdentityOf(At(w.root, [d])).hasMetadata
    requires RunPatches(w, d, patches, render).Ok? && Grows(RunPatches(w, d, patches, render).value.root, final)
    ensures InTree(u.root, [d]) && RunPatches(u, d, patches, render).Ok?
    ensures var w', u' := RunPatches(w, d, patches, render).value, RunPatches(u, d, patches, render).value;
            Shadows(root0, w', u', final, written') && SameIdentities(w'.root, u'.root)
    decreases |patches|
  {
    hide Positioned, Overlaid, Shadows, SameIdentities, KeepsIdentities, Patch, Grows;
    SameIdentitiesAt(w.root, u.root, d);
    written' := written;
    if patches != [] {
      assert patches[0] in patches;
      var value := render(patches[0].template).value;
      if Blank(value) {
        written' := ShadowPatches(root0, w, u, final, written, d, patches[1..], render);
      } else {
        var path := Split(patches[0].field, '.');
        var w1 := Patch(w, [d], path, value).value;
        PatchPutGet(w, [d], path, value);
        RunPatchesGrows(w1, d, patches[1..], render);
        GrowsTransitive(w1.root, RunPatches(w1, d, patches[1..], render).value.root, final);
        var b := ShadowStep(root0, w, u, final, written, [d], path, value);
        var u1 := Patch(u, [d], path, value).value;
        PatchPutGet(u, [d], path, value);
        PatchKeepsIdentities(w, d, path, value);
        PatchKeepsIdentities(u, d, path, value);
        IdentitiesCarry(w.root, u.root, w1.root, u1.root);
        PatchOverlaid(root0, w, [d], path, value);
        KeptIdentities(w.root, w1.root);
        SameIdentitiesAt(w.root, w1.root, d);
        written' := ShadowPatches(root0, w1, u1, final, written + {b}, d, patches[1..], render);
      }
    }
  }

  lemma KeptIdentities(x: Node, y: Node)
    requires KeepsIdentities(x, y)
    ensures SameIdentities(x, y) && SameIdentities(y, x)
  {
  }

  lemma SameIdentitiesAt(x: Node, y: Node, d: nat)
    requires SameIdentities(x, y) && InTree(x, [d])
    ensures InTree(y, [d]) && IdentityOf(At(x, [d])) == IdentityOf(At(y, [d])) && IsMapping(At(x, [d])) == IsMapping(At(y, [d]))
  {
  }

  lemma {:induction false} ShadowDocs(root0: Node, w: Work, u: Work, final: Node, written: set<Address>,
                                      d: nat, t: Target, render: string -> Result<string>)
      returns (written': set<Address>)
    requires Positioned(root0) && Sound(root0, w) && Shadows(root0, w, u, final, written)
    requires w.root.Branch? && w.root.kind == SeqKind && u.root.Branch? && u.root.kind == SeqKind
    requires |w.root.children| == |u.root.children| && d <= |w.root.children|
    requires SafePatches(t.patches) && SameIdentities(w.root, u.root)
    requires RunDocs(w, d, t, render).Ok? && Grows(RunDocs(w, d, t, render).value.0.root, final)
    ensures RunDocs(u, d, t, render).Ok? && RunDocs(u, d, t, render).value.1 == RunDocs(w, d, t, render).value.1
    ensures var w', u' := RunDocs(w, d, t, render).value.0, RunDocs(u, d, t, render).value.0;
            Shadows(root0, w', u', final, written') && SameIdentities(w'.root, u'.root)
    decreases |w.root.children| - d
  {
    hide Positioned, Overlaid, Filled, Shadows, SameIdentities, KeepsIdentities, Grows, RunPatches, MatchesTarget, IdentityOf, SafePatches;
    written' := written;
    if d < |w.root.children| {
      DocInTree(w.root, d);
      DocInTree(u.root, d);
      SameIdentitiesAt(w.root, u.root, d);
      if MatchesTarget(IdentityOf(w.root.children[d].node), t).value {
        var w1 := RunPatches(w, d, t.patches, render).value;
        RunPatchesGrows(w, d, t.patches, render);
        GrowsKeepsDocs(w.root, w1.root, d);
        RunDocsGrows(w1, d + 1, t, render);
        GrowsTransitive(w1.root, RunDocs(w1, d + 1, t, render).value.0.root, final);
        MatchedHasMetadata(IdentityOf(w.root.children[d].node), t);
        var mid := ShadowPatches(root0, w, u, final, written, d, t.patches, render);
        var u1 := RunPatches(u, d, t.patches, render).value;
        RunPatchesGrows(u, d, t.patches, render);
        GrowsKeepsDocs(u.root, u1.root, d);
        RunPatchesSound(root0, w, d, t.patches, render);
        written' := ShadowDocs(root0, w1, u1, final, mid, d + 1, t, render);
      } else {
        written' := ShadowDocs(root0, w, u, final, written, d + 1, t, render);
      }
    }
  }

  lemma {:induction false} ShadowTargets(root0: Node, w: Work, u: Work, final: Node, written: set<Address>,
                                         targets: seq<Target>, render: string -> Result<string>)
      returns (written': set<Address>)
    requires Positioned(root0) && Sound(root0, w) && Shadows(root0, w, u, final, written)
    requires w.root.Branch? && w.root.kind == SeqKind && u.root.Branch? && u.root.kind == SeqKind
    requires |w.root.children| == |u.root.children|
    requires (forall t :: t in targets ==> SafePatches(t.patches)) && SameIdentities(w.root, u.root)
    requires RunTargets(w, targets, render).Ok? && Grows(RunTargets(w, targets, render).value.root, final)
    ensures RunTargets(u, targets, render).Ok?
    ensures Shadows(root0, RunTargets(w, targets, render).value, RunTargets(u, targets, render).value, final, written')
    decreases |targets|
  {
    hide Positioned, Sound, Shadows, SameIdentities, Grows, RunDocs, SafePatches;
    written' := written;
    if targets != [] {
      var t := targets[0];
      assert t in targets;
      var w1 := RunDocs(w, 0, t, render).value.0;
      RunDocsGrows(w, 0, t, render);
      GrowsKeepsDocs(w.root, w1.root, 0);
      RunTargetsGrows(w1, targets[1..], render);
      GrowsTransitive(w1.root, RunTargets(w1, targets[1..], render).value.root, final);
      var mid := ShadowDocs(root0, w, u, final, written, 0, t, render);
      var u1 := RunDocs(u, 0, t, render).value.0;
      RunDocsGrows(u, 0, t, render);
      GrowsKeepsDocs(u.root, u1.root, 0);
      RunDocsSound(root0, w, 0, t, render);
      written' := ShadowTargets(root0, w1, u1, final, mid, targets[1..], render);
    }
  }

  // ----- a whole run keeps every document's identity -----

  lemma KeepsReflexive(x: Node)
    ensures KeepsIdentities(x, x)
  {
  }

  lemma KeepsTransitive(x: Node, y: Node, z: Node)
    requires KeepsIdentities(x, y) && KeepsIdentities(y, z)
    ensures KeepsIdentities(x, z)
  {
    hide IdentityOf, IsMapping;
  }

  lemma {:induction false} RunPatchesKeep(w: Work, d: nat, patches: seq<PatchSpec>, render: string -> Result<string>)
    requires w.root.Branch? && w.root.kind == SeqKind && InTree(w.root, [d]) && IsMapping(At(w.root, [d]))
    requires SafePatches(patches) && RunPatches(w, d, patches, render).Ok? && IdentityOf(At(w.root, [d])).hasMetadata
    ensures KeepsIdentities(w.root, RunPatches(w, d, patches, render).value.root)
    decreases |patches|
  {
    hide KeepsIdentities, Patch, Grows;
    KeepsReflexive(w.root);
    if patches != [] {
      assert patches[0] in patches;
      var value := render(patches[0].template).value;
      if Blank(value) {
        RunPatchesKeep(w, d, patches[1..], render);
      } else {
        var path := Split(patches[0].field, '.');
        PatchPutGet(w, [d], path, value);
        PatchKeepsIdentities(w, d, path, value);
        var w1 := Patch(w, [d], path, value).value;
        KeptIdentities(w.root, w1.root);
        SameIdentitiesAt(w.root, w1.root, d);
        RunPatchesKeep(w1, d, patches[1..], render);
        KeepsTransitive(w.root, w1.root, RunPatches(w1, d, patches[1..], render).value.root);
      }
    }
  }

  lemma {:induction false} RunDocsKeep(w: Work, d: nat, t: Target, render: string -> Result<string>)
    requires w.root.Branch? && w.root.kind == SeqKind && d <= |w.root.children|
    requires SafePatches(t.patches) && RunDocs(w, d, t, render).Ok?
    ensures KeepsIdentities(w.root, RunDocs(w, d, t, render).value.0.root)
    decreases |w.root.children| - d
  {
    hide KeepsIdentities, Grows, RunPatches, MatchesTarget, IdentityOf, SafePatches;
    KeepsReflexive(w.root);
    if d < |w.root.children| {
      DocInTree(w.root, d);
      if MatchesTarget(IdentityOf(w.root.children[d].node), t).value {
        var w1 := RunPatches(w, d, t.patches, render).value;
        RunPatchesGrows(w, d, t.patches, render);
        GrowsKeepsDocs(w.root, w1.root, d);
        MatchedHasMetadata(IdentityOf(w.root.children[d].node), t);
        RunPatchesKeep(w, d, t.patches, render);
        RunDocsKeep(w1, d + 1, t, render);
        KeepsTransitive(w.root, w1.root, RunDocs(w1, d + 1, t, render).value.0.root);
      } else {
        RunDocsKeep(w, d + 1, t, render);
      }
    }
  }

  lemma {:induction false} RunTargetsKeep(w: Work, targets: seq<Target>, render: string -> Result<string>)
    requires w.root.Branch? && w.root.kind == SeqKind
    requires (forall t :: t in targets ==> SafePatches(t.patches)) && RunTargets(w, targets, render).Ok?
    ensures KeepsIdentities(w.root, RunTargets(w, targets, render).value.root)
    decreases |targets|
  {
    hide KeepsIdentities, Grows, RunDocs, SafePatches;
    KeepsReflexive(w.root);
    if targets != [] {
      assert targets[0] in targets;
      var w1 := RunDocs(w, 0, targets[0], render).value.0;
      RunDocsGrows(w, 0, targets[0], render);
      GrowsKeepsDocs(w.root, w1.root, 0);
      RunDocsKeep(w, 0, targets[0], render);
      RunTargetsKeep(w1, targets[1..], render);
      KeepsTransitive(w.root, w1.root, RunTargets(w1, targets[1..], render).value.root);
    }
  }
}
