/**
 A run of the editor as the list of its writes. When no two of them want different values for one
 field, a run that leaves the tree as it was has found every value already there.
 */
module Writes {
  import opened Basics
  import opened Text
  import opened Nodes
  import opened Manifest
  import opened Identities
  import opened Shapes
  import opened Rerun
  import opened Idempotence

  /** One rendered patch, applied to document doc because of target. */
  datatype Write = Write(doc: nat, target: Target, path: seq<string>, value: string)

  function PatchWrites(d: nat, t: Target, patches: seq<PatchSpec>, render: string -> Result<string>): seq<Write> {
    if patches == [] then []
    else
      (match render(patches[0].template)
       case Ok(value) => if Blank(value) then [] else [Write(d, t, Split(patches[0].field, '.'), value)]
       case Err(_) => [])
      + PatchWrites(d, t, patches[1..], render)
  }

  function DocWrites(w: Work, d: nat, t: Target, render: string -> Result<string>): seq<Write>
    requires w.root.Branch? && w.root.kind == SeqKind && d <= |w.root.children| && RunDocs(w, d, t, render).Ok?
    decreases |w.root.children| - d
  {
    if d == |w.root.children| then []
    else
      DocInTree(w.root, d);
      if Selects(IdentityOf(w.root.children[d].node), t) then
        var w' := RunPatches(w, d, t.patches, render).value;
        RunPatchesGrows(w, d, t.patches, render);
        GrowsKeepsDocs(w.root, w'.root, d);
        PatchWrites(d, t, t.patches, render) + DocWrites(w', d + 1, t, render)
      else DocWrites(w, d + 1, t, render)
  }

  function TargetWrites(w: Work, targets: seq<Target>, render: string -> Result<string>): seq<Write>
    requires w.root.Branch? && w.root.kind == SeqKind && RunTargets(w, targets, render).Ok?
    decreases |targets|
  {
    if targets == [] then []
    else
      var w' := RunDocs(w, 0, targets[0], render).value.0;
      RunDocsGrows(w, 0, targets[0], render);
      GrowsKeepsDocs(w.root, w'.root, 0);
      DocWrites(w, 0, targets[0], render) + TargetWrites(w', targets[1..], render)
  }

  // ----- a run is the fold of its writes -----

  function Fold(w: Work, writes: seq<Write>): Result<Work>
    decreases |writes|
  {
    if writes == [] then Ok(w)
    else if !InTree(w.root, [writes[0].doc]) then Err("no such document")
    else
      match Patch(w, [writes[0].doc], writes[0].path, writes[0].value)
      case Err(m) => Err(m)
      case Ok(w') => Fold(w', writes[1..])
  }

  lemma {:induction false} FoldConcat(w: Work, a: seq<Write>, b: seq<Write>)
    requires Fold(w, a).Ok?
    ensures Fold(w, a + b) == Fold(Fold(w, a).value, b)
    decreases |a|
  {
    hide Patch;
    if a == [] {
      assert a + b == b;
    } else {
      assert (a + b)[1..] == a[1..] + b;
      FoldConcat(Patch(w, [a[0].doc], a[0].path, a[0].value).value, a[1..], b);
    }
  }

  lemma {:induction false} PatchesFold(w: Work, d: nat, t: Target, patches: seq<PatchSpec>, render: string -> Result<string>)
    requires InTree(w.root, [d]) && RunPatches(w, d, patches, render).Ok?
    ensures Fold(w, PatchWrites(d, t, patches, render)) == RunPatches(w, d, patches, render)
    decreases |patches|
  {
    hide Patch;
    if patches != [] {
      var value := render(patches[0].template).value;
      if Blank(value) {
        PatchesFold(w, d, t, patches[1..], render);
        assert [] + PatchWrites(d, t, patches[1..], render) == PatchWrites(d, t, patches[1..], render);
      } else {
        var path := Split(patches[0].field, '.');
        PatchPutGet(w, [d], path, value);
        PatchesFold(Patch(w, [d], path, value).value, d, t, patches[1..], render);
        var first := Write(d, t, path, value);
        assert ([first] + PatchWrites(d, t, patches[1..], render))[1..] == PatchWrites(d, t, patches[1..], render);
      }
    }
  }

  lemma {:induction false} DocsFold(w: Work, d: nat, t: Target, render: string -> Result<string>)
    requires w.root.Branch? && w.root.kind == SeqKind && d <= |w.root.children| && RunDocs(w, d, t, render).Ok?
    ensures Fold(w, DocWrites(w, d, t, render)) == Ok(RunDocs(w, d, t, render).value.0)
    decreases |w.root.children| - d
  {
    hide Grows, RunPatches, Fold, MatchesTarget, IdentityOf, PatchWrites;
    if d < |w.root.children| {
      DocInTree(w.root, d);
      if MatchesTarget(IdentityOf(w.root.children[d].node), t).value {
        var w1 := RunPatches(w, d, t.patches, render).value;
        RunPatchesGrows(w, d, t.patches, render);
        GrowsKeepsDocs(w.root, w1.root, d);
        PatchesFold(w, d, t, t.patches, render);
        DocsFold(w1, d + 1, t, render);
        FoldConcat(w, PatchWrites(d, t, t.patches, render), DocWrites(w1, d + 1, t, render));
      } else {
        DocsFold(w, d + 1, t, render);
      }
    } else {
      FoldNothing(w);
    }
  }

  lemma FoldNothing(w: Work)
    ensures Fold(w, []) == Ok(w)
  {
  }

  lemma {:induction false} TargetsFold(w: Work, targets: seq<Target>, render: string -> Result<string>)
    requires w.root.Branch? && w.root.kind == SeqKind && RunTargets(w, targets, render).Ok?
    ensures Fold(w, TargetWrites(w, targets, render)) == RunTargets(w, targets, render)
    decreases |targets|
  {
    hide Grows, RunDocs, Fold, DocWrites;
    if targets == [] {
      FoldNothing(w);
    } else {
      var t := targets[0];
      var w1 := RunDocs(w, 0, t, render).value.0;
      RunDocsGrows(w, 0, t, render);
      GrowsKeepsDocs(w.root, w1.root, 0);
      DocsFold(w, 0, t, render);
      TargetsFold(w1, targets[1..], render);
      FoldConcat(w, DocWrites(w, 0, t, render), TargetWrites(w1, targets[1..], render));
    }
  }

  // ----- writes that agree -----

  /** Two writes that cannot ask one field for two values. */
  predicate Agree(x: Write, y: Write) {
    x.doc != y.doc || Diverge(x.path, y.path) || x.value == y.value
  }

  predicate AllAgree(writes: seq<Write>) {
    forall i, j :: 0 <= i < |writes| && 0 <= j < |writes| ==> Agree(writes[i], writes[j])
  }

  lemma WriteHolds(w: Work, x: Write, e: nat, q: seq<string>, v: string)
    requires InTree(w.root, [x.doc]) && InTree(w.root, [e]) && Patch(w, [x.doc], x.path, x.value).Ok?
    requires Lookup(w.root, [e], q) == Some(v) && (x.doc == e ==> Diverge(x.path, q) || x.value == v)
    ensures InTree(Patch(w, [x.doc], x.path, x.value).value.root, [e])
    ensures Lookup(Patch(w, [x.doc], x.path, x.value).value.root, [e], q) == Some(v)
  {
    hide Grows;
    PatchFrame(w, [x.doc], x.path, x.value, [e], q);
    PatchPutGet(w, [x.doc], x.path, x.value);
    var root' := Patch(w, [x.doc], x.path, x.value).value.root;
    if x.doc == e {
      if Diverge(x.path, q) { DivergentAddresses(root', [e], x.path, q); }
    } else {
      assert Resolve(root', [x.doc], x.path).value[..1] == [x.doc] && Resolve(root', [e], q).value[..1] == [e];
    }
  }

  /** A value stays in its field through all writes that agree with it. */
  lemma {:induction false} FoldHolds(w: Work, writes: seq<Write>, x: Write)
    requires Fold(w, writes).Ok? && InTree(w.root, [x.doc]) && Lookup(w.root, [x.doc], x.path) == Some(x.value)
    requires forall i :: 0 <= i < |writes| ==> Agree(writes[i], x)
    ensures InTree(Fold(w, writes).value.root, [x.doc]) && Lookup(Fold(w, writes).value.root, [x.doc], x.path) == Some(x.value)
    decreases |writes|
  {
    hide Patch, Lookup;
    if writes != [] {
      var y := writes[0];
      assert Agree(writes[0], x);
      WriteHolds(w, y, x.doc, x.path, x.value);
      FoldHolds(Patch(w, [y.doc], y.path, y.value).value, writes[1..], x);
    }
  }

  lemma {:induction false} ReplaceSame(n: Node, a: Address)
    requires InTree(n, a)
    ensures Replace(n, a, At(n, a)) == n
    decreases |a|
  {
    if a != [] {
      ReplaceSame(n.children[a[0]].node, a[1..]);
    }
  }

  /** A write of the value that is there changes nothing but the record of edits. */
  lemma WriteInPlace(w: Work, a: Address, path: seq<string>, value: string)
    requires InTree(w.root, a) && path != [] && Lookup(w.root, a, path) == Some(value)
    ensures var b := Resolve(w.root, a, path).value;
            Patch(w, a, path, value) == Ok(w.(edits := if At(w.root, b).line > 0 then w.edits[b := value] else w.edits))
  {
    var b := Resolve(w.root, a, path).value;
    WalkExisting(w, a, path, value);
    ReplaceSame(w.root, b);
    assert At(w.root, b).(value := value) == At(w.root, b);
  }

  lemma ErasedLookup(x: Node, y: Node, a: Address, path: seq<string>)
    requires Erase(x) == Erase(y) && InTree(x, a)
    ensures InTree(y, a) && Lookup(y, a, path) == Lookup(x, a, path)
  {
    hide Erase;
    forall b
      ensures InTree(x, b) <==> InTree(y, b)
      ensures InTree(x, b) ==> Alike(At(x, b), At(y, b)) && (At(x, b).Scalar? ==> At(x, b).value == At(y, b).value)
    {
      SameErased(x, y, b);
    }
    ResolveAlike(x, y, a, path);
  }

  ghost predicate InPlace(root: Node, x: Write) {
    InTree(root, [x.doc]) && Lookup(root, [x.doc], x.path) == Some(x.value)
  }

  /** Agreeing writes whose outcome is the tree they started from found every value in place. */
  lemma {:induction false} QuietFold(w: Work, writes: seq<Write>)
    requires Fold(w, writes).Ok? && AllAgree(writes) && Erase(Fold(w, writes).value.root) == Erase(w.root)
    ensures forall i :: 0 <= i < |writes| ==> InPlace(w.root, writes[i])
    decreases |writes|
  {
    hide Patch, Lookup, Erase;
    if writes != [] {
      var x, rest := writes[0], writes[1..];
      PatchPutGet(w, [x.doc], x.path, x.value);
      PatchNeedsPath(w, [x.doc], x.path, x.value);
      var w1 := Patch(w, [x.doc], x.path, x.value).value;
      forall i | 0 <= i < |rest| ensures Agree(rest[i], x) {
        assert Agree(writes[i + 1], writes[0]);
      }
      FoldHolds(w1, rest, x);
      ErasedLookup(Fold(w1, rest).value.root, w.root, [x.doc], x.path);
      WriteInPlace(w, [x.doc], x.path, x.value);
      forall i, j | 0 <= i < |rest| && 0 <= j < |rest| ensures Agree(rest[i], rest[j]) {
        assert Agree(writes[i + 1], writes[j + 1]);
      }
      QuietFold(w1, rest);
      forall i | 0 <= i < |writes| ensures InPlace(w.root, writes[i]) {
        if i > 0 { assert writes[i] == rest[i - 1]; }
      }
    }
  }
}
