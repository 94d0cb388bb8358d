/**
 A second run over patched names and labels: when every target still selects something, and nothing
 it had not selected in its turn of the first run, the second run changes nothing. The converse
 fails, since a newly selected document may happen to read the values already.
 */
module SecondRun {
  import opened Basics
  import opened Text
  import opened Scan
  import opened Nodes
  import opened Overlay
  import opened Documents
  import opened Manifest
  import opened Identities
  import opened Shapes
  import opened Settling
  import opened Rerun
  import opened Idempotence
  import opened Editor
  import opened Writes
  import opened FixedPoint

  /** Target j selected document d when its turn came. */
  predicate SelectedInTurn(w: Work, targets: seq<Target>, render: string -> Result<string>, j: nat, d: nat)
    requires w.root.Branch? && w.root.kind == SeqKind && RunTargets(w, targets, render).Ok? && j < |targets|
    decreases |targets|
  {
    if j == 0 then InTree(w.root, [d]) && Selects(IdentityOf(At(w.root, [d])), targets[0])
    else
      var w' := RunDocs(w, 0, targets[0], render).value.0;
      RunDocsGrows(w, 0, targets[0], render);
      GrowsKeepsDocs(w.root, w'.root, 0);
      SelectedInTurn(w', targets[1..], render, j - 1, d)
  }

  // ----- what the first run leaves in place -----

  lemma {:induction false} FinalInPlace(w: Work, writes: seq<Write>)
    requires Fold(w, writes).Ok? && AllAgree(writes)
    ensures AllInPlace(Fold(w, writes).value.root, writes)
    decreases |writes|
  {
    hide Patch, Lookup;
    if writes != [] {
      var x, rest := writes[0], writes[1..];
      PatchPutGet(w, [x.doc], x.path, x.value);
      var w1 := Patch(w, [x.doc], x.path, x.value).value;
      forall i | 0 <= i < |rest| ensures Agree(rest[i], x) {
        assert Agree(writes[i + 1], writes[0]);
      }
      FoldHolds(w1, rest, x);
      forall i, j | 0 <= i < |rest| && 0 <= j < |rest| ensures Agree(rest[i], rest[j]) {
        assert Agree(writes[i + 1], writes[j + 1]);
      }
      FinalInPlace(w1, rest);
      forall i | 0 <= i < |writes| ensures InPlace(Fold(w, writes).value.root, writes[i]) {
        if i > 0 {
          assert writes[i] == rest[i - 1];
          assert InPlace(Fold(w1, rest).value.root, rest[i - 1]);
        }
      }
    }
  }

  lemma {:induction false} PatchesRendered(w: Work, d: nat, t: Target, patches: seq<PatchSpec>, render: string -> Result<string>)
    requires InTree(w.root, [d]) && RunPatches(w, d, patches, render).Ok?
    ensures forall p :: p in patches ==>
              render(p.template).Ok?
              && (!Blank(render(p.template).value) ==>
                    Write(d, t, Split(p.field, '.'), render(p.template).value) in PatchWrites(d, t, patches, render))
    decreases |patches|
  {
    hide Patch, Split;
    if patches != [] {
      var value := render(patches[0].template).value;
      assert patches == [patches[0]] + patches[1..];
      if Blank(value) {
        PatchesRendered(w, d, t, patches[1..], render);
      } else {
        var path := Split(patches[0].field, '.');
        PatchPutGet(w, [d], path, value);
        PatchesRendered(Patch(w, [d], path, value).value, d, t, patches[1..], render);
      }
    }
  }

  lemma {:induction false} RunPatchesKeepOthers(w: Work, d: nat, patches: seq<PatchSpec>, render: string -> Result<string>, e: nat)
    requires InTree(w.root, [d]) && InTree(w.root, [e]) && d != e && RunPatches(w, d, patches, render).Ok?
    ensures InTree(RunPatches(w, d, patches, render).value.root, [e])
    ensures At(RunPatches(w, d, patches, render).value.root, [e]) == At(w.root, [e])
    decreases |patches|
  {
    hide Patch;
    if patches != [] {
      var value := render(patches[0].template).value;
      if Blank(value) {
        RunPatchesKeepOthers(w, d, patches[1..], render, e);
      } else {
        var path := Split(patches[0].field, '.');
        PatchPutGet(w, [d], path, value);
        PatchKeepsOthers(w, d, path, value, e);
        RunPatchesKeepOthers(Patch(w, [d], path, value).value, d, patches[1..], render, e);
      }
    }
  }

  /** A patch of a selected document has rendered, and if not blank is among the writes. */
  ghost predicate Carried(writes: seq<Write>, d: nat, t: Target, render: string -> Result<string>) {
    forall p :: p in t.patches ==>
      render(p.template).Ok?
      && (!Blank(render(p.template).value) ==> Write(d, t, Split(p.field, '.'), render(p.template).value) in writes)
  }

  lemma CarriedFurther(a: seq<Write>, b: seq<Write>, d: nat, t: Target, render: string -> Result<string>)
    requires Carried(a, d, t, render) || Carried(b, d, t, render)
    ensures Carried(a + b, d, t, render)
  {
  }

  lemma {:induction false} DocCarried(w: Work, d: nat, t: Target, render: string -> Result<string>, e: nat)
    requires w.root.Branch? && w.root.kind == SeqKind && d <= e < |w.root.children| && RunDocs(w, d, t, render).Ok?
    requires Selects(IdentityOf(w.root.children[e].node), t)
    ensures Carried(DocWrites(w, d, t, render), e, t, render)
    decreases |w.root.children| - d
  {
    hide Grows, MatchesTarget, IdentityOf, RunPatches, PatchWrites, Carried;
    DocInTree(w.root, d);
    DocInTree(w.root, e);
    if Selects(IdentityOf(w.root.children[d].node), t) {
      var w1 := RunPatches(w, d, t.patches, render).value;
      RunPatchesGrows(w, d, t.patches, render);
      GrowsKeepsDocs(w.root, w1.root, d);
      if d == e {
        PatchesCarried(w, d, t, render);
      } else {
        RunPatchesKeepOthers(w, d, t.patches, render, e);
        DocInTree(w1.root, e);
        DocCarried(w1, d + 1, t, render, e);
      }
      CarriedFurther(PatchWrites(d, t, t.patches, render), DocWrites(w1, d + 1, t, render), e, t, render);
    } else {
      DocCarried(w, d + 1, t, render, e);
    }
  }

  lemma PatchesCarried(w: Work, d: nat, t: Target, render: string -> Result<string>)
    requires InTree(w.root, [d]) && RunPatches(w, d, t.patches, render).Ok?
    ensures Carried(PatchWrites(d, t, t.patches, render), d, t, render)
  {
    PatchesRendered(w, d, t, t.patches, render);
  }

  lemma {:induction false} TurnCarried(w: Work, targets: seq<Target>, render: string -> Result<string>, j: nat, d: nat)
    requires w.root.Branch? && w.root.kind == SeqKind && RunTargets(w, targets, render).Ok? && j < |targets|
    requires SelectedInTurn(w, targets, render, j, d)
    ensures Carried(TargetWrites(w, targets, render), d, targets[j], render)
    decreases |targets|
  {
    hide Grows, RunDocs, DocWrites, Carried, MatchesTarget, IdentityOf;
    var t := targets[0];
    var w1 := RunDocs(w, 0, t, render).value.0;
    RunDocsGrows(w, 0, t, render);
    GrowsKeepsDocs(w.root, w1.root, 0);
    if j == 0 {
      DocInTree(w.root, d);
      DocCarried(w, 0, t, render, d);
    } else {
      TurnCarried(w1, targets[1..], render, j - 1, d);
    }
    CarriedFurther(DocWrites(w, 0, t, render), TargetWrites(w1, targets[1..], render), d, targets[j], render);
  }

  /** Under the final identities, each target selects something, and nothing it had not selected in its turn. */
  ghost predicate SelectsAgain(w: Work, targets: seq<Target>, render: string -> Result<string>, final: Node)
    requires w.root.Branch? && w.root.kind == SeqKind && RunTargets(w, targets, render).Ok?
  {
    forall j: nat :: j < |targets| ==>
      && SelectsFrom(final, 0, targets[j])
      && forall d: nat :: InTree(final, [d]) ==>
           && IsMapping(At(final, [d])) && MatchesTarget(IdentityOf(At(final, [d])), targets[j]).Ok?
           && (Selects(IdentityOf(At(final, [d])), targets[j]) ==> SelectedInTurn(w, targets, render, j, d))
  }

  lemma FirstRunSatisfies(w: Work, targets: seq<Target>, render: string -> Result<string>)
    requires w.root.Branch? && w.root.kind == SeqKind && RunTargets(w, targets, render).Ok? && ConflictFree(targets, render)
    requires SelectsAgain(w, targets, render, RunTargets(w, targets, render).value.root)
    ensures Satisfied(RunTargets(w, targets, render).value.root, targets, render)
  {
    hide RunTargets, ConflictFree, TargetWrites, Fold, AllAgree, SelectedInTurn, MatchesTarget, IdentityOf, Carried, InPlace, Split;
    var final, writes := RunTargets(w, targets, render).value.root, TargetWrites(w, targets, render);
    ConflictFreeAgrees(w, targets, render);
    TargetsFold(w, targets, render);
    FinalInPlace(w, writes);
    forall t | t in targets ensures TargetSatisfied(final, t, render) {
      var j :| 0 <= j < |targets| && targets[j] == t;
      forall d: nat | InTree(final, [d]) ensures DocSatisfied(final, d, t, render) {
        if Selects(IdentityOf(At(final, [d])), t) {
          TurnCarried(w, targets, render, j, d);
          CarriedSatisfied(final, writes, d, t, render);
        }
      }
    }
  }

  lemma CarriedSatisfied(root: Node, writes: seq<Write>, d: nat, t: Target, render: string -> Result<string>)
    requires InTree(root, [d]) && Carried(writes, d, t, render) && AllInPlace(root, writes)
    ensures forall p :: p in t.patches ==> PatchSatisfied(root, d, p, render)
  {
    hide Lookup, Split;
    forall p | p in t.patches ensures PatchSatisfied(root, d, p, render) {
      if !Blank(render(p.template).value) {
        var x := Write(d, t, Split(p.field, '.'), render(p.template).value);
        var i :| 0 <= i < |writes| && writes[i] == x;
        assert InPlace(root, writes[i]);
      }
    }
  }

  /** Satisfaction depends on values and shape alone. */
  lemma SatisfiedErased(x: Node, y: Node, targets: seq<Target>, render: string -> Result<string>)
    requires Erase(x) == Erase(y) && Satisfied(x, targets, render)
    ensures Satisfied(y, targets, render)
  {
    hide Erase, MatchesTarget, IdentityOf, IsMapping, Lookup, Split;
    forall t | t in targets ensures TargetSatisfied(y, t, render) {
      assert TargetSatisfied(x, t, render);
      var e: nat :| 0 <= e && InTree(x, [e]) && Selects(IdentityOf(At(x, [e])), t);
      SameErased(x, y, [e]);
      forall d: nat | InTree(y, [d]) ensures DocSatisfied(y, d, t, render) {
        SameErased(x, y, [d]);
        assert DocSatisfied(x, d, t, render);
        forall p | p in t.patches && Selects(IdentityOf(At(y, [d])), t) ensures PatchSatisfied(y, d, p, render) {
          assert PatchSatisfied(x, d, p, render);
          ErasedLookup(x, y, [d], Split(p.field, '.'));
        }
      }
    }
  }

  // ----- what the first run spells -----

  /** The field's node is a recorded edit, or was created. */
  ghost predicate Spelled(w: Work, x: Write) {
    && InTree(w.root, [x.doc]) && Resolve(w.root, [x.doc], x.path).Some?
    && (Resolve(w.root, [x.doc], x.path).value in w.edits || At(w.root, Resolve(w.root, [x.doc], x.path).value).line == 0)
  }

  lemma PatchSpells(w: Work, x: Write)
    requires InTree(w.root, [x.doc]) && Patch(w, [x.doc], x.path, x.value).Ok?
    ensures Spelled(Patch(w, [x.doc], x.path, x.value).value, x)
    ensures w.edits.Keys <= Patch(w, [x.doc], x.path, x.value).value.edits.Keys
  {
    hide Grows;
    WalkReaches(w, [x.doc], x.path, x.value);
    var (w1, b) := Walk(w, [x.doc], x.path, x.value).value;
    SetValueEffect(w1.root, b, x.value, b);
    SetValueGrows(w1.root, b, x.value);
    ResolveStable(w1.root, SetValue(w1.root, b, x.value), [x.doc], x.path);
  }

  lemma SpelledLater(w: Work, w': Work, x: Write)
    requires Spelled(w, x) && Grows(w.root, w'.root) && w.edits.Keys <= w'.edits.Keys
    ensures Spelled(w', x)
  {
    ResolveStable(w.root, w'.root, [x.doc], x.path);
    GrownAt(w.root, w'.root, Resolve(w.root, [x.doc], x.path).value);
  }

  lemma {:induction false} FoldSpells(w: Work, writes: seq<Write>)
    requires Fold(w, writes).Ok?
    ensures Grows(w.root, Fold(w, writes).value.root) && w.edits.Keys <= Fold(w, writes).value.edits.Keys
    ensures forall i :: 0 <= i < |writes| ==> Spelled(Fold(w, writes).value, writes[i])
    decreases |writes|
  {
    hide Patch, Grows, Spelled;
    if writes == [] {
      GrowsReflexive(w.root);
    } else {
      var x, rest := writes[0], writes[1..];
      PatchSpells(w, x);
      PatchPutGet(w, [x.doc], x.path, x.value);
      var w1 := Patch(w, [x.doc], x.path, x.value).value;
      FoldSpells(w1, rest);
      var final := Fold(w1, rest).value;
      GrowsTransitive(w.root, w1.root, final.root);
      SpelledLater(w1, final, x);
      forall i | 0 <= i < |writes| ensures Spelled(final, writes[i]) {
        if i > 0 { assert writes[i] == rest[i - 1]; }
      }
    }
  }

  // ----- what the second run writes -----

  lemma {:induction false} PatchWritesShape(d: nat, t: Target, patches: seq<PatchSpec>, render: string -> Result<string>, x: Write)
    requires x in PatchWrites(d, t, patches, render)
    ensures x.doc == d && x.target == t
    ensures exists p :: p in patches && Split(p.field, '.') == x.path && Renders(render, p, x.value)
    decreases |patches|
  {
    hide Split;
    if x in PatchWrites(d, t, patches[1..], render) { PatchWritesShape(d, t, patches[1..], render, x); }
  }

  lemma {:induction false} DocsSelected(w: Work, d: nat, t: Target, render: string -> Result<string>, x: Write)
    requires w.root.Branch? && w.root.kind == SeqKind && d <= |w.root.children| && RunDocs(w, d, t, render).Ok?
    requires forall e: nat :: d <= e && InTree(w.root, [e]) ==> DocSatisfied(w.root, e, t, render)
    requires x in DocWrites(w, d, t, render)
    ensures InTree(w.root, [x.doc]) && Selects(IdentityOf(At(w.root, [x.doc])), t)
    ensures x in PatchWrites(x.doc, t, t.patches, render)
    decreases |w.root.children| - d
  {
    hide MatchesTarget, IdentityOf, RunPatches, PatchSatisfied, PatchWrites, Grows;
    if d < |w.root.children| {
      DocInTree(w.root, d);
      assert DocSatisfied(w.root, d, t, render);
      if Selects(IdentityOf(w.root.children[d].node), t) {
        SatisfiedPatches(w, d, t.patches, render);
        if x in PatchWrites(d, t, t.patches, render) {
          PatchWritesShape(d, t, t.patches, render, x);
        } else {
          DocsSelected(RunPatches(w, d, t.patches, render).value, d + 1, t, render, x);
        }
      } else {
        DocsSelected(w, d + 1, t, render, x);
      }
    }
  }

  lemma {:induction false} TargetsSelected(w: Work, targets: seq<Target>, render: string -> Result<string>, x: Write) returns (j: nat)
    requires w.root.Branch? && w.root.kind == SeqKind && RunTargets(w, targets, render).Ok?
    requires Satisfied(w.root, targets, render) && x in TargetWrites(w, targets, render)
    ensures j < |targets| && InTree(w.root, [x.doc]) && Selects(IdentityOf(At(w.root, [x.doc])), targets[j])
    ensures x in PatchWrites(x.doc, targets[j], targets[j].patches, render)
    decreases |targets|
  {
    hide RunDocs, DocSatisfied, SelectsFrom, DocWrites, PatchWrites, MatchesTarget, IdentityOf, Grows;
    var t := targets[0];
    assert t in targets && TargetSatisfied(w.root, t, render);
    SatisfiedDocs(w, 0, t, render);
    if x in DocWrites(w, 0, t, render) {
      DocsSelected(w, 0, t, render, x);
      j := 0;
    } else {
      var k := TargetsSelected(RunDocs(w, 0, t, render).value.0, targets[1..], render, x);
      j := k + 1;
    }
  }

  /** The edits recorded by writes that find their values in place are at those fields, with those values. */
  lemma {:induction false} QuietEdits(w: Work, writes: seq<Write>, b: Address)
    requires Fold(w, writes).Ok? && AllInPlace(w.root, writes) && b in Fold(w, writes).value.edits && b !in w.edits
    ensures exists i :: 0 <= i < |writes| && InPlace(w.root, writes[i]) && Resolve(w.root, [writes[i].doc], writes[i].path) == Some(b)
    ensures InTree(w.root, b) && At(w.root, b).Scalar? && Fold(w, writes).value.edits[b] == At(w.root, b).value
    decreases |writes|
  {
    hide Patch;
    if writes != [] {
      var x, rest := writes[0], writes[1..];
      assert InPlace(w.root, x);
      PatchNeedsPath(w, [x.doc], x.path, x.value);
      WriteInPlace(w, [x.doc], x.path, x.value);
      var w1 := Patch(w, [x.doc], x.path, x.value).value;
      forall i | 0 <= i < |rest| ensures InPlace(w1.root, rest[i]) {
        assert rest[i] == writes[i + 1];
      }
      if b in w1.edits {
        assert Resolve(w.root, [writes[0].doc], writes[0].path) == Some(b);
        EditsStay(w1, rest, b);
      } else {
        QuietEdits(w1, rest, b);
        var i :| 0 <= i < |rest| && InPlace(w1.root, rest[i]) && Resolve(w1.root, [rest[i].doc], rest[i].path) == Some(b);
        assert writes[i + 1] == rest[i];
      }
    }
  }

  /** Once an edit repeats the value in place, later writes in place keep it so. */
  lemma {:induction false} EditsStay(w: Work, writes: seq<Write>, b: Address)
    requires Fold(w, writes).Ok? && AllInPlace(w.root, writes)
    requires b in w.edits && InTree(w.root, b) && At(w.root, b).Scalar? && w.edits[b] == At(w.root, b).value
    ensures b in Fold(w, writes).value.edits && Fold(w, writes).value.edits[b] == At(w.root, b).value
    decreases |writes|
  {
    hide Patch;
    if writes != [] {
      var x, rest := writes[0], writes[1..];
      assert InPlace(w.root, x);
      PatchNeedsPath(w, [x.doc], x.path, x.value);
      WriteInPlace(w, [x.doc], x.path, x.value);
      var w1 := Patch(w, [x.doc], x.path, x.value).value;
      forall i | 0 <= i < |rest| ensures InPlace(w1.root, rest[i]) {
        assert rest[i] == writes[i + 1];
      }
      EditsStay(w1, rest, b);
    }
  }

  lemma WritesInPlace(w: Work, targets: seq<Target>, render: string -> Result<string>)
    requires w.root.Branch? && w.root.kind == SeqKind && RunTargets(w, targets, render).Ok? && Satisfied(w.root, targets, render)
    ensures AllInPlace(w.root, TargetWrites(w, targets, render))
  {
    hide RunTargets, TargetWrites, Lookup, Split, MatchesTarget, IdentityOf, PatchWrites;
    var writes := TargetWrites(w, targets, render);
    forall i | 0 <= i < |writes| ensures InPlace(w.root, writes[i]) {
      var x := writes[i];
      assert x in writes;
      var j := TargetsSelected(w, targets, render, x);
      PatchWritesShape(x.doc, targets[j], targets[j].patches, render, x);
      var p :| p in targets[j].patches && Split(p.field, '.') == x.path && Renders(render, p, x.value);
      assert TargetSatisfied(w.root, targets[j], render) && DocSatisfied(w.root, x.doc, targets[j], render);
      assert PatchSatisfied(w.root, x.doc, p, render);
    }
  }

  // ----- the second run -----

  lemma ErasedResolve(x: Node, y: Node, a: Address, path: seq<string>)
    requires Erase(x) == Erase(y) && InTree(x, a)
    ensures InTree(y, a) && Resolve(y, a, path) == Resolve(x, a, path)
  {
    hide Erase;
    forall b
      ensures InTree(x, b) <==> InTree(y, b)
      ensures InTree(x, b) ==> Alike(At(x, b), At(y, b))
    {
      SameErased(x, y, b);
    }
    ResolveAlike(x, y, a, path);
  }

  /** An edit of the second run repeats what the first one wrote. */
  lemma EditRepeats(root0: Node, w0: Work, w: Work, u0: Work, targets: seq<Target>, render: string -> Result<string>, b: Address)
    requires w0.root.Branch? && w0.root.kind == SeqKind && RunTargets(w0, targets, render) == Ok(w)
    requires ConflictFree(targets, render) && SelectsAgain(w0, targets, render, w.root)
    requires Positioned(root0) && Overlaid(root0, w) && Erase(w.root) == Erase(u0.root)
    requires u0.root.Branch? && u0.root.kind == SeqKind && u0.edits == map[] && Satisfied(u0.root, targets, render)
    requires RunTargets(u0, targets, render).Ok? && b in RunTargets(u0, targets, render).value.edits
    ensures var u := RunTargets(u0, targets, render).value;
            InTree(w.root, b) && At(w.root, b).Scalar? && u.edits[b] == At(w.root, b).value && (b in w.edits || !InTree(root0, b))
  {
    hide RunTargets, TargetWrites, Fold, Erase, Overlaid, Positioned, ConflictFree, Satisfied, SelectsAgain, Carried, PatchWrites,
         MatchesTarget, IdentityOf, Lookup, Resolve, Split;
    var writes, again := TargetWrites(w0, targets, render), TargetWrites(u0, targets, render);
    TargetsFold(u0, targets, render);
    WritesInPlace(u0, targets, render);
    QuietEdits(u0, again, b);
    var i :| 0 <= i < |again| && InPlace(u0.root, again[i]) && Resolve(u0.root, [again[i].doc], again[i].path) == Some(b);
    var x := again[i];
    assert x in again;
    var j := TargetsSelected(u0, targets, render, x);
    SameErased(w.root, u0.root, [x.doc]);
    InTurn(w0, targets, render, w.root, j, x.doc);
    TurnCarried(w0, targets, render, j, x.doc);
    CarriedHas(writes, x, targets[j], render);
    TargetsFold(w0, targets, render);
    FoldSpells(w0, writes);
    var k :| 0 <= k < |writes| && writes[k] == x;
    assert Spelled(w, writes[k]);
    ErasedResolve(w.root, u0.root, [x.doc], x.path);
    SameErased(w.root, u0.root, b);
    SourceIffPositioned(root0, w, b);
  }

  lemma InTurn(w: Work, targets: seq<Target>, render: string -> Result<string>, final: Node, j: nat, d: nat)
    requires w.root.Branch? && w.root.kind == SeqKind && RunTargets(w, targets, render).Ok? && j < |targets|
    requires SelectsAgain(w, targets, render, final) && InTree(final, [d]) && Selects(IdentityOf(At(final, [d])), targets[j])
    ensures SelectedInTurn(w, targets, render, j, d)
  {
    hide RunTargets, SelectedInTurn, MatchesTarget, IdentityOf;
  }

  lemma CarriedHas(writes: seq<Write>, x: Write, t: Target, render: string -> Result<string>)
    requires Carried(writes, x.doc, t, render) && x in PatchWrites(x.doc, t, t.patches, render)
    ensures x in writes
  {
    hide Split, PatchWrites;
    PatchWritesShape(x.doc, t, t.patches, render, x);
  }

  /**
   A second run over the updated stream succeeds and leaves it as it is, whatever the patches, when
   under the final identities every target selects something and nothing it had not selected in its
   turn of the first run.
   */
  lemma SecondRunRepeats(em: Emitter, stream: seq<Doc>, targets: seq<Target>, render: string -> Result<string>, w: Work)
    requires ValidEmitter(em) && DocsWf(stream, true) && OneLineTargets(targets, render) && ConflictFree(targets, render)
    requires RunTargets(StartOf(stream), targets, render) == Ok(w) && ReadyDocs(stream, 0, w)
    requires SelectsAgain(StartOf(stream), targets, render, w.root)
    ensures w.root.Branch? && |stream| <= |w.root.children|
    ensures var stream' := UpdatedDocs(em, stream, 0, w);
            var again := RunTargets(StartOf(stream'), targets, render);
            && again.Ok? && again.value.root.Branch? && |stream'| <= |again.value.root.children|
            && UpdatedDocs(em, stream', 0, again.value) == stream'
  {
    hide ValidEmitter, DocsWf, ReadyDocs, RunTargets, UpdatedDocs, ConflictFree, OneLineTargets, Satisfied, SettledDocs, PlaceDocs, Erase,
         Finished, Positioned, SelectsAgain, Repeats;
    var root0 := StreamNode(stream);
    RunFinishes(stream, targets, render, w);
    UpdatedStreamErased(em, w, stream);
    var stream' := UpdatedDocs(em, stream, 0, w);
    FirstRunSatisfies(StartOf(stream), targets, render);
    SatisfiedErased(w.root, StreamNode(stream'), targets, render);
    SatisfiedRuns(StartOf(stream'), targets, render);
    var u := RunTargets(StartOf(stream'), targets, render).value;
    FinishedOverlaid(root0, w);
    SecondEditsRepeat(root0, stream, stream', targets, render, w, u);
    assert root0.children[0..] == root0.children;
    UpdatedDocsGood(em, root0, w, stream, true, 0, 0, u.edits);
    SatisfiedUnchanged(em, stream', targets, render, u);
  }

  lemma FinishedOverlaid(root0: Node, w: Work)
    requires Finished(root0, w)
    ensures Overlaid(root0, w)
  {
  }

  lemma SecondEditsRepeat(root0: Node, stream: seq<Doc>, stream': seq<Doc>, targets: seq<Target>, render: string -> Result<string>, w: Work, u: Work)
    requires RunTargets(StartOf(stream), targets, render) == Ok(w) && RunTargets(StartOf(stream'), targets, render) == Ok(u)
    requires ConflictFree(targets, render) && SelectsAgain(StartOf(stream), targets, render, w.root)
    requires Positioned(root0) && Overlaid(root0, w) && Erase(w.root) == Erase(StreamNode(stream'))
    requires Satisfied(StreamNode(stream'), targets, render)
    ensures Repeats(root0, w, u.edits)
  {
    hide RunTargets, ConflictFree, SelectsAgain, Positioned, Overlaid, Erase, Satisfied, PlaceDocs;
    forall b | b in u.edits
      ensures InTree(w.root, b) && At(w.root, b).Scalar? && u.edits[b] == At(w.root, b).value && (b in w.edits || !InTree(root0, b))
    {
      EditRepeats(root0, StartOf(stream), w, StartOf(stream'), targets, render, b);
    }
  }
}
