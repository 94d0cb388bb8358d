/**
 When UpdateManifest leaves a manifest exactly as it is, for any patches, those of names and labels
 included. For targets that do not contradict one another it does so if and only if every target
 selects some document and every selected document already reads its values.
 */
module FixedPoint {
  import opened Basics
  import opened Text
  import opened Scan
  import opened Nodes
  import opened Overlay
  import opened Documents
  import opened Manifest
  import opened Identities
  import opened Shapes
  import opened Settling
  import opened Rerun
  import opened Idempotence
  import opened Editor
  import opened Writes

  // ----- what selects, and what patches can change of it -----

  /** Some patch leads into the top-level key. */
  ghost predicate TouchesKey(targets: seq<Target>, key: string) {
    exists t, p :: t in targets && p in t.patches && Split(p.field, '.')[0] == key
  }

  predicate LeadsIntoMeta(path: seq<string>, key: string) {
    path != [] && path[0] == "metadata" && (|path| == 1 || path[1] == key)
  }

  /** Some patch leads into the key of metadata, or replaces metadata. */
  ghost predicate TouchesMeta(targets: seq<Target>, key: string) {
    exists t, p :: t in targets && p in t.patches && LeadsIntoMeta(Split(p.field, '.'), key)
  }

  /** The two select by different values of something that no patch touches. */
  ghost predicate Separate(t: Target, u: Target, targets: seq<Target>) {
    || (t.apiVersion != u.apiVersion && !TouchesKey(targets, "apiVersion"))
    || (t.kind != u.kind && !TouchesKey(targets, "kind"))
    || (t.name != "" && u.name != "" && t.name != u.name && !TouchesMeta(targets, "name"))
    || (t.namespace != "" && u.namespace != "" && t.namespace != u.namespace && !TouchesMeta(targets, "namespace"))
  }

  ghost predicate Renders(render: string -> Result<string>, p: PatchSpec, value: string) {
    render(p.template) == Ok(value) && !Blank(value)
  }

  /** No two patches that could meet in one field of one document render to different values. */
  ghost predicate ConflictFree(targets: seq<Target>, render: string -> Result<string>) {
    forall t, u, p, q, v, v' ::
      t in targets && u in targets && p in t.patches && q in u.patches && Renders(render, p, v) && Renders(render, q, v') ==>
        v == v' || Diverge(Split(p.field, '.'), Split(q.field, '.')) || Separate(t, u, targets)
  }

  // ----- identities keep what no patch touches -----

  ghost predicate Unmoved(x: Identity, y: Identity, targets: seq<Target>) {
    && (!TouchesKey(targets, "apiVersion") ==> x.apiVersion == y.apiVersion)
    && (!TouchesKey(targets, "kind") ==> x.kind == y.kind)
    && (!TouchesMeta(targets, "name") ==> x.name == y.name)
    && (!TouchesMeta(targets, "namespace") ==> x.namespace == y.namespace)
  }

  lemma PatchKeepsMetaKey(w: Work, d: nat, path: seq<string>, value: string, key: string)
    requires InTree(w.root, [d]) && IsMapping(At(w.root, [d])) && Patch(w, [d], path, value).Ok? && path != []
    requires MapGet(At(w.root, [d]), "metadata").Some? && !LeadsIntoMeta(path, key)
    ensures InTree(Patch(w, [d], path, value).value.root, [d])
    ensures var m, m' := MapGet(At(w.root, [d]), "metadata"), MapGet(At(Patch(w, [d], path, value).value.root, [d]), "metadata");
            m.Some? && m'.Some? && ScalarAt(m.value, key) == ScalarAt(m'.value, key)
  {
    hide Grows, Patch;
    if path[0] != "metadata" {
      PatchKeepsKey(w, [d], path, value, "metadata");
    } else {
      var n := At(w.root, [d]);
      IndexOfFirst(n.children, "metadata");
      var k := IndexOf(n.children, "metadata").value;
      PatchInto(w, [d], path, value, k);
      PatchPutGet(w, [d], path, value);
      var root' := Patch(w, [d], path, value).value.root;
      GrownAt(w.root, root', [d]);
      GrownAt(w.root, root', [d] + [k]);
      StepStable(n, At(root', [d]), "metadata");
      IndexOfFirst(At(root', [d]).children, "metadata");
      InTreeJoin(w.root, [d], [k]);
      InTreeJoin(root', [d], [k]);
      if IsMapping(At(w.root, [d] + [k])) { PatchKeepsKey(w, [d] + [k], path[1..], value, key); }
    }
  }

  /** A document that has metadata keeps having it. */
  lemma MetadataStays(w: Work, d: nat, path: seq<string>, value: string)
    requires InTree(w.root, [d]) && IsMapping(At(w.root, [d])) && Patch(w, [d], path, value).Ok?
    requires IdentityOf(At(w.root, [d])).hasMetadata
    ensures InTree(Patch(w, [d], path, value).value.root, [d])
    ensures IsMapping(At(Patch(w, [d], path, value).value.root, [d])) && IdentityOf(At(Patch(w, [d], path, value).value.root, [d])).hasMetadata
  {
    hide Grows, Patch;
    PatchPutGet(w, [d], path, value);
    var root' := Patch(w, [d], path, value).value.root;
    GrownAt(w.root, root', [d]);
    StepStable(At(w.root, [d]), At(root', [d]), "metadata");
    IndexOfFirst(At(w.root, [d]).children, "metadata");
    IndexOfFirst(At(root', [d]).children, "metadata");
  }

  /** Each part of the identity survives a patch that does not lead into it. */
  lemma PatchKeepsParts(w: Work, d: nat, path: seq<string>, value: string)
    requires InTree(w.root, [d]) && IsMapping(At(w.root, [d])) && Patch(w, [d], path, value).Ok?
    requires IdentityOf(At(w.root, [d])).hasMetadata
    ensures path != [] && InTree(Patch(w, [d], path, value).value.root, [d])
    ensures var x, y := IdentityOf(At(w.root, [d])), IdentityOf(At(Patch(w, [d], path, value).value.root, [d]));
            && (path[0] != "apiVersion" ==> x.apiVersion == y.apiVersion)
            && (path[0] != "kind" ==> x.kind == y.kind)
            && (!LeadsIntoMeta(path, "name") ==> x.name == y.name)
            && (!LeadsIntoMeta(path, "namespace") ==> x.namespace == y.namespace)
  {
    hide Grows, Patch, MapGet, LabelsOf;
    PatchNeedsPath(w, [d], path, value);
    MetadataStays(w, d, path, value);
    HasMetadata(At(w.root, [d]));
    if path[0] != "apiVersion" { PatchKeepsKey(w, [d], path, value, "apiVersion"); }
    if path[0] != "kind" { PatchKeepsKey(w, [d], path, value, "kind"); }
    if !LeadsIntoMeta(path, "name") { PatchKeepsMetaKey(w, d, path, value, "name"); }
    if !LeadsIntoMeta(path, "namespace") { PatchKeepsMetaKey(w, d, path, value, "namespace"); }
  }

  /** Every document is still there, and has kept of its identity what no patch touches. */
  ghost predicate Drifted(x: Node, y: Node, targets: seq<Target>) {
    forall d: nat :: (InTree(x, [d]) <==> InTree(y, [d]))
                     && (InTree(x, [d]) ==> Unmoved(IdentityOf(At(x, [d])), IdentityOf(At(y, [d])), targets))
  }

  lemma DriftedItself(x: Node, targets: seq<Target>)
    ensures Drifted(x, x, targets)
  {
  }

  lemma DriftedFurther(x: Node, y: Node, z: Node, targets: seq<Target>)
    requires Drifted(x, y, targets) && Drifted(y, z, targets)
    ensures Drifted(x, z, targets)
  {
    hide IdentityOf, TouchesKey, TouchesMeta;
  }

  lemma PatchDrifts(w: Work, d: nat, t: Target, p: PatchSpec, value: string, targets: seq<Target>)
    requires w.root.Branch? && w.root.kind == SeqKind
    requires InTree(w.root, [d]) && IsMapping(At(w.root, [d])) && IdentityOf(At(w.root, [d])).hasMetadata
    requires t in targets && p in t.patches && Patch(w, [d], Split(p.field, '.'), value).Ok?
    ensures Drifted(w.root, Patch(w, [d], Split(p.field, '.'), value).value.root, targets)
  {
    hide Patch, Grows, IdentityOf, Split;
    var path := Split(p.field, '.');
    var root' := Patch(w, [d], path, value).value.root;
    PatchPutGet(w, [d], path, value);
    GrowsKeepsDocs(w.root, root', 0);
    PatchKeepsParts(w, d, path, value);
    forall e: nat
      ensures InTree(w.root, [e]) <==> InTree(root', [e])
      ensures InTree(w.root, [e]) ==> Unmoved(IdentityOf(At(w.root, [e])), IdentityOf(At(root', [e])), targets)
    {
      if e < |w.root.children| {
        DocInTree(w.root, e);
        DocInTree(root', e);
        if e != d { PatchKeepsOthers(w, d, path, value, e); }
      }
    }
  }

  lemma {:induction false} RunPatchesDrift(w: Work, d: nat, t: Target, patches: seq<PatchSpec>, render: string -> Result<string>, targets: seq<Target>)
    requires w.root.Branch? && w.root.kind == SeqKind
    requires InTree(w.root, [d]) && IsMapping(At(w.root, [d])) && IdentityOf(At(w.root, [d])).hasMetadata
    requires RunPatches(w, d, patches, render).Ok?
    requires t in targets && forall p :: p in patches ==> p in t.patches
    ensures Drifted(w.root, RunPatches(w, d, patches, render).value.root, targets)
    decreases |patches|
  {
    hide Patch, Grows, IdentityOf, Drifted, Split;
    DriftedItself(w.root, targets);
    if patches != [] {
      assert patches[0] in patches;
      var value := render(patches[0].template).value;
      if Blank(value) {
        RunPatchesDrift(w, d, t, patches[1..], render, targets);
      } else {
        var path := Split(patches[0].field, '.');
        PatchDrifts(w, d, t, patches[0], value, targets);
        MetadataStays(w, d, path, value);
        PatchPutGet(w, [d], path, value);
        var w1 := Patch(w, [d], path, value).value;
        GrowsKeepsDocs(w.root, w1.root, 0);
        RunPatchesDrift(w1, d, t, patches[1..], render, targets);
        DriftedFurther(w.root, w1.root, RunPatches(w1, d, patches[1..], render).value.root, targets);
      }
    }
  }

  // ----- every write of a run has a reason -----

  /** The write comes from a patch of its target, which selects an identity the document may have had. */
  ghost predicate Reasoned(root0: Node, x: Write, targets: seq<Target>, render: string -> Result<string>) {
    && InTree(root0, [x.doc]) && x.target in targets
    && (exists id :: Selects(id, x.target) && Unmoved(IdentityOf(At(root0, [x.doc])), id, targets))
    && (exists p :: p in x.target.patches && Split(p.field, '.') == x.path && Renders(render, p, x.value))
  }

  lemma ReasonsAgree(root0: Node, x: Write, y: Write, targets: seq<Target>, render: string -> Result<string>)
    requires ConflictFree(targets, render) && Reasoned(root0, x, targets, render) && Reasoned(root0, y, targets, render)
    ensures Agree(x, y)
  {
    hide TouchesKey, TouchesMeta, Split, Diverge, IdentityOf;
    if x.doc == y.doc {
      var id :| Selects(id, x.target) && Unmoved(IdentityOf(At(root0, [x.doc])), id, targets);
      var id' :| Selects(id', y.target) && Unmoved(IdentityOf(At(root0, [y.doc])), id', targets);
      assert !Separate(x.target, y.target, targets);
      var p :| p in x.target.patches && Split(p.field, '.') == x.path && Renders(render, p, x.value);
      var q :| q in y.target.patches && Split(q.field, '.') == y.path && Renders(render, q, y.value);
    }
  }

  lemma {:induction false} PatchWritesReasoned(root0: Node, root: Node, d: nat, t: Target, patches: seq<PatchSpec>,
                                               render: string -> Result<string>, targets: seq<Target>)
    requires Drifted(root0, root, targets) && InTree(root, [d]) && Selects(IdentityOf(At(root, [d])), t)
    requires t in targets && forall p :: p in patches ==> p in t.patches
    ensures forall x :: x in PatchWrites(d, t, patches, render) ==> Reasoned(root0, x, targets, render)
    decreases |patches|
  {
    hide IdentityOf, TouchesKey, TouchesMeta, Split, MatchesTarget;
    if patches != [] {
      PatchWritesReasoned(root0, root, d, t, patches[1..], render, targets);
      assert patches[0] in patches;
    }
  }

  lemma {:induction false} DocWritesReasoned(root0: Node, w: Work, d: nat, t: Target, render: string -> Result<string>, targets: seq<Target>)
    requires w.root.Branch? && w.root.kind == SeqKind && d <= |w.root.children| && RunDocs(w, d, t, render).Ok?
    requires Drifted(root0, w.root, targets) && t in targets
    ensures Drifted(root0, RunDocs(w, d, t, render).value.0.root, targets)
    ensures forall x :: x in DocWrites(w, d, t, render) ==> Reasoned(root0, x, targets, render)
    decreases |w.root.children| - d
  {
    hide Grows, RunPatches, MatchesTarget, IdentityOf, PatchWrites, Drifted, Reasoned;
    if d < |w.root.children| {
      DocInTree(w.root, d);
      if Selects(IdentityOf(w.root.children[d].node), t) {
        var w1 := RunPatches(w, d, t.patches, render).value;
        RunPatchesGrows(w, d, t.patches, render);
        GrowsKeepsDocs(w.root, w1.root, d);
        MatchedHasMetadata(IdentityOf(w.root.children[d].node), t);
        RunPatchesDrift(w, d, t, t.patches, render, targets);
        DriftedFurther(root0, w.root, w1.root, targets);
        PatchWritesReasoned(root0, w.root, d, t, t.patches, render, targets);
        DocWritesReasoned(root0, w1, d + 1, t, render, targets);
      } else {
        DocWritesReasoned(root0, w, d + 1, t, render, targets);
      }
    }
  }

  lemma {:induction false} TargetWritesReasoned(root0: Node, w: Work, targets: seq<Target>, render: string -> Result<string>, all: seq<Target>)
    requires w.root.Branch? && w.root.kind == SeqKind && RunTargets(w, targets, render).Ok?
    requires Drifted(root0, w.root, all) && forall t :: t in targets ==> t in all
    ensures forall x :: x in TargetWrites(w, targets, render) ==> Reasoned(root0, x, all, render)
    decreases |targets|
  {
    hide Grows, RunDocs, DocWrites, Drifted, Reasoned;
    if targets != [] {
      var t := targets[0];
      assert t in targets;
      RunDocsGrows(w, 0, t, render);
      var w1 := RunDocs(w, 0, t, render).value.0;
      GrowsKeepsDocs(w.root, w1.root, 0);
      DocWritesReasoned(root0, w, 0, t, render, all);
      TargetWritesReasoned(root0, w1, targets[1..], render, all);
    }
  }

  /** The writes of a conflict-free run agree. */
  lemma ConflictFreeAgrees(w: Work, targets: seq<Target>, render: string -> Result<string>)
    requires w.root.Branch? && w.root.kind == SeqKind && RunTargets(w, targets, render).Ok? && ConflictFree(targets, render)
    ensures AllAgree(TargetWrites(w, targets, render))
  {
    hide ConflictFree, Drifted, Reasoned, RunTargets, TargetWrites, Agree;
    DriftedItself(w.root, targets);
    TargetWritesReasoned(w.root, w, targets, render, targets);
    var writes := TargetWrites(w, targets, render);
    forall i, j | 0 <= i < |writes| && 0 <= j < |writes| ensures Agree(writes[i], writes[j]) {
      assert writes[i] in writes && writes[j] in writes;
      ReasonsAgree(w.root, writes[i], writes[j], targets, render);
    }
  }

  // ----- satisfied targets -----

  /** The patch has nothing to change in document d. */
  predicate PatchSatisfied(root: Node, d: nat, p: PatchSpec, render: string -> Result<string>)
    requires InTree(root, [d])
  {
    match render(p.template)
    case Err(_) => false
    case Ok(value) => Blank(value) || Lookup(root, [d], Split(p.field, '.')) == Some(value)
  }

  ghost predicate DocSatisfied(root: Node, d: nat, t: Target, render: string -> Result<string>)
    requires InTree(root, [d])
  {
    && IsMapping(At(root, [d]))
    && MatchesTarget(IdentityOf(At(root, [d])), t).Ok?
    && (Selects(IdentityOf(At(root, [d])), t) ==> forall p :: p in t.patches ==> PatchSatisfied(root, d, p, render))
  }

  ghost predicate SelectsFrom(root: Node, d: nat, t: Target) {
    exists e: nat :: d <= e && InTree(root, [e]) && Selects(IdentityOf(At(root, [e])), t)
  }

  /** The target selects some document, and every document it selects already reads its values. */
  ghost predicate TargetSatisfied(root: Node, t: Target, render: string -> Result<string>) {
    && SelectsFrom(root, 0, t)
    && forall d: nat :: InTree(root, [d]) ==> DocSatisfied(root, d, t, render)
  }

  ghost predicate Satisfied(root: Node, targets: seq<Target>, render: string -> Result<string>) {
    forall t :: t in targets ==> TargetSatisfied(root, t, render)
  }

  // ----- a run over satisfied targets changes nothing -----

  /** The same tree and insertions; the edits may record more. */
  predicate SameButEdits(w: Work, w': Work) {
    w'.root == w.root && w'.insertions == w.insertions
  }

  lemma {:induction false} SatisfiedPatches(w: Work, d: nat, patches: seq<PatchSpec>, render: string -> Result<string>)
    requires InTree(w.root, [d]) && forall p :: p in patches ==> PatchSatisfied(w.root, d, p, render)
    ensures var r := RunPatches(w, d, patches, render); r.Ok? && SameButEdits(w, r.value)
    decreases |patches|
  {
    hide Patch, Lookup, Split;
    if patches != [] {
      assert patches[0] in patches;
      var value := render(patches[0].template).value;
      if Blank(value) {
        SatisfiedPatches(w, d, patches[1..], render);
      } else {
        var path := Split(patches[0].field, '.');
        WriteInPlace(w, [d], path, value);
        SatisfiedPatches(Patch(w, [d], path, value).value, d, patches[1..], render);
      }
    }
  }

  lemma {:induction false} SatisfiedDocs(w: Work, d: nat, t: Target, render: string -> Result<string>)
    requires w.root.Branch? && w.root.kind == SeqKind && d <= |w.root.children|
    requires forall e: nat :: d <= e && InTree(w.root, [e]) ==> DocSatisfied(w.root, e, t, render)
    ensures var r := RunDocs(w, d, t, render);
            r.Ok? && SameButEdits(w, r.value.0) && (SelectsFrom(w.root, d, t) ==> r.value.1 > 0)
    decreases |w.root.children| - d
  {
    hide MatchesTarget, IdentityOf, RunPatches, PatchSatisfied;
    if d < |w.root.children| {
      DocInTree(w.root, d);
      assert DocSatisfied(w.root, d, t, render);
      if Selects(IdentityOf(w.root.children[d].node), t) {
        SatisfiedPatches(w, d, t.patches, render);
        SatisfiedDocs(RunPatches(w, d, t.patches, render).value, d + 1, t, render);
      } else {
        SatisfiedDocs(w, d + 1, t, render);
      }
    }
  }

  lemma {:induction false} SatisfiedRuns(w: Work, targets: seq<Target>, render: string -> Result<string>)
    requires w.root.Branch? && w.root.kind == SeqKind && Satisfied(w.root, targets, render)
    ensures var r := RunTargets(w, targets, render); r.Ok? && SameButEdits(w, r.value)
    decreases |targets|
  {
    hide RunDocs, DocSatisfied, SelectsFrom;
    if targets != [] {
      var t := targets[0];
      assert t in targets;
      assert TargetSatisfied(w.root, t, render);
      SatisfiedDocs(w, 0, t, render);
      SatisfiedRuns(RunDocs(w, 0, t, render).value.0, targets[1..], render);
    }
  }

  // ----- a run that found every value in place had satisfied targets -----

  ghost predicate AllInPlace(root: Node, writes: seq<Write>) {
    forall i :: 0 <= i < |writes| ==> InPlace(root, writes[i])
  }

  lemma PartsInPlace(root: Node, a: seq<Write>, b: seq<Write>)
    requires AllInPlace(root, a + b)
    ensures AllInPlace(root, a) && AllInPlace(root, b)
  {
    hide InPlace;
    forall i | 0 <= i < |a| ensures InPlace(root, a[i]) { assert (a + b)[i] == a[i]; }
    forall i | 0 <= i < |b| ensures InPlace(root, b[i]) { assert (a + b)[|a| + i] == b[i]; }
  }

  lemma {:induction false} InPlacePatches(w: Work, d: nat, t: Target, patches: seq<PatchSpec>, render: string -> Result<string>)
    requires InTree(w.root, [d]) && RunPatches(w, d, patches, render).Ok?
    requires AllInPlace(w.root, PatchWrites(d, t, patches, render))
    ensures SameButEdits(w, RunPatches(w, d, patches, render).value)
    ensures forall p :: p in patches ==> PatchSatisfied(w.root, d, p, render)
    decreases |patches|
  {
    hide Patch, Lookup, Split;
    if patches != [] {
      var value := render(patches[0].template).value;
      var rest := PatchWrites(d, t, patches[1..], render);
      assert patches == [patches[0]] + patches[1..];
      if Blank(value) {
        assert [] + rest == rest;
        InPlacePatches(w, d, t, patches[1..], render);
      } else {
        var path := Split(patches[0].field, '.');
        var x := Write(d, t, path, value);
        PartsInPlace(w.root, [x], rest);
        assert InPlace(w.root, [x][0]);
        WriteInPlace(w, [d], path, value);
        InPlacePatches(Patch(w, [d], path, value).value, d, t, patches[1..], render);
      }
    }
  }

  lemma {:induction false} InPlaceDocs(w: Work, d: nat, t: Target, render: string -> Result<string>)
    requires w.root.Branch? && w.root.kind == SeqKind && d <= |w.root.children| && RunDocs(w, d, t, render).Ok?
    requires AllInPlace(w.root, DocWrites(w, d, t, render))
    ensures SameButEdits(w, RunDocs(w, d, t, render).value.0)
    ensures forall e: nat :: d <= e && InTree(w.root, [e]) ==> DocSatisfied(w.root, e, t, render)
    ensures RunDocs(w, d, t, render).value.1 > 0 ==> SelectsFrom(w.root, d, t)
    decreases |w.root.children| - d
  {
    hide Grows, MatchesTarget, IdentityOf, RunPatches, PatchSatisfied, AllInPlace, PatchWrites;
    if d < |w.root.children| {
      DocInTree(w.root, d);
      if Selects(IdentityOf(w.root.children[d].node), t) {
        var w1 := RunPatches(w, d, t.patches, render).value;
        RunPatchesGrows(w, d, t.patches, render);
        GrowsKeepsDocs(w.root, w1.root, d);
        PartsInPlace(w.root, PatchWrites(d, t, t.patches, render), DocWrites(w1, d + 1, t, render));
        InPlacePatches(w, d, t, t.patches, render);
        InPlaceDocs(w1, d + 1, t, render);
      } else {
        InPlaceDocs(w, d + 1, t, render);
      }
      forall e: nat | d <= e && InTree(w.root, [e]) ensures DocSatisfied(w.root, e, t, render) {
        if e > d { assert d + 1 <= e; }
      }
    }
  }

  lemma {:induction false} InPlaceTargets(w: Work, targets: seq<Target>, render: string -> Result<string>)
    requires w.root.Branch? && w.root.kind == SeqKind && RunTargets(w, targets, render).Ok?
    requires AllInPlace(w.root, TargetWrites(w, targets, render))
    ensures Satisfied(w.root, targets, render)
    decreases |targets|
  {
    hide Grows, RunDocs, DocWrites, AllInPlace, DocSatisfied, SelectsFrom;
    if targets != [] {
      var t := targets[0];
      var w1 := RunDocs(w, 0, t, render).value.0;
      RunDocsGrows(w, 0, t, render);
      GrowsKeepsDocs(w.root, w1.root, 0);
      PartsInPlace(w.root, DocWrites(w, 0, t, render), TargetWrites(w1, targets[1..], render));
      InPlaceDocs(w, 0, t, render);
      InPlaceTargets(w1, targets[1..], render);
      assert targets == [t] + targets[1..];
    }
  }

  /**
   A conflict-free run succeeds and ends with the tree it started from, values and shape, exactly
   when all its targets were satisfied from the start.
   */
  lemma SameTreeIffSatisfied(w: Work, targets: seq<Target>, render: string -> Result<string>)
    requires w.root.Branch? && w.root.kind == SeqKind && ConflictFree(targets, render)
    ensures var r := RunTargets(w, targets, render);
            r.Ok? && Erase(r.value.root) == Erase(w.root) <==> Satisfied(w.root, targets, render)
  {
    hide RunTargets, ConflictFree, Satisfied, TargetWrites, AllAgree, Fold, Erase;
    var r := RunTargets(w, targets, render);
    if Satisfied(w.root, targets, render) { SatisfiedRuns(w, targets, render); }
    if r.Ok? && Erase(r.value.root) == Erase(w.root) {
      ConflictFreeAgrees(w, targets, render);
      TargetsFold(w, targets, render);
      QuietFold(w, TargetWrites(w, targets, render));
      InPlaceTargets(w, targets, render);
    }
  }

  // ----- the text -----

  lemma UnchangedSatisfied(em: Emitter, stream: seq<Doc>, targets: seq<Target>, render: string -> Result<string>, w: Work)
    requires ValidEmitter(em) && DocsWf(stream, true) && OneLineTargets(targets, render) && ConflictFree(targets, render)
    requires RunTargets(StartOf(stream), targets, render) == Ok(w) && ReadyDocs(stream, 0, w)
    requires w.root.Branch? && |stream| <= |w.root.children| && UpdatedDocs(em, stream, 0, w) == stream
    ensures Satisfied(StreamNode(stream), targets, render) && SettledDocs(em, stream, 0, w.edits)
  {
    hide ValidEmitter, DocsWf, ReadyDocs, RunTargets, UpdatedDocs, ConflictFree, OneLineTargets, Satisfied, SettledDocs, PlaceDocs, Erase, Finished, Positioned, Settled;
    var root0 := StreamNode(stream);
    RunFinishes(stream, targets, render, w);
    UpdatedStreamErased(em, w, stream);
    SameTreeIffSatisfied(StartOf(stream), targets, render);
    RepeatsItself(root0, w);
    assert root0.children[0..] == root0.children;
    UpdatedDocsGood(em, root0, w, stream, true, 0, 0, w.edits);
  }

  lemma RepeatsItself(root0: Node, w: Work)
    requires Finished(root0, w)
    ensures Repeats(root0, w, w.edits)
  {
    hide Filled, OneLineWrites;
    forall b | b in w.edits
      ensures InTree(w.root, b) && At(w.root, b).Scalar? && w.edits[b] == At(w.root, b).value
    {
      assert InTree(root0, b) && At(root0, b).Scalar? && Covers(At(root0, b), At(w.root, b), b, w);
    }
  }

  lemma SatisfiedUnchanged(em: Emitter, stream: seq<Doc>, targets: seq<Target>, render: string -> Result<string>, w: Work)
    requires ValidEmitter(em) && DocsWf(stream, true) && Satisfied(StreamNode(stream), targets, render)
    requires RunTargets(StartOf(stream), targets, render) == Ok(w) && SettledDocs(em, stream, 0, w.edits)
    ensures w.root.Branch? && |stream| <= |w.root.children| && UpdatedDocs(em, stream, 0, w) == stream
    ensures ReadyDocs(stream, 0, w) && !HasBlockEdit(w)
  {
    hide ValidEmitter, DocsWf, ReadyDocs, RunTargets, UpdatedDocs, Satisfied, SettledDocs, PlaceDocs, Positioned, Sound;
    var root0 := StreamNode(stream);
    SatisfiedRuns(StartOf(stream), targets, render);
    StreamSound(stream);
    RunTargetsSound(root0, StartOf(stream), targets, render);
    SoundOverlaid(root0, w);
    assert root0.children[0..] == root0.children;
    SettledDocsStay(em, root0, w, stream, true, 0, 0);
    ReadyHasNoBlock(stream, w);
  }

  lemma SoundOverlaid(root0: Node, w: Work)
    requires Sound(root0, w)
    ensures Overlaid(root0, w)
  {
  }

  lemma ReadyHasNoBlock(stream: seq<Doc>, w: Work)
    requires ReadyDocs(stream, 0, w) && Overlaid(StreamNode(stream), w)
    ensures !HasBlockEdit(w)
  {
    hide ReadyDocs, PlaceDocs;
    assert StreamNode(stream).children[0..] == StreamNode(stream).children;
    forall b | b in w.edits
      ensures InTree(w.root, b) && At(w.root, b).Scalar? && !IsBlock(At(w.root, b).style)
    {
      assert InTree(StreamNode(stream), b) && b != [];
      DocsNotBlock(stream, 0, 0, w, StreamNode(stream), b);
    }
  }

  /**
   The fixed points of UpdateManifest. For conflict-free targets, and any patches, it succeeds and
   leaves the layout as it is if and only if every target selects some document, every document a
   target selects reads the target's values already, and spells them as a rendering would.
   */
  lemma UnchangedIffSatisfied(em: Emitter, stream: seq<Doc>, targets: seq<Target>, render: string -> Result<string>)
    requires ValidEmitter(em) && DocsWf(stream, true) && OneLineTargets(targets, render) && ConflictFree(targets, render)
    requires var run := RunTargets(StartOf(stream), targets, render);
             run.Ok? && !HasBlockEdit(run.value) ==> ReadyDocs(stream, 0, run.value)
    ensures var run := RunTargets(StartOf(stream), targets, render);
            && (run.Ok? && !HasBlockEdit(run.value) && run.value.root.Branch? && |stream| <= |run.value.root.children|
                && UpdatedDocs(em, stream, 0, run.value) == stream
                <==> Satisfied(StreamNode(stream), targets, render) && run.Ok? && SettledDocs(em, stream, 0, run.value.edits))
            && (Satisfied(StreamNode(stream), targets, render) ==> run.Ok?)
  {
    hide ValidEmitter, DocsWf, ReadyDocs, RunTargets, UpdatedDocs, ConflictFree, OneLineTargets, Satisfied, SettledDocs, HasBlockEdit;
    var run := RunTargets(StartOf(stream), targets, render);
    if Satisfied(StreamNode(stream), targets, render) { SatisfiedRuns(StartOf(stream), targets, render); }
    if run.Ok? {
      if Satisfied(StreamNode(stream), targets, render) && SettledDocs(em, stream, 0, run.value.edits) {
        SatisfiedUnchanged(em, stream, targets, render, run.value);
      }
      if !HasBlockEdit(run.value) && run.value.root.Branch? && |stream| <= |run.value.root.children|
         && UpdatedDocs(em, stream, 0, run.value) == stream {
        UnchangedSatisfied(em, stream, targets, render, run.value);
      }
    }
  }
}
