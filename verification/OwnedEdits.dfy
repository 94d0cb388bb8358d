/**
 The manifest editor as the edit that Apply pushes, and the fields updaters own in it. This joins
 the editor to the branch protocol: repeated edits change nothing, and an updater whose targets
 avoid the fields of the others is confined to its own.
 */
module OwnedEdits {
  import opened Basics
  import opened Text
  import opened Scan
  import opened Nodes
  import opened Insertion
  import opened Documents
  import opened Manifest
  import opened Identities
  import opened Shapes
  import opened Rerun
  import opened Idempotence
  import opened Editor
  import opened FieldOwners
  import opened FixedPoint
  import G = GitBranch
  import M = MultiWriter
  import R = Rollout
  import W = WriteShortcut

  // ----- UpdateManifest as an edit -----

  /** The layout the decoder reads in a manifest, when it is one the theorems cover. */
  type Reader = string -> Option<seq<Doc>>

  ghost predicate ValidReader(read: Reader) {
    forall text :: read(text).Some? ==> DocsWf(read(text).value, true) && text == Joined(StreamLines(read(text).value))
  }

  predicate Counted(stream: seq<Doc>, w: Work) {
    w.root.Branch? && |stream| <= |w.root.children|
  }

  /** The text UpdateManifest makes of a manifest, or None for its errors. */
  ghost function Edited(em: Emitter, read: Reader, targets: seq<Target>, render: string -> Result<string>, text: string): Option<string> {
    match read(text)
    case None => None
    case Some(stream) =>
      match RunTargets(StartOf(stream), targets, render)
      case Err(_) => None
      case Ok(w) => if HasBlockEdit(w) || !Counted(stream, w) then None else Some(UpdatedText(em, stream, w))
  }

  ghost function EditOf(em: Emitter, read: Reader, targets: seq<Target>, render: string -> Result<string>): G.Edit {
    text => Edited(em, read, targets, render, text)
  }

  /** On every manifest read, the run stays inside the premises and its output reads back as what was laid out. */
  ghost predicate InScope(em: Emitter, read: Reader, targets: seq<Target>, render: string -> Result<string>) {
    forall text :: read(text).Some? ==> InScopeAt(em, read, targets, render, text)
  }

  ghost predicate InScopeAt(em: Emitter, read: Reader, targets: seq<Target>, render: string -> Result<string>, text: string)
    requires read(text).Some?
  {
    var stream := read(text).value;
    match RunTargets(StartOf(stream), targets, render)
    case Err(_) => true
    case Ok(w) => !HasBlockEdit(w) && Counted(stream, w) ==>
        Workable(em, text, stream, w) && read(UpdatedText(em, stream, w)) == Some(UpdatedDocs(em, stream, 0, w))
  }

  /** The editor computes exactly this edit. */
  method EditManifest(decode: string -> Result<seq<Node>>, em: Emitter, render: string -> Result<string>,
                      input: string, targets: seq<Target>, ghost read: Reader) returns (r: Result<(string, bool)>)
    requires ValidEmitter(em) && ValidReader(read) && InScope(em, read, targets, render)
    requires decode(input).Ok? <==> read(input).Some?
    requires decode(input).Ok? ==> Describes(decode(input).value, input, read(input).value)
    ensures r.Ok? ==> EditOf(em, read, targets, render)(input) == Some(r.value.0) && r.value.1 == (r.value.0 != input)
    ensures r.Err? ==> EditOf(em, read, targets, render)(input) == None
  {
    hide ValidEmitter, RunTargets, HasBlockEdit, Workable, Describes, DescribedBy, DocsWf, Rewrites, ReadyDocs, PointsApart, UpdatedText,
         UpdatedDocs, TextOf, Arrives;
    ghost var stream := if read(input).Some? then read(input).value else [];
    if decode(input).Ok? {
      assert InScopeAt(em, read, targets, render, input);
      CountedRun(stream, targets, render);
      Terminated(decode(input).value, input, stream);
      WorkableParts(em, stream, targets, render, input);
    }
    r := UpdateManifest(decode, em, render, input, targets, stream);
    if r.Ok? { TerminatedRewrites(em, stream, RunTargets(StartOf(stream), targets, render).value, input, r.value.0); }
  }

  lemma WorkableParts(em: Emitter, stream: seq<Doc>, targets: seq<Target>, render: string -> Result<string>, text: string)
    ensures var run := RunTargets(StartOf(stream), targets, render);
            run.Ok? && Workable(em, text, stream, run.value) ==> ReadyDocs(stream, 0, run.value) && PointsApart(em, text, run.value)
  {
  }

  lemma CountedRun(stream: seq<Doc>, targets: seq<Target>, render: string -> Result<string>)
    requires DocsWf(stream, true)
    ensures var run := RunTargets(StartOf(stream), targets, render); run.Ok? ==> Counted(stream, run.value)
  {
    hide RunTargets, DocsWf;
    var run := RunTargets(StartOf(stream), targets, render);
    if run.Ok? {
      RunTargetsGrows(StartOf(stream), targets, render);
      GrowsKeepsDocs(StreamNode(stream), run.value.root, 0);
    }
  }

  /** Editing an edited manifest again changes nothing. */
  lemma EditTwice(em: Emitter, read: Reader, targets: seq<Target>, render: string -> Result<string>, x: string, y: string)
    requires ValidEmitter(em) && ValidReader(read) && InScope(em, read, targets, render) && Repeatable(targets, render)
    requires EditOf(em, read, targets, render)(x) == Some(y)
    ensures EditOf(em, read, targets, render)(y) == Some(y)
  {
    hide ValidEmitter, RunTargets, HasBlockEdit, UpdatedDocs, ReadyDocs, DocsWf, Repeatable, PointsApart, Joined, StreamLines;
    var stream := read(x).value;
    assert InScopeAt(em, read, targets, render, x);
    var w := RunTargets(StartOf(stream), targets, render).value;
    UpdateIsIdempotent(em, stream, targets, render, w);
    var stream' := UpdatedDocs(em, stream, 0, w);
    var again := RunTargets(StartOf(stream'), targets, render).value;
    RepeatableOneLine(targets, render);
    RerunNotBlocked(em, stream, targets, render, w, again);
  }

  /**
   For any conflict-free targets, patches of names and labels included: an edit leaves a manifest as
   it is if and only if every target selects some document of it, and every document a target
   selects already reads, and spells, the target's values. So an edited manifest is left alone by a
   second edit exactly when that holds of it.
   */
  lemma EditUnchangedIff(em: Emitter, read: Reader, targets: seq<Target>, render: string -> Result<string>, x: string)
    requires ValidEmitter(em) && ValidReader(read) && InScope(em, read, targets, render)
    requires OneLineTargets(targets, render) && ConflictFree(targets, render) && read(x).Some?
    ensures var stream := read(x).value;
            var run := RunTargets(StartOf(stream), targets, render);
            EditOf(em, read, targets, render)(x) == Some(x)
            <==> Satisfied(StreamNode(stream), targets, render) && run.Ok? && SettledDocs(em, stream, 0, run.value.edits)
  {
    hide ValidEmitter, RunTargets, HasBlockEdit, UpdatedDocs, ReadyDocs, DocsWf, OneLineTargets, ConflictFree, PointsApart, Joined, StreamLines,
         Satisfied, SettledDocs;
    var stream := read(x).value;
    assert InScopeAt(em, read, targets, render, x);
    CountedRun(stream, targets, render);
    UnchangedIffSatisfied(em, stream, targets, render);
  }

  lemma RepeatableOneLine(targets: seq<Target>, render: string -> Result<string>)
    requires Repeatable(targets, render)
    ensures OneLineTargets(targets, render)
    ensures forall t :: t in targets ==> SafePatches(t.patches)
  {
  }

  /**
   So a specification whose edits are UpdateManifest has the idempotent edits the shortcut and the
   retries need, when the releases it can come to write are rendered on one line each.
   */
  lemma SpecEditsIdempotent(f: W.Fixed, gen: int, em: Emitter, read: Reader, targets: seq<Target>,
                            render: map<string, string> -> string -> Result<string>)
    requires ValidEmitter(em) && ValidReader(read)
    requires forall tag, d :: W.Writable(f, gen, tag, d) ==>
               var data := W.DataOf(f, gen, tag, d);
               && InScope(em, read, targets, render(data)) && Repeatable(targets, render(data))
               && f.spec(gen).edit(data) == EditOf(em, read, targets, render(data))
    ensures W.IdempotentEdits(f, gen)
  {
    hide Edited, InScope, Repeatable, ValidEmitter, ValidReader, W.DataOf, R.ValidDigest;
    forall tag, d | W.Writable(f, gen, tag, d)
      ensures W.Idempotent(f.spec(gen).edit(W.DataOf(f, gen, tag, d)))
    {
      var data := W.DataOf(f, gen, tag, d);
      forall x: string, y: string | f.spec(gen).edit(data)(x) == Some(y) ensures f.spec(gen).edit(data)(y) == Some(y) {
        EditTwice(em, read, targets, render(data), x, y);
      }
    }
  }

  // ----- fields and their owners -----

  /** No document is selected by both. */
  ghost predicate Apart(t: Target, u: Target) {
    forall id :: !(Selects(id, t) && Selects(id, u))
  }

  function FirstSelected(root: Node, d: nat, t: Target): (r: Option<nat>)
    requires root.Branch? && d <= |root.children|
    ensures r.Some? ==> d <= r.value < |root.children|
    decreases |root.children| - d
  {
    if d == |root.children| then None
    else if Selects(IdentityOf(root.children[d].node), t) then Some(d)
    else FirstSelected(root, d + 1, t)
  }

  /** A field: a path in the first document a target selects. */
  datatype FieldClaim = FieldClaim(target: Target, path: seq<string>)

  function FieldIn(root: Node, f: FieldClaim): Option<string>
    requires root.Branch?
  {
    match FirstSelected(root, 0, f.target)
    case None => None
    case Some(d) =>
      DocInTree(root, d);
      Lookup(root, [d], f.path)
  }

  function FieldAt(read: Reader, f: FieldClaim, text: string): Option<string> {
    match read(text)
    case None => None
    case Some(stream) => FieldIn(StreamNode(stream), f)
  }

  lemma {:induction false} SameFirst(x: Node, y: Node, d: nat, t: Target)
    requires x.Branch? && y.Branch? && |x.children| == |y.children| && d <= |x.children| && KeepsIdentities(x, y)
    ensures FirstSelected(x, d, t) == FirstSelected(y, d, t)
    decreases |x.children| - d
  {
    hide IdentityOf;
    if d < |x.children| {
      DocInTree(x, d);
      DocInTree(y, d);
      SameFirst(x, y, d + 1, t);
    }
  }

  /** Every target of the updater keeps away from the field: other paths, or other documents. */
  ghost predicate Spares(targets: seq<Target>, f: FieldClaim) {
    forall t :: t in targets ==> Avoids(t.patches, f.path) || Apart(t, f.target)
  }

  /** The updater writes the field, to this value, and does not overwrite it afterwards. */
  ghost predicate WritesField(targets: seq<Target>, render: string -> Result<string>, f: FieldClaim, value: string) {
    exists j: nat, i: nat ::
      && j < |targets| && i < |targets[j].patches|
      && targets[j].(patches := []) == f.target.(patches := [])
      && Split(targets[j].patches[i].field, '.') == f.path
      && render(targets[j].patches[i].template) == Ok(value) && !Blank(value)
      && Avoids(targets[j].patches[i + 1..], f.path)
      && Spares(targets[j + 1..], f)
  }

  // ----- a run spares what it does not own -----

  lemma {:induction false} RunDocsSpare(w: Work, d: nat, t: Target, render: string -> Result<string>, e: nat, q: seq<string>)
    requires w.root.Branch? && w.root.kind == SeqKind && d <= |w.root.children|
    requires SafePatches(t.patches) && RunDocs(w, d, t, render).Ok?
    requires InTree(w.root, [e]) && Lookup(w.root, [e], q).Some?
    requires e < d || Avoids(t.patches, q) || !Selects(IdentityOf(At(w.root, [e])), t)
    ensures InTree(RunDocs(w, d, t, render).value.0.root, [e])
    ensures Lookup(RunDocs(w, d, t, render).value.0.root, [e], q) == Lookup(w.root, [e], q)
    decreases |w.root.children| - d
  {
    hide KeepsIdentities, Grows, RunPatches, MatchesTarget, IdentityOf, SafePatches, Lookup, Avoids;
    if d < |w.root.children| {
      DocInTree(w.root, d);
      if MatchesTarget(IdentityOf(w.root.children[d].node), t).value {
        var w1 := RunPatches(w, d, t.patches, render).value;
        RunPatchesGrows(w, d, t.patches, render);
        GrowsKeepsDocs(w.root, w1.root, d);
        MatchedHasMetadata(IdentityOf(w.root.children[d].node), t);
        RunPatchesKeep(w, d, t.patches, render);
        KeptIdentities(w.root, w1.root);
        SameIdentitiesAt(w.root, w1.root, e);
        RunPatchesAvoid(w, d, t.patches, render, e, q);
        RunDocsSpare(w1, d + 1, t, render, e, q);
      } else {
        RunDocsSpare(w, d + 1, t, render, e, q);
      }
    }
  }

  lemma {:induction false} RunTargetsSpare(w: Work, targets: seq<Target>, render: string -> Result<string>, e: nat, f: FieldClaim)
    requires w.root.Branch? && w.root.kind == SeqKind && RunTargets(w, targets, render).Ok?
    requires Spares(targets, f) && forall t :: t in targets ==> SafePatches(t.patches)
    requires InTree(w.root, [e]) && Lookup(w.root, [e], f.path).Some? && Selects(IdentityOf(At(w.root, [e])), f.target)
    ensures InTree(RunTargets(w, targets, render).value.root, [e])
    ensures Lookup(RunTargets(w, targets, render).value.root, [e], f.path) == Lookup(w.root, [e], f.path)
    decreases |targets|
  {
    hide KeepsIdentities, Grows, RunDocs, SafePatches, IdentityOf, Lookup, Avoids, MatchesTarget;
    if targets != [] {
      var t := targets[0];
      assert t in targets;
      var w1 := RunDocs(w, 0, t, render).value.0;
      RunDocsGrows(w, 0, t, render);
      GrowsKeepsDocs(w.root, w1.root, 0);
      RunDocsKeep(w, 0, t, render);
      KeptIdentities(w.root, w1.root);
      SameIdentitiesAt(w.root, w1.root, e);
      RunDocsSpare(w, 0, t, render, e, f.path);
      RunTargetsSpare(w1, targets[1..], render, e, f);
    }
  }

  // ----- a run writes what it owns -----

  lemma {:induction false} RunDocsSet(w: Work, d: nat, t: Target, render: string -> Result<string>, e: nat, i: nat)
    requires w.root.Branch? && w.root.kind == SeqKind && d <= e < |w.root.children|
    requires SafePatches(t.patches) && RunDocs(w, d, t, render).Ok?
    requires Selects(IdentityOf(w.root.children[e].node), t)
    requires i < |t.patches| && render(t.patches[i].template).Ok? && !Blank(render(t.patches[i].template).value)
    requires Avoids(t.patches[i + 1..], Split(t.patches[i].field, '.'))
    ensures InTree(RunDocs(w, d, t, render).value.0.root, [e])
    ensures Lookup(RunDocs(w, d, t, render).value.0.root, [e], Split(t.patches[i].field, '.'))
            == Some(render(t.patches[i].template).value)
    decreases |w.root.children| - d
  {
    hide KeepsIdentities, Grows, RunPatches, MatchesTarget, IdentityOf, SafePatches, Lookup, Avoids;
    DocInTree(w.root, d);
    DocInTree(w.root, e);
    if MatchesTarget(IdentityOf(w.root.children[d].node), t).value {
      var w1 := RunPatches(w, d, t.patches, render).value;
      RunPatchesGrows(w, d, t.patches, render);
      GrowsKeepsDocs(w.root, w1.root, d);
      MatchedHasMetadata(IdentityOf(w.root.children[d].node), t);
      RunPatchesKeep(w, d, t.patches, render);
      KeptIdentities(w.root, w1.root);
      SameIdentitiesAt(w.root, w1.root, e);
      DocInTree(w1.root, e);
      if d == e {
        RunPatchesSet(w, d, t.patches, render, i);
        RunDocsSpare(w1, d + 1, t, render, e, Split(t.patches[i].field, '.'));
      } else {
        RunDocsSet(w1, d + 1, t, render, e, i);
      }
    } else {
      RunDocsSet(w, d + 1, t, render, e, i);
    }
  }

  /** A target that matched anything selected some document of the stream it started from. */
  lemma {:induction false} RunDocsMatched(w: Work, d: nat, t: Target, render: string -> Result<string>)
    requires w.root.Branch? && w.root.kind == SeqKind && d <= |w.root.children|
    requires SafePatches(t.patches) && RunDocs(w, d, t, render).Ok?
    ensures RunDocs(w, d, t, render).value.1 > 0 ==> FirstSelected(w.root, d, t).Some?
    decreases |w.root.children| - d
  {
    hide KeepsIdentities, Grows, RunPatches, IdentityOf, SafePatches;
    if d < |w.root.children| {
      if !MatchesTarget(IdentityOf(w.root.children[d].node), t).value {
        RunDocsMatched(w, d + 1, t, render);
      }
    }
  }

  lemma {:induction false} SameCriteria(root: Node, d: nat, t: Target, u: Target)
    requires root.Branch? && d <= |root.children| && t.(patches := []) == u.(patches := [])
    ensures FirstSelected(root, d, t) == FirstSelected(root, d, u)
    ensures forall id :: Selects(id, t) <==> Selects(id, u)
    decreases |root.children| - d
  {
    hide IdentityOf;
    SameMatches(t, u);
    if d < |root.children| { SameCriteria(root, d + 1, t, u); }
  }

  lemma SameMatches(t: Target, u: Target)
    requires t.(patches := []) == u.(patches := [])
    ensures forall id :: Selects(id, t) <==> Selects(id, u)
  {
    assert t.apiVersion == u.apiVersion && t.kind == u.kind && t.name == u.name && t.namespace == u.namespace && t.selector == u.selector;
  }

  lemma {:induction false} FirstIsSelected(root: Node, d: nat, t: Target)
    requires root.Branch? && d <= |root.children|
    ensures var first := FirstSelected(root, d, t); first.Some? ==> Selects(IdentityOf(root.children[first.value].node), t)
    decreases |root.children| - d
  {
    hide IdentityOf;
    if d < |root.children| { FirstIsSelected(root, d + 1, t); }
  }

  /** The first document the target selects ends the run with the owned value in its field. */
  lemma {:induction false} RunTargetsSet(w: Work, targets: seq<Target>, render: string -> Result<string>, f: FieldClaim, value: string, j: nat, i: nat)
    requires w.root.Branch? && w.root.kind == SeqKind && RunTargets(w, targets, render).Ok?
    requires forall t :: t in targets ==> SafePatches(t.patches)
    requires j < |targets| && i < |targets[j].patches| && targets[j].(patches := []) == f.target.(patches := [])
    requires Split(targets[j].patches[i].field, '.') == f.path
    requires render(targets[j].patches[i].template) == Ok(value) && !Blank(value)
    requires Avoids(targets[j].patches[i + 1..], f.path) && Spares(targets[j + 1..], f)
    ensures var e := FirstSelected(w.root, 0, f.target);
            && e.Some? && InTree(RunTargets(w, targets, render).value.root, [e.value])
            && Lookup(RunTargets(w, targets, render).value.root, [e.value], f.path) == Some(value)
    decreases |targets|
  {
    hide KeepsIdentities, Grows, RunDocs, SafePatches, IdentityOf, Lookup, Avoids, MatchesTarget, Split, Selects;
    var t := targets[0];
    assert t in targets;
    var w1 := RunDocs(w, 0, t, render).value.0;
    RunDocsGrows(w, 0, t, render);
    GrowsKeepsDocs(w.root, w1.root, 0);
    RunDocsKeep(w, 0, t, render);
    SameFirst(w.root, w1.root, 0, f.target);
    if j == 0 {
      RunDocsMatched(w, 0, t, render);
      SameCriteria(w.root, 0, t, f.target);
      FirstIsSelected(w.root, 0, t);
      var e := FirstSelected(w.root, 0, t).value;
      DocInTree(w.root, e);
      RunDocsSet(w, 0, t, render, e, i);
      KeptIdentities(w.root, w1.root);
      SameIdentitiesAt(w.root, w1.root, e);
      RunTargetsSpare(w1, targets[1..], render, e, f);
    } else {
      assert targets[1..][j - 1] == targets[j] && targets[1..][j..] == targets[j + 1..];
      RunTargetsSet(w1, targets[1..], render, f, value, j - 1, i);
    }
  }

  // ----- the same, on text -----

  /** The decoded output has the documents, identities and fields of the finished run. */
  lemma DecodedRun(em: Emitter, stream: seq<Doc>, targets: seq<Target>, render: string -> Result<string>, w: Work)
    requires ValidEmitter(em) && DocsWf(stream, true) && Repeatable(targets, render)
    requires RunTargets(StartOf(stream), targets, render) == Ok(w) && ReadyDocs(stream, 0, w)
    ensures Counted(stream, w) && |w.root.children| == |stream| && w.root.kind == SeqKind
    ensures KeepsIdentities(StreamNode(stream), w.root)
    ensures var root' := StreamNode(UpdatedDocs(em, stream, 0, w));
            && |root'.children| == |stream| && KeepsIdentities(w.root, root')
            && forall e: nat, q :: InTree(w.root, [e]) ==> InTree(root', [e]) && Lookup(root', [e], q) == Lookup(w.root, [e], q)
  {
    hide ValidEmitter, RunTargets, UpdatedDocs, ReadyDocs, DocsWf, SafePatches, OneLineTargets, Finished, IdentityOf, IsMapping, Lookup, Erase, PlaceDocs, Alike;
    RunFinishes(stream, targets, render, w);
    RunTargetsGrows(StartOf(stream), targets, render);
    GrowsKeepsDocs(StreamNode(stream), w.root, 0);
    RunTargetsKeep(StartOf(stream), targets, render);
    UpdatedStreamErased(em, w, stream);
    var root' := StreamNode(UpdatedDocs(em, stream, 0, w));
    forall e: nat | InTree(w.root, [e]) || InTree(root', [e])
      ensures InTree(w.root, [e]) && InTree(root', [e])
      ensures IdentityOf(At(w.root, [e])) == IdentityOf(At(root', [e])) && IsMapping(At(w.root, [e])) == IsMapping(At(root', [e]))
    {
      SameErased(w.root, root', [e]);
    }
    forall e: nat, q | InTree(w.root, [e]) ensures InTree(root', [e]) && Lookup(root', [e], q) == Lookup(w.root, [e], q) {
      UpdatedFieldRead(em, stream, w, e, q);
    }
    ErasedCount(w.root, root');
  }

  lemma ErasedCount(x: Node, y: Node)
    requires Erase(x) == Erase(y) && x.Branch? && y.Branch?
    ensures |x.children| == |y.children|
  {
  }

  lemma EditWrites(em: Emitter, read: Reader, targets: seq<Target>, render: string -> Result<string>, x: string, y: string,
                   f: FieldClaim, value: string)
    requires ValidEmitter(em) && ValidReader(read) && InScope(em, read, targets, render) && Repeatable(targets, render)
    requires EditOf(em, read, targets, render)(x) == Some(y) && WritesField(targets, render, f, value)
    ensures FieldAt(read, f, y) == Some(value)
  {
    hide ValidEmitter, RunTargets, HasBlockEdit, UpdatedDocs, ReadyDocs, DocsWf, Repeatable, PointsApart, Joined, StreamLines,
         KeepsIdentities, Lookup, Avoids, Split, Spares, PlaceDocs;
    var stream := read(x).value;
    assert InScopeAt(em, read, targets, render, x);
    var w := RunTargets(StartOf(stream), targets, render).value;
    RepeatableOneLine(targets, render);
    DecodedRun(em, stream, targets, render, w);
    var j: nat, i: nat :|
      && j < |targets| && i < |targets[j].patches|
      && targets[j].(patches := []) == f.target.(patches := [])
      && Split(targets[j].patches[i].field, '.') == f.path
      && render(targets[j].patches[i].template) == Ok(value) && !Blank(value)
      && Avoids(targets[j].patches[i + 1..], f.path)
      && Spares(targets[j + 1..], f);
    RunTargetsSet(StartOf(stream), targets, render, f, value, j, i);
    var root' := StreamNode(UpdatedDocs(em, stream, 0, w));
    SameFirst(StreamNode(stream), w.root, 0, f.target);
    SameFirst(w.root, root', 0, f.target);
  }

  lemma EditSpares(em: Emitter, read: Reader, targets: seq<Target>, render: string -> Result<string>, x: string, y: string, f: FieldClaim)
    requires ValidEmitter(em) && ValidReader(read) && InScope(em, read, targets, render) && Repeatable(targets, render)
    requires EditOf(em, read, targets, render)(x) == Some(y) && Spares(targets, f) && FieldAt(read, f, x).Some?
    ensures FieldAt(read, f, y) == FieldAt(read, f, x)
  {
    hide ValidEmitter, RunTargets, HasBlockEdit, UpdatedDocs, ReadyDocs, DocsWf, Repeatable, PointsApart, Joined, StreamLines,
         KeepsIdentities, Lookup, Avoids, Spares, PlaceDocs;
    var stream := read(x).value;
    assert InScopeAt(em, read, targets, render, x);
    var w := RunTargets(StartOf(stream), targets, render).value;
    RepeatableOneLine(targets, render);
    DecodedRun(em, stream, targets, render, w);
    var root0, root' := StreamNode(stream), StreamNode(UpdatedDocs(em, stream, 0, w));
    SameFirst(root0, w.root, 0, f.target);
    SameFirst(w.root, root', 0, f.target);
    FirstIsSelected(root0, 0, f.target);
    var e := FirstSelected(root0, 0, f.target).value;
    DocInTree(root0, e);
    RunTargetsSpare(StartOf(stream), targets, render, e, f);
  }

  // ----- several updaters on one branch -----

  /** One Apply call of an updater: its targets, and its templates rendered with one release's data. */
  datatype Call = Call(targets: seq<Target>, render: string -> Result<string>)

  /** Owner o claims fields(o); a call writes its owner's field and spares the fields of all others. */
  ghost predicate Owns(call: Call, owner: nat, fields: nat -> FieldClaim, value: string) {
    && WritesField(call.targets, call.render, fields(owner), value)
    && forall o: nat :: o != owner ==> Spares(call.targets, fields(o))
  }

  function FieldsOf(read: Reader, path: string, fields: nat -> FieldClaim, value: nat -> string): M.Fields {
    M.Fields(path, (o: nat, text: string) => FieldAt(read, fields(o), text), value)
  }

  lemma CallConfined(em: Emitter, read: Reader, call: Call, path: string, owner: nat, fields: nat -> FieldClaim, value: nat -> string, i: nat)
    requires ValidEmitter(em) && ValidReader(read) && InScope(em, read, call.targets, call.render) && Repeatable(call.targets, call.render)
    requires Owns(call, owner, fields, value(i))
    ensures M.Confined(owner, path, EditOf(em, read, call.targets, call.render), i, FieldsOf(read, path, fields, value))
  {
    hide ValidEmitter, ValidReader, InScope, Repeatable, WritesField, Spares, FieldAt, Edited;
    var edit, f := EditOf(em, read, call.targets, call.render), FieldsOf(read, path, fields, value);
    forall c: string | edit(c).Some?
      ensures f.look(owner, edit(c).value) == Some(f.value(i))
      ensures forall o: nat :: o != owner && f.look(o, c).Some? ==> f.look(o, edit(c).value) == f.look(o, c)
    {
      EditWrites(em, read, call.targets, call.render, c, edit(c).value, fields(owner), value(i));
      forall o: nat | o != owner && f.look(o, c).Some? ensures f.look(o, edit(c).value) == f.look(o, c) {
        EditSpares(em, read, call.targets, call.render, c, edit(c).value, fields(o));
      }
    }
  }

  /**
   Disjoint owners compose, for the editor itself. Any number of updaters run Apply on one
   manifest, interleaved in any way, while outsiders leave the owned fields alone. Whenever an
   owner's last call has succeeded, its field on the tip reads the value that call rendered.
   */
  lemma UpdatersCompose(em: Emitter, read: Reader, calls: seq<Call>, path: string, fields: nat -> FieldClaim, value: nat -> string,
                        s: M.System, events: seq<M.Event>, i: nat)
    requires ValidEmitter(em) && ValidReader(read) && M.Start(s) && |calls| == |s.procs| && i < |s.procs|
    requires forall k :: 0 <= k < |calls| ==>
               && InScope(em, read, calls[k].targets, calls[k].render) && Repeatable(calls[k].targets, calls[k].render)
               && Owns(calls[k], s.procs[k].owner, fields, value(k))
               && s.procs[k].path == path && s.procs[k].edit == EditOf(em, read, calls[k].targets, calls[k].render)
    requires M.PoliteRun(s, events, FieldsOf(read, path, fields, value))
    ensures var s' := M.Run(s, events);
            && |s'.procs| == |s.procs| && s'.log != []
            && (s'.procs[i].st.Done? && s'.procs[i].st.result.Applied?
                && M.Undisturbed(s', s'.procs[i].owner, s'.procs[i].st.result.index, G.Tip(s'.log)) ==>
                  && path in s'.log[G.Tip(s'.log)].files
                  && FieldAt(read, fields(s'.procs[i].owner), s'.log[G.Tip(s'.log)].files[path]) == Some(value(i)))
  {
    hide ValidEmitter, ValidReader, InScope, Repeatable, Owns, FieldAt, Edited, M.Start, M.PoliteRun, M.Confined, M.Run;
    var f := FieldsOf(read, path, fields, value);
    forall k | 0 <= k < |s.procs| ensures M.Confined(s.procs[k].owner, s.procs[k].path, s.procs[k].edit, k, f) {
      CallConfined(em, read, calls[k], path, s.procs[k].owner, fields, value, k);
    }
    M.DisjointOwnersCompose(s, events, f, i);
  }
}
