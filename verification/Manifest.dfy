/**
 The surgical manifest editor. Decoding, template rendering and label selection belong to
 libraries and appear as functions; the editor's own work is to find the target documents, walk
 to the fields, record token edits and insertions, and splice them into the original bytes.
 */
module Manifest {
  import opened Basics
  import opened Text
  import opened Nodes
  import opened Overlay
  import opened Insertion
  import opened Layout
  import opened Documents

  datatype PatchSpec = PatchSpec(field: string, template: string)

  datatype Selector = NoSelector | BadSelector | Labels(matches: map<string, string> -> bool)

  datatype Target = Target(apiVersion: string, kind: string, name: string, namespace: string,
                           selector: Selector, patches: seq<PatchSpec>)

  // ----- which documents a target means -----

  function MapGet(n: Node, key: string): Option<Node> {
    if n.Branch? && n.kind == MapKind && IndexOf(n.children, key).Some? then
      IndexOfFirst(n.children, key);
      Some(n.children[IndexOf(n.children, key).value].node)
    else None
  }

  function ScalarAt(n: Node, key: string): string {
    match MapGet(n, key)
    case Some(Scalar(v, _, _, _)) => v
    case _ => ""
  }

  function LabelSet(children: seq<Child>): map<string, string> {
    if children == [] then map[]
    else
      var last := |children| - 1;
      LabelSet(children[..last])[children[last].key :=
        if children[last].node.Scalar? then children[last].node.value else ""]
  }

  function LabelsOf(metadata: Node): map<string, string> {
    match MapGet(metadata, "labels")
    case Some(Branch(MapKind, children, _)) => LabelSet(children)
    case _ => map[]
  }

  /** Everything matchesTarget reads of a document. */
  datatype Identity = Identity(apiVersion: string, kind: string, hasMetadata: bool, name: string, namespace: string,
                               labels: map<string, string>)

  function IdentityOf(root: Node): Identity {
    match MapGet(root, "metadata")
    case None => Identity(ScalarAt(root, "apiVersion"), ScalarAt(root, "kind"), false, "", "", map[])
    case Some(m) => Identity(ScalarAt(root, "apiVersion"), ScalarAt(root, "kind"), true,
                             ScalarAt(m, "name"), ScalarAt(m, "namespace"), LabelsOf(m))
  }

  function MatchesTarget(id: Identity, t: Target): Result<bool> {
    if id.apiVersion != t.apiVersion || id.kind != t.kind || !id.hasMetadata then Ok(false)
    else if t.name != "" && id.name != t.name then Ok(false)
    else if t.namespace != "" && id.namespace != t.namespace then Ok(false)
    else
      match t.selector
      case NoSelector => Ok(t.name != "")
      case BadSelector => Err("target selector")
      case Labels(matches) => Ok(matches(id.labels))
  }

  predicate Selects(id: Identity, t: Target) {
    MatchesTarget(id, t) == Ok(true)
  }

  predicate IsMapping(n: Node) {
    n.Branch? && n.kind == MapKind
  }

  // ----- the run over targets, documents and patches -----

  lemma DocInTree(root: Node, d: nat)
    requires root.Branch? && d < |root.children|
    ensures InTree(root, [d]) && At(root, [d]) == root.children[d].node
  {
    assert [d][1..] == [];
  }

  function RunPatches(w: Work, d: nat, patches: seq<PatchSpec>, render: string -> Result<string>): Result<Work>
    requires InTree(w.root, [d])
    decreases |patches|
  {
    if patches == [] then Ok(w)
    else
      match render(patches[0].template)
      case Err(m) => Err(m)
      case Ok(value) =>
        if Blank(value) then RunPatches(w, d, patches[1..], render)
        else
          match Patch(w, [d], Split(patches[0].field, '.'), value)
          case Err(m) => Err(m)
          case Ok(w') =>
            PatchPutGet(w, [d], Split(patches[0].field, '.'), value);
            RunPatches(w', d, patches[1..], render)
  }

  lemma {:induction false} RunPatchesGrows(w: Work, d: nat, patches: seq<PatchSpec>, render: string -> Result<string>)
    requires InTree(w.root, [d]) && RunPatches(w, d, patches, render).Ok?
    ensures Grows(w.root, RunPatches(w, d, patches, render).value.root)
    decreases |patches|
  {
    if patches == [] {
      GrowsReflexive(w.root);
    } else {
      var value := render(patches[0].template).value;
      if Blank(value) {
        RunPatchesGrows(w, d, patches[1..], render);
      } else {
        var path := Split(patches[0].field, '.');
        PatchPutGet(w, [d], path, value);
        var w' := Patch(w, [d], path, value).value;
        RunPatchesGrows(w', d, patches[1..], render);
        GrowsTransitive(w.root, w'.root, RunPatches(w', d, patches[1..], render).value.root);
      }
    }
  }

  lemma GrowsKeepsDocs(root: Node, root': Node, d: nat)
    requires Grows(root, root') && root.Branch? && root.kind == SeqKind && d <= |root.children|
    ensures root'.Branch? && root'.kind == SeqKind && |root'.children| == |root.children|
    ensures d < |root.children| ==> InTree(root, [d]) && InTree(root', [d])
  {
    assert InTree(root, []) && Grown(At(root, []), At(root', []));
    if d < |root.children| {
      DocInTree(root, d);
      DocInTree(root', d);
    }
  }

  /** One target over documents d, d+1, ...; the count says how many matched. */
  function RunDocs(w: Work, d: nat, t: Target, render: string -> Result<string>): Result<(Work, nat)>
    requires w.root.Branch? && w.root.kind == SeqKind && d <= |w.root.children|
    decreases |w.root.children| - d
  {
    if d == |w.root.children| then Ok((w, 0))
    else
      DocInTree(w.root, d);
      var root := w.root.children[d].node;
      if !IsMapping(root) then Err("manifest document must contain a mapping")
      else
        match MatchesTarget(IdentityOf(root), t)
        case Err(m) => Err(m)
        case Ok(false) => RunDocs(w, d + 1, t, render)
        case Ok(true) =>
          match RunPatches(w, d, t.patches, render)
          case Err(m) => Err(m)
          case Ok(w') =>
            RunPatchesGrows(w, d, t.patches, render);
            GrowsKeepsDocs(w.root, w'.root, d);
            match RunDocs(w', d + 1, t, render)
            case Err(m) => Err(m)
            case Ok((w'', n)) => Ok((w'', n + 1))
  }

  lemma {:induction false} RunDocsGrows(w: Work, d: nat, t: Target, render: string -> Result<string>)
    requires w.root.Branch? && w.root.kind == SeqKind && d <= |w.root.children| && RunDocs(w, d, t, render).Ok?
    ensures Grows(w.root, RunDocs(w, d, t, render).value.0.root)
    decreases |w.root.children| - d
  {
    if d == |w.root.children| {
      GrowsReflexive(w.root);
    } else {
      DocInTree(w.root, d);
      if MatchesTarget(IdentityOf(w.root.children[d].node), t).value {
        RunPatchesGrows(w, d, t.patches, render);
        var w' := RunPatches(w, d, t.patches, render).value;
        GrowsKeepsDocs(w.root, w'.root, d);
        RunDocsGrows(w', d + 1, t, render);
        GrowsTransitive(w.root, w'.root, RunDocs(w', d + 1, t, render).value.0.root);
      } else {
        RunDocsGrows(w, d + 1, t, render);
      }
    }
  }

  function RunTargets(w: Work, targets: seq<Target>, render: string -> Result<string>): Result<Work>
    requires w.root.Branch? && w.root.kind == SeqKind
    decreases |targets|
  {
    if targets == [] then Ok(w)
    else
      match RunDocs(w, 0, targets[0], render)
      case Err(m) => Err(m)
      case Ok((w', matched)) =>
        RunDocsGrows(w, 0, targets[0], render);
        GrowsKeepsDocs(w.root, w'.root, 0);
        if matched == 0 then Err("target not found in manifest") else RunTargets(w', targets[1..], render)
  }

  lemma {:induction false} RunTargetsGrows(w: Work, targets: seq<Target>, render: string -> Result<string>)
    requires w.root.Branch? && w.root.kind == SeqKind && RunTargets(w, targets, render).Ok?
    ensures Grows(w.root, RunTargets(w, targets, render).value.root)
    decreases |targets|
  {
    if targets == [] {
      GrowsReflexive(w.root);
    } else {
      RunDocsGrows(w, 0, targets[0], render);
      var w' := RunDocs(w, 0, targets[0], render).value.0;
      GrowsKeepsDocs(w.root, w'.root, 0);
      RunTargetsGrows(w', targets[1..], render);
      GrowsTransitive(w.root, w'.root, RunTargets(w', targets[1..], render).value.root);
    }
  }

  // ----- the run keeps the bookkeeping exact -----

  ghost predicate Sound(root0: Node, w: Work) {
    Overlaid(root0, w) && Filled(w.root)
  }

  lemma {:induction false} RunPatchesSound(root0: Node, w: Work, d: nat, patches: seq<PatchSpec>, render: string -> Result<string>)
    requires Positioned(root0) && Sound(root0, w)
    requires InTree(w.root, [d]) && RunPatches(w, d, patches, render).Ok?
    ensures Sound(root0, RunPatches(w, d, patches, render).value)
    decreases |patches|
  {
    if patches != [] {
      hide Overlaid, Filled, Positioned, Patch;
      var value := render(patches[0].template).value;
      if Blank(value) {
        RunPatchesSound(root0, w, d, patches[1..], render);
      } else {
        var path := Split(patches[0].field, '.');
        PatchPutGet(w, [d], path, value);
        PatchOverlaid(root0, w, [d], path, value);
        PatchFills(w, [d], path, value);
        RunPatchesSound(root0, Patch(w, [d], path, value).value, d, patches[1..], render);
      }
    }
  }

  lemma {:induction false} RunDocsSound(root0: Node, w: Work, d: nat, t: Target, render: string -> Result<string>)
    requires Positioned(root0) && Sound(root0, w)
    requires w.root.Branch? && w.root.kind == SeqKind && d <= |w.root.children| && RunDocs(w, d, t, render).Ok?
    ensures Sound(root0, RunDocs(w, d, t, render).value.0)
    decreases |w.root.children| - d
  {
    hide Sound, Positioned, RunPatches;
    if d < |w.root.children| {
      DocInTree(w.root, d);
      if MatchesTarget(IdentityOf(w.root.children[d].node), t).value {
        RunPatchesSound(root0, w, d, t.patches, render);
        RunPatchesGrows(w, d, t.patches, render);
        var w' := RunPatches(w, d, t.patches, render).value;
        GrowsKeepsDocs(w.root, w'.root, d);
        RunDocsSound(root0, w', d + 1, t, render);
      } else {
        RunDocsSound(root0, w, d + 1, t, render);
      }
    }
  }

  lemma {:induction false} RunTargetsSound(root0: Node, w: Work, targets: seq<Target>, render: string -> Result<string>)
    requires Positioned(root0) && Sound(root0, w)
    requires w.root.Branch? && w.root.kind == SeqKind && RunTargets(w, targets, render).Ok?
    ensures Sound(root0, RunTargets(w, targets, render).value)
    decreases |targets|
  {
    hide Sound, Positioned, RunDocs;
    if targets != [] {
      RunDocsSound(root0, w, 0, targets[0], render);
      RunDocsGrows(w, 0, targets[0], render);
      var w' := RunDocs(w, 0, targets[0], render).value.0;
      GrowsKeepsDocs(w.root, w'.root, 0);
      RunTargetsSound(root0, w', targets[1..], render);
    }
  }

  // ----- the decoder's contract -----

  ghost predicate Describes(nodes: seq<Node>, input: string, stream: seq<Doc>) {
    && DocsWf(stream, true) && input == Joined(StreamLines(stream))
    && |nodes| == |stream| && forall i :: 0 <= i < |nodes| ==> nodes[i] == PlaceDocs(stream, 0)[i].node
  }

  lemma {:induction false} PlacePositioned(c: Cst, head: string, line: nat, a: Address)
    requires InTree(Place(c, head, line), a)
    ensures At(Place(c, head, line), a).line > 0
    decreases c, 1
  {
    hide Lines;
    if a != [] && c.Block? {
      if c.own.OwnLine? {
        PlaceEntriesPositioned(c.kind, c.indent, c.entries, Spaces(c.indent), line + 1 + |c.own.body|, a[0], a[1..]);
      } else {
        PlaceEntriesPositioned(c.kind, c.indent, c.entries, head + c.own.gap, line, a[0], a[1..]);
      }
    }
  }

  lemma {:induction false} PlaceEntriesPositioned(kind: Kind, indent: nat, entries: seq<Entry>, first: string, line: nat, i: nat, a: Address)
    requires i < |entries| && InTree(PlaceEntries(kind, indent, entries, first, line)[i].node, a)
    ensures At(PlaceEntries(kind, indent, entries, first, line)[i].node, a).line > 0
    decreases entries, 0
  {
    hide Lines;
    var head := first + Label(kind, entries[0]);
    if i == 0 {
      PlacePositioned(entries[0].value, head, line, a);
    } else {
      PlaceEntriesPositioned(kind, indent, entries[1..], Spaces(indent), line + |Lines(entries[0].value, head)|, i - 1, a);
    }
  }

  lemma {:induction false} DocsPositioned(docs: seq<Doc>, line: nat, i: nat, a: Address)
    requires i < |docs| && InTree(PlaceDocs(docs, line)[i].node, a)
    ensures At(PlaceDocs(docs, line)[i].node, a).line > 0
  {
    hide Lines, Place;
    if i == 0 {
      PlacePositioned(docs[0].root, "", line + |docs[0].pre|, a);
    } else {
      DocsPositioned(docs[1..], line + |docs[0].pre| + |Lines(docs[0].root, "")|, i - 1, a);
    }
  }

  lemma StreamPositioned(stream: seq<Doc>)
    ensures Positioned(StreamNode(stream))
  {
    hide PlaceDocs;
    forall a | InTree(StreamNode(stream), a) ensures At(StreamNode(stream), a).line > 0 {
      if a != [] { DocsPositioned(stream, 0, a[0], a[1..]); }
    }
  }

  // ----- a decoded mapping is never empty -----

  lemma {:induction false} PlaceFilled(c: Cst, head: string, k: int, line: nat, a: Address)
    requires Wf(c, head, k) && InTree(Place(c, head, line), a)
    ensures !IsEmptyMap(At(Place(c, head, line), a))
    decreases c, 1
  {
    hide Lines;
    if a != [] && c.Block? {
      if c.own.OwnLine? {
        PlaceEntriesFilled(c.kind, c.indent, c.entries, Spaces(c.indent), line + 1 + |c.own.body|, a[0], a[1..]);
      } else {
        PlaceEntriesFilled(c.kind, c.indent, c.entries, head + c.own.gap, line, a[0], a[1..]);
      }
    }
  }

  lemma {:induction false} PlaceEntriesFilled(kind: Kind, indent: nat, entries: seq<Entry>, first: string, line: nat, i: nat, a: Address)
    requires EntriesWf(kind, indent, entries, first)
    requires i < |entries| && InTree(PlaceEntries(kind, indent, entries, first, line)[i].node, a)
    ensures !IsEmptyMap(At(PlaceEntries(kind, indent, entries, first, line)[i].node, a))
    decreases entries, 0
  {
    hide Lines, LabelOk;
    var head := first + Label(kind, entries[0]);
    if i == 0 {
      PlaceFilled(entries[0].value, head, indent, line, a);
    } else {
      PlaceEntriesFilled(kind, indent, entries[1..], Spaces(indent), line + |Lines(entries[0].value, head)|, i - 1, a);
    }
  }

  lemma {:induction false} DocsFilled(docs: seq<Doc>, first: bool, line: nat, i: nat, a: Address)
    requires DocsWf(docs, first) && i < |docs| && InTree(PlaceDocs(docs, line)[i].node, a)
    ensures !IsEmptyMap(At(PlaceDocs(docs, line)[i].node, a))
    decreases |docs|
  {
    hide Lines, Place, Wf;
    if i == 0 {
      PlaceFilled(docs[0].root, "", -1, line + |docs[0].pre|, a);
    } else {
      DocsFilled(docs[1..], false, line + |docs[0].pre| + |Lines(docs[0].root, "")|, i - 1, a);
    }
  }

  lemma StreamSound(stream: seq<Doc>)
    requires DocsWf(stream, true)
    ensures Positioned(StreamNode(stream)) && Sound(StreamNode(stream), Work(StreamNode(stream), map[], map[]))
  {
    hide PlaceDocs, DocsWf;
    StreamPositioned(stream);
    StartOverlaid(StreamNode(stream));
    forall a | InTree(StreamNode(stream), a) ensures !IsEmptyMap(At(StreamNode(stream), a)) {
      if a != [] { DocsFilled(stream, true, 0, a[0], a[1..]); }
    }
  }
}
