/** UpdateManifest applied to its own output returns that output, unchanged. */
module Idempotence {
  import opened Basics
  import opened Text
  import opened Scan
  import opened Nodes
  import opened Overlay
  import opened Insertion
  import opened Layout
  import opened Rewrite
  import opened Documents
  import opened Manifest
  import opened Shapes
  import opened Settling
  import opened Rerun
  import opened Editor
  import opened Splice
  import opened Unterminated

  // ----- erased trees decide identities and shapes -----

  lemma {:induction false} EraseIndex(children: seq<Child>, key: string)
    ensures IndexOf(EraseAll(children), key) == IndexOf(children, key)
  {
    IndexOfFirst(children, key);
    IndexOfFirst(EraseAll(children), key);
    forall i | 0 <= i < |children| ensures EraseAll(children)[i].key == children[i].key { EraseAllAt(children, i); }
  }

  lemma EraseMapGet(n: Node, key: string)
    ensures MapGet(Erase(n), key) == match MapGet(n, key) case None => None case Some(x) => Some(Erase(x))
  {
    if n.Branch? {
      EraseIndex(n.children, key);
      IndexOfFirst(n.children, key);
      if IndexOf(n.children, key).Some? { EraseAllAt(n.children, IndexOf(n.children, key).value); }
    }
  }

  lemma EraseScalarAt(n: Node, key: string)
    ensures ScalarAt(Erase(n), key) == ScalarAt(n, key)
  {
    EraseMapGet(n, key);
  }

  lemma {:induction false} EraseLabels(children: seq<Child>)
    ensures LabelSet(EraseAll(children)) == LabelSet(children)
  {
    if children != [] {
      var last := |children| - 1;
      EraseLabels(children[..last]);
      EraseAllAt(children, last);
      assert children == children[..last] + [children[last]];
      EraseAllConcat(children[..last], [children[last]]);
      assert EraseAll(children)[..last] == EraseAll(children[..last]);
    }
  }

  lemma EraseIdentity(n: Node)
    ensures IdentityOf(Erase(n)) == IdentityOf(n) && IsMapping(Erase(n)) == IsMapping(n)
  {
    hide IndexOf, LabelSet, EraseAll, Erase;
    EraseMapGet(n, "metadata");
    EraseScalarAt(n, "apiVersion");
    EraseScalarAt(n, "kind");
    match MapGet(n, "metadata") {
      case None =>
      case Some(m) =>
        EraseScalarAt(m, "name");
        EraseScalarAt(m, "namespace");
        EraseLabelsOf(m);
    }
    EraseKind(n);
  }

  lemma EraseLabelsOf(m: Node)
    ensures LabelsOf(Erase(m)) == LabelsOf(m)
  {
    hide IndexOf, LabelSet;
    EraseMapGet(m, "labels");
    match MapGet(m, "labels") {
      case Some(Branch(MapKind, children, _)) => EraseLabels(children);
      case _ =>
    }
  }

  lemma EraseKind(n: Node)
    ensures IsMapping(Erase(n)) == IsMapping(n)
  {
  }

  lemma EraseAlike(x: Node, y: Node)
    requires Erase(x) == Erase(y)
    ensures Alike(x, y)
    ensures x.Scalar? ==> x.value == y.value
  {
    if x.Branch? {
      forall i | 0 <= i < |x.children| ensures y.children[i].key == x.children[i].key {
        EraseAllAt(x.children, i);
        EraseAllAt(y.children, i);
      }
    }
  }

  lemma SameErased(x: Node, y: Node, a: Address)
    requires Erase(x) == Erase(y)
    ensures InTree(x, a) <==> InTree(y, a)
    ensures InTree(x, a) ==> Alike(At(x, a), At(y, a)) && (At(x, a).Scalar? ==> At(x, a).value == At(y, a).value)
    ensures InTree(x, a) ==> IdentityOf(At(x, a)) == IdentityOf(At(y, a)) && IsMapping(At(x, a)) == IsMapping(At(y, a))
  {
    hide Erase, IdentityOf, IsMapping;
    EraseAt(x, a);
    EraseAt(y, a);
    if InTree(x, a) {
      EraseAlike(At(x, a), At(y, a));
      EraseIdentity(At(x, a));
      EraseIdentity(At(y, a));
    }
  }

  // ----- the updated stream -----

  predicate SettledDocs(em: Emitter, docs: seq<Doc>, d: nat, edits: map<Address, string>) {
    docs == [] || (Settled(em, docs[0].root, [d], edits) && SettledDocs(em, docs[1..], d + 1, edits))
  }

  function TreeDocs(docs: seq<Doc>): (r: seq<Child>)
    ensures |r| == |docs|
  {
    if docs == [] then [] else [Child("", 0, 0, Tree(docs[0].root))] + TreeDocs(docs[1..])
  }

  lemma {:induction false} PlaceDocsErased(docs: seq<Doc>, line: nat)
    ensures EraseAll(PlaceDocs(docs, line)) == TreeDocs(docs)
  {
    hide Lines, Place, Tree, Erase;
    if docs != [] {
      PlaceErased(docs[0].root, "", line + |docs[0].pre|);
      var rest := line + |docs[0].pre| + |Lines(docs[0].root, "")|;
      PlaceDocsErased(docs[1..], rest);
      var places := PlaceDocs(docs, line);
      assert places[1..] == PlaceDocs(docs[1..], rest);
    }
  }

  /** What a finished run is known to be. */
  ghost predicate Finished(root0: Node, w: Work) {
    Overlaid(root0, w) && Filled(w.root) && OneLineWrites(root0, w)
  }

  lemma RootStays(em: Emitter, root0: Node, w: Work, docs: seq<Doc>, first: bool, line: nat, d: nat, edits: map<Address, string>)
    requires ValidEmitter(em) && Finished(root0, w) && docs != [] && DocsWf(docs, first) && ReadyDocs(docs, d, w)
    requires root0.Branch? && d + |docs| == |root0.children| && root0.children[d..] == PlaceDocs(docs, line)
    requires Repeats(root0, w, edits)
    ensures w.root.Branch? && d + |docs| <= |w.root.children| && InTree(w.root, [d])
    ensures var root := Updated(em, docs[0].root, [d], w.root.children[d].node, w);
            IsRoot(root) && Tree(root) == Erase(w.root.children[d].node) && Settled(em, root, [d], edits)
  {
    hide Lines, Place, Overlaid, Filled, OneLineWrites, Repeats, Ready, Wf, Tree, Erase, Settled, Updated, ValidEmitter;
    DocPlaced(root0, w, docs, line, d);
    var c := docs[0].root;
    var at := line + |docs[0].pre|;
    UpdatedWf(em, root0, w, c, "", -1, at, [d]);
    UpdatedErased(em, root0, w, c, "", -1, at, [d]);
    UpdatedSettled(em, root0, w, c, "", -1, at, [d], edits);
    UpdatedKeepsRoot(em, c, [d], w.root.children[d].node, w);
  }

  lemma UpdatedKeepsRoot(em: Emitter, c: Cst, a: Address, n: Node, w: Work)
    requires c.Block?
    ensures var u := Updated(em, c, a, n, w); u.Block? && u.kind == c.kind && u.own == c.own && u.indent == c.indent
  {
  }

  lemma {:induction false} UpdatedDocsGood(em: Emitter, root0: Node, w: Work, docs: seq<Doc>, first: bool, line: nat, d: nat, edits: map<Address, string>)
    requires ValidEmitter(em) && Finished(root0, w) && DocsWf(docs, first) && ReadyDocs(docs, d, w)
    requires root0.Branch? && d + |docs| == |root0.children| && root0.children[d..] == PlaceDocs(docs, line)
    requires Repeats(root0, w, edits)
    ensures w.root.Branch? && |w.root.children| >= d + |docs|
    ensures var docs' := UpdatedDocs(em, docs, d, w);
            && DocsWf(docs', first) && SettledDocs(em, docs', d, edits)
            && forall i :: 0 <= i < |docs| ==> TreeDocs(docs')[i] == Child("", 0, 0, Erase(w.root.children[d + i].node))
    decreases |docs|
  {
    hide Lines, Place, Finished, Repeats, Ready, IsRoot, Tree, Erase, Settled, Updated, ValidEmitter, IsContent, LeadingSpaces;
    if docs == [] {
      RootCount(root0, w);
    } else {
      RootStays(em, root0, w, docs, first, line, d, edits);
      StepDoc(root0, docs, line, d);
      var next := line + |docs[0].pre| + |Lines(docs[0].root, "")|;
      UpdatedDocsGood(em, root0, w, docs[1..], false, next, d + 1, edits);
      var docs' := UpdatedDocs(em, docs, d, w);
      assert docs'[1..] == UpdatedDocs(em, docs[1..], d + 1, w);
      forall i | 0 <= i < |docs| ensures TreeDocs(docs')[i] == Child("", 0, 0, Erase(w.root.children[d + i].node)) {
        if i > 0 { assert TreeDocs(docs')[i] == TreeDocs(docs'[1..])[i - 1]; }
      }
    }
  }

  lemma StepDoc(root0: Node, docs: seq<Doc>, line: nat, d: nat)
    requires docs != [] && root0.Branch? && d + |docs| == |root0.children| && root0.children[d..] == PlaceDocs(docs, line)
    ensures root0.children[d + 1..] == PlaceDocs(docs[1..], line + |docs[0].pre| + |Lines(docs[0].root, "")|)
  {
    hide Lines, Place;
    assert root0.children[d..][1..] == root0.children[d + 1..];
  }

  lemma RootCount(root0: Node, w: Work)
    requires Finished(root0, w) && root0.Branch?
    ensures w.root.Branch? && |w.root.children| >= |root0.children| && w.root.kind == root0.kind
    ensures root0.kind == SeqKind ==> |w.root.children| == |root0.children|
    ensures forall i :: 0 <= i < |root0.children| ==> w.root.children[i].key == root0.children[i].key
  {
    assert InTree(root0, []) && Covers(root0, w.root, [], w);
    assert forall i :: 0 <= i < |root0.children| ==> SameEntry(root0.children[i], w.root.children[i]);
  }

  /** The decoded form of the updated stream is the final tree, up to positions and styles. */
  lemma UpdatedStreamErased(em: Emitter, w: Work, stream: seq<Doc>)
    requires ValidEmitter(em) && Finished(StreamNode(stream), w) && DocsWf(stream, true) && ReadyDocs(stream, 0, w)
    ensures w.root.Branch? && |stream| <= |w.root.children|
    ensures Erase(StreamNode(UpdatedDocs(em, stream, 0, w))) == Erase(w.root)
    ensures DocsWf(UpdatedDocs(em, stream, 0, w), true)
  {
    hide Finished, DocsWf, ReadyDocs, ValidEmitter, UpdatedDocs, PlaceDocs, TreeDocs;
    var root0 := StreamNode(stream);
    assert root0.children[0..] == root0.children;
    assert Repeats(root0, w, map[]);
    UpdatedDocsGood(em, root0, w, stream, true, 0, 0, map[]);
    RootCount(root0, w);
    var stream' := UpdatedDocs(em, stream, 0, w);
    PlaceDocsErased(stream', 0);
    PlacedChildren(stream, 0);
    forall i | 0 <= i < |stream| ensures EraseAll(w.root.children)[i] == TreeDocs(stream')[i] {
      EraseAllAt(w.root.children, i);
      assert TreeDocs(stream')[i] == Child("", 0, 0, Erase(w.root.children[0 + i].node));
    }
    assert EraseAll(w.root.children) == TreeDocs(stream');
  }

  lemma {:induction false} SettledDocsStay(em: Emitter, root0: Node, w: Work, docs: seq<Doc>, first: bool, line: nat, d: nat)
    requires Overlaid(root0, w) && w.insertions == map[] && DocsWf(docs, first) && SettledDocs(em, docs, d, w.edits)
    requires root0.Branch? && d + |docs| == |root0.children| && root0.children[d..] == PlaceDocs(docs, line)
    ensures w.root.Branch? && d + |docs| <= |w.root.children|
    ensures UpdatedDocs(em, docs, d, w) == docs && ReadyDocs(docs, d, w)
    decreases |docs|
  {
    hide Lines, Place, Wf, Overlaid, Settled, Updated, Ready, IsContent, LeadingSpaces;
    if docs == [] {
      SourceRoot(root0, w);
    } else {
      DocPlaced(root0, w, docs, line, d);
      SettledStays(em, root0, w, docs[0].root, "", -1, line + |docs[0].pre|, [d]);
      SettledDocsStay(em, root0, w, docs[1..], false, line + |docs[0].pre| + |Lines(docs[0].root, "")|, d + 1);
      assert docs == [docs[0]] + docs[1..];
    }
  }

  lemma SourceRoot(root0: Node, w: Work)
    requires Overlaid(root0, w) && root0.Branch?
    ensures w.root.Branch? && |w.root.children| >= |root0.children|
  {
    assert InTree(root0, []) && Covers(root0, w.root, [], w);
  }

  // ----- the theorem -----

  /** Where the second run starts, it already shadows the first. */
  lemma ShadowStart(em: Emitter, stream: seq<Doc>, targets: seq<Target>, render: string -> Result<string>, w: Work)
    requires ValidEmitter(em) && DocsWf(stream, true) && ReadyDocs(stream, 0, w)
    requires Finished(StreamNode(stream), w) && RunTargets(StartOf(stream), targets, render) == Ok(w)
    requires forall t :: t in targets ==> SafePatches(t.patches)
    ensures w.root.Branch? && |stream| <= |w.root.children|
    ensures var u := StartOf(UpdatedDocs(em, stream, 0, w));
            && Shadows(StreamNode(stream), StartOf(stream), u, w.root, {})
            && SameIdentities(StreamNode(stream), u.root)
  {
    hide ValidEmitter, DocsWf, ReadyDocs, Finished, RunTargets, SafePatches, PlaceDocs, Erase, IdentityOf, IsMapping, Alike;
    UpdatedStreamErased(em, w, stream);
    var root0, u := StreamNode(stream), StartOf(UpdatedDocs(em, stream, 0, w));
    StreamPositioned(UpdatedDocs(em, stream, 0, w));
    RunTargetsGrows(StartOf(stream), targets, render);
    RunTargetsKeep(StartOf(stream), targets, render);
    forall a
      ensures InTree(w.root, a) <==> InTree(u.root, a)
      ensures InTree(w.root, a) ==> Alike(At(w.root, a), At(u.root, a))
    {
      SameErased(w.root, u.root, a);
    }
    forall a | InTree(w.root, a) && At(w.root, a).Scalar?
      ensures InTree(u.root, a) && At(u.root, a).Scalar? && At(u.root, a).value == At(w.root, a).value
    {
      SameErased(w.root, u.root, a);
      AlikeScalar(At(w.root, a), At(u.root, a));
    }
    forall d: nat | InTree(root0, [d])
      ensures InTree(u.root, [d]) && IdentityOf(At(root0, [d])) == IdentityOf(At(u.root, [d]))
      ensures IsMapping(At(root0, [d])) == IsMapping(At(u.root, [d]))
    {
      SameIdentitiesAt(root0, w.root, d);
      SameErased(w.root, u.root, [d]);
    }
  }

  lemma AlikeScalar(x: Node, y: Node)
    requires Alike(x, y)
    ensures x.Scalar? ==> y.Scalar?
  {
  }

  /** Once the first run is over, the second's edits only repeat what it wrote. */
  lemma ShadowsRepeat(root0: Node, w: Work, u: Work, written: set<Address>)
    requires Shadows(root0, w, u, w.root, written)
    ensures Repeats(root0, w, u.edits)
  {
    forall b | b in u.edits
      ensures InTree(w.root, b) && At(w.root, b).Scalar? && u.edits[b] == At(w.root, b).value && (b in w.edits || !InTree(root0, b))
    {
      assert b in written;
    }
  }

  /** The premises under which a run can be repeated. */
  ghost predicate Repeatable(targets: seq<Target>, render: string -> Result<string>) {
    OneLineTargets(targets, render) && forall t :: t in targets ==> SafePatches(t.patches)
  }

  lemma StartOneLine(root0: Node)
    ensures OneLineWrites(root0, Work(root0, map[], map[]))
  {
    forall a, k: nat | InTree(root0, a) && At(root0, a).Branch? && k < |At(root0, a).children|
      ensures InTree(root0, a + [k])
    {
      InTreeJoin(root0, a, [k]);
    }
  }

  lemma RunFinishes(stream: seq<Doc>, targets: seq<Target>, render: string -> Result<string>, w: Work)
    requires DocsWf(stream, true) && OneLineTargets(targets, render) && RunTargets(StartOf(stream), targets, render) == Ok(w)
    ensures Positioned(StreamNode(stream)) && Sound(StreamNode(stream), StartOf(stream)) && Finished(StreamNode(stream), w)
  {
    hide DocsWf, OneLineTargets, RunTargets, Positioned;
    StreamSound(stream);
    RunTargetsSound(StreamNode(stream), StartOf(stream), targets, render);
    StartOneLine(StreamNode(stream));
    RunTargetsOneLine(StreamNode(stream), StartOf(stream), targets, render);
  }

  /**
   Idempotence: the same targets and data, applied to the updated stream, succeed, insert
   nothing, and lead back to the same stream.
   */
  lemma UpdateIsIdempotent(em: Emitter, stream: seq<Doc>, targets: seq<Target>, render: string -> Result<string>, w: Work)
    requires ValidEmitter(em) && DocsWf(stream, true) && Repeatable(targets, render)
    requires RunTargets(StartOf(stream), targets, render) == Ok(w) && ReadyDocs(stream, 0, w)
    ensures w.root.Branch? && |stream| <= |w.root.children|
    ensures var stream' := UpdatedDocs(em, stream, 0, w);
            var again := RunTargets(StartOf(stream'), targets, render);
            && DocsWf(stream', true) && again.Ok?
            && again.value.insertions == map[] && ReadyDocs(stream', 0, again.value)
            && again.value.root.Branch? && |stream'| <= |again.value.root.children|
            && UpdatedDocs(em, stream', 0, again.value) == stream'
  {
    hide ValidEmitter, DocsWf, ReadyDocs, RunTargets, SafePatches, PlaceDocs, UpdatedDocs, Erase, Shadows, SameIdentities, Overlaid, Filled, OneLineWrites, OneLineTargets, Positioned, Repeats;
    var root0 := StreamNode(stream);
    RunFinishes(stream, targets, render, w);
    UpdatedStreamErased(em, w, stream);
    RootCount(root0, w);
    ShadowStart(em, stream, targets, render, w);
    GrowsReflexive(w.root);
    var stream' := UpdatedDocs(em, stream, 0, w);
    var written := ShadowTargets(root0, StartOf(stream), StartOf(stream'), w.root, {}, targets, render);
    var u := RunTargets(StartOf(stream'), targets, render).value;
    ShadowsRepeat(root0, w, u, written);
    ShadowsInsertNothing(root0, w, u, w.root, written);
    RunFinishes(stream', targets, render, u);
    assert root0.children[0..] == root0.children;
    assert StreamNode(stream').children[0..] == StreamNode(stream').children;
    UpdatedDocsGood(em, root0, w, stream, true, 0, 0, u.edits);
    SettledDocsStay(em, StreamNode(stream'), u, stream', true, 0, 0);
  }

  lemma ShadowsInsertNothing(root0: Node, w: Work, u: Work, final: Node, written: set<Address>)
    requires Shadows(root0, w, u, final, written)
    ensures u.insertions == map[]
  {
  }

  // ----- the same at the level of bytes -----

  lemma TokenUnfed(em: Emitter, root0: Node, text: string, w: Work, a: Address)
    requires ValidEmitter(em) && Finished(root0, w) && a in w.edits && SpanOf(em, text, w, a).Ok?
    ensures Unfed(SpanAt(em, text, w, a).value)
  {
    hide ValidEmitter, RenderScalar, TokenEnd, Filled, OneLineWrites, RenderStyle, PlainShape;
    OneLineEdit(root0, w, a);
    var n := At(w.root, a);
    RenderedTokenShape(em, w.edits[a], n.style);
    ShapedUnfed(RenderStyle(em, w.edits[a], n.style), RenderScalar(em, w.edits[a], n.style));
  }

  lemma OneLineEdit(root0: Node, w: Work, a: Address)
    requires Finished(root0, w) && a in w.edits
    ensures OneLine(w.edits[a])
  {
  }

  lemma ShapedUnfed(style: Style, token: string)
    requires TokenShape(style, token) && OneLine(token)
    ensures Unfed(token)
  {
    assert token != [];
    assert !IsBreak(token[|token| - 1]);
  }

  lemma SameLine(a: string, b: string)
    ensures a + "\n" == b + "\n" ==> a == b
  {
    assert (a + "\n")[..|a|] == a && (b + "\n")[..|b|] == b;
  }

  /** An output without a final line feed is one by a whole last line: the updated text is that output, terminated. */
  lemma OutputCut(em: Emitter, stream: seq<Doc>, w: Work, input: string, out: string)
    requires ValidEmitter(em) && DocsWf(stream, true) && ReadyDocs(stream, 0, w) && Finished(StreamNode(stream), w)
    requires w.root.Branch? && |stream| <= |w.root.children| && PointsApart(em, input, w)
    requires input == TextOf(stream) || Cut(input, TextOf(stream))
    requires Rewrites(em, stream, w, input, out)
    ensures out == UpdatedText(em, stream, w) || Cut(out, UpdatedText(em, stream, w))
  {
    hide ValidEmitter, DocsWf, ReadyDocs, Finished, PointsApart, TextOf, UpdatedText, Substitute, InOrder, DocsOrder, SpanOf, AllOk,
         OnlyInsertionsTie, DistinctStarts, Appends;
    var text, order := TextOf(stream), DocsOrder(stream, 0, w);
    if input != text && !Appends(text, Spans(em, text, w, order)) {
      var cut := input;
      FinishedIsOverlaid(StreamNode(stream), w);
      SpansFit(em, cut, stream, w);
      var spans := Spans(em, cut, w, order);
      SameLine(out, Substitute(cut, 0, spans));
      SpansRewrite(em, text, stream, w);
      CutApart(em, cut, text, w, order);
      OrderLists(stream, w);
      CutUnfed(em, StreamNode(stream), cut, text, w, order);
      EndsUnfed(cut, 0, spans);
    }
    assert out + "" == out;
  }

  lemma CutUnfed(em: Emitter, root0: Node, cut: string, text: string, w: Work, order: seq<Address>)
    requires ValidEmitter(em) && Finished(root0, w) && Cut(cut, text) && AllOk(em, text, w, order)
    requires !Appends(text, Spans(em, text, w, order))
    requires forall a :: a in order ==> Pending(w, a)
    ensures forall i :: 0 <= i < |order| ==>
              var e := Spans(em, cut, w, order)[i]; e.start < |cut| && (e.end == |cut| ==> Unfed(e.value))
  {
    hide ValidEmitter, Finished, SpanOf;
    forall i | 0 <= i < |order|
      ensures var e := Spans(em, cut, w, order)[i]; e.start < |cut| && (e.end == |cut| ==> Unfed(e.value))
    {
      var a := order[i];
      assert Pending(w, a) && Spans(em, text, w, order)[i].start != |text|;
      SpanCut(em, cut, text, w, a);
      if a in w.edits { TokenUnfed(em, root0, cut, w, a); }
    }
  }

  lemma FinishedIsOverlaid(root0: Node, w: Work)
    requires Finished(root0, w)
    ensures Overlaid(root0, w)
  {
  }

  /** Nothing is appended when nothing is inserted. */
  lemma TokensDoNotAppend(em: Emitter, stream: seq<Doc>, u: Work)
    requires DocsWf(stream, true) && ReadyDocs(stream, 0, u) && Overlaid(StreamNode(stream), u) && u.insertions == map[]
    ensures !Appends(TextOf(stream), Spans(em, TextOf(stream), u, DocsOrder(stream, 0, u)))
  {
    hide DocsWf, ReadyDocs, Overlaid, SpanOf, TextOf, DocsOrder, Substitute, InOrder, UpdatedText, OnlyInsertionsTie, DistinctStarts;
    var text, order := TextOf(stream), DocsOrder(stream, 0, u);
    SpansRewrite(em, text, stream, u);
    OrderLists(stream, u);
    InOrderBounds(Spans(em, text, u, order), 0, |text|);
    forall i | 0 <= i < |order| ensures Spans(em, text, u, order)[i].start != |text| {
      assert Pending(u, order[i]);
      assert order[i] in u.edits;
      assert SpanSane(text, SpanAt(em, text, u, order[i]), order[i] in u.edits);
    }
  }

  /** A second run that leads back to the same stream reproduces the first output. */
  lemma SecondOutput(em: Emitter, stream: seq<Doc>, u: Work, out: string, again: string)
    requires DocsWf(stream, true) && ReadyDocs(stream, 0, u) && Overlaid(StreamNode(stream), u) && u.insertions == map[]
    requires u.root.Branch? && |stream| <= |u.root.children| && UpdatedText(em, stream, u) == TextOf(stream)
    requires out == TextOf(stream) || Cut(out, TextOf(stream))
    requires Rewrites(em, stream, u, out, again)
    ensures again == out
  {
    hide DocsWf, ReadyDocs, Overlaid, TextOf, UpdatedText, DocsOrder, Spans, Appends;
    TokensDoNotAppend(em, stream, u);
    if Cut(out, TextOf(stream)) {
      SameLine(again, out);
    } else {
      assert again + "" == again;
    }
  }

  /**
   A second UpdateManifest on the first one's output reports no change, given that the decoder reads
   the updated layout as what it spells.
   */
  method UpdateTwice(decode: string -> Result<seq<Node>>, em: Emitter, render: string -> Result<string>,
                     input: string, targets: seq<Target>, ghost stream: seq<Doc>)
      returns (first: Result<(string, bool)>, second: Result<(string, bool)>)
    requires ValidEmitter(em) && Repeatable(targets, render)
    requires decode(input).Ok? && DescribedBy(decode(input).value, input, stream)
    requires var run := RunTargets(StartOf(stream), targets, render);
             run.Ok? && !HasBlockEdit(run.value) ==>
               && Workable(em, input, stream, run.value)
               && run.value.root.Branch? && |stream| <= |run.value.root.children|
               && ReadsUpdated(decode, em, stream, run.value, input)
    ensures first.Ok? ==> second == Ok((first.value.0, false))
  {
    hide ValidEmitter, RunTargets, HasBlockEdit, PointsApart, Describes, DescribedBy, Rewrites, ReadyDocs, UpdatedDocs, OneLineTargets,
         SafePatches, DocsWf, Arrives, ReadsUpdated, TextOf, UpdatedText, Cut, Overlaid, Finished;
    first := UpdateManifest(decode, em, render, input, targets, stream);
    second := first;
    if first.Ok? {
      ghost var w := RunTargets(StartOf(stream), targets, render).value;
      ghost var stream' := UpdatedDocs(em, stream, 0, w);
      DescribedText(decode(input).value, input, stream);
      RunFinishes(stream, targets, render, w);
      OutputCut(em, stream, w, input, first.value.0);
      UpdateIsIdempotent(em, stream, targets, render, w);
      ghost var u := RunTargets(StartOf(stream'), targets, render).value;
      NothingInserted(em, first.value.0, u);
      RerunNotBlocked(em, stream, targets, render, w, u);
      UpdatedIsText(em, stream, w);
      OutputDescribed(decode, em, stream, w, input, first.value.0);
      second := UpdateManifest(decode, em, render, first.value.0, targets, stream');
      RunFinishes(stream', targets, render, u);
      FinishedIsOverlaid(StreamNode(stream'), u);
      UpdatedIsText(em, stream', u);
      SecondOutput(em, stream', u, first.value.0, second.value.0);
    }
  }

  /** The decoder reads a text that spells the updated layout as that layout. */
  ghost predicate ReadsUpdated(decode: string -> Result<seq<Node>>, em: Emitter, stream: seq<Doc>, w: Work, input: string)
    requires w.root.Branch? && |stream| <= |w.root.children|
  {
    var stream' := UpdatedDocs(em, stream, 0, w);
    forall out :: Rewrites(em, stream, w, input, out) ==>
      decode(out).Ok? && Describes(decode(out).value, TextOf(stream'), stream')
  }

  lemma OutputDescribed(decode: string -> Result<seq<Node>>, em: Emitter, stream: seq<Doc>, w: Work, input: string, out: string)
    requires w.root.Branch? && |stream| <= |w.root.children|
    requires ReadsUpdated(decode, em, stream, w, input) && Rewrites(em, stream, w, input, out)
    requires out == UpdatedText(em, stream, w) || Cut(out, UpdatedText(em, stream, w))
    ensures decode(out).Ok? && DescribedBy(decode(out).value, out, UpdatedDocs(em, stream, 0, w))
  {
    hide Rewrites, Describes, UpdatedDocs;
  }

  lemma UpdatedIsText(em: Emitter, stream: seq<Doc>, w: Work)
    requires w.root.Branch? && |stream| <= |w.root.children|
    ensures UpdatedText(em, stream, w) == TextOf(UpdatedDocs(em, stream, 0, w))
  {
  }

  lemma DescribedText(nodes: seq<Node>, input: string, stream: seq<Doc>)
    requires DescribedBy(nodes, input, stream)
    ensures DocsWf(stream, true) && (input == TextOf(stream) || Cut(input, TextOf(stream)))
  {
  }

  lemma NothingInserted(em: Emitter, input: string, u: Work)
    requires u.insertions == map[]
    ensures PointsApart(em, input, u)
  {
  }

  /** Ready targets are not block scalars. */
  lemma {:induction false} ReadyNotBlock(c: Cst, a: Address, w: Work, root0: Node, head: string, line: nat, b: Address)
    requires Ready(c, a, w) && Overlaid(root0, w) && InTree(root0, a) && At(root0, a) == Place(c, head, line)
    requires a <= b && b in w.edits
    ensures InTree(w.root, b) && At(w.root, b).Scalar? && !IsBlock(At(w.root, b).style)
    decreases c, 1
  {
    hide Lines, Editable;
    assert InTree(root0, b) && Covers(At(root0, b), At(w.root, b), b, w);
    var rest := b[|a|..];
    assert b == a + rest;
    InTreeJoin(root0, a, rest);
    if rest == [] {
      assert b == a;
      EditableStyle(c);
    } else if c.Block? {
      if c.own.OwnLine? {
        EntriesNotBlock(c.kind, c.indent, c.entries, Spaces(c.indent), line + 1 + |c.own.body|, a, 0, w, root0, b);
      } else {
        EntriesNotBlock(c.kind, c.indent, c.entries, head + c.own.gap, line, a, 0, w, root0, b);
      }
    }
  }

  lemma {:induction false} EntriesNotBlock(kind: Kind, indent: nat, entries: seq<Entry>, first: string, line: nat,
                                           a: Address, i: nat, w: Work, root0: Node, b: Address)
    requires ReadyEntries(entries, a, i, w) && Overlaid(root0, w)
    requires InTree(root0, a) && At(root0, a).Branch? && i + |entries| == |At(root0, a).children|
    requires At(root0, a).children[i..] == PlaceEntries(kind, indent, entries, first, line)
    requires a <= b && |b| > |a| && i <= b[|a|] < i + |entries| && b in w.edits
    ensures InTree(w.root, b) && At(w.root, b).Scalar? && !IsBlock(At(w.root, b).style)
    decreases entries, 0
  {
    hide Lines, Overlaid, Ready, Place;
    var x := At(root0, a);
    var head := first + Label(kind, entries[0]);
    assert x.children[i..][0] == x.children[i] && x.children[i..][1..] == x.children[i + 1..];
    if b[|a|] == i {
      InTreeJoin(root0, a, [i]);
      assert b[..|a|] == a;
      assert a + [i] == b[..|a| + 1];
      ReadyNotBlock(entries[0].value, a + [i], w, root0, head, line, b);
    } else {
      EntriesNotBlock(kind, indent, entries[1..], Spaces(indent), line + |Lines(entries[0].value, head)|, a, i + 1, w, root0, b);
    }
  }

  lemma {:induction false} DocsNotBlock(docs: seq<Doc>, line: nat, d: nat, w: Work, root0: Node, b: Address)
    requires ReadyDocs(docs, d, w) && Overlaid(root0, w) && root0.Branch? && d + |docs| == |root0.children|
    requires root0.children[d..] == PlaceDocs(docs, line)
    requires b != [] && d <= b[0] && b in w.edits
    ensures InTree(w.root, b) && At(w.root, b).Scalar? && !IsBlock(At(w.root, b).style)
  {
    hide Lines, Place, Wf, Covers, Ready;
    assert InTree(root0, b) && b[0] < |root0.children|;
    DocPlaced(root0, w, docs, line, d);
    if b[0] == d {
      ReadyNotBlock(docs[0].root, [d], w, root0, "", line + |docs[0].pre|, b);
    } else {
      DocsNotBlock(docs[1..], line + |docs[0].pre| + |Lines(docs[0].root, "")|, d + 1, w, root0, b);
    }
  }

  lemma RerunNotBlocked(em: Emitter, stream: seq<Doc>, targets: seq<Target>, render: string -> Result<string>, w: Work, u: Work)
    requires w.root.Branch? && |stream| <= |w.root.children|
    requires var stream' := UpdatedDocs(em, stream, 0, w);
             && DocsWf(stream', true) && ReadyDocs(stream', 0, u) && OneLineTargets(targets, render)
             && RunTargets(StartOf(stream'), targets, render) == Ok(u)
    ensures !HasBlockEdit(u)
  {
    hide DocsWf, ReadyDocs, RunTargets, OneLineTargets, UpdatedDocs, PlaceDocs, Filled, OneLineWrites, Positioned;
    var stream' := UpdatedDocs(em, stream, 0, w);
    RunFinishes(stream', targets, render, u);
    assert StreamNode(stream').children[0..] == StreamNode(stream').children;
    forall b | b in u.edits
      ensures InTree(u.root, b) && At(u.root, b).Scalar? && !IsBlock(At(u.root, b).style)
    {
      assert InTree(StreamNode(stream'), b) && b != [];
      DocsNotBlock(stream', 0, 0, u, StreamNode(stream'), b);
    }
  }
}
