/** The imperative editor: setScalar, applyYAMLEdits and UpdateManifest, against the specification. */
module Editor {
  import opened Basics
  import opened Text
  import opened Scan
  import opened Nodes
  import opened Overlay
  import opened Insertion
  import opened Layout
  import opened Splice
  import opened Rewrite
  import opened Documents
  import opened Manifest
  import opened Unterminated

  class ManifestEditor {
    var root: Node
    var edits: map<Address, string>
    var insertions: map<Address, seq<nat>>

    ghost function State(): Work
      reads this
    {
      Work(root, edits, insertions)
    }

    constructor (docs: seq<Node>)
      ensures State() == Work(Branch(SeqKind, seq(|docs|, i requires 0 <= i < |docs| => Child("", 0, 0, docs[i])), 1), map[], map[])
    {
      root := Branch(SeqKind, seq(|docs|, i requires 0 <= i < |docs| => Child("", 0, 0, docs[i])), 1);
      edits := map[];
      insertions := map[];
    }

    /** Append a missing key to the mapping at cur, and record the insertion for a source mapping. */
    method CreateEntry(cur: Address, segment: string, last: bool, value: string)
      requires InTree(root, cur) && Lacks(At(root, cur), segment)
      modifies this
      ensures State() == Create(old(State()), cur, segment, last, value)
    {
      var parent := At(root, cur);
      var node := if last then Scalar(value, Plain, 0, 0) else Branch(MapKind, [], 0);
      root := Append(root, cur, Child(segment, 0, 0, node));
      if parent.line > 0 {
        var noted := if cur in insertions then insertions[cur] else [];
        insertions := insertions[cur := noted + [|parent.children|]];
      }
    }

    method SetScalar(start: Address, path: seq<string>, value: string) returns (r: Result<Address>)
      requires InTree(root, start)
      modifies this
      ensures match Walk(old(State()), start, path, value)
              case Ok((w, b)) => State() == w && r == Ok(b)
              case Err(m) => State() == old(State()) && r == Err(m)
    {
      hide Grows, Append, At, InTree, Create, Walk;
      var cur: Address, i := start, 0;
      ghost var goal := Walk(State(), start, path, value);
      assert path[0..] == path;
      while i < |path|
        invariant i <= |path| && (i < |path| || path == [])
        invariant InTree(root, cur) && Walk(State(), cur, path[i..], value) == goal
        invariant State() == old(State()) || goal.Ok?
      {
        var segment, last := path[i], i == |path| - 1;
        var node := At(root, cur);
        WalkAhead(State(), cur, path, i, value);
        if node.Scalar? {
          return Err("path traverses a scalar");
        }
        if node.kind == MapKind {
          var k := MapValue(node, segment);
          if k.None? {
            CreateEntry(cur, segment, last, value);
            cur := cur + [|node.children|];
          } else {
            cur := cur + [k.value];
          }
        } else {
          var idx := Atoi(segment);
          if idx.None? || idx.value < 0 || idx.value >= |node.children| {
            return Err("path segment is not a valid list index");
          }
          cur := cur + [idx.value];
        }
        if last {
          if !At(root, cur).Scalar? {
            return Err("target is not a scalar");
          }
          return Ok(cur);
        }
        i := i + 1;
      }
      WalkNowhere(State(), cur, value);
      assert path[i..] == [];
      return Err("empty field path");
    }

    method ApplyPatches(d: nat, patches: seq<PatchSpec>, render: string -> Result<string>) returns (r: Result<()>)
      requires InTree(root, [d])
      modifies this
      ensures match RunPatches(old(State()), d, patches, render)
              case Ok(w) => State() == w && r == Ok(())
              case Err(m) => r == Err(m)
    {
      var i := 0;
      ghost var goal := RunPatches(State(), d, patches, render);
      assert patches[0..] == patches;
      while i < |patches|
        invariant i <= |patches| && InTree(root, [d])
        invariant RunPatches(State(), d, patches[i..], render) == goal
      {
        var p := patches[i];
        assert patches[i..][0] == p && patches[i..][1..] == patches[i + 1..];
        var rendered := render(p.template);
        if rendered.Err? {
          return Err(rendered.message);
        }
        if !Blank(rendered.value) {
          ghost var before := State();
          var path := Split(p.field, '.');
          var found := SetScalar([d], path, rendered.value);
          if found.Err? {
            return Err(found.message);
          }
          WalkReaches(before, [d], path, rendered.value);
          PatchPutGet(before, [d], path, rendered.value);
          var n := At(root, found.value);
          if n.line > 0 {
            edits := edits[found.value := rendered.value];
          }
          root := SetValue(root, found.value, rendered.value);
        }
        i := i + 1;
      }
      assert patches[|patches|..] == [];
      return Ok(());
    }

    method ApplyTarget(t: Target, render: string -> Result<string>) returns (r: Result<nat>)
      requires root.Branch? && root.kind == SeqKind
      modifies this
      ensures match RunDocs(old(State()), 0, t, render)
              case Ok((w, n)) => State() == w && r == Ok(n) && root.Branch? && root.kind == SeqKind
              case Err(m) => r == Err(m)
    {
      hide Grows, IdentityOf, MatchesTarget, RunPatches;
      var d, matched := 0, 0;
      ghost var goal := RunDocs(State(), 0, t, render);
      while d < |root.children|
        invariant root.Branch? && root.kind == SeqKind && d <= |root.children|
        invariant match RunDocs(State(), d, t, render)
                  case Ok((w, n)) => goal == Ok((w, matched + n))
                  case Err(m) => goal == Err(m)
        decreases |root.children| - d
      {
        var doc := root.children[d].node;
        DocInTree(root, d);
        if !doc.Branch? || doc.kind != MapKind {
          return Err("manifest document must contain a mapping");
        }
        var ok := MatchesTarget(IdentityOf(doc), t);
        if ok.Err? {
          return Err(ok.message);
        }
        if ok.value {
          ghost var before := State();
          var patched := ApplyPatches(d, t.patches, render);
          if patched.Err? {
            return Err(patched.message);
          }
          RunPatchesGrows(before, d, t.patches, render);
          GrowsKeepsDocs(before.root, root, d);
          matched := matched + 1;
        }
        d := d + 1;
      }
      return Ok(matched);
    }

    method ApplyTargets(targets: seq<Target>, render: string -> Result<string>) returns (r: Result<()>)
      requires root.Branch? && root.kind == SeqKind
      modifies this
      ensures match RunTargets(old(State()), targets, render)
              case Ok(w) => State() == w && r == Ok(())
              case Err(m) => r == Err(m)
    {
      var i := 0;
      ghost var goal := RunTargets(State(), targets, render);
      assert targets[0..] == targets;
      while i < |targets|
        invariant i <= |targets| && root.Branch? && root.kind == SeqKind
        invariant RunTargets(State(), targets[i..], render) == goal
      {
        assert targets[i..][0] == targets[i] && targets[i..][1..] == targets[i + 1..];
        var matched := ApplyTarget(targets[i], render);
        if matched.Err? {
          return Err(matched.message);
        }
        if matched.value == 0 {
          return Err("target not found in manifest");
        }
        i := i + 1;
      }
      assert targets[|targets|..] == [];
      return Ok(());
    }
  }

  // ----- applyYAMLEdits -----

  method RenderMappingEntries(em: Emitter, content: seq<Child>, indent: nat) returns (text: string)
    ensures text == InsertedText(em, content, indent)
  {
    var lines := EncodedLines(em, content);
    var prefix := Spaces(indent);
    text := "";
    for i := 0 to |lines|
      invariant text == Joined(Prefixed(prefix, lines)[..i])
    {
      JoinedNext(Prefixed(prefix, lines), i);
      text := text + ((prefix + lines[i]) + "\n");
    }
    assert Prefixed(prefix, lines)[..|lines|] == Prefixed(prefix, lines);
  }

  method EditSpan(em: Emitter, input: string, starts: seq<nat>, n: Node, value: string) returns (r: Result<Edit>)
    requires starts == Starts(input)
    ensures r == TokenSpan(em, input, n, value)
  {
    if n.Branch? || n.line < 1 || n.line > |starts| || n.col < 1 {
      return Err("invalid YAML source position for edited scalar");
    }
    if IsBlock(n.style) {
      return Err("block scalar targets are not supported");
    }
    var start := starts[n.line - 1] + n.col - 1;
    var end := ScalarTokenEnd(input, start, n.style);
    if end.Err? {
      return Err(end.message);
    }
    return Ok(Edit(start, end.value, RenderScalar(em, value, n.style)));
  }

  method InsertionSpan(em: Emitter, input: string, starts: seq<nat>, n: Node, positions: seq<nat>) returns (r: Result<Edit>)
    requires starts == Starts(input)
    ensures r == InsertSpan(em, input, n, Noted(n, positions))
  {
    hide PointFrom, InsertedText, Noted;
    if n.Scalar? || n.kind != MapKind || n.children == [] {
      return Err("cannot insert into an empty or non-mapping YAML node");
    }
    if n.children[0].line < 1 || n.children[0].col < 1 {
      return Err("invalid YAML source position for mapping");
    }
    var indent := n.children[0].col - 1;
    var start := InsertionPoint(input, starts, n.children[0].line - 1, indent);
    var rendered := RenderMappingEntries(em, Noted(n, positions), indent);
    if 0 < start <= |input| && input[start - 1] != '\n' {
      rendered := "\n" + rendered;
    }
    return Ok(Edit(start, start, rendered));
  }

  /** Every address of some duplicate-free list has a span, and the list is what has been collected. */
  ghost predicate Collected(em: Emitter, input: string, w: Work, spans: seq<Edit>, visited: seq<Address>) {
    && Distinct(visited) && spans == Spans(em, input, w, visited)
    && forall a :: a in visited ==> SpanOf(em, input, w, a).Ok?
  }

  lemma CollectMore(em: Emitter, input: string, w: Work, spans: seq<Edit>, visited: seq<Address>, a: Address)
    requires Collected(em, input, w, spans, visited) && a !in visited && SpanOf(em, input, w, a).Ok?
    ensures Collected(em, input, w, spans + [SpanAt(em, input, w, a)], visited + [a])
  {
    hide SpanOf;
    SpansConcat(em, input, w, visited, [a]);
    assert Spans(em, input, w, [a]) == [SpanAt(em, input, w, a)];
  }

  lemma {:induction false} SpansPermute(em: Emitter, input: string, w: Work, visited: seq<Address>, order: seq<Address>)
    requires multiset(visited) == multiset(order)
    ensures multiset(Spans(em, input, w, visited)) == multiset(Spans(em, input, w, order))
    decreases |visited|
  {
    hide Spans, SpanAt;
    assert |multiset(visited)| == |multiset(order)|;
    if visited == [] {
      assert order == [];
    } else {
      var a := visited[0];
      assert a in multiset(order);
      var k :| 0 <= k < |order| && order[k] == a;
      var rest := order[..k] + order[k + 1..];
      SameWithout(visited, order, k);
      SpansPermute(em, input, w, visited[1..], rest);
      assert visited[..0] + visited[1..] == visited[1..];
      SpansAt(em, input, w, visited, 0);
      SpansAt(em, input, w, order, k);
    }
  }

  lemma SpansAt(em: Emitter, input: string, w: Work, order: seq<Address>, k: nat)
    requires k < |order|
    ensures multiset(Spans(em, input, w, order))
            == multiset([SpanAt(em, input, w, order[k])]) + multiset(Spans(em, input, w, order[..k] + order[k + 1..]))
  {
    hide SpanAt;
    var a, b := order[..k], order[k + 1..];
    assert order == a + [order[k]] + b;
    SpansConcat(em, input, w, a + [order[k]], b);
    SpansConcat(em, input, w, a, [order[k]]);
    SpansConcat(em, input, w, a, b);
    assert Spans(em, input, w, [order[k]]) == [SpanAt(em, input, w, order[k])];
  }

  lemma CollectedPermutes(em: Emitter, input: string, w: Work, spans: seq<Edit>, visited: seq<Address>, order: seq<Address>)
    requires Collected(em, input, w, spans, visited) && Distinct(order)
    requires forall a :: a in visited <==> a in order
    ensures multiset(spans) == multiset(Spans(em, input, w, order))
  {
    SameElementsPermute(visited, order);
    SpansPermute(em, input, w, visited, order);
  }

  ghost predicate Lists(order: seq<Address>, w: Work) {
    Distinct(order) && forall a :: a in order <==> Pending(w, a)
  }

  /** The spans of all pending changes, collected in whatever order the maps are iterated. */
  method CollectSpans(em: Emitter, input: string, w: Work) returns (r: Result<seq<Edit>>, ghost visited: seq<Address>)
    requires forall a :: a in w.edits ==> InTree(w.root, a)
    requires forall a :: a in w.insertions ==> InTree(w.root, a) && a !in w.edits
    ensures r.Ok? ==> Collected(em, input, w, r.value, visited) && forall a :: a in visited <==> Pending(w, a)
    ensures r.Err? ==> exists a :: Pending(w, a) && SpanOf(em, input, w, a).Err?
  {
    var starts := LineStarts(input);
    var spans: seq<Edit> := [];
    visited := [];
    var todo := w.edits.Keys;
    while todo != {}
      invariant todo <= w.edits.Keys && Collected(em, input, w, spans, visited)
      invariant forall a :: a in visited <==> a in w.edits && a !in todo
      decreases |todo|
    {
      var a :| a in todo;
      var span := EditSpan(em, input, starts, At(w.root, a), w.edits[a]);
      assert span == SpanOf(em, input, w, a);
      if span.Err? {
        assert Pending(w, a);
        return Err(span.message), visited;
      }
      CollectMore(em, input, w, spans, visited, a);
      spans, visited := spans + [span.value], visited + [a];
      todo := todo - {a};
    }
    todo := w.insertions.Keys;
    while todo != {}
      invariant todo <= w.insertions.Keys && Collected(em, input, w, spans, visited)
      invariant forall a :: a in visited <==> a in w.edits || (a in w.insertions && a !in todo)
      decreases |todo|
    {
      var a :| a in todo;
      var span := InsertionSpan(em, input, starts, At(w.root, a), w.insertions[a]);
      assert span == SpanOf(em, input, w, a);
      if span.Err? {
        assert Pending(w, a);
        return Err(span.message), visited;
      }
      CollectMore(em, input, w, spans, visited, a);
      spans, visited := spans + [span.value], visited + [a];
      todo := todo - {a};
    }
    r := Ok(spans);
  }

  /** The spans of the pending changes, in some order of map iteration. */
  ghost predicate Arrives(em: Emitter, input: string, w: Work, order: seq<Address>, arrival: seq<Edit>) {
    multiset(arrival) == multiset(Spans(em, input, w, order))
  }

  /**
   For spans that do not overlap, the outcome is that of some arrival order; when no two insertions
   share a start either, it is the simultaneous substitution of the spans from left to right.
   */
  method ApplyYAMLEdits(em: Emitter, input: string, w: Work, ghost order: seq<Address>) returns (r: Result<string>)
    requires forall a :: a in w.edits ==> InTree(w.root, a)
    requires forall a :: a in w.insertions ==> InTree(w.root, a) && a !in w.edits
    requires Lists(order, w)
    requires (forall a :: a in order ==> SpanOf(em, input, w, a).Ok?) ==> Apart(multiset(Spans(em, input, w, order)), |input|)
    ensures r.Err? <==> exists a :: a in order && SpanOf(em, input, w, a).Err?
    ensures r.Ok? ==> exists arrival :: Arrives(em, input, w, order, arrival)
                                        && Apart(multiset(arrival), |input|) && r.value == Output(input, arrival)
    ensures r.Ok? && InOrder(Spans(em, input, w, order), 0, |input|) && DistinctStarts(Spans(em, input, w, order)) ==>
              r.value == Substitute(input, 0, Spans(em, input, w, order))
  {
    hide SpanOf, Substitute, InOrder, Spans, Apart, Output, DistinctStarts;
    ghost var visited;
    var spans;
    spans, visited := CollectSpans(em, input, w);
    if spans.Err? {
      return Err(spans.message);
    }
    CollectedPermutes(em, input, w, spans.value, visited, order);
    var edits := new Edit[|spans.value|](i requires 0 <= i < |spans.value| => spans.value[i]);
    assert edits[..] == spans.value;
    var out := SortAndSplice(input, edits);
    assert Arrives(em, input, w, order, spans.value);
    if InOrder(Spans(em, input, w, order), 0, |input|) && DistinctStarts(Spans(em, input, w, order)) {
      OutputSubstitutes(input, spans.value, Spans(em, input, w, order));
    }
    r := Ok(out);
  }

  // ----- UpdateManifest -----

  function StartOf(stream: seq<Doc>): Work {
    Work(StreamNode(stream), map[], map[])
  }

  ghost predicate HasBlockEdit(w: Work) {
    exists a :: a in w.edits && InTree(w.root, a) && At(w.root, a).Scalar? && IsBlock(At(w.root, a).style)
  }

  function TextOf(stream: seq<Doc>): string {
    Joined(StreamLines(stream))
  }

  /** What the decoder read describes the manifest, but for the line feed that its last line may lack. */
  ghost predicate DescribedBy(nodes: seq<Node>, input: string, stream: seq<Doc>) {
    Describes(nodes, TextOf(stream), stream) && (input == TextOf(stream) || Cut(input, TextOf(stream)))
  }

  /** The premises on a run: editable one-line targets, insertions at different offsets, top-level entries last. */
  ghost predicate Workable(em: Emitter, input: string, stream: seq<Doc>, w: Work) {
    ReadyDocs(stream, 0, w) && PointsApart(em, input, w)
  }

  function UpdatedText(em: Emitter, stream: seq<Doc>, w: Work): string
    requires w.root.Branch? && |stream| <= |w.root.children|
  {
    Joined(StreamLines(UpdatedDocs(em, stream, 0, w)))
  }

  /** The output is the updated text; a manifest without a final line feed gains one only with something appended. */
  ghost predicate Rewrites(em: Emitter, stream: seq<Doc>, w: Work, input: string, output: string)
    requires w.root.Branch? && |stream| <= |w.root.children|
  {
    var text := TextOf(stream);
    var lacks := Cut(input, text) && !Appends(text, Spans(em, text, w, DocsOrder(stream, 0, w)));
    output + (if lacks then "\n" else "") == UpdatedText(em, stream, w)
  }

  lemma TerminatedRewrites(em: Emitter, stream: seq<Doc>, w: Work, input: string, output: string)
    requires w.root.Branch? && |stream| <= |w.root.children| && input == TextOf(stream)
    ensures Rewrites(em, stream, w, input, output) <==> output == UpdatedText(em, stream, w)
  {
    assert |TextOf(stream)| != |input| + 1;
    assert output + "" == output;
  }

  lemma OrderLists(stream: seq<Doc>, w: Work)
    requires Overlaid(StreamNode(stream), w)
    ensures Lists(DocsOrder(stream, 0, w), w)
    ensures w.root.Branch? && |stream| <= |w.root.children|
    ensures forall a :: a in w.edits ==> InTree(w.root, a)
    ensures forall a :: a in w.insertions ==> InTree(w.root, a) && a !in w.edits
  {
    hide DocsOrder, PlaceDocs;
    var root0, order := StreamNode(stream), DocsOrder(stream, 0, w);
    DocsOrderDistinct(stream, 0, w);
    assert InTree(root0, []) && Covers(root0, w.root, [], w);
    forall a ensures a in order <==> Pending(w, a) {
      if a in order { DocsOrderBelow(stream, 0, w, a); }
      if Pending(w, a) {
        assert InTree(root0, a) && a != [];
        assert root0.children[0..] == root0.children;
        DocsComplete(root0, w, stream, 0, 0, a);
      }
    }
  }

  /** All spans of the terminated text together: the source's edits are the ordered spans, and they rewrite the layout. */
  lemma SpansRewrite(em: Emitter, input: string, stream: seq<Doc>, w: Work)
    requires DocsWf(stream, true) && input == TextOf(stream)
    requires Overlaid(StreamNode(stream), w) && ReadyDocs(stream, 0, w)
    ensures var spans := Spans(em, input, w, DocsOrder(stream, 0, w));
            && w.root.Branch? && |stream| <= |w.root.children|
            && AllOk(em, input, w, DocsOrder(stream, 0, w))
            && InOrder(spans, 0, |input|) && OnlyInsertionsTie(spans)
            && (PointsApart(em, input, w) ==> DistinctStarts(spans))
            && Substitute(input, 0, spans) == UpdatedText(em, stream, w)
  {
    hide SpanOf, Joined, StreamLines, DocsOrder, Overlaid, PlaceDocs, DocsWf, ReadyDocs, Substitute, InOrder, UpdatedDocs,
         DistinctStarts, OnlyInsertionsTie, AllOk, PointsApart;
    var order := DocsOrder(stream, 0, w);
    OrderLists(stream, w);
    assert StreamNode(stream).children[0..] == StreamNode(stream).children;
    NothingJoined();
    assert [] + StreamLines(stream) == StreamLines(stream);
    DocsTurn(em, StreamNode(stream), w, stream, true, [], 0);
    assert input[..|input|] == input;
    StartsTied(em, input, w, order);
    if PointsApart(em, input, w) { StartsApart(em, input, w, order); }
  }

  /** The same for the manifest as it comes, terminated or not. */
  lemma SpansFit(em: Emitter, input: string, stream: seq<Doc>, w: Work)
    requires DocsWf(stream, true) && (input == TextOf(stream) || Cut(input, TextOf(stream)))
    requires Overlaid(StreamNode(stream), w) && ReadyDocs(stream, 0, w)
    ensures var spans := Spans(em, input, w, DocsOrder(stream, 0, w));
            && w.root.Branch? && |stream| <= |w.root.children|
            && (forall a :: a in DocsOrder(stream, 0, w) ==> SpanOf(em, input, w, a).Ok?)
            && InOrder(spans, 0, |input|) && OnlyInsertionsTie(spans)
            && (PointsApart(em, input, w) ==> DistinctStarts(spans) && Rewrites(em, stream, w, input, Substitute(input, 0, spans)))
  {
    hide SpanOf, TextOf, DocsOrder, Overlaid, DocsWf, ReadyDocs, Substitute, InOrder, UpdatedText, Appends,
         DistinctStarts, OnlyInsertionsTie, PointsApart, CutSpans, Placed;
    var text, order := TextOf(stream), DocsOrder(stream, 0, w);
    SpansRewrite(em, text, stream, w);
    if Cut(input, text) {
      var spans := Spans(em, text, w, order);
      CutApart(em, input, text, w, order);
      CutInOrder(input, text, 0, spans);
      if PointsApart(em, input, w) {
        OrderLists(stream, w);
        CutPoints(em, input, text, w, order);
        CutSubstitute(input, text, 0, spans);
      }
    }
  }

  /** Insertion points are apart in the cut text only if they are in the whole text. */
  lemma CutPoints(em: Emitter, cut: string, text: string, w: Work, order: seq<Address>)
    requires Cut(cut, text) && AllOk(em, text, w, order) && Lists(order, w) && PointsApart(em, cut, w)
    requires forall a :: a in w.insertions ==> a !in w.edits
    ensures PointsApart(em, text, w)
  {
    hide SpanOf, Cut, SpanSane;
    forall a, b | a in w.insertions && b in w.insertions && a != b
      ensures SpanAt(em, text, w, a).start != SpanAt(em, text, w, b).start
    {
      assert Pending(w, a) && Pending(w, b);
      assert a in order && b in order;
      SpanCut(em, cut, text, w, a);
      SpanCut(em, cut, text, w, b);
    }
  }

  lemma NothingJoined()
    ensures Joined([]) == "" && NoFeeds([])
  {
  }

  /** No pending change leaves the text alone. */
  lemma NothingPending(em: Emitter, input: string, stream: seq<Doc>, w: Work)
    requires DocsWf(stream, true) && (input == TextOf(stream) || Cut(input, TextOf(stream)))
    requires Overlaid(StreamNode(stream), w) && ReadyDocs(stream, 0, w)
    requires w.edits == map[] && w.insertions == map[]
    ensures Arrives(em, input, w, DocsOrder(stream, 0, w), [])
    ensures Apart(multiset([]), |input|) && Output(input, []) == input
    ensures w.root.Branch? && |stream| <= |w.root.children|
    ensures Rewrites(em, stream, w, input, input)
  {
    hide TextOf, Overlaid, DocsWf, ReadyDocs, UpdatedText, DocsOrder, Rewrites;
    SpansFit(em, input, stream, w);
    OrderLists(stream, w);
    SomeElement(DocsOrder(stream, 0, w));
    assert forall a :: !Pending(w, a);
    assert DocsOrder(stream, 0, w) == [];
  }

  lemma BlockEditFails(em: Emitter, input: string, stream: seq<Doc>, w: Work)
    requires Overlaid(StreamNode(stream), w) && HasBlockEdit(w)
    ensures exists a :: a in DocsOrder(stream, 0, w) && SpanOf(em, input, w, a).Err?
  {
    OrderLists(stream, w);
    var a :| a in w.edits && InTree(w.root, a) && At(w.root, a).Scalar? && IsBlock(At(w.root, a).style);
    assert Pending(w, a);
    assert SpanOf(em, input, w, a).Err?;
  }

  /**
   UpdateManifest on a manifest the decoder described: its output is the original layout with
   exactly the targeted tokens re-rendered and the missing entries added, byte for byte, when no
   two insertions collide. When some do, it is still what some order of the spans gives.
   */
  method UpdateManifest(decode: string -> Result<seq<Node>>, em: Emitter, render: string -> Result<string>,
                        input: string, targets: seq<Target>, ghost stream: seq<Doc>) returns (r: Result<(string, bool)>)
    requires ValidEmitter(em)
    requires decode(input).Ok? ==> DescribedBy(decode(input).value, input, stream)
    requires decode(input).Ok? ==>
               var run := RunTargets(StartOf(stream), targets, render);
               run.Ok? && !HasBlockEdit(run.value) ==> ReadyDocs(stream, 0, run.value)
    ensures decode(input).Err? ==> r.Err?
    ensures decode(input).Ok? ==>
              match RunTargets(StartOf(stream), targets, render)
              case Err(m) => r == Err(m)
              case Ok(w) =>
                && w.root.Branch? && |stream| <= |w.root.children|
                && (r.Err? <==> HasBlockEdit(w))
                && (r.Ok? ==>
                      && r.value.1 == (r.value.0 != input)
                      && (exists arrival :: Arrives(em, input, w, DocsOrder(stream, 0, w), arrival)
                                            && Apart(multiset(arrival), |input|) && r.value.0 == Output(input, arrival))
                      && (PointsApart(em, input, w) ==> Rewrites(em, stream, w, input, r.value.0)))
  {
    hide Overlaid, TextOf, DescribedBy, Cut, Rewrites, PointsApart, ReadyDocs, DocsWf, UpdatedText, HasBlockEdit, Spans, SpanOf,
         Substitute, InOrder, RunTargets, Apart, Arrives, Output, DistinctStarts, OnlyInsertionsTie;
    var decoded := decode(input);
    if decoded.Err? {
      return Err(decoded.message);
    }
    var editor := new ManifestEditor(decoded.value);
    DecodedStart(decoded.value, input, stream);
    assert editor.State() == StartOf(stream);
    var applied := editor.ApplyTargets(targets, render);
    if applied.Err? {
      return Err(applied.message);
    }
    ghost var w := editor.State();
    ghost var order := DocsOrder(stream, 0, w);
    RunTargetsSound(StreamNode(stream), StartOf(stream), targets, render);
    OrderLists(stream, w);
    if HasBlockEdit(w) {
      BlockEditFails(em, input, stream, w);
    } else {
      SpansFit(em, input, stream, w);
      OrderedApart(Spans(em, input, w, order), |input|);
    }
    if editor.edits == map[] && editor.insertions == map[] {
      NoBlockEdit(w);
      NothingPending(em, input, stream, w);
      assert Arrives(em, input, w, order, []);
      return Ok((input, false));
    }
    var output := ApplyYAMLEdits(em, input, Work(editor.root, editor.edits, editor.insertions), order);
    if output.Err? {
      return Err(output.message);
    }
    return Ok((output.value, output.value != input));
  }

  /** A description of a terminated manifest, as it stands. */
  lemma Terminated(nodes: seq<Node>, input: string, stream: seq<Doc>)
    requires Describes(nodes, input, stream)
    ensures DescribedBy(nodes, input, stream) && input == TextOf(stream) && DocsWf(stream, true)
  {
  }

  lemma NoBlockEdit(w: Work)
    requires w.edits == map[]
    ensures !HasBlockEdit(w)
  {
  }

  lemma DecodedStart(nodes: seq<Node>, input: string, stream: seq<Doc>)
    requires DescribedBy(nodes, input, stream)
    ensures Branch(SeqKind, seq(|nodes|, i requires 0 <= i < |nodes| => Child("", 0, 0, nodes[i])), 1) == StreamNode(stream)
    ensures DocsWf(stream, true) && (input == TextOf(stream) || Cut(input, TextOf(stream)))
    ensures Positioned(StreamNode(stream)) && Sound(StreamNode(stream), StartOf(stream))
  {
    hide DocsWf, Joined, StreamLines, Place;
    StreamSound(stream);
    PlacedChildren(stream, 0);
    var children := seq(|nodes|, i requires 0 <= i < |nodes| => Child("", 0, 0, nodes[i]));
    assert children == PlaceDocs(stream, 0);
  }

  lemma {:induction false} PlacedChildren(docs: seq<Doc>, line: nat)
    ensures forall i :: 0 <= i < |docs| ==>
              PlaceDocs(docs, line)[i] == Child("", 0, 0, PlaceDocs(docs, line)[i].node)
  {
    hide Place, Lines;
    if docs != [] { PlacedChildren(docs[1..], line + |docs[0].pre| + |Lines(docs[0].root, "")|); }
  }
}
