/**
 Keys added to the top-level mapping of a document. The insertion point is always the end of the
 input, which is the end of that document only for the last one.
 */
module TopLevel {
  import opened Text
  import opened Scan
  import opened Nodes
  import opened Overlay
  import opened Insertion
  import opened Layout
  import opened Rewrite
  import opened Documents
  import opened Manifest

  /** The offset just behind document d. */
  function EndOf(docs: seq<Doc>, d: nat): nat
    requires d < |docs|
  {
    |Joined(StreamLines(docs[..d + 1]))|
  }

  lemma {:induction false} StreamLinesConcat(a: seq<Doc>, b: seq<Doc>)
    ensures StreamLines(a + b) == StreamLines(a) + StreamLines(b)
  {
    hide Lines;
    if a == [] {
      assert a + b == b;
    } else {
      assert (a + b)[1..] == a[1..] + b;
      StreamLinesConcat(a[1..], b);
    }
  }

  lemma {:induction false} LaterDocsWf(docs: seq<Doc>, first: bool, n: nat)
    requires DocsWf(docs, first) && 0 < n <= |docs|
    ensures DocsWf(docs[n..], false)
    decreases n
  {
    hide IsRoot;
    if n > 1 {
      LaterDocsWf(docs[1..], false, n - 1);
      assert docs[1..][n - 1..] == docs[n..];
    }
  }

  /** Document d ends where the input does exactly when it is the last one. */
  lemma EndsAtInput(docs: seq<Doc>, d: nat)
    requires DocsWf(docs, true) && d < |docs|
    ensures EndOf(docs, d) == |Joined(StreamLines(docs))| <==> d == |docs| - 1
  {
    hide Lines, IsRoot;
    var a, b := docs[..d + 1], docs[d + 1..];
    assert docs == a + b;
    StreamLinesConcat(a, b);
    JoinedConcat(StreamLines(a), StreamLines(b));
    LaterDocsWf(docs, true, d + 1);
    if b == [] {
      assert d == |docs| - 1;
    } else {
      assert StreamLines(b) != [] by { assert b[0].pre != []; }
    }
  }

  lemma {:induction false} PlaceDoc(docs: seq<Doc>, line: nat, d: nat) returns (at: nat)
    requires d < |docs|
    ensures PlaceDocs(docs, line)[d].node == Place(docs[d].root, "", at)
  {
    hide Lines, Place;
    if d == 0 {
      at := line + |docs[0].pre|;
    } else {
      at := PlaceDoc(docs[1..], line + |docs[0].pre| + |Lines(docs[0].root, "")|, d - 1);
    }
  }

  lemma {:induction false} RootWf(docs: seq<Doc>, first: bool, d: nat)
    requires DocsWf(docs, first) && d < |docs|
    ensures IsRoot(docs[d].root)
    decreases d
  {
    hide IsRoot;
    if d > 0 { RootWf(docs[1..], false, d - 1); }
  }

  /**
   A top-level insertion always goes to the end of the input. That is the end of the document it is
   meant for exactly when no other document follows.
   */
  lemma TopLevelInsertion(em: Emitter, docs: seq<Doc>, w: Work, d: nat)
    requires DocsWf(docs, true) && d < |docs| && Overlaid(StreamNode(docs), w)
    requires [d] in w.insertions
    ensures var input := Joined(StreamLines(docs));
            var span := SpanOf(em, input, w, [d]);
            && span.Ok? && span.value.start == span.value.end == |input|
            && (span.value.start == EndOf(docs, d) <==> d == |docs| - 1)
  {
    hide Lines, Place, Wf, PlaceDocs, StreamLines, Joined;
    var root0, input := StreamNode(docs), Joined(StreamLines(docs));
    EndsAtInput(docs, d);
    RootWf(docs, true, d);
    var at := PlaceDoc(docs, 0, d);
    assert [d][1..] == [];
    assert InTree(root0, [d]) && At(root0, [d]) == Place(docs[d].root, "", at);
    FirstKey(root0, w, docs[d].root, "", -1, at, [d]);
    assert [d] !in w.edits by { assert At(root0, [d]).Branch?; }
    ZeroIndentRunsToEnd(input, Starts(input), At(w.root, [d]).children[0].line);
  }

  // ----- an example -----

  function OneKey(key: string, value: string): Cst {
    Block(MapKind, Inline(""), 0, [Entry(key, key, Leaf(" ", Plain, value, value, "", []))])
  }

  function TwoDocs(): seq<Doc> {
    [Doc([], OneKey("a", "1")), Doc(["---"], OneKey("b", "2"))]
  }

  lemma OneKeyLines(key: string, value: string)
    ensures Lines(OneKey(key, value), "") == [key + ": " + value]
  {
    var c := OneKey(key, value);
    var e := c.entries[0];
    assert c.entries[1..] == [];
    var head := "" + "" + Label(MapKind, e);
    assert head == key + ":";
    assert head + " " + value + "" == key + ": " + value;
    assert Lines(e.value, head) == [key + ": " + value];
    assert EntryLines(MapKind, 0, c.entries, "" + "") == Lines(e.value, head) + [];
  }

  lemma TwoDocsText()
    ensures Joined(StreamLines(TwoDocs())) == "a: 1\n---\nb: 2\n" && EndOf(TwoDocs(), 0) == 5
  {
    hide Lines;
    var docs := TwoDocs();
    OneKeyLines("a", "1");
    OneKeyLines("b", "2");
    assert docs[1..] == [docs[1]] && docs[1..][1..] == [] && docs[..1] == [docs[0]] && docs[..1][1..] == [];
    assert "a" + ": " + "1" == "a: 1" && "b" + ": " + "2" == "b: 2";
    assert StreamLines(docs[1..]) == ["---"] + ["b: 2"] + [];
    assert StreamLines(docs) == [] + ["a: 1"] + (["---"] + ["b: 2"] + []);
    assert StreamLines(docs[..1]) == [] + ["a: 1"] + [];
    assert ["a: 1", "---", "b: 2"][1..] == ["---", "b: 2"] && ["---", "b: 2"][1..] == ["b: 2"];
    assert ["b: 2"][1..] == [] && ["a: 1"][1..] == [];
  }

  lemma TwoDocsWf()
    ensures DocsWf(TwoDocs(), true)
  {
    var docs := TwoDocs();
    assert docs[1..] == [docs[1]] && docs[1..][1..] == [];
    forall i | i in [0, 1] ensures IsRoot(docs[i].root) {
      var c := docs[i].root;
      assert c.entries[1..] == [];
    }
    assert IsContent("---") && LeadingSpaces("---") == 0;
  }

  lemma PatchCreates(w: Work, a: Address, key: string, value: string)
    requires InTree(w.root, a) && Lacks(At(w.root, a), key) && At(w.root, a).line > 0
    ensures Patch(w, a, [key], value).Ok? && a in Patch(w, a, [key], value).value.insertions
  {
    WalkStep(w, a, key, true, value);
  }

  /** Adding c to the first of two documents puts its line behind the second one's separator. */
  lemma TopLevelCrossesDocuments(em: Emitter)
    ensures var docs := TwoDocs();
            var input := "a: 1\n---\nb: 2\n";
            var start := Work(StreamNode(docs), map[], map[]);
            && DocsWf(docs, true) && input == Joined(StreamLines(docs))
            && InTree(start.root, [0]) && Patch(start, [0], ["c"], "3").Ok?
            && var span := SpanOf(em, input, Patch(start, [0], ["c"], "3").value, [0]);
               span.Ok? && span.value.start == |input| && EndOf(docs, 0) == 5 && input[5..8] == "---"
  {
    hide Lines, Wf, StreamLines, Joined, SpanOf, Overlaid, Patch;
    var docs := TwoDocs();
    var start := Work(StreamNode(docs), map[], map[]);
    TwoDocsText();
    TwoDocsWf();
    StartOverlaid(StreamNode(docs));
    assert [0][1..] == [];
    var n := At(start.root, [0]);
    IndexOfFirst(n.children, "c");
    assert n.children[0].key == "a";
    assert Lacks(n, "c");
    StreamPositioned(docs);
    PatchCreates(start, [0], "c", "3");
    var w := Patch(start, [0], ["c"], "3").value;
    PatchOverlaid(StreamNode(docs), start, [0], ["c"], "3");
    TopLevelInsertion(em, docs, w, 0);
  }
}
