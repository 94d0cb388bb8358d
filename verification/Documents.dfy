/** A manifest stream: documents one after another, each with the lines before it. */
module Documents {
  import opened Basics
  import opened Text
  import opened Scan
  import opened Nodes
  import opened Overlay
  import opened Insertion
  import opened Layout
  import opened Splice
  import opened Rewrite

  /** pre holds the separator and any comments, directives or blank lines before the root mapping. */
  datatype Doc = Doc(pre: seq<string>, root: Cst)

  function StreamLines(docs: seq<Doc>): seq<string> {
    if docs == [] then [] else docs[0].pre + Lines(docs[0].root, "") + StreamLines(docs[1..])
  }

  function PlaceDocs(docs: seq<Doc>, line: nat): (r: seq<Child>)
    ensures |r| == |docs|
  {
    if docs == [] then []
    else
      [Child("", 0, 0, Place(docs[0].root, "", line + |docs[0].pre|))]
      + PlaceDocs(docs[1..], line + |docs[0].pre| + |Lines(docs[0].root, "")|)
  }

  /** All documents under one node, whose children are numbered like the documents. */
  function StreamNode(docs: seq<Doc>): Node {
    Branch(SeqKind, PlaceDocs(docs, 0), 1)
  }

  predicate IsRoot(c: Cst) {
    c.Block? && c.kind == MapKind && c.own == Inline("") && c.indent == 0 && Wf(c, "", -1)
  }

  /** Every document but the first is introduced by a line at the left margin, such as "---". */
  predicate DocsWf(docs: seq<Doc>, first: bool) {
    docs == [] || (
      && NoFeeds(docs[0].pre) && IsRoot(docs[0].root)
      && (!first ==> docs[0].pre != [] && IsContent(docs[0].pre[0]) && LeadingSpaces(docs[0].pre[0]) == 0)
      && DocsWf(docs[1..], false))
  }

  function DocsOrder(docs: seq<Doc>, d: nat, w: Work): seq<Address> {
    if docs == [] then [] else Order(docs[0].root, [d], w) + DocsOrder(docs[1..], d + 1, w)
  }

  function UpdatedDocs(em: Emitter, docs: seq<Doc>, d: nat, w: Work): (r: seq<Doc>)
    requires w.root.Branch? && d + |docs| <= |w.root.children|
    ensures |r| == |docs|
  {
    if docs == [] then []
    else
      [Doc(docs[0].pre, Updated(em, docs[0].root, [d], w.root.children[d].node, w))]
      + UpdatedDocs(em, docs[1..], d + 1, w)
  }

  /** Targets are editable one-line scalars, and only the last document gains top-level entries. */
  predicate ReadyDocs(docs: seq<Doc>, d: nat, w: Work) {
    docs == [] || (
      && Ready(docs[0].root, [d], w)
      && ([d] in w.insertions ==> |docs| == 1)
      && ReadyDocs(docs[1..], d + 1, w))
  }

  lemma {:induction false} StreamHasNoFeeds(docs: seq<Doc>, first: bool)
    requires DocsWf(docs, first)
    ensures NoFeeds(StreamLines(docs))
  {
    if docs != [] {
      LinesHaveNoFeeds(docs[0].root, "", -1);
      StreamHasNoFeeds(docs[1..], false);
      NoFeedsConcat(docs[0].pre, Lines(docs[0].root, ""));
      NoFeedsConcat(docs[0].pre + Lines(docs[0].root, ""), StreamLines(docs[1..]));
    }
  }

  lemma StreamFollows(docs: seq<Doc>)
    requires DocsWf(docs, false)
    ensures Follows(StreamLines(docs), -1)
  {
    hide Lines, Wf;
  }

  lemma DocPlaced(root0: Node, w: Work, docs: seq<Doc>, line: nat, d: nat)
    requires docs != [] && Overlaid(root0, w) && root0.Branch? && d + |docs| == |root0.children|
    requires root0.children[d..] == PlaceDocs(docs, line)
    ensures InTree(root0, [d]) && At(root0, [d]) == Place(docs[0].root, "", line + |docs[0].pre|)
    ensures w.root.Branch? && d + |docs| <= |w.root.children|
    ensures InTree(w.root, [d]) && At(w.root, [d]) == w.root.children[d].node
    ensures root0.children[d + 1..] == PlaceDocs(docs[1..], line + |docs[0].pre| + |Lines(docs[0].root, "")|)
  {
    hide Lines, Place;
    assert InTree(root0, []) && At(root0, []) == root0 && At(w.root, []) == w.root;
    assert Covers(root0, w.root, [], w);
    assert root0.children[d..][0] == root0.children[d] && root0.children[d..][1..] == root0.children[d + 1..];
    InTreeJoin(root0, [], [d]);
    InTreeJoin(w.root, [], [d]);
    assert [] + [d] == [d];
  }

  lemma RegroupDoc(pre: seq<string>, head: seq<string>, mine: seq<string>, rest: seq<string>)
    ensures pre + (head + mine + rest) == pre + head + (mine + rest)
    ensures pre + (head + mine + rest) == (pre + head) + mine + rest
    ensures pre + (head + mine + rest) == (pre + head + mine) + rest
  {
  }

  /** The structural theorem over the whole stream. */
  lemma {:induction false} DocsTurn(em: Emitter, root0: Node, w: Work, docs: seq<Doc>, first: bool, pre: seq<string>, d: nat)
    requires DocsWf(docs, first) && ReadyDocs(docs, d, w) && NoFeeds(pre)
    requires Overlaid(root0, w) && root0.Branch? && d + |docs| == |root0.children|
    requires root0.children[d..] == PlaceDocs(docs, |pre|)
    ensures w.root.Branch? && d + |docs| <= |w.root.children|
    ensures var input := Joined(pre + StreamLines(docs));
            && AllOk(em, input, w, DocsOrder(docs, d, w))
            && Turns(input, |Joined(pre)|, |input|, Spans(em, input, w, DocsOrder(docs, d, w)),
                     Joined(StreamLines(UpdatedDocs(em, docs, d, w))))
    decreases |docs|
  {
    hide Turns, Joined, Lines, Place, Wf, Spans, SpanOf, Follows, Order, Updated, Overlaid, InTree, At, Ready, NoFeeds, AllOk;
    if docs == [] {
      NoDocsTurn(em, root0, w, pre, d);
    } else {
      var root, rest := docs[0].root, docs[1..];
      var head, mine, after := docs[0].pre, Lines(root, ""), StreamLines(rest);
      var input := Joined(pre + StreamLines(docs));
      DocPlaced(root0, w, docs, |pre|, d);
      LinesHaveNoFeeds(root, "", -1);
      StreamHasNoFeeds(rest, false);
      StreamFollows(rest);
      NoFeedsConcat(pre, head);
      NoFeedsConcat(pre + head, mine);
      RegroupDoc(pre, head, mine, after);
      if [d] in w.insertions { RootInsertsLast(docs, d, w); }
      TurnsLines(pre, head, mine + after);
      LayoutTurns(em, root0, w, root, "", -1, pre + head, after, [d]);
      DocsTurn(em, root0, w, rest, false, pre + head + mine, d + 1);
      AllOkConcat(em, input, w, Order(root, [d], w), DocsOrder(rest, d + 1, w));
      DocJoins(em, w, docs, d, input, |Joined(pre)|, |Joined(pre + head)|, |Joined(pre + head + mine)|);
    }
  }

  lemma RootInsertsLast(docs: seq<Doc>, d: nat, w: Work)
    requires docs != [] && ReadyDocs(docs, d, w) && [d] in w.insertions
    ensures StreamLines(docs[1..]) == []
  {
  }

  lemma NoDocsTurn(em: Emitter, root0: Node, w: Work, pre: seq<string>, d: nat)
    requires Overlaid(root0, w) && root0.Branch? && d == |root0.children|
    ensures w.root.Branch? && d <= |w.root.children|
    ensures var input := Joined(pre + StreamLines([]));
            AllOk(em, input, w, []) && Turns(input, |Joined(pre)|, |input|, Spans(em, input, w, []), Joined(StreamLines([])))
  {
    assert InTree(root0, []) && Covers(root0, w.root, [], w);
    assert pre + [] == pre && pre + [] + [] == pre;
    TurnsLines(pre, [], []);
  }

  lemma DocJoins(em: Emitter, w: Work, docs: seq<Doc>, d: nat, input: string, p: nat, m: nat, q: nat)
    requires docs != [] && w.root.Branch? && d + |docs| <= |w.root.children|
    requires Turns(input, p, m, [], Joined(docs[0].pre))
    requires Turns(input, m, q, Spans(em, input, w, Order(docs[0].root, [d], w)),
                   Joined(Lines(Updated(em, docs[0].root, [d], w.root.children[d].node, w), "")))
    requires Turns(input, q, |input|, Spans(em, input, w, DocsOrder(docs[1..], d + 1, w)),
                   Joined(StreamLines(UpdatedDocs(em, docs[1..], d + 1, w))))
    ensures Turns(input, p, |input|, Spans(em, input, w, DocsOrder(docs, d, w)), Joined(StreamLines(UpdatedDocs(em, docs, d, w))))
  {
    hide Turns, Joined, Lines, Spans, Order, Updated;
    var a, b := Order(docs[0].root, [d], w), DocsOrder(docs[1..], d + 1, w);
    var mine := Lines(Updated(em, docs[0].root, [d], w.root.children[d].node, w), "");
    var rest := StreamLines(UpdatedDocs(em, docs[1..], d + 1, w));
    SpansConcat(em, input, w, a, b);
    TurnsJoin(input, p, m, q, [], Spans(em, input, w, a), Joined(docs[0].pre), Joined(mine));
    assert [] + Spans(em, input, w, a) == Spans(em, input, w, a);
    TurnsJoin(input, p, q, |input|, Spans(em, input, w, a), Spans(em, input, w, b), Joined(docs[0].pre) + Joined(mine), Joined(rest));
    JoinedConcat(docs[0].pre, mine);
    JoinedConcat(docs[0].pre + mine, rest);
    var all := UpdatedDocs(em, docs, d, w);
    assert all[0].pre == docs[0].pre && all[1..] == UpdatedDocs(em, docs[1..], d + 1, w);
    assert StreamLines(all) == docs[0].pre + mine + rest;
  }

  // ----- the order lists every pending change once -----

  predicate Pending(w: Work, b: Address) {
    b in w.edits || b in w.insertions
  }

  lemma {:induction false} OrderBelow(c: Cst, a: Address, w: Work, b: Address)
    requires b in Order(c, a, w)
    ensures a <= b && Pending(w, b)
    decreases c, 1
  {
    if c.Block? && b in OrderEntries(c.entries, a, 0, w) { OrderEntriesBelow(c.entries, a, 0, w, b); }
  }

  lemma {:induction false} OrderEntriesBelow(entries: seq<Entry>, a: Address, i: nat, w: Work, b: Address)
    requires b in OrderEntries(entries, a, i, w)
    ensures a <= b && |b| > |a| && b[|a|] >= i && Pending(w, b)
    decreases entries, 0
  {
    if b in Order(entries[0].value, a + [i], w) {
      OrderBelow(entries[0].value, a + [i], w, b);
      assert b[|a|] == (a + [i])[|a|];
      assert b[..|a|] == (a + [i])[..|a|] == a;
    } else {
      OrderEntriesBelow(entries[1..], a, i + 1, w, b);
    }
  }

  lemma DistinctConcat<T>(a: seq<T>, b: seq<T>)
    requires Distinct(a) && Distinct(b) && forall x :: x in a ==> x !in b
    ensures Distinct(a + b)
  {
    var s := a + b;
    forall i, j | 0 <= i < j < |s| ensures s[i] != s[j] {
      if i < |a| <= j {
        assert s[i] in a && s[j] == b[j - |a|] && s[j] in b;
      }
    }
  }

  lemma {:induction false} OrderDistinct(c: Cst, a: Address, w: Work)
    ensures Distinct(Order(c, a, w))
    decreases c, 1
  {
    match c {
      case Leaf(_, _, _, _, _, _) =>
      case Block(_, _, _, entries) =>
        var inner, tail := OrderEntries(entries, a, 0, w), if a in w.insertions then [a] else [];
        OrderEntriesDistinct(entries, a, 0, w);
        forall b | b in inner ensures b != a { OrderEntriesBelow(entries, a, 0, w, b); }
        DistinctConcat(inner, tail);
    }
  }

  lemma {:induction false} OrderEntriesDistinct(entries: seq<Entry>, a: Address, i: nat, w: Work)
    ensures Distinct(OrderEntries(entries, a, i, w))
    decreases entries, 0
  {
    if entries != [] {
      var x, y := Order(entries[0].value, a + [i], w), OrderEntries(entries[1..], a, i + 1, w);
      OrderDistinct(entries[0].value, a + [i], w);
      OrderEntriesDistinct(entries[1..], a, i + 1, w);
      forall b | b in x ensures b !in y {
        OrderBelow(entries[0].value, a + [i], w, b);
        assert b[|a|] == (a + [i])[|a|];
        if b in y { OrderEntriesBelow(entries[1..], a, i + 1, w, b); }
      }
      DistinctConcat(x, y);
    }
  }

  lemma {:induction false} DocsOrderBelow(docs: seq<Doc>, d: nat, w: Work, b: Address)
    requires b in DocsOrder(docs, d, w)
    ensures b != [] && b[0] >= d && Pending(w, b)
  {
    if b in Order(docs[0].root, [d], w) {
      OrderBelow(docs[0].root, [d], w, b);
    } else {
      DocsOrderBelow(docs[1..], d + 1, w, b);
    }
  }

  lemma {:induction false} DocsOrderDistinct(docs: seq<Doc>, d: nat, w: Work)
    ensures Distinct(DocsOrder(docs, d, w))
  {
    if docs != [] {
      var x, y := Order(docs[0].root, [d], w), DocsOrder(docs[1..], d + 1, w);
      OrderDistinct(docs[0].root, [d], w);
      DocsOrderDistinct(docs[1..], d + 1, w);
      forall b | b in x ensures b !in y {
        OrderBelow(docs[0].root, [d], w, b);
        if b in y { DocsOrderBelow(docs[1..], d + 1, w, b); }
      }
      DistinctConcat(x, y);
    }
  }

  /** A pending change somewhere in c is in c's order. */
  lemma {:induction false} OrderComplete(root0: Node, w: Work, c: Cst, a: Address, head: string, line: nat, b: Address)
    requires Overlaid(root0, w) && InTree(root0, a) && At(root0, a) == Place(c, head, line)
    requires a <= b && Pending(w, b)
    ensures b in Order(c, a, w)
    decreases c, 1
  {
    hide Lines, Covers;
    assert InTree(root0, b);
    var rest := b[|a|..];
    assert b == a + rest;
    InTreeJoin(root0, a, rest);
    if rest == [] {
      assert b == a;
      assert At(root0, b) == Place(c, head, line);
    } else if c.Block? {
      var x := Place(c, head, line);
      assert rest[0] < |x.children|;
      if c.own.OwnLine? {
        EntriesComplete(root0, w, c.kind, c.indent, c.entries, Spaces(c.indent), line + 1 + |c.own.body|, a, 0, b);
      } else {
        EntriesComplete(root0, w, c.kind, c.indent, c.entries, head + c.own.gap, line, a, 0, b);
      }
    }
  }

  lemma {:induction false} EntriesComplete(root0: Node, w: Work, kind: Kind, indent: nat, entries: seq<Entry>, first: string,
                                           line: nat, a: Address, i: nat, b: Address)
    requires Overlaid(root0, w) && InTree(root0, a) && At(root0, a).Branch? && i + |entries| == |At(root0, a).children|
    requires At(root0, a).children[i..] == PlaceEntries(kind, indent, entries, first, line)
    requires a <= b && |b| > |a| && i <= b[|a|] < i + |entries| && Pending(w, b)
    ensures b in OrderEntries(entries, a, i, w)
    decreases entries, 0
  {
    hide Lines, Overlaid;
    var x := At(root0, a);
    var head := first + Label(kind, entries[0]);
    assert x.children[i..][0] == x.children[i] && x.children[i..][1..] == x.children[i + 1..];
    if b[|a|] == i {
      InTreeJoin(root0, a, [i]);
      assert b[..|a|] == a;
      assert a + [i] == b[..|a| + 1];
      OrderComplete(root0, w, entries[0].value, a + [i], head, line, b);
    } else {
      EntriesComplete(root0, w, kind, indent, entries[1..], Spaces(indent), line + |Lines(entries[0].value, head)|, a, i + 1, b);
    }
  }

  lemma {:induction false} DocsComplete(root0: Node, w: Work, docs: seq<Doc>, line: nat, d: nat, b: Address)
    requires Overlaid(root0, w) && root0.Branch? && d + |docs| == |root0.children|
    requires root0.children[d..] == PlaceDocs(docs, line)
    requires b != [] && d <= b[0] && Pending(w, b)
    ensures b in DocsOrder(docs, d, w)
  {
    hide Lines, Place, Wf, Covers, Order;
    assert InTree(root0, b) && b[0] < |root0.children|;
    DocPlaced(root0, w, docs, line, d);
    if b[0] == d {
      OrderComplete(root0, w, docs[0].root, [d], "", line + |docs[0].pre|, b);
    } else {
      DocsComplete(root0, w, docs[1..], line + |docs[0].pre| + |Lines(docs[0].root, "")|, d + 1, b);
    }
  }

  // ----- no two spans start at one offset -----

  ghost predicate PointsApart(em: Emitter, input: string, w: Work) {
    forall a, b :: a in w.insertions && b in w.insertions && a != b ==>
      SpanAt(em, input, w, a).start != SpanAt(em, input, w, b).start
  }

  lemma StartsTied(em: Emitter, input: string, w: Work, order: seq<Address>)
    requires AllOk(em, input, w, order)
    requires InOrder(Spans(em, input, w, order), 0, |input|)
    ensures OnlyInsertionsTie(Spans(em, input, w, order))
  {
    hide SpanOf, InOrder, SpanSane;
    var spans := Spans(em, input, w, order);
    forall i, j | 0 <= i < j < |spans| && spans[i].start == spans[j].start
      ensures spans[i].end == spans[i].start && spans[j].end == spans[j].start
    {
      InOrderPair(spans, 0, |input|, i, j);
      PairTied(input, spans[i], order[i] in w.edits, spans[j], order[j] in w.edits);
    }
  }

  lemma PairTied(input: string, e: Edit, token: bool, f: Edit, token': bool)
    requires SpanSane(input, e, token) && SpanSane(input, f, token') && e.end <= f.start == e.start
    ensures e.end == e.start && f.end == f.start
  {
  }

  /** Only two insertions can collide, so insertion points apart keep all starts apart. */
  lemma StartsApart(em: Emitter, input: string, w: Work, order: seq<Address>)
    requires AllOk(em, input, w, order) && Distinct(order) && PointsApart(em, input, w)
    requires forall b :: b in order ==> Pending(w, b)
    requires InOrder(Spans(em, input, w, order), 0, |input|)
    ensures DistinctStarts(Spans(em, input, w, order))
  {
    hide SpanOf;
    var spans := Spans(em, input, w, order);
    forall i, j | 0 <= i < j < |spans|
      ensures spans[i].start != spans[j].start
    {
      InOrderPair(spans, 0, |input|, i, j);
      assert SpanSane(input, spans[i], order[i] in w.edits) && SpanSane(input, spans[j], order[j] in w.edits);
      assert Pending(w, order[i]) && Pending(w, order[j]);
    }
  }
}
