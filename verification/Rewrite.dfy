/**
 Bytes against layout: the spans computed from node positions, applied at once, turn the printed
 layout into the printed layout of the edited tree.
 */
module Rewrite {
  import opened Basics
  import opened Text
  import opened Scan
  import opened Nodes
  import opened Overlay
  import opened Insertion
  import opened Layout
  import opened Splice

  // ----- spans, as applyYAMLEdits computes them -----

  function TokenSpan(em: Emitter, input: string, n: Node, value: string): Result<Edit> {
    var starts := Starts(input);
    if n.Branch? || n.line < 1 || n.line > |starts| || n.col < 1 then Err("invalid YAML source position for edited scalar")
    else if IsBlock(n.style) then Err("block scalar targets are not supported")
    else
      var start := starts[n.line - 1] + n.col - 1;
      match TokenEnd(input, start, n.style)
      case Err(m) => Err(m)
      case Ok(end) => Ok(Edit(start, end, RenderScalar(em, value, n.style)))
  }

  /** The inserted children, read through the recorded positions when the text is rendered. */
  function Noted(n: Node, positions: seq<nat>): seq<Child> {
    if positions == [] then []
    else
      var last := |positions| - 1;
      Noted(n, positions[..last])
      + if n.Branch? && positions[last] < |n.children| then [n.children[positions[last]]] else []
  }

  lemma {:induction false} NotedRange(n: Node, lo: nat, hi: nat)
    requires n.Branch? && lo <= hi <= |n.children|
    ensures Noted(n, Range(lo, hi)) == n.children[lo..hi]
    decreases hi
  {
    if lo < hi {
      assert Range(lo, hi)[..hi - lo - 1] == Range(lo, hi - 1);
      NotedRange(n, lo, hi - 1);
      assert n.children[lo..hi] == n.children[lo..hi - 1] + [n.children[hi - 1]];
    }
  }

  function InsertedText(em: Emitter, content: seq<Child>, indent: nat): string {
    Joined(Prefixed(Spaces(indent), EncodedLines(em, content)))
  }

  function InsertSpan(em: Emitter, input: string, n: Node, content: seq<Child>): Result<Edit>
  {
    if n.Scalar? || n.kind != MapKind || n.children == [] then Err("cannot insert into an empty or non-mapping YAML node")
    else if n.children[0].line < 1 || n.children[0].col < 1 then Err("invalid YAML source position for mapping")
    else
      var indent := n.children[0].col - 1;
      var point := PointFrom(input, Starts(input), n.children[0].line, indent);
      var text := InsertedText(em, content, indent);
      Ok(Edit(point, point, if 0 < point <= |input| && input[point - 1] != '\n' then "\n" + text else text))
  }

  function SpanOf(em: Emitter, input: string, w: Work, a: Address): Result<Edit> {
    if !InTree(w.root, a) then Err("no such node")
    else if a in w.edits then TokenSpan(em, input, At(w.root, a), w.edits[a])
    else if a in w.insertions then InsertSpan(em, input, At(w.root, a), Noted(At(w.root, a), w.insertions[a]))
    else Err("no such edit")
  }

  function SpanAt(em: Emitter, input: string, w: Work, a: Address): Edit {
    match SpanOf(em, input, w, a)
    case Ok(e) => e
    case Err(_) => Edit(0, 0, "")
  }

  function Spans(em: Emitter, input: string, w: Work, order: seq<Address>): (r: seq<Edit>)
    ensures |r| == |order|
    ensures forall i :: 0 <= i < |r| ==> r[i] == SpanAt(em, input, w, order[i])
  {
    if order == [] then [] else [SpanAt(em, input, w, order[0])] + Spans(em, input, w, order[1..])
  }

  lemma {:induction false} SpansConcat(em: Emitter, input: string, w: Work, a: seq<Address>, b: seq<Address>)
    ensures Spans(em, input, w, a + b) == Spans(em, input, w, a) + Spans(em, input, w, b)
  {
  }

  // ----- edits in document order -----

  /** The nodes with a pending change, in the order their spans occur in the text. */
  function Order(c: Cst, a: Address, w: Work): seq<Address>
    decreases c, 1
  {
    match c
    case Leaf(_, _, _, _, _, _) => if a in w.edits then [a] else []
    case Block(_, _, _, entries) => OrderEntries(entries, a, 0, w) + if a in w.insertions then [a] else []
  }

  function OrderEntries(entries: seq<Entry>, a: Address, i: nat, w: Work): seq<Address>
    decreases entries, 0
  {
    if entries == [] then []
    else Order(entries[0].value, a + [i], w) + OrderEntries(entries[1..], a, i + 1, w)
  }

  /** The layout with its edits and insertions made: the token re-rendered, new entries at the block's end. */
  function Updated(em: Emitter, c: Cst, a: Address, n: Node, w: Work): Cst
    decreases c, 1
  {
    match c
    case Leaf(_, style, _, _, _, _) =>
      if a in w.edits then
        c.(style := RenderStyle(em, w.edits[a], style), value := w.edits[a], token := RenderScalar(em, w.edits[a], style))
      else c
    case Block(_, _, indent, entries) =>
      if n.Branch? && |n.children| >= |entries| then
        c.(entries := UpdatedEntries(em, entries, a, 0, n.children[..|entries|], w)
                      + NewEntries(em, n.children[|entries|..], indent))
      else c
  }

  function UpdatedEntries(em: Emitter, entries: seq<Entry>, a: Address, i: nat, ns: seq<Child>, w: Work): (r: seq<Entry>)
    requires |ns| == |entries|
    ensures |r| == |entries|
    decreases entries, 0
  {
    if entries == [] then []
    else
      [entries[0].(value := Updated(em, entries[0].value, a + [i], ns[0].node, w))]
      + UpdatedEntries(em, entries[1..], a, i + 1, ns[1..], w)
  }

  /** Every edited leaf is editable, and every value is one line. */
  predicate Ready(c: Cst, a: Address, w: Work)
    decreases c, 1
  {
    match c
    case Leaf(_, _, _, _, _, _) => a in w.edits ==> Editable(c) && OneLine(w.edits[a])
    case Block(_, _, _, entries) => ReadyEntries(entries, a, 0, w)
  }

  predicate ReadyEntries(entries: seq<Entry>, a: Address, i: nat, w: Work)
    decreases entries, 0
  {
    entries == [] || (Ready(entries[0].value, a + [i], w) && ReadyEntries(entries[1..], a, i + 1, w))
  }

  // ----- segments of the text -----

  /** The spans lie in [pos, mid) and turn that stretch of the input into out. */
  ghost predicate Turns(input: string, pos: nat, mid: nat, spans: seq<Edit>, out: string) {
    mid <= |input| && InOrder(spans, pos, mid) && Substitute(input[..mid], pos, spans) == out
  }

  lemma TurnsJoin(input: string, p: nat, m: nat, q: nat, a: seq<Edit>, b: seq<Edit>, x: string, y: string)
    requires Turns(input, p, m, a, x) && Turns(input, m, q, b, y)
    ensures Turns(input, p, q, a + b, x + y)
  {
    InOrderBounds(a, p, m);
    InOrderBounds(b, m, q);
    assert input[..q][..m] == input[..m];
    SubstituteSplit(input[..q], p, m, a, b);
  }

  lemma TurnsNothing(input: string, p: nat, m: nat)
    requires p <= m <= |input|
    ensures Turns(input, p, m, [], input[p..m])
  {
    assert input[..m][p..] == input[p..m];
  }

  lemma TurnsOne(input: string, p: nat, m: nat, e: Edit)
    requires p <= e.start <= e.end <= m <= |input|
    ensures Turns(input, p, m, [e], input[p..e.start] + e.value + input[e.end..m])
  {
    assert [e][1..] == [];
    assert input[..m][p..e.start] == input[p..e.start];
    assert input[..m][e.end..] == input[e.end..m];
  }

  /** Lines without a pending change stay as they are. */
  lemma TurnsLines(pre: seq<string>, lines: seq<string>, post: seq<string>)
    ensures var input := Joined(pre + lines + post);
            Turns(input, |Joined(pre)|, |Joined(pre + lines)|, [], Joined(lines))
  {
    var input := Joined(pre + lines + post);
    JoinedConcat(pre + lines, post);
    JoinedConcat(pre, lines);
    TurnsNothing(input, |Joined(pre)|, |Joined(pre + lines)|);
    assert input[|Joined(pre)|..|Joined(pre + lines)|] == Joined(lines);
  }

  // ----- one leaf -----

  lemma DelimitedFurther(style: Style, tail: string, more: string)
    requires Delimited(style, tail + "\n")
    ensures Delimited(style, tail + "\n" + more)
  {
    var a, b := tail + "\n", tail + "\n" + more;
    var w := Blanks(a);
    assert forall i :: 0 <= i < |a| ==> b[i] == a[i];
    assert a[|tail|] == '\n';
    assert Blanks(b) == w;
  }

  lemma LineStartsHere(pre: seq<string>, lines: seq<string>, post: seq<string>)
    requires NoFeeds(pre) && NoFeeds(lines) && NoFeeds(post)
    ensures var input := Joined(pre + lines + post);
            && |Starts(input)| > |pre| && Starts(input)[|pre|] == |Joined(pre)|
            && input == Joined(pre) + Joined(lines) + Joined(post)
  {
    hide Joined, Starts;
    NoFeedsConcat(pre, lines);
    NoFeedsConcat(pre + lines, post);
    LineStartsAt(pre + lines + post, |pre|);
    assert (pre + lines + post)[..|pre|] == pre;
    JoinedConcat(pre + lines, post);
    JoinedConcat(pre, lines);
  }

  lemma TokenScanned(before: string, lead: string, style: Style, token: string, tail: string, more: string)
    requires TokenShape(style, token) && Delimited(style, tail + "\n")
    ensures TokenEnd(before + (lead + token + ((tail + "\n") + more)), |before| + |lead|, style) == Ok(|before| + |lead| + |token|)
  {
    hide TokenShape, Delimited, TokenEnd;
    DelimitedFurther(style, tail, more);
    ScanFindsToken(before + lead, style, token, (tail + "\n") + more);
    assert before + (lead + token + ((tail + "\n") + more)) == (before + lead) + token + ((tail + "\n") + more);
  }

  lemma TokenPlaced(pre: seq<string>, lead: string, style: Style, token: string, tail: string, body: seq<string>, post: seq<string>)
    requires NoFeeds(pre) && NoFeeds([lead + token + tail] + body) && NoFeeds(post)
    requires TokenShape(style, token) && Delimited(style, tail + "\n")
    ensures var input := Joined(pre + ([lead + token + tail] + body) + post);
            && |Starts(input)| > |pre| && Starts(input)[|pre|] == |Joined(pre)|
            && TokenEnd(input, |Joined(pre)| + |lead|, style) == Ok(|Joined(pre)| + |lead| + |token|)
  {
    hide TokenShape, Delimited, TokenEnd, Joined, Starts, NoFeeds;
    LineStartsHere(pre, [lead + token + tail] + body, post);
    JoinedConcat([lead + token + tail], body);
    JoinedOne(lead + token + tail);
    var more := Joined(body) + Joined(post);
    TokenScanned(Joined(pre), lead, style, token, tail, more);
    assert Joined(pre) + (lead + token + tail + "\n" + Joined(body)) + Joined(post)
        == Joined(pre) + (lead + token + ((tail + "\n") + more));
  }

  lemma TokenSpanIs(em: Emitter, input: string, w: Work, a: Address, line: nat, start: nat, end: nat)
    requires InTree(w.root, a) && a in w.edits && At(w.root, a).Scalar? && !IsBlock(At(w.root, a).style)
    requires At(w.root, a).line == line + 1 && At(w.root, a).col >= 1
    requires line < |Starts(input)| && Starts(input)[line] + At(w.root, a).col - 1 == start
    requires TokenEnd(input, start, At(w.root, a).style) == Ok(end)
    ensures SpanOf(em, input, w, a) == Ok(Edit(start, end, RenderScalar(em, w.edits[a], At(w.root, a).style)))
  {
    hide RenderScalar, InTree, At, Starts, TokenEnd;
  }

  lemma LeafFacts(root0: Node, w: Work, c: Cst, head: string, k: int, line: nat, a: Address)
    requires c.Leaf? && Wf(c, head, k) && Overlaid(root0, w) && InTree(root0, a) && At(root0, a) == Place(c, head, line)
    ensures InTree(w.root, a) && At(w.root, a).Scalar? && At(w.root, a).style == c.style
    ensures At(w.root, a).line == line + 1 && At(w.root, a).col == |head + c.gap| + 1
    ensures Lines(c, head) == [(head + c.gap) + c.token + c.tail] + c.body && NoFeeds(Lines(c, head))
    ensures head + c.gap != [] && NoFeed(head + c.gap)
  {
    assert Covers(At(root0, a), At(w.root, a), a, w);
    LinesHaveNoFeeds(c, head, k);
    var all := head + c.gap + c.token + c.tail;
    assert forall i :: 0 <= i < |head + c.gap| ==> (head + c.gap)[i] == all[i];
  }

  /** The token of an edited leaf is found where the node says it is. */
  lemma LeafSpan(em: Emitter, root0: Node, w: Work, c: Cst, head: string, k: int, pre: seq<string>, post: seq<string>, a: Address)
    requires c.Leaf? && Wf(c, head, k) && Editable(c) && NoFeeds(pre) && NoFeeds(post)
    requires Overlaid(root0, w) && InTree(root0, a) && At(root0, a) == Place(c, head, |pre|) && a in w.edits
    ensures var input, start := Joined(pre + Lines(c, head) + post), |Joined(pre)| + |head + c.gap|;
            SpanOf(em, input, w, a) == Ok(Edit(start, start + |c.token|, RenderScalar(em, w.edits[a], c.style)))
  {
    hide Joined, TokenShape, Delimited, Starts, TokenEnd, RenderScalar, InTree, At, SpanOf, Overlaid, Wf, Place, Lines, NoFeeds;
    LeafFacts(root0, w, c, head, k, |pre|, a);
    TokenPlaced(pre, head + c.gap, c.style, c.token, c.tail, c.body, post);
    EditableStyle(c);
    var start := |Joined(pre)| + |head + c.gap|;
    TokenSpanIs(em, Joined(pre + Lines(c, head) + post), w, a, |pre|, start, start + |c.token|);
  }

  lemma EditableStyle(c: Cst)
    requires Editable(c)
    ensures !IsBlock(c.style) && c.token != []
  {
  }

  lemma TokenSane(pre: seq<string>, lead: string, token: string, tail: string, body: seq<string>, post: seq<string>)
    requires lead != [] && NoFeed(lead)
    ensures var input, start := Joined(pre + ([lead + token + tail] + body) + post), |Joined(pre)| + |lead|;
            0 < start <= |input| && input[start - 1] != '\n'
  {
    hide Joined;
    var lines := [lead + token + tail] + body;
    JoinedConcat(pre + lines, post);
    JoinedConcat(pre, lines);
    JoinedConcat([lead + token + tail], body);
    JoinedOne(lead + token + tail);
    var input := Joined(pre + lines + post);
    assert input == Joined(pre) + (lead + (token + tail + "\n" + Joined(body) + Joined(post)));
    assert input[|Joined(pre)| + |lead| - 1] == lead[|lead| - 1];
  }

  lemma TurnsToken(pre: seq<string>, lead: string, token: string, tail: string, body: seq<string>, post: seq<string>, e: Edit)
    requires e.start == |Joined(pre)| + |lead| && e.end == e.start + |token|
    ensures var line := [lead + token + tail] + body;
            Turns(Joined(pre + line + post), |Joined(pre)|, |Joined(pre + line)|, [e], Joined([lead + e.value + tail] + body))
  {
    hide Joined, Turns;
    var lines := [lead + token + tail] + body;
    var input, p, m := Joined(pre + lines + post), |Joined(pre)|, |Joined(pre + lines)|;
    JoinedConcat(pre + lines, post);
    JoinedConcat(pre, lines);
    JoinedConcat([lead + token + tail], body);
    JoinedOne(lead + token + tail);
    JoinedConcat([lead + e.value + tail], body);
    JoinedOne(lead + e.value + tail);
    var rest := tail + "\n" + Joined(body);
    assert Joined(lines) == lead + token + rest;
    assert Joined([lead + e.value + tail] + body) == lead + e.value + rest;
    assert input[p..e.start] == lead && input[e.end..m] == rest;
    TurnsOne(input, p, m, e);
  }

  lemma LeafTurns(em: Emitter, root0: Node, w: Work, c: Cst, head: string, k: int, pre: seq<string>, post: seq<string>, a: Address)
    requires c.Leaf? && Wf(c, head, k) && Editable(c) && NoFeeds(pre) && NoFeeds(post)
    requires Overlaid(root0, w) && InTree(root0, a) && At(root0, a) == Place(c, head, |pre|) && a in w.edits
    ensures var input := Joined(pre + Lines(c, head) + post);
            && InTree(w.root, a)
            && SpanOf(em, input, w, a).Ok? && SpanSane(input, SpanAt(em, input, w, a), true)
            && Turns(input, |Joined(pre)|, |Joined(pre + Lines(c, head))|, [SpanAt(em, input, w, a)],
                     Joined(Lines(Updated(em, c, a, At(w.root, a), w), head)))
  {
    hide Joined, Turns, Editable, RenderScalar, InTree, At, SpanOf, Overlaid, Wf, Place, NoFeeds;
    LeafFacts(root0, w, c, head, k, |pre|, a);
    LeafSpan(em, root0, w, c, head, k, pre, post, a);
    TurnsToken(pre, head + c.gap, c.token, c.tail, c.body, post, SpanAt(em, Joined(pre + Lines(c, head) + post), w, a));
    TokenSane(pre, head + c.gap, c.token, c.tail, c.body, post);
    EditableStyle(c);
  }

  // ----- one insertion -----

  /** The line after a block, when there is one, is a content line no deeper than k. */
  predicate Follows(post: seq<string>, k: int) {
    post == [] || (IsContent(post[0]) && (LeadingSpaces(post[0]) <= k || LeadingSpaces(post[0]) == 0))
  }

  /** Where the block's first entry line is, and the head it continues. */
  function FirstHead(c: Cst, head: string): string
    requires c.Block?
  {
    match c.own case OwnLine(_, _) => Spaces(c.indent) case Inline(gap) => head + gap
  }

  function OwnLines(c: Cst, head: string): seq<string>
    requires c.Block?
  {
    match c.own case OwnLine(tail, body) => [head + tail] + body case Inline(_) => []
  }

  lemma BlockParts(c: Cst, head: string, k: int, line: nat)
    requires c.Block? && Wf(c, head, k)
    ensures Lines(c, head) == OwnLines(c, head) + EntryLines(c.kind, c.indent, c.entries, FirstHead(c, head))
    ensures EntriesWf(c.kind, c.indent, c.entries, FirstHead(c, head)) && NoFeeds(OwnLines(c, head))
    ensures |FirstHead(c, head)| == c.indent && c.entries != [] && k <= c.indent && (c.kind == MapKind ==> k < c.indent)
    ensures Place(c, head, line).Branch? && Place(c, head, line).kind == c.kind && Place(c, head, line).line > 0
    ensures Place(c, head, line).children
            == PlaceEntries(c.kind, c.indent, c.entries, FirstHead(c, head), line + |OwnLines(c, head)|)
  {
    if c.own.Inline? {
      assert [] + EntryLines(c.kind, c.indent, c.entries, FirstHead(c, head))
          == EntryLines(c.kind, c.indent, c.entries, FirstHead(c, head));
    }
  }

  /** The search from the first key's line ends right behind the block's last line. */
  lemma PointAfterBlock(c: Cst, head: string, k: int, pre: seq<string>, post: seq<string>)
    requires c.Block? && c.kind == MapKind && Wf(c, head, k) && NoFeeds(pre) && NoFeeds(post)
    requires Follows(post, k) && (c.indent == 0 ==> post == [])
    ensures var input := Joined(pre + Lines(c, head) + post);
            PointFrom(input, Starts(input), |pre| + |OwnLines(c, head)| + 1, c.indent) == |Joined(pre + Lines(c, head))|
  {
    hide Joined, EntryLines, EntriesWf, Lines, Wf, FirstHead, OwnLines, PointFrom, Starts;
    BlockParts(c, head, k, |pre|);
    var entries := EntryLines(c.kind, c.indent, c.entries, FirstHead(c, head));
    var before := pre + OwnLines(c, head);
    var lines := pre + Lines(c, head) + post;
    EntriesAreDeep(c.kind, c.indent, c.entries, FirstHead(c, head));
    EntriesHaveNoFeeds(c.kind, c.indent, c.entries, FirstHead(c, head));
    assert lines == before + entries + post;
    var from, end := |before| + 1, |before| + |entries|;
    forall i | from <= i < end
      ensures !(IsContent(lines[i]) && LeadingSpaces(lines[i]) < c.indent)
    {
      assert lines[i] == entries[1..][i - from];
      assert LineOk(entries[1..][i - from], c.indent);
    }
    if end < |lines| { assert lines[end] == post[0]; }
    PointSkips(lines, from, end, c.indent);
    assert lines[..end] == pre + Lines(c, head);
  }

  lemma {:induction false} JoinedEndsWithFeed(lines: seq<string>)
    requires lines != []
    ensures Joined(lines) != [] && Joined(lines)[|Joined(lines)| - 1] == '\n'
  {
    if |lines| > 1 { JoinedEndsWithFeed(lines[1..]); }
  }

  lemma FeedBefore(lines: seq<string>, post: seq<string>)
    requires lines != []
    ensures var input, q := Joined(lines + post), |Joined(lines)|; 0 < q <= |input| && input[q - 1] == '\n'
  {
    JoinedEndsWithFeed(lines);
    JoinedConcat(lines, post);
  }

  lemma InsertedLines(em: Emitter, content: seq<Child>, indent: nat)
    ensures InsertedText(em, content, indent)
            == Joined(EntryLines(MapKind, indent, NewEntries(em, content, indent), Spaces(indent)))
  {
    ShiftedEntries(em, content, "", 0, indent);
    assert Spaces(indent) + "" == Spaces(indent);
  }

  /** The first key of a source mapping still carries the position the layout gives it. */
  lemma FirstKey(root0: Node, w: Work, c: Cst, head: string, k: int, line: nat, a: Address)
    requires c.Block? && Wf(c, head, k) && Overlaid(root0, w) && InTree(root0, a) && At(root0, a) == Place(c, head, line)
    ensures InTree(w.root, a) && At(w.root, a).Branch? && At(w.root, a).kind == c.kind
    ensures |At(w.root, a).children| >= |c.entries| > 0
    ensures At(w.root, a).children[0].line == line + |OwnLines(c, head)| + 1
    ensures At(w.root, a).children[0].col == c.indent + 1
    ensures a in w.insertions <==> |At(w.root, a).children| > |c.entries|
    ensures a in w.insertions ==> c.kind == MapKind && w.insertions[a] == Range(|c.entries|, |At(w.root, a).children|)
  {
    hide Wf, Lines, EntryLines, FirstHead, OwnLines;
    BlockParts(c, head, k, line);
    assert Covers(At(root0, a), At(w.root, a), a, w);
    assert SameEntry(At(root0, a).children[0], At(w.root, a).children[0]);
  }

  lemma InsertSpanIs(em: Emitter, root0: Node, w: Work, c: Cst, head: string, k: int, pre: seq<string>, post: seq<string>, a: Address)
    requires c.Block? && Wf(c, head, k) && NoFeeds(pre) && NoFeeds(post)
    requires Follows(post, k) && (c.indent == 0 ==> post == [])
    requires Overlaid(root0, w) && InTree(root0, a) && At(root0, a) == Place(c, head, |pre|)
    requires a in w.insertions && a !in w.edits
    ensures var input, q := Joined(pre + Lines(c, head) + post), |Joined(pre + Lines(c, head))|;
            && InTree(w.root, a) && At(w.root, a).Branch? && |At(w.root, a).children| >= |c.entries|
            && SpanOf(em, input, w, a) == Ok(Edit(q, q, InsertedText(em, At(w.root, a).children[|c.entries|..], c.indent)))
  {
    hide Wf, Lines, Place, Joined, Starts, PointFrom, InsertedText, OwnLines, Overlaid, Follows, InTree, At, Noted;
    FirstKey(root0, w, c, head, k, |pre|, a);
    PointAfterBlock(c, head, k, pre, post);
    var n := At(w.root, a);
    NotedRange(n, |c.entries|, |n.children|);
    assert n.children[|c.entries|..|n.children|] == n.children[|c.entries|..];
    HeadLine(c, head, k);
    FeedBefore(pre + Lines(c, head), post);
  }

  lemma InsertTurns(em: Emitter, root0: Node, w: Work, c: Cst, head: string, k: int, pre: seq<string>, post: seq<string>, a: Address)
    requires c.Block? && Wf(c, head, k) && NoFeeds(pre) && NoFeeds(post)
    requires Follows(post, k) && (c.indent == 0 ==> post == [])
    requires Overlaid(root0, w) && InTree(root0, a) && At(root0, a) == Place(c, head, |pre|)
    requires a in w.insertions && a !in w.edits
    ensures var input, q := Joined(pre + Lines(c, head) + post), |Joined(pre + Lines(c, head))|;
            && InTree(w.root, a) && At(w.root, a).Branch? && |At(w.root, a).children| >= |c.entries|
            && SpanOf(em, input, w, a).Ok? && SpanSane(input, SpanAt(em, input, w, a), false)
            && Turns(input, q, q, [SpanAt(em, input, w, a)],
                     Joined(EntryLines(MapKind, c.indent, NewEntries(em, At(w.root, a).children[|c.entries|..], c.indent), Spaces(c.indent))))
  {
    hide Wf, Lines, Place, Joined, Turns, SpanOf, InsertedText, Overlaid, Follows, InTree, At, EntryLines, NewEntries;
    var input, q := Joined(pre + Lines(c, head) + post), |Joined(pre + Lines(c, head))|;
    InsertSpanIs(em, root0, w, c, head, k, pre, post, a);
    InsertedLines(em, At(w.root, a).children[|c.entries|..], c.indent);
    HeadLine(c, head, k);
    FeedBefore(pre + Lines(c, head), post);
    JoinedConcat(pre + Lines(c, head), post);
    var e := SpanAt(em, input, w, a);
    TurnsOne(input, q, q, e);
    assert input[q..q] + e.value + input[q..q] == e.value;
  }

  // ----- whole layouts -----

  /** A token span is not empty and does not begin a line; an insertion does begin one. */
  predicate SpanSane(input: string, e: Edit, token: bool) {
    && 0 < e.start <= |input|
    && (token ==> e.start < e.end && input[e.start - 1] != '\n')
    && (!token ==> e.start == e.end && input[e.start - 1] == '\n')
  }

  ghost predicate AllOk(em: Emitter, input: string, w: Work, order: seq<Address>) {
    forall i :: 0 <= i < |order| ==>
      SpanOf(em, input, w, order[i]).Ok? && SpanSane(input, SpanAt(em, input, w, order[i]), order[i] in w.edits)
  }

  /** The pending changes of c, applied to c's stretch of the text, give the text of the updated c. */
  lemma {:induction false} LayoutTurns(em: Emitter, root0: Node, w: Work, c: Cst, head: string, k: int,
                                       pre: seq<string>, post: seq<string>, a: Address)
    requires Wf(c, head, k) && Ready(c, a, w) && NoFeeds(pre) && NoFeeds(post)
    requires Follows(post, k) && (a in w.insertions && c.Block? && c.indent == 0 ==> post == [])
    requires Overlaid(root0, w) && InTree(root0, a) && At(root0, a) == Place(c, head, |pre|)
    ensures var input := Joined(pre + Lines(c, head) + post);
            && AllOk(em, input, w, Order(c, a, w))
            && Turns(input, |Joined(pre)|, |Joined(pre + Lines(c, head))|, Spans(em, input, w, Order(c, a, w)),
                     Joined(Lines(Updated(em, c, a, At(w.root, a), w), head)))
    decreases c, 1
  {
    var input := Joined(pre + Lines(c, head) + post);
    if c.Leaf? {
      if a in w.edits {
        assert Editable(c);
        LeafTurns(em, root0, w, c, head, k, pre, post, a);
        assert Spans(em, input, w, [a]) == [SpanAt(em, input, w, a)];
      } else {
        TurnsLines(pre, Lines(c, head), post);
      }
    } else {
      BlockTurns(em, root0, w, c, head, k, pre, post, a);
    }
  }

  lemma {:induction false} BlockTurns(em: Emitter, root0: Node, w: Work, c: Cst, head: string, k: int,
                                      pre: seq<string>, post: seq<string>, a: Address)
    requires c.Block? && Wf(c, head, k) && Ready(c, a, w) && NoFeeds(pre) && NoFeeds(post)
    requires Follows(post, k) && (a in w.insertions && c.indent == 0 ==> post == [])
    requires Overlaid(root0, w) && InTree(root0, a) && At(root0, a) == Place(c, head, |pre|)
    ensures var input := Joined(pre + Lines(c, head) + post);
            && AllOk(em, input, w, Order(c, a, w))
            && Turns(input, |Joined(pre)|, |Joined(pre + Lines(c, head))|, Spans(em, input, w, Order(c, a, w)),
                     Joined(Lines(Updated(em, c, a, At(w.root, a), w), head)))
    decreases c, 0
  {
    hide Turns, Joined, EntryLines, EntriesWf, PlaceEntries, UpdatedEntries, OrderEntries, NewEntries, Lines, Place, Wf, Spans, SpanOf, LeadingSpaces, IsContent, FirstHead, OwnLines;
    BlockParts(c, head, k, |pre|);
    var own, first := OwnLines(c, head), FirstHead(c, head);
    var entries := EntryLines(c.kind, c.indent, c.entries, first);
    var input, n := Joined(pre + Lines(c, head) + post), At(w.root, a);
    assert Covers(At(root0, a), n, a, w);
    assert pre + Lines(c, head) + post == pre + own + (entries + post) == (pre + own) + entries + post;
    assert pre + Lines(c, head) == (pre + own) + entries;

    TurnsLines(pre, own, entries + post);
    EntriesTurns(em, root0, w, c.kind, c.indent, c.entries, first, pre + own, post, a, 0);
    var inner := Spans(em, input, w, OrderEntries(c.entries, a, 0, w));
    var ues := UpdatedEntries(em, c.entries, a, 0, n.children[..|c.entries|], w);
    var p, m, q := |Joined(pre)|, |Joined(pre + own)|, |Joined(pre + Lines(c, head))|;
    var middle := Joined(EntryLines(c.kind, c.indent, ues, first));
    assert n.children[0..|c.entries|] == n.children[..|c.entries|];
    TurnsJoin(input, p, m, q, [], inner, Joined(own), middle);
    assert [] + inner == inner;

    var news := NewEntries(em, n.children[|c.entries|..], c.indent);
    var tail := if a in w.insertions then [a] else [];
    var extra := Joined(EntryLines(c.kind, c.indent, news, Spaces(c.indent)));
    if a in w.insertions {
      InsertTurns(em, root0, w, c, head, k, pre, post, a);
      assert Spans(em, input, w, [a]) == [SpanAt(em, input, w, a)];
    } else {
      assert |news| == 0;
      NoEntryLines(c.kind, c.indent, Spaces(c.indent));
      TurnsNothing(input, q, q);
      assert input[q..q] == "";
    }
    TurnsJoin(input, p, q, q, inner, Spans(em, input, w, tail), Joined(own) + middle, extra);
    SpansConcat(em, input, w, OrderEntries(c.entries, a, 0, w), tail);
    UpdatedBlockLines(c, head, own, ues, news, first);
  }

  lemma NoEntryLines(kind: Kind, indent: nat, first: string)
    ensures Joined(EntryLines(kind, indent, [], first)) == ""
  {
  }

  lemma UpdatedBlockLines(c: Cst, head: string, own: seq<string>, ues: seq<Entry>, news: seq<Entry>, first: string)
    requires c.Block? && own == OwnLines(c, head) && first == FirstHead(c, head) && ues != []
    ensures Joined(Lines(c.(entries := ues + news), head))
            == Joined(own) + Joined(EntryLines(c.kind, c.indent, ues, first))
             + Joined(EntryLines(c.kind, c.indent, news, Spaces(c.indent)))
  {
    var a, b := EntryLines(c.kind, c.indent, ues, first), EntryLines(c.kind, c.indent, news, Spaces(c.indent));
    EntryLinesConcat(c.kind, c.indent, ues, news, first);
    assert Lines(c.(entries := ues + news), head) == own + (a + b);
    JoinedConcat(own, a + b);
    JoinedConcat(a, b);
  }

  /** The next entry of a block: its node, in the decoded tree and in the final one, and what is left. */
  lemma EntryPlaced(root0: Node, w: Work, kind: Kind, indent: nat, entries: seq<Entry>, first: string, line: nat, a: Address, i: nat)
    requires entries != [] && EntriesWf(kind, indent, entries, first)
    requires Overlaid(root0, w) && InTree(root0, a)
    requires At(root0, a).Branch? && i + |entries| == |At(root0, a).children|
    requires At(root0, a).children[i..] == PlaceEntries(kind, indent, entries, first, line)
    ensures var head := first + Label(kind, entries[0]);
            && InTree(root0, a + [i]) && At(root0, a + [i]) == Place(entries[0].value, head, line)
            && At(root0, a).children[i + 1..]
               == PlaceEntries(kind, indent, entries[1..], Spaces(indent), line + |Lines(entries[0].value, head)|)
    ensures InTree(w.root, a) && At(w.root, a).Branch? && i + |entries| <= |At(w.root, a).children|
    ensures InTree(w.root, a + [i]) && At(w.root, a + [i]) == At(w.root, a).children[i].node
    ensures a + [i] in w.insertions && entries[0].value.Block? ==> entries[0].value.indent > 0
  {
    hide Lines, EntryLines;
    var x, n := At(root0, a), At(w.root, a);
    assert Covers(x, n, a, w);
    var places := PlaceEntries(kind, indent, entries, first, line);
    assert x.children[i..][0] == x.children[i] && x.children[i..][1..] == x.children[i + 1..];
    InTreeJoin(root0, a, [i]);
    InTreeJoin(w.root, a, [i]);
    assert InTree(root0, a + [i]) && InTree(w.root, a + [i]);
  }

  lemma {:induction false} EntriesTurns(em: Emitter, root0: Node, w: Work, kind: Kind, indent: nat, entries: seq<Entry>,
                                        first: string, pre: seq<string>, post: seq<string>, a: Address, i: nat)
    requires EntriesWf(kind, indent, entries, first) && ReadyEntries(entries, a, i, w) && NoFeeds(pre) && NoFeeds(post)
    requires Follows(post, indent) && Overlaid(root0, w) && InTree(root0, a)
    requires At(root0, a).Branch? && At(root0, a).kind == kind && i + |entries| == |At(root0, a).children|
    requires At(root0, a).children[i..] == PlaceEntries(kind, indent, entries, first, |pre|)
    ensures var lines, n := EntryLines(kind, indent, entries, first), At(w.root, a);
            var input := Joined(pre + lines + post);
            && n.Branch? && i + |entries| <= |n.children|
            && AllOk(em, input, w, OrderEntries(entries, a, i, w))
            && Turns(input, |Joined(pre)|, |Joined(pre + lines)|, Spans(em, input, w, OrderEntries(entries, a, i, w)),
                     Joined(EntryLines(kind, indent, UpdatedEntries(em, entries, a, i, n.children[i..i + |entries|], w), first)))
    decreases entries, 0
  {
    hide Turns, Joined, Lines, Place, PlaceEntries, Wf, Spans, SpanOf, Follows, Order, Updated, Label, Overlaid, InTree, At, Ready, NoFeeds, LabelOk, AllOk;
    if entries == [] {
      NoEntriesTurn(em, root0, w, kind, indent, first, pre, post, a, i);
    } else {
      var lines := EntryLines(kind, indent, entries, first);
      var input := Joined(pre + lines + post);
      var e, head := entries[0], first + Label(kind, entries[0]);
      var mine, rest := Lines(e.value, head), EntryLines(kind, indent, entries[1..], Spaces(indent));
      EntryPlaced(root0, w, kind, indent, entries, first, |pre|, a, i);
      var n := At(w.root, a);
      LinesHaveNoFeeds(e.value, head, indent);
      EntriesHaveNoFeeds(kind, indent, entries[1..], Spaces(indent));
      FollowedByEntries(kind, indent, entries[1..], post);
      NoFeedsConcat(pre, mine);
      NoFeedsConcat(rest, post);
      Regroup(pre, mine, rest, post);
      LayoutTurns(em, root0, w, e.value, head, indent, pre, rest + post, a + [i]);
      EntriesTurns(em, root0, w, kind, indent, entries[1..], Spaces(indent), pre + mine, post, a, i + 1);
      var ns := n.children[i..i + |entries|];
      assert ns[0] == n.children[i] && ns[1..] == n.children[i + 1..i + 1 + |entries[1..]|];
      AllOkConcat(em, input, w, Order(e.value, a + [i], w), OrderEntries(entries[1..], a, i + 1, w));
      EntryJoins(em, w, kind, indent, entries, first, input, |Joined(pre)|, |Joined(pre + mine)|, |Joined(pre + lines)|, a, i, ns);
    }
  }

  lemma Regroup(pre: seq<string>, mine: seq<string>, rest: seq<string>, post: seq<string>)
    ensures pre + (mine + rest) + post == pre + mine + (rest + post)
    ensures pre + (mine + rest) + post == (pre + mine) + rest + post
    ensures pre + (mine + rest) == (pre + mine) + rest
  {
  }

  lemma AllOkConcat(em: Emitter, input: string, w: Work, a: seq<Address>, b: seq<Address>)
    requires AllOk(em, input, w, a) && AllOk(em, input, w, b)
    ensures AllOk(em, input, w, a + b)
  {
    hide SpanOf;
  }

  /** An entry's stretch of the text, then the others'. */
  lemma EntryJoins(em: Emitter, w: Work, kind: Kind, indent: nat, entries: seq<Entry>, first: string,
                   input: string, p: nat, m: nat, q: nat, a: Address, i: nat, ns: seq<Child>)
    requires entries != [] && |ns| == |entries|
    requires Turns(input, p, m, Spans(em, input, w, Order(entries[0].value, a + [i], w)),
                   Joined(Lines(Updated(em, entries[0].value, a + [i], ns[0].node, w), first + Label(kind, entries[0]))))
    requires Turns(input, m, q, Spans(em, input, w, OrderEntries(entries[1..], a, i + 1, w)),
                   Joined(EntryLines(kind, indent, UpdatedEntries(em, entries[1..], a, i + 1, ns[1..], w), Spaces(indent))))
    ensures Turns(input, p, q, Spans(em, input, w, OrderEntries(entries, a, i, w)),
                  Joined(EntryLines(kind, indent, UpdatedEntries(em, entries, a, i, ns, w), first)))
  {
    hide Turns, Joined, Lines, Spans, Order, Updated, EntryLines;
    var ua := Updated(em, entries[0].value, a + [i], ns[0].node, w);
    var ub := UpdatedEntries(em, entries[1..], a, i + 1, ns[1..], w);
    var oa, ob := Order(entries[0].value, a + [i], w), OrderEntries(entries[1..], a, i + 1, w);
    SpansConcat(em, input, w, oa, ob);
    TurnsJoin(input, p, m, q, Spans(em, input, w, oa), Spans(em, input, w, ob),
              Joined(Lines(ua, first + Label(kind, entries[0]))), Joined(EntryLines(kind, indent, ub, Spaces(indent))));
    UpdatedRunLines(kind, indent, entries[0], ua, ub, first);
  }

  lemma NoEntriesTurn(em: Emitter, root0: Node, w: Work, kind: Kind, indent: nat, first: string,
                      pre: seq<string>, post: seq<string>, a: Address, i: nat)
    requires Overlaid(root0, w) && InTree(root0, a) && At(root0, a).Branch? && i == |At(root0, a).children|
    ensures InTree(w.root, a) && At(w.root, a).Branch? && i <= |At(w.root, a).children|
    ensures var input := Joined(pre + EntryLines(kind, indent, [], first) + post);
            AllOk(em, input, w, []) && Turns(input, |Joined(pre)|, |Joined(pre + EntryLines(kind, indent, [], first))|, Spans(em, input, w, []),
                                               Joined(EntryLines(kind, indent, [], first)))
  {
    assert Covers(At(root0, a), At(w.root, a), a, w);
    assert EntryLines(kind, indent, [], first) == [];
    TurnsLines(pre, [], post);
  }

  lemma UpdatedRunLines(kind: Kind, indent: nat, e: Entry, ua: Cst, ub: seq<Entry>, first: string)
    ensures Joined(EntryLines(kind, indent, [e.(value := ua)] + ub, first))
            == Joined(Lines(ua, first + Label(kind, e))) + Joined(EntryLines(kind, indent, ub, Spaces(indent)))
  {
    var all := [e.(value := ua)] + ub;
    assert all[0] == e.(value := ua) && all[1..] == ub;
    JoinedConcat(Lines(ua, first + Label(kind, e)), EntryLines(kind, indent, ub, Spaces(indent)));
  }

  lemma FollowedByEntries(kind: Kind, indent: nat, entries: seq<Entry>, post: seq<string>)
    requires EntriesWf(kind, indent, entries, Spaces(indent)) && Follows(post, indent)
    ensures Follows(EntryLines(kind, indent, entries, Spaces(indent)) + post, indent)
  {
    var rest := EntryLines(kind, indent, entries, Spaces(indent));
    if entries == [] {
      assert rest + post == post;
    } else {
      HeadLine(entries[0].value, Spaces(indent) + Label(kind, entries[0]), indent);
      OwnEntryLine(kind, indent, entries[0], rest[0]);
    }
  }
}
