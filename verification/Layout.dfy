/**
 Block-style manifests as written: a tree whose nodes own their indentation, spacing, tokens,
 comments and blank lines. Lines prints it; Place is what the YAML decoder makes of it, positions
 included. A leaf is a scalar, and the later lines of a block scalar are its body. Flow collections
 are outside the layout.
 */
module Layout {
  import opened Text
  import opened Scan
  import opened Nodes
  import opened Insertion

  datatype Cst =
    | Leaf(gap: string, style: Style, value: string, token: string, tail: string, body: seq<string>)
    | Block(kind: Kind, own: Own, indent: nat, entries: seq<Entry>)

  /** A block's first entry goes on a line of its own, or continues the line of its "-". */
  datatype Own = OwnLine(tail: string, body: seq<string>) | Inline(gap: string)

  datatype Entry = Entry(key: string, text: string, value: Cst)

  function Label(kind: Kind, e: Entry): string {
    if kind == MapKind then e.text + ":" else "-"
  }

  // ----- printing and placing -----

  /** The lines of c, the first of which continues head. */
  function Lines(c: Cst, head: string): seq<string>
    decreases c, 1
  {
    match c
    case Leaf(gap, _, _, token, tail, body) => [head + gap + token + tail] + body
    case Block(kind, OwnLine(tail, body), indent, entries) =>
      [head + tail] + body + EntryLines(kind, indent, entries, Spaces(indent))
    case Block(kind, Inline(gap), indent, entries) => EntryLines(kind, indent, entries, head + gap)
  }

  function EntryLines(kind: Kind, indent: nat, entries: seq<Entry>, first: string): seq<string>
    decreases entries, 0
  {
    if entries == [] then []
    else
      Lines(entries[0].value, first + Label(kind, entries[0]))
      + EntryLines(kind, indent, entries[1..], Spaces(indent))
  }

  /** The decoded node of c when head is the start of (0-based) line number line. */
  function Place(c: Cst, head: string, line: nat): Node
    decreases c, 1
  {
    match c
    case Leaf(gap, style, value, _, _, _) => Scalar(value, style, line + 1, |head| + |gap| + 1)
    case Block(kind, OwnLine(_, body), indent, entries) =>
      Branch(kind, PlaceEntries(kind, indent, entries, Spaces(indent), line + 1 + |body|), line + |body| + 2)
    case Block(kind, Inline(gap), indent, entries) =>
      Branch(kind, PlaceEntries(kind, indent, entries, head + gap, line), line + 1)
  }

  function PlaceEntries(kind: Kind, indent: nat, entries: seq<Entry>, first: string, line: nat): (r: seq<Child>)
    ensures |r| == |entries|
    decreases entries, 0
  {
    if entries == [] then []
    else
      var head := first + Label(kind, entries[0]);
      [Child(entries[0].key, line + 1, |first| + 1, Place(entries[0].value, head, line))]
      + PlaceEntries(kind, indent, entries[1..], Spaces(indent), line + |Lines(entries[0].value, head)|)
  }

  // ----- well-formed layouts -----

  /** A line that does not end a mapping indented by k. */
  predicate LineOk(line: string, k: int) {
    IsContent(line) ==> LeadingSpaces(line) >= k
  }

  predicate LinesOk(lines: seq<string>, k: int) {
    forall i :: 0 <= i < |lines| ==> LineOk(lines[i], k)
  }

  predicate LabelOk(kind: Kind, e: Entry) {
    kind == MapKind ==> e.text != [] && NoFeed(e.text) && !IsSpace(e.text[0]) && e.text[0] != '#'
  }

  /** c is properly indented below a block at indent k (-1 for the root of a document). */
  predicate Wf(c: Cst, head: string, k: int)
    decreases c, 1
  {
    match c
    case Leaf(gap, _, _, token, tail, body) =>
      head + gap != [] && NoFeed(head + gap + token + tail) && NoFeeds(body) && LinesOk(body, k)
    case Block(kind, own, indent, entries) =>
      && entries != [] && k <= indent && (kind == MapKind ==> k < indent)
      && match own
         case OwnLine(tail, body) =>
           NoFeed(head + tail) && NoFeeds(body) && LinesOk(body, k) && EntriesWf(kind, indent, entries, Spaces(indent))
           && LinesOk(body, indent)
         case Inline(gap) =>
           NoFeed(head + gap) && |head| + |gap| == indent && EntriesWf(kind, indent, entries, head + gap)
  }

  predicate EntriesWf(kind: Kind, indent: nat, entries: seq<Entry>, first: string)
    decreases entries, 0
  {
    entries == [] || (
      && LabelOk(kind, entries[0])
      && Wf(entries[0].value, first + Label(kind, entries[0]), indent)
      && EntriesWf(kind, indent, entries[1..], Spaces(indent)))
  }

  /** A leaf whose token the writer may replace. */
  predicate Editable(c: Cst) {
    c.Leaf? && TokenShape(c.style, c.token) && Delimited(c.style, c.tail + "\n")
  }

  lemma {:induction false} HeadLine(c: Cst, head: string, k: int)
    requires Wf(c, head, k)
    ensures Lines(c, head) != [] && head <= Lines(c, head)[0]
    decreases c
  {
    if c.Block? && c.own.Inline? {
      HeadLine(c.entries[0].value, head + c.own.gap + Label(c.kind, c.entries[0]), c.indent);
    }
  }

  /** An entry on a line of its own is a content line at exactly the block's indent. */
  lemma OwnEntryLine(kind: Kind, indent: nat, e: Entry, line: string)
    requires LabelOk(kind, e) && Spaces(indent) + Label(kind, e) <= line
    ensures IsContent(line) && LeadingSpaces(line) == indent
  {
    var lead := Label(kind, e);
    assert line[indent] == (Spaces(indent) + lead)[indent] == lead[0];
    assert forall i :: 0 <= i < indent ==> line[i] == (Spaces(indent) + lead)[i] == ' ';
    assert lead[0] != '#' && !IsSpace(lead[0]);
  }

  /** Every line of c but the first is at least as deep as the block around c. */
  lemma {:induction false} LinesAreDeep(c: Cst, head: string, k: int)
    requires Wf(c, head, k)
    ensures Lines(c, head) != [] && LinesOk(Lines(c, head)[1..], k)
    decreases c, 1
  {
    HeadLine(c, head, k);
    var lines := Lines(c, head);
    match c {
      case Leaf(_, _, _, _, _, body) =>
        assert lines[1..] == body;
      case Block(kind, OwnLine(tail, body), indent, entries) =>
        EntriesAreDeep(kind, indent, entries, Spaces(indent));
        var rest := EntryLines(kind, indent, entries, Spaces(indent));
        assert lines[1..] == body + rest;
        forall i | 0 <= i < |rest| ensures LineOk(rest[i], k) {
          assert LineOk(rest[i], indent);
        }
      case Block(kind, Inline(gap), indent, entries) =>
        EntriesAreDeep(kind, indent, entries, head + gap);
        forall i | 0 <= i < |lines| - 1 ensures LineOk(lines[1..][i], k) {
          assert LineOk(lines[1..][i], indent);
        }
    }
  }

  /** Likewise for a run of entries; when even the first has a line of its own, that line included. */
  lemma {:induction false} EntriesAreDeep(kind: Kind, indent: nat, entries: seq<Entry>, first: string)
    requires EntriesWf(kind, indent, entries, first)
    ensures var lines := EntryLines(kind, indent, entries, first);
            && (entries != [] ==> lines != [] && LinesOk(lines[1..], indent))
            && (first == Spaces(indent) ==> LinesOk(lines, indent))
    decreases entries, 0
  {
    if entries != [] {
      var head := first + Label(kind, entries[0]);
      var a, b := Lines(entries[0].value, head), EntryLines(kind, indent, entries[1..], Spaces(indent));
      LinesAreDeep(entries[0].value, head, indent);
      HeadLine(entries[0].value, head, indent);
      EntriesAreDeep(kind, indent, entries[1..], Spaces(indent));
      assert (a + b)[1..] == a[1..] + b;
      if first == Spaces(indent) {
        OwnEntryLine(kind, indent, entries[0], a[0]);
        assert a + b == [a[0]] + (a[1..] + b);
      }
    }
  }

  lemma {:induction false} LinesHaveNoFeeds(c: Cst, head: string, k: int)
    requires Wf(c, head, k)
    ensures NoFeeds(Lines(c, head))
    decreases c, 1
  {
    match c {
      case Leaf(_, _, _, _, _, _) =>
      case Block(kind, OwnLine(_, _), indent, entries) => EntriesHaveNoFeeds(kind, indent, entries, Spaces(indent));
      case Block(kind, Inline(gap), indent, entries) => EntriesHaveNoFeeds(kind, indent, entries, head + gap);
    }
  }

  lemma {:induction false} EntriesHaveNoFeeds(kind: Kind, indent: nat, entries: seq<Entry>, first: string)
    requires EntriesWf(kind, indent, entries, first)
    ensures NoFeeds(EntryLines(kind, indent, entries, first))
    decreases entries, 0
  {
    if entries != [] {
      LinesHaveNoFeeds(entries[0].value, first + Label(kind, entries[0]), indent);
      EntriesHaveNoFeeds(kind, indent, entries[1..], Spaces(indent));
    }
  }

  lemma {:induction false} EntryLinesConcat(kind: Kind, indent: nat, a: seq<Entry>, b: seq<Entry>, first: string)
    requires a != []
    ensures EntryLines(kind, indent, a + b, first)
            == EntryLines(kind, indent, a, first) + EntryLines(kind, indent, b, Spaces(indent))
    decreases |a|
  {
    assert (a + b)[0] == a[0] && (a + b)[1..] == a[1..] + b;
    if |a| > 1 {
      EntryLinesConcat(kind, indent, a[1..], b, Spaces(indent));
    } else {
      assert a[1..] == [] && a[1..] + b == b;
    }
  }

  lemma {:induction false} EntriesWfConcat(kind: Kind, indent: nat, a: seq<Entry>, b: seq<Entry>, first: string)
    requires a != [] && EntriesWf(kind, indent, a, first) && EntriesWf(kind, indent, b, Spaces(indent))
    ensures EntriesWf(kind, indent, a + b, first)
    decreases |a|
  {
    assert (a + b)[0] == a[0] && (a + b)[1..] == a[1..] + b;
    if |a| > 1 {
      EntriesWfConcat(kind, indent, a[1..], b, Spaces(indent));
    } else {
      assert a[1..] == [] && a[1..] + b == b;
    }
  }

  // ----- created nodes as layouts -----

  /** An inserted subtree as the YAML encoder writes it, two spaces per level. */
  function NewCst(em: Emitter, n: Node, indent: nat): Cst
    decreases n, 1
  {
    match n
    case Scalar(v, _, _, _) => Leaf(" ", em.natural(v), v, Spell(em.natural(v), v), "", [])
    case Branch(_, children, _) => Block(MapKind, OwnLine("", []), indent + 2, NewEntries(em, children, indent + 2))
  }

  function NewEntries(em: Emitter, children: seq<Child>, indent: nat): (r: seq<Entry>)
    ensures |r| == |children|
    decreases children, 0
  {
    if children == [] then []
    else
      var c := children[0];
      [Entry(c.key, Spell(em.natural(c.key), c.key), NewCst(em, c.node, indent))] + NewEntries(em, children[1..], indent)
  }

  /** The encoder's lines for a mapping at the left margin. */
  function EncodedLines(em: Emitter, children: seq<Child>): seq<string> {
    EntryLines(MapKind, 0, NewEntries(em, children, 0), "")
  }

  function Prefixed(prefix: string, lines: seq<string>): (r: seq<string>)
    ensures |r| == |lines|
    ensures forall i :: 0 <= i < |r| ==> r[i] == prefix + lines[i]
  {
    if lines == [] then [] else [prefix + lines[0]] + Prefixed(prefix, lines[1..])
  }

  lemma {:induction false} PrefixedConcat(prefix: string, a: seq<string>, b: seq<string>)
    ensures Prefixed(prefix, a + b) == Prefixed(prefix, a) + Prefixed(prefix, b)
  {
  }

  lemma SpacesAdd(m: nat, n: nat)
    ensures Spaces(m) + Spaces(n) == Spaces(m + n)
  {
  }

  /** Indenting the encoder's lines is printing the same entries at a deeper indent. */
  lemma {:induction false} ShiftedLines(em: Emitter, n: Node, head: string, indent: nat, deeper: nat)
    ensures Prefixed(Spaces(deeper), Lines(NewCst(em, n, indent), head)) == Lines(NewCst(em, n, indent + deeper), Spaces(deeper) + head)
    decreases n, 1
  {
    var p := Spaces(deeper);
    match n {
      case Scalar(v, _, _, _) =>
        var token := Spell(em.natural(v), v);
        var line := head + " " + token + "";
        assert p + line == (p + head) + " " + token + "";
        assert [line] + [] == [line] && [p + line] + [] == [p + line];
        assert Prefixed(p, [line]) == [p + line];
      case Branch(_, children, _) =>
        var es := NewEntries(em, children, indent + 2);
        ShiftedEntries(em, children, Spaces(indent + 2), indent + 2, deeper);
        SpacesAdd(deeper, indent + 2);
        PrefixedConcat(p, [head + ""] + [], EntryLines(MapKind, indent + 2, es, Spaces(indent + 2)));
        var line := head + "";
        assert p + line == (p + head) + "";
        assert [line] + [] == [line] && [p + line] + [] == [p + line];
        assert Prefixed(p, [line]) == [p + line];
    }
  }

  lemma {:induction false} ShiftedEntries(em: Emitter, children: seq<Child>, first: string, indent: nat, deeper: nat)
    ensures Prefixed(Spaces(deeper), EntryLines(MapKind, indent, NewEntries(em, children, indent), first))
            == EntryLines(MapKind, indent + deeper, NewEntries(em, children, indent + deeper), Spaces(deeper) + first)
    decreases children, 0
  {
    if children != [] {
      var p, c := Spaces(deeper), children[0];
      var lead := Spell(em.natural(c.key), c.key) + ":";
      ShiftedLines(em, c.node, first + lead, indent, deeper);
      ShiftedEntries(em, children[1..], Spaces(indent), indent, deeper);
      SpacesAdd(deeper, indent);
      assert p + (first + lead) == (p + first) + lead;
      PrefixedConcat(p, Lines(NewCst(em, c.node, indent), first + lead),
                     EntryLines(MapKind, indent, NewEntries(em, children[1..], indent), Spaces(indent)));
    }
  }
}
