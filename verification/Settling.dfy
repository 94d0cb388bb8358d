/** The updated layout is itself well-formed, and making the same edits in it again changes nothing. */
module Settling {
  import opened Text
  import opened Scan
  import opened Nodes
  import opened Overlay
  import opened Insertion
  import opened Layout
  import opened Rewrite
  import opened Shapes

  // ----- created entries are well-formed -----

  lemma NaturalToken(em: Emitter, v: string)
    requires ValidEmitter(em) && OneLine(v)
    ensures !IsBlock(em.natural(v)) && TokenShape(em.natural(v), Spell(em.natural(v), v))
    ensures OneLine(Spell(em.natural(v), v)) && NoFeed(Spell(em.natural(v), v))
    ensures RenderScalar(em, v, em.natural(v)) == Spell(em.natural(v), v)
    ensures RenderStyle(em, v, em.natural(v)) == em.natural(v)
  {
    RenderStyleStable(em, v, Plain);
    RenderedTokenShape(em, v, em.natural(v));
  }

  lemma NaturalLabel(em: Emitter, key: string, value: Cst)
    requires ValidEmitter(em) && OneLine(key)
    ensures LabelOk(MapKind, Entry(key, Spell(em.natural(key), key), value))
  {
    NaturalToken(em, key);
  }

  lemma {:induction false} NewWf(em: Emitter, n: Node, head: string, indent: nat)
    requires ValidEmitter(em) && Created(n) && NoFeed(head) && head != []
    ensures Wf(NewCst(em, n, indent), head, indent)
    decreases n, 1
  {
    match n {
      case Scalar(v, _, _, _) => NaturalToken(em, v);
      case Branch(_, children, _) => NewEntriesWf(em, children, indent + 2, Spaces(indent + 2));
    }
  }

  lemma {:induction false} NewEntriesWf(em: Emitter, children: seq<Child>, indent: nat, first: string)
    requires ValidEmitter(em) && CreatedAll(children) && NoFeed(first)
    ensures EntriesWf(MapKind, indent, NewEntries(em, children, indent), first)
    decreases children, 0
  {
    hide Wf, Created, LabelOk;
    if children != [] {
      var c, es := children[0], NewEntries(em, children, indent);
      NaturalLabel(em, c.key, es[0].value);
      NaturalToken(em, c.key);
      NewWf(em, c.node, first + Label(MapKind, es[0]), indent);
      NewEntriesWf(em, children[1..], indent, Spaces(indent));
      assert es[1..] == NewEntries(em, children[1..], indent);
    }
  }

  // ----- the updated layout is well-formed -----

  lemma {:induction false} UpdatedWf(em: Emitter, root0: Node, w: Work, c: Cst, head: string, k: int, line: nat, a: Address)
    requires ValidEmitter(em) && Overlaid(root0, w) && Filled(w.root) && OneLineWrites(root0, w)
    requires Wf(c, head, k) && Ready(c, a, w)
    requires InTree(root0, a) && At(root0, a) == Place(c, head, line)
    ensures InTree(w.root, a) && Wf(Updated(em, c, a, At(w.root, a), w), head, k)
    decreases c, 1
  {
    hide Lines, Filled, OneLineWrites, Place, Overlaid, InTree, At, CreatedAll, TokenShape, RenderStyle;
    if c.Leaf? {
      LeafFacts(root0, w, c, head, k, line, a);
      LeafStaysWf(em, w, c, head, k, a, At(w.root, a));
    } else {
      BlockParts(c, head, k, line);
      FirstKey(root0, w, c, head, k, line, a);
      AppendedCreated(root0, w, a);
      var n := At(w.root, a);
      assert At(root0, a).children[0..] == At(root0, a).children;
      assert n.children[0..|c.entries|] == n.children[..|c.entries|];
      UpdatedAllWf(em, root0, w, c.kind, c.indent, c.entries, FirstHead(c, head), line + |OwnLines(c, head)|, a, 0);
      BlockStaysWf(em, w, c, head, k, a, n);
    }
  }

  lemma LeafStaysWf(em: Emitter, w: Work, c: Cst, head: string, k: int, a: Address, n: Node)
    requires c.Leaf? && ValidEmitter(em) && Wf(c, head, k) && Ready(c, a, w)
    ensures Wf(Updated(em, c, a, n, w), head, k)
  {
    if a in w.edits {
      hide TokenShape, RenderStyle, RenderScalar, Delimited;
      EditableStyle(c);
      RenderedTokenShape(em, w.edits[a], c.style);
      var token := RenderScalar(em, w.edits[a], c.style);
      TokenReplaced(head + c.gap, c.token, token, c.tail);
    }
  }

  /** Swapping a token for another on its line keeps it one line. */
  lemma TokenReplaced(pre: string, token: string, token': string, tail: string)
    requires NoFeed(pre + token + tail) && NoFeed(token')
    ensures NoFeed(pre + token' + tail)
  {
    var was, now := pre + token + tail, pre + token' + tail;
    forall i | 0 <= i < |now| ensures now[i] != '\n' {
      if i < |pre| {
        assert now[i] == was[i];
      } else if i < |pre| + |token'| {
        assert now[i] == token'[i - |pre|];
      } else {
        assert now[i] == tail[i - |pre| - |token'|] == was[i - |token'| + |token|];
      }
    }
  }

  lemma BlockStaysWf(em: Emitter, w: Work, c: Cst, head: string, k: int, a: Address, n: Node)
    requires c.Block? && Wf(c, head, k) && n.Branch? && |n.children| >= |c.entries| && ValidEmitter(em)
    requires EntriesWf(c.kind, c.indent, UpdatedEntries(em, c.entries, a, 0, n.children[..|c.entries|], w), FirstHead(c, head))
    requires CreatedAll(n.children[|c.entries|..]) && (|n.children| > |c.entries| ==> c.kind == MapKind)
    ensures Wf(Updated(em, c, a, n, w), head, k)
  {
    hide EntriesWf, CreatedAll, UpdatedEntries, NewEntries, LinesOk, NoFeeds, EntryLines, PlaceEntries;
    var ues, news := UpdatedEntries(em, c.entries, a, 0, n.children[..|c.entries|], w), NewEntries(em, n.children[|c.entries|..], c.indent);
    if news == [] {
      assert ues + news == ues;
    } else {
      NewEntriesWf(em, n.children[|c.entries|..], c.indent, Spaces(c.indent));
      EntriesWfConcat(c.kind, c.indent, ues, news, FirstHead(c, head));
    }
  }

  lemma {:induction false} UpdatedAllWf(em: Emitter, root0: Node, w: Work, kind: Kind, indent: nat, entries: seq<Entry>,
                                        first: string, line: nat, a: Address, i: nat)
    requires ValidEmitter(em) && Overlaid(root0, w) && Filled(w.root) && OneLineWrites(root0, w)
    requires EntriesWf(kind, indent, entries, first) && ReadyEntries(entries, a, i, w)
    requires InTree(root0, a) && At(root0, a).Branch? && i + |entries| == |At(root0, a).children|
    requires At(root0, a).children[i..] == PlaceEntries(kind, indent, entries, first, line)
    ensures InTree(w.root, a) && At(w.root, a).Branch? && i + |entries| <= |At(w.root, a).children|
    ensures EntriesWf(kind, indent, UpdatedEntries(em, entries, a, i, At(w.root, a).children[i..i + |entries|], w), first)
    decreases entries, 0
  {
    hide Lines, Filled, OneLineWrites, Wf, Place, Updated, Overlaid, InTree, At, Ready, ValidEmitter;
    SourceBranch(root0, w, a);
    if entries != [] {
      var head := first + Label(kind, entries[0]);
      EntryPlaced(root0, w, kind, indent, entries, first, line, a, i);
      UpdatedWf(em, root0, w, entries[0].value, head, indent, line, a + [i]);
      UpdatedAllWf(em, root0, w, kind, indent, entries[1..], Spaces(indent), line + |Lines(entries[0].value, head)|, a, i + 1);
      var n := At(w.root, a);
      var ns := n.children[i..i + |entries|];
      assert ns[0] == n.children[i] && ns[1..] == n.children[i + 1..i + 1 + |entries[1..]|];
      var ues := UpdatedEntries(em, entries, a, i, ns, w);
      assert ues[1..] == UpdatedEntries(em, entries[1..], a, i + 1, ns[1..], w);
      assert ues[0] == entries[0].(value := Updated(em, entries[0].value, a + [i], ns[0].node, w));
    }
  }

  // ----- settled layouts -----

  /** The leaves under edit already spell, in their own style, the values they are about to get. */
  predicate Settled(em: Emitter, c: Cst, a: Address, edits: map<Address, string>)
    decreases c, 1
  {
    match c
    case Leaf(_, style, value, token, _, _) =>
      a in edits ==>
        && Editable(c) && OneLine(value) && edits[a] == value
        && RenderStyle(em, value, style) == style && token == RenderScalar(em, value, style)
    case Block(_, _, _, entries) => SettledAll(em, entries, a, 0, edits)
  }

  predicate SettledAll(em: Emitter, entries: seq<Entry>, a: Address, i: nat, edits: map<Address, string>)
    decreases entries, 0
  {
    entries == [] || (Settled(em, entries[0].value, a + [i], edits) && SettledAll(em, entries[1..], a, i + 1, edits))
  }

  /** Edits that repeat values a run already wrote: recorded ones, or values of created nodes. */
  ghost predicate Repeats(root0: Node, w: Work, edits: map<Address, string>) {
    forall b :: b in edits ==>
      && InTree(w.root, b) && At(w.root, b).Scalar? && edits[b] == At(w.root, b).value
      && (b in w.edits || !InTree(root0, b))
  }

  lemma {:induction false} SettledAllConcat(em: Emitter, x: seq<Entry>, y: seq<Entry>, a: Address, i: nat, edits: map<Address, string>)
    requires SettledAll(em, x, a, i, edits) && SettledAll(em, y, a, i + |x|, edits)
    ensures SettledAll(em, x + y, a, i, edits)
    decreases |x|
  {
    hide Settled;
    if x == [] {
      assert x + y == y;
    } else {
      assert (x + y)[0] == x[0] && (x + y)[1..] == x[1..] + y;
      SettledAllConcat(em, x[1..], y, a, i + 1, edits);
    }
  }

  lemma {:induction false} NewSettled(em: Emitter, root0: Node, w: Work, a: Address, n: Node, indent: nat, edits: map<Address, string>)
    requires ValidEmitter(em) && Repeats(root0, w, edits) && InTree(w.root, a) && At(w.root, a) == n && Created(n)
    ensures Settled(em, NewCst(em, n, indent), a, edits)
    decreases n, 1
  {
    match n {
      case Scalar(v, _, _, _) =>
        NaturalToken(em, v);
        assert "" + "\n" == "\n";
        BareLineDelimits(em.natural(v));
      case Branch(_, children, _) =>
        assert n.children[0..] == n.children;
        NewAllSettled(em, root0, w, a, 0, children, indent + 2, edits);
    }
  }

  lemma BareLineDelimits(style: Style)
    ensures Delimited(style, "\n")
  {
  }

  lemma {:induction false} NewAllSettled(em: Emitter, root0: Node, w: Work, a: Address, i: nat, children: seq<Child>, indent: nat, edits: map<Address, string>)
    requires ValidEmitter(em) && Repeats(root0, w, edits) && CreatedAll(children)
    requires InTree(w.root, a) && At(w.root, a).Branch? && i <= |At(w.root, a).children| && children == At(w.root, a).children[i..]
    ensures SettledAll(em, NewEntries(em, children, indent), a, i, edits)
    decreases children, 0
  {
    hide Settled, Created, Repeats, ValidEmitter;
    if children != [] {
      var n := At(w.root, a);
      InTreeJoin(w.root, a, [i]);
      assert children[0] == n.children[i] && children[1..] == n.children[i + 1..];
      NewSettled(em, root0, w, a + [i], children[0].node, indent, edits);
      NewAllSettled(em, root0, w, a, i + 1, children[1..], indent, edits);
      var es := NewEntries(em, children, indent);
      assert es[1..] == NewEntries(em, children[1..], indent);
    }
  }

  /** Re-rendering in the style of the new token keeps whatever delimited the old one good enough. */
  lemma StillDelimited(em: Emitter, value: string, style: Style, tail: string)
    requires ValidEmitter(em) && OneLine(value) && !IsBlock(style) && Delimited(style, tail + "\n")
    ensures Delimited(RenderStyle(em, value, style), tail + "\n")
  {
    var s, rest := RenderStyle(em, value, style), tail + "\n";
    assert rest != [];
    if style == Plain && s == SingleQuoted {
      assert rest[0] != '\'' by { assert Blanks(rest) == 0 ==> IsBreak(rest[0]); }
    }
  }

  lemma LeafSettled(em: Emitter, root0: Node, w: Work, c: Cst, head: string, k: int, line: nat, a: Address, edits: map<Address, string>)
    requires ValidEmitter(em) && Overlaid(root0, w) && Repeats(root0, w, edits) && c.Leaf?
    requires Wf(c, head, k) && Ready(c, a, w) && InTree(root0, a) && At(root0, a) == Place(c, head, line)
    ensures InTree(w.root, a) && Settled(em, Updated(em, c, a, At(w.root, a), w), a, edits)
  {
    assert Covers(At(root0, a), At(w.root, a), a, w);
    if a in edits {
      assert a in w.edits;
      var v := w.edits[a];
      EditableStyle(c);
      RenderedTokenShape(em, v, c.style);
      RenderStyleStable(em, v, c.style);
      StillDelimited(em, v, c.style, c.tail);
    }
  }

  /** After a run, the updated layout is settled for any edits that repeat what the run wrote. */
  lemma {:induction false} UpdatedSettled(em: Emitter, root0: Node, w: Work, c: Cst, head: string, k: int, line: nat, a: Address, edits: map<Address, string>)
    requires ValidEmitter(em) && Overlaid(root0, w) && Filled(w.root) && OneLineWrites(root0, w) && Repeats(root0, w, edits)
    requires Wf(c, head, k) && Ready(c, a, w)
    requires InTree(root0, a) && At(root0, a) == Place(c, head, line)
    ensures InTree(w.root, a) && Settled(em, Updated(em, c, a, At(w.root, a), w), a, edits)
    decreases c, 1
  {
    hide Lines, Filled, OneLineWrites, Place, Overlaid, InTree, At, CreatedAll, Wf, FirstHead, OwnLines, Repeats, ValidEmitter, EntriesWf, PlaceEntries;
    if c.Leaf? {
      LeafSettled(em, root0, w, c, head, k, line, a, edits);
    } else {
      BlockParts(c, head, k, line);
      FirstKey(root0, w, c, head, k, line, a);
      AppendedCreated(root0, w, a);
      var n, count := At(w.root, a), |c.entries|;
      assert At(root0, a).children[0..] == At(root0, a).children;
      assert n.children[0..count] == n.children[..count];
      UpdatedAllSettled(em, root0, w, c.kind, c.indent, c.entries, FirstHead(c, head), line + |OwnLines(c, head)|, a, 0, edits);
      NewAllSettled(em, root0, w, a, count, n.children[count..], c.indent, edits);
      SettledAllConcat(em, UpdatedEntries(em, c.entries, a, 0, n.children[..count], w), NewEntries(em, n.children[count..], c.indent), a, 0, edits);
    }
  }

  lemma {:induction false} UpdatedAllSettled(em: Emitter, root0: Node, w: Work, kind: Kind, indent: nat, entries: seq<Entry>,
                                             first: string, line: nat, a: Address, i: nat, edits: map<Address, string>)
    requires ValidEmitter(em) && Overlaid(root0, w) && Filled(w.root) && OneLineWrites(root0, w) && Repeats(root0, w, edits)
    requires EntriesWf(kind, indent, entries, first) && ReadyEntries(entries, a, i, w)
    requires InTree(root0, a) && At(root0, a).Branch? && i + |entries| == |At(root0, a).children|
    requires At(root0, a).children[i..] == PlaceEntries(kind, indent, entries, first, line)
    ensures InTree(w.root, a) && At(w.root, a).Branch? && i + |entries| <= |At(w.root, a).children|
    ensures SettledAll(em, UpdatedEntries(em, entries, a, i, At(w.root, a).children[i..i + |entries|], w), a, i, edits)
    decreases entries, 0
  {
    hide Lines, Filled, OneLineWrites, Wf, Place, Updated, Overlaid, InTree, At, Ready, ValidEmitter, Settled, Repeats, LabelOk;
    SourceBranch(root0, w, a);
    if entries != [] {
      var head := first + Label(kind, entries[0]);
      EntryPlaced(root0, w, kind, indent, entries, first, line, a, i);
      UpdatedSettled(em, root0, w, entries[0].value, head, indent, line, a + [i], edits);
      UpdatedAllSettled(em, root0, w, kind, indent, entries[1..], Spaces(indent), line + |Lines(entries[0].value, head)|, a, i + 1, edits);
      var n := At(w.root, a);
      var ns := n.children[i..i + |entries|];
      assert ns[0] == n.children[i] && ns[1..] == n.children[i + 1..i + 1 + |entries[1..]|];
      var ues := UpdatedEntries(em, entries, a, i, ns, w);
      assert ues[1..] == UpdatedEntries(em, entries[1..], a, i + 1, ns[1..], w);
      assert ues[0] == entries[0].(value := Updated(em, entries[0].value, a + [i], ns[0].node, w));
    }
  }

  // ----- settled layouts do not change -----

  /** Editing a settled layout, with nothing inserted, gives the same layout; and its targets are ready. */
  lemma {:induction false} SettledStays(em: Emitter, root0: Node, w: Work, c: Cst, head: string, k: int, line: nat, a: Address)
    requires Overlaid(root0, w) && w.insertions == map[] && Settled(em, c, a, w.edits) && Wf(c, head, k)
    requires InTree(root0, a) && At(root0, a) == Place(c, head, line)
    ensures InTree(w.root, a) && Updated(em, c, a, At(w.root, a), w) == c && Ready(c, a, w)
    decreases c, 1
  {
    hide Lines, Place, Overlaid, InTree, At, Wf, FirstHead, OwnLines, RenderStyle, RenderScalar, EntriesWf, PlaceEntries;
    if c.Leaf? {
      LeafFacts(root0, w, c, head, k, line, a);
    } else {
      BlockParts(c, head, k, line);
      FirstKey(root0, w, c, head, k, line, a);
      var n, count := At(w.root, a), |c.entries|;
      assert At(root0, a).children[0..] == At(root0, a).children;
      assert n.children[0..count] == n.children[..count] && n.children[count..] == [];
      SettledAllStay(em, root0, w, c.kind, c.indent, c.entries, FirstHead(c, head), line + |OwnLines(c, head)|, a, 0);
      assert c.entries + [] == c.entries;
    }
  }

  lemma {:induction false} SettledAllStay(em: Emitter, root0: Node, w: Work, kind: Kind, indent: nat, entries: seq<Entry>,
                                          first: string, line: nat, a: Address, i: nat)
    requires Overlaid(root0, w) && w.insertions == map[] && SettledAll(em, entries, a, i, w.edits)
    requires EntriesWf(kind, indent, entries, first)
    requires InTree(root0, a) && At(root0, a).Branch? && i + |entries| == |At(root0, a).children|
    requires At(root0, a).children[i..] == PlaceEntries(kind, indent, entries, first, line)
    ensures InTree(w.root, a) && At(w.root, a).Branch? && i + |entries| <= |At(w.root, a).children|
    ensures UpdatedEntries(em, entries, a, i, At(w.root, a).children[i..i + |entries|], w) == entries
    ensures ReadyEntries(entries, a, i, w)
    decreases entries, 0
  {
    hide Lines, Wf, Place, Updated, Overlaid, InTree, At, Ready, Settled, LabelOk;
    SourceBranch(root0, w, a);
    if entries != [] {
      var head := first + Label(kind, entries[0]);
      EntryPlaced(root0, w, kind, indent, entries, first, line, a, i);
      SettledStays(em, root0, w, entries[0].value, head, indent, line, a + [i]);
      SettledAllStay(em, root0, w, kind, indent, entries[1..], Spaces(indent), line + |Lines(entries[0].value, head)|, a, i + 1);
      var n := At(w.root, a);
      var ns := n.children[i..i + |entries|];
      assert ns[0] == n.children[i] && ns[1..] == n.children[i + 1..i + 1 + |entries[1..]|];
      assert entries == [entries[0]] + entries[1..];
    }
  }
}
