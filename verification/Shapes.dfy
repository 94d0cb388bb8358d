/** Trees without positions and styles, and how an updated layout reads back. */
module Shapes {
  import opened Text
  import opened Scan
  import opened Nodes
  import opened Overlay
  import opened Layout
  import opened Rewrite

  function Erase(n: Node): Node
    decreases n, 1
  {
    match n
    case Scalar(v, _, _, _) => Scalar(v, Plain, 0, 0)
    case Branch(kind, children, _) => Branch(kind, EraseAll(children), 0)
  }

  function EraseAll(children: seq<Child>): (r: seq<Child>)
    ensures |r| == |children|
    decreases children, 0
  {
    if children == [] then []
    else [Child(children[0].key, 0, 0, Erase(children[0].node))] + EraseAll(children[1..])
  }

  function Tree(c: Cst): Node
    decreases c, 1
  {
    match c
    case Leaf(_, _, v, _, _, _) => Scalar(v, Plain, 0, 0)
    case Block(kind, _, _, entries) => Branch(kind, TreeAll(entries), 0)
  }

  function TreeAll(entries: seq<Entry>): (r: seq<Child>)
    ensures |r| == |entries|
    decreases entries, 0
  {
    if entries == [] then []
    else [Child(entries[0].key, 0, 0, Tree(entries[0].value))] + TreeAll(entries[1..])
  }

  lemma {:induction false} EraseAllAt(children: seq<Child>, i: nat)
    requires i < |children|
    ensures EraseAll(children)[i] == Child(children[i].key, 0, 0, Erase(children[i].node))
  {
    hide Erase;
    if i > 0 { EraseAllAt(children[1..], i - 1); }
  }

  lemma {:induction false} EraseAllConcat(a: seq<Child>, b: seq<Child>)
    ensures EraseAll(a + b) == EraseAll(a) + EraseAll(b)
  {
    hide Erase;
    if a == [] {
      assert a + b == b;
    } else {
      assert (a + b)[0] == a[0] && (a + b)[1..] == a[1..] + b;
      EraseAllConcat(a[1..], b);
    }
  }

  lemma {:induction false} TreeAllConcat(a: seq<Entry>, b: seq<Entry>)
    ensures TreeAll(a + b) == TreeAll(a) + TreeAll(b)
  {
    hide Tree;
    if a == [] {
      assert a + b == b;
    } else {
      assert (a + b)[0] == a[0] && (a + b)[1..] == a[1..] + b;
      TreeAllConcat(a[1..], b);
    }
  }

  lemma {:induction false} EraseAt(n: Node, a: Address)
    ensures InTree(Erase(n), a) <==> InTree(n, a)
    ensures InTree(n, a) ==> At(Erase(n), a) == Erase(At(n, a))
    decreases |a|
  {
    if a != [] && n.Branch? && a[0] < |n.children| {
      EraseAllAt(n.children, a[0]);
      EraseAt(n.children[a[0]].node, a[1..]);
    }
  }

  // ----- what a layout reads back as -----

  lemma {:induction false} PlaceErased(c: Cst, head: string, line: nat)
    ensures Erase(Place(c, head, line)) == Tree(c)
    decreases c, 1
  {
    hide Lines;
    match c {
      case Leaf(_, _, _, _, _, _) =>
      case Block(kind, OwnLine(_, body), indent, entries) =>
        PlaceAllErased(kind, indent, entries, Spaces(indent), line + 1 + |body|);
      case Block(kind, Inline(gap), indent, entries) =>
        PlaceAllErased(kind, indent, entries, head + gap, line);
    }
  }

  lemma {:induction false} PlaceAllErased(kind: Kind, indent: nat, entries: seq<Entry>, first: string, line: nat)
    ensures EraseAll(PlaceEntries(kind, indent, entries, first, line)) == TreeAll(entries)
    decreases entries, 0
  {
    hide Lines;
    if entries != [] {
      var head := first + Label(kind, entries[0]);
      var rest := line + |Lines(entries[0].value, head)|;
      PlaceErased(entries[0].value, head, line);
      PlaceAllErased(kind, indent, entries[1..], Spaces(indent), rest);
      var places := PlaceEntries(kind, indent, entries, first, line);
      assert places[0].key == entries[0].key && places[0].node == Place(entries[0].value, head, line);
      assert places[1..] == PlaceEntries(kind, indent, entries[1..], Spaces(indent), rest);
    }
  }

  /** A created subtree: mappings only, none empty, every key and value on one line. */
  predicate Created(n: Node)
    decreases n, 1
  {
    match n
    case Scalar(v, _, line, _) => line == 0 && OneLine(v)
    case Branch(kind, children, line) => line == 0 && kind == MapKind && children != [] && CreatedAll(children)
  }

  predicate CreatedAll(children: seq<Child>)
    decreases children, 0
  {
    children == [] || (OneLine(children[0].key) && Created(children[0].node) && CreatedAll(children[1..]))
  }

  lemma {:induction false} NewErased(em: Emitter, n: Node, indent: nat)
    requires Created(n)
    ensures Tree(NewCst(em, n, indent)) == Erase(n)
    decreases n, 1
  {
    if n.Branch? { NewAllErased(em, n.children, indent + 2); }
  }

  lemma {:induction false} NewAllErased(em: Emitter, children: seq<Child>, indent: nat)
    requires CreatedAll(children)
    ensures TreeAll(NewEntries(em, children, indent)) == EraseAll(children)
    decreases children, 0
  {
    if children != [] {
      NewErased(em, children[0].node, indent);
      NewAllErased(em, children[1..], indent);
      var es := NewEntries(em, children, indent);
      assert es[1..] == NewEntries(em, children[1..], indent);
    }
  }

  // ----- one-line writes -----

  /** Everything written so far is on one line: recorded values, created values and created keys. */
  ghost predicate OneLineWrites(root0: Node, w: Work) {
    && (forall a :: a in w.edits ==> OneLine(w.edits[a]))
    && (forall a :: InTree(w.root, a) && !InTree(root0, a) && At(w.root, a).Scalar? ==> OneLine(At(w.root, a).value))
    && (forall a, k: nat :: InTree(w.root, a) && At(w.root, a).Branch? && k < |At(w.root, a).children| && !InTree(root0, a + [k])
          ==> OneLine(At(w.root, a).children[k].key))
  }

  /** Overlay facts with the one-line fact: created subtrees are as NewCst expects them. */
  lemma {:induction false} CreatedBelow(root0: Node, w: Work, a: Address, n: Node)
    requires Overlaid(root0, w) && Filled(w.root) && OneLineWrites(root0, w)
    requires InTree(w.root, a) && At(w.root, a) == n && !InTree(root0, a)
    ensures Created(n)
    decreases n, 1
  {
    hide Covers;
    assert FreshOk(n) && !IsEmptyMap(n);
    if n.Branch? {
      forall k: nat ensures !InTree(root0, a + [k]) {
        if InTree(root0, a + [k]) { InTreePrefix(root0, a, [k]); }
      }
      assert n.children[0..] == n.children;
      CreatedBelowAll(root0, w, a, 0, n.children);
    }
  }

  lemma {:induction false} CreatedBelowAll(root0: Node, w: Work, a: Address, i: nat, children: seq<Child>)
    requires Overlaid(root0, w) && Filled(w.root) && OneLineWrites(root0, w)
    requires InTree(w.root, a) && At(w.root, a).Branch? && i <= |At(w.root, a).children|
    requires children == At(w.root, a).children[i..]
    requires forall k: nat :: i <= k < |At(w.root, a).children| ==> !InTree(root0, a + [k])
    ensures CreatedAll(children)
    decreases children, 0
  {
    hide Overlaid, Filled, OneLineWrites;
    if children != [] {
      var n := At(w.root, a);
      InTreeJoin(w.root, a, [i]);
      assert children[0] == n.children[i] && children[1..] == n.children[i + 1..];
      assert !InTree(root0, a + [i]);
      KeyOneLine(root0, w, a, i);
      CreatedBelow(root0, w, a + [i], children[0].node);
      CreatedBelowAll(root0, w, a, i + 1, children[1..]);
    }
  }

  lemma KeyOneLine(root0: Node, w: Work, a: Address, k: nat)
    requires OneLineWrites(root0, w) && InTree(w.root, a) && At(w.root, a).Branch? && k < |At(w.root, a).children|
    requires !InTree(root0, a + [k])
    ensures OneLine(At(w.root, a).children[k].key)
  {
  }

  // ----- the updated layout: its tree -----

  /** The appended entries of a source mapping are created subtrees. */
  lemma AppendedCreated(root0: Node, w: Work, a: Address)
    requires Overlaid(root0, w) && Filled(w.root) && OneLineWrites(root0, w)
    requires InTree(root0, a) && At(root0, a).Branch?
    ensures InTree(w.root, a) && At(w.root, a).Branch? && |At(w.root, a).children| >= |At(root0, a).children|
    ensures CreatedAll(At(w.root, a).children[|At(root0, a).children|..])
  {
    assert Covers(At(root0, a), At(w.root, a), a, w);
    var n := |At(root0, a).children|;
    forall k: nat | n <= k ensures !InTree(root0, a + [k]) { InTreeJoin(root0, a, [k]); }
    CreatedBelowAll(root0, w, a, n, At(w.root, a).children[n..]);
  }

  lemma SourceBranch(root0: Node, w: Work, a: Address)
    requires Overlaid(root0, w) && InTree(root0, a) && At(root0, a).Branch?
    ensures InTree(w.root, a) && At(w.root, a).Branch? && |At(w.root, a).children| >= |At(root0, a).children|
    ensures forall i :: 0 <= i < |At(root0, a).children| ==> At(w.root, a).children[i].key == At(root0, a).children[i].key
  {
    assert Covers(At(root0, a), At(w.root, a), a, w);
    assert forall i :: 0 <= i < |At(root0, a).children| ==> SameEntry(At(root0, a).children[i], At(w.root, a).children[i]);
  }

  lemma LeafErased(em: Emitter, root0: Node, w: Work, c: Cst, head: string, line: nat, a: Address)
    requires c.Leaf? && Overlaid(root0, w) && InTree(root0, a) && At(root0, a) == Place(c, head, line)
    ensures InTree(w.root, a) && Tree(Updated(em, c, a, At(w.root, a), w)) == Erase(At(w.root, a))
  {
    assert Covers(At(root0, a), At(w.root, a), a, w);
  }

  lemma BlockErased(em: Emitter, w: Work, c: Cst, a: Address, n: Node)
    requires c.Block? && n.Branch? && |n.children| >= |c.entries| && n.kind == c.kind
    requires TreeAll(UpdatedEntries(em, c.entries, a, 0, n.children[..|c.entries|], w)) == EraseAll(n.children[..|c.entries|])
    requires CreatedAll(n.children[|c.entries|..])
    ensures Tree(Updated(em, c, a, n, w)) == Erase(n)
  {
    hide TreeAll, EraseAll, UpdatedEntries, NewEntries, CreatedAll;
    var front, back := n.children[..|c.entries|], n.children[|c.entries|..];
    NewAllErased(em, back, c.indent);
    TreeAllConcat(UpdatedEntries(em, c.entries, a, 0, front, w), NewEntries(em, back, c.indent));
    EraseAllConcat(front, back);
    assert n.children == front + back;
  }

  lemma {:induction false} UpdatedErased(em: Emitter, root0: Node, w: Work, c: Cst, head: string, k: int, line: nat, a: Address)
    requires Overlaid(root0, w) && Filled(w.root) && OneLineWrites(root0, w) && Wf(c, head, k)
    requires InTree(root0, a) && At(root0, a) == Place(c, head, line)
    ensures InTree(w.root, a) && Tree(Updated(em, c, a, At(w.root, a), w)) == Erase(At(w.root, a))
    decreases c, 1
  {
    hide Lines, Filled, OneLineWrites, Wf, Place, Overlaid, InTree, At, Updated, Tree, Erase, FirstHead, OwnLines, CreatedAll;
    if c.Leaf? {
      LeafErased(em, root0, w, c, head, line, a);
    } else {
      BlockParts(c, head, k, line);
      FirstKey(root0, w, c, head, k, line, a);
      AppendedCreated(root0, w, a);
      assert At(root0, a).children[0..] == At(root0, a).children;
      UpdatedAllErased(em, root0, w, c.kind, c.indent, c.entries, FirstHead(c, head), line + |OwnLines(c, head)|, a, 0);
      assert At(w.root, a).children[0..|c.entries|] == At(w.root, a).children[..|c.entries|];
      BlockErased(em, w, c, a, At(w.root, a));
    }
  }

  lemma {:induction false} UpdatedAllErased(em: Emitter, root0: Node, w: Work, kind: Kind, indent: nat, entries: seq<Entry>,
                                            first: string, line: nat, a: Address, i: nat)
    requires Overlaid(root0, w) && Filled(w.root) && OneLineWrites(root0, w) && EntriesWf(kind, indent, entries, first)
    requires InTree(root0, a) && At(root0, a).Branch? && i + |entries| == |At(root0, a).children|
    requires At(root0, a).children[i..] == PlaceEntries(kind, indent, entries, first, line)
    ensures InTree(w.root, a) && At(w.root, a).Branch? && i + |entries| <= |At(w.root, a).children|
    ensures var ns := At(w.root, a).children[i..i + |entries|];
            TreeAll(UpdatedEntries(em, entries, a, i, ns, w)) == EraseAll(ns)
    decreases entries, 0
  {
    hide Lines, Filled, OneLineWrites, Wf, Place, Updated, Tree, Erase, LabelOk, Overlaid, InTree, At;
    SourceBranch(root0, w, a);
    if entries != [] {
      var head := first + Label(kind, entries[0]);
      EntryPlaced(root0, w, kind, indent, entries, first, line, a, i);
      UpdatedErased(em, root0, w, entries[0].value, head, indent, line, a + [i]);
      UpdatedAllErased(em, root0, w, kind, indent, entries[1..], Spaces(indent), line + |Lines(entries[0].value, head)|, a, i + 1);
      var x, n := At(root0, a), At(w.root, a);
      var ns := n.children[i..i + |entries|];
      assert ns[0] == n.children[i] && ns[1..] == n.children[i + 1..i + 1 + |entries[1..]|];
      assert x.children[i] == x.children[i..][0];
      TreeFirst(em, entries, a, i, ns, w);
    }
  }

  lemma TreeFirst(em: Emitter, entries: seq<Entry>, a: Address, i: nat, ns: seq<Child>, w: Work)
    requires entries != [] && |ns| == |entries| && ns[0].key == entries[0].key
    requires Tree(Updated(em, entries[0].value, a + [i], ns[0].node, w)) == Erase(ns[0].node)
    requires TreeAll(UpdatedEntries(em, entries[1..], a, i + 1, ns[1..], w)) == EraseAll(ns[1..])
    ensures TreeAll(UpdatedEntries(em, entries, a, i, ns, w)) == EraseAll(ns)
  {
    hide Tree, Erase, Updated;
    var ues := UpdatedEntries(em, entries, a, i, ns, w);
    assert ues[1..] == UpdatedEntries(em, entries[1..], a, i + 1, ns[1..], w);
  }
}
