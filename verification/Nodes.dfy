/**
 The decoded manifest tree and the field writer that walks it. A node is identified by its
 address, the child positions from the root down: nodes are only ever appended, so an address
 keeps naming the same node, as a pointer does in the original. All documents hang under one
 sequence node, so the first step of an address is the document number.
 */
module Nodes {
  import opened Basics
  import opened Text
  import opened Scan

  datatype Kind = MapKind | SeqKind

  /** line is 0 for a node the writer created, and the 1-based source line otherwise. */
  datatype Node =
    | Scalar(value: string, style: Style, line: nat, col: nat)
    | Branch(kind: Kind, children: seq<Child>, line: nat)

  /** A mapping entry with its key's position, or a sequence item (key and position unused). */
  datatype Child = Child(key: string, line: nat, col: nat, node: Node)

  type Address = seq<nat>

  predicate InTree(n: Node, a: Address)
    decreases |a|
  {
    a == [] || (n.Branch? && a[0] < |n.children| && InTree(n.children[a[0]].node, a[1..]))
  }

  function At(n: Node, a: Address): Node
    requires InTree(n, a)
    decreases |a|
  {
    if a == [] then n else At(n.children[a[0]].node, a[1..])
  }

  function Replace(n: Node, a: Address, x: Node): Node
    requires InTree(n, a)
    decreases |a|
  {
    if a == [] then x
    else n.(children := n.children[a[0] := n.children[a[0]].(node := Replace(n.children[a[0]].node, a[1..], x))])
  }

  /** Equal but for what hangs below. */
  predicate SameShallow(x: Node, y: Node) {
    match x
    case Scalar(_, _, _, _) => x == y
    case Branch(kind, children, line) =>
      && y.Branch? && y.kind == kind && y.line == line && |y.children| == |children|
      && forall i :: 0 <= i < |children| ==> SameEntry(children[i], y.children[i])
  }

  predicate SameEntry(x: Child, y: Child) {
    x.key == y.key && x.line == y.line && x.col == y.col
  }

  lemma {:induction false} InTreeJoin(n: Node, a: Address, b: Address)
    requires InTree(n, a)
    ensures InTree(n, a + b) <==> InTree(At(n, a), b)
    ensures InTree(n, a + b) ==> At(n, a + b) == At(At(n, a), b)
    decreases |a|
  {
    if a == [] {
      assert a + b == b;
    } else {
      assert (a + b)[0] == a[0] && (a + b)[1..] == a[1..] + b;
      InTreeJoin(n.children[a[0]].node, a[1..], b);
    }
  }

  lemma {:induction false} InTreePrefix(n: Node, a: Address, b: Address)
    requires InTree(n, a + b)
    ensures InTree(n, a)
    decreases |a|
  {
    if a != [] {
      assert (a + b)[0] == a[0] && (a + b)[1..] == a[1..] + b;
      InTreePrefix(n.children[a[0]].node, a[1..], b);
    }
  }

  lemma {:induction false} AtReplaced(n: Node, a: Address, x: Node, b: Address)
    requires InTree(n, a)
    ensures InTree(Replace(n, a, x), a + b) <==> InTree(x, b)
    ensures InTree(x, b) ==> At(Replace(n, a, x), a + b) == At(x, b)
    decreases |a|
  {
    if a == [] {
      assert a + b == b;
    } else {
      assert (a + b)[0] == a[0] && (a + b)[1..] == a[1..] + b;
      AtReplaced(n.children[a[0]].node, a[1..], x, b);
    }
  }

  /** Replacing at a leaves every node not at or below a in place, and alike on the surface. */
  lemma {:induction false} AwayFromReplaced(n: Node, a: Address, x: Node, b: Address)
    requires InTree(n, a) && !(a <= b)
    ensures InTree(Replace(n, a, x), b) <==> InTree(n, b)
    ensures InTree(n, b) ==> SameShallow(At(n, b), At(Replace(n, a, x), b))
    decreases |a|
  {
    if b != [] && a[0] == b[0] {
      assert a == [a[0]] + a[1..] && b == [b[0]] + b[1..];
      AwayFromReplaced(n.children[a[0]].node, a[1..], x, b[1..]);
    }
  }

  /** Nodes neither above nor below the replaced one are untouched, subtree and all. */
  lemma {:induction false} BesideReplaced(n: Node, a: Address, x: Node, b: Address)
    requires InTree(n, a) && !(a <= b) && !(b <= a)
    ensures InTree(Replace(n, a, x), b) <==> InTree(n, b)
    ensures InTree(n, b) ==> At(Replace(n, a, x), b) == At(n, b)
    decreases |a|
  {
    if a[0] == b[0] {
      assert a == [a[0]] + a[1..] && b == [b[0]] + b[1..];
      BesideReplaced(n.children[a[0]].node, a[1..], x, b[1..]);
    }
  }

  // ----- the two elementary changes -----

  predicate IsLeafy(n: Node) {
    n.Branch? ==> n.children == []
  }

  function Append(root: Node, a: Address, child: Child): Node
    requires InTree(root, a) && At(root, a).Branch?
  {
    Replace(root, a, At(root, a).(children := At(root, a).children + [child]))
  }

  function SetValue(root: Node, a: Address, value: string): Node
    requires InTree(root, a) && At(root, a).Scalar?
  {
    Replace(root, a, At(root, a).(value := value))
  }

  /** The node appended under a gets the next free address; every other address keeps its node. */
  lemma AppendEffect(root: Node, a: Address, child: Child, b: Address)
    requires InTree(root, a) && At(root, a).Branch? && IsLeafy(child.node)
    ensures var n, root' := At(root, a), Append(root, a, child);
            var next := a + [|n.children|];
            && (InTree(root', b) <==> InTree(root, b) || b == next)
            && !InTree(root, next)
            && (b == next ==> At(root', b) == child.node)
            && (b == a ==> At(root', b) == n.(children := n.children + [child]))
            && (InTree(root, b) && b != a ==> InTree(root', b) && SameShallow(At(root, b), At(root', b)))
  {
    var n := At(root, a);
    var x := n.(children := n.children + [child]);
    InTreeJoin(root, a, [|n.children|]);
    if a <= b {
      var rest := b[|a|..];
      assert b == a + rest;
      AtReplaced(root, a, x, rest);
      InTreeJoin(root, a, rest);
      if rest != [] && rest[0] < |n.children| {
        assert x.children[rest[0]] == n.children[rest[0]];
        if InTree(x, rest) { ReflexiveShallow(At(x, rest)); }
      } else if rest != [] {
        assert rest == [rest[0]] + rest[1..];
        assert rest[0] == |n.children| && InTree(x, rest) ==> rest[1..] == [];
        assert b == a + [|n.children|] <==> rest == [|n.children|];
      }
    } else {
      AwayFromReplaced(root, a, x, b);
    }
  }

  lemma ReflexiveShallow(n: Node)
    ensures SameShallow(n, n)
  {
  }

  lemma SetValueEffect(root: Node, a: Address, value: string, b: Address)
    requires InTree(root, a) && At(root, a).Scalar?
    ensures var root' := SetValue(root, a, value);
            && (InTree(root', b) <==> InTree(root, b))
            && (b == a ==> At(root', b) == At(root, a).(value := value))
            && (InTree(root, b) && b != a ==> SameShallow(At(root, b), At(root', b)))
  {
    var x := At(root, a).(value := value);
    if a <= b {
      var rest := b[|a|..];
      assert b == a + rest;
      AtReplaced(root, a, x, rest);
      InTreeJoin(root, a, rest);
      if rest == [] { assert b == a; }
    } else {
      AwayFromReplaced(root, a, x, b);
    }
  }

  // ----- looking fields up -----

  /** Position of the first entry with this key. */
  function IndexOf(children: seq<Child>, key: string): Option<nat> {
    if children == [] then None
    else
      var last := |children| - 1;
      match IndexOf(children[..last], key)
      case Some(k) => Some(k)
      case None => if children[last].key == key then Some(last) else None
  }

  lemma {:induction false} IndexOfFirst(children: seq<Child>, key: string)
    ensures IndexOf(children, key).Some? ==>
              var k := IndexOf(children, key).value;
              k < |children| && children[k].key == key && forall i :: 0 <= i < k ==> children[i].key != key
    ensures IndexOf(children, key).None? ==> forall i :: 0 <= i < |children| ==> children[i].key != key
  {
    if children != [] { IndexOfFirst(children[..|children| - 1], key); }
  }

  method MapValue(n: Node, key: string) returns (r: Option<nat>)
    ensures r == if n.Branch? && n.kind == MapKind then IndexOf(n.children, key) else None
  {
    if n.Scalar? || n.kind != MapKind {
      return None;
    }
    for i := 0 to |n.children|
      invariant IndexOf(n.children[..i], key) == None
    {
      if n.children[i].key == key {
        IndexOfFirst(n.children, key);
        IndexOfFirst(n.children[..i], key);
        return Some(i);
      }
      assert n.children[..i + 1][..i] == n.children[..i];
    }
    assert n.children[..|n.children|] == n.children;
    return None;
  }

  /** One path segment: a key of a mapping, or a decimal index into a sequence. */
  function Step(n: Node, segment: string): (r: Option<nat>)
    ensures r.Some? ==> n.Branch? && r.value < |n.children|
  {
    if n.Scalar? then None
    else if n.kind == MapKind then
      IndexOfFirst(n.children, segment);
      IndexOf(n.children, segment)
    else
      match Atoi(segment)
      case Some(i) => if 0 <= i < |n.children| then Some(i) else None
      case None => None
  }

  /** The address a field path leads to from the node at a. */
  function Resolve(root: Node, a: Address, path: seq<string>): (r: Option<Address>)
    requires InTree(root, a)
    ensures r.Some? ==> InTree(root, r.value) && a <= r.value && |r.value| == |a| + |path|
    decreases |path|
  {
    if path == [] then Some(a)
    else
      match Step(At(root, a), path[0])
      case None => None
      case Some(k) =>
        InTreeJoin(root, a, [k]);
        Resolve(root, a + [k], path[1..])
  }

  /** The scalar a field path reads, if it leads to one. */
  function Lookup(root: Node, a: Address, path: seq<string>): Option<string>
    requires InTree(root, a)
  {
    match Resolve(root, a, path)
    case Some(b) => if At(root, b).Scalar? then Some(At(root, b).value) else None
    case None => None
  }

  /** Two segments that can select the same child: equal, or the same number written twice. */
  predicate Aliases(s: string, t: string) {
    s == t || (Atoi(s).Some? && Atoi(s) == Atoi(t))
  }

  /** Neither path is a prefix of the other, and they part at segments that cannot alias. */
  predicate Diverge(p: seq<string>, q: seq<string>) {
    p != [] && q != [] && (!Aliases(p[0], q[0]) || (p[0] == q[0] && Diverge(p[1..], q[1..])))
  }

  lemma {:induction false} DivergeSymmetric(p: seq<string>, q: seq<string>)
    requires Diverge(p, q)
    ensures Diverge(q, p)
  {
    if p[0] == q[0] { DivergeSymmetric(p[1..], q[1..]); }
  }

  /** Diverging paths never reach the same node. */
  lemma {:induction false} DivergentAddresses(root: Node, a: Address, p: seq<string>, q: seq<string>)
    requires InTree(root, a) && Diverge(p, q)
    requires Resolve(root, a, p).Some? && Resolve(root, a, q).Some?
    ensures Resolve(root, a, p) != Resolve(root, a, q)
    decreases |p|
  {
    var k, l := Step(At(root, a), p[0]).value, Step(At(root, a), q[0]).value;
    InTreeJoin(root, a, [k]);
    InTreeJoin(root, a, [l]);
    if p[0] == q[0] && Diverge(p[1..], q[1..]) {
      DivergentAddresses(root, a + [k], p[1..], q[1..]);
    } else {
      IndexOfFirst(At(root, a).children, p[0]);
      IndexOfFirst(At(root, a).children, q[0]);
      assert k != l;
      assert Resolve(root, a, p).value[|a|] == k && Resolve(root, a, q).value[|a|] == l by {
        assert (a + [k])[|a|] == k && (a + [l])[|a|] == l;
      }
    }
  }

  // ----- growth: what the writer may do to a tree -----

  /** y is x with entries possibly appended and a scalar's value possibly changed. */
  predicate Grown(x: Node, y: Node) {
    match x
    case Scalar(_, _, _, _) => y.Scalar? && y.style == x.style && y.line == x.line && y.col == x.col
    case Branch(kind, children, line) =>
      && y.Branch? && y.kind == kind && y.line == line && |y.children| >= |children|
      && (kind == SeqKind ==> |y.children| == |children|)
      && forall i :: 0 <= i < |children| ==> SameEntry(children[i], y.children[i])
  }

  ghost predicate Grows(root: Node, root': Node) {
    forall b :: InTree(root, b) ==> InTree(root', b) && Grown(At(root, b), At(root', b))
  }

  lemma GrowsTransitive(r0: Node, r1: Node, r2: Node)
    requires Grows(r0, r1) && Grows(r1, r2)
    ensures Grows(r0, r2)
  {
    forall b | InTree(r0, b) ensures InTree(r2, b) && Grown(At(r0, b), At(r2, b)) {
      assert InTree(r1, b) && Grown(At(r0, b), At(r1, b)) && Grown(At(r1, b), At(r2, b));
    }
  }

  lemma AppendGrows(root: Node, a: Address, child: Child)
    requires InTree(root, a) && At(root, a).Branch? && At(root, a).kind == MapKind && IsLeafy(child.node)
    ensures Grows(root, Append(root, a, child))
  {
    forall b | InTree(root, b)
      ensures InTree(Append(root, a, child), b) && Grown(At(root, b), At(Append(root, a, child), b))
    {
      AppendEffect(root, a, child, b);
    }
  }

  lemma SetValueGrows(root: Node, a: Address, value: string)
    requires InTree(root, a) && At(root, a).Scalar?
    ensures Grows(root, SetValue(root, a, value))
  {
    forall b | InTree(root, b)
      ensures InTree(SetValue(root, a, value), b) && Grown(At(root, b), At(SetValue(root, a, value), b))
    {
      SetValueEffect(root, a, value, b);
    }
  }

  lemma StepStable(x: Node, y: Node, segment: string)
    requires Grown(x, y) && Step(x, segment).Some?
    ensures Step(y, segment) == Step(x, segment)
  {
    if x.kind == MapKind {
      IndexOfFirst(x.children, segment);
      IndexOfFirst(y.children, segment);
      var k := IndexOf(x.children, segment).value;
      assert forall i :: 0 <= i <= k ==> SameEntry(x.children[i], y.children[i]);
    }
  }

  /** A path that leads somewhere keeps leading there. */
  lemma {:induction false} ResolveStable(root: Node, root': Node, a: Address, path: seq<string>)
    requires Grows(root, root') && InTree(root, a) && Resolve(root, a, path).Some?
    ensures InTree(root', a) && Resolve(root', a, path) == Resolve(root, a, path)
    decreases |path|
  {
    if path != [] {
      StepStable(At(root, a), At(root', a), path[0]);
      var k := Step(At(root, a), path[0]).value;
      InTreeJoin(root, a, [k]);
      ResolveStable(root, root', a + [k], path[1..]);
    }
  }

  // ----- the writer -----

  /** What UpdateManifest carries: the tree, the tokens to replace, and the entries to insert. */
  datatype Work = Work(root: Node, edits: map<Address, string>, insertions: map<Address, seq<nat>>)

  predicate Lacks(n: Node, segment: string) {
    n.Branch? && n.kind == MapKind && IndexOf(n.children, segment) == None
  }

  function FreshNode(last: bool, value: string): Node {
    if last then Scalar(value, Plain, 0, 0) else Branch(MapKind, [], 0)
  }

  /** Append a missing entry, and note the insertion if the mapping comes from the source. */
  function Create(w: Work, a: Address, segment: string, last: bool, value: string): Work
    requires InTree(w.root, a) && Lacks(At(w.root, a), segment)
  {
    var n := At(w.root, a);
    var noted := if a in w.insertions then w.insertions[a] else [];
    w.(root := Append(w.root, a, Child(segment, 0, 0, FreshNode(last, value))),
       insertions := if n.line > 0 then w.insertions[a := noted + [|n.children|]] else w.insertions)
  }

  /** setScalar: the address of the scalar a path ends in, creating mappings and the leaf on the way. */
  function Walk(w: Work, a: Address, path: seq<string>, value: string): Result<(Work, Address)>
    requires InTree(w.root, a)
    decreases |path|
  {
    if path == [] then Err("empty field path")
    else
      var n, last := At(w.root, a), |path| == 1;
      if n.Scalar? then Err("path traverses a scalar")
      else if n.kind == SeqKind && Step(n, path[0]).None? then Err("path segment is not a valid list index")
      else
        var w' := if Lacks(n, path[0]) then Create(w, a, path[0], last, value) else w;
        var next := a + [if Lacks(n, path[0]) then |n.children| else Step(n, path[0]).value];
        WalkStep(w, a, path[0], last, value);
        if last then
          if At(w'.root, next).Scalar? then Ok((w', next)) else Err("target is not a scalar")
        else Walk(w', next, path[1..], value)
  }

  lemma WalkStep(w: Work, a: Address, segment: string, last: bool, value: string)
    requires InTree(w.root, a)
    ensures var n := At(w.root, a);
            if Lacks(n, segment) then
              && InTree(Create(w, a, segment, last, value).root, a)
              && InTree(Create(w, a, segment, last, value).root, a + [|n.children|])
              && At(Create(w, a, segment, last, value).root, a + [|n.children|]) == FreshNode(last, value)
              && Step(At(Create(w, a, segment, last, value).root, a), segment) == Some(|n.children|)
              && Grows(w.root, Create(w, a, segment, last, value).root)
            else Step(n, segment).Some? ==> InTree(w.root, a + [Step(n, segment).value])
  {
    var n := At(w.root, a);
    if Lacks(n, segment) {
      var child := Child(segment, 0, 0, FreshNode(last, value));
      AppendEffect(w.root, a, child, a + [|n.children|]);
      AppendEffect(w.root, a, child, a);
      AppendGrows(w.root, a, child);
      assert (n.children + [child])[..|n.children|] == n.children;
    } else if Step(n, segment).Some? {
      InTreeJoin(w.root, a, [Step(n, segment).value]);
    }
  }

  /** Success: the path now leads to the returned scalar, and the tree has only grown. */
  lemma {:induction false} WalkReaches(w: Work, a: Address, path: seq<string>, value: string)
    requires InTree(w.root, a) && Walk(w, a, path, value).Ok?
    ensures var (w', b) := Walk(w, a, path, value).value;
            && Grows(w.root, w'.root) && InTree(w'.root, a)
            && Resolve(w'.root, a, path) == Some(b) && At(w'.root, b).Scalar?
            && w'.edits == w.edits
    decreases |path|
  {
    var n, last := At(w.root, a), |path| == 1;
    WalkStep(w, a, path[0], last, value);
    var w' := if Lacks(n, path[0]) then Create(w, a, path[0], last, value) else w;
    var k := if Lacks(n, path[0]) then |n.children| else Step(n, path[0]).value;
    assert Grows(w.root, w'.root) by {
      if !Lacks(n, path[0]) { GrowsReflexive(w.root); }
    }
    assert InTree(w'.root, a) && Step(At(w'.root, a), path[0]) == Some(k);
    if last {
      assert path[1..] == [];
      assert Resolve(w'.root, a + [k], path[1..]) == Some(a + [k]);
    } else {
      WalkReaches(w', a + [k], path[1..], value);
      var (w'', b) := Walk(w', a + [k], path[1..], value).value;
      GrowsTransitive(w.root, w'.root, w''.root);
      StepStable(At(w'.root, a), At(w''.root, a), path[0]);
    }
  }

  lemma GrowsReflexive(root: Node)
    ensures Grows(root, root)
  {
  }

  /** From an empty mapping the writer cannot fail, so an error can only come before any creation. */
  lemma {:induction false} WalkFromFreshSucceeds(w: Work, a: Address, path: seq<string>, value: string)
    requires InTree(w.root, a) && At(w.root, a) == Branch(MapKind, [], 0) && path != []
    ensures Walk(w, a, path, value).Ok?
    decreases |path|
  {
    assert Lacks(At(w.root, a), path[0]);
    WalkStep(w, a, path[0], |path| == 1, value);
    if |path| > 1 {
      WalkFromFreshSucceeds(Create(w, a, path[0], false, value), a + [0], path[1..], value);
    }
  }

  lemma WalkNowhere(w: Work, a: Address, value: string)
    requires InTree(w.root, a)
    ensures Walk(w, a, [], value) == Err("empty field path")
  {
  }

  /** One step of the walk along a path, from its segment i on. */
  lemma WalkAhead(w: Work, a: Address, path: seq<string>, i: nat, value: string)
    requires InTree(w.root, a) && i < |path|
    ensures var n, last, walk := At(w.root, a), i == |path| - 1, Walk(w, a, path[i..], value);
            if n.Scalar? then walk == Err("path traverses a scalar")
            else if Lacks(n, path[i]) then
              var w', next := Create(w, a, path[i], last, value), a + [|n.children|];
              && InTree(w'.root, next) && walk.Ok? && (last ==> At(w'.root, next).Scalar?)
              && walk == if last then Ok((w', next)) else Walk(w', next, path[i + 1..], value)
            else if Step(n, path[i]).None? then walk == Err("path segment is not a valid list index")
            else
              var next := a + [Step(n, path[i]).value];
              && InTree(w.root, next)
              && walk == if !last then Walk(w, next, path[i + 1..], value)
                         else if At(w.root, next).Scalar? then Ok((w, next)) else Err("target is not a scalar")
  {
    hide Grows, Append, At, InTree, Create;
    var n, last, rest := At(w.root, a), i == |path| - 1, path[i..];
    assert rest[0] == path[i] && rest[1..] == path[i + 1..] && (|rest| == 1 <==> last);
    WalkStep(w, a, path[i], last, value);
    if Lacks(n, path[i]) && !last {
      WalkFromFreshSucceeds(Create(w, a, path[i], last, value), a + [|n.children|], path[i + 1..], value);
    }
  }

  /** A path that already leads to a scalar is followed without creating anything. */
  lemma {:induction false} WalkExisting(w: Work, a: Address, path: seq<string>, value: string)
    requires InTree(w.root, a) && path != []
    requires Resolve(w.root, a, path).Some? && At(w.root, Resolve(w.root, a, path).value).Scalar?
    ensures Walk(w, a, path, value) == Ok((w, Resolve(w.root, a, path).value))
    decreases |path|
  {
    var n := At(w.root, a);
    var k := Step(n, path[0]).value;
    WalkStep(w, a, path[0], |path| == 1, value);
    InTreeJoin(w.root, a, [k]);
    if |path| == 1 {
      assert path[1..] == [];
    } else {
      WalkExisting(w, a + [k], path[1..], value);
    }
  }

  /** node.Value = value, recorded as an edit when the node comes from the source. */
  function Assign(w: Work, b: Address, value: string): Work
    requires InTree(w.root, b) && At(w.root, b).Scalar?
  {
    w.(root := SetValue(w.root, b, value), edits := if At(w.root, b).line > 0 then w.edits[b := value] else w.edits)
  }

  /** What UpdateManifest does with one rendered patch: find or create the scalar, then assign it. */
  function Patch(w: Work, a: Address, path: seq<string>, value: string): Result<Work>
    requires InTree(w.root, a)
  {
    match Walk(w, a, path, value)
    case Err(m) => Err(m)
    case Ok((w', b)) =>
      WalkReaches(w, a, path, value);
      Ok(Assign(w', b, value))
  }

  /** Put, then get: the patched field reads the value, and the tree has only grown. */
  lemma PatchPutGet(w: Work, a: Address, path: seq<string>, value: string)
    requires InTree(w.root, a) && Patch(w, a, path, value).Ok?
    ensures var w' := Patch(w, a, path, value).value;
            Grows(w.root, w'.root) && InTree(w'.root, a) && Lookup(w'.root, a, path) == Some(value)
  {
    WalkReaches(w, a, path, value);
    var (w1, b) := Walk(w, a, path, value).value;
    SetValueGrows(w1.root, b, value);
    SetValueEffect(w1.root, b, value, b);
    GrowsTransitive(w.root, w1.root, SetValue(w1.root, b, value));
    ResolveStable(w1.root, SetValue(w1.root, b, value), a, path);
  }

  /** A scalar the walk does not end at keeps its whole content. */
  lemma {:induction false} WalkKeepsScalars(w: Work, a: Address, path: seq<string>, value: string, c: Address)
    requires InTree(w.root, a) && Walk(w, a, path, value).Ok?
    requires InTree(w.root, c) && At(w.root, c).Scalar?
    ensures var w' := Walk(w, a, path, value).value.0;
            InTree(w'.root, c) && At(w'.root, c) == At(w.root, c)
    decreases |path|
  {
    var n, last := At(w.root, a), |path| == 1;
    WalkStep(w, a, path[0], last, value);
    var w' := if Lacks(n, path[0]) then Create(w, a, path[0], last, value) else w;
    var k := if Lacks(n, path[0]) then |n.children| else Step(n, path[0]).value;
    if Lacks(n, path[0]) {
      AppendEffect(w.root, a, Child(path[0], 0, 0, FreshNode(last, value)), c);
    }
    if !last { WalkKeepsScalars(w', a + [k], path[1..], value, c); }
  }

  /** Whatever lies beside the starting node is untouched by the walk. */
  lemma {:induction false} WalkElsewhere(w: Work, a: Address, path: seq<string>, value: string, c: Address)
    requires InTree(w.root, a) && Walk(w, a, path, value).Ok? && InTree(w.root, c) && !(a <= c) && !(c <= a)
    ensures var (w', b) := Walk(w, a, path, value).value;
            && a <= b && InTree(w'.root, c) && At(w'.root, c) == At(w.root, c)
    decreases |path|
  {
    hide Grows, SameShallow;
    var n, last := At(w.root, a), |path| == 1;
    WalkStep(w, a, path[0], last, value);
    var w' := if Lacks(n, path[0]) then Create(w, a, path[0], last, value) else w;
    var next := a + [if Lacks(n, path[0]) then |n.children| else Step(n, path[0]).value];
    if Lacks(n, path[0]) {
      BesideReplaced(w.root, a, n.(children := n.children + [Child(path[0], 0, 0, FreshNode(last, value))]), c);
    }
    if !last {
      Incomparable(a, c, next);
      WalkElsewhere(w', next, path[1..], value, c);
    }
  }

  lemma Incomparable(a: Address, c: Address, b: Address)
    requires !(a <= c) && !(c <= a) && a <= b
    ensures !(b <= c) && !(c <= b)
  {
    PrefixesCompare(a, c, b);
    assert b <= c ==> a <= c;
  }

  lemma PrefixesCompare(a: Address, c: Address, b: Address)
    requires a <= b
    ensures c <= b ==> a <= c || c <= a
  {
    if c <= b { assert if |a| <= |c| then a == c[..|a|] else c == a[..|c|]; }
  }

  /**
   The frame: any other path, from any document, that reads a scalar keeps reading the same
   one, unless it leads to the very node that was assigned.
   */
  lemma PatchFrame(w: Work, a: Address, path: seq<string>, value: string, d: Address, q: seq<string>)
    requires InTree(w.root, a) && Patch(w, a, path, value).Ok?
    requires InTree(w.root, d) && Lookup(w.root, d, q).Some?
    ensures var w' := Patch(w, a, path, value).value;
            && InTree(w'.root, a) && InTree(w'.root, d)
            && Resolve(w'.root, d, q) == Resolve(w.root, d, q)
            && (Resolve(w'.root, d, q) != Resolve(w'.root, a, path) ==> Lookup(w'.root, d, q) == Lookup(w.root, d, q))
            && (Resolve(w'.root, d, q) == Resolve(w'.root, a, path) ==> Lookup(w'.root, d, q) == Some(value))
  {
    var w' := Patch(w, a, path, value).value;
    PatchPutGet(w, a, path, value);
    ResolveStable(w.root, w'.root, d, q);
    var c := Resolve(w.root, d, q).value;
    WalkKeepsScalars(w, a, path, value, c);
    WalkReaches(w, a, path, value);
    var (w1, b) := Walk(w, a, path, value).value;
    SetValueEffect(w1.root, b, value, c);
    SetValueGrows(w1.root, b, value);
    ResolveStable(w1.root, w'.root, a, path);
  }

  /** Diverging fields of one document: patching one leaves the other's value alone. */
  lemma PatchLeavesDivergent(w: Work, a: Address, path: seq<string>, value: string, q: seq<string>)
    requires InTree(w.root, a) && Patch(w, a, path, value).Ok?
    requires Diverge(path, q) && Lookup(w.root, a, q).Some?
    ensures var w' := Patch(w, a, path, value).value;
            InTree(w'.root, a) && Lookup(w'.root, a, q) == Lookup(w.root, a, q)
  {
    var w' := Patch(w, a, path, value).value;
    PatchFrame(w, a, path, value, a, q);
    PatchPutGet(w, a, path, value);
    DivergentAddresses(w'.root, a, path, q);
  }

  function PatchTwice(w: Work, a: Address, p: seq<string>, v: string, q: seq<string>, u: string): Result<Work>
    requires InTree(w.root, a)
  {
    match Patch(w, a, p, v)
    case Err(m) => Err(m)
    case Ok(w') =>
      PatchPutGet(w, a, p, v);
      Patch(w', a, q, u)
  }

  /** Two diverging patches, in either order, leave both fields reading their own values. */
  lemma BothValues(w: Work, a: Address, p: seq<string>, v: string, q: seq<string>, u: string)
    requires InTree(w.root, a) && Diverge(p, q)
    requires PatchTwice(w, a, p, v, q, u).Ok? && PatchTwice(w, a, q, u, p, v).Ok?
    ensures var pq, qp := PatchTwice(w, a, p, v, q, u).value, PatchTwice(w, a, q, u, p, v).value;
            && InTree(pq.root, a) && InTree(qp.root, a)
            && Lookup(pq.root, a, p) == Some(v) == Lookup(qp.root, a, p)
            && Lookup(pq.root, a, q) == Some(u) == Lookup(qp.root, a, q)
  {
    PatchPutGet(w, a, p, v);
    PatchPutGet(w, a, q, u);
    var wp, wq := Patch(w, a, p, v).value, Patch(w, a, q, u).value;
    PatchPutGet(wp, a, q, u);
    PatchPutGet(wq, a, p, v);
    DivergeSymmetric(p, q);
    PatchLeavesDivergent(wp, a, q, u, p);
    PatchLeavesDivergent(wq, a, p, v, q);
  }
}
