/** Patching fields outside a document's identity never changes which targets it matches. */
module Identities {
  import opened Basics
  import opened Nodes
  import opened Manifest

  /** The top-level keys that matchesTarget reads. */
  /** The keys of metadata that matchesTarget reads. */
  predicate IsMetaKey(key: string) {
    key == "name" || key == "namespace" || key == "labels"
  }

  /** The paths that lead into what matchesTarget reads. */
  predicate IsIdentityPath(path: seq<string>) {
    path != [] && (
      || path[0] == "apiVersion" || path[0] == "kind"
      || (path[0] == "metadata" && (|path| == 1 || IsMetaKey(path[1]))))
  }

  /** The child at k of the mapping at a is not the one the path goes through: it stays as it is. */
  lemma PatchKeepsSibling(w: Work, a: Address, path: seq<string>, value: string, k: nat)
    requires InTree(w.root, a) && Patch(w, a, path, value).Ok?
    requires At(w.root, a).Branch? && k < |At(w.root, a).children| && Step(At(w.root, a), path[0]) != Some(k)
    ensures var w' := Patch(w, a, path, value).value;
            && InTree(w'.root, a + [k]) && InTree(w.root, a + [k])
            && At(w'.root, a + [k]) == At(w.root, a + [k])
  {
    hide Grows, SameShallow;
    var n, last := At(w.root, a), |path| == 1;
    WalkStep(w, a, path[0], last, value);
    WalkReaches(w, a, path, value);
    var w1 := if Lacks(n, path[0]) then Create(w, a, path[0], last, value) else w;
    var i := if Lacks(n, path[0]) then |n.children| else Step(n, path[0]).value;
    assert i != k;
    InTreeJoin(w.root, a, [k]);
    if Lacks(n, path[0]) {
      AtReplaced(w.root, a, n.(children := n.children + [Child(path[0], 0, 0, FreshNode(last, value))]), [k]);
    }
    assert InTree(w1.root, a + [k]) && At(w1.root, a + [k]) == At(w.root, a + [k]);
    assert !(a + [i] <= a + [k]) && !(a + [k] <= a + [i]) by {
      assert (a + [i])[|a|] == i && (a + [k])[|a|] == k;
    }
    var (w2, b) := Walk(w, a, path, value).value;
    if !last { WalkElsewhere(w1, a + [i], path[1..], value, a + [k]); }
    assert a + [i] <= b && At(w2.root, a + [k]) == At(w.root, a + [k]);
    Incomparable(a + [i], a + [k], b);
    BesideReplaced(w2.root, b, At(w2.root, b).(value := value), a + [k]);
  }

  lemma PatchKeepsKey(w: Work, a: Address, path: seq<string>, value: string, key: string)
    requires InTree(w.root, a) && IsMapping(At(w.root, a)) && Patch(w, a, path, value).Ok? && path[0] != key
    ensures InTree(Patch(w, a, path, value).value.root, a)
    ensures MapGet(At(Patch(w, a, path, value).value.root, a), key) == MapGet(At(w.root, a), key)
  {
    hide Grows, Patch;
    PatchPutGet(w, a, path, value);
    var w' := Patch(w, a, path, value).value;
    var n, n' := At(w.root, a), At(w'.root, a);
    GrownAt(w.root, w'.root, a);
    IndexOfFirst(n.children, key);
    IndexOfFirst(n'.children, key);
    match IndexOf(n.children, key) {
      case Some(k) =>
        StepStable(n, n', key);
        IndexOfFirst(n.children, path[0]);
        PatchKeepsSibling(w, a, path, value, k);
        InTreeJoin(w.root, a, [k]);
        InTreeJoin(w'.root, a, [k]);
      case None =>
        PatchAddsOnlyItsKey(w, a, path, value, key);
        assert MapGet(n, key) == None;
    }
  }

  lemma GrownAt(root: Node, root': Node, a: Address)
    requires Grows(root, root') && InTree(root, a)
    ensures InTree(root', a) && Grown(At(root, a), At(root', a))
  {
  }

  /** A walk below a child leaves the document's own entries alone. */
  lemma {:induction false} WalkBelow(w: Work, a: Address, path: seq<string>, value: string, c: Address)
    requires InTree(w.root, a) && Walk(w, a, path, value).Ok? && InTree(w.root, c) && |c| < |a|
    ensures var (w', b) := Walk(w, a, path, value).value;
            InTree(w'.root, c) && SameShallow(At(w.root, c), At(w'.root, c)) && |b| > |c|
    decreases |path|
  {
    hide Grows;
    var n, last := At(w.root, a), |path| == 1;
    WalkStep(w, a, path[0], last, value);
    var w' := if Lacks(n, path[0]) then Create(w, a, path[0], last, value) else w;
    var next := a + [if Lacks(n, path[0]) then |n.children| else Step(n, path[0]).value];
    if Lacks(n, path[0]) { AppendEffect(w.root, a, Child(path[0], 0, 0, FreshNode(last, value)), c); }
    ReflexiveShallow(At(w.root, c));
    if !last { WalkBelow(w', next, path[1..], value, c); }
  }

  lemma SameShallowIndex(x: Node, y: Node, key: string)
    requires SameShallow(x, y) && x.Branch?
    ensures IndexOf(y.children, key) == IndexOf(x.children, key)
  {
    IndexOfFirst(x.children, key);
    IndexOfFirst(y.children, key);
    assert forall i :: 0 <= i < |x.children| ==> SameEntry(x.children[i], y.children[i]);
  }

  lemma CreateAddsOnlyItsKey(w: Work, a: Address, segment: string, last: bool, value: string, key: string)
    requires InTree(w.root, a) && Lacks(At(w.root, a), segment) && segment != key && IndexOf(At(w.root, a).children, key) == None
    ensures InTree(Create(w, a, segment, last, value).root, a)
    ensures MapGet(At(Create(w, a, segment, last, value).root, a), key) == None
  {
    hide Grows;
    AppendEffect(w.root, a, Child(segment, 0, 0, FreshNode(last, value)), a);
    var n := At(w.root, a);
    assert (n.children + [Child(segment, 0, 0, FreshNode(last, value))])[..|n.children|] == n.children;
  }

  lemma PatchAddsOnlyItsKey(w: Work, a: Address, path: seq<string>, value: string, key: string)
    requires InTree(w.root, a) && IsMapping(At(w.root, a)) && Patch(w, a, path, value).Ok? && path[0] != key
    requires IndexOf(At(w.root, a).children, key) == None
    ensures InTree(Patch(w, a, path, value).value.root, a)
    ensures MapGet(At(Patch(w, a, path, value).value.root, a), key) == None
  {
    hide Grows, SameShallow, IndexOf;
    var n, last := At(w.root, a), |path| == 1;
    WalkStep(w, a, path[0], last, value);
    WalkReaches(w, a, path, value);
    var w1 := if Lacks(n, path[0]) then Create(w, a, path[0], last, value) else w;
    var next: Address := a + [if Lacks(n, path[0]) then |n.children| else Step(n, path[0]).value];
    if Lacks(n, path[0]) { CreateAddsOnlyItsKey(w, a, path[0], last, value, key); }
    var (w2, b) := Walk(w, a, path, value).value;
    ReflexiveShallow(At(w1.root, a));
    if !last { WalkBelow(w1, next, path[1..], value, a); }
    var n1, n2 := At(w1.root, a), At(w2.root, a);
    SetValueEffect(w2.root, b, value, a);
    var n3 := At(SetValue(w2.root, b, value), a);
    assert SameShallow(n1, n2) && SameShallow(n2, n3);
    GrownAt(w.root, w2.root, a);
    if n1.Branch? { SameShallowIndex(n1, n2, key); }
    if n2.Branch? { SameShallowIndex(n2, n3, key); }
    ShallowKind(n1, n2);
    ShallowKind(n2, n3);
  }

  lemma ShallowKind(x: Node, y: Node)
    requires SameShallow(x, y)
    ensures x.Branch? <==> y.Branch?
    ensures x.Branch? ==> x.kind == y.kind
  {
  }

  /** A path that goes through an existing child is that child's path from there. */
  lemma PatchInto(w: Work, a: Address, path: seq<string>, value: string, k: nat)
    requires InTree(w.root, a) && |path| > 1 && Step(At(w.root, a), path[0]) == Some(k)
    ensures InTree(w.root, a + [k]) && Patch(w, a, path, value) == Patch(w, a + [k], path[1..], value)
  {
    hide Grows;
    InTreeJoin(w.root, a, [k]);
    assert !Lacks(At(w.root, a), path[0]) by { IndexOfFirst(At(w.root, a).children, path[0]); }
  }

  /** What matchesTarget reads of the metadata node. */
  predicate SameMeta(m: Node, m': Node) {
    ScalarAt(m, "name") == ScalarAt(m', "name") && ScalarAt(m, "namespace") == ScalarAt(m', "namespace") && LabelsOf(m) == LabelsOf(m')
  }

  lemma PatchKeepsMeta(w: Work, a: Address, path: seq<string>, value: string)
    requires InTree(w.root, a) && Patch(w, a, path, value).Ok? && path != [] && !IsMetaKey(path[0])
    ensures InTree(Patch(w, a, path, value).value.root, a) && SameMeta(At(w.root, a), At(Patch(w, a, path, value).value.root, a))
  {
    hide Grows, Patch, MapGet;
    PatchPutGet(w, a, path, value);
    GrownAt(w.root, Patch(w, a, path, value).value.root, a);
    if IsMapping(At(w.root, a)) {
      PatchKeepsKey(w, a, path, value, "name");
      PatchKeepsKey(w, a, path, value, "namespace");
      PatchKeepsKey(w, a, path, value, "labels");
    } else {
      NoMeta(At(w.root, a));
      NoMeta(At(Patch(w, a, path, value).value.root, a));
    }
  }

  lemma NoMeta(m: Node)
    requires !IsMapping(m)
    ensures ScalarAt(m, "name") == "" == ScalarAt(m, "namespace") && LabelsOf(m) == map[]
  {
  }

  /** A path below metadata, outside what is read, keeps the identity of a document that has metadata. */
  lemma PatchKeepsMetadata(w: Work, d: nat, path: seq<string>, value: string)
    requires InTree(w.root, [d]) && IsMapping(At(w.root, [d])) && Patch(w, [d], path, value).Ok?
    requires |path| > 1 && path[0] == "metadata" && !IsMetaKey(path[1]) && IdentityOf(At(w.root, [d])).hasMetadata
    ensures InTree(Patch(w, [d], path, value).value.root, [d])
    ensures var m, m' := MapGet(At(w.root, [d]), "metadata"), MapGet(At(Patch(w, [d], path, value).value.root, [d]), "metadata");
            m.Some? && m'.Some? && SameMeta(m.value, m'.value)
  {
    hide Grows, Patch, LabelsOf, ScalarAt;
    var n := At(w.root, [d]);
    IndexOfFirst(n.children, "metadata");
    var k := IndexOf(n.children, "metadata").value;
    PatchInto(w, [d], path, value, k);
    PatchKeepsMeta(w, [d] + [k], path[1..], value);
    PatchPutGet(w, [d], path, value);
    var root' := Patch(w, [d], path, value).value.root;
    GrownAt(w.root, root', [d]);
    StepStable(n, At(root', [d]), "metadata");
    IndexOfFirst(At(root', [d]).children, "metadata");
    InTreeJoin(w.root, [d], [k]);
    InTreeJoin(root', [d], [k]);
  }

  /** A patch outside what matchesTarget reads changes no document's identity. */
  lemma PatchKeepsIdentity(w: Work, d: nat, path: seq<string>, value: string, e: nat)
    requires InTree(w.root, [d]) && InTree(w.root, [e]) && IsMapping(At(w.root, [d]))
    requires Patch(w, [d], path, value).Ok? && !IsIdentityPath(path) && IdentityOf(At(w.root, [d])).hasMetadata
    ensures InTree(Patch(w, [d], path, value).value.root, [e])
    ensures IdentityOf(At(Patch(w, [d], path, value).value.root, [e])) == IdentityOf(At(w.root, [e]))
    ensures IsMapping(At(Patch(w, [d], path, value).value.root, [e])) == IsMapping(At(w.root, [e]))
  {
    if d == e {
      hide Grows, Patch, MapGet, LabelsOf;
      PatchNeedsPath(w, [d], path, value);
      PatchKeepsKey(w, [d], path, value, "apiVersion");
      PatchKeepsKey(w, [d], path, value, "kind");
      if path[0] == "metadata" {
        PatchKeepsMetadata(w, d, path, value);
      } else {
        PatchKeepsKey(w, [d], path, value, "metadata");
      }
      PatchPutGet(w, [d], path, value);
      GrownAt(w.root, Patch(w, [d], path, value).value.root, [d]);
    } else {
      PatchKeepsOthers(w, d, path, value, e);
    }
  }

  lemma PatchNeedsPath(w: Work, a: Address, path: seq<string>, value: string)
    requires InTree(w.root, a) && Patch(w, a, path, value).Ok?
    ensures path != []
  {
  }

  /** A patch of one document leaves every other one as it is. */
  lemma PatchKeepsOthers(w: Work, d: nat, path: seq<string>, value: string, e: nat)
    requires InTree(w.root, [d]) && InTree(w.root, [e]) && d != e && Patch(w, [d], path, value).Ok?
    ensures InTree(Patch(w, [d], path, value).value.root, [e])
    ensures At(Patch(w, [d], path, value).value.root, [e]) == At(w.root, [e])
  {
    hide Grows;
    WalkReaches(w, [d], path, value);
    WalkElsewhere(w, [d], path, value, [e]);
    var (w', b) := Walk(w, [d], path, value).value;
    Incomparable([d], [e], b);
    BesideReplaced(w'.root, b, At(w'.root, b).(value := value), [e]);
  }

  // ----- patching the name -----

  /** What a patch of the name does to a document's identity. */
  lemma NamePatched(w: Work, d: nat, v: string)
    requires InTree(w.root, [d]) && IsMapping(At(w.root, [d])) && IdentityOf(At(w.root, [d])).hasMetadata
    requires Patch(w, [d], ["metadata", "name"], v).Ok? && IsMapping(MapGet(At(w.root, [d]), "metadata").value)
    ensures InTree(Patch(w, [d], ["metadata", "name"], v).value.root, [d])
    ensures IdentityOf(At(Patch(w, [d], ["metadata", "name"], v).value.root, [d])) == IdentityOf(At(w.root, [d])).(name := v)
  {
    hide Patch, Grows, LabelsOf, Resolve;
    var path, n := ["metadata", "name"], At(w.root, [d]);
    PatchPutGet(w, [d], path, v);
    var root' := Patch(w, [d], path, v).value.root;
    PatchKeepsKey(w, [d], path, v, "apiVersion");
    PatchKeepsKey(w, [d], path, v, "kind");
    GrownAt(w.root, root', [d]);
    IndexOfFirst(n.children, "metadata");
    var k := IndexOf(n.children, "metadata").value;
    PatchInto(w, [d], path, v, k);
    InTreeJoin(w.root, [d], [k]);
    InTreeJoin(root', [d], [k]);
    assert path[1..] == ["name"];
    PatchPutGet(w, [d] + [k], ["name"], v);
    PatchKeepsKey(w, [d] + [k], ["name"], v, "namespace");
    PatchKeepsKey(w, [d] + [k], ["name"], v, "labels");
    GrownAt(w.root, root', [d] + [k]);
    StepStable(n, At(root', [d]), "metadata");
    IndexOfFirst(At(root', [d]).children, "metadata");
    NameRead(root', [d] + [k], v);
    SameLabels(At(w.root, [d] + [k]), At(root', [d] + [k]));
  }

  lemma SameLabels(m: Node, m': Node)
    requires MapGet(m, "labels") == MapGet(m', "labels")
    ensures LabelsOf(m) == LabelsOf(m')
  {
    hide MapGet;
  }

  lemma NameRead(root: Node, a: Address, v: string)
    requires InTree(root, a) && IsMapping(At(root, a)) && Lookup(root, a, ["name"]) == Some(v)
    ensures ScalarAt(At(root, a), "name") == v
  {
    var m := At(root, a);
    IndexOfFirst(m.children, "name");
    assert ["name"][1..] == [];
    var l := Step(m, "name").value;
    InTreeJoin(root, a, [l]);
  }

  /**
   A target that patches the name it selects by finds the document again, in a second run, exactly
   when it writes the name it looks for.
   */
  lemma NamePatchRerun(w: Work, d: nat, t: Target, v: string)
    requires InTree(w.root, [d]) && IsMapping(At(w.root, [d])) && t.name != ""
    requires MatchesTarget(IdentityOf(At(w.root, [d])), t) == Ok(true)
    requires Patch(w, [d], ["metadata", "name"], v).Ok? && IsMapping(MapGet(At(w.root, [d]), "metadata").value)
    ensures InTree(Patch(w, [d], ["metadata", "name"], v).value.root, [d])
    ensures MatchesTarget(IdentityOf(At(Patch(w, [d], ["metadata", "name"], v).value.root, [d])), t) == Ok(v == t.name)
  {
    hide Patch, MapGet, IdentityOf;
    HasMetadata(At(w.root, [d]));
    NamePatched(w, d, v);
  }

  lemma MatchedHasMetadata(id: Identity, t: Target)
    ensures MatchesTarget(id, t) == Ok(true) ==> id.hasMetadata
  {
  }

  lemma HasMetadata(n: Node)
    ensures IdentityOf(n).hasMetadata <==> MapGet(n, "metadata").Some?
  {
  }
}
