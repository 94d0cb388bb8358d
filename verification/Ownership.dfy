/**
 What the ownership check is for, and what it lets through: the updaters it accepts are meant to be
 sole writers of a scalar, but it compares the texts of targets and fields.
 */
module Ownership {
  import opened Text
  import opened Nodes
  import opened Manifest
  import opened Identities
  import opened FieldOwners

  // ----- two updaters, one scalar -----

  /** Some manifest document is selected by both targets, and both paths lead to one scalar of it. */
  ghost predicate CanShare(t: Target, p: seq<string>, u: Target, q: seq<string>) {
    exists root: Node :: IsMapping(root) && Selects(IdentityOf(root), t) && Selects(IdentityOf(root), u) && Meets(root, p, q)
  }

  predicate Meets(root: Node, p: seq<string>, q: seq<string>) {
    InTree(root, []) && Resolve(root, [], p).Some? && Resolve(root, [], p) == Resolve(root, [], q)
    && At(root, Resolve(root, [], p).value).Scalar?
  }

  /** A path that does not lead into what targets select by; the keys of metadata are names, not indices. */
  predicate Ordinary(p: seq<string>) {
    p != [] && !IsIdentityPath(p) && (p[0] == "metadata" ==> Atoi(p[1]).None?)
  }

  // ----- a document for any identity -----

  function Entry(key: string, node: Node): Child {
    Child(key, 1, 1, node)
  }

  function Text1(value: string): Node {
    Scalar(value, Scan.Plain, 1, 1)
  }

  lemma {:induction false} LabelsFor(labels: map<string, string>) returns (children: seq<Child>)
    ensures LabelSet(children) == labels
    decreases |labels|
  {
    if labels == map[] {
      children := [];
    } else {
      var key :| key in labels;
      var rest := labels - {key};
      assert |rest| < |labels| by { assert rest.Keys < labels.Keys; SmallerKeys(rest.Keys, labels.Keys); }
      var before := LabelsFor(rest);
      children := before + [Entry(key, Text1(labels[key]))];
      assert children[..|before|] == before;
      assert rest[key := labels[key]] == labels;
    }
  }

  lemma SmallerKeys(a: set<string>, b: set<string>)
    requires a < b
    ensures |a| < |b|
  {
    var rest := b - a;
    assert b == a + rest && rest != {};
  }

  function MetadataNode(id: Identity, labels: seq<Child>, more: seq<Child>): Node {
    Branch(MapKind, [Entry("name", Text1(id.name)), Entry("namespace", Text1(id.namespace)),
                     Entry("labels", Branch(MapKind, labels, 1))] + more, 1)
  }

  function DocumentNode(id: Identity, metadata: Node, more: seq<Child>): Node {
    Branch(MapKind, [Entry("apiVersion", Text1(id.apiVersion)), Entry("kind", Text1(id.kind)), Entry("metadata", metadata)] + more, 1)
  }

  lemma MetadataReads(id: Identity, labels: seq<Child>, more: seq<Child>)
    requires LabelSet(labels) == id.labels
    ensures var m := MetadataNode(id, labels, more);
            ScalarAt(m, "name") == id.name && ScalarAt(m, "namespace") == id.namespace && LabelsOf(m) == id.labels
  {
    hide LabelSet;
    var m := MetadataNode(id, labels, more);
    IndexOfFirst(m.children, "name");
    IndexOfFirst(m.children, "namespace");
    IndexOfFirst(m.children, "labels");
    assert m.children[0].key == "name" && m.children[1].key == "namespace" && m.children[2].key == "labels";
  }

  lemma DocumentReads(id: Identity, labels: seq<Child>, inner: seq<Child>, more: seq<Child>)
    requires id.hasMetadata && LabelSet(labels) == id.labels
    ensures IdentityOf(DocumentNode(id, MetadataNode(id, labels, inner), more)) == id
  {
    hide LabelsOf, LabelSet;
    var n := DocumentNode(id, MetadataNode(id, labels, inner), more);
    IndexOfFirst(n.children, "apiVersion");
    IndexOfFirst(n.children, "kind");
    IndexOfFirst(n.children, "metadata");
    assert n.children[0].key == "apiVersion" && n.children[1].key == "kind" && n.children[2].key == "metadata";
    MetadataReads(id, labels, inner);
  }

  // ----- paths that meet in it -----

  lemma {:induction false} MeetingScalar(root: Node, a: Address, p: seq<string>, q: seq<string>)
    requires Collide(p, q) && InTree(root, a) && At(root, a) == Meeting(p, q)
    ensures Resolve(root, a, p).Some? && Resolve(root, a, p) == Resolve(root, a, q)
    ensures At(root, Resolve(root, a, p).value).Scalar?
    decreases |p|
  {
    if p != [] {
      var n := At(root, a);
      if p[0] == q[0] { IndexOfFirst(n.children, p[0]); assert n.children[0].key == p[0]; }
      var k := Step(n, p[0]).value;
      InTreeJoin(root, a, [k]);
      MeetingScalar(root, a + [k], p[1..], q[1..]);
    }
  }

  /** One step down through a mapping's key. */
  lemma KeyDown(root: Node, a: Address, k: nat, p: seq<string>)
    requires InTree(root, a) && IsMapping(At(root, a)) && k < |At(root, a).children| && p != []
    requires At(root, a).children[k].key == p[0] && forall i :: 0 <= i < k ==> At(root, a).children[i].key != p[0]
    ensures InTree(root, a + [k]) && At(root, a + [k]) == At(root, a).children[k].node
    ensures Resolve(root, a, p) == Resolve(root, a + [k], p[1..])
  {
    IndexOfFirst(At(root, a).children, p[0]);
    InTreeJoin(root, a, [k]);
    assert [k][1..] == [];
  }

  lemma TopMeets(id: Identity, labels: seq<Child>, p: seq<string>, q: seq<string>)
    requires Collide(p, q) && Ordinary(p) && p[0] == q[0] && p[0] != "metadata"
    ensures Meets(DocumentNode(id, MetadataNode(id, labels, []), [Entry(p[0], Meeting(p[1..], q[1..]))]), p, q)
  {
    hide MetadataNode, Meeting, Collide;
    CollideTail(p, q);
    var root := DocumentNode(id, MetadataNode(id, labels, []), [Entry(p[0], Meeting(p[1..], q[1..]))]);
    KeyDown(root, [], 3, p);
    KeyDown(root, [], 3, q);
    MeetingScalar(root, [] + [3], p[1..], q[1..]);
  }

  lemma CollideTail(p: seq<string>, q: seq<string>)
    requires Collide(p, q) && p != []
    ensures q != [] && |p| == |q| && Collide(p[1..], q[1..])
    ensures Atoi(p[0]).None? ==> p[0] == q[0]
  {
  }

  lemma CollideInner(p: seq<string>, q: seq<string>)
    requires Collide(p, q) && Ordinary(p) && p[0] == q[0] == "metadata"
    ensures |p| > 1 && |q| > 1 && p[1] == q[1] && Collide(p[2..], q[2..])
  {
    hide Collide;
    CollideTail(p, q);
    CollideTail(p[1..], q[1..]);
    assert p[1..][1..] == p[2..] && q[1..][1..] == q[2..];
  }

  lemma InnerMeets(id: Identity, labels: seq<Child>, p: seq<string>, q: seq<string>)
    requires Collide(p, q) && Ordinary(p) && p[0] == q[0] == "metadata"
    requires |p| > 1 && |q| > 1 && p[1] == q[1] && Collide(p[2..], q[2..])
    ensures Meets(DocumentNode(id, MetadataNode(id, labels, [Entry(p[1], Meeting(p[2..], q[2..]))]), []), p, q)
  {
    hide Meeting, Collide;
    assert p[1..][1..] == p[2..] && q[1..][1..] == q[2..];
    var inner := MetadataNode(id, labels, [Entry(p[1], Meeting(p[2..], q[2..]))]);
    var root := DocumentNode(id, inner, []);
    KeyDown(root, [], 2, p);
    KeyDown(root, [], 2, q);
    KeyDown(root, [] + [2], 3, p[1..]);
    KeyDown(root, [] + [2], 3, q[1..]);
    MeetingScalar(root, [] + [2] + [3], p[2..], q[2..]);
  }

  /** Two targets can both select something. */
  ghost predicate SelectTogether(t: Target, u: Target) {
    exists id :: Selects(id, t) && Selects(id, u)
  }

  /**
   Two updaters can write one scalar of some manifest exactly when their fields collide under the
   same top-level key and some identity is selected by both their targets.
   */
  lemma SharedScalarIff(t: Target, p: seq<string>, u: Target, q: seq<string>)
    requires Ordinary(p) && Ordinary(q)
    ensures CanShare(t, p, u, q) <==> Collide(p, q) && p[0] == q[0] && SelectTogether(t, u)
  {
    hide IdentityOf, MatchesTarget, Collide, Meeting, DocumentNode, MetadataNode, Resolve;
    if CanShare(t, p, u, q) {
      var root :| IsMapping(root) && Selects(IdentityOf(root), t) && Selects(IdentityOf(root), u) && Meets(root, p, q);
      SameNodeCollides(root, [], p, q);
      SameKey(root, p, q);
    }
    if Collide(p, q) && p[0] == q[0] && SelectTogether(t, u) {
      var id :| Selects(id, t) && Selects(id, u);
      MatchedHasMetadata(id, t);
      var labels := LabelsFor(id.labels);
      if p[0] == "metadata" {
        CollideInner(p, q);
        InnerMeets(id, labels, p, q);
        DocumentReads(id, labels, [Entry(p[1], Meeting(p[2..], q[2..]))], []);
        ADocument(id, MetadataNode(id, labels, [Entry(p[1], Meeting(p[2..], q[2..]))]), []);
      } else {
        CollideTail(p, q);
        TopMeets(id, labels, p, q);
        DocumentReads(id, labels, [], [Entry(p[0], Meeting(p[1..], q[1..]))]);
        ADocument(id, MetadataNode(id, labels, []), [Entry(p[0], Meeting(p[1..], q[1..]))]);
      }
    }
  }

  lemma ADocument(id: Identity, metadata: Node, more: seq<Child>)
    ensures IsMapping(DocumentNode(id, metadata, more))
  {
  }

  lemma SameKey(root: Node, p: seq<string>, q: seq<string>)
    requires IsMapping(root) && p != [] && q != [] && Meets(root, p, q)
    ensures p[0] == q[0]
  {
    var k, l := Step(root, p[0]).value, Step(root, q[0]).value;
    InTreeJoin(root, [], [k]);
    InTreeJoin(root, [], [l]);
    assert ([] + [k])[0] == k && ([] + [l])[0] == l;
    assert Resolve(root, [], p).value[0] == k && Resolve(root, [], q).value[0] == l;
    IndexOfFirst(root.children, p[0]);
    IndexOfFirst(root.children, q[0]);
  }

  /** Without label selectors, that is: same kind of object, same name, and namespaces equal or one of them open. */
  lemma NamedTogether(t: Target, u: Target)
    requires t.selector == NoSelector && u.selector == NoSelector
    ensures SelectTogether(t, u) <==>
            && t.apiVersion == u.apiVersion && t.kind == u.kind && t.name == u.name != ""
            && (t.namespace == u.namespace || t.namespace == "" || u.namespace == "")
  {
    var namespace := if t.namespace != "" then t.namespace else u.namespace;
    var id := Identity(t.apiVersion, t.kind, true, t.name, namespace, map[]);
    if t.apiVersion == u.apiVersion && t.kind == u.kind && t.name == u.name && t.name != ""
       && (t.namespace == u.namespace || t.namespace == "" || u.namespace == "") {
      assert Selects(id, t) && Selects(id, u);
    }
  }

  // ----- what the check accepts -----

  /** The editor's view of an owned target without a label selector: its JSON is null. */
  function TargetOf(o: OwnedTarget): Target {
    Target(o.apiVersion, o.kind, o.name, o.namespace, NoSelector, [])
  }

  predicate NoNul(parts: seq<string>) {
    forall i :: 0 <= i < |parts| ==> NUL !in parts[i]
  }

  function OneField(name: string, o: OwnedTarget, field: string): Updater {
    Updater("team", name, "repo", "main", "app.yaml", [o.(fields := [field])])
  }

  lemma OneClaim(u: Updater, o: OwnedTarget, field: string)
    requires u.targets == [o] && o.fields == [field]
    ensures TargetClaims(u, u.targets) == [ClaimOf(u, o, field)]
  {
    assert [o][..0] == [] && [field][..0] == [];
    assert FieldClaims(u, o, []) == [];
    assert TargetClaims(u, []) == [];
  }

  /** Two updaters with one field each are accepted exactly when their keys differ or they are the same updater. */
  lemma PairAccepted(u: Updater, o: OwnedTarget, f: string, v: Updater, r: OwnedTarget, g: string)
    requires u.targets == [o] && o.fields == [f] && v.targets == [r] && r.fields == [g]
    ensures Consistent(Claims([u, v]))
            <==> ClaimOf(u, o, f).key != ClaimOf(v, r, g).key || ClaimOf(u, o, f).owner == ClaimOf(v, r, g).owner
  {
    hide ClaimOf;
    OneClaim(u, o, f);
    OneClaim(v, r, g);
    assert [u, v][..1] == [u] && [u][..0] == [];
    assert Claims([]) == [];
    assert Claims([u]) == [] + [ClaimOf(u, o, f)];
    var claims := Claims([u, v]);
    assert claims == [ClaimOf(u, o, f)] + [ClaimOf(v, r, g)];
    assert Clashes(claims[0], claims[1]) <==> !(ClaimOf(u, o, f).key != ClaimOf(v, r, g).key || ClaimOf(u, o, f).owner == ClaimOf(v, r, g).owner);
  }

  /**
   Sole writing fails for two accepted updaters of one manifest, without label selectors, exactly
   when their texts differ somewhere and yet they select the same object and colliding fields.
   */
  lemma AcceptedYetShared(u: Updater, o: OwnedTarget, f: string, v: Updater, r: OwnedTarget, g: string)
    requires u.targets == [o] && o.fields == [f] && v.targets == [r] && r.fields == [g]
    requires u.repo == v.repo && u.branch == v.branch && u.path == v.path && o.selectorJson == r.selectorJson
    requires NoNul(KeyParts(u, o, f)) && NoNul(KeyParts(v, r, g)) && u.namespace + "/" + u.name != v.namespace + "/" + v.name
    requires Ordinary(Split(f, '.')) && Ordinary(Split(g, '.'))
    ensures Consistent(Claims([u, v])) && CanShare(TargetOf(o), Split(f, '.'), TargetOf(r), Split(g, '.'))
            <==> && (f != g || o.namespace != r.namespace)
                 && Collide(Split(f, '.'), Split(g, '.')) && Split(f, '.')[0] == Split(g, '.')[0]
                 && o.apiVersion == r.apiVersion && o.kind == r.kind && o.name == r.name != ""
                 && (o.namespace == r.namespace || o.namespace == "" || r.namespace == "")
  {
    hide Consistent, Claims, CanShare, Collide, Split, SelectTogether, JoinNul;
    PairAccepted(u, o, f, v, r, g);
    SharedScalarIff(TargetOf(o), Split(f, '.'), TargetOf(r), Split(g, '.'));
    NamedTogether(TargetOf(o), TargetOf(r));
    if JoinNul(KeyParts(u, o, f)) == JoinNul(KeyParts(v, r, g)) {
      JoinNulInjective(KeyParts(u, o, f), KeyParts(v, r, g));
      assert KeyParts(u, o, f)[8] == f && KeyParts(v, r, g)[8] == g;
      assert KeyParts(u, o, f)[5] == o.namespace && KeyParts(v, r, g)[5] == r.namespace;
    } else if f == g && o.namespace == r.namespace && o.apiVersion == r.apiVersion && o.kind == r.kind && o.name == r.name {
      assert KeyParts(u, o, f) == KeyParts(v, r, g);
    }
  }

  // ----- two accepted pairs that share a scalar -----

  function Web(namespace: string): OwnedTarget {
    OwnedTarget("v1", "C", namespace, "web", "null", [])
  }

  lemma Fields()
    ensures Split("spec.0", '.') == ["spec", "0"] && Split("spec.00", '.') == ["spec", "00"] && Split("spec.image", '.') == ["spec", "image"]
  {
    hide Split;
    SplitParts("spec", "0");
    SplitParts("spec", "00");
    SplitParts("spec", "image");
    SplitWord("0");
    SplitWord("00");
    SplitWord("image");
    assert "spec" + "." + "0" == "spec.0" && "spec" + "." + "00" == "spec.00" && "spec" + "." + "image" == "spec.image";
  }

  /** None of the parts of such an updater's key contains the separator. */
  lemma CleanKey(name: string, namespace: string, field: string)
    requires name in ["one", "two"] && namespace in ["", "prod"] && field in ["spec.0", "spec.00", "spec.image"]
    ensures var u := OneField(name, Web(namespace), field); NoNul(KeyParts(u, u.targets[0], field))
  {
    var u := OneField(name, Web(namespace), field);
    assert KeyParts(u, u.targets[0], field) == ["repo", "main", "app.yaml", "v1", "C", namespace, "web", "null", field];
    assert NUL !in "repo" && NUL !in "main" && NUL !in "app.yaml" && NUL !in "v1" && NUL !in "C" && NUL !in "web" && NUL !in "null";
    assert NUL !in namespace;
    assert NUL !in field;
  }

  /** "spec.0" and "spec.00" are accepted from two updaters, and are one list entry. */
  lemma TextualOwnershipMissesIndices()
    ensures var u, v := OneField("one", Web(""), "spec.0"), OneField("two", Web(""), "spec.00");
            && Consistent(Claims([u, v]))
            && CanShare(TargetOf(Web("")), Split("spec.0", '.'), TargetOf(Web("")), Split("spec.00", '.'))
  {
    hide Consistent, Claims, CanShare, Split, NoNul, Collide;
    var u, v := OneField("one", Web(""), "spec.0"), OneField("two", Web(""), "spec.00");
    CleanKey("one", "", "spec.0");
    CleanKey("two", "", "spec.00");
    Fields();
    IndicesCollide();
    Distinguished("team/one", "team/two");
    AcceptedYetShared(u, u.targets[0], "spec.0", v, v.targets[0], "spec.00");
  }

  lemma IndicesCollide()
    ensures Collide(["spec", "0"], ["spec", "00"]) && "spec.0" != "spec.00"
    ensures Collide(["spec", "image"], ["spec", "image"])
  {
    assert DigitsValue("0") == 0;
    assert "00"[..1] == "0";
    assert DigitsValue("00") == 0;
    assert ["spec", "0"][1..] == ["0"] && ["spec", "00"][1..] == ["00"];
    assert ["0"][1..] == [] && ["00"][1..] == [];
    assert Collide(["0"], ["00"]);
    assert ["spec", "image"][1..] == ["image"] && ["image"][1..] == [];
    assert Collide(["image"], ["image"]);
  }

  lemma Distinguished(a: string, b: string)
    requires a == "team/one" && b == "team/two"
    ensures a != b && "team" + "/" + "one" == a && "team" + "/" + "two" == b
  {
    assert a[5] != b[5];
  }

  /** One field of one object, claimed once with its namespace and once without: both are accepted. */
  lemma TextualOwnershipMissesNamespaces()
    ensures var u, v := OneField("one", Web(""), "spec.image"), OneField("two", Web("prod"), "spec.image");
            && Consistent(Claims([u, v]))
            && CanShare(TargetOf(Web("")), Split("spec.image", '.'), TargetOf(Web("prod")), Split("spec.image", '.'))
  {
    hide Consistent, Claims, CanShare, Split, NoNul, Collide;
    var u, v := OneField("one", Web(""), "spec.image"), OneField("two", Web("prod"), "spec.image");
    CleanKey("one", "", "spec.image");
    CleanKey("two", "prod", "spec.image");
    Fields();
    IndicesCollide();
    Distinguished("team/one", "team/two");
    AcceptedYetShared(u, u.targets[0], "spec.image", v, v.targets[0], "spec.image");
  }
}
