/**
 Selecting the same documents is not what a second run needs: here a target selects one more
 document under the final identities, and the second run still finds everything in place.
 */
module SameDocuments {
  import opened Basics
  import opened Text
  import opened Nodes
  import opened Manifest
  import opened FixedPoint
  import opened SecondRun

  function Plain(value: string): Node {
    Scalar(value, Scan.Plain, 1, 1)
  }

  function Labels1(app: string): Node {
    Branch(MapKind, [Child("app", 1, 1, Plain(app))], 1)
  }

  function Metadata(name: string, app: string): Node {
    Branch(MapKind, [Child("name", 1, 1, Plain(name)), Child("labels", 1, 1, Labels1(app))], 1)
  }

  function Document(name: string, app: string, v: string): Node {
    Branch(MapKind, [Child("apiVersion", 1, 1, Plain("v1")), Child("kind", 1, 1, Plain("C")),
                     Child("metadata", 1, 1, Metadata(name, app)), Child("v", 1, 1, Plain(v))], 1)
  }

  function Both(app: string, v: string): Node {
    Branch(SeqKind, [Child("", 0, 0, Document("a", "x", v)), Child("", 0, 0, Document("b", app, "1"))], 1)
  }

  function ByLabel(): Target {
    Target("v1", "C", "", "", Labels(m => Get(m, "app") == "x"), [PatchSpec("v", "1")])
  }

  function ByName(): Target {
    Target("v1", "C", "b", "", NoSelector, [PatchSpec("metadata.labels.app", "x")])
  }

  function Render(): string -> Result<string> {
    s => Ok(s)
  }

  // ----- the documents -----

  lemma DocumentIdentity(name: string, app: string, v: string)
    ensures IdentityOf(Document(name, app, v)) == Identity("v1", "C", true, name, "", map["app" := app])
  {
    var n := Document(name, app, v);
    IndexOfFirst(n.children, "apiVersion");
    IndexOfFirst(n.children, "kind");
    IndexOfFirst(n.children, "metadata");
    assert n.children[0].key == "apiVersion" && n.children[1].key == "kind" && n.children[2].key == "metadata";
    MetadataParts(name, app);
  }

  lemma MetadataParts(name: string, app: string)
    ensures ScalarAt(Metadata(name, app), "name") == name && ScalarAt(Metadata(name, app), "namespace") == ""
    ensures LabelsOf(Metadata(name, app)) == map["app" := app]
  {
    var m := Metadata(name, app);
    IndexOfFirst(m.children, "name");
    IndexOfFirst(m.children, "namespace");
    IndexOfFirst(m.children, "labels");
    assert m.children[0].key == "name" && m.children[1].key == "labels";
    var labels := Labels1(app).children;
    assert labels[..0] == [] && LabelSet([]) == map[];
    assert LabelSet(labels) == LabelSet(labels[..0])["app" := app];
  }

  lemma Sides(app: string, v: string)
    ensures InTree(Both(app, v), [0]) && At(Both(app, v), [0]) == Document("a", "x", v)
    ensures InTree(Both(app, v), [1]) && At(Both(app, v), [1]) == Document("b", app, "1")
    ensures forall d: nat :: InTree(Both(app, v), [d]) <==> d < 2
  {
    assert [0][1..] == [] && [1][1..] == [];
  }

  lemma Paths()
    ensures Split("v", '.') == ["v"] && Split("metadata.labels.app", '.') == ["metadata", "labels", "app"]
  {
    hide Split;
    SplitParts("metadata", "labels.app");
    SplitParts("labels", "app");
    SplitWord("app");
    SplitWord("v");
    assert "metadata" + "." + "labels.app" == "metadata.labels.app" && "labels" + "." + "app" == "labels.app";
  }

  // ----- the two fields -----

  lemma VField(root: Node, d: nat, name: string, app: string, v: string)
    requires InTree(root, [d]) && At(root, [d]) == Document(name, app, v)
    ensures Lookup(root, [d], ["v"]) == Some(v) && Resolve(root, [d], ["v"]) == Some([d, 3])
    ensures InTree(root, [d, 3]) && At(root, [d, 3]) == Plain(v)
  {
    var n := Document(name, app, v);
    IndexOfFirst(n.children, "v");
    assert n.children[3].key == "v" && n.children[0].key != "v" && n.children[1].key != "v" && n.children[2].key != "v";
    InTreeJoin(root, [d], [3]);
    assert [d] + [3] == [d, 3] && ["v"][1..] == [] && [3][1..] == [];
  }

  lemma AppField(root: Node, d: nat, name: string, app: string, v: string)
    requires InTree(root, [d]) && At(root, [d]) == Document(name, app, v)
    ensures Lookup(root, [d], ["metadata", "labels", "app"]) == Some(app)
    ensures Resolve(root, [d], ["metadata", "labels", "app"]) == Some([d, 2, 1, 0])
    ensures InTree(root, [d, 2, 1, 0]) && At(root, [d, 2, 1, 0]) == Plain(app)
  {
    var path, n, m, l := ["metadata", "labels", "app"], Document(name, app, v), Metadata(name, app), Labels1(app);
    IndexOfFirst(n.children, "metadata");
    IndexOfFirst(m.children, "labels");
    IndexOfFirst(l.children, "app");
    assert n.children[2].key == "metadata" && n.children[0].key != "metadata" && n.children[1].key != "metadata";
    assert m.children[1].key == "labels" && m.children[0].key != "labels" && l.children[0].key == "app";
    assert path[1..] == ["labels", "app"] && ["labels", "app"][1..] == ["app"] && ["app"][1..] == [];
    Below(root, [d], 2);
    Below(root, [d] + [2], 1);
    Below(root, [d] + [2] + [1], 0);
    assert [d] + [2] + [1] + [0] == [d, 2, 1, 0];
  }

  lemma Below(root: Node, a: Address, k: nat)
    requires InTree(root, a) && At(root, a).Branch? && k < |At(root, a).children|
    ensures InTree(root, a + [k]) && At(root, a + [k]) == At(root, a).children[k].node
  {
    InTreeJoin(root, a, [k]);
    assert [k][1..] == [];
  }

  // ----- the two runs -----

  lemma OnePatch(w: Work, d: nat, field: string, value: string)
    requires InTree(w.root, [d]) && !Blank(value) && Patch(w, [d], Split(field, '.'), value).Ok?
    ensures RunPatches(w, d, [PatchSpec(field, value)], Render()) == Patch(w, [d], Split(field, '.'), value)
  {
    hide Patch, Split, Blank;
    PatchPutGet(w, [d], Split(field, '.'), value);
    assert [PatchSpec(field, value)][1..] == [];
  }

  lemma VSet(v: string)
    requires v == "0"
    ensures InTree(Both("y", v), [0, 3]) && At(Both("y", v), [0, 3]).Scalar? && SetValue(Both("y", v), [0, 3], "1") == Both("y", "1")
  {
    assert [0, 3][1..] == [3] && [3][1..] == [];
    assert Replace(Document("a", "x", v), [3], Plain("1")) == Document("a", "x", "1");
  }

  lemma LabelPatched(w: Work)
    requires w.root == Both("y", "0")
    ensures InTree(w.root, [0]) && RunPatches(w, 0, ByLabel().patches, Render()).Ok?
    ensures RunPatches(w, 0, ByLabel().patches, Render()).value.root == Both("y", "1")
  {
    hide Split, Both, Document, RunPatches, Replace, Resolve, Lookup;
    Sides("y", "0");
    Paths();
    VField(w.root, 0, "a", "x", "0");
    WalkExisting(w, [0], ["v"], "1");
    VSet("0");
    NotBlank();
    OnePatch(w, 0, "v", "1");
  }

  lemma NotBlank()
    ensures !Blank("1") && !Blank("x")
  {
    assert !IsSpace("1"[0]) && !IsSpace("x"[0]);
  }

  lemma AppSet()
    ensures InTree(Both("y", "1"), [1, 2, 1, 0]) && At(Both("y", "1"), [1, 2, 1, 0]).Scalar?
    ensures SetValue(Both("y", "1"), [1, 2, 1, 0], "x") == Both("x", "1")
  {
    var b := [1, 2, 1, 0];
    assert b[1..] == [2, 1, 0] && [2, 1, 0][1..] == [1, 0] && [1, 0][1..] == [0] && [0][1..] == [];
    assert Replace(Labels1("y"), [0], Plain("x")) == Labels1("x");
    assert Replace(Metadata("b", "y"), [1, 0], Plain("x")) == Metadata("b", "x");
    assert Replace(Document("b", "y", "1"), [2, 1, 0], Plain("x")) == Document("b", "x", "1");
    AppField(Both("y", "1"), 1, "b", "y", "1") by { Sides("y", "1"); }
  }

  lemma NamePatchedDoc(w: Work)
    requires w.root == Both("y", "1")
    ensures InTree(w.root, [1]) && RunPatches(w, 1, ByName().patches, Render()).Ok?
    ensures RunPatches(w, 1, ByName().patches, Render()).value.root == Both("x", "1")
  {
    hide Split, Both, Document, RunPatches, Replace, Resolve, Lookup;
    Sides("y", "1");
    Paths();
    AppField(w.root, 1, "b", "y", "1");
    WalkExisting(w, [1], ["metadata", "labels", "app"], "x");
    AppSet();
    NotBlank();
    OnePatch(w, 1, "metadata.labels.app", "x");
  }

  lemma FirstRun(w: Work)
    requires w.root == Both("y", "0")
    ensures var r := RunTargets(w, [ByLabel(), ByName()], Render()); r.Ok? && r.value.root == Both("x", "1")
  {
    hide RunPatches;
    var targets := [ByLabel(), ByName()];
    assert targets[1..] == [ByName()] && [ByName()][1..] == [];
    LabelPatched(w);
    var w1 := RunPatches(w, 0, ByLabel().patches, Render()).value;
    DocumentIdentity("a", "x", "0");
    DocumentIdentity("b", "y", "1");
    DocumentIdentity("a", "x", "1");
    LabelRun(w, w1);
    NameRun(w1);
  }

  lemma LabelRun(w: Work, w1: Work)
    requires w.root == Both("y", "0") && InTree(w.root, [0]) && RunPatches(w, 0, ByLabel().patches, Render()) == Ok(w1)
    requires w1.root == Both("y", "1")
    ensures RunDocs(w, 0, ByLabel(), Render()) == Ok((w1, 1))
  {
    hide RunPatches, IdentityOf;
    DocumentIdentity("a", "x", "0");
    DocumentIdentity("b", "y", "1");
    assert RunDocs(w1, 2, ByLabel(), Render()) == Ok((w1, 0));
    assert RunDocs(w1, 1, ByLabel(), Render()) == Ok((w1, 0));
  }

  lemma NameRun(w: Work)
    requires w.root == Both("y", "1")
    ensures var r := RunDocs(w, 0, ByName(), Render()); r.Ok? && r.value.0.root == Both("x", "1") && r.value.1 == 1
  {
    hide RunPatches, IdentityOf;
    DocumentIdentity("a", "x", "1");
    DocumentIdentity("b", "y", "1");
    NamePatchedDoc(w);
    var w1 := RunPatches(w, 1, ByName().patches, Render()).value;
    assert RunDocs(w1, 2, ByName(), Render()) == Ok((w1, 0));
    assert RunDocs(w, 1, ByName(), Render()) == Ok((w1, 1));
  }

  /**
   In its turn of the first run the first target selects only document 0. Under the final identities
   it selects document 1 as well; yet all targets are satisfied, so a second run changes nothing.
   */
  lemma SelectsMoreYetSatisfied(w: Work)
    requires w.root == Both("y", "0")
    ensures var targets := [ByLabel(), ByName()];
            var r := RunTargets(w, targets, Render());
            && r.Ok? && InTree(r.value.root, [1])
            && !SelectedInTurn(w, targets, Render(), 0, 1)
            && Selects(IdentityOf(At(r.value.root, [1])), targets[0])
            && Satisfied(r.value.root, targets, Render())
  {
    hide RunTargets, IdentityOf, Lookup, Both, Document, MatchesTarget, Blank, Satisfied, SelectedInTurn;
    FirstRun(w);
    Sides("y", "0");
    Sides("x", "1");
    DocumentIdentity("b", "y", "1");
    DocumentIdentity("b", "x", "1");
    DocumentIdentity("a", "x", "1");
    Paths();
    FinalSatisfied();
    FirstTurn(w);
    assert Selects(Identity("v1", "C", true, "b", "", map["app" := "x"]), ByLabel()) by { LabelSelects(); }
  }

  lemma LabelSelects()
    ensures Selects(Identity("v1", "C", true, "b", "", map["app" := "x"]), ByLabel())
    ensures Selects(Identity("v1", "C", true, "b", "", map["app" := "x"]), ByName())
    ensures !Selects(Identity("v1", "C", true, "b", "", map["app" := "y"]), ByLabel())
  {
  }

  lemma FirstTurn(w: Work)
    requires w.root == Both("y", "0") && RunTargets(w, [ByLabel(), ByName()], Render()).Ok?
    ensures !SelectedInTurn(w, [ByLabel(), ByName()], Render(), 0, 1)
  {
    hide RunTargets, IdentityOf, Both, Document, MatchesTarget;
    Sides("y", "0");
    DocumentIdentity("b", "y", "1");
    LabelSelects();
  }

  lemma LabelSatisfied(d: nat)
    requires d < 2
    ensures InTree(Both("x", "1"), [d]) && DocSatisfied(Both("x", "1"), d, ByLabel(), Render())
  {
    hide IdentityOf, Lookup, Both, Blank, Split;
    var root := Both("x", "1");
    Sides("x", "1");
    var name := if d == 0 then "a" else "b";
    DocumentIdentity(name, "x", "1");
    Paths();
    VField(root, d, name, "x", "1");
    assert forall p :: p in ByLabel().patches ==> PatchSatisfied(root, d, p, Render());
  }

  lemma NameSatisfied(d: nat)
    requires d < 2
    ensures InTree(Both("x", "1"), [d]) && DocSatisfied(Both("x", "1"), d, ByName(), Render())
  {
    hide IdentityOf, Lookup, Both, Blank, Split;
    var root := Both("x", "1");
    Sides("x", "1");
    var name := if d == 0 then "a" else "b";
    DocumentIdentity(name, "x", "1");
    Paths();
    AppField(root, d, name, "x", "1");
    assert forall p :: p in ByName().patches ==> PatchSatisfied(root, d, p, Render());
  }

  lemma FinalSatisfied()
    ensures Satisfied(Both("x", "1"), [ByLabel(), ByName()], Render())
  {
    hide IdentityOf, Both, DocSatisfied, MatchesTarget;
    var root := Both("x", "1");
    Sides("x", "1");
    DocumentIdentity("b", "x", "1");
    LabelSelects();
    forall t | t in [ByLabel(), ByName()] ensures TargetSatisfied(root, t, Render()) {
      assert 0 <= 1 && InTree(root, [1]) && Selects(IdentityOf(At(root, [1])), t);
      forall d: nat | InTree(root, [d]) ensures DocSatisfied(root, d, t, Render()) {
        if t == ByLabel() { LabelSatisfied(d); } else { NameSatisfied(d); }
      }
    }
  }
}
