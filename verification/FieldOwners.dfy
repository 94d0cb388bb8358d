/**
 Who owns which manifest field: the check that no two updaters claim one field, what it misses,
 and the proof that runs of one updater leave the diverging fields of the others alone.
 */
module FieldOwners {
  import opened Basics
  import opened Text
  import opened Scan
  import opened Nodes
  import opened Documents
  import opened Manifest
  import opened Shapes
  import opened Rerun
  import opened Idempotence
  import opened Editor

  // ----- validateFieldOwnership -----

  datatype OwnedTarget = OwnedTarget(apiVersion: string, kind: string, namespace: string, name: string,
                                     selectorJson: string, fields: seq<string>)

  datatype Updater = Updater(namespace: string, name: string, repo: string, branch: string, path: string,
                             targets: seq<OwnedTarget>)

  datatype Claim = Claim(key: string, owner: string)

  const NUL: char := 0 as char

  function JoinNul(parts: seq<string>): string {
    if parts == [] then "" else if |parts| == 1 then parts[0] else parts[0] + [NUL] + JoinNul(parts[1..])
  }

  function KeyParts(u: Updater, t: OwnedTarget, field: string): seq<string> {
    [u.repo, u.branch, u.path, t.apiVersion, t.kind, t.namespace, t.name, t.selectorJson, field]
  }

  function ClaimOf(u: Updater, t: OwnedTarget, field: string): Claim {
    Claim(JoinNul(KeyParts(u, t, field)), u.namespace + "/" + u.name)
  }

  function FieldClaims(u: Updater, t: OwnedTarget, fields: seq<string>): seq<Claim> {
    if fields == [] then [] else FieldClaims(u, t, fields[..|fields| - 1]) + [ClaimOf(u, t, fields[|fields| - 1])]
  }

  function TargetClaims(u: Updater, targets: seq<OwnedTarget>): seq<Claim> {
    if targets == [] then []
    else
      var last := |targets| - 1;
      TargetClaims(u, targets[..last]) + FieldClaims(u, targets[last], targets[last].fields)
  }

  function Claims(updaters: seq<Updater>): seq<Claim> {
    if updaters == [] then []
    else
      var last := |updaters| - 1;
      Claims(updaters[..last]) + TargetClaims(updaters[last], updaters[last].targets)
  }

  /** One key, two owners. */
  predicate Clashes(a: Claim, b: Claim) {
    a.key == b.key && a.owner != b.owner
  }

  ghost predicate Consistent(claims: seq<Claim>) {
    forall i, j :: 0 <= i < |claims| && 0 <= j < |claims| ==> !Clashes(claims[i], claims[j])
  }

  ghost predicate HasKey(claims: seq<Claim>, key: string) {
    exists i :: 0 <= i < |claims| && claims[i].key == key
  }

  /** owners records the owner of every key claimed so far. */
  ghost predicate Records(owners: map<string, string>, claims: seq<Claim>) {
    && (forall i :: 0 <= i < |claims| ==> claims[i].key in owners && owners[claims[i].key] == claims[i].owner)
    && (forall key :: key in owners ==> HasKey(claims, key))
  }

  lemma RecordMore(owners: map<string, string>, claims: seq<Claim>, c: Claim)
    requires Records(owners, claims)
    ensures c.key in owners && owners[c.key] != c.owner ==> !Consistent(claims + [c])
    ensures !(c.key in owners && owners[c.key] != c.owner) ==> Records(owners[c.key := c.owner], claims + [c])
  {
    var more := claims + [c];
    if c.key in owners && owners[c.key] != c.owner {
      assert HasKey(claims, c.key);
      var i :| 0 <= i < |claims| && claims[i].key == c.key;
      assert Clashes(more[i], more[|claims|]);
    } else {
      forall key | key in owners[c.key := c.owner] ensures HasKey(more, key) {
        if key in owners {
          assert HasKey(claims, key);
          var i :| 0 <= i < |claims| && claims[i].key == key;
          assert more[i].key == key;
        } else {
          assert more[|claims|].key == key;
        }
      }
    }
  }

  lemma RecordsConsistent(owners: map<string, string>, claims: seq<Claim>)
    requires Records(owners, claims)
    ensures Consistent(claims)
  {
  }

  lemma ConsistentPrefix(claims: seq<Claim>, more: seq<Claim>)
    requires Consistent(claims + more)
    ensures Consistent(claims)
  {
    forall i, j | 0 <= i < |claims| && 0 <= j < |claims| ensures !Clashes(claims[i], claims[j]) {
      assert !Clashes((claims + more)[i], (claims + more)[j]);
    }
  }

  /** The fields of one target; ok is false when a claim clashes with an earlier one. */
  method ClaimFields(u: Updater, t: OwnedTarget, owners: map<string, string>, ghost before: seq<Claim>)
    returns (ok: bool, owners': map<string, string>)
    requires Records(owners, before)
    ensures ok ==> Records(owners', before + FieldClaims(u, t, t.fields))
    ensures !ok ==> !Consistent(before + FieldClaims(u, t, t.fields))
  {
    owners' := owners;
    assert before + [] == before;
    for k := 0 to |t.fields|
      invariant Records(owners', before + FieldClaims(u, t, t.fields[..k]))
    {
      var claim := ClaimOf(u, t, t.fields[k]);
      ghost var seen := before + FieldClaims(u, t, t.fields[..k]);
      assert t.fields[..k + 1][..k] == t.fields[..k];
      assert seen + [claim] == before + FieldClaims(u, t, t.fields[..k + 1]);
      RecordMore(owners', seen, claim);
      if claim.key in owners' && owners'[claim.key] != claim.owner {
        ClaimsPrefix(u, t, t.fields, k + 1, before);
        return false, owners';
      }
      owners' := owners'[claim.key := claim.owner];
    }
    assert t.fields[..|t.fields|] == t.fields;
    ok := true;
  }

  lemma {:induction false} ClaimsPrefix(u: Updater, t: OwnedTarget, fields: seq<string>, k: nat, before: seq<Claim>)
    requires k <= |fields| && !Consistent(before + FieldClaims(u, t, fields[..k]))
    ensures !Consistent(before + FieldClaims(u, t, fields))
    decreases |fields|
  {
    if k == |fields| {
      assert fields[..k] == fields;
    } else {
      var last := |fields| - 1;
      assert fields[..last][..k] == fields[..k];
      ClaimsPrefix(u, t, fields[..last], k, before);
      var a, b := before + FieldClaims(u, t, fields[..last]), [ClaimOf(u, t, fields[last])];
      assert before + FieldClaims(u, t, fields) == a + b;
      if Consistent(a + b) { ConsistentPrefix(a, b); }
    }
  }

  method ClaimTargets(u: Updater, owners: map<string, string>, ghost before: seq<Claim>)
    returns (ok: bool, owners': map<string, string>)
    requires Records(owners, before)
    ensures ok ==> Records(owners', before + TargetClaims(u, u.targets))
    ensures !ok ==> !Consistent(before + TargetClaims(u, u.targets))
  {
    hide FieldClaims, Consistent, Records;
    owners' := owners;
    assert before + [] == before;
    for k := 0 to |u.targets|
      invariant Records(owners', before + TargetClaims(u, u.targets[..k]))
    {
      ghost var seen := before + TargetClaims(u, u.targets[..k]);
      assert u.targets[..k + 1][..k] == u.targets[..k];
      assert seen + FieldClaims(u, u.targets[k], u.targets[k].fields) == before + TargetClaims(u, u.targets[..k + 1]);
      var fine, more := ClaimFields(u, u.targets[k], owners', seen);
      if !fine {
        TargetsPrefix(u, u.targets, k + 1, before);
        return false, owners';
      }
      owners' := more;
    }
    assert u.targets[..|u.targets|] == u.targets;
    ok := true;
  }

  lemma {:induction false} TargetsPrefix(u: Updater, targets: seq<OwnedTarget>, k: nat, before: seq<Claim>)
    requires k <= |targets| && !Consistent(before + TargetClaims(u, targets[..k]))
    ensures !Consistent(before + TargetClaims(u, targets))
    decreases |targets|
  {
    hide FieldClaims, Consistent;
    if k == |targets| {
      assert targets[..k] == targets;
    } else {
      var last := |targets| - 1;
      assert targets[..last][..k] == targets[..k];
      TargetsPrefix(u, targets[..last], k, before);
      var a, b := before + TargetClaims(u, targets[..last]), FieldClaims(u, targets[last], targets[last].fields);
      assert before + TargetClaims(u, targets) == a + b;
      if Consistent(a + b) { ConsistentPrefix(a, b); }
    }
  }

  /** Accepted exactly when no key is claimed by two different updaters. */
  method ValidateFieldOwnership(updaters: seq<Updater>) returns (ok: bool)
    ensures ok <==> Consistent(Claims(updaters))
  {
    var owners: map<string, string> := map[];
    for k := 0 to |updaters|
      invariant Records(owners, Claims(updaters[..k]))
    {
      assert updaters[..k + 1][..k] == updaters[..k];
      var fine, more := ClaimTargets(updaters[k], owners, Claims(updaters[..k]));
      if !fine {
        UpdatersPrefix(updaters, k + 1);
        return false;
      }
      owners := more;
    }
    assert updaters[..|updaters|] == updaters;
    RecordsConsistent(owners, Claims(updaters));
    ok := true;
  }

  lemma {:induction false} UpdatersPrefix(updaters: seq<Updater>, k: nat)
    requires k <= |updaters| && !Consistent(Claims(updaters[..k]))
    ensures !Consistent(Claims(updaters))
    decreases |updaters|
  {
    hide TargetClaims, Consistent;
    if k == |updaters| {
      assert updaters[..k] == updaters;
    } else {
      var last := |updaters| - 1;
      assert updaters[..last][..k] == updaters[..k];
      UpdatersPrefix(updaters[..last], k);
      var a, b := Claims(updaters[..last]), TargetClaims(updaters[last], updaters[last].targets);
      if Consistent(a + b) { ConsistentPrefix(a, b); }
    }
  }

  /** Keys join without confusion as long as no part contains the separator. */
  lemma {:induction false} JoinNulInjective(a: seq<string>, b: seq<string>)
    requires |a| == |b| && JoinNul(a) == JoinNul(b)
    requires forall i :: 0 <= i < |a| ==> NUL !in a[i] && NUL !in b[i]
    ensures a == b
  {
    if |a| > 1 {
      FirstNul(a[0], JoinNul(a[1..]), b[0], JoinNul(b[1..]));
      JoinNulInjective(a[1..], b[1..]);
      assert a == [a[0]] + a[1..] && b == [b[0]] + b[1..];
    }
  }

  function NulAt(s: string): nat {
    if s == [] || s[0] == NUL then 0 else 1 + NulAt(s[1..])
  }

  lemma {:induction false} NulAfter(x: string, s: string)
    requires NUL !in x
    ensures NulAt(x + [NUL] + s) == |x|
  {
    if x == [] {
      assert x + [NUL] + s == [NUL] + s;
    } else {
      assert (x + [NUL] + s)[1..] == x[1..] + [NUL] + s;
      NulAfter(x[1..], s);
    }
  }

  lemma FirstNul(x: string, s: string, y: string, t: string)
    requires NUL !in x && NUL !in y && x + [NUL] + s == y + [NUL] + t
    ensures x == y && s == t
  {
    NulAfter(x, s);
    NulAfter(y, t);
    var u, v := x + [NUL] + s, y + [NUL] + t;
    assert u[..|x|] == x && v[..|y|] == y && u[|x| + 1..] == s && v[|y| + 1..] == t;
  }

  // ----- what comparing field names as text misses -----

  /** Same length, and each pair of segments equal or the same index written two ways. */
  predicate Collide(p: seq<string>, q: seq<string>) {
    |p| == |q| && (p == [] || (
      && (p[0] == q[0] || (Atoi(p[0]).Some? && Atoi(p[0]) == Atoi(q[0]) && Atoi(p[0]).value >= 0))
      && Collide(p[1..], q[1..])))
  }

  function Meeting(p: seq<string>, q: seq<string>): Node
    requires Collide(p, q)
  {
    if p == [] then Scalar("", Plain, 1, 1)
    else
      var rest := Meeting(p[1..], q[1..]);
      if p[0] == q[0] then Branch(MapKind, [Child(p[0], 1, 1, rest)], 1)
      else Branch(SeqKind, seq(Atoi(p[0]).value + 1, _ => Child("", 1, 1, rest)), 1)
  }

  lemma {:induction false} MeetingMeets(root: Node, a: Address, p: seq<string>, q: seq<string>)
    requires Collide(p, q) && InTree(root, a) && At(root, a) == Meeting(p, q)
    ensures Resolve(root, a, p).Some? && Resolve(root, a, p) == Resolve(root, a, q)
    decreases |p|
  {
    if p != [] {
      var n := At(root, a);
      if p[0] == q[0] { IndexOfFirst(n.children, p[0]); assert n.children[0].key == p[0]; }
      var k := Step(n, p[0]).value;
      InTreeJoin(root, a, [k]);
      MeetingMeets(root, a + [k], p[1..], q[1..]);
    }
  }

  lemma {:induction false} SameNodeCollides(root: Node, a: Address, p: seq<string>, q: seq<string>)
    requires InTree(root, a) && Resolve(root, a, p).Some? && Resolve(root, a, p) == Resolve(root, a, q)
    ensures Collide(p, q)
    decreases |p|
  {
    if p != [] {
      var n := At(root, a);
      var k, l := Step(n, p[0]).value, Step(n, q[0]).value;
      InTreeJoin(root, a, [k]);
      InTreeJoin(root, a, [l]);
      assert (a + [k])[|a|] == k && (a + [l])[|a|] == l;
      assert Resolve(root, a, p).value[|a|] == k && Resolve(root, a, q).value[|a|] == l;
      IndexOfFirst(n.children, p[0]);
      IndexOfFirst(n.children, q[0]);
      SameNodeCollides(root, a + [k], p[1..], q[1..]);
    }
  }

  /** Two field paths can name one node, in some document, exactly when they collide segment by segment. */
  lemma SharedNodeIffCollide(p: seq<string>, q: seq<string>)
    ensures (exists root: Node :: Resolve(root, [], p).Some? && Resolve(root, [], p) == Resolve(root, [], q)) <==> Collide(p, q)
  {
    if Collide(p, q) {
      MeetingMeets(Meeting(p, q), [], p, q);
    }
    forall root: Node | Resolve(root, [], p).Some? && Resolve(root, [], p) == Resolve(root, [], q)
      ensures Collide(p, q)
    {
      SameNodeCollides(root, [], p, q);
    }
  }

  // ----- runs respect diverging fields -----

  ghost predicate Avoids(patches: seq<PatchSpec>, q: seq<string>) {
    forall p :: p in patches ==> Diverge(Split(p.field, '.'), q)
  }

  /** A patch of document d does not disturb field q of document e, unless they can be the same field. */
  lemma PatchAvoids(w: Work, d: nat, path: seq<string>, value: string, e: nat, q: seq<string>)
    requires InTree(w.root, [d]) && InTree(w.root, [e]) && Patch(w, [d], path, value).Ok?
    requires Lookup(w.root, [e], q).Some? && (d == e ==> Diverge(path, q))
    ensures InTree(Patch(w, [d], path, value).value.root, [e])
    ensures Lookup(Patch(w, [d], path, value).value.root, [e], q) == Lookup(w.root, [e], q)
  {
    hide Grows;
    PatchFrame(w, [d], path, value, [e], q);
    PatchPutGet(w, [d], path, value);
    var root' := Patch(w, [d], path, value).value.root;
    if d == e {
      DivergentAddresses(root', [d], path, q);
    } else {
      assert Resolve(root', [d], path).value[..1] == [d] && Resolve(root', [e], q).value[..1] == [e];
    }
  }

  lemma {:induction false} RunPatchesAvoid(w: Work, d: nat, patches: seq<PatchSpec>, render: string -> Result<string>, e: nat, q: seq<string>)
    requires InTree(w.root, [d]) && InTree(w.root, [e]) && RunPatches(w, d, patches, render).Ok?
    requires Lookup(w.root, [e], q).Some? && (d == e ==> Avoids(patches, q))
    ensures InTree(RunPatches(w, d, patches, render).value.root, [e])
    ensures Lookup(RunPatches(w, d, patches, render).value.root, [e], q) == Lookup(w.root, [e], q)
    decreases |patches|
  {
    hide Patch, Grows, Lookup;
    if patches != [] {
      assert patches[0] in patches;
      var value := render(patches[0].template).value;
      if Blank(value) {
        RunPatchesAvoid(w, d, patches[1..], render, e, q);
      } else {
        var path := Split(patches[0].field, '.');
        PatchPutGet(w, [d], path, value);
        PatchAvoids(w, d, path, value, e, q);
        RunPatchesAvoid(Patch(w, [d], path, value).value, d, patches[1..], render, e, q);
      }
    }
  }

  lemma {:induction false} RunDocsAvoid(w: Work, d: nat, t: Target, render: string -> Result<string>, e: nat, q: seq<string>)
    requires w.root.Branch? && w.root.kind == SeqKind && d <= |w.root.children| && RunDocs(w, d, t, render).Ok?
    requires InTree(w.root, [e]) && Lookup(w.root, [e], q).Some? && Avoids(t.patches, q)
    ensures InTree(RunDocs(w, d, t, render).value.0.root, [e])
    ensures Lookup(RunDocs(w, d, t, render).value.0.root, [e], q) == Lookup(w.root, [e], q)
    decreases |w.root.children| - d
  {
    hide Grows, RunPatches, MatchesTarget, IdentityOf, Avoids, Lookup;
    if d < |w.root.children| {
      DocInTree(w.root, d);
      if MatchesTarget(IdentityOf(w.root.children[d].node), t).value {
        var w1 := RunPatches(w, d, t.patches, render).value;
        RunPatchesGrows(w, d, t.patches, render);
        GrowsKeepsDocs(w.root, w1.root, d);
        RunPatchesAvoid(w, d, t.patches, render, e, q);
        RunDocsAvoid(w1, d + 1, t, render, e, q);
      } else {
        RunDocsAvoid(w, d + 1, t, render, e, q);
      }
    }
  }

  /** A whole run of one updater keeps every field its own fields diverge from. */
  lemma {:induction false} RunTargetsAvoid(w: Work, targets: seq<Target>, render: string -> Result<string>, e: nat, q: seq<string>)
    requires w.root.Branch? && w.root.kind == SeqKind && RunTargets(w, targets, render).Ok?
    requires InTree(w.root, [e]) && Lookup(w.root, [e], q).Some? && forall t :: t in targets ==> Avoids(t.patches, q)
    ensures InTree(RunTargets(w, targets, render).value.root, [e])
    ensures Lookup(RunTargets(w, targets, render).value.root, [e], q) == Lookup(w.root, [e], q)
    decreases |targets|
  {
    hide Grows, RunDocs, Avoids, Lookup;
    if targets != [] {
      assert targets[0] in targets;
      RunDocsGrows(w, 0, targets[0], render);
      var w1 := RunDocs(w, 0, targets[0], render).value.0;
      GrowsKeepsDocs(w.root, w1.root, 0);
      RunDocsAvoid(w, 0, targets[0], render, e, q);
      RunTargetsAvoid(w1, targets[1..], render, e, q);
    }
  }

  /** A field patched once, by patch i, and avoided by the patches after it, reads that patch's value. */
  lemma {:induction false} RunPatchesSet(w: Work, d: nat, patches: seq<PatchSpec>, render: string -> Result<string>, i: nat)
    requires InTree(w.root, [d]) && RunPatches(w, d, patches, render).Ok? && i < |patches|
    requires render(patches[i].template).Ok? && !Blank(render(patches[i].template).value)
    requires Avoids(patches[i + 1..], Split(patches[i].field, '.'))
    ensures InTree(RunPatches(w, d, patches, render).value.root, [d])
    ensures Lookup(RunPatches(w, d, patches, render).value.root, [d], Split(patches[i].field, '.'))
            == Some(render(patches[i].template).value)
    decreases |patches|
  {
    hide Patch, Grows, Lookup, Avoids;
    var value := render(patches[0].template).value;
    if Blank(value) {
      assert patches[1..][i..] == patches[i + 1..];
      RunPatchesSet(w, d, patches[1..], render, i - 1);
    } else {
      var path := Split(patches[0].field, '.');
      PatchPutGet(w, [d], path, value);
      var w1 := Patch(w, [d], path, value).value;
      if i == 0 {
        RunPatchesAvoid(w1, d, patches[1..], render, d, path);
      } else {
        assert patches[1..][i..] == patches[i + 1..];
        RunPatchesSet(w1, d, patches[1..], render, i - 1);
      }
    }
  }

  /** Field q of document e in the decoded updated text is the field of the finished run. */
  lemma UpdatedFieldRead(em: Emitter, stream: seq<Doc>, w: Work, e: nat, q: seq<string>)
    requires ValidEmitter(em) && Finished(StreamNode(stream), w) && DocsWf(stream, true) && ReadyDocs(stream, 0, w)
    requires InTree(w.root, [e])
    ensures w.root.Branch? && |stream| <= |w.root.children|
    ensures var decoded := StreamNode(UpdatedDocs(em, stream, 0, w));
            InTree(decoded, [e]) && Lookup(decoded, [e], q) == Lookup(w.root, [e], q)
  {
    hide ValidEmitter, Finished, DocsWf, ReadyDocs, UpdatedDocs, Erase, Alike;
    UpdatedStreamErased(em, w, stream);
    var decoded := StreamNode(UpdatedDocs(em, stream, 0, w));
    forall a
      ensures InTree(w.root, a) <==> InTree(decoded, a)
      ensures InTree(w.root, a) ==> Alike(At(w.root, a), At(decoded, a))
    {
      SameErased(w.root, decoded, a);
    }
    ResolveAlike(w.root, decoded, [e], q);
    if Resolve(w.root, [e], q).Some? {
      SameErased(w.root, decoded, Resolve(w.root, [e], q).value);
      AlikeScalar(At(w.root, Resolve(w.root, [e], q).value), At(decoded, Resolve(w.root, [e], q).value));
      AlikeScalar(At(decoded, Resolve(w.root, [e], q).value), At(w.root, Resolve(w.root, [e], q).value))
        by { SameErased(decoded, w.root, Resolve(w.root, [e], q).value); }
    }
  }

  /**
   Byte level: after an UpdateManifest of one updater, another updater's diverging field, decoded
   from the new text, still reads what it read before.
   */
  lemma UpdateRespectsForeignField(em: Emitter, stream: seq<Doc>, targets: seq<Target>, render: string -> Result<string>,
                                   w: Work, e: nat, q: seq<string>)
    requires ValidEmitter(em) && DocsWf(stream, true) && OneLineTargets(targets, render)
    requires RunTargets(StartOf(stream), targets, render) == Ok(w) && ReadyDocs(stream, 0, w)
    requires InTree(StreamNode(stream), [e]) && Lookup(StreamNode(stream), [e], q).Some?
    requires forall t :: t in targets ==> Avoids(t.patches, q)
    ensures w.root.Branch? && |stream| <= |w.root.children|
    ensures var decoded := StreamNode(UpdatedDocs(em, stream, 0, w));
            InTree(decoded, [e]) && Lookup(decoded, [e], q) == Lookup(StreamNode(stream), [e], q)
  {
    hide ValidEmitter, DocsWf, OneLineTargets, RunTargets, ReadyDocs, Avoids, UpdatedDocs, Lookup, Finished;
    RunFinishes(stream, targets, render, w);
    RunTargetsAvoid(StartOf(stream), targets, render, e, q);
    UpdatedFieldRead(em, stream, w, e, q);
  }
}
