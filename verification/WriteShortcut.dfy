/**
 The remote-head shortcut and the retry of a lost status write. Both rest on one invariant: the
 manifest at the last written commit already is what the edit of the recorded release makes of it.
 */
module WriteShortcut {
  import opened Basics
  import opened Matcher
  import opened GitBranch
  import opened Rollout
  import opened Runs

  /**
   What does not change behind an updater's back: the specification of a generation, a tag's
   release data, and which tags the source ever lists.
   */
  datatype Fixed = Fixed(spec: int -> Spec, release: (int, Tag) -> map<string, string>, listed: Tag -> bool)

  /** The data a write of this release renders, when the pattern accepts the tag. */
  ghost function DataOf(f: Fixed, gen: int, tag: Tag, digest: Digest): map<string, string>
    requires ValidSpec(f.spec(gen)) && f.spec(gen).pattern.find(tag).Some?
  {
    var spec := f.spec(gen);
    var m := Match(tag, Captures(spec.pattern.names, spec.pattern.find(tag).value));
    WithDigest(spec, ReleaseData(spec, m, f.release(gen, tag)), digest)
  }

  /** A release that a pass of this generation can come to write: a listed tag, with a digest if digests are resolved. */
  ghost predicate Writable(f: Fixed, gen: int, tag: Tag, d: Digest) {
    && f.listed(tag) && ValidSpec(f.spec(gen)) && f.spec(gen).pattern.find(tag).Some?
    && (f.spec(gen).resolveDigest ==> ValidDigest(d))
  }

  ghost predicate Idempotent(edit: Edit) {
    forall x: string, y: string :: edit(x) == Some(y) ==> edit(y) == Some(y)
  }

  /** Editing a writable release in a second time changes nothing. */
  ghost predicate IdempotentEdits(f: Fixed, gen: int) {
    forall tag, d :: Writable(f, gen, tag, d) ==> Idempotent(f.spec(gen).edit(DataOf(f, gen, tag, d)))
  }

  ghost predicate Consistent(f: Fixed, e: Event) {
    && e.spec == f.spec(e.gen) && ValidSpec(e.spec) && IdempotentEdits(f, e.gen)
    && (forall t :: e.ans.release(t).Some? ==> e.ans.release(t) == Some(f.release(e.gen, t)))
    && (e.ans.tags.Some? ==> forall t :: t in e.ans.tags.value ==> f.listed(t))
    && (forall t :: e.ans.digest(t).Some? ==> ValidDigest(e.ans.digest(t).value))
  }

  ghost predicate AllConsistent(f: Fixed, es: seq<Event>) {
    forall i :: 0 <= i < |es| ==> Consistent(f, es[i])
  }

  /** The recorded release is in the manifest at position k: editing it in again changes nothing. */
  ghost predicate InPlace(f: Fixed, gen: int, tag: Tag, digest: Digest, h: History, k: nat) {
    && ValidSpec(f.spec(gen)) && f.spec(gen).pattern.find(tag).Some?
    && digest == Get(DataOf(f, gen, tag, digest), "image_digest")
    && SettledAt(h, k, f.spec(gen).path, f.spec(gen).edit(DataOf(f, gen, tag, digest)))
  }

  ghost predicate WrittenInv(f: Fixed, s: Status, h: History) {
    && (s.lastTag != "" ==> f.listed(s.lastTag)) && (s.previousTag != "" ==> f.listed(s.previousTag))
    && (s.lastWriteCommit != NoRevision ==>
          s.lastWriteCommit.OnBranch? && InPlace(f, s.observedGeneration, s.lastTag, s.lastDigest, h, s.lastWriteCommit.index))
  }

  // ----- Apply leaves its edit in place -----

  lemma AppliedSettles(h: History, path: string, edit: Edit, script: seq<Attempt>)
    requires |script| == ATTEMPTS
    requires Idempotent(edit)
    ensures var (h', r) := ApplyRun(h, path, edit, script, 0);
            r.Applied? ==> SettledAt(h', r.index, path, edit)
  {
    hide ApplyRun, SettledAt;
    var n := ApplySafe(h, path, edit, script, 0);
    var (h', r) := ApplyRun(h, path, edit, script, 0);
    if r.Applied? && r.committed {
      EditedSettles(h', r.index, path, edit);
    }
  }

  lemma EditedSettles(h: History, k: nat, path: string, edit: Edit)
    requires EditsParent(h, k, path, edit)
    requires Idempotent(edit)
    ensures SettledAt(h, k, path, edit)
  {
  }

  lemma InPlaceLater(f: Fixed, s: Status, h: History, h': History)
    requires WrittenInv(f, s, h) && h <= h'
    ensures WrittenInv(f, s, h')
  {
    hide DataOf;
    if s.lastWriteCommit != NoRevision {
      var k := s.lastWriteCommit.index;
      assert h'[k] == h[k];
    }
  }

  // ----- the invariant over a pass -----

  lemma WithDigestIsDigest(f: Fixed, gen: int, tag: Tag, d: Digest)
    requires ValidSpec(f.spec(gen)) && f.spec(gen).pattern.find(tag).Some?
    ensures var digest := Get(DataOf(f, gen, tag, d), "image_digest");
            DataOf(f, gen, tag, digest) == DataOf(f, gen, tag, d)
  {
  }

  lemma RollbackInPlace(f: Fixed, e: Event, s: Status, h: History)
    requires Consistent(f, e) && ValidAnswers(e.ans) && WrittenInv(f, s, h)
    ensures var r := DoRollback(e.spec, e.gen, s, h, e.ans);
            WrittenInv(f, r.memory, r.history) && WrittenInv(f, r.stored, r.history)
  {
    hide ApplyRun, ValidDigest, InPlace, LatestOf, WithTag, ReleaseData, WithDigest;
    DoRollbackGrows(e.spec, e.gen, s, h, e.ans);
    InPlaceLater(f, s, h, DoRollback(e.spec, e.gen, s, h, e.ans).history);
    var previous := LatestOf(e.spec.pattern, [s.previousTag]);
    if s.previousTag != "" && previous.Some? && e.ans.release(s.previousTag).Some?
       && (e.spec.resolveDigest ==> ValidDigest(s.previousDigest)) {
      OnlyMatch(e.spec, s.previousTag);
      var data := WithDigest(e.spec, ReleaseData(e.spec, previous.value, e.ans.release(s.previousTag).value), s.previousDigest);
      assert data == DataOf(f, e.gen, s.previousTag, s.previousDigest);
      ApplyInPlace(f, e, h, s.previousTag, s.previousDigest, e.ans.rollbackScript);
    }
  }

  lemma OnlyMatch(spec: Spec, tag: Tag)
    requires ValidSpec(spec)
    ensures var m := LatestOf(spec.pattern, [tag]);
            m.Some? ==> spec.pattern.find(tag).Some? && m.value == Match(tag, Captures(spec.pattern.names, spec.pattern.find(tag).value))
  {
    var m := LatestOf(spec.pattern, [tag]);
    if m.Some? {
      LatestIsAMatch(spec.pattern, [tag]);
      MatchesExactly(spec.pattern, [tag], m.value);
    }
  }

  lemma ApplyInPlace(f: Fixed, e: Event, h: History, tag: Tag, d: Digest, script: seq<Attempt>)
    requires Consistent(f, e) && |script| == ATTEMPTS && Writable(f, e.gen, tag, d)
    ensures var data := DataOf(f, e.gen, tag, d);
            var (h', r) := ApplyRun(h, e.spec.path, e.spec.edit(data), script, 0);
            r.Applied? ==> InPlace(f, e.gen, tag, Get(data, "image_digest"), h', r.index)
  {
    hide ApplyRun, DataOf, SettledAt, ValidDigest, Idempotent;
    WithDigestIsDigest(f, e.gen, tag, d);
    AppliedSettles(h, e.spec.path, e.spec.edit(DataOf(f, e.gen, tag, d)), script);
  }

  lemma HealthInPlace(f: Fixed, e: Event, s: Status, since: int, h: History)
    requires Consistent(f, e) && ValidAnswers(e.ans) && WrittenInv(f, s, h)
    ensures var c := CheckHealth(e.spec, e.gen, s, since, h, e.ans);
            WrittenInv(f, c.memory, c.history) && WrittenInv(f, c.stored, c.history)
  {
    hide DoRollback, InPlace, Consistent;
    RollbackInPlace(f, e, s, h);
  }

  lemma CheckInPlace(f: Fixed, e: Event, s: Status, h: History)
    requires Consistent(f, e) && ValidAnswers(e.ans) && WrittenInv(f, s, h)
    ensures var c := Check(e.spec, e.gen, s, h, e.ans);
            WrittenInv(f, c.memory, c.history) && WrittenInv(f, c.stored, c.history)
  {
    hide CheckHealth, Observes, InPlace, Consistent;
    var s' := s.(watchingSince := Some(Stamp(e.ans.check)));
    HealthInPlace(f, e, s', Stamp(e.ans.check), h);
    if s.watchingSince.Some? { HealthInPlace(f, e, s, s.watchingSince.value, h); }
  }

  lemma WriteInPlace(f: Fixed, e: Event, s: Status, tag: Tag, d: Digest, h: History)
    requires Consistent(f, e) && ValidAnswers(e.ans) && WrittenInv(f, s, h) && Writable(f, e.gen, tag, d)
    ensures var p := WriteRelease(e.spec, e.gen, s, tag, DataOf(f, e.gen, tag, d), h, e.ans);
            WrittenInv(f, p.stored, p.history)
  {
    hide ApplyRun, InPlace, IdempotentEdits, DataOf;
    var h1 := h + e.ans.outside;
    InPlaceLater(f, s, h, h1);
    var edit := e.spec.edit(DataOf(f, e.gen, tag, d));
    ApplyGrows(h1, e.spec.path, edit, e.ans.script);
    InPlaceLater(f, s, h1, ApplyRun(h1, e.spec.path, edit, e.ans.script, 0).0);
    ApplyInPlace(f, e, h1, tag, d, e.ans.script);
  }

  /** Without the head, the shortcut is never taken. */
  function Headless(ans: Answers): Answers {
    ans.(headRead := false)
  }

  /** The release the forward path goes on to write, and its digest, when it gets that far. */
  function Chosen(spec: Spec, s: Status, ans: Answers): Option<(Tag, Digest)>
    requires forall t :: spec.pattern.find(t).Some? ==> |spec.pattern.find(t).value| == |spec.pattern.names|
  {
    if !spec.writeBackValid || !ans.ownershipOk || ans.tags.None? then None
    else
      match LatestOf(spec.pattern, Unskipped(ans.tags.value, s.skipped))
      case None => None
      case Some(latest) =>
        var d := if spec.resolveDigest && ans.digest(latest.tag).Some? then ans.digest(latest.tag).value else "";
        if ans.release(latest.tag).None? || (spec.resolveDigest && ans.digest(latest.tag).None?) then None
        else if spec.resolveDigest && latest.tag == s.lastTag && ValidDigest(s.lastDigest) && s.lastDigest != d then None
        else if !ans.credentials then None
        else Some((latest.tag, d))
  }

  /** The forward path stops without touching anything, or writes the chosen release. */
  lemma ForwardWrites(f: Fixed, e: Event, s: Status, h: History)
    requires Consistent(f, e) && ValidAnswers(e.ans)
    ensures var p := Forward(e.spec, e.gen, s, h, e.ans);
            match Chosen(e.spec, s, e.ans)
            case None => p.stored == s && p.history == h && p.written == None
            case Some((tag, d)) =>
              && Writable(f, e.gen, tag, d)
              && p == WriteRelease(e.spec, e.gen, s, tag, DataOf(f, e.gen, tag, d), h, e.ans)
  {
    hide WriteRelease, LatestOf, Unskipped, ValidDigest, IdempotentEdits, ReleaseData, WithDigest;
    if e.ans.tags.Some? {
      var latest := LatestOf(e.spec.pattern, Unskipped(e.ans.tags.value, s.skipped));
      LatestMatches(e.spec, Unskipped(e.ans.tags.value, s.skipped));
      if latest.Some? { UnskippedExactly(e.ans.tags.value, s.skipped, latest.value.tag); }
    }
  }

  /** Whether the head is read plays no part in how far the forward path gets. */
  lemma ForwardHeadless(spec: Spec, gen: int, s: Status, h: History, ans: Answers)
    requires ValidSpec(spec) && ValidAnswers(ans)
    ensures Chosen(spec, s, Headless(ans)) == Chosen(spec, s, ans)
    ensures Chosen(spec, s, ans) == None ==> Forward(spec, gen, s, h, Headless(ans)) == Forward(spec, gen, s, h, ans)
  {
    hide WriteRelease, LatestOf, Unskipped, ValidDigest, ReleaseData, WithDigest;
  }

  lemma LatestMatches(spec: Spec, tags: seq<Tag>)
    requires ValidSpec(spec)
    ensures var m := LatestOf(spec.pattern, tags);
            m.Some? ==> m.value.tag in tags && spec.pattern.find(m.value.tag).Some? && m.value.captures == Captures(spec.pattern.names, spec.pattern.find(m.value.tag).value)
  {
    var m := LatestOf(spec.pattern, tags);
    if m.Some? {
      LatestIsAMatch(spec.pattern, tags);
      MatchesExactly(spec.pattern, tags, m.value);
    }
  }

  lemma ForwardInPlace(f: Fixed, e: Event, s: Status, h: History)
    requires Consistent(f, e) && ValidAnswers(e.ans) && WrittenInv(f, s, h)
    ensures var p := Forward(e.spec, e.gen, s, h, e.ans); WrittenInv(f, p.stored, p.history)
  {
    hide Forward, WriteRelease, WrittenInv, DataOf, Chosen;
    ForwardWrites(f, e, s, h);
    match Chosen(e.spec, s, e.ans) {
      case None =>
      case Some((tag, d)) => WriteInPlace(f, e, s, tag, d, h);
    }
  }

  lemma PassInPlace(f: Fixed, w: World, e: Event)
    requires Admissible(w, e) && Consistent(f, e) && WrittenInv(f, w.stored, w.history)
    ensures WrittenInv(f, After(w, e).stored, After(w, e).history)
  {
    hide Check, Forward, WrittenInv, Consistent;
    CheckInPlace(f, e, w.stored, w.history);
    var entry := ForwardEntry(e.spec, e.gen, w.stored, w.history, e.ans);
    if entry.Some? {
      ForwardInPlace(f, e, entry.value.0, entry.value.1);
    }
  }

  /**
   In every reachable state, the manifest at the last written commit is a fixpoint of the edit for
   the recorded tag and digest under the specification of the observed generation.
   */
  lemma {:induction false} RunKeepsInPlace(f: Fixed, ws: seq<World>, es: seq<Event>, n: nat)
    requires IsRun(ws, es) && AllConsistent(f, es) && ws[0].stored == EMPTY && n <= |es|
    ensures WrittenInv(f, ws[n].stored, ws[n].history)
  {
    hide After, InPlace, Consistent;
    if n > 0 {
      RunKeepsInPlace(f, ws, es, n - 1);
      PassInPlace(f, ws[n - 1], es[n - 1]);
    }
  }

  // ----- the shortcut -----

  /** During the first attempt nobody pushes and nothing fails. */
  predicate Quiet(script: seq<Attempt>) {
    script != [] && script[0] == Attempt([], [], NoFault)
  }

  lemma ShortcutWrite(f: Fixed, e: Event, s: Status, tag: Tag, d: Digest, h: History)
    requires Consistent(f, e) && ValidAnswers(e.ans) && WrittenInv(f, s, h) && Quiet(e.ans.script)
    requires ValidSpec(f.spec(e.gen)) && f.spec(e.gen).pattern.find(tag).Some?
    ensures var data := DataOf(f, e.gen, tag, d);
            WriteRelease(e.spec, e.gen, s, tag, data, h, e.ans) == WriteRelease(e.spec, e.gen, s, tag, data, h, Headless(e.ans))
  {
    hide ApplyRun, DataOf, IdempotentEdits, SettledAt;
    var data := DataOf(f, e.gen, tag, d);
    var h1 := h + e.ans.outside;
    if MayShortcut(e.spec, e.gen, s, tag, Get(data, "image_digest")) && h1 != [] && WriteBackCurrent(tag, s, OnBranch(Tip(h1))) {
      InPlaceLater(f, s, h, h1);
      SameData(f, e, s, tag, d);
      SettledApply(h1, e.spec.path, e.spec.edit(data), e.ans.script);
    }
  }

  /** Behind the guard, the recorded digest identifies the data. */
  lemma SameData(f: Fixed, e: Event, s: Status, tag: Tag, d: Digest)
    requires Consistent(f, e) && e.spec.pattern.find(tag).Some?
    requires MayShortcut(e.spec, e.gen, s, tag, Get(DataOf(f, e.gen, tag, d), "image_digest"))
    requires s.lastDigest == Get(DataOf(f, e.gen, tag, s.lastDigest), "image_digest")
    ensures DataOf(f, e.gen, tag, d) == DataOf(f, e.gen, tag, s.lastDigest)
    ensures s.lastDigest == Get(DataOf(f, e.gen, tag, d), "image_digest")
  {
    hide IdempotentEdits;
  }

  /**
   The shortcut refines the full write: in every reachable state, a pass that may skip the clone
   ends exactly like the pass that clones, edits and compares, in its status, its branch and its
   outcome, as long as nobody pushes in between.
   */
  lemma ShortcutRefines(f: Fixed, ws: seq<World>, es: seq<Event>, n: nat)
    requires IsRun(ws, es) && AllConsistent(f, es) && ws[0].stored == EMPTY && n < |es| && Quiet(es[n].ans.script)
    ensures PassAt(ws[n], es[n]) == PassAt(ws[n], es[n].(ans := Headless(es[n].ans)))
  {
    hide Check, Forward, WriteRelease, WrittenInv, DataOf, IdempotentEdits, InPlace, Chosen;
    var w, e := ws[n], es[n];
    RunKeepsInPlace(f, ws, es, n);
    CheckInPlace(f, e, w.stored, w.history);
    HeadlessCheck(e.spec, e.gen, w.stored, w.history, e.ans);
    var entry := ForwardEntry(e.spec, e.gen, w.stored, w.history, e.ans);
    if entry.Some? {
      var s, h := entry.value.0, entry.value.1;
      ForwardWrites(f, e, s, h);
      ForwardWrites(f, e.(ans := Headless(e.ans)), s, h);
      ForwardHeadless(e.spec, e.gen, s, h, e.ans);
      match Chosen(e.spec, s, e.ans) {
        case None =>
        case Some((tag, d)) => ShortcutWrite(f, e, s, tag, d, h);
      }
    }
  }

  lemma HeadlessCheck(spec: Spec, gen: int, s: Status, h: History, ans: Answers)
    requires ValidSpec(spec) && ValidAnswers(ans)
    ensures Check(spec, gen, s, h, Headless(ans)) == Check(spec, gen, s, h, ans)
    ensures ForwardEntry(spec, gen, s, h, Headless(ans)) == ForwardEntry(spec, gen, s, h, ans)
  {
    hide ApplyRun, LatestOf, ValidDigest, Observes, WithTag;
  }
}
