/**
 What every run keeps about the health watch, as long as rollback stays enabled: a pass that closes
 a watch falls through into the forward path of the same pass, so none of it is visible in one branch.
 */
module WatchInvariant {
  import opened Basics
  import opened Matcher
  import opened GitBranch
  import opened Rollout
  import opened Runs

  /** A watch is open in all four of its fields or in none but the observation time. */
  predicate Paired(s: Status) {
    && (s.watchingTag == "" <==> s.watchingCommit == NoRevision)
    && (s.watchingTag == "" <==> s.watchingArmedAt == None)
    && (s.watchingTag == "" ==> s.watchingSince == None)
  }

  predicate WatchOk(s: Status, clock: int) {
    && Paired(s)
    && Distinct(s.skipped)
    && (s.watchingTag != "" ==>
          && s.watchingTag == s.lastTag
          && s.watchingTag != s.previousTag
          && s.watchingTag !in s.skipped
          && s.watchingCommit == s.lastWriteCommit && s.watchingCommit.OnBranch?
          && s.watchingArmedAt.value <= clock && s.watchingArmedAt.value % SECOND == 0
          && (s.watchingSince.Some? ==> s.watchingArmedAt.value <= s.watchingSince.value <= clock))
  }

  predicate Watching(s: Status) {
    s.watchingTag != ""
  }

  /** The tag a failure would leave, or has left, in place. */
  function Base(s: Status): Tag {
    if Watching(s) then s.previousTag else s.lastTag
  }

  ghost predicate WatchInv(w: World) {
    && WatchOk(w.stored, w.clock)
    && (w.stored.watchingTag != "" ==> w.stored.watchingCommit.index < |w.history|)
  }

  /** Rollback is on and has an Application to observe. */
  predicate Guarded(spec: Spec) {
    spec.rollback && spec.hasApp
  }

  ghost predicate AllGuarded(es: seq<Event>) {
    forall i :: 0 <= i < |es| ==> Guarded(es[i].spec)
  }

  // ----- what a check does to the watch -----

  lemma WithTagDistinct(skipped: seq<Tag>, t: Tag)
    requires Distinct(skipped)
    ensures Distinct(WithTag(skipped, t)) && t in WithTag(skipped, t)
    ensures forall x :: x in WithTag(skipped, t) <==> x in skipped || x == t
  {
  }

  /** A failure verdict closes the watch and adds exactly the watched tag to the skipped ones. */
  ghost predicate Failure(s: Status, m: Status) {
    && m == Cleared(m)
    && m.skipped == WithTag(s.skipped, s.watchingTag)
    && m.previousTag == s.previousTag && m.previousDigest == s.previousDigest
    && m.lastTag == (if s.previousTag == "" || s.previousTag == s.watchingTag then s.lastTag else s.previousTag)
  }

  lemma DoRollbackFails(spec: Spec, gen: int, s: Status, h: History, ans: Answers)
    requires ValidSpec(spec) && ValidAnswers(ans)
    ensures var r := DoRollback(spec, gen, s, h, ans);
            && (r.memory == s || Failure(s, r.memory))
            && (r.stored == s || r.stored == r.memory)
            && (!r.err ==> Failure(s, r.memory) && r.stored == r.memory)
  {
    hide ApplyRun, LatestOf, ValidDigest, WithTag;
  }

  /** The three ways a check leaves the stored status: as it was or observed, cleared, or failed. */
  ghost predicate CheckLeaves(s: Status, m: Status, check: int) {
    || m == s
    || (s.watchingSince.None? && m == s.(watchingSince := Some(Stamp(check))))
    || m == Cleared(s)
    || m == Cleared(s).(skipped := [])
    || Failure(s, m)
  }

  lemma HealthCheckLeaves(spec: Spec, gen: int, s: Status, since: int, h: History, ans: Answers)
    requires ValidSpec(spec) && ValidAnswers(ans)
    ensures var c := CheckHealth(spec, gen, s, since, h, ans);
            && (c.stored == s || c.stored == Cleared(s).(skipped := []) || Failure(s, c.stored))
            && (c.verdict == Wait ==> c.memory == s == c.stored)
            && (c.verdict == Closed ==> c.stored == c.memory && (c.stored == Cleared(s).(skipped := []) || Failure(s, c.stored)))
            && (c.stored != s && c.stored.skipped == [] ==> ans.app.Some? && ans.app.value.health == Healthy)
  {
    hide DoRollback;
    DoRollbackFails(spec, gen, s, h, ans);
    assert s.watchingTag in WithTag(s.skipped, s.watchingTag);
  }

  lemma CheckEffect(spec: Spec, gen: int, s: Status, h: History, ans: Answers)
    requires ValidSpec(spec) && ValidAnswers(ans)
    ensures var c := Check(spec, gen, s, h, ans);
            && CheckLeaves(s, c.stored, ans.check)
            && (c.verdict == Closed ==> c.stored == c.memory && c.stored == Cleared(c.stored))
            && (c.verdict == Wait ==> c.stored == c.memory && c.stored.(watchingSince := None) == s.(watchingSince := None))
  {
    hide CheckHealth, Observes, Failure;
    var s' := s.(watchingSince := Some(Stamp(ans.check)));
    HealthCheckLeaves(spec, gen, s', Stamp(ans.check), h, ans);
    FailureForgetsSince(s);
    if s.watchingSince.Some? { HealthCheckLeaves(spec, gen, s, s.watchingSince.value, h, ans); }
  }

  lemma FailureForgetsSince(s: Status)
    ensures forall t, m :: Failure(s.(watchingSince := t), m) ==> Failure(s, m)
    ensures forall m :: Failure(s, m) ==> m == Cleared(m)
  {
  }

  lemma LeavesOk(s: Status, m: Status, clock: int, check: int)
    requires WatchOk(s, clock) && clock <= check && CheckLeaves(s, m, check)
    requires s.watchingTag != ""
    ensures WatchOk(m, check)
  {
    WithTagDistinct(s.skipped, s.watchingTag);
    var k := s.watchingArmedAt.value / SECOND;
    assert Stamp(check) >= k * SECOND;
  }

  // ----- what the forward path does -----

  /** The forward path stores the status it started from, or the record of one write of an unskipped tag. */
  ghost predicate ForwardLeaves(spec: Spec, gen: int, s: Status, ans: Answers, p: Passed) {
    || p.stored == s
    || exists tag: Tag, digest: Digest, k: nat ::
         && p.stored == Written(spec, gen, s, tag, digest, k, ans.write)
         && k < |p.history| && tag !in s.skipped && tag != ""
         && p.written == if tag != s.lastTag then Some(tag) else None
  }

  lemma WriteEffect(spec: Spec, gen: int, s: Status, tag: Tag, data: map<string, string>, h: History, ans: Answers)
    requires ValidAnswers(ans) && tag !in s.skipped && tag != ""
    ensures var p := WriteRelease(spec, gen, s, tag, data, h, ans);
            && ForwardLeaves(spec, gen, s, ans, p) && h <= p.history
            && (p.written.Some? ==> p.written.value == tag && tag != s.lastTag)
  {
    hide ApplyRun, Written;
    ApplyGrows(h + ans.outside, spec.path, spec.edit(data), ans.script);
    assert h <= h + ans.outside;
  }

  lemma LatestIsUnskipped(spec: Spec, tags: seq<Tag>, skipped: seq<Tag>)
    requires ValidSpec(spec)
    ensures var latest := LatestOf(spec.pattern, Unskipped(tags, skipped));
            latest.Some? ==> latest.value.tag in tags && latest.value.tag !in skipped
  {
    var latest := LatestOf(spec.pattern, Unskipped(tags, skipped));
    if latest.Some? {
      LatestIsAMatch(spec.pattern, Unskipped(tags, skipped));
      MatchesExactly(spec.pattern, Unskipped(tags, skipped), latest.value);
      UnskippedExactly(tags, skipped, latest.value.tag);
    }
  }

  lemma ForwardEffect(spec: Spec, gen: int, s: Status, h: History, ans: Answers)
    requires ValidSpec(spec) && ValidAnswers(ans)
    ensures var p := Forward(spec, gen, s, h, ans);
            && ForwardLeaves(spec, gen, s, ans, p) && h <= p.history
            && (p.written.Some? ==> p.written.value !in s.skipped && p.written.value != s.lastTag)
  {
    hide WriteRelease, LatestOf, Unskipped, ValidDigest, ForwardLeaves, WithDigest, ReleaseData;
    StaysLeaves(spec, gen, s, ans);
    if ans.tags.Some? {
      LatestIsUnskipped(spec, ans.tags.value, s.skipped);
      var latest := LatestOf(spec.pattern, Unskipped(ans.tags.value, s.skipped));
      if latest.Some? {
        forall data { WriteEffect(spec, gen, s, latest.value.tag, data, h, ans); }
      }
    }
  }

  lemma StaysLeaves(spec: Spec, gen: int, s: Status, ans: Answers)
    ensures forall p: Passed :: p.stored == s ==> ForwardLeaves(spec, gen, s, ans, p)
  {
  }

  /** A write with no watch open leaves a well-formed status, with a watch exactly on a new tag. */
  lemma WrittenOk(spec: Spec, gen: int, s: Status, tag: Tag, digest: Digest, k: nat, now: int)
    requires s == Cleared(s) && Distinct(s.skipped) && Guarded(spec) && tag !in s.skipped && tag != ""
    ensures var s' := Written(spec, gen, s, tag, digest, k, now);
            && WatchOk(s', now)
            && (s'.watchingTag != "" <==> tag != s.lastTag)
            && (s'.watchingTag != "" ==> s'.watchingCommit == OnBranch(k))
  {
  }

  // ----- one pass, and every run -----

  /** No forward write starts while a watch is open: the path is entered with all four fields clear. */
  lemma ForwardOnlyUnwatched(w: World, e: Event)
    requires Admissible(w, e) && Guarded(e.spec) && WatchInv(w)
    ensures var entry := ForwardEntry(e.spec, e.gen, w.stored, w.history, e.ans);
            entry.Some? ==>
              var m := entry.value.0;
              m == Cleared(m) && WatchOk(m, e.ans.check) && w.history <= entry.value.1
  {
    hide Check, CheckLeaves;
    CheckEffect(e.spec, e.gen, w.stored, w.history, e.ans);
    CheckGrows(e.spec, e.gen, w.stored, w.history, e.ans);
    if w.stored.watchingTag != "" {
      LeavesOk(w.stored, Check(e.spec, e.gen, w.stored, w.history, e.ans).stored, w.clock, e.ans.check);
    }
  }

  lemma WaitingKeeps(w: World, e: Event)
    requires Admissible(w, e) && Guarded(e.spec) && WatchInv(w) && w.stored.watchingTag != ""
    ensures var c := Check(e.spec, e.gen, w.stored, w.history, e.ans);
            WatchInv(World(c.stored, c.history, e.ans.write))
  {
    hide Check;
    CheckEffect(e.spec, e.gen, w.stored, w.history, e.ans);
    CheckGrows(e.spec, e.gen, w.stored, w.history, e.ans);
    LeavesOk(w.stored, Check(e.spec, e.gen, w.stored, w.history, e.ans).stored, w.clock, e.ans.check);
  }

  lemma ForwardKeeps(spec: Spec, gen: int, s: Status, h: History, ans: Answers)
    requires ValidSpec(spec) && ValidAnswers(ans) && Guarded(spec)
    requires s == Cleared(s) && Distinct(s.skipped)
    ensures var p := Forward(spec, gen, s, h, ans); WatchInv(World(p.stored, p.history, ans.write))
  {
    hide Forward, Written, WatchOk;
    ForwardEffect(spec, gen, s, h, ans);
    var p := Forward(spec, gen, s, h, ans);
    UnwatchedOk(s, ans.write);
    if p.stored != s {
      var tag: Tag, digest: Digest, k: nat :| p.stored == Written(spec, gen, s, tag, digest, k, ans.write)
                            && k < |p.history| && tag !in s.skipped && tag != "";
      WrittenOk(spec, gen, s, tag, digest, k, ans.write);
    }
  }

  lemma UnwatchedOk(s: Status, clock: int)
    requires s == Cleared(s) && Distinct(s.skipped)
    ensures WatchOk(s, clock) && s.watchingTag == ""
  {
  }

  lemma PassKeeps(w: World, e: Event)
    requires Admissible(w, e) && Guarded(e.spec) && WatchInv(w)
    ensures WatchInv(After(w, e))
  {
    hide Check, Forward, WatchOk;
    OkLater(w.stored, w.clock, e.ans.write);
    ForwardOnlyUnwatched(w, e);
    var entry := ForwardEntry(e.spec, e.gen, w.stored, w.history, e.ans);
    if entry.Some? {
      OkIsDistinct(entry.value.0, e.ans.check);
      ForwardKeeps(e.spec, e.gen, entry.value.0, entry.value.1, e.ans);
    } else if w.stored.watchingTag != "" {
      WaitingKeeps(w, e);
    }
  }

  lemma OkLater(s: Status, clock: int, later: int)
    requires WatchOk(s, clock) && clock <= later
    ensures WatchOk(s, later)
  {
  }

  lemma OkIsDistinct(s: Status, clock: int)
    requires WatchOk(s, clock)
    ensures Distinct(s.skipped)
  {
  }

  /** The watch invariant over every run from the empty status. */
  lemma {:induction false} RunKeepsWatch(ws: seq<World>, es: seq<Event>)
    requires IsRun(ws, es) && AllGuarded(es) && ws[0].stored == EMPTY
    ensures forall i :: 0 <= i <= |es| ==> WatchInv(ws[i])
  {
    hide After, WatchInv, WatchOk;
    EmptyOk(ws[0]);
    for n := 0 to |es|
      invariant forall i :: 0 <= i <= n ==> WatchInv(ws[i])
    {
      PassKeeps(ws[n], es[n]);
    }
  }

  lemma EmptyOk(w: World)
    requires w.stored == EMPTY
    ensures WatchInv(w)
  {
  }

  // ----- why the premises are there -----

  /** Arming a watch pairs the fields exactly when the tag is not the empty string. */
  lemma ArmedIffNamed(spec: Spec, gen: int, s: Status, tag: Tag, digest: Digest, k: nat, now: int)
    requires Guarded(spec) && s == Cleared(s) && tag != s.lastTag
    ensures Paired(Written(spec, gen, s, tag, digest, k, now)) <==> tag != ""
  {
  }

  /** A release written while rollback is disabled leaves an open watch behind, on the tag before it. */
  lemma WatchSurvivesDisabling(spec: Spec, gen: int, s: Status, clock: int, tag: Tag, digest: Digest, k: nat, now: int)
    requires WatchOk(s, clock) && s.watchingTag != "" && tag != s.lastTag
    ensures var s' := Written(spec, gen, s, tag, digest, k, now);
            s'.watchingTag == s'.lastTag <==> Guarded(spec)
  {
  }

  // ----- failed tags -----

  /** Every failure verdict grows the skipped tags by the watched one, without duplicates. */
  lemma FailureGrows(s: Status, m: Status, clock: int)
    requires WatchOk(s, clock) && s.watchingTag != "" && Failure(s, m)
    ensures m.skipped == s.skipped + [s.watchingTag] && Distinct(m.skipped)
  {
  }

  predicate SeesHealthy(ans: Answers) {
    ans.app.Some? && ans.app.value.health == Healthy
  }

  lemma CheckKeepsSkipped(spec: Spec, gen: int, s: Status, h: History, ans: Answers, t: Tag)
    requires ValidSpec(spec) && ValidAnswers(ans) && !SeesHealthy(ans) && t in s.skipped
    ensures t in Check(spec, gen, s, h, ans).stored.skipped
  {
    hide CheckHealth, Observes;
    var s' := s.(watchingSince := Some(Stamp(ans.check)));
    HealthKeepsSkipped(spec, gen, s', Stamp(ans.check), h, ans, t);
    if s.watchingSince.Some? { HealthKeepsSkipped(spec, gen, s, s.watchingSince.value, h, ans, t); }
  }

  lemma HealthKeepsSkipped(spec: Spec, gen: int, s: Status, since: int, h: History, ans: Answers, t: Tag)
    requires ValidSpec(spec) && ValidAnswers(ans) && !SeesHealthy(ans) && t in s.skipped
    ensures t in CheckHealth(spec, gen, s, since, h, ans).stored.skipped
  {
    hide DoRollback;
    DoRollbackFails(spec, gen, s, h, ans);
  }

  lemma PassKeepsSkipped(w: World, e: Event, t: Tag)
    requires Admissible(w, e) && t in w.stored.skipped && !SeesHealthy(e.ans)
    ensures t in After(w, e).stored.skipped && PassAt(w, e).written != Some(t)
  {
    hide Check, Forward;
    CheckKeepsSkipped(e.spec, e.gen, w.stored, w.history, e.ans, t);
    CheckEffect(e.spec, e.gen, w.stored, w.history, e.ans);
    var entry := ForwardEntry(e.spec, e.gen, w.stored, w.history, e.ans);
    if entry.Some? {
      ForwardEffect(e.spec, e.gen, entry.value.0, entry.value.1, e.ans);
    }
  }

  /** A failed tag is not written forward again, on any pass, before some pass sees a Healthy release. */
  lemma {:induction false} FailedStaysOut(ws: seq<World>, es: seq<Event>, t: Tag)
    requires IsRun(ws, es) && t in ws[0].stored.skipped
    requires forall i :: 0 <= i < |es| ==> !SeesHealthy(es[i].ans)
    ensures forall i :: 0 <= i < |es| ==> PassAt(ws[i], es[i]).written != Some(t)
    ensures t in ws[|es|].stored.skipped
  {
    hide PassAt, After, SeesHealthy;
    for n := 0 to |es|
      invariant t in ws[n].stored.skipped
      invariant forall i :: 0 <= i < n ==> PassAt(ws[i], es[i]).written != Some(t)
    {
      PassKeepsSkipped(ws[n], es[n], t);
    }
  }

  /** A pass that only waits to be observed counts as no progress; one that waits for health does. */
  lemma WaitingProgress(w: World, e: Event)
    requires Admissible(w, e) && Guarded(e.spec) && !(e.spec.resolveDigest && !e.spec.sourceIsGit)
    requires w.stored.watchingTag != ""
    requires Check(e.spec, e.gen, w.stored, w.history, e.ans).verdict == Wait
    ensures PassAt(w, e).succeeded <==> After(w, e).stored.watchingSince.Some?
    ensures PassAt(w, e).written.None?
  {
    hide Check;
    CheckEffect(e.spec, e.gen, w.stored, w.history, e.ans);
  }

  // ----- what rollbacks record -----

  /**
   A rollback that is reported as failed has been persisted all the same exactly when its own
   status update was refused after it changed the object, and the update that reports the failure
   was accepted.
   */
  lemma FailedYetPersisted(spec: Spec, gen: int, s: Status, h: History, ans: Answers)
    requires ValidSpec(spec) && ValidAnswers(ans)
    ensures var r := RollbackWithStatus(spec, gen, s, h, ans);
            (r.err && r.stored == r.memory && r.memory != s)
            <==> !ans.verdictSaved && ans.retrySaved && DoRollback(spec, gen, s, h, ans).memory != s
  {
    hide ApplyRun, LatestOf, ValidDigest, WithTag;
  }

  /** The pass got to its check, and that left the watch closed, in the store, without a failure: healthy or abandoned. */
  ghost predicate EndsWell(w: World, e: Event)
    requires Admissible(w, e)
  {
    var stored := Check(e.spec, e.gen, w.stored, w.history, e.ans).stored;
    && !(e.spec.resolveDigest && !e.spec.sourceIsGit)
    && Watching(w.stored) && !Watching(stored) && w.stored.watchingTag !in stored.skipped
  }

  ghost predicate NoneEndedWell(ws: seq<World>, es: seq<Event>, n: nat)
    requires IsRun(ws, es) && n <= |es|
  {
    forall i :: 0 <= i < n ==> !EndsWell(ws[i], es[i])
  }

  /** The release to fall back to is a skipped one exactly when none ended well so far. */
  ghost predicate Blamed(s: Status, none: bool) {
    && (Base(s) == "" ==> none)
    && (Base(s) != "" ==> (Base(s) in s.skipped <==> none))
  }

  lemma LeavesBlamed(s: Status, m: Status, clock: int, check: int, none: bool)
    requires WatchOk(s, clock) && Watching(s) && CheckLeaves(s, m, check) && Blamed(s, none)
    ensures Blamed(m, none && !(!Watching(m) && s.watchingTag !in m.skipped))
  {
    WithTagDistinct(s.skipped, s.watchingTag);
  }

  lemma ForwardBlamed(spec: Spec, gen: int, s: Status, h: History, ans: Answers, none: bool)
    requires ValidSpec(spec) && ValidAnswers(ans) && Guarded(spec) && !Watching(s) && Blamed(s, none)
    ensures Blamed(Forward(spec, gen, s, h, ans).stored, none)
  {
    hide Forward;
    ForwardEffect(spec, gen, s, h, ans);
  }

  lemma PassBlamed(w: World, e: Event, none: bool)
    requires Admissible(w, e) && Guarded(e.spec) && WatchInv(w) && Blamed(w.stored, none)
    ensures Blamed(After(w, e).stored, none && !EndsWell(w, e))
  {
    hide Check, Forward, Blamed, WatchOk, CheckLeaves;
    CheckEffect(e.spec, e.gen, w.stored, w.history, e.ans);
    var c := Check(e.spec, e.gen, w.stored, w.history, e.ans);
    if Watching(w.stored) { LeavesBlamed(w.stored, c.stored, w.clock, e.ans.check, none); }
    var entry := ForwardEntry(e.spec, e.gen, w.stored, w.history, e.ans);
    if entry.Some? {
      ForwardOnlyUnwatched(w, e);
      ForwardBlamed(e.spec, e.gen, entry.value.0, entry.value.1, e.ans, none && !EndsWell(w, e));
    }
  }

  lemma {:induction false} RunBlamed(ws: seq<World>, es: seq<Event>, n: nat)
    requires IsRun(ws, es) && AllGuarded(es) && ws[0].stored == EMPTY && n <= |es|
    ensures Blamed(ws[n].stored, NoneEndedWell(ws, es, n))
  {
    hide After, Blamed, EndsWell, WatchInv;
    if n == 0 {
      EmptyBlamed();
    } else {
      RunBlamed(ws, es, n - 1);
      RunKeepsWatch(ws, es);
      var last := n - 1;
      PassBlamed(ws[last], es[last], NoneEndedWell(ws, es, last));
      assert NoneEndedWell(ws, es, n) <==> NoneEndedWell(ws, es, last) && !EndsWell(ws[last], es[last]);
      assert ws[last + 1] == After(ws[last], es[last]);
    }
  }

  lemma EmptyBlamed()
    ensures Blamed(EMPTY, true)
  {
  }

  /**
   Unlike a forward write, a rollback can record a skipped tag. Over every guarded run it does so
   exactly when no watch has ended well so far: when the first release of all failed, its tag was
   skipped but stayed recorded, and every later failure returned to it.
   */
  lemma RollbackRestoresSkipped(ws: seq<World>, es: seq<Event>, n: nat, gen: int, digest: Digest, k: nat)
    requires IsRun(ws, es) && AllGuarded(es) && ws[0].stored == EMPTY && n <= |es|
    requires Watching(ws[n].stored) && ws[n].stored.previousTag != ""
    ensures var restored := RolledBack(ws[n].stored, gen, digest, k);
            restored.lastTag in restored.skipped <==> NoneEndedWell(ws, es, n)
  {
    hide NoneEndedWell;
    RunBlamed(ws, es, n);
    RunKeepsWatch(ws, es);
    WithTagDistinct(ws[n].stored.skipped, ws[n].stored.watchingTag);
  }
}
