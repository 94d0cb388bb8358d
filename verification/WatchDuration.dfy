/** How long a watch can stay open when passes keep coming and ArgoCD and git answer. */
module WatchDuration {
  import opened Basics
  import opened Matcher
  import opened GitBranch
  import opened Rollout
  import opened Runs
  import opened WatchInvariant

  ghost function CheckAt(w: World, e: Event): Checked
    requires Admissible(w, e)
  {
    Check(e.spec, e.gen, w.stored, w.history, e.ans)
  }

  /** ArgoCD answers, the status updates of the check are accepted, and a rollback would go through. */
  ghost predicate Served(w: World, e: Event)
    requires Admissible(w, e)
  {
    && e.ans.revision.Some? && e.ans.app.Some? && e.ans.observedSaved && e.ans.verdictSaved
    && !DoRollback(e.spec, e.gen, w.stored, w.history, e.ans).err
  }

  ghost predicate Watched(ws: seq<World>, es: seq<Event>, spec: Spec) {
    && IsRun(ws, es) && Guarded(spec) && !(spec.resolveDigest && !spec.sourceIsGit)
    && forall i :: 0 <= i < |es| ==> es[i].spec == spec && Served(ws[i], es[i])
  }

  /** A watch opened at time clock, not observed yet. */
  ghost predicate JustArmed(w: World) {
    && w.stored.watchingTag != "" && w.stored.watchingSince == None
    && w.stored.watchingArmedAt.Some? && w.stored.watchingArmedAt.value <= w.clock
  }

  /** Checks come at least every d, starting from the arming. */
  predicate Prompt(es: seq<Event>, armed: int, d: int) {
    forall i :: 0 <= i < |es| ==> es[i].ans.check <= d + CheckBefore(es, armed, i)
  }

  /** The check before pass i, or the start. */
  function CheckBefore(es: seq<Event>, armed: int, i: nat): int
    requires i <= |es|
  {
    if i == 0 then armed else es[i - 1].ans.check
  }

  lemma RollbackIgnoresSince(spec: Spec, gen: int, s: Status, h: History, ans: Answers, since: Option<int>)
    requires ValidSpec(spec) && ValidAnswers(ans)
    ensures DoRollback(spec, gen, s.(watchingSince := since), h, ans).err == DoRollback(spec, gen, s, h, ans).err
  {
    hide ApplyRun, LatestOf, ValidDigest, WithTag;
  }

  /** A served check waits only inside the deadline of the phase it is in, and never aborts. */
  lemma ServedCheck(w: World, e: Event)
    requires Admissible(w, e) && Served(w, e) && w.stored.watchingArmedAt.Some?
    ensures var c := CheckAt(w, e);
            var timeout := RollbackTimeout(e.spec);
            && c.verdict != Abort
            && (c.verdict == Wait ==>
                  && c.stored == c.memory && c.stored.(watchingSince := None) == w.stored.(watchingSince := None)
                  && (w.stored.watchingSince.Some? ==> c.stored.watchingSince == w.stored.watchingSince)
                  && match c.stored.watchingSince
                     case None => e.ans.check < w.stored.watchingArmedAt.value + timeout
                     case Some(since) => e.ans.health < since + timeout && (w.stored.watchingSince.Some? || since <= e.ans.check))
  {
    hide DoRollback, Observes;
    RollbackIgnoresSince(e.spec, e.gen, w.stored, w.history, e.ans, Some(Stamp(e.ans.check)));
  }

  lemma WaitingPass(w: World, e: Event)
    requires Admissible(w, e) && Guarded(e.spec) && !(e.spec.resolveDigest && !e.spec.sourceIsGit)
    requires w.stored.watchingTag != "" && CheckAt(w, e).verdict == Wait
    ensures After(w, e) == World(CheckAt(w, e).stored, CheckAt(w, e).history, e.ans.write)
  {
    hide Check;
  }

  /** Where an open watch stands after its passes so far. */
  ghost predicate OpenBy(w0: World, w: World, n: nat, check: int, d: int, timeout: int) {
    && w.stored.(watchingSince := None) == w0.stored
    && match w.stored.watchingSince
       case None => n > 0 ==> check < w0.clock + timeout
       case Some(since) => since < w0.clock + timeout + d && check < since + timeout
  }

  lemma OpenStep(w0: World, w: World, e: Event, n: nat, before: int, d: int)
    requires JustArmed(w0) && Admissible(w, e) && Served(w, e) && Guarded(e.spec) && !(e.spec.resolveDigest && !e.spec.sourceIsGit)
    requires OpenBy(w0, w, n, before, d, RollbackTimeout(e.spec)) && (n == 0 ==> before == w0.clock)
    requires e.ans.check <= d + before && CheckAt(w, e).verdict == Wait
    ensures OpenBy(w0, After(w, e), n + 1, e.ans.check, d, RollbackTimeout(e.spec))
    ensures w.stored.watchingSince.Some? ==> After(w, e).stored.watchingSince == w.stored.watchingSince
  {
    hide Check, Served, DoRollback;
    ServedCheck(w, e);
    WaitingPass(w, e);
  }

  /**
   While every check waits, the watch is the one that was armed, its observation time is set at
   most once, and the last check came before the arming plus two timeouts and one gap.
   */
  lemma {:induction false} OpenBound(ws: seq<World>, es: seq<Event>, spec: Spec, d: int, n: nat)
    requires Watched(ws, es, spec) && JustArmed(ws[0]) && Prompt(es, ws[0].clock, d) && d >= 0 && n <= |es|
    requires forall i :: 0 <= i < n ==> CheckAt(ws[i], es[i]).verdict == Wait
    ensures OpenBy(ws[0], ws[n], n, CheckBefore(es, ws[0].clock, n), d, RollbackTimeout(spec))
    ensures n > 0 ==> es[n - 1].ans.check < ws[0].clock + 2 * RollbackTimeout(spec) + d
    ensures forall i :: 0 <= i <= n && ws[i].stored.watchingSince.Some? ==> ws[n].stored.watchingSince == ws[i].stored.watchingSince
  {
    hide CheckAt, After, Served;
    if n > 0 {
      OpenBound(ws, es, spec, d, n - 1);
      var last := n - 1;
      var before := CheckBefore(es, ws[0].clock, last);
      assert es[last].ans.check <= d + before;
      OpenStep(ws[0], ws[last], es[last], last, before, d);
    }
  }

  /**
   The duration bound: once the checks reach two timeouts and a gap past the arming, one of them
   has closed the watch, no later than two timeouts and two gaps past it.
   */
  lemma {:induction false} WatchCloses(ws: seq<World>, es: seq<Event>, spec: Spec, d: int) returns (j: nat)
    requires Watched(ws, es, spec) && JustArmed(ws[0]) && Prompt(es, ws[0].clock, d) && d >= 0
    requires es != [] && es[|es| - 1].ans.check >= ws[0].clock + 2 * RollbackTimeout(spec) + d
    ensures j < |es| && CheckAt(ws[j], es[j]).verdict == Closed
    ensures forall i :: 0 <= i < j ==> CheckAt(ws[i], es[i]).verdict == Wait
    ensures es[j].ans.check < ws[0].clock + 2 * RollbackTimeout(spec) + 2 * d
  {
    hide CheckAt, After;
    j := 0;
    while j < |es| && CheckAt(ws[j], es[j]).verdict == Wait
      invariant j <= |es|
      invariant forall i :: 0 <= i < j ==> CheckAt(ws[i], es[i]).verdict == Wait
    {
      j := j + 1;
    }
    OpenBound(ws, es, spec, d, j);
    assert j < |es|;
    OpenIsArmed(ws[0], ws[j], j, CheckBefore(es, ws[0].clock, j), d, RollbackTimeout(spec));
    ServedCheck(ws[j], es[j]);
  }

  lemma OpenIsArmed(w0: World, w: World, n: nat, check: int, d: int, timeout: int)
    requires JustArmed(w0) && OpenBy(w0, w, n, check, d, timeout)
    ensures w.stored.watchingArmedAt.Some?
  {
  }

  // ----- where watches come from, and why the reads must succeed -----

  lemma WriteArms(spec: Spec, gen: int, s: Status, tag: Tag, data: map<string, string>, h: History, ans: Answers)
    requires ValidAnswers(ans) && Guarded(spec) && tag != ""
    ensures var p := WriteRelease(spec, gen, s, tag, data, h, ans);
            p.succeeded && p.written.Some? ==> JustArmed(World(p.stored, p.history, ans.write)) && p.stored.watchingTag == tag
  {
    hide ApplyRun;
  }

  lemma ForwardArms(spec: Spec, gen: int, s: Status, h: History, ans: Answers)
    requires ValidSpec(spec) && ValidAnswers(ans) && Guarded(spec)
    ensures var p := Forward(spec, gen, s, h, ans);
            p.succeeded && p.written.Some? ==> JustArmed(World(p.stored, p.history, ans.write))
  {
    hide WriteRelease, LatestOf, Unskipped, ValidDigest, JustArmed, WithDigest, ReleaseData;
    if ans.tags.Some? {
      LatestIsUnskipped(spec, ans.tags.value, s.skipped);
      var latest := LatestOf(spec.pattern, Unskipped(ans.tags.value, s.skipped));
      if latest.Some? {
        forall data { WriteArms(spec, gen, s, latest.value.tag, data, h, ans); }
      }
    }
  }

  /** A pass that writes a new release and stores it leaves a watch just armed. */
  lemma PassArms(w: World, e: Event)
    requires Admissible(w, e) && Guarded(e.spec)
    requires PassAt(w, e).succeeded && PassAt(w, e).written.Some?
    ensures JustArmed(After(w, e))
  {
    hide Check, Forward, JustArmed;
    var entry := ForwardEntry(e.spec, e.gen, w.stored, w.history, e.ans);
    if entry.Some? {
      ForwardArms(e.spec, e.gen, entry.value.0, entry.value.1, e.ans);
    }
  }

  /**
   Past the deadline of its phase, a check leaves the watch in that phase, waiting, exactly when a
   read of that phase fails: the revision's while unobserved, and then either one.
   */
  lemma PastDeadlineWaits(w: World, e: Event)
    requires Admissible(w, e)
    ensures w.stored.watchingSince.None? && DeadlineExceeded(e.spec, w.stored, e.ans.check) ==>
              (CheckAt(w, e).verdict == Wait && CheckAt(w, e).stored.watchingSince.None? <==> e.ans.revision.None?)
    ensures w.stored.watchingSince.Some? && e.ans.health - w.stored.watchingSince.value >= RollbackTimeout(e.spec) ==>
              (CheckAt(w, e).verdict == Wait <==> e.ans.revision.None? || e.ans.app.None?)
  {
    hide Observes, DoRollback;
  }

  /** The deadlines are only consulted after a successful read: without one the watch stays open for ever. */
  lemma {:induction false} BlindWatchStaysOpen(ws: seq<World>, es: seq<Event>, n: nat)
    requires IsRun(ws, es) && n <= |es| && ws[0].stored.watchingTag != ""
    requires forall i :: 0 <= i < |es| ==> Guarded(es[i].spec) && !(es[i].spec.resolveDigest && !es[i].spec.sourceIsGit)
    requires forall i :: 0 <= i < |es| ==> es[i].ans.revision.None? || (ws[0].stored.watchingSince.Some? && es[i].ans.app.None?)
    ensures ws[n].stored == ws[0].stored
    ensures n < |es| ==> CheckAt(ws[n], es[n]).verdict == Wait
  {
    hide Observes, DoRollback, Forward;
    if n > 0 {
      BlindWatchStaysOpen(ws, es, n - 1);
      WaitingPass(ws[n - 1], es[n - 1]);
    }
  }
}
