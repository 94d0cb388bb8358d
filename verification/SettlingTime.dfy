/**
 How soon a calm run settles. Every watch closes in bounded time and only so many can be opened,
 so passes that keep coming lead to the settled state by a time known beforehand.
 */
module SettlingTime {
  import opened Basics
  import opened GitBranch
  import opened Matcher
  import opened Rollout
  import opened Runs
  import opened WatchInvariant
  import opened WatchDuration
  import opened Convergence

  // ----- calm passes are served and arm watches -----

  lemma CalmServed(c: Setting, w: World, e: Event, last: Option<Tag>)
    requires Calm(c, w, e) && Conv(c, w.stored, last) && Watching(w.stored)
    ensures Served(w, e) && Guarded(e.spec) && !(e.spec.resolveDigest && !e.spec.sourceIsGit)
  {
    hide DoRollback, Conv, Succeeds, Failure, TagOk;
    NeverMissing(c, w, e);
    GuardedSetting(c);
    RollbackOutcome(c, w, e, w.stored, last);
  }

  lemma WriteSucceeds(spec: Spec, gen: int, s: Status, tag: Tag, data: map<string, string>, h: History, ans: Answers)
    requires ValidAnswers(ans) && ans.finalSaved
    ensures WriteRelease(spec, gen, s, tag, data, h, ans).written.Some? ==> WriteRelease(spec, gen, s, tag, data, h, ans).succeeded
  {
    hide ApplyRun, Written;
  }

  lemma ForwardSucceeds(spec: Spec, gen: int, s: Status, h: History, ans: Answers)
    requires ValidSpec(spec) && ValidAnswers(ans) && ans.finalSaved
    ensures Forward(spec, gen, s, h, ans).written.Some? ==> Forward(spec, gen, s, h, ans).succeeded
  {
    hide WriteRelease, LatestOf, Unskipped, ValidDigest, ReleaseData, WithDigest;
    forall tag, data { WriteSucceeds(spec, gen, s, tag, data, h, ans); }
  }

  lemma CalmArms(c: Setting, w: World, e: Event)
    requires Calm(c, w, e) && PassAt(w, e).written.Some?
    ensures JustArmed(After(w, e))
  {
    hide Check, Forward, JustArmed, Succeeds, Truthful;
    NeverMissing(c, w, e);
    GuardedSetting(c);
    var entry := ForwardEntry(e.spec, e.gen, w.stored, w.history, e.ans);
    if entry.Some? { ForwardSucceeds(e.spec, e.gen, entry.value.0, entry.value.1, e.ans); }
    PassArms(w, e);
  }

  /** A waiting pass is one whose check waits. */
  lemma WaitsChecking(c: Setting, w: World, e: Event, last: Option<Tag>)
    requires Calm(c, w, e) && Conv(c, w.stored, last) && Waits(w, e)
    ensures Watching(w.stored) && CheckAt(w, e).verdict == Wait
  {
    hide Check, Forward, Conv, Decided, Succeeds, Truthful, Measure, Greatest, Convergence.Left, Forwarded;
    GuardedSetting(c);
    var last' := EntryConv(c, w, e, last);
    var entry := ForwardEntry(e.spec, e.gen, w.stored, w.history, e.ans);
    if entry.Some? {
      ForwardOutcome(c, w, e, last');
      ForwardedConv(c, entry.value.0, last', Forward(e.spec, e.gen, entry.value.0, entry.value.1, e.ans));
    }
  }

  // ----- the clock of a run -----

  /** The longest stretch from one forward write to the next, or to the end. */
  function Stretch(c: Setting, d: int): int {
    2 * RollbackTimeout(c.spec) + 3 * d
  }

  /**
   A run that is not settled yet has a watch open. It was armed in world w0, k passes ago, by the
   pass whose check came at time a.
   */
  ghost predicate OnTime(c: Setting, start: int, d: int, w0: World, k: nat, a: int, w: World, check: int, writes: nat) {
    && JustArmed(w0) && a <= w0.clock && writes >= 1
    && OpenBy(w0, w, k, if k == 0 then w0.clock else check, d, RollbackTimeout(c.spec))
    && (k == 0 ==> check == a && w == w0)
    && (k > 0 ==> w0.clock <= a + d)
    && a <= start + d + Times(writes - 1, Stretch(c, d))
  }

  /** The last check of an open watch came less than a stretch after the one that armed it, by a gap. */
  lemma OnTimeCheck(c: Setting, start: int, d: int, w0: World, k: nat, a: int, w: World, check: int, writes: nat)
    requires OnTime(c, start, d, w0, k, a, w, check, writes) && d >= 0
    ensures check < a + Stretch(c, d) - d
    ensures Watching(w.stored)
  {
  }

  function Times(n: int, stretch: int): int {
    n * stretch
  }

  lemma OneMore(n: int, stretch: int)
    ensures Times(n - 1, stretch) + stretch == Times(n, stretch)
  {
    assert (n - 1) * stretch + stretch == n * stretch;
  }

  lemma NoMore(n: int, m: int, stretch: int)
    requires n <= m && stretch >= 0
    ensures Times(n, stretch) <= Times(m, stretch)
  {
    assert (m - n) * stretch >= 0;
  }

  lemma StepOnTime(c: Setting, start: int, d: int, w0: World, k: nat, a: int, w: World, check: int, writes: nat, e: Event, last: Option<Tag>)
    returns (w0': World, k': nat, a': int)
    requires Calm(c, w, e) && Conv(c, w.stored, last) && d >= 0 && e.ans.check <= check + d
    requires OnTime(c, start, d, w0, k, a, w, check, writes)
    ensures var w' := After(w, e);
            var writes' := writes + if PassAt(w, e).written.Some? then 1 else 0;
            Settled(c, w'.stored) || OnTime(c, start, d, w0', k', a', w', e.ans.check, writes')
  {
    hide Calm, Conv, Settled, After, PassAt, Served, CheckAt, JustArmed, OpenBy, Waits, Measure;
    OnTimeCheck(c, start, d, w0, k, a, w, check, writes);
    CalmSpec(c, w, e);
    var last' := PassOutcome(c, w, e, last);
    w0', k', a' := w0, k, a;
    if Waits(w, e) {
      WaitsChecking(c, w, e, last);
      WaitsOrWrites(w, e);
      CalmServed(c, w, e, last);
      OpenStep(w0, w, e, k, if k == 0 then w0.clock else check, d);
      k' := k + 1;
    } else if PassAt(w, e).written.Some? {
      CalmArms(c, w, e);
      w0', k', a' := After(w, e), 0, e.ans.check;
      OneMore(writes, Stretch(c, d));
      Arming(c, w, e, d);
    }
  }

  lemma CalmSpec(c: Setting, w: World, e: Event)
    requires Calm(c, w, e)
    ensures ValidSetting(c) && Admissible(w, e) && e.spec == c.spec && w.clock <= e.ans.check
  {
  }

  lemma Arming(c: Setting, w: World, e: Event, d: int)
    requires Calm(c, w, e) && JustArmed(After(w, e))
    ensures OpenBy(After(w, e), After(w, e), 0, After(w, e).clock, d, RollbackTimeout(c.spec)) && e.ans.check <= After(w, e).clock
  {
  }

  /** When a run that is not settled has had its last check. */
  ghost predicate Timely(c: Setting, start: int, d: int, w: World, check: int, writes: nat) {
    exists w0: World, k: nat, a: int :: OnTime(c, start, d, w0, k, a, w, check, writes)
  }

  lemma FirstOnTime(c: Setting, w: World, e: Event, d: int)
    requires Calm(c, w, e) && w.stored == EMPTY && d >= 0 && e.ans.check <= w.clock + d
    ensures Settled(c, After(w, e).stored)
            || (PassAt(w, e).written.Some? && Timely(c, w.clock, d, After(w, e), e.ans.check, 1))
  {
    hide Calm, Conv, Settled, After, PassAt, JustArmed, OpenBy, Waits, Measure;
    CalmSpec(c, w, e);
    StartConv(c);
    var last := PassOutcome(c, w, e, None);
    if Waits(w, e) {
      WaitsChecking(c, w, e, None);
    } else if PassAt(w, e).written.Some? {
      CalmArms(c, w, e);
      Arming(c, w, e, d);
      assert Times(0, Stretch(c, d)) == 0;
      assert OnTime(c, w.clock, d, After(w, e), 0, e.ans.check, After(w, e), e.ans.check, 1);
    }
  }

  lemma {:induction false} RunOnTime(c: Setting, ws: seq<World>, es: seq<Event>, d: int, n: nat)
    requires CalmRun(c, ws, es) && Prompt(es, ws[0].clock, d) && d >= 0 && 0 < n <= |es|
    ensures Settled(c, ws[n].stored) || Timely(c, ws[0].clock, d, ws[n], es[n - 1].ans.check, Writes(ws, es, n))
  {
    hide Calm, Conv, Settled, After, PassAt, OnTime, Measure, Times, Stretch, Admissible, RollbackTimeout;
    var m := n - 1;
    var last := RunConv(c, ws, es, m);
    assert es[m].ans.check <= d + CheckBefore(es, ws[0].clock, m);
    if m == 0 {
      FirstOnTime(c, ws[0], es[0], d);
      assert Writes(ws, es, 0) == 0;
    } else {
      RunOnTime(c, ws, es, d, m);
      if Settled(c, ws[m].stored) {
        var after := PassOutcome(c, ws[m], es[m], last);
      } else {
        var w0: World, k: nat, a: int :| OnTime(c, ws[0].clock, d, w0, k, a, ws[m], es[m - 1].ans.check, Writes(ws, es, m));
        var w0', k', a' := StepOnTime(c, ws[0].clock, d, w0, k, a, ws[m], es[m - 1].ans.check, Writes(ws, es, m), es[m], last);
      }
    }
  }

  lemma SettledByThen(c: Setting, ws: seq<World>, es: seq<Event>, d: int)
    requires CalmRun(c, ws, es) && Prompt(es, ws[0].clock, d) && d >= 0 && es != []
    requires es[|es| - 1].ans.check >= ws[0].clock + d + Times(Bound(c), Stretch(c, d))
    ensures Settled(c, ws[|es|].stored)
  {
    hide Calm, Conv, Measure, Bound, Settled, OnTime, RollbackTimeout, Times, Stretch, Admissible, After, Prompt;
    var n := |es|;
    RunOnTime(c, ws, es, d, n);
    if !Settled(c, ws[n].stored) {
      var w0: World, k: nat, a: int :| OnTime(c, ws[0].clock, d, w0, k, a, ws[n], es[n - 1].ans.check, Writes(ws, es, n));
      LastTooEarly(c, ws[0].clock, d, w0, k, a, ws[n], es[n - 1].ans.check, Writes(ws, es, n));
      FewWrites(c, ws, es);
      NoMore(Writes(ws, es, n), Bound(c), Stretch(c, d));
      assert false;
    }
  }

  /**
   Convergence in time: when a calm run's passes check at least every d, then a run whose checks
   reach the start plus one gap plus one stretch for each possible write has settled.
   */
  lemma SettlesInTime(c: Setting, ws: seq<World>, es: seq<Event>, d: int)
    requires CalmRun(c, ws, es) && Prompt(es, ws[0].clock, d) && d >= 0 && es != []
    requires es[|es| - 1].ans.check >= ws[0].clock + d + Times(Bound(c), 2 * RollbackTimeout(c.spec) + 3 * d)
    ensures var s := ws[|es|].stored;
            && Settled(c, s)
            && ((exists t :: IsRelease(c, t) && c.good(t)) ==> GreatestGood(c, s.lastTag))
            && (!(exists t :: IsRelease(c, t) && c.good(t)) ==> forall t :: IsRelease(c, t) ==> t in s.skipped)
  {
    hide Calm, Conv, Measure, Bound, Settled, GreatestGood, IsRelease, Times, RollbackTimeout, Admissible, After, Prompt;
    SettledByThen(c, ws, es, d);
    var last := RunConv(c, ws, es, |es|);
    SettledIsGood(c, ws[|es|].stored, last);
  }

  lemma LastTooEarly(c: Setting, start: int, d: int, w0: World, k: nat, a: int, w: World, check: int, writes: nat)
    requires OnTime(c, start, d, w0, k, a, w, check, writes) && d >= 0
    ensures Stretch(c, d) >= 0 && check < start + d + Times(writes, Stretch(c, d))
  {
    OnTimeCheck(c, start, d, w0, k, a, w, check, writes);
    OneMore(writes, Stretch(c, d));
  }
}
