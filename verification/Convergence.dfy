/**
 Convergence. The specification and the tags stay put, every tag is either good or bad, reads and
 writes succeed and commits are observed in time: then only finitely many releases are ever
 written forward, and the run settles on the healthy tag with the greatest number.
 */
module Convergence {
  import opened Basics
  import opened Matcher
  import opened GitBranch
  import opened Rollout
  import opened Runs
  import opened WatchInvariant

  datatype Setting = Setting(spec: Spec, gen: int, tags: seq<Tag>, good: Tag -> bool, digest: Tag -> Digest)

  ghost predicate ValidSetting(c: Setting) {
    && ValidSpec(c.spec) && Guarded(c.spec) && c.spec.writeBackValid && !(c.spec.resolveDigest && !c.spec.sourceIsGit)
    && "" !in c.tags
    && AllNumeric(Matches(c.spec.pattern, c.tags)) && DistinctNumbers(Matches(c.spec.pattern, c.tags))
    && forall t :: IsRelease(c, t) ==> ValidDigest(c.digest(t))
  }

  predicate IsRelease(c: Setting, t: Tag) {
    t in c.tags && c.spec.pattern.find(t).Some?
  }

  ghost function MatchOf(c: Setting, t: Tag): Match
    requires ValidSetting(c) && IsRelease(c, t)
  {
    Match(t, Captures(c.spec.pattern.names, c.spec.pattern.find(t).value))
  }

  ghost function Num(c: Setting, t: Tag): int
    requires ValidSetting(c) && IsRelease(c, t)
  {
    ReleaseMatches(c, t);
    Number(MatchOf(c, t)).value
  }

  lemma ReleaseMatches(c: Setting, t: Tag)
    requires ValidSetting(c) && IsRelease(c, t)
    ensures MatchOf(c, t) in Matches(c.spec.pattern, c.tags) && Number(MatchOf(c, t)).Some?
  {
    MatchesExactly(c.spec.pattern, c.tags, MatchOf(c, t));
  }

  lemma NumDistinct(c: Setting, t: Tag, u: Tag)
    requires ValidSetting(c) && IsRelease(c, t) && IsRelease(c, u) && Num(c, t) == Num(c, u)
    ensures t == u
  {
    ReleaseMatches(c, t);
    ReleaseMatches(c, u);
  }

  // ----- what the world does -----

  /** When the health timeout of this pass counts from. */
  function Since(w: World, e: Event): int {
    if w.stored.watchingSince.Some? then w.stored.watchingSince.value else Stamp(e.ans.check)
  }

  predicate SaysFailed(w: World, e: Event)
    requires e.ans.app.Some?
  {
    && e.ans.app.value.health != Healthy
    && (|| (e.ans.app.value.health == Degraded && !e.ans.app.value.syncInFlight)
        || e.ans.health - Since(w, e) >= RollbackTimeout(e.spec))
  }

  /** What a write of release t renders in this pass, forward or back. */
  ghost function DataFor(c: Setting, e: Event, t: Tag): map<string, string>
    requires ValidSetting(c) && IsRelease(c, t) && e.ans.release(t).Some?
  {
    WithDigest(c.spec, ReleaseData(c.spec, MatchOf(c, t), e.ans.release(t).value), c.digest(t))
  }

  /** Every read and every status update of the pass succeeds, and so does any Apply of a release it makes. */
  ghost predicate Succeeds(c: Setting, w: World, e: Event)
    requires Admissible(w, e) && ValidSetting(c)
  {
    && e.ans.revision.Some? && e.ans.app.Some? && e.ans.tags == Some(c.tags)
    && e.ans.observedSaved && e.ans.verdictSaved && e.ans.finalSaved && e.ans.ownershipOk && e.ans.credentials
    && (forall t :: IsRelease(c, t) ==> e.ans.release(t).Some? && e.ans.digest(t) == Some(c.digest(t)))
    && (forall t :: IsRelease(c, t) ==>
          ApplyRun(w.history, e.spec.path, e.spec.edit(DataFor(c, e, t)), e.ans.rollbackScript, 0).1.Applied?)
    && (var entry := ForwardEntry(e.spec, e.gen, w.stored, w.history, e.ans);
        entry.Some? ==>
          forall t :: IsRelease(c, t) ==>
            ApplyRun(entry.value.1 + e.ans.outside, e.spec.path, e.spec.edit(DataFor(c, e, t)), e.ans.script, 0).1.Applied?)
  }

  /** Health is a function of the watched tag, and its commit is observed before the deadline. */
  ghost predicate Truthful(c: Setting, w: World, e: Event)
    requires e.ans.app.Some? && e.ans.revision.Some?
  {
    && (e.ans.app.value.health == Healthy ==> c.good(w.stored.watchingTag))
    && (SaysFailed(w, e) ==> !c.good(w.stored.watchingTag))
    && (w.stored.watchingSince.None? ==>
          Observes(e.ans.revision.value, w.stored.watchingCommit, w.stored.watchingArmedAt)
          || !DeadlineExceeded(e.spec, w.stored, e.ans.check))
  }

  ghost predicate Calm(c: Setting, w: World, e: Event) {
    && ValidSetting(c) && Admissible(w, e) && e.spec == c.spec && e.gen == c.gen
    && Succeeds(c, w, e) && (w.stored.watchingTag != "" ==> Truthful(c, w, e))
  }

  // ----- the invariant -----

  predicate TagOk(c: Setting, t: Tag, d: Digest) {
    t != "" ==> IsRelease(c, t) && (c.spec.resolveDigest ==> d == c.digest(t))
  }

  /**
   last is the last tag seen healthy, if any. It is what a failure falls back to, and a watched
   tag always has a greater number. Only bad tags are skipped.
   */
  ghost predicate Conv(c: Setting, s: Status, last: Option<Tag>) {
    && ValidSetting(c)
    && Paired(s) && Distinct(s.skipped)
    && (Watching(s) ==> s.watchingTag == s.lastTag && s.watchingTag !in s.skipped && s.watchingTag != s.previousTag)
    && TagOk(c, s.lastTag, s.lastDigest) && TagOk(c, s.previousTag, s.previousDigest)
    && (forall t :: t in s.skipped ==> IsRelease(c, t) && !c.good(t))
    && match last
       case None => Base(s) == "" || Base(s) in s.skipped
       case Some(t) =>
         && Base(s) == t && IsRelease(c, t) && c.good(t)
         && (Watching(s) ==> Num(c, s.watchingTag) > Num(c, t))
  }

  // ----- the measure -----

  ghost function Releases(c: Setting): set<Tag> {
    set t | t in c.tags && c.spec.pattern.find(t).Some?
  }

  /** Releases above the last healthy one. */
  ghost function Above(c: Setting, last: Option<Tag>): set<Tag>
    requires ValidSetting(c) && (last.Some? ==> IsRelease(c, last.value))
  {
    set t | t in Releases(c) && (last.None? || Num(c, t) > Num(c, last.value))
  }

  ghost function Left(c: Setting, s: Status): set<Tag> {
    set t | t in Releases(c) && t !in s.skipped
  }

  ghost function Measure(c: Setting, s: Status, last: Option<Tag>): nat
    requires ValidSetting(c) && (last.Some? ==> IsRelease(c, last.value))
  {
    Product(|Above(c, last)|, |Releases(c)| + 1) + |Left(c, s)| + if Watching(s) then 0 else 1
  }

  function Product(a: nat, b: nat): nat {
    a * b
  }

  lemma SubsetSize<T>(a: set<T>, b: set<T>)
    requires a <= b
    ensures |a| <= |b|
    ensures forall x :: x in b && x !in a ==> |a| < |b|
  {
    var rest := b - a;
    assert b == a + rest;
    forall x | x in b && x !in a ensures |rest| > 0 {
      assert x in rest;
    }
  }

  // ----- one check -----

  lemma RollbackOutcome(c: Setting, w: World, e: Event, s: Status, last: Option<Tag>)
    requires Calm(c, w, e) && Conv(c, s, last) && Watching(s)
    ensures var r := DoRollback(e.spec, e.gen, s, w.history, e.ans);
            && !r.err && r.stored == r.memory && Failure(s, r.memory)
            && TagOk(c, r.memory.lastTag, r.memory.lastDigest)
  {
    hide ApplyRun, ValidDigest, WithTag, LatestOf, Matches, Observes, ForwardEntry, ReleaseData;
    if s.previousTag != "" {
      RecordedMatches(c, s.previousTag);
      var data := WithDigest(e.spec, ReleaseData(e.spec, MatchOf(c, s.previousTag), e.ans.release(s.previousTag).value), s.previousDigest);
      assert data == DataFor(c, e, s.previousTag);
    }
  }

  lemma RecordedMatches(c: Setting, t: Tag)
    requires ValidSetting(c) && IsRelease(c, t)
    ensures LatestOf(c.spec.pattern, [t]) == Some(MatchOf(c, t))
  {
    MatchesExactly(c.spec.pattern, [t], MatchOf(c, t));
    LatestIsAMatch(c.spec.pattern, [t]);
    MatchesExactly(c.spec.pattern, [t], LatestOf(c.spec.pattern, [t]).value);
  }

  lemma HealthOutcome(c: Setting, w: World, e: Event, s: Status, last: Option<Tag>, since: int)
    requires Calm(c, w, e) && Conv(c, s, last) && Watching(s)
    requires s.watchingTag == w.stored.watchingTag && since == Since(w, e)
    ensures var k := CheckHealth(e.spec, e.gen, s, since, w.history, e.ans);
            && (k.verdict == Wait ==> k.memory == k.stored == s)
            && (k.verdict != Wait ==> k.verdict == Closed && k.memory == k.stored && Decided(c, s, k.memory))
  {
    hide DoRollback, Conv, Succeeds, Observes, Failure, ValidSetting, Admissible, TagOk;
    NeverMissing(c, w, e);
    RollbackOutcome(c, w, e, s, last);
  }

  lemma NeverMissing(c: Setting, w: World, e: Event)
    requires Calm(c, w, e)
    ensures e.ans.app.Some? && e.ans.revision.Some? && e.ans.observedSaved && e.ans.verdictSaved && e.ans.finalSaved
    ensures e.ans.ownershipOk && e.ans.credentials && e.ans.tags == Some(c.tags)
  {
  }

  /** A watch of s that closed according to the truth about its tag. */
  ghost predicate Decided(c: Setting, s: Status, m: Status) {
    || (c.good(s.watchingTag) && m == Cleared(s).(skipped := []))
    || (!c.good(s.watchingTag) && Failure(s, m)
        && TagOk(c, m.lastTag, m.lastDigest))
  }

  lemma CheckOutcome(c: Setting, w: World, e: Event, last: Option<Tag>)
    requires Calm(c, w, e) && Conv(c, w.stored, last) && Watching(w.stored)
    ensures var k := Check(e.spec, e.gen, w.stored, w.history, e.ans);
            && k.verdict != Abort && k.memory == k.stored
            && (k.verdict == Wait ==> k.stored.(watchingSince := None) == w.stored.(watchingSince := None))
            && (k.verdict == Closed ==> Decided(c, w.stored, k.memory))
  {
    hide CheckHealth, Observes, Conv, Decided, Succeeds, ValidSetting;
    NeverMissing(c, w, e);
    var s := w.stored;
    var observed := s.(watchingSince := Some(Stamp(e.ans.check)));
    ObservedConv(c, s, observed, last);
    if s.watchingSince.Some? {
      HealthOutcome(c, w, e, s, last, s.watchingSince.value);
    } else {
      HealthOutcome(c, w, e, observed, last, Stamp(e.ans.check));
    }
  }

  lemma ObservedConv(c: Setting, s: Status, s': Status, last: Option<Tag>)
    requires Conv(c, s, last) && Watching(s) && s'.(watchingSince := None) == s.(watchingSince := None)
    ensures Conv(c, s', last) && Measure(c, s', last) == Measure(c, s, last)
    ensures forall m :: Decided(c, s', m) ==> Decided(c, s, m)
  {
    assert Left(c, s') == Left(c, s);
  }

  // ----- what a closed watch leaves -----

  lemma GoodCloses(c: Setting, s: Status, last: Option<Tag>)
    requires Conv(c, s, last) && Watching(s) && c.good(s.watchingTag)
    ensures var m := Cleared(s).(skipped := []);
            Conv(c, m, Some(s.watchingTag)) && Measure(c, m, Some(s.watchingTag)) <= Measure(c, s, last)
  {
    var m, t, k := Cleared(s).(skipped := []), s.watchingTag, |Releases(c)|;
    SubsetSize(Above(c, Some(t)), Above(c, last));
    assert t in Above(c, last) && t !in Above(c, Some(t));
    SubsetSize(Left(c, m), Releases(c));
    assert t in Left(c, s);
    SubsetSize({}, Left(c, s));
    LessAbove(|Above(c, Some(t))|, |Above(c, last)|, k);
  }

  lemma LessAbove(a: nat, b: nat, k: nat)
    requires a < b
    ensures a * (k + 1) + k + 1 <= b * (k + 1)
  {
    assert (b - a - 1) * (k + 1) >= 0;
  }

  lemma BadCloses(c: Setting, s: Status, m: Status, last: Option<Tag>)
    requires Conv(c, s, last) && Watching(s) && !c.good(s.watchingTag) && Decided(c, s, m)
    ensures Conv(c, m, last) && Measure(c, m, last) <= Measure(c, s, last)
  {
    var t := s.watchingTag;
    WithTagDistinct(s.skipped, t);
    assert Failure(s, m);
    assert t in Left(c, s) && t !in Left(c, m);
    SubsetSize(Left(c, m), Left(c, s));
  }

  /** A decided watch keeps the invariant, for the watched tag if it was good and for the last good one if not. */
  lemma DecidedConv(c: Setting, s: Status, m: Status, last: Option<Tag>) returns (last': Option<Tag>)
    requires Conv(c, s, last) && Watching(s) && Decided(c, s, m)
    ensures Conv(c, m, last') && Measure(c, m, last') <= Measure(c, s, last) && m == Cleared(m)
  {
    if c.good(s.watchingTag) {
      GoodCloses(c, s, last);
      last' := Some(s.watchingTag);
    } else {
      BadCloses(c, s, m, last);
      last' := last;
    }
  }

  // ----- the forward path -----

  ghost predicate Greatest(c: Setting, s: Status, t: Tag)
    requires ValidSetting(c)
  {
    t in Left(c, s) && forall u :: u in Left(c, s) ==> IsRelease(c, u) && IsRelease(c, t) && Num(c, u) <= Num(c, t)
  }

  lemma LatestIsGreatest(c: Setting, s: Status)
    requires ValidSetting(c)
    ensures var latest := LatestOf(c.spec.pattern, Unskipped(c.tags, s.skipped));
            match latest
            case None => Left(c, s) == {}
            case Some(m) => IsRelease(c, m.tag) && m == MatchOf(c, m.tag) && Greatest(c, s, m.tag)
  {
    hide ValidDigest;
    var pool := Unskipped(c.tags, s.skipped);
    var p := c.spec.pattern;
    LatestIsAMatch(p, pool);
    forall t | t in Left(c, s) ensures MatchOf(c, t) in Matches(p, pool) {
      UnskippedExactly(c.tags, s.skipped, t);
      MatchesExactly(p, pool, MatchOf(c, t));
    }
    forall m | m in Matches(p, pool) ensures Number(m).Some? {
      MatchesExactly(p, pool, m);
      UnskippedExactly(c.tags, s.skipped, m.tag);
      ReleaseMatches(c, m.tag);
    }
    var latest := LatestOf(p, pool);
    if latest.Some? {
      LatestIsTheNewest(p, pool);
      MatchesExactly(p, pool, latest.value);
      UnskippedExactly(c.tags, s.skipped, latest.value.tag);
    }
  }

  /** With the watch closed, the forward path records the greatest release left, if there is one. */
  ghost predicate Forwarded(c: Setting, s: Status, p: Passed)
    requires ValidSetting(c)
  {
    || (Left(c, s) == {} && p.stored == s && p.written == None)
    || (exists tag: Tag, d: Digest, k: nat, now: int :: Recorded(c, s, p, tag, d, k, now))
  }

  ghost predicate Recorded(c: Setting, s: Status, p: Passed, tag: Tag, d: Digest, k: nat, now: int)
    requires ValidSetting(c)
  {
    && Greatest(c, s, tag) && TagOk(c, tag, d)
    && (p.stored == Written(c.spec, c.gen, s, tag, d, k, now) || (p.stored == s && tag == s.lastTag))
    && p.written == (if tag == s.lastTag then None else Some(tag))
  }

  lemma WriteOutcome(c: Setting, s: Status, tag: Tag, data: map<string, string>, h: History, ans: Answers)
    requires ValidSetting(c) && ValidAnswers(ans) && ans.finalSaved && Greatest(c, s, tag)
    requires TagOk(c, tag, Get(data, "image_digest"))
    requires ApplyRun(h + ans.outside, c.spec.path, c.spec.edit(data), ans.script, 0).1.Applied?
    ensures Forwarded(c, s, WriteRelease(c.spec, c.gen, s, tag, data, h, ans))
  {
    hide ApplyRun, Written, TagOk, Greatest, ValidSetting;
    var digest := Get(data, "image_digest");
    var p := WriteRelease(c.spec, c.gen, s, tag, data, h, ans);
    if p.stored != s || tag != s.lastTag {
      var k := ApplyRun(h + ans.outside, c.spec.path, c.spec.edit(data), ans.script, 0).1.index;
      assert Recorded(c, s, p, tag, digest, k, ans.write);
    } else {
      assert Recorded(c, s, p, tag, digest, 0, 0);
    }
  }

  lemma ForwardOutcome(c: Setting, w: World, e: Event, last: Option<Tag>)
    requires Calm(c, w, e)
    requires var entry := ForwardEntry(e.spec, e.gen, w.stored, w.history, e.ans); entry.Some? && Conv(c, entry.value.0, last)
    ensures var entry := ForwardEntry(e.spec, e.gen, w.stored, w.history, e.ans);
            Forwarded(c, entry.value.0, Forward(e.spec, e.gen, entry.value.0, entry.value.1, e.ans))
  {
    hide ApplyRun, WriteRelease, LatestOf, Unskipped, ValidDigest, ForwardEntry, Greatest, Left, Forwarded, Matches, ReleaseData, Num, Truthful;
    var (s, h) := ForwardEntry(e.spec, e.gen, w.stored, w.history, e.ans).value;
    LatestIsGreatest(c, s);
    NothingForwarded(c, s);
    var latest := LatestOf(c.spec.pattern, Unskipped(c.tags, s.skipped));
    if latest.Some? {
      var tag := latest.value.tag;
      var digest := if c.spec.resolveDigest then c.digest(tag) else "";
      var data := WithDigest(c.spec, ReleaseData(c.spec, latest.value, e.ans.release(tag).value), digest);
      WriteOutcome(c, s, tag, data, h, e.ans);
    }
  }

  lemma NothingForwarded(c: Setting, s: Status)
    requires ValidSetting(c)
    ensures Left(c, s) == {} ==> forall p: Passed :: p.stored == s && p.written == None ==> Forwarded(c, s, p)
  {
  }

  lemma GreatestAboveBase(c: Setting, s: Status, last: Option<Tag>, tag: Tag)
    requires Conv(c, s, last) && !Watching(s) && Greatest(c, s, tag) && tag != s.lastTag
    ensures last.Some? ==> Num(c, tag) > Num(c, last.value)
  {
    if last.Some? {
      assert last.value in Left(c, s);
      if Num(c, tag) == Num(c, last.value) { NumDistinct(c, tag, last.value); }
    }
  }

  lemma WrittenConv(c: Setting, s: Status, last: Option<Tag>, tag: Tag, d: Digest, k: nat, now: int)
    requires Conv(c, s, last) && !Watching(s) && Greatest(c, s, tag) && TagOk(c, tag, d)
    ensures var s' := Written(c.spec, c.gen, s, tag, d, k, now);
            && Conv(c, s', last)
            && Measure(c, s', last) == Measure(c, s, last) - (if tag == s.lastTag then 0 else 1)
            && (tag == s.lastTag <==> !Watching(s'))
            && s'.skipped == s.skipped && s'.lastTag == tag
  {
    var s' := Written(c.spec, c.gen, s, tag, d, k, now);
    assert Left(c, s') == Left(c, s);
    assert tag in c.tags;
    if tag != s.lastTag { GreatestAboveBase(c, s, last, tag); }
  }

  /** No watch is open, and nothing greater than the recorded release is left to try. */
  ghost predicate Settled(c: Setting, s: Status)
    requires ValidSetting(c)
  {
    !Watching(s) && (Left(c, s) == {} || Greatest(c, s, s.lastTag))
  }

  lemma ForwardedConv(c: Setting, s: Status, last: Option<Tag>, p: Passed)
    requires ValidSetting(c) && Conv(c, s, last) && !Watching(s) && Forwarded(c, s, p)
    ensures Conv(c, p.stored, last) && Measure(c, p.stored, last) <= Measure(c, s, last) - if p.written.Some? then 1 else 0
    ensures p.written.Some? <==> Watching(p.stored)
    ensures p.written.None? ==> Settled(c, p.stored)
    ensures Settled(c, s) ==> p.written.None? && p.stored.lastTag == s.lastTag && p.stored.skipped == s.skipped
  {
    hide Conv, Written, TagOk, Measure, ValidSetting;
    if !(Left(c, s) == {} && p.stored == s && p.written == None) {
      var tag: Tag, d: Digest, k: nat, now: int :| Recorded(c, s, p, tag, d, k, now);
      WrittenConv(c, s, last, tag, d, k, now);
      GreatestIsUnique(c, s, tag);
      SameLeft(c, s, p.stored);
    }
  }

  lemma SameLeft(c: Setting, s: Status, s': Status)
    requires ValidSetting(c) && s'.skipped == s.skipped
    ensures Left(c, s') == Left(c, s)
    ensures forall t :: Greatest(c, s, t) <==> Greatest(c, s', t)
  {
    hide ValidSetting, Num;
    assert Left(c, s') == Left(c, s);
  }

  lemma GreatestIsUnique(c: Setting, s: Status, tag: Tag)
    requires ValidSetting(c) && Greatest(c, s, tag)
    ensures Greatest(c, s, s.lastTag) ==> tag == s.lastTag
  {
    if Greatest(c, s, s.lastTag) {
      assert Num(c, tag) == Num(c, s.lastTag);
      NumDistinct(c, tag, s.lastTag);
    }
  }

  // ----- one pass, and every run -----

  /** A pass that neither writes nor ends with the watch closed only waits. */
  ghost predicate Waits(w: World, e: Event)
    requires Admissible(w, e)
  {
    Watching(After(w, e).stored) && PassAt(w, e).written == None
  }

  lemma WaitingConv(c: Setting, w: World, e: Event, last: Option<Tag>)
    requires Calm(c, w, e) && Conv(c, w.stored, last) && Watching(w.stored)
    requires Check(e.spec, e.gen, w.stored, w.history, e.ans).verdict == Wait
    ensures Conv(c, After(w, e).stored, last) && Measure(c, After(w, e).stored, last) == Measure(c, w.stored, last) && Waits(w, e)
  {
    hide Check, Conv, Decided, Succeeds, Truthful;
    CheckOutcome(c, w, e, last);
    GuardedSetting(c);
    ObservedConv(c, w.stored, Check(e.spec, e.gen, w.stored, w.history, e.ans).stored, last);
  }

  lemma GuardedSetting(c: Setting)
    requires ValidSetting(c)
    ensures Guarded(c.spec) && !(c.spec.resolveDigest && !c.spec.sourceIsGit)
  {
  }

  /** Where the forward path starts: from an unwatched status, or from the one a decided watch left. */
  lemma EntryConv(c: Setting, w: World, e: Event, last: Option<Tag>) returns (last': Option<Tag>)
    requires Calm(c, w, e) && Conv(c, w.stored, last)
    ensures match ForwardEntry(e.spec, e.gen, w.stored, w.history, e.ans)
            case None => Watching(w.stored) && Check(e.spec, e.gen, w.stored, w.history, e.ans).verdict == Wait && last' == last
            case Some((s, h)) =>
              && Conv(c, s, last') && !Watching(s) && Measure(c, s, last') <= Measure(c, w.stored, last)
              && (!Watching(w.stored) ==> s == w.stored && last' == last)
  {
    hide Check, Conv, Decided, Succeeds, Truthful, Measure;
    GuardedSetting(c);
    last' := last;
    if Watching(w.stored) {
      CheckOutcome(c, w, e, last);
      var k := Check(e.spec, e.gen, w.stored, w.history, e.ans);
      if k.verdict == Closed { last' := DecidedConv(c, w.stored, k.memory, last); }
    }
  }

  lemma PassOutcome(c: Setting, w: World, e: Event, last: Option<Tag>) returns (last': Option<Tag>)
    requires Calm(c, w, e) && Conv(c, w.stored, last)
    ensures var s' := After(w, e).stored;
            && Conv(c, s', last')
            && Measure(c, s', last') <= Measure(c, w.stored, last) - (if PassAt(w, e).written.Some? then 1 else 0)
            && (Waits(w, e) || PassAt(w, e).written.Some? || Settled(c, s'))
            && (Settled(c, w.stored) ==>
                  Settled(c, s') && PassAt(w, e).written == None && !Waits(w, e) && s'.lastTag == w.stored.lastTag && s'.skipped == w.stored.skipped)
  {
    hide Check, Forward, Conv, Decided, Succeeds, Truthful, Measure, Greatest, Left, Forwarded;
    GuardedSetting(c);
    last' := EntryConv(c, w, e, last);
    var entry := ForwardEntry(e.spec, e.gen, w.stored, w.history, e.ans);
    if entry.Some? {
      ForwardOutcome(c, w, e, last');
      ForwardedConv(c, entry.value.0, last', Forward(e.spec, e.gen, entry.value.0, entry.value.1, e.ans));
    } else {
      WaitingConv(c, w, e, last);
    }
  }

  ghost predicate CalmRun(c: Setting, ws: seq<World>, es: seq<Event>) {
    && ValidSetting(c) && IsRun(ws, es) && ws[0].stored == EMPTY
    && forall i :: 0 <= i < |es| ==> Calm(c, ws[i], es[i])
  }

  /** Forward writes among the first n passes. */
  ghost function Writes(ws: seq<World>, es: seq<Event>, n: nat): nat
    requires IsRun(ws, es) && n <= |es|
  {
    if n == 0 then 0 else Writes(ws, es, n - 1) + if PassAt(ws[n - 1], es[n - 1]).written.Some? then 1 else 0
  }

  /** Passes among the first n that do more than wait. */
  ghost function Moves(ws: seq<World>, es: seq<Event>, n: nat): nat
    requires IsRun(ws, es) && n <= |es|
  {
    if n == 0 then 0 else Moves(ws, es, n - 1) + if Waits(ws[n - 1], es[n - 1]) then 0 else 1
  }

  ghost function Bound(c: Setting): nat {
    (|Releases(c)| + 1) * (|Releases(c)| + 1)
  }

  lemma StartConv(c: Setting)
    requires ValidSetting(c)
    ensures Conv(c, EMPTY, None) && Measure(c, EMPTY, None) == Bound(c)
  {
    assert Above(c, None) == Releases(c) == Left(c, EMPTY);
  }

  lemma {:induction false} RunConv(c: Setting, ws: seq<World>, es: seq<Event>, n: nat) returns (last: Option<Tag>)
    requires CalmRun(c, ws, es) && n <= |es|
    ensures Conv(c, ws[n].stored, last)
    ensures Measure(c, ws[n].stored, last) + Writes(ws, es, n) <= Bound(c)
    ensures Settled(c, ws[n].stored) || Moves(ws, es, n) == Writes(ws, es, n)
  {
    hide After, PassAt, Calm, Conv, Measure, Bound, Settled, Waits;
    if n == 0 {
      StartConv(c);
      last := None;
    } else {
      var before := RunConv(c, ws, es, n - 1);
      last := PassOutcome(c, ws[n - 1], es[n - 1], before);
      WaitsOrWrites(ws[n - 1], es[n - 1]);
    }
  }

  lemma WaitsOrWrites(w: World, e: Event)
    requires Admissible(w, e)
    ensures PassAt(w, e).written.Some? ==> !Waits(w, e)
  {
  }

  /** Finitely many forward writes: no run makes more of them than a bound set by the number of releases. */
  lemma FewWrites(c: Setting, ws: seq<World>, es: seq<Event>)
    requires CalmRun(c, ws, es)
    ensures Writes(ws, es, |es|) <= Bound(c)
  {
    hide CalmRun, Conv, Measure, Bound, Settled;
    var last := RunConv(c, ws, es, |es|);
  }

  /** The release a settled run is to end on. */
  ghost predicate GreatestGood(c: Setting, t: Tag)
    requires ValidSetting(c)
  {
    && IsRelease(c, t) && c.good(t)
    && forall u :: IsRelease(c, u) && c.good(u) ==> Num(c, u) <= Num(c, t)
  }

  lemma SettledIsGood(c: Setting, s: Status, last: Option<Tag>)
    requires Conv(c, s, last) && Settled(c, s)
    ensures (exists t :: IsRelease(c, t) && c.good(t)) ==> GreatestGood(c, s.lastTag)
    ensures !(exists t :: IsRelease(c, t) && c.good(t)) ==> forall t :: IsRelease(c, t) ==> t in s.skipped
  {
    forall t | IsRelease(c, t) && c.good(t) ensures t in Left(c, s) {
    }
    if last.None? {
      assert Base(s) == s.lastTag;
      assert Left(c, s) == {};
      forall t | IsRelease(c, t) ensures t in s.skipped {
        assert t !in Left(c, s);
      }
    } else {
      assert c.good(s.lastTag) && s.lastTag in Left(c, s);
    }
  }

  /**
   Convergence: once a run has had more passes that do something than the bound, it has settled.
   No watch is open; the recorded release is the healthy one with the greatest number if there is
   a healthy one, and otherwise every release has been tried and skipped.
   */
  lemma Converges(c: Setting, ws: seq<World>, es: seq<Event>)
    requires CalmRun(c, ws, es) && Moves(ws, es, |es|) > Bound(c)
    ensures var s := ws[|es|].stored;
            && Settled(c, s)
            && ((exists t :: IsRelease(c, t) && c.good(t)) ==> GreatestGood(c, s.lastTag))
            && (!(exists t :: IsRelease(c, t) && c.good(t)) ==> forall t :: IsRelease(c, t) ==> t in s.skipped)
  {
    hide Calm, Conv, Measure, Bound, Settled, GreatestGood, IsRelease;
    var last := RunConv(c, ws, es, |es|);
    SettledIsGood(c, ws[|es|].stored, last);
  }

  /** A settled run stays settled on the same release, and writes nothing more. */
  lemma {:induction false} SettledStays(c: Setting, ws: seq<World>, es: seq<Event>, n: nat, m: nat)
    requires CalmRun(c, ws, es) && n <= m <= |es| && Settled(c, ws[n].stored)
    ensures Settled(c, ws[m].stored) && ws[m].stored.lastTag == ws[n].stored.lastTag
    ensures Writes(ws, es, m) == Writes(ws, es, n)
    decreases m
  {
    hide After, PassAt, Calm, Conv, Measure, Bound, Settled, Waits;
    if n < m {
      SettledStays(c, ws, es, n, m - 1);
      var before := RunConv(c, ws, es, m - 1);
      var last := PassOutcome(c, ws[m - 1], es[m - 1], before);
    }
  }
}
