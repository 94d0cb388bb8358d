/**
 Digests across runs with digest resolution on from the first write: a tag's image never changes
 under it, and a rollback restores the image the previous tag had when it was live.
 */
module DigestHistory {
  import opened Basics
  import opened Matcher
  import opened GitBranch
  import opened Rollout
  import opened Runs
  import opened WatchInvariant

  /** What has been recorded so far: the digest each tag last had while it was the stored release. */
  type Ledger = map<Tag, Digest>

  function Recorded(ledger: Ledger, s: Status): Ledger {
    if s.lastTag == "" then ledger else ledger[s.lastTag := s.lastDigest]
  }

  ghost function LedgerAt(ws: seq<World>, n: nat): Ledger
    requires n < |ws|
  {
    Recorded(if n == 0 then map[] else LedgerAt(ws, n - 1), ws[n].stored)
  }

  /** Both recorded releases have the digest the ledger has for them, and it is a digest. */
  predicate DigestsOk(s: Status, ledger: Ledger) {
    && "" !in ledger
    && (forall t :: t in ledger ==> ValidDigest(ledger[t]))
    && (s.lastTag != "" ==> s.lastTag in ledger && s.lastDigest == ledger[s.lastTag])
    && (s.previousTag != "" ==> s.previousTag in ledger && s.previousDigest == ledger[s.previousTag])
  }

  /** Digest resolution is on, and a resolved digest is one: Digest refuses anything else. */
  ghost predicate Resolving(e: Event) {
    && e.spec.resolveDigest
    && forall t :: e.ans.digest(t).Some? ==> ValidDigest(e.ans.digest(t).value)
  }

  ghost predicate AllResolving(es: seq<Event>) {
    forall i :: 0 <= i < |es| ==> Resolving(es[i])
  }

  // ----- one pass -----

  /** A rollback that writes stores the recorded digest of the previous tag; otherwise the releases stay. */
  ghost predicate KeepsReleases(s: Status, m: Status) {
    && m.previousTag == s.previousTag && m.previousDigest == s.previousDigest
    && (|| (m.lastTag == s.lastTag && m.lastDigest == s.lastDigest)
        || (m.lastTag == s.previousTag && m.lastDigest == s.previousDigest && s.previousTag != ""))
  }

  lemma WithDigestGets(spec: Spec, data: map<string, string>, d: Digest)
    requires spec.resolveDigest
    ensures Get(WithDigest(spec, data, d), "image_digest") == d
  {
  }

  lemma RollbackReleases(spec: Spec, gen: int, s: Status, h: History, ans: Answers)
    requires ValidSpec(spec) && ValidAnswers(ans) && spec.resolveDigest
    ensures var r := DoRollback(spec, gen, s, h, ans); KeepsReleases(s, r.memory) && KeepsReleases(s, r.stored)
  {
    hide ApplyRun, LatestOf, ValidDigest, WithTag;
  }

  lemma HealthReleases(spec: Spec, gen: int, s: Status, since: int, h: History, ans: Answers)
    requires ValidSpec(spec) && ValidAnswers(ans) && spec.resolveDigest
    ensures var c := CheckHealth(spec, gen, s, since, h, ans);
            KeepsReleases(s, c.stored) && (c.verdict == Closed ==> c.memory == c.stored)
  {
    hide DoRollback;
    RollbackReleases(spec, gen, s, h, ans);
    ClosedRollback(spec, gen, s, h, ans);
  }

  lemma ClosedRollback(spec: Spec, gen: int, s: Status, h: History, ans: Answers)
    requires ValidSpec(spec) && ValidAnswers(ans)
    ensures var r := DoRollback(spec, gen, s, h, ans); !r.err ==> r.memory == r.stored
  {
    hide ApplyRun, LatestOf, ValidDigest, WithTag;
  }

  lemma CheckReleases(spec: Spec, gen: int, s: Status, h: History, ans: Answers)
    requires ValidSpec(spec) && ValidAnswers(ans) && spec.resolveDigest
    ensures var c := Check(spec, gen, s, h, ans);
            KeepsReleases(s, c.stored) && (c.verdict == Closed ==> c.memory == c.stored)
  {
    hide CheckHealth, Observes;
    HealthReleases(spec, gen, s.(watchingSince := Some(Stamp(ans.check))), Stamp(ans.check), h, ans);
    if s.watchingSince.Some? { HealthReleases(spec, gen, s, s.watchingSince.value, h, ans); }
  }

  /** A write keeps a recorded tag's digest, or rotates a newly resolved one in. */
  ghost predicate WritesRelease(s: Status, m: Status, ans: Answers) {
    || (m.lastTag == s.lastTag && m.previousTag == s.previousTag && m.previousDigest == s.previousDigest
        && (m.lastDigest == s.lastDigest || (m.lastTag != "" && !ValidDigest(s.lastDigest) && ValidDigest(m.lastDigest))))
    || (m.lastTag != s.lastTag && m.lastTag != "" && ValidDigest(m.lastDigest)
        && m.previousTag == s.lastTag && m.previousDigest == s.lastDigest)
  }

  lemma WriteReleases(spec: Spec, gen: int, s: Status, tag: Tag, data: map<string, string>, h: History, ans: Answers)
    requires ValidAnswers(ans) && tag != ""
    requires ValidDigest(Get(data, "image_digest"))
    requires tag == s.lastTag && ValidDigest(s.lastDigest) ==> s.lastDigest == Get(data, "image_digest")
    ensures WritesRelease(s, WriteRelease(spec, gen, s, tag, data, h, ans).stored, ans)
  {
    hide ApplyRun, ValidDigest;
  }

  lemma ForwardReleases(spec: Spec, gen: int, s: Status, h: History, ans: Answers)
    requires Resolving(Event(spec, gen, ans)) && ValidSpec(spec) && ValidAnswers(ans)
    ensures WritesRelease(s, Forward(spec, gen, s, h, ans).stored, ans)
  {
    hide WriteRelease, LatestOf, Unskipped, ValidDigest, ReleaseData, WithDigest;
    if ans.tags.Some? {
      var latest := LatestOf(spec.pattern, Unskipped(ans.tags.value, s.skipped));
      if latest.Some? {
        LatestIsUnskipped(spec, ans.tags.value, s.skipped);
        var tag := latest.value.tag;
        if ans.release(tag).Some? && ans.digest(tag).Some? {
          var digest := ans.digest(tag).value;
          var data := WithDigest(spec, ReleaseData(spec, latest.value, ans.release(tag).value), digest);
          WithDigestGets(spec, ReleaseData(spec, latest.value, ans.release(tag).value), digest);
          if !(tag == s.lastTag && ValidDigest(s.lastDigest) && s.lastDigest != digest) {
            WriteReleases(spec, gen, s, tag, data, h, ans);
          }
        }
      }
    }
  }

  lemma KeepsOk(s: Status, m: Status, ledger: Ledger)
    requires DigestsOk(s, ledger) && KeepsReleases(s, m)
    ensures DigestsOk(m, ledger)
  {
    hide ValidDigest;
  }

  lemma WritesOk(s: Status, m: Status, ans: Answers, ledger: Ledger)
    requires DigestsOk(s, ledger) && WritesRelease(s, m, ans)
    ensures DigestsOk(m, Recorded(ledger, m))
  {
    hide ValidDigest;
  }

  lemma RecordedOk(s: Status, ledger: Ledger)
    requires DigestsOk(s, ledger)
    ensures Recorded(ledger, s) == ledger
  {
    hide ValidDigest;
  }

  lemma PassDigests(w: World, e: Event, ledger: Ledger)
    requires Admissible(w, e) && Resolving(e) && DigestsOk(w.stored, ledger)
    ensures DigestsOk(After(w, e).stored, Recorded(ledger, After(w, e).stored))
  {
    hide Check, Forward, KeepsReleases, WritesRelease, ValidDigest, DigestsOk, Recorded;
    CheckReleases(e.spec, e.gen, w.stored, w.history, e.ans);
    var entry := ForwardEntry(e.spec, e.gen, w.stored, w.history, e.ans);
    if entry.Some? {
      if entry.value.0 != w.stored { KeepsOk(w.stored, entry.value.0, ledger); }
      ForwardReleases(e.spec, e.gen, entry.value.0, entry.value.1, e.ans);
      WritesOk(entry.value.0, After(w, e).stored, e.ans, ledger);
    } else {
      var c := Check(e.spec, e.gen, w.stored, w.history, e.ans);
      KeepsOk(w.stored, c.stored, ledger);
      RecordedOk(w.stored, ledger);
      RecordedOk(c.stored, ledger);
    }
  }

  /**
   Digest history, over every run from the empty status: every recorded release has a valid digest,
   and both of them are the digests their tags last had as the stored release. In particular a
   rollback never finds the previous digest missing.
   */
  lemma {:induction false} RunKeepsDigests(ws: seq<World>, es: seq<Event>, n: nat)
    requires IsRun(ws, es) && AllResolving(es) && ws[0].stored == EMPTY && n <= |es|
    ensures DigestsOk(ws[n].stored, LedgerAt(ws, n))
  {
    hide After, Resolving, ValidDigest;
    if n > 0 {
      RunKeepsDigests(ws, es, n - 1);
      PassDigests(ws[n - 1], es[n - 1], LedgerAt(ws, n - 1));
    }
  }

  /** The previous tag's own release data, with the given digest. */
  ghost function RollbackData(spec: Spec, ans: Answers, tag: Tag, digest: Digest): map<string, string>
    requires ValidSpec(spec) && LatestOf(spec.pattern, [tag]).Some? && ans.release(tag).Some?
  {
    WithDigest(spec, ReleaseData(spec, LatestOf(spec.pattern, [tag]).value, ans.release(tag).value), digest)
  }

  /**
   What a rollback renders is the previous tag's release data with the digest that tag had when it
   was last live, and what it records is that digest. It fails only because the tag no longer
   matches, its record or the credentials cannot be read, or the write of exactly that data fails.
   */
  lemma RollbackRestores(ws: seq<World>, es: seq<Event>, n: nat, spec: Spec, gen: int, h: History, ans: Answers)
    requires IsRun(ws, es) && AllResolving(es) && ws[0].stored == EMPTY && n <= |es|
    requires ValidSpec(spec) && ValidAnswers(ans) && spec.resolveDigest
    requires ws[n].stored.watchingTag != "" && ws[n].stored.previousTag !in ["", ws[n].stored.watchingTag]
    ensures var s := ws[n].stored;
            var ledger := LedgerAt(ws, n);
            var r := DoRollback(spec, gen, s, h, ans);
            && s.previousTag in ledger && ValidDigest(ledger[s.previousTag])
            && if LatestOf(spec.pattern, [s.previousTag]).None? || ans.release(s.previousTag).None? || !ans.credentials
               then r == Rolled(s, s, h, true)
               else
                 var data := RollbackData(spec, ans, s.previousTag, ledger[s.previousTag]);
                 var (h', applied) := ApplyRun(h, spec.path, spec.edit(data), ans.rollbackScript, 0);
                 && Get(data, "image_digest") == ledger[s.previousTag]
                 && r.history == h'
                 && if applied.Failed? then r.err && r.memory == s
                    else r.memory.lastTag == s.previousTag && r.memory.lastDigest == ledger[s.previousTag]
  {
    hide ApplyRun, LatestOf, ValidDigest, WithTag, LedgerAt;
    RunKeepsDigests(ws, es, n);
    var s := ws[n].stored;
    var previous := LatestOf(spec.pattern, [s.previousTag]);
    if previous.Some? && ans.release(s.previousTag).Some? {
      WithDigestGets(spec, ReleaseData(spec, previous.value, ans.release(s.previousTag).value), s.previousDigest);
    }
  }

  // ----- one tag, one image -----

  lemma FailedTagNotRewritten(w: World, e: Event)
    requires Admissible(w, e) && Guarded(e.spec) && WatchInv(w) && w.stored.watchingTag != ""
    requires ForwardEntry(e.spec, e.gen, w.stored, w.history, e.ans).Some?
    ensures var m := ForwardEntry(e.spec, e.gen, w.stored, w.history, e.ans).value.0;
            m.lastTag != w.stored.lastTag ==> After(w, e).stored.lastTag != w.stored.lastTag
  {
    hide Check, Forward, Written;
    CheckEffect(e.spec, e.gen, w.stored, w.history, e.ans);
    var entry := ForwardEntry(e.spec, e.gen, w.stored, w.history, e.ans).value;
    ForwardEffect(e.spec, e.gen, entry.0, entry.1, e.ans);
    WrittenTag();
  }

  lemma WrittenTag()
    ensures forall spec, gen, s, tag, digest, k: nat, now :: Written(spec, gen, s, tag, digest, k, now).lastTag == tag
  {
  }

  /** A pass that leaves the recorded tag alone leaves its recorded image alone. */
  lemma SameTagSameImage(w: World, e: Event, ledger: Ledger)
    requires Admissible(w, e) && Resolving(e) && DigestsOk(w.stored, ledger)
    requires !e.spec.rollback || (Guarded(e.spec) && WatchInv(w))
    requires After(w, e).stored.lastTag == w.stored.lastTag
    ensures After(w, e).stored.lastDigest == w.stored.lastDigest
  {
    hide Check, Forward, ValidDigest, WatchInv;
    CheckReleases(e.spec, e.gen, w.stored, w.history, e.ans);
    var entry := ForwardEntry(e.spec, e.gen, w.stored, w.history, e.ans);
    if entry.Some? {
      ForwardReleases(e.spec, e.gen, entry.value.0, entry.value.1, e.ans);
      if e.spec.rollback && w.stored.watchingTag != "" { FailedTagNotRewritten(w, e); }
    }
  }

  /** Over guarded runs from the empty status, the image of the recorded release changes only with its tag. */
  lemma RunKeepsImages(ws: seq<World>, es: seq<Event>, n: nat)
    requires IsRun(ws, es) && AllResolving(es) && AllGuarded(es) && ws[0].stored == EMPTY && n < |es|
    requires ws[n + 1].stored.lastTag == ws[n].stored.lastTag
    ensures ws[n + 1].stored.lastDigest == ws[n].stored.lastDigest
  {
    hide After, WatchInv, LedgerAt, DigestsOk, Resolving;
    RunKeepsDigests(ws, es, n);
    RunKeepsWatch(ws, es);
    SameTagSameImage(ws[n], es[n], LedgerAt(ws, n));
  }
}
