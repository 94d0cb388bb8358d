/**
 A write whose status update is lost is repeated by a later pass. As long as the owned fields stay
 as written, repeating it makes no second commit and records the same release.
 */
module Retry {
  import opened Basics
  import opened Matcher
  import opened GitBranch
  import opened Rollout
  import opened Runs
  import opened WriteShortcut

  // ----- one Apply after another -----

  /** What is on the branch when the first attempt has cloned it. */
  function FirstClone(h: History, script: seq<Attempt>): History
    requires script != []
  {
    h + script[0].before
  }

  /** An Apply that finds its edit in place commits nothing, whatever the others push meanwhile. */
  lemma SettledAttempt(h: History, path: string, edit: Edit, script: seq<Attempt>)
    requires |script| == ATTEMPTS && script[0].fault != CloneFault
    requires var cloned := FirstClone(h, script); cloned != [] && SettledAt(cloned, Tip(cloned), path, edit)
    ensures var cloned := FirstClone(h, script);
            ApplyRun(h, path, edit, script, 0) == (cloned + script[0].between, Applied(false, Tip(cloned)))
  {
  }

  /**
   Whenever a push of this Apply has landed, reported or not, the tip already carries the edit:
   the premise of a retry holds right after the write.
   */
  lemma LandedSettles(h: History, path: string, edit: Edit, script: seq<Attempt>) returns (n: nat)
    requires |script| == ATTEMPTS
    requires Idempotent(edit)
    ensures n <= ATTEMPTS
    ensures var h' := ApplyRun(h, path, edit, script, 0).0;
            h' != h + Others(script, 0, n) ==> h' != [] && SettledAt(h', Tip(h'), path, edit)
  {
    hide ApplyRun, SettledAt, EditsParent;
    n := ApplySafe(h, path, edit, script, 0);
    var (h', r) := ApplyRun(h, path, edit, script, 0);
    if h' != h + Others(script, 0, n) {
      LandedAtTip(h, Others(script, 0, n), path, edit, h', r);
      EditedSettles(h', Tip(h'), path, edit);
    }
  }

  lemma LandedAtTip(h: History, others: seq<Commit>, path: string, edit: Edit, h': History, r: ApplyResult)
    requires Accounted(h, others, path, edit, h', r) && h' != h + others
    ensures h' != [] && EditsParent(h', Tip(h'), path, edit)
  {
  }

  // ----- retrying a forward write -----

  /** The later pass sees the same tags, records, digests and permissions. */
  ghost predicate SameInputs(a: Answers, b: Answers) {
    && b.tags == a.tags && (forall t :: b.release(t) == a.release(t) && b.digest(t) == a.digest(t))
    && b.ownershipOk == a.ownershipOk && b.credentials == a.credentials
  }

  /** The same release, recorded with the same or a later commit, and a watch armed when it was stored. */
  predicate SameRelease(first: Status, second: Status) {
    && first.lastWriteCommit.OnBranch? && second.lastWriteCommit.OnBranch?
    && first.lastWriteCommit.index <= second.lastWriteCommit.index
    && (first.watchingTag == "" <==> first.watchingArmedAt == None)
    && second == first.(lastWriteCommit := second.lastWriteCommit,
                        watchingCommit := if first.watchingTag == "" then first.watchingCommit else second.lastWriteCommit,
                        watchingArmedAt := second.watchingArmedAt)
    && second.watchingArmedAt.Some? == first.watchingArmedAt.Some?
  }

  /** The branch the retry clones. */
  function RetryClone(h: History, ans: Answers): History
    requires |ans.script| == ATTEMPTS
  {
    FirstClone(h + ans.outside, ans.script)
  }

  lemma SameChosen(spec: Spec, s: Status, a: Answers, b: Answers)
    requires ValidSpec(spec) && SameInputs(a, b)
    ensures Chosen(spec, s, a) == Chosen(spec, s, b)
  {
    hide LatestOf, Unskipped, ValidDigest;
  }

  lemma RetryWrite(spec: Spec, gen: int, s: Status, tag: Tag, data: map<string, string>, h: History, a: Answers, h': History, b: Answers)
    requires ValidAnswers(a) && ValidAnswers(b) && s == Cleared(s) && tag != "" && tag != s.lastTag
    requires WriteRelease(spec, gen, s, tag, data, h, a).history <= h'
    requires b.finalSaved && b.script[0].fault != CloneFault
    requires var cloned := RetryClone(h', b); cloned != [] && SettledAt(cloned, Tip(cloned), spec.path, spec.edit(data))
    ensures var first, second := WriteRelease(spec, gen, s, tag, data, h, a), WriteRelease(spec, gen, s, tag, data, h', b);
            && second.history == RetryClone(h', b) + b.script[0].between
            && second.written == Some(tag) && second.succeeded
            && second.stored == Written(spec, gen, s, tag, Get(data, "image_digest"), Tip(RetryClone(h', b)), b.write)
            && (first.written.Some? ==>
                  SameRelease(WriteRelease(spec, gen, s, tag, data, h, a.(finalSaved := true)).stored, second.stored))
  {
    hide ApplyRun, SettledAt;
    SettledAttempt(h' + b.outside, spec.path, spec.edit(data), b.script);
    ApplyGrows(h + a.outside, spec.path, spec.edit(data), a.script);
  }

  /**
   Retrying a forward write. A pass came to write a new release, and its status stayed as it was:
   because the update was lost, or because the push was not reported as accepted. A later pass with
   the same inputs that finds the edit in place adds no commit of its own and stores the release,
   just as the first would have stored it, with the same commit or a descendant.
   */
  lemma RetryForward(f: Fixed, e: Event, e': Event, s: Status, h: History, h': History, tag: Tag, d: Digest)
    requires Consistent(f, e) && Consistent(f, e') && e'.gen == e.gen && ValidAnswers(e.ans) && ValidAnswers(e'.ans)
    requires SameInputs(e.ans, e'.ans) && s == Cleared(s) && Chosen(e.spec, s, e.ans) == Some((tag, d)) && tag != s.lastTag
    requires var first := Forward(e.spec, e.gen, s, h, e.ans); first.stored == s && first.history <= h'
    requires e'.ans.finalSaved && e'.ans.script[0].fault != CloneFault
    requires e.spec.pattern.find(tag).Some? ==>
               var cloned := RetryClone(h', e'.ans);
               cloned != [] && SettledAt(cloned, Tip(cloned), e.spec.path, e.spec.edit(DataOf(f, e.gen, tag, d)))
    ensures e.spec.pattern.find(tag).Some?
    ensures var first := Forward(e.spec, e.gen, s, h, e.ans);
            var second := Forward(e.spec, e.gen, first.stored, h', e'.ans);
            var digest := Get(DataOf(f, e.gen, tag, d), "image_digest");
            && second.history == RetryClone(h', e'.ans) + e'.ans.script[0].between
            && second.written == Some(tag) && second.succeeded
            && second.stored == Written(e.spec, e.gen, s, tag, digest, Tip(RetryClone(h', e'.ans)), e'.ans.write)
            && (first.written.Some? ==>
                  SameRelease(Forward(e.spec, e.gen, s, h, e.ans.(finalSaved := true)).stored, second.stored))
  {
    hide Forward, WriteRelease, Chosen, DataOf, SettledAt, SameRelease, IdempotentEdits, Written, ValidDigest;
    var saved := e.(ans := e.ans.(finalSaved := true));
    ForwardWrites(f, e, s, h);
    ForwardWrites(f, e', s, h');
    ForwardWrites(f, saved, s, h);
    SameChosen(e.spec, s, e.ans, e'.ans);
    SameChosen(e.spec, s, e.ans, saved.ans);
    ChosenIsATag(e.spec, s, e.ans);
    RetryWrite(e.spec, e.gen, s, tag, DataOf(f, e.gen, tag, d), h, e.ans, h', e'.ans);
  }

  lemma ChosenIsATag(spec: Spec, s: Status, ans: Answers)
    requires ValidSpec(spec) && ValidAnswers(ans)
    ensures Chosen(spec, s, ans).Some? ==> Chosen(spec, s, ans).value.0 != ""
  {
    hide LatestOf, Unskipped, ValidDigest;
    if ans.tags.Some? {
      var latest := LatestOf(spec.pattern, Unskipped(ans.tags.value, s.skipped));
      if latest.Some? {
        LatestIsAMatch(spec.pattern, Unskipped(ans.tags.value, s.skipped));
        MatchesExactly(spec.pattern, Unskipped(ans.tags.value, s.skipped), latest.value);
        UnskippedExactly(ans.tags.value, s.skipped, latest.value.tag);
      }
    }
  }

  // ----- retrying a rollback -----

  /**
   Retrying a rollback. The previous release was written back but neither status update that
   follows was accepted; doing it again from the unchanged status adds no commit and ends in the
   same status, naming the same commit or a descendant.
   */
  lemma RetryRollback(f: Fixed, e: Event, e': Event, s: Status, h: History, h': History)
    requires Consistent(f, e) && Consistent(f, e') && e'.gen == e.gen && ValidAnswers(e.ans) && ValidAnswers(e'.ans)
    requires s.watchingTag != "" && e'.ans.release(s.previousTag) == e.ans.release(s.previousTag) && e'.ans.credentials == e.ans.credentials
    requires var first := RollbackWithStatus(e.spec, e.gen, s, h, e.ans);
             first.memory != s && s.previousTag !in ["", s.watchingTag] && !e.ans.verdictSaved && !e.ans.retrySaved && first.history <= h'
    requires e'.ans.verdictSaved && e'.ans.rollbackScript[0].fault != CloneFault
    requires e.spec.pattern.find(s.previousTag).Some? ==>
               var cloned := FirstClone(h', e'.ans.rollbackScript);
               cloned != [] && SettledAt(cloned, Tip(cloned), e.spec.path, e.spec.edit(DataOf(f, e.gen, s.previousTag, s.previousDigest)))
    ensures var first := RollbackWithStatus(e.spec, e.gen, s, h, e.ans);
            var second := RollbackWithStatus(e.spec, e.gen, first.stored, h', e'.ans);
            && first.stored == s && first.err && !second.err
            && second.history == FirstClone(h', e'.ans.rollbackScript) + e'.ans.rollbackScript[0].between
            && second.stored == second.memory && SameRelease(first.memory, second.stored)
  {
    hide ApplyRun, LatestOf, ValidDigest, SettledAt, IdempotentEdits, WithTag, ReleaseData, WithDigest;
    OnlyMatch(e.spec, s.previousTag);
    var data := DataOf(f, e.gen, s.previousTag, s.previousDigest);
    ApplyGrows(h, e.spec.path, e.spec.edit(data), e.ans.rollbackScript);
    SettledAttempt(h', e.spec.path, e.spec.edit(data), e'.ans.rollbackScript);
  }
}
