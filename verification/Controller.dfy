/** The reconciler's methods, updating the status object, the stored status and the branch step by step. */
module Controller {
  import opened Basics
  import opened Matcher
  import opened GitBranch
  import opened Rollout
  import opened Progress

  /** The in-memory object of one pass. */
  class TagUpdater {
    var lastTag: Tag
    var previousTag: Tag
    var lastDigest: Digest
    var previousDigest: Digest
    var skipped: seq<Tag>
    var watchingTag: Tag
    var watchingCommit: Revision
    var watchingArmedAt: Option<int>
    var watchingSince: Option<int>
    var lastWriteCommit: Revision
    var observedGeneration: int

    function Value(): Status
      reads this
    {
      Status(lastTag, previousTag, lastDigest, previousDigest, skipped, watchingTag, watchingCommit,
             watchingArmedAt, watchingSince, lastWriteCommit, observedGeneration)
    }

    constructor (s: Status)
      ensures Value() == s
    {
      lastTag, previousTag, lastDigest, previousDigest := s.lastTag, s.previousTag, s.lastDigest, s.previousDigest;
      skipped, watchingTag, watchingCommit := s.skipped, s.watchingTag, s.watchingCommit;
      watchingArmedAt, watchingSince := s.watchingArmedAt, s.watchingSince;
      lastWriteCommit, observedGeneration := s.lastWriteCommit, s.observedGeneration;
    }

    method ClearWatch()
      modifies this
      ensures Value() == Cleared(old(Value()))
    {
      watchingTag := "";
      watchingCommit := NoRevision;
      watchingArmedAt := None;
      watchingSince := None;
    }

    /** The watched tag failed: close the watch and skip the tag. */
    method CloseFailed(badTag: Tag)
      modifies this
      ensures Value() == Cleared(old(Value())).(skipped := WithTag(old(skipped), badTag))
    {
      ClearWatch();
      var more := AppendUnique(skipped, badTag);
      skipped := more;
    }

    /** The previous release is the recorded one again. */
    method Restore(gen: int, digest: Digest, index: nat)
      modifies this
      ensures Value() == old(Value()).(lastTag := old(previousTag), lastDigest := digest, observedGeneration := gen,
                                       lastWriteCommit := OnBranch(index))
    {
      lastTag := previousTag;
      lastDigest := digest;
      observedGeneration := gen;
      lastWriteCommit := OnBranch(index);
    }

    /** A written release becomes the recorded one; a new tag is watched. */
    method Record(spec: Spec, gen: int, tag: Tag, digest: Digest, index: nat, now: int)
      modifies this
      ensures Value() == Written(spec, gen, old(Value()), tag, digest, index, now)
    {
      if tag != lastTag {
        previousTag := lastTag;
        previousDigest := lastDigest;
        lastTag := tag;
        if spec.rollback && spec.hasApp {
          watchingTag := tag;
          watchingCommit := OnBranch(index);
          watchingSince := None;
          watchingArmedAt := Some(Stamp(now));
        }
      }
      lastDigest := digest;
      observedGeneration := gen;
      lastWriteCommit := OnBranch(index);
    }
  }

  /** Where the status is persisted. */
  class ApiServer {
    var stored: Status

    method UpdateStatus(tu: TagUpdater, saved: bool) returns (ok: bool)
      modifies this
      ensures ok == saved && stored == if saved then tu.Value() else old(stored)
    {
      if saved {
        stored := tu.Value();
      }
      ok := saved;
    }
  }

  /** Release a watch nobody observed; the tag stays, and is not skipped. */
  method AbandonWatch(tu: TagUpdater, api: ApiServer, saved: bool) returns (ok: bool)
    modifies tu, api
    ensures ok == saved && tu.Value() == Cleared(old(tu.Value()))
    ensures api.stored == if saved then tu.Value() else old(api.stored)
  {
    tu.ClearWatch();
    ok := api.UpdateStatus(tu, saved);
  }

  method Rollback(tu: TagUpdater, api: ApiServer, remote: Remote, spec: Spec, gen: int, ans: Answers) returns (err: bool)
    requires ValidSpec(spec) && ValidAnswers(ans) && tu.Value() == api.stored
    modifies tu, api, remote
    ensures Rolled(tu.Value(), api.stored, remote.history, err)
            == DoRollback(spec, gen, old(tu.Value()), old(remote.history), ans)
  {
    hide ApplyRun, LatestOf, ValidDigest, WithTag, ReleaseData, Matches;
    var badTag, previousTag := tu.watchingTag, tu.previousTag;
    if previousTag == "" || previousTag == badTag {
      tu.CloseFailed(badTag);
      var ok := api.UpdateStatus(tu, ans.verdictSaved);
      return !ok;
    }
    var previous := Latest(spec.pattern, [previousTag]);
    if previous.None? {
      return true;
    }
    var extra := ans.release(previousTag);
    if extra.None? {
      return true;
    }
    var data := ReleaseData(spec, previous.value, extra.value);
    if spec.resolveDigest {
      if !ValidDigest(tu.previousDigest) {
        return true;
      }
      data := data["image_digest" := tu.previousDigest];
    }
    if !ans.credentials {
      return true;
    }
    var result := remote.Apply(spec.path, spec.edit(data), ans.rollbackScript);
    if result.Failed? {
      return true;
    }
    tu.Restore(gen, Get(data, "image_digest"), result.index);
    tu.CloseFailed(badTag);
    var ok := api.UpdateStatus(tu, ans.verdictSaved);
    return !ok;
  }

  method RollbackReported(tu: TagUpdater, api: ApiServer, remote: Remote, spec: Spec, gen: int, ans: Answers) returns (err: bool)
    requires ValidSpec(spec) && ValidAnswers(ans) && tu.Value() == api.stored
    modifies tu, api, remote
    ensures Rolled(tu.Value(), api.stored, remote.history, err)
            == RollbackWithStatus(spec, gen, old(tu.Value()), old(remote.history), ans)
  {
    err := Rollback(tu, api, remote, spec, gen, ans);
    if err {
      var ignored := api.UpdateStatus(tu, ans.retrySaved);
    }
  }

  method CheckHealthAndMaybeRollback(tu: TagUpdater, api: ApiServer, remote: Remote, spec: Spec, gen: int, ans: Answers)
    returns (verdict: Verdict)
    requires ValidSpec(spec) && ValidAnswers(ans) && tu.Value() == api.stored
    modifies tu, api, remote
    ensures Checked(tu.Value(), api.stored, remote.history, verdict)
            == Check(spec, gen, old(tu.Value()), old(remote.history), ans)
  {
    hide DoRollback, RollbackWithStatus, Observes;
    if ans.revision.None? {
      return Wait;
    }
    if tu.watchingSince.None? {
      var observed := CheckObserves(ans.revision.value, tu.watchingCommit, tu.watchingArmedAt);
      if !observed {
        if DeadlineExceeded(spec, tu.Value(), ans.check) {
          var ok := AbandonWatch(tu, api, ans.verdictSaved);
          return if ok then Closed else Abort;
        }
        return Wait;
      }
      tu.watchingSince := Some(Stamp(ans.check));
      var ok := api.UpdateStatus(tu, ans.observedSaved);
      if !ok {
        return Abort;
      }
    }
    if ans.app.None? {
      return Wait;
    }
    var state := ans.app.value;
    if state.health == Healthy {
      tu.ClearWatch();
      tu.skipped := [];
      var ok := api.UpdateStatus(tu, ans.verdictSaved);
      return if ok then Closed else Abort;
    }
    if state.health == Degraded && !state.syncInFlight {
      var err := RollbackReported(tu, api, remote, spec, gen, ans);
      return if err then Abort else Closed;
    }
    if ans.health - tu.watchingSince.value >= RollbackTimeout(spec) {
      var err := RollbackReported(tu, api, remote, spec, gen, ans);
      return if err then Abort else Closed;
    }
    return Wait;
  }

  /** From the selected release to the stored status. */
  method WriteTag(tu: TagUpdater, api: ApiServer, remote: Remote, spec: Spec, gen: int, tag: Tag,
                  data: map<string, string>, ans: Answers) returns (succeeded: bool)
    requires ValidAnswers(ans) && tu.Value() == api.stored
    modifies tu, api, remote
    ensures var p := WriteRelease(spec, gen, old(tu.Value()), tag, data, old(remote.history), ans);
            api.stored == p.stored && remote.history == p.history && succeeded == p.succeeded
  {
    hide ApplyRun, Written;
    var digest := Get(data, "image_digest");
    remote.Interfere(ans.outside);
    if MayShortcut(spec, gen, tu.Value(), tag, digest) {
      if ans.headRead && remote.history != [] && WriteBackCurrent(tag, tu.Value(), OnBranch(|remote.history| - 1)) {
        var ok := api.UpdateStatus(tu, ans.finalSaved);
        return ok;
      }
    }
    var result := remote.Apply(spec.path, spec.edit(data), ans.script);
    if result.Failed? {
      return false;
    }
    tu.Record(spec, gen, tag, digest, result.index, ans.write);
    succeeded := api.UpdateStatus(tu, ans.finalSaved);
  }

  method ForwardPath(tu: TagUpdater, api: ApiServer, remote: Remote, spec: Spec, gen: int, ans: Answers) returns (succeeded: bool)
    requires ValidSpec(spec) && ValidAnswers(ans) && tu.Value() == api.stored
    modifies tu, api, remote
    ensures var p := Forward(spec, gen, old(tu.Value()), old(remote.history), ans);
            api.stored == p.stored && remote.history == p.history && succeeded == p.succeeded
  {
    hide WriteRelease, LatestOf, Unskipped, ValidDigest;
    if !spec.writeBackValid || !ans.ownershipOk || ans.tags.None? {
      return false;
    }
    var candidates := FilterSkipped(ans.tags.value, tu.skipped);
    var latest := Latest(spec.pattern, candidates);
    if latest.None? {
      var ok := api.UpdateStatus(tu, ans.finalSaved);
      return ok;
    }
    var tag := latest.value.tag;
    var extra := ans.release(tag);
    if extra.None? {
      return false;
    }
    var data := ReleaseData(spec, latest.value, extra.value);
    if spec.resolveDigest {
      var resolved := ans.digest(tag);
      if resolved.None? {
        return false;
      }
      data := data["image_digest" := resolved.value];
    }
    if spec.resolveDigest && tag == tu.lastTag && ValidDigest(tu.lastDigest) && tu.lastDigest != Get(data, "image_digest") {
      var ignored := api.UpdateStatus(tu, ans.finalSaved);
      return false;
    }
    if !ans.credentials {
      return false;
    }
    succeeded := WriteTag(tu, api, remote, spec, gen, tag, data, ans);
  }

  /**
   One reconcile pass over the stored status and the branch. The tracker hears of the attempt
   first, and of a success exactly when the pass made progress.
   */
  method Reconcile(api: ApiServer, remote: Remote, tracker: ProgressTracker, key: string, interval: int,
                   spec: Spec, gen: int, ans: Answers) returns (succeeded: bool)
    requires ValidSpec(spec) && ValidAnswers(ans) && tracker.Valid()
    modifies api, remote, tracker
    ensures var p := Pass(spec, gen, old(api.stored), old(remote.history), ans);
            && api.stored == p.stored && remote.history == p.history && succeeded == p.succeeded
            && tracker.Valid()
            && tracker.trace == old(tracker.trace) + [Attempted(key, interval, ans.check)]
                                + if p.succeeded then [Progress.Succeeded(key, ans.write)] else []
  {
    hide Check, Forward;
    var tu := new TagUpdater(api.stored);
    tracker.Attempt(key, interval, ans.check);
    if (spec.resolveDigest && !spec.sourceIsGit) || (spec.rollback && !spec.hasApp) {
      return false;
    }
    if spec.rollback && tu.watchingTag != "" {
      var verdict := CheckHealthAndMaybeRollback(tu, api, remote, spec, gen, ans);
      if verdict == Abort {
        return false;
      }
      if verdict == Wait {
        if tu.watchingSince.Some? {
          tracker.Success(key, ans.write);
          return true;
        }
        return false;
      }
      ClosedIsStored(spec, gen, old(api.stored), old(remote.history), ans);
    }
    succeeded := ForwardPath(tu, api, remote, spec, gen, ans);
    if succeeded {
      tracker.Success(key, ans.write);
    }
  }

  /** A pass that goes on after a closed watch goes on with what is stored. */
  lemma ClosedIsStored(spec: Spec, gen: int, s: Status, h: History, ans: Answers)
    requires ValidSpec(spec) && ValidAnswers(ans)
    ensures var c := Check(spec, gen, s, h, ans); c.verdict == Closed ==> c.stored == c.memory
  {
    hide ApplyRun, LatestOf, Observes;
  }
}
