/**
 One reconcile pass: pick the newest tag that is not skipped, write it to the branch, arm a health
 watch; on later passes observe, clear, abandon or roll back. Everything the cluster, the clock,
 the tag source and the other writers do during a pass is an argument of the pass.
 */
module Rollout {
  import opened Basics
  import opened Matcher
  import opened GitBranch

  type Tag = string
  type Digest = string

  // ----- configuration, status and answers -----

  /** A commit as the status and ArgoCD name it. */
  datatype Revision = NoRevision | OnBranch(index: nat) | Foreign(name: string)

  /** edit renders the targets' templates with the release data and applies them to a manifest. */
  datatype Spec = Spec(sourceIsGit: bool, resolveDigest: bool, rollback: bool, hasApp: bool, timeout: int,
                       writeBackValid: bool, path: string, pattern: Pattern, repoFields: map<string, string>,
                       edit: map<string, string> -> Edit)

  ghost predicate ValidSpec(spec: Spec) {
    ValidPattern(spec.pattern)
  }

  datatype Status = Status(lastTag: Tag, previousTag: Tag, lastDigest: Digest, previousDigest: Digest,
                           skipped: seq<Tag>, watchingTag: Tag, watchingCommit: Revision,
                           watchingArmedAt: Option<int>, watchingSince: Option<int>,
                           lastWriteCommit: Revision, observedGeneration: int)

  const EMPTY := Status("", "", "", "", [], "", NoRevision, None, None, NoRevision, 0)

  datatype Health = Healthy | Degraded | OtherHealth

  /** A rollout ArgoCD retains; startedAt is None when the timestamp is absent or malformed. */
  datatype Deployment = Deployment(revisions: seq<Revision>, startedAt: Option<int>)

  datatype AppState = AppState(revision: Revision, revisions: seq<Revision>, deployments: seq<Deployment>,
                               health: Health, syncInFlight: bool)

  /**
   What one pass meets. check, health and write are the clock where the deadline or observation is
   judged, where the health timeout is judged, and where the write is stamped. The four saved
   flags say which status updates the API server accepts. outside is what others push before the
   remote head is read; the scripts are what they do during the two possible Applies.
   */
  datatype Answers = Answers(
    check: int, health: int, write: int,
    revision: Option<AppState>, app: Option<AppState>,
    observedSaved: bool, verdictSaved: bool, retrySaved: bool, finalSaved: bool,
    ownershipOk: bool, tags: Option<seq<Tag>>, release: Tag -> Option<map<string, string>>, digest: Tag -> Option<Digest>,
    credentials: bool, headRead: bool, outside: seq<Commit>, script: seq<Attempt>, rollbackScript: seq<Attempt>)

  predicate ValidAnswers(ans: Answers) {
    && |ans.script| == ATTEMPTS && |ans.rollbackScript| == ATTEMPTS
    && ans.check <= ans.health <= ans.write
    && (ans.tags.Some? ==> "" !in ans.tags.value)
  }

  const DEFAULT_ROLLBACK_TIMEOUT := 20 * 60 * SECOND

  /** Times in the status are serialised as whole seconds. */
  function Stamp(t: int): (r: int)
    ensures t - SECOND < r <= t && r % SECOND == 0
  {
    t - t % SECOND
  }

  function RollbackTimeout(spec: Spec): int {
    if spec.timeout > 0 then spec.timeout else DEFAULT_ROLLBACK_TIMEOUT
  }

  // ----- small helpers of the controller -----

  predicate IsLowerHex(c: char) {
    '0' <= c <= '9' || 'a' <= c <= 'f'
  }

  predicate ValidDigest(d: Digest) {
    |d| == 71 && d[..7] == "sha256:" && forall i :: 7 <= i < 71 ==> IsLowerHex(d[i])
  }

  function Unskipped(tags: seq<Tag>, skipped: seq<Tag>): seq<Tag> {
    if tags == [] then []
    else
      var last := |tags| - 1;
      Unskipped(tags[..last], skipped) + if tags[last] in skipped then [] else [tags[last]]
  }

  method FilterSkipped(tags: seq<Tag>, skipped: seq<Tag>) returns (filtered: seq<Tag>)
    ensures filtered == Unskipped(tags, skipped)
  {
    if |skipped| == 0 {
      UnskippedNothing(tags);
      return tags;
    }
    var excluded: set<Tag> := {};
    for i := 0 to |skipped|
      invariant forall t :: t in excluded <==> t in skipped[..i]
    {
      excluded := excluded + {skipped[i]};
    }
    assert skipped[..|skipped|] == skipped;
    filtered := [];
    for i := 0 to |tags|
      invariant filtered == Unskipped(tags[..i], skipped)
    {
      assert tags[..i + 1][..i] == tags[..i];
      if tags[i] !in excluded {
        filtered := filtered + [tags[i]];
      }
    }
    assert tags[..|tags|] == tags;
  }

  lemma {:induction false} UnskippedNothing(tags: seq<Tag>)
    ensures Unskipped(tags, []) == tags
  {
    if tags != [] { UnskippedNothing(tags[..|tags| - 1]); }
  }

  lemma {:induction false} UnskippedExactly(tags: seq<Tag>, skipped: seq<Tag>, t: Tag)
    ensures t in Unskipped(tags, skipped) <==> t in tags && t !in skipped
  {
    if tags != [] {
      UnskippedExactly(tags[..|tags| - 1], skipped, t);
      assert tags == tags[..|tags| - 1] + [tags[|tags| - 1]];
    }
  }

  function WithTag(skipped: seq<Tag>, t: Tag): seq<Tag> {
    if t in skipped then skipped else skipped + [t]
  }

  method AppendUnique(values: seq<Tag>, value: Tag) returns (r: seq<Tag>)
    ensures r == WithTag(values, value)
  {
    for i := 0 to |values|
      invariant value !in values[..i]
    {
      if values[i] == value {
        return values;
      }
    }
    assert values[..|values|] == values;
    return values + [value];
  }

  // ----- observation -----

  predicate Names(state: AppState, commit: Revision) {
    || state.revision == commit
    || commit in state.revisions
    || exists i :: 0 <= i < |state.deployments| && commit in state.deployments[i].revisions
  }

  predicate StartedAfter(d: Deployment, t: int) {
    d.startedAt.Some? && d.startedAt.value > t
  }

  predicate Observes(state: AppState, commit: Revision, pushedAt: Option<int>) {
    && commit != NoRevision
    && (|| Names(state, commit)
        || (pushedAt.Some? && exists i :: 0 <= i < |state.deployments| && StartedAfter(state.deployments[i], pushedAt.value)))
  }

  method CheckObserves(state: AppState, commit: Revision, pushedAt: Option<int>) returns (r: bool)
    ensures r == Observes(state, commit, pushedAt)
  {
    if commit == NoRevision {
      return false;
    }
    if state.revision == commit {
      return true;
    }
    for i := 0 to |state.revisions|
      invariant commit !in state.revisions[..i]
    {
      if state.revisions[i] == commit {
        return true;
      }
    }
    assert state.revisions[..|state.revisions|] == state.revisions;
    for i := 0 to |state.deployments|
      invariant forall j :: 0 <= j < i ==> commit !in state.deployments[j].revisions
    {
      var revisions := state.deployments[i].revisions;
      for j := 0 to |revisions|
        invariant commit !in revisions[..j]
      {
        if revisions[j] == commit {
          return true;
        }
      }
      assert revisions[..|revisions|] == revisions;
    }
    if pushedAt == None {
      return false;
    }
    for i := 0 to |state.deployments|
      invariant forall j :: 0 <= j < i ==> !StartedAfter(state.deployments[j], pushedAt.value)
    {
      if StartedAfter(state.deployments[i], pushedAt.value) {
        return true;
      }
    }
    return false;
  }

  // ----- the specification of a pass -----

  function Cleared(s: Status): Status {
    s.(watchingTag := "", watchingCommit := NoRevision, watchingArmedAt := None, watchingSince := None)
  }

  function ReleaseData(spec: Spec, m: Match, extra: map<string, string>): map<string, string> {
    m.captures["tag" := m.tag] + spec.repoFields + extra
  }

  function WithDigest(spec: Spec, data: map<string, string>, d: Digest): map<string, string> {
    if spec.resolveDigest then data["image_digest" := d] else data
  }

  /** err: the pass ends here; memory is the object the caller still holds. */
  datatype Rolled = Rolled(memory: Status, stored: Status, history: History, err: bool)

  function RolledBack(s: Status, gen: int, digest: Digest, k: nat): Status {
    Cleared(s).(lastTag := s.previousTag, lastDigest := digest, observedGeneration := gen,
                lastWriteCommit := OnBranch(k), skipped := WithTag(s.skipped, s.watchingTag))
  }

  function GiveUpTag(s: Status): Status {
    Cleared(s).(skipped := WithTag(s.skipped, s.watchingTag))
  }

  function DoRollback(spec: Spec, gen: int, s: Status, h: History, ans: Answers): Rolled
    requires forall t :: spec.pattern.find(t).Some? ==> |spec.pattern.find(t).value| == |spec.pattern.names|
    requires |ans.rollbackScript| == ATTEMPTS
  {
    if s.previousTag == "" || s.previousTag == s.watchingTag then
      var m := GiveUpTag(s);
      Rolled(m, if ans.verdictSaved then m else s, h, !ans.verdictSaved)
    else
      var previous := LatestOf(spec.pattern, [s.previousTag]);
      if previous.None? || ans.release(s.previousTag).None? then Rolled(s, s, h, true)
      else if spec.resolveDigest && !ValidDigest(s.previousDigest) then Rolled(s, s, h, true)
      else if !ans.credentials then Rolled(s, s, h, true)
      else
        var data := WithDigest(spec, ReleaseData(spec, previous.value, ans.release(s.previousTag).value), s.previousDigest);
        match ApplyRun(h, spec.path, spec.edit(data), ans.rollbackScript, 0)
        case (h', Failed(_)) => Rolled(s, s, h', true)
        case (h', Applied(_, k)) =>
          var m := RolledBack(s, gen, Get(data, "image_digest"), k);
          Rolled(m, if ans.verdictSaved then m else s, h', !ans.verdictSaved)
  }

  /** A failed rollback is reported by another status update, which saves what the object holds by then. */
  function RollbackWithStatus(spec: Spec, gen: int, s: Status, h: History, ans: Answers): Rolled
    requires forall t :: spec.pattern.find(t).Some? ==> |spec.pattern.find(t).value| == |spec.pattern.names|
    requires |ans.rollbackScript| == ATTEMPTS
  {
    var r := DoRollback(spec, gen, s, h, ans);
    if r.err && ans.retrySaved then r.(stored := r.memory) else r
  }

  datatype Verdict = Wait | Closed | Abort

  datatype Checked = Checked(memory: Status, stored: Status, history: History, verdict: Verdict)

  function DeadlineExceeded(spec: Spec, s: Status, now: int): bool {
    s.watchingArmedAt.Some? && now - s.watchingArmedAt.value >= RollbackTimeout(spec)
  }

  function Check(spec: Spec, gen: int, s: Status, h: History, ans: Answers): Checked
    requires forall t :: spec.pattern.find(t).Some? ==> |spec.pattern.find(t).value| == |spec.pattern.names|
    requires |ans.rollbackScript| == ATTEMPTS
  {
    if ans.revision.None? then Checked(s, s, h, Wait)
    else if s.watchingSince.Some? then CheckHealth(spec, gen, s, s.watchingSince.value, h, ans)
    else if !Observes(ans.revision.value, s.watchingCommit, s.watchingArmedAt) then
      if !DeadlineExceeded(spec, s, ans.check) then Checked(s, s, h, Wait)
      else if ans.verdictSaved then Checked(Cleared(s), Cleared(s), h, Closed)
      else Checked(Cleared(s), s, h, Abort)
    else
      var s' := s.(watchingSince := Some(Stamp(ans.check)));
      if !ans.observedSaved then Checked(s', s, h, Abort)
      else CheckHealth(spec, gen, s', Stamp(ans.check), h, ans)
  }

  function CheckHealth(spec: Spec, gen: int, s: Status, since: int, h: History, ans: Answers): Checked
    requires forall t :: spec.pattern.find(t).Some? ==> |spec.pattern.find(t).value| == |spec.pattern.names|
    requires |ans.rollbackScript| == ATTEMPTS
  {
    if ans.app.None? then Checked(s, s, h, Wait)
    else if ans.app.value.health == Healthy then
      var m := Cleared(s).(skipped := []);
      if ans.verdictSaved then Checked(m, m, h, Closed) else Checked(m, s, h, Abort)
    else if (ans.app.value.health == Degraded && !ans.app.value.syncInFlight) || ans.health - since >= RollbackTimeout(spec) then
      var r := RollbackWithStatus(spec, gen, s, h, ans);
      Checked(r.memory, r.stored, r.history, if r.err then Abort else Closed)
    else Checked(s, s, h, Wait)
  }

  /** written is the tag of a forward write that changed the release. */
  datatype Passed = Passed(stored: Status, history: History, succeeded: bool, written: Option<Tag>)

  function Written(spec: Spec, gen: int, s: Status, tag: Tag, digest: Digest, k: nat, now: int): Status {
    var rotated :=
      if tag == s.lastTag then s
      else
        var r := s.(previousTag := s.lastTag, previousDigest := s.lastDigest, lastTag := tag);
        if spec.rollback && spec.hasApp then
          r.(watchingTag := tag, watchingCommit := OnBranch(k), watchingSince := None, watchingArmedAt := Some(Stamp(now)))
        else r;
    rotated.(lastDigest := digest, observedGeneration := gen, lastWriteCommit := OnBranch(k))
  }

  predicate WriteBackCurrent(tag: Tag, s: Status, head: Revision) {
    tag == s.lastTag && s.lastWriteCommit != NoRevision && head == s.lastWriteCommit
  }

  /** The guard of the remote-head shortcut, before the head itself is read. */
  predicate MayShortcut(spec: Spec, gen: int, s: Status, tag: Tag, digest: Digest) {
    && tag == s.lastTag && s.lastWriteCommit != NoRevision && s.observedGeneration == gen
    && (!spec.resolveDigest || s.lastDigest == digest)
  }

  /** The part of the forward path that writes: shortcut, or Apply and the new status. */
  function WriteRelease(spec: Spec, gen: int, s: Status, tag: Tag, data: map<string, string>, h: History, ans: Answers): Passed
    requires |ans.script| == ATTEMPTS
  {
    var digest := Get(data, "image_digest");
    var h1 := h + ans.outside;
    if MayShortcut(spec, gen, s, tag, digest) && ans.headRead && h1 != [] && WriteBackCurrent(tag, s, OnBranch(Tip(h1))) then
      Passed(s, h1, ans.finalSaved, None)
    else
      match ApplyRun(h1, spec.path, spec.edit(data), ans.script, 0)
      case (h2, Failed(_)) => Passed(s, h2, false, None)
      case (h2, Applied(_, k)) =>
        var s' := Written(spec, gen, s, tag, digest, k, ans.write);
        Passed(if ans.finalSaved then s' else s, h2, ans.finalSaved, if tag != s.lastTag then Some(tag) else None)
  }

  function Forward(spec: Spec, gen: int, s: Status, h: History, ans: Answers): Passed
    requires forall t :: spec.pattern.find(t).Some? ==> |spec.pattern.find(t).value| == |spec.pattern.names|
    requires |ans.script| == ATTEMPTS
  {
    if !spec.writeBackValid || !ans.ownershipOk || ans.tags.None? then Passed(s, h, false, None)
    else
      match LatestOf(spec.pattern, Unskipped(ans.tags.value, s.skipped))
      case None => Passed(s, h, ans.finalSaved, None)
      case Some(latest) =>
        if ans.release(latest.tag).None? then Passed(s, h, false, None)
        else if spec.resolveDigest && ans.digest(latest.tag).None? then Passed(s, h, false, None)
        else
          var digest := if spec.resolveDigest then ans.digest(latest.tag).value else "";
          var data := WithDigest(spec, ReleaseData(spec, latest, ans.release(latest.tag).value), digest);
          if spec.resolveDigest && latest.tag == s.lastTag && ValidDigest(s.lastDigest) && s.lastDigest != digest then
            Passed(s, h, false, None)
          else if !ans.credentials then Passed(s, h, false, None)
          else WriteRelease(spec, gen, s, latest.tag, data, h, ans)
  }

  /** The status object and branch the forward path starts from, when the pass gets that far. */
  function ForwardEntry(spec: Spec, gen: int, s: Status, h: History, ans: Answers): Option<(Status, History)>
    requires forall t :: spec.pattern.find(t).Some? ==> |spec.pattern.find(t).value| == |spec.pattern.names|
    requires |ans.rollbackScript| == ATTEMPTS
  {
    if spec.resolveDigest && !spec.sourceIsGit then None
    else if spec.rollback && !spec.hasApp then None
    else if spec.rollback && s.watchingTag != "" then
      var c := Check(spec, gen, s, h, ans);
      if c.verdict == Closed then Some((c.memory, c.history)) else None
    else Some((s, h))
  }

  function Pass(spec: Spec, gen: int, s: Status, h: History, ans: Answers): Passed
    requires forall t :: spec.pattern.find(t).Some? ==> |spec.pattern.find(t).value| == |spec.pattern.names|
    requires |ans.script| == ATTEMPTS && |ans.rollbackScript| == ATTEMPTS
  {
    match ForwardEntry(spec, gen, s, h, ans)
    case Some((m, h')) => Forward(spec, gen, m, h', ans)
    case None =>
      if (spec.resolveDigest && !spec.sourceIsGit) || (spec.rollback && !spec.hasApp) then Passed(s, h, false, None)
      else
        var c := Check(spec, gen, s, h, ans);
        Passed(c.stored, c.history, c.verdict == Wait && c.memory.watchingSince.Some?, None)
  }
}
