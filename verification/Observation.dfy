/**
 What an "observed" answer means. ArgoCD's retained rollouts are read from the Application; a
 rollout that started after the push necessarily carries the commit, because the branch only
 fast-forwards. How much of that survives depends on what the timestamps really report.
 */
module Observation {
  import opened Basics
  import opened Rollout

  // ----- reading the Application -----

  datatype RawTime = Absent | Malformed | At(time: int)

  datatype HistoryEntry = HistoryEntry(revision: Revision, revisions: seq<Revision>, deployStartedAt: RawTime, deployedAt: RawTime)

  datatype Operation = Operation(succeeded: bool, revision: Revision, revisions: seq<Revision>, startedAt: RawTime)

  /** None is a history item that is not an object. */
  datatype App = App(history: seq<Option<HistoryEntry>>, operation: Operation)

  function RevisionsOf(revisions: seq<Revision>, revision: Revision): seq<Revision> {
    if revision == NoRevision then revisions else revisions + [revision]
  }

  function ParseTimestamp(raw: RawTime): Option<int> {
    if raw.At? then Some(raw.time) else None
  }

  function Started(e: HistoryEntry): Option<int> {
    ParseTimestamp(if e.deployStartedAt == Absent then e.deployedAt else e.deployStartedAt)
  }

  predicate Retained(item: Option<HistoryEntry>) {
    item.Some? && RevisionsOf(item.value.revisions, item.value.revision) != []
  }

  function HistoryDeployments(history: seq<Option<HistoryEntry>>): seq<Deployment> {
    if history == [] then []
    else
      var last := history[|history| - 1];
      HistoryDeployments(history[..|history| - 1]) +
        if Retained(last) then [Deployment(RevisionsOf(last.value.revisions, last.value.revision), Started(last.value))] else []
  }

  function OperationDeployments(o: Operation): seq<Deployment> {
    if o.succeeded && RevisionsOf(o.revisions, o.revision) != []
    then [Deployment(RevisionsOf(o.revisions, o.revision), ParseTimestamp(o.startedAt))] else []
  }

  method DeploymentsFrom(app: App) returns (deployments: seq<Deployment>)
    ensures deployments == HistoryDeployments(app.history) + OperationDeployments(app.operation)
  {
    deployments := [];
    for i := 0 to |app.history|
      invariant deployments == HistoryDeployments(app.history[..i])
    {
      assert app.history[..i + 1][..i] == app.history[..i];
      if app.history[i].Some? {
        var entry := app.history[i].value;
        var revisions := RevisionsOf(entry.revisions, entry.revision);
        if revisions != [] {
          var started := entry.deployStartedAt;
          if started == Absent {
            started := entry.deployedAt;
          }
          deployments := deployments + [Deployment(revisions, ParseTimestamp(started))];
        }
      }
    }
    assert app.history[..|app.history|] == app.history;
    if app.operation.succeeded {
      var revisions := RevisionsOf(app.operation.revisions, app.operation.revision);
      if revisions != [] {
        deployments := deployments + [Deployment(revisions, ParseTimestamp(app.operation.startedAt))];
      }
    }
  }

  /** Exactly the retained items and the finished operation are there, each with its start. */
  lemma {:induction false} DeploymentsAre(history: seq<Option<HistoryEntry>>, d: Deployment)
    ensures d in HistoryDeployments(history) <==>
            exists i :: 0 <= i < |history| && Retained(history[i])
                        && d == Deployment(RevisionsOf(history[i].value.revisions, history[i].value.revision), Started(history[i].value))
  {
    if history != [] {
      var n := |history| - 1;
      DeploymentsAre(history[..n], d);
      assert forall i :: 0 <= i < n ==> history[..n][i] == history[i];
    }
  }

  // ----- the branch, the rollouts, and what is reported of them -----

  /** Push times along the branch, oldest first. */
  predicate FastForward(pushes: seq<int>) {
    forall i, j :: 0 <= i < j < |pushes| ==> pushes[i] <= pushes[j]
  }

  /** How many commits the branch has at time t. */
  function LengthAt(pushes: seq<int>, t: int): (n: nat)
    ensures n <= |pushes|
  {
    if pushes == [] then 0
    else if pushes[|pushes| - 1] <= t then |pushes|
    else LengthAt(pushes[..|pushes| - 1], t)
  }

  lemma {:induction false} LengthAtCounts(pushes: seq<int>, t: int, i: nat)
    requires FastForward(pushes) && i < |pushes|
    ensures i < LengthAt(pushes, t) <==> pushes[i] <= t
  {
    var n := |pushes| - 1;
    if pushes[n] > t {
      if i < n { LengthAtCounts(pushes[..n], t, i); }
    }
  }

  lemma LengthAtGrows(pushes: seq<int>, t: int, u: int)
    requires FastForward(pushes) && t <= u
    ensures LengthAt(pushes, t) <= LengthAt(pushes, u)
  {
    if LengthAt(pushes, t) > 0 {
      LengthAtCounts(pushes, t, LengthAt(pushes, t) - 1);
      LengthAtCounts(pushes, u, LengthAt(pushes, t) - 1);
    }
  }

  /** A rollout: when it started and finished, and when the head it deploys was resolved. */
  datatype Truth = Truth(start: int, finish: int, resolved: int)

  /** The head was resolved no earlier than delta before the start. */
  predicate Fresh(r: Truth, delta: int) {
    r.start - delta <= r.resolved && r.start <= r.finish
  }

  /** The entry's timestamps are those of the rollout, in whole seconds as ArgoCD serialises them. */
  predicate Reports(e: HistoryEntry, r: Truth) {
    && (e.deployStartedAt.At? ==> e.deployStartedAt.time == Stamp(r.start))
    && (e.deployedAt.At? ==> e.deployedAt.time == Stamp(r.finish))
  }

  predicate Carries(pushes: seq<int>, r: Truth, c: nat) {
    c < LengthAt(pushes, r.resolved)
  }

  /** A start reported in whole seconds that is past the stored push time is really past the push. */
  lemma StampOrders(start: int, write: int)
    requires Stamp(start) > Stamp(write)
    ensures start > write
  {
    var a, b := start / SECOND, write / SECOND;
    assert Stamp(start) == a * SECOND && Stamp(write) == b * SECOND;
  }

  // ----- soundness -----

  /** The retained rollouts of the history, item by item, as they really were. */
  ghost predicate Faithful(history: seq<Option<HistoryEntry>>, truths: seq<Truth>, delta: int) {
    && |truths| == |history|
    && forall i :: 0 <= i < |history| && Retained(history[i]) ==>
         Fresh(truths[i], delta) && Reports(history[i].value, truths[i]) && history[i].value.deployStartedAt != Absent
  }

  /**
   Soundness: a commit pushed by the time write and observed is either named by ArgoCD, or some
   retained rollout deployed at least the branch as it was delta before the push. With heads
   resolved at the start, that rollout contains the commit.
   */
  lemma ObservedIsSound(state: AppState, app: App, truths: seq<Truth>, running: Truth, delta: int,
                        pushes: seq<int>, c: nat, write: int)
    requires state.deployments == HistoryDeployments(app.history) + OperationDeployments(app.operation)
    requires Faithful(app.history, truths, delta)
    requires Fresh(running, delta) && (app.operation.startedAt.At? ==> app.operation.startedAt.time == Stamp(running.start))
    requires FastForward(pushes) && c < |pushes| && pushes[c] <= write
    requires Observes(state, OnBranch(c), Some(Stamp(write)))
    ensures || Names(state, OnBranch(c))
            || (exists r :: r in truths + [running] && LengthAt(pushes, write - delta) <= LengthAt(pushes, r.resolved)
                            && (delta == 0 ==> Carries(pushes, r, c)))
  {
    if !Names(state, OnBranch(c)) {
      var k :| 0 <= k < |state.deployments| && StartedAfter(state.deployments[k], Stamp(write));
      var d := state.deployments[k];
      if d in HistoryDeployments(app.history) {
        DeploymentsAre(app.history, d);
        var i :| 0 <= i < |app.history| && Retained(app.history[i])
                 && d == Deployment(RevisionsOf(app.history[i].value.revisions, app.history[i].value.revision), Started(app.history[i].value));
        StartedCarries(truths[i], delta, pushes, c, write);
        assert truths[i] in truths + [running];
      } else {
        StartedCarries(running, delta, pushes, c, write);
        assert running in truths + [running];
      }
    }
  }

  lemma StartedCarries(r: Truth, delta: int, pushes: seq<int>, c: nat, write: int)
    requires Fresh(r, delta) && Stamp(r.start) > Stamp(write)
    requires FastForward(pushes) && c < |pushes| && pushes[c] <= write
    ensures LengthAt(pushes, write - delta) <= LengthAt(pushes, r.resolved)
    ensures delta == 0 ==> Carries(pushes, r, c)
  {
    StampOrders(r.start, write);
    LengthAtGrows(pushes, write - delta, r.resolved);
    LengthAtCounts(pushes, r.resolved, c);
  }

  /** Retaining more rollouts never turns an observed commit into an unobserved one. */
  lemma MoreRolloutsKeep(state: AppState, more: AppState, commit: Revision, pushedAt: Option<int>)
    requires more.revision == state.revision && (forall r :: r in state.revisions ==> r in more.revisions)
    requires forall d :: d in state.deployments ==> d in more.deployments
    requires Observes(state, commit, pushedAt)
    ensures Observes(more, commit, pushedAt)
  {
    forall i | 0 <= i < |state.deployments|
      ensures exists j :: 0 <= j < |more.deployments| && more.deployments[j] == state.deployments[i]
    {
      assert state.deployments[i] in more.deployments;
    }
  }

  // ----- where the timestamps stop being enough -----

  /** A start past the stored push time is past the push itself. */
  predicate OrderedBy(start: int, write: int) {
    start > Stamp(write) ==> start > write
  }

  /**
   Whole seconds on both sides are what makes the comparison safe: for a start reported exactly,
   being past the stored push time means being past the push only if that fell on a whole second.
   */
  lemma FractionalStarts(write: int)
    ensures (forall start: int :: OrderedBy(start, write)) <==> write == Stamp(write)
  {
    assert OrderedBy(write, write) ==> write == Stamp(write);
  }

  /**
   An entry whose recorded time is past the push proves that its rollout contains the commit,
   whatever really happened, exactly when that time is the start: without one the finish stands
   in for it, and a rollout that was already running when the commit landed is accepted too.
   */
  lemma OnlyStartsProve(e: HistoryEntry, pushes: seq<int>, c: nat, write: int)
    requires FastForward(pushes) && c < |pushes| && pushes[c] <= write
    requires StartedAfter(Deployment(RevisionsOf(e.revisions, e.revision), Started(e)), Stamp(write))
    requires e.deployedAt.At? ==> e.deployedAt.time % SECOND == 0
    ensures (forall r: Truth :: Fresh(r, 0) && Reports(e, r) ==> Carries(pushes, r, c)) <==> e.deployStartedAt != Absent
  {
    if e.deployStartedAt == Absent {
      var finish := e.deployedAt.time;
      StampOrders(finish, write);
      var r := Truth(pushes[c] - 1, finish, pushes[c] - 1);
      LengthAtCounts(pushes, pushes[c] - 1, c);
      assert Fresh(r, 0) && Reports(e, r) && !Carries(pushes, r, c);
    } else {
      forall r: Truth | Fresh(r, 0) && Reports(e, r) ensures Carries(pushes, r, c) {
        StartedCarries(r, 0, pushes, c, write);
      }
    }
  }
}
