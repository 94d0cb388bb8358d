/**
 The two models of Apply agree: whatever one call does as a whole, against a script of what the
 others push meanwhile, is a run of the step machine in which only outside pushes and the call's
 own steps occur.
 */
module ApplySteps {
  import opened GitBranch
  import opened MultiWriter

  lemma {:induction false} RunConcat(s: System, a: seq<Event>, b: seq<Event>)
    ensures Run(s, a + b) == Run(Run(s, a), b)
  {
    hide Step;
    if b == [] {
      assert a + b == a;
    } else {
      var last := |b| - 1;
      assert (a + b)[..|a + b| - 1] == a + b[..last];
      RunConcat(s, a, b[..last]);
    }
  }

  lemma RunOne(s: System, e: Event)
    ensures Run(s, [e]) == Step(s, e)
  {
    hide Step;
    assert [e][..0] == [];
    assert Run(s, []) == s;
  }

  /** Others push some commits, one step each. */
  lemma {:induction false} RunOutside(s: System, commits: seq<Commit>) returns (events: seq<Event>)
    requires |s.authors| == |s.log|
    ensures var s' := Run(s, events);
            s'.log == s.log + commits && |s'.authors| == |s'.log| && s'.procs == s.procs
    ensures forall e :: e in events ==> e.Outside?
  {
    events := [];
    if commits != [] {
      var last := |commits| - 1;
      var before := RunOutside(s, commits[..last]);
      var e := Outside(commits[last]);
      events := before + [e];
      RunConcat(s, before, [e]);
      RunOne(Run(s, before), e);
      assert commits == commits[..last] + [commits[last]];
    }
  }

  /** A step of call i or of somebody outside. */
  predicate OwnOrOutside(e: Event, i: nat) {
    e.Outside? || e.i == i
  }

  /** Where an attempt leaves its call. */
  function Afterwards(n: nat, once: Once): ProcState {
    match once
    case Over(r) => Done(r)
    case Rejected => if n + 1 >= ATTEMPTS then Done(Failed(true)) else Ready(n + 1)
  }

  /** The system after call i did something that left the branch at h and itself at st. */
  ghost predicate Left(s: System, i: nat, h: History, st: ProcState, s': System)
    requires i < |s.procs|
  {
    s'.log == h && |s'.authors| == |s'.log| && s'.procs == s.procs[i := s.procs[i].(st := st)]
  }

  /** The first step of an attempt on the cloned branch. */
  function CloneEvent(i: nat, h: History, a: Attempt): Event {
    if a.fault == CloneFault || h == [] then Event.Fault(i, false) else Event.Clone(i)
  }

  /** The second step, if the call is still at work. */
  function PushEvent(i: nat, a: Attempt): Event {
    if a.between == [] && a.fault == AckLost then Event.Fault(i, true)
    else if a.fault == NoFault then Event.Push(i)
    else Event.Fault(i, false)
  }

  lemma AttemptStates(s: System, i: nat, n: nat, a: Attempt, s1: System, s2: System)
    requires |s.authors| == |s.log| && i < |s.procs| && s.procs[i].st == Ready(n) && n < ATTEMPTS
    requires s1 == Step(s, CloneEvent(i, s.log, a))
    requires s2.log == s1.log + a.between && |s2.authors| == |s2.log| && s2.procs == s1.procs
    ensures var (h', once) := ApplyOnce(s.log, s.procs[i].path, s.procs[i].edit, a.(before := []));
            Left(s, i, h', Afterwards(n, once), Step(s2, PushEvent(i, a)))
  {
    assert s.log + [] == s.log;
    var p := s.procs[i];
    if s1.procs[i].st.Cloned? {
      assert s2.log[Tip(s.log)] == s.log[Tip(s.log)];
      if a.between == [] { assert s2.log == s.log; }
    }
  }

  /** One attempt as steps: others push, the call clones, others push, the call pushes or fails. */
  lemma AttemptSteps(s: System, i: nat, n: nat, a: Attempt) returns (events: seq<Event>)
    requires |s.authors| == |s.log| && i < |s.procs| && s.procs[i].st == Ready(n) && n < ATTEMPTS
    ensures var (h', once) := ApplyOnce(s.log, s.procs[i].path, s.procs[i].edit, a);
            Left(s, i, h', Afterwards(n, once), Run(s, events))
    ensures forall e :: e in events ==> OwnOrOutside(e, i)
  {
    hide Step, ApplyOnce, Run;
    var before := RunOutside(s, a.before);
    var s0 := Run(s, before);
    var clone, push := CloneEvent(i, s0.log, a), PushEvent(i, a);
    var s1 := Step(s0, clone);
    CloneCounts(s0, i, a);
    var between := RunOutside(s1, a.between);
    var s2 := Run(s1, between);
    events := before + [clone] + between + [push];
    RunConcat(s, before, [clone]);
    RunOne(s0, clone);
    RunConcat(s, before + [clone], between);
    RunConcat(s, before + [clone] + between, [push]);
    RunOne(s2, push);
    AttemptStates(s0, i, n, a, s1, s2);
    BeforeFirst(s.log, s.procs[i].path, s.procs[i].edit, a);
  }

  lemma CloneCounts(s: System, i: nat, a: Attempt)
    requires |s.authors| == |s.log| && i < |s.procs|
    ensures var s' := Step(s, CloneEvent(i, s.log, a)); |s'.authors| == |s'.log|
  {
  }

  lemma BeforeFirst(h: History, path: string, edit: Edit, a: Attempt)
    ensures ApplyOnce(h + a.before, path, edit, a.(before := [])) == ApplyOnce(h, path, edit, a)
  {
    assert h + a.before + [] == h + a.before;
  }

  /** A whole Apply as steps, with the same branch and the same report. */
  lemma {:induction false} ApplyIsSteps(s: System, i: nat, n: nat, script: seq<Attempt>) returns (events: seq<Event>)
    requires |s.authors| == |s.log| && i < |s.procs| && s.procs[i].st == Ready(n) && n < ATTEMPTS && |script| == ATTEMPTS
    ensures var (h', r) := ApplyRun(s.log, s.procs[i].path, s.procs[i].edit, script, n);
            Left(s, i, h', Done(r), Run(s, events))
    ensures forall e :: e in events ==> OwnOrOutside(e, i)
    decreases ATTEMPTS - n
  {
    hide Step, ApplyOnce, Run;
    events := AttemptSteps(s, i, n, script[n]);
    var s' := Run(s, events);
    var (h', once) := ApplyOnce(s.log, s.procs[i].path, s.procs[i].edit, script[n]);
    if once.Rejected? && n + 1 < ATTEMPTS {
      var rest := ApplyIsSteps(s', i, n + 1, script);
      RunConcat(s, events, rest);
      events := events + rest;
    }
  }
}
