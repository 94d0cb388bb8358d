/**
 Several Apply calls and outside pushes on one branch, interleaved step by step. Clone, push and
 failure are separate steps, so any other writer's step may fall between them.
 */
module MultiWriter {
  import opened Basics
  import opened GitBranch

  datatype ProcState =
    | Ready(attempt: nat)
    | Cloned(attempt: nat, base: nat, output: string)
    | Done(result: ApplyResult)

  /** One Apply call of some updater (its owner). */
  datatype Proc = Proc(owner: nat, path: string, edit: Edit, st: ProcState)

  /** The branch with a ghost note of which call pushed each commit. */
  datatype System = System(log: History, authors: seq<Option<nat>>, procs: seq<Proc>)

  datatype Event =
    | Outside(commit: Commit)
    | Clone(i: nat)
    | Push(i: nat)
    | Fault(i: nat, accepted: bool)

  predicate Start(s: System) {
    && s.log != [] && |s.authors| == |s.log|
    && (forall k :: 0 <= k < |s.log| ==> s.authors[k] == None)
    && (forall i :: 0 <= i < |s.procs| ==> s.procs[i].st == Ready(0))
  }

  function Put(s: System, i: nat, st: ProcState): System
    requires i < |s.procs|
  {
    s.(procs := s.procs[i := s.procs[i].(st := st)])
  }

  function Append(s: System, commit: Commit, author: Option<nat>): System {
    s.(log := s.log + [commit], authors := s.authors + [author])
  }

  function CloneStep(s: System, i: nat): System
    requires i < |s.procs|
  {
    var p := s.procs[i];
    if !p.st.Ready? || p.st.attempt >= ATTEMPTS || s.log == [] then s
    else
      var files := s.log[Tip(s.log)].files;
      if p.path !in files then Put(s, i, Done(Failed(false)))
      else
        match p.edit(files[p.path])
        case None => Put(s, i, Done(Failed(false)))
        case Some(output) =>
          if output == files[p.path] then Put(s, i, Done(Applied(false, Tip(s.log))))
          else Put(s, i, Cloned(p.st.attempt, Tip(s.log), output))
  }

  function Edited(s: System, i: nat): Commit
    requires i < |s.procs| && s.procs[i].st.Cloned? && s.procs[i].st.base < |s.log|
  {
    var p := s.procs[i];
    Commit(s.log[p.st.base].files[p.path := p.st.output])
  }

  function PushStep(s: System, i: nat): System
    requires i < |s.procs|
  {
    var p := s.procs[i];
    if !p.st.Cloned? then s
    else if s.log != [] && p.st.base == Tip(s.log) then
      Put(Append(s, Edited(s, i), Some(i)), i, Done(Applied(true, |s.log|)))
    else if p.st.attempt + 1 >= ATTEMPTS then Put(s, i, Done(Failed(true)))
    else Put(s, i, Ready(p.st.attempt + 1))
  }

  /** A clone or push that errors out; the server may have accepted the push all the same. */
  function FaultStep(s: System, i: nat, accepted: bool): System
    requires i < |s.procs|
  {
    var p := s.procs[i];
    if p.st.Done? then s
    else if accepted && p.st.Cloned? && s.log != [] && p.st.base == Tip(s.log) then
      Put(Append(s, Edited(s, i), Some(i)), i, Done(Failed(false)))
    else Put(s, i, Done(Failed(false)))
  }

  function Step(s: System, e: Event): System {
    match e
    case Outside(c) => Append(s, c, None)
    case Clone(i) => if i < |s.procs| then CloneStep(s, i) else s
    case Push(i) => if i < |s.procs| then PushStep(s, i) else s
    case Fault(i, accepted) => if i < |s.procs| then FaultStep(s, i, accepted) else s
  }

  function Run(s: System, events: seq<Event>): System {
    if events == [] then s else Step(Run(s, events[..|events| - 1]), events[|events| - 1])
  }

  // ----- safety -----

  /** Nothing pushed by call i is on the branch. */
  ghost predicate Absent(s: System, i: nat) {
    forall k :: 0 <= k < |s.authors| ==> s.authors[k] != Some(i)
  }

  ghost predicate ProcOk(s: System, i: nat)
    requires i < |s.procs| && |s.authors| == |s.log|
  {
    var p := s.procs[i];
    match p.st
    case Ready(n) => Absent(s, i)
    case Cloned(n, base, output) =>
      && Absent(s, i) && base < |s.log| && p.path in s.log[base].files
      && p.edit(s.log[base].files[p.path]) == Some(output) && output != s.log[base].files[p.path]
    case Done(Applied(true, k)) => k < |s.log| && s.authors[k] == Some(i)
    case Done(Applied(false, k)) => Absent(s, i) && SettledAt(s.log, k, p.path, p.edit)
    case Done(Failed(conflict)) => conflict ==> Absent(s, i)
  }

  ghost predicate Safe(s: System) {
    && |s.authors| == |s.log| && s.log != []
    && (forall k :: 0 <= k < |s.log| && s.authors[k].Some? ==>
          s.authors[k].value < |s.procs|
          && EditsParent(s.log, k, s.procs[s.authors[k].value].path, s.procs[s.authors[k].value].edit))
    && (forall k, l :: 0 <= k < l < |s.log| && s.authors[k].Some? ==> s.authors[k] != s.authors[l])
    && (forall i :: 0 <= i < |s.procs| ==> ProcOk(s, i))
  }

  /** Calls keep their editors and owners; the branch only gains commits at the end. */
  ghost predicate Extends(s: System, s': System) {
    && s.log <= s'.log && s.authors <= s'.authors && |s'.procs| == |s.procs|
    && forall i :: 0 <= i < |s.procs| ==>
         s'.procs[i].path == s.procs[i].path && s'.procs[i].edit == s.procs[i].edit && s'.procs[i].owner == s.procs[i].owner
  }

  lemma OutsideSafe(s: System, c: Commit)
    requires Safe(s)
    ensures Safe(Append(s, c, None)) && Extends(s, Append(s, c, None))
  {
    var s' := Append(s, c, None);
    forall k | 0 <= k < |s'.log| && s'.authors[k].Some?
      ensures s'.authors[k].value < |s'.procs|
      ensures EditsParent(s'.log, k, s'.procs[s'.authors[k].value].path, s'.procs[s'.authors[k].value].edit)
    {
      assert s'.authors[k] == s.authors[k] && s'.log[k] == s.log[k] && s'.log[k - 1] == s.log[k - 1];
    }
    forall i | 0 <= i < |s'.procs| ensures ProcOk(s', i) {
      assert ProcOk(s, i);
      if Absent(s, i) { AbsentAppend(s, c, None, i); }
      var st := s.procs[i].st;
      if st.Cloned? { assert s'.log[st.base] == s.log[st.base]; }
      if st.Done? && st.result.Applied? && !st.result.committed { assert s'.log[st.result.index] == s.log[st.result.index]; }
    }
  }

  lemma AbsentAppend(s: System, c: Commit, author: Option<nat>, i: nat)
    requires Absent(s, i) && author != Some(i)
    ensures Absent(Append(s, c, author), i)
  {
  }

  /** Changing one call's state to one that is fine keeps everything fine. */
  lemma PutSafe(s: System, i: nat, st: ProcState)
    requires Safe(s) && i < |s.procs| && ProcOk(Put(s, i, st), i)
    ensures Safe(Put(s, i, st)) && Extends(s, Put(s, i, st))
  {
    var s' := Put(s, i, st);
    forall j | 0 <= j < |s'.procs| ensures ProcOk(s', j) {
      if j != i { assert ProcOk(s, j) && s'.procs[j] == s.procs[j]; }
    }
  }

  /** An accepted push appends the caller's edit of the tip, and is the caller's only commit. */
  lemma AcceptedSafe(s: System, i: nat, r: ApplyResult)
    requires Safe(s) && i < |s.procs| && s.procs[i].st.Cloned? && s.procs[i].st.base == Tip(s.log)
    requires r == Applied(true, |s.log|) || r == Failed(false)
    ensures var s' := Put(Append(s, Edited(s, i), Some(i)), i, Done(r)); Safe(s') && Extends(s, s')
  {
    assert ProcOk(s, i);
    var p, c := s.procs[i], Edited(s, i);
    var s' := Put(Append(s, c, Some(i)), i, Done(r));
    var n := |s.log|;
    forall k | 0 <= k < |s'.log| && s'.authors[k].Some?
      ensures s'.authors[k].value < |s'.procs|
      ensures EditsParent(s'.log, k, s'.procs[s'.authors[k].value].path, s'.procs[s'.authors[k].value].edit)
    {
      if k < n {
        assert s'.authors[k] == s.authors[k] && s'.log[k] == s.log[k] && s'.log[k - 1] == s.log[k - 1];
      } else {
        assert s'.log[n] == c && s'.log[n - 1] == s.log[n - 1];
      }
    }
    forall j | 0 <= j < |s'.procs| ensures ProcOk(s', j) {
      if j != i {
        assert ProcOk(s, j);
        AcceptedOther(s, c, i, j);
        assert s'.procs[j] == s.procs[j];
      }
    }
  }

  lemma AcceptedOther(s: System, c: Commit, i: nat, j: nat)
    requires |s.authors| == |s.log| && j < |s.procs| && ProcOk(s, j) && j != i
    ensures ProcOk(Append(s, c, Some(i)), j)
  {
    var s' := Append(s, c, Some(i));
    var st := s.procs[j].st;
    if st.Cloned? { assert s'.log[st.base] == s.log[st.base]; }
    if st.Done? && st.result.Applied? { assert st.result.index < |s.log| && s'.log[st.result.index] == s.log[st.result.index]; }
  }

  lemma CloneSafe(s: System, i: nat)
    requires Safe(s) && i < |s.procs| && CloneStep(s, i) != s
    ensures Safe(CloneStep(s, i)) && Extends(s, CloneStep(s, i))
  {
    hide Safe, Extends;
    SafeProcs(s);
    assert ProcOk(s, i);
    PutSafe(s, i, CloneStep(s, i).procs[i].st);
  }

  lemma RejectedSafe(s: System, i: nat, st: ProcState)
    requires Safe(s) && i < |s.procs| && !s.procs[i].st.Done?
    requires st == Done(Failed(true)) || st == Done(Failed(false)) || st.Ready?
    ensures Safe(Put(s, i, st)) && Extends(s, Put(s, i, st))
  {
    hide Safe, Extends;
    SafeProcs(s);
    assert ProcOk(s, i);
    PutSafe(s, i, st);
  }

  lemma StepSafe(s: System, e: Event)
    requires Safe(s)
    ensures Safe(Step(s, e)) && Extends(s, Step(s, e))
  {
    hide Safe, Extends, ProcOk;
    ExtendsItself(s);
    SafeProcs(s);
    match e {
      case Outside(c) => OutsideSafe(s, c);
      case Clone(i) => if i < |s.procs| && CloneStep(s, i) != s { CloneSafe(s, i); }
      case Push(i) =>
        if i < |s.procs| && s.procs[i].st.Cloned? {
          if s.procs[i].st.base == Tip(s.log) {
            AcceptedSafe(s, i, Applied(true, |s.log|));
          } else {
            RejectedSafe(s, i, PushStep(s, i).procs[i].st);
          }
        }
      case Fault(i, accepted) =>
        if i < |s.procs| && !s.procs[i].st.Done? {
          if accepted && s.procs[i].st.Cloned? && s.procs[i].st.base == Tip(s.log) {
            AcceptedSafe(s, i, Failed(false));
          } else {
            RejectedSafe(s, i, Done(Failed(false)));
          }
        }
    }
  }

  lemma ExtendsItself(s: System)
    ensures Extends(s, s)
  {
  }

  lemma SafeProcs(s: System)
    requires Safe(s)
    ensures |s.authors| == |s.log| && s.log != [] && forall i :: 0 <= i < |s.procs| ==> ProcOk(s, i)
  {
  }

  lemma ExtendsChain(a: System, b: System, c: System)
    requires Extends(a, b) && Extends(b, c)
    ensures Extends(a, c)
  {
    assert a.log == b.log[..|a.log|] == c.log[..|a.log|];
    assert a.authors == b.authors[..|a.authors|] == c.authors[..|a.authors|];
  }

  /** Multi-writer safety: it holds after every interleaving, and no commit is ever lost. */
  lemma {:induction false} RunSafe(s: System, events: seq<Event>)
    requires Start(s)
    ensures Safe(Run(s, events)) && Extends(s, Run(s, events))
  {
    if events == [] {
      ExtendsItself(s);
    } else {
      hide Safe, Extends;
      var before := Run(s, events[..|events| - 1]);
      RunSafe(s, events[..|events| - 1]);
      StepSafe(before, events[|events| - 1]);
      ExtendsChain(s, before, Run(s, events));
    }
  }

  // ----- disjoint owners -----

  /**
   Fields of one manifest: owner o reads its field with look(o); every call of o writes its value
   there, and nobody else's edit disturbs it.
   */
  datatype Fields = Fields(path: string, look: (nat, string) -> Option<string>, value: nat -> string)

  ghost predicate Confined(owner: nat, path: string, edit: Edit, i: nat, f: Fields) {
    && path == f.path
    && forall c: string :: edit(c).Some? ==>
         && f.look(owner, edit(c).value) == Some(f.value(i))
         && (forall o: nat :: o != owner && f.look(o, c).Some? ==> f.look(o, edit(c).value) == f.look(o, c))
  }

  ghost predicate Disjoint(procs: seq<Proc>, f: Fields) {
    forall i :: 0 <= i < |procs| ==> Confined(procs[i].owner, procs[i].path, procs[i].edit, i, f)
  }

  /** An outside push that leaves the owned fields alone. */
  ghost predicate Polite(s: System, e: Event, f: Fields) {
    e.Outside? ==>
      && f.path in e.commit.files
      && (s.log != [] && f.path in s.log[Tip(s.log)].files ==>
            forall o: nat :: f.look(o, s.log[Tip(s.log)].files[f.path]).Some? ==>
              f.look(o, e.commit.files[f.path]) == f.look(o, s.log[Tip(s.log)].files[f.path]))
  }

  /** Since position k, no call of owner o has pushed, up to and including position m. */
  ghost predicate Undisturbed(s: System, o: nat, k: nat, m: nat) {
    forall l :: k < l <= m < |s.authors| ==>
      !(s.authors[l].Some? && s.authors[l].value < |s.procs| && s.procs[s.authors[l].value].owner == o)
  }

  ghost predicate Holds(s: System, f: Fields, i: nat)
    requires i < |s.procs|
  {
    var st := s.procs[i].st;
    st.Done? && st.result.Applied? ==>
      forall m :: st.result.index <= m < |s.log| && Undisturbed(s, s.procs[i].owner, st.result.index, m) ==>
        f.path in s.log[m].files && f.look(s.procs[i].owner, s.log[m].files[f.path]) == Some(f.value(i))
  }

  ghost predicate AllHold(s: System, f: Fields) {
    forall i :: 0 <= i < |s.procs| ==> Holds(s, f, i)
  }

  lemma {:induction false} HoldsAppend(s: System, f: Fields, c: Commit, author: Option<nat>, i: nat)
    requires Safe(s) && i < |s.procs| && Holds(s, f, i) && f.path in c.files
    requires var o := s.procs[i].owner;
             && (author.Some? ==> author.value < |s.procs|)
             && ((author.Some? && s.procs[author.value].owner == o)
                 || (f.path in s.log[Tip(s.log)].files && f.look(o, s.log[Tip(s.log)].files[f.path]).Some? ==>
                       f.look(o, c.files[f.path]) == f.look(o, s.log[Tip(s.log)].files[f.path])))
    ensures Holds(Append(s, c, author), f, i)
  {
    var s', n := Append(s, c, author), |s.log|;
    var st, o := s.procs[i].st, s.procs[i].owner;
    assert ProcOk(s, i);
    if st.Done? && st.result.Applied? {
      var k := st.result.index;
      assert k < n;
      forall m | k <= m < n + 1 && Undisturbed(s', o, k, m)
        ensures f.path in s'.log[m].files && f.look(o, s'.log[m].files[f.path]) == Some(f.value(i))
      {
        var earlier := if m < n then m else n - 1;
        forall l | k < l <= earlier < |s.authors|
          ensures !(s.authors[l].Some? && s.authors[l].value < |s.procs| && s.procs[s.authors[l].value].owner == o)
        {
          assert s'.authors[l] == s.authors[l];
        }
        assert Undisturbed(s, o, k, earlier);
        assert s'.log[earlier] == s.log[earlier];
        if m == n && k < n { assert s'.authors[n] == author; }
      }
    }
  }

  lemma HoldsPut(s: System, f: Fields, i: nat, st: ProcState, j: nat)
    requires i < |s.procs| && j < |s.procs| && j != i && Holds(s, f, j)
    ensures Holds(Put(s, i, st), f, j)
  {
    var s' := Put(s, i, st);
    assert s'.procs[j] == s.procs[j];
    forall o: nat, k: nat, m: nat ensures Undisturbed(s', o, k, m) <==> Undisturbed(s, o, k, m) {
      UndisturbedPut(s, i, st, o, k, m);
    }
  }

  lemma UndisturbedPut(s: System, i: nat, st: ProcState, o: nat, k: nat, m: nat)
    requires i < |s.procs|
    ensures Undisturbed(Put(s, i, st), o, k, m) <==> Undisturbed(s, o, k, m)
  {
    var s' := Put(s, i, st);
    assert forall j :: 0 <= j < |s.procs| ==> s'.procs[j].owner == s.procs[j].owner;
  }

  /** A call that reports success has its value in place at the position it reports. */
  lemma HoldsReport(s: System, f: Fields, i: nat)
    requires Safe(s) && Disjoint(s.procs, f) && i < |s.procs|
    requires s.procs[i].st.Done? && s.procs[i].st.result.Applied? && s.procs[i].st.result.index == Tip(s.log)
    ensures s.procs[i].st.result.committed ==> s.authors[Tip(s.log)] == Some(i)
    ensures f.path in s.log[Tip(s.log)].files && f.look(s.procs[i].owner, s.log[Tip(s.log)].files[f.path]) == Some(f.value(i))
    ensures Holds(s, f, i)
  {
    assert ProcOk(s, i);
    var k, p := Tip(s.log), s.procs[i];
    if p.st.result.committed {
      assert EditsParent(s.log, k, p.path, p.edit);
      assert s.log[k].files[f.path] == p.edit(s.log[k - 1].files[f.path]).value;
    }
  }

  lemma PushHolds(s: System, f: Fields, i: nat, r: ApplyResult, j: nat)
    requires Safe(s) && Disjoint(s.procs, f) && AllHold(s, f) && i < |s.procs| && j < |s.procs|
    requires s.procs[i].st.Cloned? && s.procs[i].st.base == Tip(s.log)
    requires r == Applied(true, |s.log|) || r == Failed(false)
    ensures Holds(Put(Append(s, Edited(s, i), Some(i)), i, Done(r)), f, j)
  {
    var c := Edited(s, i);
    var s' := Append(s, c, Some(i));
    AcceptedSafe(s, i, r);
    if j == i {
      if r.Applied? {
        DisjointPut(s.procs, i, Done(r), f);
        HoldsReport(Put(s', i, Done(r)), f, i);
      }
    } else {
      assert ProcOk(s, i) && Holds(s, f, j);
      HoldsAppend(s, f, c, Some(i), j);
      HoldsPut(s', f, i, Done(r), j);
    }
  }

  lemma QuietPutHolds(s: System, f: Fields, i: nat, st: ProcState, j: nat)
    requires Safe(s) && Disjoint(s.procs, f) && AllHold(s, f) && i < |s.procs| && j < |s.procs|
    requires Safe(Put(s, i, st)) && (st.Done? && st.result.Applied? ==> st.result.index == Tip(s.log))
    ensures Holds(Put(s, i, st), f, j)
  {
    if j == i {
      if st.Done? && st.result.Applied? {
        DisjointPut(s.procs, i, st, f);
        HoldsReport(Put(s, i, st), f, i);
      }
    } else {
      assert Holds(s, f, j);
      HoldsPut(s, f, i, st, j);
    }
  }

  lemma DisjointPut(procs: seq<Proc>, i: nat, st: ProcState, f: Fields)
    requires i < |procs| && Disjoint(procs, f)
    ensures Disjoint(procs[i := procs[i].(st := st)], f)
  {
  }

  lemma StepHolds(s: System, e: Event, f: Fields, j: nat)
    requires Safe(s) && Disjoint(s.procs, f) && AllHold(s, f) && Polite(s, e, f) && j < |s.procs|
    ensures |Step(s, e).procs| == |s.procs| && Holds(Step(s, e), f, j)
  {
    hide Disjoint, Safe, Holds, ProcOk;
    SafeProcs(s);
    StepSafe(s, e);
    assert Holds(s, f, j);
    match e {
      case Outside(c) => HoldsAppend(s, f, c, None, j);
      case Clone(i) =>
        if i < |s.procs| && CloneStep(s, i) != s { QuietPutHolds(s, f, i, CloneStep(s, i).procs[i].st, j); }
      case Push(i) =>
        if i < |s.procs| && s.procs[i].st.Cloned? {
          if s.procs[i].st.base == Tip(s.log) {
            PushHolds(s, f, i, Applied(true, |s.log|), j);
          } else {
            QuietPutHolds(s, f, i, PushStep(s, i).procs[i].st, j);
          }
        }
      case Fault(i, accepted) =>
        if i < |s.procs| && !s.procs[i].st.Done? {
          if accepted && s.procs[i].st.Cloned? && s.procs[i].st.base == Tip(s.log) {
            PushHolds(s, f, i, Failed(false), j);
          } else {
            QuietPutHolds(s, f, i, Done(Failed(false)), j);
          }
        }
    }
  }

  ghost predicate PoliteRun(s: System, events: seq<Event>, f: Fields) {
    forall n :: 0 <= n < |events| ==> Polite(Run(s, events[..n]), events[n], f)
  }

  lemma {:induction false} RunHolds(s: System, events: seq<Event>, f: Fields)
    requires Start(s) && Disjoint(s.procs, f) && PoliteRun(s, events, f)
    ensures Safe(Run(s, events)) && Disjoint(Run(s, events).procs, f) && AllHold(Run(s, events), f)
    ensures |Run(s, events).procs| == |s.procs|
  {
    RunSafe(s, events);
    if events != [] {
      hide Safe, Disjoint, Holds, Polite, Start, Step;
      var n := |events| - 1;
      var front, before := events[..n], Run(s, events[..n]);
      forall m | 0 <= m < n ensures Polite(Run(s, front[..m]), front[m], f) {
        assert front[..m] == events[..m] && front[m] == events[m];
      }
      RunHolds(s, front, f);
      StepSafe(before, events[n]);
      StepKeepsCalls(before, events[n], f);
      forall j | 0 <= j < |s.procs| ensures Holds(Run(s, events), f, j) {
        StepHolds(before, events[n], f, j);
      }
    }
  }

  lemma StepKeepsCalls(s: System, e: Event, f: Fields)
    requires Disjoint(s.procs, f) && Extends(s, Step(s, e))
    ensures Disjoint(Step(s, e).procs, f) && |Step(s, e).procs| == |s.procs|
  {
    hide Step, Confined;
  }

  /**
   Disjoint owners compose: after any interleaving, the tip's field of each owner holds the value
   of its last successful call, whatever the other owners did in between.
   */
  lemma DisjointOwnersCompose(s: System, events: seq<Event>, f: Fields, i: nat)
    requires Start(s) && Disjoint(s.procs, f) && PoliteRun(s, events, f) && i < |s.procs|
    ensures var s' := Run(s, events);
            && |s'.procs| == |s.procs| && s'.log != []
            && (s'.procs[i].st.Done? && s'.procs[i].st.result.Applied?
                && Undisturbed(s', s'.procs[i].owner, s'.procs[i].st.result.index, Tip(s'.log)) ==>
                  f.path in s'.log[Tip(s'.log)].files
                  && f.look(s'.procs[i].owner, s'.log[Tip(s'.log)].files[f.path]) == Some(f.value(i)))
  {
    RunHolds(s, events, f);
    var s' := Run(s, events);
    SafeProcs(s');
    assert Holds(s', f, i) && ProcOk(s', i);
  }
}
