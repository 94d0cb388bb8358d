/**
 Write-back to a shared branch. The branch is the sequence of its successive tips, oldest first,
 so a commit is named by its position; every push is compare-and-swap on the last position.
 */
module GitBranch {
  import opened Basics

  datatype Commit = Commit(files: map<string, string>)

  type History = seq<Commit>

  /** The manifest editor for one release: an error, or the new content. */
  type Edit = string -> Option<string>

  datatype Fault = NoFault | CloneFault | PushFault | AckLost

  /**
   What the world does during one attempt: commits others push before the clone, commits others
   push between the clone and the push, and whether the clone or the push fails. AckLost is a
   push the server accepts and the client sees fail.
   */
  datatype Attempt = Attempt(before: seq<Commit>, between: seq<Commit>, fault: Fault)

  datatype ApplyResult = Applied(committed: bool, index: nat) | Failed(conflict: bool)

  /** One attempt is either over, or rejected as a non-fast-forward push. */
  datatype Once = Over(result: ApplyResult) | Rejected

  function Tip(h: History): nat
    requires h != []
  {
    |h| - 1
  }

  function ApplyOnce(h: History, path: string, edit: Edit, a: Attempt): (History, Once) {
    var cloned := h + a.before;
    var raced := cloned + a.between;
    if a.fault == CloneFault || cloned == [] then (raced, Over(Failed(false)))
    else
      var files := cloned[Tip(cloned)].files;
      if path !in files then (raced, Over(Failed(false)))
      else
        match edit(files[path])
        case None => (raced, Over(Failed(false)))
        case Some(output) =>
          if output == files[path] then (raced, Over(Applied(false, Tip(cloned))))
          else if a.between != [] then (raced, if a.fault == NoFault then Rejected else Over(Failed(false)))
          else
            var pushed := cloned + [Commit(files[path := output])];
            if a.fault == PushFault then (cloned, Over(Failed(false)))
            else if a.fault == AckLost then (pushed, Over(Failed(false)))
            else (pushed, Over(Applied(true, |cloned|)))
  }

  const ATTEMPTS := 3

  function ApplyRun(h: History, path: string, edit: Edit, script: seq<Attempt>, attempt: nat): (History, ApplyResult)
    requires |script| == ATTEMPTS && attempt <= ATTEMPTS
    decreases ATTEMPTS - attempt
  {
    if attempt == ATTEMPTS then (h, Failed(true))
    else
      match ApplyOnce(h, path, edit, script[attempt])
      case (h', Over(r)) => (h', r)
      case (h', Rejected) => ApplyRun(h', path, edit, script, attempt + 1)
  }

  /** The remote repository, changed by this writer's pushes and by everyone else's. */
  class Remote {
    var history: History

    /** Other writers push. */
    method Interfere(commits: seq<Commit>)
      modifies this
      ensures history == old(history) + commits
    {
      history := history + commits;
    }

    /** Compare-and-swap: accepted only on top of the commit the writer cloned. */
    method Push(base: nat, commit: Commit) returns (accepted: bool)
      modifies this
      ensures accepted == (old(history) != [] && base == Tip(old(history)))
      ensures history == if accepted then old(history) + [commit] else old(history)
    {
      accepted := history != [] && base == |history| - 1;
      if accepted {
        history := history + [commit];
      }
    }

    method TryOnce(path: string, edit: Edit, a: Attempt) returns (r: Once)
      modifies this
      ensures (history, r) == ApplyOnce(old(history), path, edit, a)
    {
      Interfere(a.before);
      if a.fault == CloneFault || history == [] {
        Interfere(a.between);
        return Over(Failed(false));
      }
      var base := |history| - 1;
      var files := history[base].files;
      Interfere(a.between);
      assert a.between == [] ==> history == old(history) + a.before;
      if path !in files {
        return Over(Failed(false));
      }
      var output := edit(files[path]);
      if output.None? {
        return Over(Failed(false));
      }
      if output.value == files[path] {
        return Over(Applied(false, base));
      }
      if a.fault == PushFault {
        return Over(Failed(false));
      }
      var accepted := Push(base, Commit(files[path := output.value]));
      if !accepted {
        return if a.fault == NoFault then Rejected else Over(Failed(false));
      }
      if a.fault == AckLost {
        return Over(Failed(false));
      }
      return Over(Applied(true, base + 1));
    }

    method Apply(path: string, edit: Edit, script: seq<Attempt>) returns (r: ApplyResult)
      requires |script| == ATTEMPTS
      modifies this
      ensures (history, r) == ApplyRun(old(history), path, edit, script, 0)
    {
      for attempt := 0 to ATTEMPTS
        invariant ApplyRun(old(history), path, edit, script, 0) == ApplyRun(history, path, edit, script, attempt)
      {
        var once := TryOnce(path, edit, script[attempt]);
        if once.Over? {
          return once.result;
        }
      }
      return Failed(true);
    }
  }

  // ----- what one Apply guarantees -----

  /** Everyone else's commits during the attempts up to n. */
  function Others(script: seq<Attempt>, from: nat, n: nat): seq<Commit>
    requires from <= n <= |script|
    decreases n - from
  {
    if from == n then [] else script[from].before + script[from].between + Others(script, from + 1, n)
  }

  /** Position k holds this writer's edit of its direct parent, and nothing else changed. */
  predicate EditsParent(h: History, k: nat, path: string, edit: Edit) {
    && 0 < k < |h|
    && path in h[k - 1].files
    && edit(h[k - 1].files[path]).Some?
    && edit(h[k - 1].files[path]).value != h[k - 1].files[path]
    && h[k] == Commit(h[k - 1].files[path := edit(h[k - 1].files[path]).value])
  }

  /** The manifest at position k already is what the edit makes of it. */
  predicate SettledAt(h: History, k: nat, path: string, edit: Edit) {
    k < |h| && path in h[k].files && edit(h[k].files[path]) == Some(h[k].files[path])
  }

  /** What a finished Apply that started at h may report, when the others added exactly others. */
  ghost predicate Accounted(h: History, others: seq<Commit>, path: string, edit: Edit, h': History, r: ApplyResult) {
    match r
    case Applied(true, k) =>
      |h| <= k == |h'| - 1 && EditsParent(h', k, path, edit) && h' == h + others + [h'[k]]
    case Applied(false, k) =>
      |h| <= k + 1 && SettledAt(h', k, path, edit) && h' == h + others
    case Failed(true) => h' == h + others
    case Failed(false) =>
      || h' == h + others
      || (h' != [] && EditsParent(h', Tip(h'), path, edit) && h' == h + others + [h'[Tip(h')]])
  }

  lemma OnceSafe(h: History, path: string, edit: Edit, a: Attempt)
    ensures var (h', once) := ApplyOnce(h, path, edit, a);
            && (once.Rejected? ==> h' == h + (a.before + a.between))
            && (once.Over? ==> once.result != Failed(true) && Accounted(h, a.before + a.between, path, edit, h', once.result))
  {
    assert h + (a.before + a.between) == h + a.before + a.between;
    if a.between == [] { assert a.before + a.between == a.before; }
  }

  /**
   Safety of one Apply under any interference. The branch only grows and keeps everyone's
   commits in order; a reported commit is the writer's own edit of its direct parent, the only
   one it made; a report without a commit names a tip that needed no edit; and giving up after
   conflicts means the writer added nothing at all.
   */
  lemma {:induction false} ApplySafe(h: History, path: string, edit: Edit, script: seq<Attempt>, attempt: nat)
    returns (n: nat)
    requires |script| == ATTEMPTS && attempt <= ATTEMPTS
    ensures attempt <= n <= ATTEMPTS
    ensures var (h', r) := ApplyRun(h, path, edit, script, attempt);
            && h <= h'
            && Accounted(h, Others(script, attempt, n), path, edit, h', r)
            && (r == Failed(true) ==> n == ATTEMPTS)
    decreases ATTEMPTS - attempt
  {
    hide ApplyOnce, EditsParent, SettledAt;
    n := ATTEMPTS;
    if attempt < ATTEMPTS {
      var a := script[attempt];
      OnceSafe(h, path, edit, a);
      var (h1, once) := ApplyOnce(h, path, edit, a);
      if once.Rejected? {
        n := ApplySafe(h1, path, edit, script, attempt + 1);
        OthersStep(h, script, attempt, n);
      } else {
        n := attempt + 1;
        OthersStep(h, script, attempt, n);
        assert a.before + a.between + [] == a.before + a.between;
      }
    }
  }

  lemma OthersStep(h: History, script: seq<Attempt>, attempt: nat, n: nat)
    requires attempt < n <= |script|
    ensures Others(script, attempt, n) == script[attempt].before + script[attempt].between + Others(script, attempt + 1, n)
    ensures h + (script[attempt].before + script[attempt].between) + Others(script, attempt + 1, n) == h + Others(script, attempt, n)
  {
  }

  /** An undisturbed Apply on a branch whose tip needs no edit reports that tip and changes nothing. */
  lemma SettledApply(h: History, path: string, edit: Edit, script: seq<Attempt>)
    requires |script| == ATTEMPTS && script[0] == Attempt([], [], NoFault)
    requires h != [] && SettledAt(h, Tip(h), path, edit)
    ensures ApplyRun(h, path, edit, script, 0) == (h, Applied(false, Tip(h)))
  {
    assert h + [] == h;
  }
}
