/** Runs of one updater: any number of passes, whatever each of them meets. */
module Runs {
  import opened Basics
  import opened Matcher
  import opened GitBranch
  import opened Rollout

  /** The stored status, the branch, and the time the last pass ended. */
  datatype World = World(stored: Status, history: History, clock: int)

  /** One pass under the specification and generation in force at the time. */
  datatype Event = Event(spec: Spec, gen: int, ans: Answers)

  ghost predicate Admissible(w: World, e: Event) {
    ValidSpec(e.spec) && ValidAnswers(e.ans) && w.clock <= e.ans.check
  }

  ghost function PassAt(w: World, e: Event): Passed
    requires Admissible(w, e)
  {
    Pass(e.spec, e.gen, w.stored, w.history, e.ans)
  }

  ghost function After(w: World, e: Event): World
    requires Admissible(w, e)
  {
    World(PassAt(w, e).stored, PassAt(w, e).history, e.ans.write)
  }

  /** The worlds a run goes through: before the first pass, then after each. */
  ghost predicate IsRun(ws: seq<World>, es: seq<Event>) {
    && |ws| == |es| + 1
    && forall i :: 0 <= i < |es| ==> Admissible(ws[i], es[i]) && ws[i + 1] == After(ws[i], es[i])
  }

  // ----- the branch only grows -----

  lemma ApplyGrows(h: History, path: string, edit: Edit, script: seq<Attempt>)
    requires |script| == ATTEMPTS
    ensures var (h', r) := ApplyRun(h, path, edit, script, 0);
            h <= h' && (r.Applied? ==> r.index < |h'|)
  {
    hide ApplyRun;
    var n := ApplySafe(h, path, edit, script, 0);
  }

  lemma DoRollbackGrows(spec: Spec, gen: int, s: Status, h: History, ans: Answers)
    requires ValidSpec(spec) && ValidAnswers(ans)
    ensures h <= DoRollback(spec, gen, s, h, ans).history
  {
    hide ApplyRun, LatestOf, ValidDigest;
    forall edit: Edit ensures h <= ApplyRun(h, spec.path, edit, ans.rollbackScript, 0).0 {
      ApplyGrows(h, spec.path, edit, ans.rollbackScript);
    }
  }

  lemma CheckGrows(spec: Spec, gen: int, s: Status, h: History, ans: Answers)
    requires ValidSpec(spec) && ValidAnswers(ans)
    ensures h <= Check(spec, gen, s, h, ans).history
  {
    hide DoRollback, Observes;
    DoRollbackGrows(spec, gen, s, h, ans);
    DoRollbackGrows(spec, gen, s.(watchingSince := Some(Stamp(ans.check))), h, ans);
  }
}
