/**
 Per-updater reconcile progress. The tracker keeps one entry per updater; what an entry means is
 defined on the trace of attempts, successes and forgets, and the two are proved to agree.
 */
module Progress {
  import opened Basics

  datatype Event =
    | Attempted(key: string, interval: int, now: int)
    | Succeeded(key: string, now: int)
    | Forgotten(key: string)

  datatype Entry = Entry(firstAttempt: int, lastSuccess: Option<int>, interval: int)

  const DEFAULT_STALE_MULTIPLIER := 10
  const DEFAULT_STALE_FLOOR := 15 * 60 * SECOND
  const TWO63 := 0x8000_0000_0000_0000
  const TWO64 := 0x1_0000_0000_0000_0000

  // ----- the staleness window -----

  /** Durations are 64-bit: a product that does not fit wraps around. */
  function Wrap64(x: int): (r: int)
    ensures -TWO63 <= r < TWO63
    ensures -TWO63 <= x < TWO63 ==> r == x
  {
    (x + TWO63) % TWO64 - TWO63
  }

  function Multiplier(m: int): int {
    if m <= 0 then DEFAULT_STALE_MULTIPLIER else m
  }

  function Floor(f: int): int {
    if f <= 0 then DEFAULT_STALE_FLOOR else f
  }

  function StaleWindow(multiplier: int, floor: int, interval: int): int {
    var window := Wrap64(Multiplier(multiplier) * interval);
    if window > Floor(floor) then window else Floor(floor)
  }

  /** The documented window max(multiplier * interval, floor) is the actual one exactly when the product fits. */
  lemma WindowIsMax(multiplier: int, floor: int, interval: int)
    requires 0 <= interval < TWO63 && floor < TWO63
    ensures var product := Multiplier(multiplier) * interval;
            StaleWindow(multiplier, floor, interval) == (if product > Floor(floor) then product else Floor(floor))
            <==> product < TWO63
  {
    var product := Multiplier(multiplier) * interval;
    assert product >= 0;
  }

  // ----- what the trace says -----

  predicate IsForget(e: Event, key: string) {
    e.Forgotten? && e.key == key
  }

  ghost predicate NoForgetAfter(trace: seq<Event>, key: string, i: nat) {
    forall j :: i < j < |trace| ==> !IsForget(trace[j], key)
  }

  predicate IsAttempt(e: Event, key: string) {
    e.Attempted? && e.key == key
  }

  predicate IsSuccess(e: Event, key: string) {
    e.Succeeded? && e.key == key
  }

  /** The earliest attempt since the key was last forgotten. */
  ghost predicate FirstAttempt(trace: seq<Event>, key: string, i: nat) {
    && i < |trace| && IsAttempt(trace[i], key) && NoForgetAfter(trace, key, i)
    && forall j :: 0 <= j < i && IsAttempt(trace[j], key) ==> !NoForgetAfter(trace, key, j)
  }

  ghost predicate LastAttempt(trace: seq<Event>, key: string, i: nat) {
    && i < |trace| && IsAttempt(trace[i], key) && NoForgetAfter(trace, key, i)
    && forall j :: i < j < |trace| ==> !IsAttempt(trace[j], key)
  }

  /** The latest success since the key was last forgotten and attempted again. */
  ghost predicate LastSuccess(trace: seq<Event>, key: string, i: nat) {
    && i < |trace| && IsSuccess(trace[i], key)
    && (exists a: nat :: FirstAttempt(trace, key, a) && a < i)
    && forall j :: i < j < |trace| ==> !IsSuccess(trace[j], key)
  }

  ghost predicate NoSuccessSince(trace: seq<Event>, key: string, a: nat) {
    forall j :: a < j < |trace| ==> !IsSuccess(trace[j], key)
  }

  ghost predicate Tracked(trace: seq<Event>, key: string) {
    exists a: nat :: FirstAttempt(trace, key, a)
  }

  ghost predicate EntryMeans(trace: seq<Event>, key: string, e: Entry) {
    && (exists a: nat :: FirstAttempt(trace, key, a) && e.firstAttempt == trace[a].now
          && (e.lastSuccess.None? ==> NoSuccessSince(trace, key, a)))
    && (e.lastSuccess.Some? ==> exists i: nat :: LastSuccess(trace, key, i) && e.lastSuccess.value == trace[i].now)
    && (exists l: nat :: LastAttempt(trace, key, l) && e.interval == trace[l].interval)
  }

  /** Stale by definition: longer than the window since the last success, or the first attempt without one. */
  ghost predicate StaleByTrace(trace: seq<Event>, key: string, multiplier: int, floor: int, now: int) {
    exists l: nat :: LastAttempt(trace, key, l) &&
      var window := StaleWindow(multiplier, floor, trace[l].interval);
      || (exists i: nat :: LastSuccess(trace, key, i) && now - trace[i].now > window)
      || (exists a: nat :: FirstAttempt(trace, key, a) && NoSuccessSince(trace, key, a) && now - trace[a].now > window)
  }

  // ----- one event at a time -----

  lemma FirstUnique(trace: seq<Event>, key: string, a: nat, b: nat)
    requires FirstAttempt(trace, key, a) && FirstAttempt(trace, key, b)
    ensures a == b
  {
  }

  lemma FirstCarries(trace: seq<Event>, e: Event, key: string, a: nat)
    requires FirstAttempt(trace, key, a) && !IsForget(e, key)
    ensures FirstAttempt(trace + [e], key, a)
  {
    var more := trace + [e];
    assert forall j :: 0 <= j < |trace| ==> more[j] == trace[j];
    forall j | 0 <= j < a && IsAttempt(more[j], key) ensures !NoForgetAfter(more, key, j) {
      assert IsAttempt(trace[j], key) && !NoForgetAfter(trace, key, j);
      var f :| j < f < |trace| && IsForget(trace[f], key);
      assert IsForget(more[f], key);
    }
  }

  lemma FirstCameFrom(trace: seq<Event>, e: Event, key: string, a: nat)
    requires FirstAttempt(trace + [e], key, a) && a < |trace|
    ensures FirstAttempt(trace, key, a) && !IsForget(e, key)
  {
    var more := trace + [e];
    assert more[|trace|] == e;
    assert forall j :: 0 <= j < |trace| ==> more[j] == trace[j];
    assert !IsForget(more[|trace|], key);
    forall j | 0 <= j < a && IsAttempt(trace[j], key) ensures !NoForgetAfter(trace, key, j) {
      assert IsAttempt(more[j], key) && !NoForgetAfter(more, key, j);
      var f :| j < f < |more| && IsForget(more[f], key);
      assert IsForget(trace[f], key);
    }
  }

  lemma NewFirst(trace: seq<Event>, e: Event, key: string)
    requires IsAttempt(e, key) && !Tracked(trace, key)
    ensures FirstAttempt(trace + [e], key, |trace|)
  {
    var more := trace + [e];
    assert more[|trace|] == e;
    forall j: nat | j < |trace| && IsAttempt(more[j], key) ensures !NoForgetAfter(more, key, j) {
      KeptBefore(trace, e, key, j);
      if NoForgetAfter(trace, key, j) { SomeFirst(trace, key, j); }
    }
  }

  lemma KeptBefore(trace: seq<Event>, e: Event, key: string, j: nat)
    requires j < |trace|
    ensures (trace + [e])[j] == trace[j]
    ensures NoForgetAfter(trace + [e], key, j) ==> NoForgetAfter(trace, key, j)
  {
    var more := trace + [e];
    assert forall f :: 0 <= f < |trace| ==> more[f] == trace[f];
  }

  lemma {:induction false} SomeFirst(trace: seq<Event>, key: string, j: nat)
    requires j < |trace| && IsAttempt(trace[j], key) && NoForgetAfter(trace, key, j)
    ensures Tracked(trace, key)
    decreases j
  {
    if !FirstAttempt(trace, key, j) {
      var i :| 0 <= i < j && IsAttempt(trace[i], key) && NoForgetAfter(trace, key, i);
      SomeFirst(trace, key, i);
    }
  }

  lemma LastCarries(trace: seq<Event>, e: Event, key: string, l: nat)
    requires LastAttempt(trace, key, l) && !IsForget(e, key) && !IsAttempt(e, key)
    ensures LastAttempt(trace + [e], key, l)
  {
    assert forall j :: 0 <= j < |trace| ==> (trace + [e])[j] == trace[j];
  }

  lemma NewLast(trace: seq<Event>, e: Event, key: string)
    requires IsAttempt(e, key)
    ensures LastAttempt(trace + [e], key, |trace|)
  {
  }

  lemma SuccessCarries(trace: seq<Event>, e: Event, key: string, i: nat)
    requires LastSuccess(trace, key, i) && !IsForget(e, key) && !IsSuccess(e, key)
    ensures LastSuccess(trace + [e], key, i)
  {
    assert forall j :: 0 <= j < |trace| ==> (trace + [e])[j] == trace[j];
    var a: nat :| FirstAttempt(trace, key, a) && a < i;
    FirstCarries(trace, e, key, a);
  }

  lemma NewSuccess(trace: seq<Event>, e: Event, key: string)
    requires IsSuccess(e, key) && Tracked(trace, key)
    ensures LastSuccess(trace + [e], key, |trace|)
  {
    var a: nat :| FirstAttempt(trace, key, a);
    FirstCarries(trace, e, key, a);
    assert FirstAttempt(trace + [e], key, a) && a < |trace|;
  }

  lemma QuietCarries(trace: seq<Event>, e: Event, key: string, a: nat)
    requires NoSuccessSince(trace, key, a) && !IsSuccess(e, key)
    ensures NoSuccessSince(trace + [e], key, a)
  {
    assert forall j :: 0 <= j < |trace| ==> (trace + [e])[j] == trace[j];
  }

  /** Events about other keys leave an entry's meaning alone. */
  lemma OtherKey(trace: seq<Event>, e: Event, key: string, entry: Entry)
    requires EntryMeans(trace, key, entry) && e.key != key
    ensures EntryMeans(trace + [e], key, entry)
  {
    var more := trace + [e];
    assert forall j :: 0 <= j < |trace| ==> more[j] == trace[j];
    var a: nat :| FirstAttempt(trace, key, a) && entry.firstAttempt == trace[a].now
                  && (entry.lastSuccess.None? ==> NoSuccessSince(trace, key, a));
    FirstCarries(trace, e, key, a);
    if entry.lastSuccess.None? { QuietCarries(trace, e, key, a); }
    assert FirstAttempt(more, key, a) && entry.firstAttempt == more[a].now;
    var l: nat :| LastAttempt(trace, key, l) && entry.interval == trace[l].interval;
    LastCarries(trace, e, key, l);
    assert LastAttempt(more, key, l) && entry.interval == more[l].interval;
    if entry.lastSuccess.Some? {
      var i: nat :| LastSuccess(trace, key, i) && entry.lastSuccess.value == trace[i].now;
      SuccessCarries(trace, e, key, i);
      assert LastSuccess(more, key, i) && entry.lastSuccess.value == more[i].now;
    }
  }

  lemma OtherTracked(trace: seq<Event>, e: Event, key: string)
    requires e.key != key
    ensures Tracked(trace + [e], key) <==> Tracked(trace, key)
  {
    if Tracked(trace, key) {
      var a: nat :| FirstAttempt(trace, key, a);
      FirstCarries(trace, e, key, a);
    }
    if Tracked(trace + [e], key) {
      var a: nat :| FirstAttempt(trace + [e], key, a);
      FirstCameFrom(trace, e, key, a);
    }
  }

  lemma AttemptMeans(trace: seq<Event>, e: Event, old0: Option<Entry>)
    requires e.Attempted?
    requires old0.Some? <==> Tracked(trace, e.key)
    requires old0.Some? ==> EntryMeans(trace, e.key, old0.value)
    ensures Tracked(trace + [e], e.key)
    ensures EntryMeans(trace + [e], e.key,
                       if old0.Some? then old0.value.(interval := e.interval) else Entry(e.now, None, e.interval))
  {
    var more, key := trace + [e], e.key;
    assert more[|trace|] == e;
    NewLast(trace, e, key);
    if old0.None? {
      NewFirst(trace, e, key);
      assert FirstAttempt(more, key, |trace|) && NoSuccessSince(more, key, |trace|);
    } else {
      var entry := old0.value;
      var a: nat :| FirstAttempt(trace, key, a) && entry.firstAttempt == trace[a].now
                    && (entry.lastSuccess.None? ==> NoSuccessSince(trace, key, a));
      FirstCarries(trace, e, key, a);
      if entry.lastSuccess.None? { QuietCarries(trace, e, key, a); }
      assert FirstAttempt(more, key, a) && entry.firstAttempt == more[a].now;
      if entry.lastSuccess.Some? {
        var i: nat :| LastSuccess(trace, key, i) && entry.lastSuccess.value == trace[i].now;
        SuccessCarries(trace, e, key, i);
        assert LastSuccess(more, key, i) && entry.lastSuccess.value == more[i].now;
      }
    }
  }

  lemma SuccessMeans(trace: seq<Event>, e: Event, entry: Entry)
    requires e.Succeeded? && EntryMeans(trace, e.key, entry)
    ensures Tracked(trace + [e], e.key) && EntryMeans(trace + [e], e.key, entry.(lastSuccess := Some(e.now)))
  {
    var more, key := trace + [e], e.key;
    assert more[|trace|] == e;
    var a: nat :| FirstAttempt(trace, key, a) && entry.firstAttempt == trace[a].now;
    FirstCarries(trace, e, key, a);
    assert FirstAttempt(more, key, a) && entry.firstAttempt == more[a].now;
    NewSuccess(trace, e, key);
    var l: nat :| LastAttempt(trace, key, l) && entry.interval == trace[l].interval;
    LastCarries(trace, e, key, l);
    assert LastAttempt(more, key, l) && entry.interval == more[l].interval;
  }

  lemma UntrackedSuccess(trace: seq<Event>, e: Event)
    requires e.Succeeded? && !Tracked(trace, e.key)
    ensures !Tracked(trace + [e], e.key)
  {
    if Tracked(trace + [e], e.key) {
      var a: nat :| FirstAttempt(trace + [e], e.key, a);
      FirstCameFrom(trace, e, e.key, a);
    }
  }

  lemma ForgetUntracks(trace: seq<Event>, e: Event)
    requires e.Forgotten?
    ensures !Tracked(trace + [e], e.key)
  {
    assert (trace + [e])[|trace|] == e;
    assert IsForget((trace + [e])[|trace|], e.key);
  }

  // ----- the tracker -----

  class ProgressTracker {
    var entries: map<string, Entry>
    const multiplier: int
    const floor: int
    ghost var trace: seq<Event>

    ghost predicate Valid()
      reads this
    {
      && (forall key :: key in entries <==> Tracked(trace, key))
      && (forall key :: key in entries ==> EntryMeans(trace, key, entries[key]))
    }

    constructor (multiplier: int, floor: int)
      ensures Valid() && trace == [] && this.multiplier == multiplier && this.floor == floor
    {
      this.multiplier, this.floor := multiplier, floor;
      entries := map[];
      trace := [];
    }

    method Attempt(key: string, interval: int, now: int)
      requires Valid()
      modifies this
      ensures Valid() && trace == old(trace) + [Attempted(key, interval, now)]
    {
      ghost var e, before := Attempted(key, interval, now), entries;
      var entry := if key in entries then entries[key] else Entry(now, None, interval);
      AttemptMeans(trace, e, if key in entries then Some(entries[key]) else None);
      entries := entries[key := entry.(interval := interval)];
      Others(e, before);
      trace := trace + [e];
    }

    method Success(key: string, now: int)
      requires Valid()
      modifies this
      ensures Valid() && trace == old(trace) + [Succeeded(key, now)]
    {
      ghost var e, before := Succeeded(key, now), entries;
      if key in entries {
        SuccessMeans(trace, e, entries[key]);
        entries := entries[key := entries[key].(lastSuccess := Some(now))];
      } else {
        UntrackedSuccess(trace, e);
      }
      Others(e, before);
      trace := trace + [e];
    }

    method Forget(key: string)
      requires Valid()
      modifies this
      ensures Valid() && trace == old(trace) + [Forgotten(key)]
    {
      ghost var e, before := Forgotten(key), entries;
      ForgetUntracks(trace, e);
      entries := entries - {key};
      Others(e, before);
      trace := trace + [e];
    }

    /** Keys the event is not about keep their entries and their meaning. */
    lemma Others(e: Event, before: map<string, Entry>)
      requires forall key :: key in before <==> Tracked(trace, key)
      requires forall key :: key in before ==> EntryMeans(trace, key, before[key])
      ensures forall key :: key != e.key ==> (key in before <==> Tracked(trace + [e], key))
      ensures forall key :: key != e.key && key in before ==> EntryMeans(trace + [e], key, before[key])
    {
      forall key | key != e.key
        ensures key in before <==> Tracked(trace + [e], key)
        ensures key in before ==> EntryMeans(trace + [e], key, before[key])
      {
        OtherTracked(trace, e, key);
        if key in before { OtherKey(trace, e, key, before[key]); }
      }
    }

    function StaleAt(entry: Entry, now: int): bool {
      var anchor := if entry.lastSuccess.Some? then entry.lastSuccess.value else entry.firstAttempt;
      now - anchor > StaleWindow(multiplier, floor, entry.interval)
    }

    lemma StaleAtMeans(key: string, now: int)
      requires Valid() && key in entries
      ensures StaleAt(entries[key], now) <==> StaleByTrace(trace, key, multiplier, floor, now)
    {
      EntryStale(trace, key, entries[key], multiplier, floor, now);
    }

    method IsStale(key: string, now: int) returns (stale: bool)
      requires Valid()
      ensures stale <==> StaleByTrace(trace, key, multiplier, floor, now)
    {
      if key !in entries {
        UntrackedNotStale(trace, key, multiplier, floor, now);
        return false;
      }
      StaleAtMeans(key, now);
      return StaleAt(entries[key], now);
    }

    method Staleness(now: int) returns (out: map<string, bool>)
      requires Valid()
      ensures forall key :: key in out <==> Tracked(trace, key)
      ensures forall key :: key in out ==> (out[key] <==> StaleByTrace(trace, key, multiplier, floor, now))
    {
      out := map[];
      var todo := entries.Keys;
      while todo != {}
        invariant todo <= entries.Keys
        invariant forall key :: key in out <==> key in entries && key !in todo
        invariant forall key :: key in out ==> (out[key] <==> StaleByTrace(trace, key, multiplier, floor, now))
        decreases |todo|
      {
        var key :| key in todo;
        StaleAtMeans(key, now);
        out := out[key := StaleAt(entries[key], now)];
        todo := todo - {key};
      }
    }

    /** The aggregate check fails only when there are updaters and every one of them is stale. */
    method ProgressHealthy(now: int) returns (ok: bool)
      requires Valid()
      ensures !ok <==> (exists key :: Tracked(trace, key))
                       && forall key :: Tracked(trace, key) ==> StaleByTrace(trace, key, multiplier, floor, now)
    {
      hide StaleByTrace, Tracked, EntryMeans;
      var staleness := Staleness(now);
      if |staleness| == 0 {
        assert staleness == map[];
        return true;
      }
      var todo := staleness.Keys;
      while todo != {}
        invariant todo <= staleness.Keys
        invariant forall key :: key in staleness && key !in todo ==> staleness[key]
        decreases |todo|
      {
        var key :| key in todo;
        if !staleness[key] {
          return true;
        }
        todo := todo - {key};
      }
      assert forall key :: key in staleness ==> staleness[key];
      return false;
    }
  }

  lemma EntryStale(trace: seq<Event>, key: string, entry: Entry, multiplier: int, floor: int, now: int)
    requires EntryMeans(trace, key, entry)
    ensures now - (if entry.lastSuccess.Some? then entry.lastSuccess.value else entry.firstAttempt)
              > StaleWindow(multiplier, floor, entry.interval)
            <==> StaleByTrace(trace, key, multiplier, floor, now)
  {
    hide StaleWindow;
    var a: nat :| FirstAttempt(trace, key, a) && entry.firstAttempt == trace[a].now
                  && (entry.lastSuccess.None? ==> NoSuccessSince(trace, key, a));
    var l: nat :| LastAttempt(trace, key, l) && entry.interval == trace[l].interval;
    LastUnique(trace, key);
    forall b: nat | FirstAttempt(trace, key, b) ensures b == a { FirstUnique(trace, key, a, b); }
    if entry.lastSuccess.Some? {
      var i: nat :| LastSuccess(trace, key, i) && entry.lastSuccess.value == trace[i].now;
      assert IsSuccess(trace[i], key) && a < i;
      assert !NoSuccessSince(trace, key, a);
    }
  }

  lemma LastUnique(trace: seq<Event>, key: string)
    ensures forall k: nat, l: nat :: LastAttempt(trace, key, k) && LastAttempt(trace, key, l) ==> k == l
    ensures forall k: nat, l: nat :: LastSuccess(trace, key, k) && LastSuccess(trace, key, l) ==> k == l
  {
  }

  lemma UntrackedNotStale(trace: seq<Event>, key: string, multiplier: int, floor: int, now: int)
    requires !Tracked(trace, key)
    ensures !StaleByTrace(trace, key, multiplier, floor, now)
  {
  }

  lemma {:induction false} SomeLastSuccess(trace: seq<Event>, key: string, a: nat, i: nat)
    requires FirstAttempt(trace, key, a) && a < i < |trace| && IsSuccess(trace[i], key)
    ensures exists s: nat :: LastSuccess(trace, key, s)
    decreases |trace| - i
  {
    if j :| i < j < |trace| && IsSuccess(trace[j], key) {
      SomeLastSuccess(trace, key, a, j);
    } else {
      assert LastSuccess(trace, key, i);
    }
  }

  lemma TrackedMeans(trace: seq<Event>, key: string, l: nat)
    requires Tracked(trace, key) && LastAttempt(trace, key, l)
    ensures exists entry :: EntryMeans(trace, key, entry) && entry.interval == trace[l].interval
  {
    var a: nat :| FirstAttempt(trace, key, a);
    if i :| a < i < |trace| && IsSuccess(trace[i], key) {
      SomeLastSuccess(trace, key, a, i);
      var s: nat :| LastSuccess(trace, key, s);
      assert EntryMeans(trace, key, Entry(trace[a].now, Some(trace[s].now), trace[l].interval));
    } else {
      assert NoSuccessSince(trace, key, a);
      assert EntryMeans(trace, key, Entry(trace[a].now, None, trace[l].interval));
    }
  }

  /**
   A further attempt never hides that an updater is stale exactly when its window is no longer
   than the one of the attempt before; retrying at one interval is the equal case.
   */
  lemma RetryKeepsStale(trace: seq<Event>, e: Event, l: nat, multiplier: int, floor: int)
    requires e.Attempted? && Tracked(trace, e.key) && LastAttempt(trace, e.key, l)
    ensures (forall now :: StaleByTrace(trace, e.key, multiplier, floor, now)
                           ==> StaleByTrace(trace + [e], e.key, multiplier, floor, now))
            <==> StaleWindow(multiplier, floor, e.interval) <= StaleWindow(multiplier, floor, trace[l].interval)
  {
    hide StaleByTrace, StaleWindow, EntryMeans, Tracked;
    TrackedMeans(trace, e.key, l);
    var entry :| EntryMeans(trace, e.key, entry) && entry.interval == trace[l].interval;
    AttemptMeans(trace, e, Some(entry));
    var again := entry.(interval := e.interval);
    var anchor := if entry.lastSuccess.Some? then entry.lastSuccess.value else entry.firstAttempt;
    forall now
      ensures StaleByTrace(trace, e.key, multiplier, floor, now)
              <==> now - anchor > StaleWindow(multiplier, floor, entry.interval)
      ensures StaleByTrace(trace + [e], e.key, multiplier, floor, now)
              <==> now - anchor > StaleWindow(multiplier, floor, again.interval)
    {
      EntryStale(trace, e.key, entry, multiplier, floor, now);
      EntryStale(trace + [e], e.key, again, multiplier, floor, now);
    }
    var edge := anchor + StaleWindow(multiplier, floor, e.interval);
    assert !StaleByTrace(trace + [e], e.key, multiplier, floor, edge);
  }
}
