/**
 Insertions that share an offset. The sort leaves them in an order that depends on how map iteration
 delivered the spans, so that shows in the output unless the texts commute.
 */
module Ties {
  import opened Basics
  import opened Splice

  /** Edits that share a start can be written in either order. */
  ghost predicate TiesCommute(edits: multiset<Edit>) {
    forall e, f :: e in edits && f in edits && e.start == f.start ==> e.value + f.value == f.value + e.value
  }

  /** Whatever order the edits arrive in, the output is the same. */
  ghost predicate OrderHidden(input: string, edits: multiset<Edit>)
    requires Apart(edits, |input|)
  {
    forall a: seq<Edit>, b: seq<Edit> :: multiset(a) == edits && multiset(b) == edits ==> Output(input, a) == Output(input, b)
  }

  // ----- two insertions -----

  lemma TwoInsertions(buffer: string, e: Edit, f: Edit)
    requires e.start == e.end == f.start == f.end <= |buffer|
    ensures SpliceOne(SpliceOne(buffer, e), f) == buffer[..e.start] + (f.value + e.value) + buffer[e.start..]
  {
    var once := SpliceOne(buffer, e);
    assert once[..e.start] == buffer[..e.start] && once[e.start..] == e.value + buffer[e.start..];
  }

  // ----- commuting ties: the order does not show -----

  lemma SwapFirst(buffer: string, e: Edit, f: Edit, tail: seq<Edit>)
    requires e.start == e.end == f.start == f.end <= |buffer| && e.value + f.value == f.value + e.value
    requires Fits(buffer, [e, f] + tail)
    ensures Fits(buffer, [f, e] + tail) && SpliceAll(buffer, [f, e] + tail) == SpliceAll(buffer, [e, f] + tail)
  {
    TwoInsertions(buffer, e, f);
    TwoInsertions(buffer, f, e);
    TwoSteps(buffer, e, f, tail);
    TwoSteps(buffer, f, e, tail);
  }

  lemma TwoSteps(buffer: string, e: Edit, f: Edit, tail: seq<Edit>)
    requires e.start <= e.end <= |buffer| && f.start <= f.end <= |SpliceOne(buffer, e)|
    ensures Fits(buffer, [e, f] + tail) <==> Fits(SpliceOne(SpliceOne(buffer, e), f), tail)
    ensures Fits(buffer, [e, f] + tail) ==> SpliceAll(buffer, [e, f] + tail) == SpliceAll(SpliceOne(SpliceOne(buffer, e), f), tail)
  {
    hide SpliceOne;
    var s := [e, f] + tail;
    assert s[1..] == [f] + tail && s[1..][1..] == tail;
  }

  /** An edit tied with everything before it can be moved to the front. */
  lemma {:induction false} Forward(buffer: string, s: seq<Edit>, i: nat)
    requires i < |s| && Fits(buffer, s)
    requires i > 0 ==> forall k :: 0 <= k <= i ==> s[k].start == s[k].end == s[i].start <= |buffer|
    requires forall k :: 0 <= k <= i ==> s[k].value + s[i].value == s[i].value + s[k].value
    ensures var front := [s[i]] + s[..i] + s[i + 1..];
            Fits(buffer, front) && SpliceAll(buffer, front) == SpliceAll(buffer, s)
    decreases i
  {
    hide SpliceAll, SpliceOne, Fits;
    if i == 0 {
      assert [s[0]] + s[..0] + s[1..] == s;
    } else {
      var x, first, rest := s[i], s[0], s[1..];
      OneStep(buffer, first, rest, s);
      SpliceLength(buffer, first);
      Forward(SpliceOne(buffer, first), rest, i - 1);
      var tail := rest[..i - 1] + rest[i..];
      assert [x] + rest[..i - 1] + rest[i..] == [x] + tail;
      assert [first, x] + tail == [first] + ([x] + tail);
      OneStep(buffer, first, [x] + tail, [first, x] + tail);
      SwapFirst(buffer, first, x, tail);
      assert [x] + s[..i] + s[i + 1..] == [x, first] + tail;
    }
  }

  lemma OneStep(buffer: string, e: Edit, rest: seq<Edit>, s: seq<Edit>)
    requires s == [e] + rest && e.start <= e.end <= |buffer|
    ensures Fits(buffer, s) <==> Fits(SpliceOne(buffer, e), rest)
    ensures Fits(buffer, s) ==> SpliceAll(buffer, s) == SpliceAll(SpliceOne(buffer, e), rest)
  {
    assert s[1..] == rest;
  }

  lemma {:induction false} SameOutput(buffer: string, s: seq<Edit>, t: seq<Edit>, limit: nat)
    requires Descending(s) && Descending(t) && multiset(s) == multiset(t)
    requires Apart(multiset(s), limit) && limit <= |buffer| && TiesCommute(multiset(s))
    ensures Fits(buffer, s) && Fits(buffer, t) && SpliceAll(buffer, s) == SpliceAll(buffer, t)
    decreases |t|
  {
    hide SpliceAll, SpliceOne, Fits, Apart, TiesCommute;
    DescendingFits(buffer, s, limit);
    DescendingFits(buffer, t, limit);
    assert |multiset(s)| == |multiset(t)|;
    if t == [] {
      assert s == [];
    } else {
      var x := t[0];
      var i := TopPlace(s, t, limit);
      Forward(buffer, s, i);
      var rest := s[..i] + s[i + 1..];
      assert [x] + s[..i] + s[i + 1..] == [x] + rest;
      ApartTail(t, limit);
      RestKeeps(s, i, limit);
      OneStep(buffer, x, rest, [x] + rest);
      OneStep(buffer, x, t[1..], t);
      SameWithout(t, s, i);
      TailPart(t);
      FewerCommute(multiset(t[1..]), multiset(s));
      SpliceLength(buffer, x);
      SameOutput(SpliceOne(buffer, x), rest, t[1..], x.start);
    }
  }

  lemma SpliceLength(buffer: string, e: Edit)
    requires e.start <= e.end <= |buffer|
    ensures |SpliceOne(buffer, e)| >= e.start
    ensures e.start == e.end ==> |SpliceOne(buffer, e)| >= |buffer|
  {
  }

  lemma FewerCommute(few: multiset<Edit>, many: multiset<Edit>)
    requires few <= many && TiesCommute(many)
    ensures TiesCommute(few)
  {
  }

  /** Where the first edit of another arrangement stands: behind nothing but edits tied with it. */
  lemma TopPlace(s: seq<Edit>, t: seq<Edit>, limit: nat) returns (i: nat)
    requires Descending(s) && Descending(t) && multiset(s) == multiset(t) && t != []
    requires Apart(multiset(s), limit) && TiesCommute(multiset(s))
    ensures i < |s| && s[i] == t[0] && t[0].start <= t[0].end <= limit
    ensures i > 0 ==> forall k :: 0 <= k <= i ==> s[k].start == s[k].end == s[i].start
    ensures forall k :: 0 <= k <= i ==> s[k].value + s[i].value == s[i].value + s[k].value
  {
    hide Apart;
    assert t[0] in multiset(s);
    i :| 0 <= i < |s| && s[i] == t[0];
    TopInside(multiset(s), t[0], limit);
    forall k | 0 <= k <= i ensures s[k].start == s[i].start && s[k].value + s[i].value == s[i].value + s[k].value {
      assert s[k] in multiset(s) && s[k] in multiset(t);
      var j :| 0 <= j < |t| && t[j] == s[k];
    }
    forall k | 0 <= k <= i && i > 0 ensures s[k].start == s[k].end {
      if k < i { BothTied(s, limit, k, i); } else { BothTied(s, limit, 0, i); }
    }
  }

  lemma TopInside(edits: multiset<Edit>, e: Edit, limit: nat)
    requires Apart(edits, limit) && e in edits
    ensures e.start <= e.end <= limit
  {
  }

  /** Two edits with one start are both insertions. */
  lemma BothTied(d: seq<Edit>, limit: nat, i: nat, j: nat)
    requires Apart(multiset(d), limit) && i < j < |d| && d[i].start == d[j].start
    ensures d[i].start == d[i].end == d[j].start == d[j].end
  {
    assert d[i] in multiset(d) && d[j] in multiset(d);
    if d[i] == d[j] { DistinctByCount(d, i, j); }
  }

  lemma RestKeeps(s: seq<Edit>, i: nat, limit: nat)
    requires i < |s| && Descending(s) && Apart(multiset(s), limit)
    ensures Descending(s[..i] + s[i + 1..])
  {
  }

  // ----- a tie that does not commute shows -----

  lemma {:induction false} SplitSplices(buffer: string, x: seq<Edit>, y: seq<Edit>)
    requires Fits(buffer, x + y)
    ensures Fits(buffer, x) && Fits(SpliceAll(buffer, x), y) && SpliceAll(buffer, x + y) == SpliceAll(SpliceAll(buffer, x), y)
    decreases |x|
  {
    if x == [] {
      assert x + y == y;
    } else {
      assert (x + y)[1..] == x[1..] + y;
      SplitSplices(SpliceOne(buffer, x[0]), x[1..], y);
    }
  }

  /** Splices that end by m keep everything from m on, at the end of the buffer. */
  lemma {:induction false} TailSurvives(buffer: string, s: seq<Edit>, m: nat)
    requires Fits(buffer, s) && m <= |buffer| && Descending(s)
    requires forall k :: 0 <= k < |s| ==> s[k].end <= m && (k + 1 < |s| ==> s[k + 1].end <= s[k].start)
    ensures var out := SpliceAll(buffer, s); |buffer| - m <= |out| && out[|out| - (|buffer| - m)..] == buffer[m..]
    decreases |s|
  {
    if s != [] {
      var e := s[0];
      var once := SpliceOne(buffer, e);
      var m' := e.start + |e.value| + (m - e.end);
      assert once[m'..] == buffer[m..];
      forall k | 0 <= k < |s[1..]| ensures s[1..][k].end <= m' && (k + 1 < |s[1..]| ==> s[1..][k + 1].end <= s[1..][k].start) {
        assert s[1..][k] == s[k + 1];
        BelowFirst(s, k + 1);
      }
      TailSurvives(once, s[1..], m');
    }
  }

  lemma {:induction false} BelowFirst(s: seq<Edit>, k: nat)
    requires 0 < k < |s| && Descending(s) && forall i :: 0 <= i < |s| && i + 1 < |s| ==> s[i + 1].end <= s[i].start
    ensures s[k].end <= s[0].start
  {
    assert s[k - 1 + 1].end <= s[k - 1].start;
  }

  /** In a descending list of spans that are apart, each ends before the one in front of it starts. */
  lemma ChainEnds(s: seq<Edit>, limit: nat)
    requires Descending(s) && Apart(multiset(s), limit)
    ensures forall k :: 0 <= k < |s| && k + 1 < |s| ==> s[k + 1].end <= s[k].start
  {
    forall k | 0 <= k < |s| && k + 1 < |s| ensures s[k + 1].end <= s[k].start {
      ApartPair(s, limit, k, k + 1);
    }
  }

  /** Two arrangements that differ in one adjacent tied pair give the same output only if the pair commutes. */
  lemma PairShows(buffer: string, x: seq<Edit>, e: Edit, f: Edit, y: seq<Edit>, limit: nat)
    requires Descending(x + [e, f] + y) && Apart(multiset(x + [e, f] + y), limit) && limit <= |buffer|
    requires Descending(x + [f, e] + y) && Fits(buffer, x + [e, f] + y) && Fits(buffer, x + [f, e] + y)
    requires e.start == e.end == f.start == f.end
    requires SpliceAll(buffer, x + [e, f] + y) == SpliceAll(buffer, x + [f, e] + y)
    ensures e.value + f.value == f.value + e.value
  {
    hide SpliceAll, Fits, Apart;
    var s := x + [e, f] + y;
    assert s == x + ([e, f] + y) && x + [f, e] + y == x + ([f, e] + y);
    SplitSplices(buffer, x, [e, f] + y);
    SplitSplices(buffer, x, [f, e] + y);
    var before := SpliceAll(buffer, x);
    FitsHead(before, [e, f] + y);
    SpliceLength(before, e);
    TwoSteps(before, e, f, y);
    TwoSteps(before, f, e, y);
    TwoInsertions(before, e, f);
    TwoInsertions(before, f, e);
    RestBelow(x, e, f, y, limit);
    TailSurvives(SpliceOne(SpliceOne(before, e), f), y, e.start);
    TailSurvives(SpliceOne(SpliceOne(before, f), e), y, e.start);
    SameAfter(before[..e.start], e.value, f.value, before[e.start..]);
  }

  lemma SameAfter(pre: string, a: string, b: string, post: string)
    requires (pre + (a + b) + post)[|pre|..] == (pre + (b + a) + post)[|pre|..]
    ensures a + b == b + a
  {
    assert (pre + (a + b) + post)[|pre|..] == (a + b) + post;
    assert (pre + (b + a) + post)[|pre|..] == (b + a) + post;
    assert ((a + b) + post)[..|a + b|] == a + b;
    assert ((b + a) + post)[..|a + b|] == b + a;
  }

  /** What follows a pair of edits in a descending list lies below the pair. */
  lemma RestBelow(x: seq<Edit>, e: Edit, f: Edit, y: seq<Edit>, limit: nat)
    requires Descending(x + [e, f] + y) && Apart(multiset(x + [e, f] + y), limit)
    ensures Descending(y)
    ensures forall k :: 0 <= k < |y| ==> y[k].end <= e.start && (k + 1 < |y| ==> y[k + 1].end <= y[k].start)
  {
    hide Apart;
    var s := x + [e, f] + y;
    ChainEnds(s, limit);
    forall i, j | 0 <= i < j < |y| ensures y[i].start >= y[j].start {
      assert y[i] == s[|x| + 2 + i] && y[j] == s[|x| + 2 + j];
    }
    forall k | 0 <= k < |y| ensures y[k].end <= e.start && (k + 1 < |y| ==> y[k + 1].end <= y[k].start) {
      assert y[k] == s[|x| + 2 + k];
      ApartPair(s, limit, |x|, |x| + 2 + k);
      if k + 1 < |y| { assert y[k + 1] == s[|x| + 2 + k + 1]; }
    }
  }

  lemma FitsHead(buffer: string, s: seq<Edit>)
    requires s != [] && Fits(buffer, s)
    ensures s[0].start <= s[0].end <= |buffer|
  {
  }

  /** Any two tied edits can be made to arrive next to one another, in both orders. */
  lemma TieShows(input: string, edits: multiset<Edit>, e: Edit, f: Edit)
    requires Apart(edits, |input|) && OrderHidden(input, edits)
    requires e in edits && f in edits && e.start == f.start && e != f
    ensures e.value + f.value == f.value + e.value
  {
    hide Apart, Exchanged, SpliceAll, Fits;
    var any := Listed(edits);
    var d := Exchanged(any);
    ExchangedSorts(any);
    assert e in multiset(d) && f in multiset(d);
    var i :| 0 <= i < |d| && d[i] == e;
    var j :| 0 <= j < |d| && d[j] == f;
    if i < j { TieShowsAt(input, d, i, j); } else { TieShowsAt(input, d, j, i); }
  }

  lemma {:induction false} Listed(edits: multiset<Edit>) returns (s: seq<Edit>)
    ensures multiset(s) == edits
    decreases |edits|
  {
    if edits == multiset{} {
      s := [];
    } else {
      var e :| e in edits;
      var rest := Listed(edits - multiset{e});
      s := rest + [e];
    }
  }

  lemma TieShowsAt(input: string, d: seq<Edit>, i: nat, j: nat)
    requires Apart(multiset(d), |input|) && Descending(d) && OrderHidden(input, multiset(d))
    requires i < j < |d| && d[i].start == d[j].start && d[i] != d[j]
    ensures d[i].value + d[j].value == d[j].value + d[i].value
  {
    hide Apart, Exchanged, SpliceAll, Fits;
    var e, f := d[i], d[j];
    var x, y := d[..i], d[i + 1..j] + d[j + 1..];
    var ef, fe := x + [e, f] + y, x + [f, e] + y;
    Regrouped(d, i, j);
    BothTied(d, |input|, i, j);
    DescendingStays(ef);
    DescendingStays(fe);
    DescendingFits(input, ef, |input|);
    DescendingFits(input, fe, |input|);
    assert Output(input, ef) == Output(input, fe);
    PairShows(input, x, e, f, y, |input|);
  }

  /** Moving a tied edit up to its partner leaves the sequence of starts as it was. */
  lemma RegroupedStarts(d: seq<Edit>, i: nat, j: nat, e: Edit, f: Edit)
    requires i < j < |d| && Descending(d) && e.start == f.start == d[i].start == d[j].start
    ensures Descending(d[..i] + [e, f] + (d[i + 1..j] + d[j + 1..]))
  {
    var s := d[..i] + [e, f] + (d[i + 1..j] + d[j + 1..]);
    forall p | 0 <= p < |s| ensures s[p].start == d[p].start {
      if i + 2 <= p <= j {
        assert s[p] == d[p - 1] && d[i].start >= d[p - 1].start >= d[p].start >= d[j].start;
      } else if p == i + 1 {
        assert s[p] == f && d[i].start >= d[p].start >= d[j].start;
      }
    }
  }

  lemma Parts(d: seq<Edit>, i: nat, j: nat)
    requires i < j < |d|
    ensures multiset(d) == multiset(d[..i]) + multiset{d[i]} + multiset(d[i + 1..j]) + multiset{d[j]} + multiset(d[j + 1..])
  {
    assert d == d[..i] + [d[i]] + d[i + 1..j] + [d[j]] + d[j + 1..];
  }

  lemma Pieces(x: seq<Edit>, e: Edit, f: Edit, a: seq<Edit>, b: seq<Edit>)
    ensures multiset(x + [e, f] + (a + b)) == multiset(x) + multiset{e} + multiset(a) + multiset{f} + multiset(b)
  {
    assert [e, f] == [e] + [f];
  }

  lemma Regrouped(d: seq<Edit>, i: nat, j: nat)
    requires i < j < |d| && Descending(d) && d[i].start == d[j].start
    ensures var x, y := d[..i], d[i + 1..j] + d[j + 1..];
            && Descending(x + [d[i], d[j]] + y) && multiset(x + [d[i], d[j]] + y) == multiset(d)
            && Descending(x + [d[j], d[i]] + y) && multiset(x + [d[j], d[i]] + y) == multiset(d)
  {
    hide Descending;
    RegroupedStarts(d, i, j, d[i], d[j]);
    RegroupedStarts(d, i, j, d[j], d[i]);
    Parts(d, i, j);
    Pieces(d[..i], d[i], d[j], d[i + 1..j], d[j + 1..]);
    Pieces(d[..i], d[j], d[i], d[i + 1..j], d[j + 1..]);
  }

  /**
   For edits that do not overlap, and share starts only as insertions: the output is independent of
   the order in which they arrive exactly when all texts inserted at one offset commute.
   */
  lemma SameOffsetOrderShows(input: string, edits: multiset<Edit>)
    requires Apart(edits, |input|)
    ensures OrderHidden(input, edits) <==> TiesCommute(edits)
  {
    hide Apart, Exchanged, SpliceAll, Fits;
    if TiesCommute(edits) {
      forall a: seq<Edit>, b: seq<Edit> | multiset(a) == edits && multiset(b) == edits
        ensures Output(input, a) == Output(input, b)
      {
        ExchangedSorts(a);
        ExchangedSorts(b);
        SameOutput(input, Exchanged(a), Exchanged(b), |input|);
      }
    }
    if OrderHidden(input, edits) {
      forall e, f | e in edits && f in edits && e.start == f.start ensures e.value + f.value == f.value + e.value {
        if e != f { TieShows(input, edits, e, f); }
      }
    }
  }
}
