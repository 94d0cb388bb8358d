/**
 The byte splicer: replacement spans are sorted by an exchange sort, largest start first, and
 then spliced into the buffer one at a time with their original offsets. It is proved to be
 simultaneous substitution. Bytes are modelled as the characters of a string.
 */
module Splice {
  import opened Basics

  datatype Edit = Edit(start: nat, end: nat, value: string)

  // ----- simultaneous substitution -----

  /** Disjoint spans inside the input, listed left to right from pos. */
  predicate InOrder(edits: seq<Edit>, pos: nat, limit: nat) {
    if edits == [] then pos <= limit
    else pos <= edits[0].start <= edits[0].end && InOrder(edits[1..], edits[0].end, limit)
  }

  predicate DistinctStarts(edits: seq<Edit>) {
    forall i, j :: 0 <= i < j < |edits| ==> edits[i].start != edits[j].start
  }

  lemma {:induction false} InOrderBounds(edits: seq<Edit>, pos: nat, limit: nat)
    requires InOrder(edits, pos, limit)
    ensures pos <= limit
    ensures forall e :: e in edits ==> pos <= e.start <= e.end <= limit
  {
    if edits != [] {
      InOrderBounds(edits[1..], edits[0].end, limit);
      assert edits == [edits[0]] + edits[1..];
    }
  }

  /** input from pos on, with every span replaced by its value. */
  function Substitute(input: string, pos: nat, edits: seq<Edit>): string
    requires InOrder(edits, pos, |input|)
    decreases |edits|
  {
    InOrderBounds(edits, pos, |input|);
    if edits == [] then input[pos..]
    else
      assert edits[0] in edits;
      input[pos..edits[0].start] + edits[0].value + Substitute(input, edits[0].end, edits[1..])
  }

  /** Before its first span, a substitution is the text up to it and a part that does not depend on where it began. */
  lemma SubstituteFrom(input: string, pos: nat, edits: seq<Edit>)
    requires edits != [] && InOrder(edits, pos, |input|)
    ensures edits[0].start <= edits[0].end && InOrder(edits[1..], edits[0].end, |input|) && edits[0].start <= |input|
    ensures Substitute(input, pos, edits)
            == input[pos..edits[0].start] + (edits[0].value + Substitute(input, edits[0].end, edits[1..]))
  {
    InOrderBounds(edits, pos, |input|);
    assert edits[0] in edits;
    Regroup(input[pos..edits[0].start], edits[0].value, Substitute(input, edits[0].end, edits[1..]));
  }

  lemma Regroup(x: string, y: string, z: string)
    ensures (x + y) + z == x + (y + z)
  {
  }

  lemma SliceJoin(input: string, pos: nat, q: nat, end: nat)
    requires pos <= q <= end <= |input|
    ensures input[pos..end] == input[pos..q] + input[q..end]
  {
  }

  /** Text before the first span is copied. */
  lemma SubstituteSkips(input: string, pos: nat, q: nat, edits: seq<Edit>)
    requires pos <= q <= |input| && InOrder(edits, q, |input|)
    ensures InOrder(edits, pos, |input|)
    ensures Substitute(input, pos, edits) == input[pos..q] + Substitute(input, q, edits)
  {
    if edits == [] {
      SliceJoin(input, pos, q, |input|);
      assert input[pos..] == input[pos..|input|] && input[q..] == input[q..|input|];
    } else {
      hide Substitute;
      SubstituteFrom(input, q, edits);
      SubstituteFrom(input, pos, edits);
      SliceJoin(input, pos, q, edits[0].start);
      Regroup(input[pos..q], input[q..edits[0].start], edits[0].value + Substitute(input, edits[0].end, edits[1..]));
    }
  }

  /** One more span to the left is one splice of the buffer, at the original offsets. */
  lemma SubstituteStep(input: string, e: Edit, rest: seq<Edit>)
    requires e.start <= e.end && InOrder(rest, e.end, |input|)
    ensures InOrder(rest, 0, |input|) && InOrder([e] + rest, 0, |input|)
    ensures var out := Substitute(input, 0, rest);
            && e.end <= |out|
            && Substitute(input, 0, [e] + rest) == out[..e.start] + e.value + out[e.end..]
  {
    InOrderBounds(rest, e.end, |input|);
    SubstituteSkips(input, 0, e.end, rest);
    var out, tail := Substitute(input, 0, rest), Substitute(input, e.end, rest);
    assert out == input[..e.end] + tail;
    assert ([e] + rest)[1..] == rest;
    assert out[..e.start] == input[..e.start];
    assert out[e.end..] == tail;
    assert Substitute(input, 0, [e] + rest) == input[0..e.start] + e.value + tail;
  }

  function Growth(edits: seq<Edit>): int {
    if edits == [] then 0 else |edits[0].value| - (edits[0].end - edits[0].start) + Growth(edits[1..])
  }

  lemma {:induction false} SubstituteLength(input: string, pos: nat, edits: seq<Edit>)
    requires InOrder(edits, pos, |input|)
    ensures pos <= |input| && |Substitute(input, pos, edits)| == |input| - pos + Growth(edits)
    decreases |edits|
  {
    InOrderBounds(edits, pos, |input|);
    if edits != [] {
      assert edits[0] in edits;
      SubstituteLength(input, edits[0].end, edits[1..]);
    }
  }

  /** How far the byte at i moves: by the growth of the spans that end at or before it. */
  function Shift(edits: seq<Edit>, i: nat): int {
    if edits == [] || edits[0].end > i then 0
    else |edits[0].value| - (edits[0].end - edits[0].start) + Shift(edits[1..], i)
  }

  /** Every byte outside the spans survives, at its shifted offset. */
  lemma {:induction false} OutsideBytesSurvive(input: string, pos: nat, edits: seq<Edit>, i: nat)
    requires InOrder(edits, pos, |input|) && pos <= i < |input|
    requires forall e :: e in edits ==> i < e.start || e.end <= i
    ensures var j := i - pos + Shift(edits, i);
            0 <= j < |Substitute(input, pos, edits)| && Substitute(input, pos, edits)[j] == input[i]
    decreases |edits|
  {
    InOrderBounds(edits, pos, |input|);
    if edits != [] {
      var e := edits[0];
      assert e in edits;
      var rest := Substitute(input, e.end, edits[1..]);
      assert Substitute(input, pos, edits) == input[pos..e.start] + e.value + rest;
      if e.end <= i {
        OutsideBytesSurvive(input, e.end, edits[1..], i);
        var k := i - e.end + Shift(edits[1..], i);
        assert (input[pos..e.start] + e.value + rest)[e.start - pos + |e.value| + k] == rest[k];
      }
    }
  }

  /** Substitution of a run of spans, then of whatever follows them. */
  lemma {:induction false} SubstituteSplit(input: string, pos: nat, mid: nat, a: seq<Edit>, b: seq<Edit>)
    requires pos <= mid <= |input| && InOrder(a, pos, mid) && InOrder(b, mid, |input|)
    ensures InOrder(a + b, pos, |input|)
    ensures Substitute(input, pos, a + b) == Substitute(input[..mid], pos, a) + Substitute(input, mid, b)
    decreases |a|
  {
    if a == [] {
      assert a + b == b;
      SubstituteSkips(input, pos, mid, b);
      assert input[..mid][pos..] == input[pos..mid];
    } else {
      InOrderBounds(a, pos, mid);
      var e := a[0];
      assert e in a;
      SubstituteSplit(input, e.end, mid, a[1..], b);
      assert (a + b)[1..] == a[1..] + b;
      assert input[..mid][pos..e.start] == input[pos..e.start];
      calc {
        Substitute(input, pos, a + b);
        input[pos..e.start] + e.value + Substitute(input, e.end, a[1..] + b);
        input[pos..e.start] + e.value + (Substitute(input[..mid], e.end, a[1..]) + Substitute(input, mid, b));
        Substitute(input[..mid], pos, a) + Substitute(input, mid, b);
      }
    }
  }

  // ----- the exchange sort -----

  ghost predicate Descending(edits: seq<Edit>) {
    forall i, j :: 0 <= i < j < |edits| ==> edits[i].start >= edits[j].start
  }

  function Backwards(edits: seq<Edit>): (r: seq<Edit>)
    ensures |r| == |edits|
    ensures forall i :: 0 <= i < |r| ==> r[i] == edits[|edits| - 1 - i]
    ensures multiset(r) == multiset(edits)
  {
    if edits == [] then []
    else
      var last := |edits| - 1;
      assert edits == edits[..last] + [edits[last]];
      [edits[last]] + Backwards(edits[..last])
  }

  /** The inner loop of the sort: the rest of the row for position i, from column j on. */
  function ExchangeRow(s: seq<Edit>, i: nat, j: nat): (r: seq<Edit>)
    requires i < j <= |s|
    ensures |r| == |s|
    decreases |s| - j
  {
    if j == |s| then s
    else if s[i].start < s[j].start then ExchangeRow(s[i := s[j]][j := s[i]], i, j + 1)
    else ExchangeRow(s, i, j + 1)
  }

  function ExchangeRows(s: seq<Edit>, i: nat): (r: seq<Edit>)
    requires i <= |s|
    ensures |r| == |s|
    decreases |s| - i
  {
    if i == |s| then s else ExchangeRows(ExchangeRow(s, i, i + 1), i + 1)
  }

  /** The order in which the exchange sort leaves the edits. */
  function Exchanged(s: seq<Edit>): (r: seq<Edit>)
    ensures |r| == |s|
  {
    ExchangeRows(s, 0)
  }

  method ExchangeSort(edits: array<Edit>)
    modifies edits
    ensures edits[..] == Exchanged(old(edits[..]))
  {
    var i := 0;
    ghost var goal := Exchanged(edits[..]);
    while i < edits.Length
      invariant 0 <= i <= edits.Length
      invariant ExchangeRows(edits[..], i) == goal
    {
      ghost var row := ExchangeRow(edits[..], i, i + 1);
      ExchangeRowInPlace(edits, i);
      i := i + 1;
    }
  }

  method ExchangeRowInPlace(edits: array<Edit>, i: nat)
    requires i < edits.Length
    modifies edits
    ensures edits[..] == ExchangeRow(old(edits[..]), i, i + 1)
  {
    var j := i + 1;
    ghost var row := ExchangeRow(edits[..], i, j);
    while j < edits.Length
      invariant i < j <= edits.Length
      invariant ExchangeRow(edits[..], i, j) == row
    {
      ghost var s := edits[..];
      if edits[i].start < edits[j].start {
        edits[i], edits[j] := edits[j], edits[i];
        assert edits[..] == s[i := s[j]][j := s[i]];
      }
      j := j + 1;
    }
  }

  /** Every position before n is no smaller than all that follow it. */
  ghost predicate DescendsTo(s: seq<Edit>, n: nat) {
    forall a, b :: 0 <= a < n && a < b < |s| ==> s[a].start >= s[b].start
  }

  lemma {:induction false} RowDescends(s: seq<Edit>, i: nat, j: nat)
    requires i < j <= |s| && DescendsTo(s, i) && forall b :: i < b < j ==> s[i].start >= s[b].start
    ensures |ExchangeRow(s, i, j)| == |s| && DescendsTo(ExchangeRow(s, i, j), i + 1)
    decreases |s| - j
  {
    if j < |s| {
      if s[i].start < s[j].start {
        var t := s[i := s[j]][j := s[i]];
        forall a, b | 0 <= a < i && a < b < |t| ensures t[a].start >= t[b].start {
          assert t[a] == s[a] && (t[b] == s[b] || t[b] == s[i] || t[b] == s[j]);
        }
        RowDescends(t, i, j + 1);
      } else {
        RowDescends(s, i, j + 1);
      }
    }
  }

  lemma {:induction false} RowsDescend(s: seq<Edit>, i: nat)
    requires i <= |s| && DescendsTo(s, i)
    ensures Descending(ExchangeRows(s, i))
    decreases |s| - i
  {
    if i < |s| {
      RowDescends(s, i, i + 1);
      RowsDescend(ExchangeRow(s, i, i + 1), i + 1);
    }
  }

  lemma SwapPermutes(s: seq<Edit>, i: nat, j: nat)
    requires i < j < |s|
    ensures multiset(s[i := s[j]][j := s[i]]) == multiset(s)
  {
  }

  lemma {:induction false} RowPermutes(s: seq<Edit>, i: nat, j: nat)
    requires i < j <= |s|
    ensures multiset(ExchangeRow(s, i, j)) == multiset(s)
    decreases |s| - j
  {
    if j < |s| {
      if s[i].start < s[j].start {
        SwapPermutes(s, i, j);
        RowPermutes(s[i := s[j]][j := s[i]], i, j + 1);
      } else {
        RowPermutes(s, i, j + 1);
      }
    }
  }

  lemma {:induction false} RowsPermute(s: seq<Edit>, i: nat)
    requires i <= |s|
    ensures multiset(ExchangeRows(s, i)) == multiset(s)
    decreases |s| - i
  {
    if i < |s| {
      RowPermutes(s, i, i + 1);
      RowsPermute(ExchangeRow(s, i, i + 1), i + 1);
    }
  }

  /** The sort sorts: largest start first, with the same edits. */
  lemma ExchangedSorts(s: seq<Edit>)
    ensures Descending(Exchanged(s)) && multiset(Exchanged(s)) == multiset(s)
  {
    RowsDescend(s, 0);
    RowsPermute(s, 0);
  }

  lemma {:induction false} RowStays(s: seq<Edit>, i: nat, j: nat)
    requires i < j <= |s| && Descending(s)
    ensures ExchangeRow(s, i, j) == s
    decreases |s| - j
  {
    if j < |s| { RowStays(s, i, j + 1); }
  }

  lemma {:induction false} RowsStay(s: seq<Edit>, i: nat)
    requires i <= |s| && Descending(s)
    ensures ExchangeRows(s, i) == s
    decreases |s| - i
  {
    if i < |s| {
      RowStays(s, i, i + 1);
      RowsStay(s, i + 1);
    }
  }

  /** Edits that arrive in descending order, ties and all, stay as they are. */
  lemma DescendingStays(s: seq<Edit>)
    requires Descending(s)
    ensures Exchanged(s) == s
  {
    RowsStay(s, 0);
  }

  ghost predicate Ascending(edits: seq<Edit>) {
    forall i, j :: 0 <= i < j < |edits| ==> edits[i].start < edits[j].start
  }

  lemma {:induction false} InOrderAscends(edits: seq<Edit>, pos: nat, limit: nat)
    requires InOrder(edits, pos, limit) && DistinctStarts(edits)
    ensures Ascending(edits)
  {
    if edits != [] {
      InOrderAscends(edits[1..], edits[0].end, limit);
      InOrderBounds(edits[1..], edits[0].end, limit);
      forall j | 1 <= j < |edits| ensures edits[0].start < edits[j].start {
        assert edits[j] in edits[1..];
      }
    }
  }

  /** Strictly increasing starts leave only one arrangement of a set of spans. */
  lemma {:induction false} AscendingIsUnique(a: seq<Edit>, b: seq<Edit>)
    requires Ascending(a) && Ascending(b)
    requires forall e :: e in a <==> e in b
    ensures a == b
  {
    SomeElement(b);
    if a != [] {
      assert a[0] in b;
      assert b[0] in a;
      assert a[0] == b[0];
      forall e ensures e in a[1..] <==> e in b[1..] {
        assert e in a[1..] <==> e in a && e != a[0];
        assert e in b[1..] <==> e in b && e != b[0];
      }
      AscendingIsUnique(a[1..], b[1..]);
      assert a == [a[0]] + a[1..] && b == [b[0]] + b[1..];
    }
  }

  lemma DistinctByCount(edits: seq<Edit>, i: nat, j: nat)
    requires i < j < |edits| && edits[i] == edits[j]
    ensures multiset(edits)[edits[i]] >= 2
  {
    assert edits == edits[..i] + [edits[i]] + edits[i + 1..j] + [edits[j]] + edits[j + 1..];
  }

  /** Descending spans with the elements of strictly ordered ones have distinct starts too. */
  lemma DescendingIsStrict(sorted: seq<Edit>, ordered: seq<Edit>)
    requires multiset(sorted) == multiset(ordered) && Descending(sorted) && Ascending(ordered)
    ensures forall i, j :: 0 <= i < j < |sorted| ==> sorted[i].start > sorted[j].start
  {
    forall i, j | 0 <= i < j < |sorted| ensures sorted[i].start > sorted[j].start {
      if sorted[i].start == sorted[j].start {
        assert sorted[i] in multiset(ordered) && sorted[j] in multiset(ordered);
        assert sorted[i] == sorted[j];
        DistinctByCount(sorted, i, j);
        DistinctCount(ordered, sorted[i]);
      }
    }
  }

  lemma BackwardsTwice(a: seq<Edit>, b: seq<Edit>)
    requires b == Backwards(a)
    ensures a == Backwards(b)
  {
    hide Backwards;
    forall i | 0 <= i < |a| ensures a[i] == Backwards(b)[i] {
      assert b[|a| - 1 - i] == a[i];
    }
  }

  /** A descending permutation of strictly ordered spans is those spans backwards. */
  lemma DescendingIsBackwards(sorted: seq<Edit>, ordered: seq<Edit>)
    requires multiset(sorted) == multiset(ordered) && Descending(sorted) && Ascending(ordered)
    ensures sorted == Backwards(ordered)
  {
    hide Backwards;
    DescendingIsStrict(sorted, ordered);
    var a := Backwards(sorted);
    forall e ensures e in a <==> e in ordered {
      assert e in a <==> e in multiset(a);
      assert e in ordered <==> e in multiset(ordered);
    }
    AscendingIsUnique(a, ordered);
    BackwardsTwice(sorted, a);
  }

  lemma {:induction false} InOrderSuffix(edits: seq<Edit>, pos: nat, limit: nat, k: nat)
    requires InOrder(edits, pos, limit) && k < |edits|
    ensures edits[k].start <= edits[k].end && InOrder(edits[k + 1..], edits[k].end, limit)
    decreases k
  {
    if k > 0 {
      InOrderSuffix(edits[1..], edits[0].end, limit, k - 1);
      assert edits[1..][k..] == edits[k + 1..];
    }
  }

  function SpliceOne(buffer: string, e: Edit): string
    requires e.start <= e.end <= |buffer|
  {
    buffer[..e.start] + e.value + buffer[e.end..]
  }

  /** The splice for span k turns the substitution of the spans after k into that of the spans from k. */
  lemma SpliceStep(input: string, ordered: seq<Edit>, k: nat)
    requires InOrder(ordered, 0, |input|) && k < |ordered|
    ensures InOrder(ordered[k + 1..], 0, |input|) && InOrder(ordered[k..], 0, |input|)
    ensures ordered[k].start <= ordered[k].end <= |Substitute(input, 0, ordered[k + 1..])|
    ensures Substitute(input, 0, ordered[k..]) == SpliceOne(Substitute(input, 0, ordered[k + 1..]), ordered[k])
  {
    InOrderSuffix(ordered, 0, |input|, k);
    assert ordered[k..] == [ordered[k]] + ordered[k + 1..];
    SubstituteStep(input, ordered[k], ordered[k + 1..]);
  }

  // ----- splicing a sorted list -----

  /** Spans inside the input that do not overlap; only insertions may share a start. */
  ghost predicate Apart(edits: multiset<Edit>, limit: nat) {
    && (forall e :: e in edits ==> e.start <= e.end <= limit)
    && (forall e, f :: e in edits && f in edits && e.start < f.start ==> e.end <= f.start)
    && (forall e, f :: e in edits && f in edits && e.start == f.start && (e != f || edits[e] > 1) ==> e.start == e.end)
  }

  predicate Fits(buffer: string, edits: seq<Edit>)
    decreases |edits|
  {
    edits == [] || (edits[0].start <= edits[0].end <= |buffer| && Fits(SpliceOne(buffer, edits[0]), edits[1..]))
  }

  /** The splices one after the other, each with its original offsets. */
  function SpliceAll(buffer: string, edits: seq<Edit>): string
    requires Fits(buffer, edits)
    decreases |edits|
  {
    if edits == [] then buffer else SpliceAll(SpliceOne(buffer, edits[0]), edits[1..])
  }

  /** In a descending list, a later span ends before an earlier one starts. */
  lemma ApartPair(edits: seq<Edit>, limit: nat, i: nat, j: nat)
    requires i < j < |edits| && Apart(multiset(edits), limit) && Descending(edits)
    ensures edits[j].start <= edits[j].end <= edits[i].start <= edits[i].end <= limit
  {
    assert edits[i] in multiset(edits) && edits[j] in multiset(edits);
    if edits[i] == edits[j] { DistinctByCount(edits, i, j); }
  }

  lemma ApartPart(part: multiset<Edit>, whole: multiset<Edit>, limit: nat)
    requires part <= whole && Apart(whole, limit)
    ensures Apart(part, limit)
  {
  }

  lemma ApartWithin(edits: multiset<Edit>, limit: nat, tighter: nat)
    requires Apart(edits, limit) && forall e :: e in edits ==> e.end <= tighter
    ensures Apart(edits, tighter)
  {
  }

  lemma TailPart(edits: seq<Edit>)
    requires edits != []
    ensures multiset(edits[1..]) <= multiset(edits)
  {
    assert edits == [edits[0]] + edits[1..];
  }

  lemma ApartTail(edits: seq<Edit>, limit: nat)
    requires edits != [] && Apart(multiset(edits), limit) && Descending(edits)
    ensures Apart(multiset(edits[1..]), edits[0].start) && edits[0].start <= edits[0].end <= limit
  {
    hide Apart, Descending;
    var e, rest := edits[0], edits[1..];
    TailPart(edits);
    ApartPart(multiset(rest), multiset(edits), limit);
    forall f: Edit | f in multiset(rest) ensures f.end <= e.start {
      var k :| 0 <= k < |rest| && rest[k] == f;
      ApartPair(edits, limit, 0, k + 1);
    }
    ApartWithin(multiset(rest), limit, e.start);
    ApartHead(edits, limit);
  }

  lemma ApartHead(edits: seq<Edit>, limit: nat)
    requires edits != [] && Apart(multiset(edits), limit)
    ensures edits[0].start <= edits[0].end <= limit
  {
    assert edits[0] in multiset(edits);
  }

  /** Sorted spans that are apart can all be spliced: a splice leaves everything to its left in place. */
  lemma {:induction false} DescendingFits(buffer: string, edits: seq<Edit>, limit: nat)
    requires Descending(edits) && Apart(multiset(edits), limit) && limit <= |buffer|
    ensures Fits(buffer, edits)
    decreases |edits|
  {
    if edits != [] {
      ApartTail(edits, limit);
      DescendingFits(SpliceOne(buffer, edits[0]), edits[1..], edits[0].start);
    }
  }

  /** What the tail of applyYAMLEdits makes of edits that arrive in this order. */
  ghost function Output(input: string, edits: seq<Edit>): string
    requires Apart(multiset(edits), |input|)
  {
    ExchangedSorts(edits);
    DescendingFits(input, Exchanged(edits), |input|);
    SpliceAll(input, Exchanged(edits))
  }

  /** The tail of applyYAMLEdits: sort in place, then splice. */
  method SortAndSplice(input: string, edits: array<Edit>) returns (out: string)
    requires Apart(multiset(edits[..]), |input|)
    modifies edits
    ensures out == Output(input, old(edits[..]))
  {
    ghost var arrival := edits[..];
    ExchangeSort(edits);
    ExchangedSorts(arrival);
    DescendingFits(input, edits[..], |input|);
    ghost var goal := SpliceAll(input, edits[..]);
    assert edits[..][0..] == edits[..];
    out := input;
    for k := 0 to edits.Length
      invariant edits[..] == Exchanged(arrival)
      invariant Fits(out, edits[..][k..]) && SpliceAll(out, edits[..][k..]) == goal
    {
      var edit := edits[k];
      assert edits[..][k..][0] == edit && edits[..][k..][1..] == edits[..][k + 1..];
      out := out[..edit.start] + edit.value + out[edit.end..];
    }
    assert edits[..][edits.Length..] == [];
  }

  // ----- distinct starts: one outcome -----

  /** Edits share a start only as insertions. */
  predicate OnlyInsertionsTie(edits: seq<Edit>) {
    forall i, j :: 0 <= i < j < |edits| && edits[i].start == edits[j].start ==>
      edits[i].end == edits[i].start && edits[j].end == edits[j].start
  }

  lemma {:induction false} InOrderPair(edits: seq<Edit>, pos: nat, limit: nat, i: nat, j: nat)
    requires InOrder(edits, pos, limit) && i < j < |edits|
    ensures edits[i].end <= edits[j].start
  {
    if i == 0 {
      InOrderBounds(edits[1..], edits[0].end, limit);
      assert edits[j] == edits[1..][j - 1];
    } else {
      InOrderPair(edits[1..], edits[0].end, limit, i - 1, j - 1);
    }
  }

  lemma TwoPlaces(edits: seq<Edit>, e: Edit) returns (i: nat, j: nat)
    requires multiset(edits)[e] > 1
    ensures i < j < |edits| && edits[i] == e == edits[j]
  {
    var k :| 0 <= k < |edits| && edits[k] == e;
    assert edits == edits[..k] + [e] + edits[k + 1..];
    assert e in edits[..k] || e in edits[k + 1..];
    var l :| 0 <= l < |edits| && l != k && edits[l] == e;
    i, j := if k < l then k else l, if k < l then l else k;
  }

  lemma OrderedApart(ordered: seq<Edit>, limit: nat)
    requires InOrder(ordered, 0, limit) && OnlyInsertionsTie(ordered)
    ensures Apart(multiset(ordered), limit)
  {
    hide InOrder;
    InOrderBounds(ordered, 0, limit);
    forall e: Edit, f: Edit | e in multiset(ordered) && f in multiset(ordered)
      ensures e.start < f.start ==> e.end <= f.start
      ensures e.start == f.start && (e != f || multiset(ordered)[e] > 1) ==> e.start == e.end
    {
      assert e in ordered && f in ordered;
      var i :| 0 <= i < |ordered| && ordered[i] == e;
      var j :| 0 <= j < |ordered| && ordered[j] == f;
      if i < j { InOrderPair(ordered, 0, limit, i, j); }
      if j < i { InOrderPair(ordered, 0, limit, j, i); }
      if multiset(ordered)[e] > 1 { var k, l := TwoPlaces(ordered, e); }
    }
  }

  lemma BackwardsStep(ordered: seq<Edit>, k: nat)
    requires 0 < k <= |ordered|
    ensures Backwards(ordered[..k]) == [ordered[k - 1]] + Backwards(ordered[..k - 1])
  {
    assert ordered[..k][..k - 1] == ordered[..k - 1];
  }

  lemma {:induction false} SpliceBackwards(input: string, ordered: seq<Edit>, k: nat)
    requires InOrder(ordered, 0, |input|) && k <= |ordered|
    ensures InOrder(ordered[k..], 0, |input|) && InOrder(ordered, 0, |input|)
    ensures var rest := Backwards(ordered[..k]);
            var out := Substitute(input, 0, ordered[k..]);
            Fits(out, rest) && SpliceAll(out, rest) == Substitute(input, 0, ordered)
    decreases k
  {
    hide InOrder, Substitute, Backwards;
    if k == 0 {
      assert ordered[0..] == ordered;
      assert Backwards(ordered[..0]) == [];
    } else {
      SpliceBackwards(input, ordered, k - 1);
      SpliceStep(input, ordered, k - 1);
      BackwardsStep(ordered, k);
    }
  }

  /**
   With distinct starts, whatever order the edits arrive in, the outcome is the simultaneous
   substitution of the ordered spans.
   */
  lemma OutputSubstitutes(input: string, edits: seq<Edit>, ordered: seq<Edit>)
    requires multiset(edits) == multiset(ordered) && InOrder(ordered, 0, |input|) && DistinctStarts(ordered)
    ensures Apart(multiset(edits), |input|) && Output(input, edits) == Substitute(input, 0, ordered)
  {
    hide Backwards, Exchanged, InOrder;
    OrderedApart(ordered, |input|);
    InOrderAscends(ordered, 0, |input|);
    ExchangedSorts(edits);
    DescendingIsBackwards(Exchanged(edits), ordered);
    SpliceBackwards(input, ordered, |ordered|);
    assert ordered[..|ordered|] == ordered && ordered[|ordered|..] == [];
    NothingSubstituted(input);
  }

  lemma NothingSubstituted(input: string)
    ensures InOrder([], 0, |input|) && Substitute(input, 0, []) == input
  {
  }
}
