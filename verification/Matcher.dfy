/**
 Tag selection: which tags match the pattern, and which match is the newest.
 A compiled regular expression is its group names and a partial function from a tag
 to the submatches; the library sort is an insertion sort here.
 */
module Matcher {
  import opened Basics
  import opened Text

  datatype Match = Match(tag: string, captures: map<string, string>)

  datatype Pattern = Pattern(names: seq<string>, find: string -> Option<seq<string>>)

  /** regexp's contract: one submatch per group, and no group name is used twice. */
  ghost predicate ValidPattern(p: Pattern) {
    && (forall t :: p.find(t).Some? ==> |p.find(t).value| == |p.names|)
    && (forall i, j :: 0 <= i < j < |p.names| && p.names[i] == p.names[j] ==> p.names[i] == "")
  }

  function Captures(names: seq<string>, sub: seq<string>): map<string, string>
    requires |sub| == |names|
  {
    if names == [] then map[]
    else
      var last := |names| - 1;
      var before := Captures(names[..last], sub[..last]);
      if names[last] == "" then before else before[names[last] := sub[last]]
  }

  function Matches(p: Pattern, tags: seq<string>): seq<Match>
    requires forall t :: p.find(t).Some? ==> |p.find(t).value| == |p.names|
  {
    if tags == [] then []
    else
      var last := |tags| - 1;
      var before := Matches(p, tags[..last]);
      match p.find(tags[last])
      case None => before
      case Some(sub) => before + [Match(tags[last], Captures(p.names, sub))]
  }

  method All(p: Pattern, tags: seq<string>) returns (results: seq<Match>)
    requires ValidPattern(p)
    ensures results == Matches(p, tags)
  {
    results := [];
    for k := 0 to |tags|
      invariant results == Matches(p, tags[..k])
    {
      var sub := p.find(tags[k]);
      assert tags[..k + 1][..k] == tags[..k];
      if sub.Some? {
        var captures: map<string, string> := map[];
        for i := 0 to |p.names|
          invariant captures == Captures(p.names[..i], sub.value[..i])
        {
          assert p.names[..i + 1][..i] == p.names[..i] && sub.value[..i + 1][..i] == sub.value[..i];
          if p.names[i] != "" {
            captures := captures[p.names[i] := sub.value[i]];
          }
        }
        assert p.names[..|p.names|] == p.names && sub.value[..|p.names|] == sub.value;
        results := results + [Match(tags[k], captures)];
      }
    }
    assert tags[..|tags|] == tags;
  }

  /** Every named group's submatch is found under its name, and nothing else is captured. */
  lemma {:induction false} CapturesByName(p: Pattern, tag: string)
    requires ValidPattern(p) && p.find(tag).Some?
    ensures var sub := p.find(tag).value;
            var c := Captures(p.names, sub);
            && (forall i :: 0 <= i < |p.names| && p.names[i] != "" ==> p.names[i] in c && c[p.names[i]] == sub[i])
            && (forall key :: key in c ==> key in p.names && key != "")
  {
    CapturesPrefix(p, p.find(tag).value, |p.names|);
    assert p.names[..|p.names|] == p.names && p.find(tag).value[..|p.names|] == p.find(tag).value;
  }

  lemma {:induction false} CapturesPrefix(p: Pattern, sub: seq<string>, n: nat)
    requires ValidPattern(p) && |sub| == |p.names| && n <= |p.names|
    ensures var c := Captures(p.names[..n], sub[..n]);
            && (forall i :: 0 <= i < n && p.names[i] != "" ==> p.names[i] in c && c[p.names[i]] == sub[i])
            && (forall key :: key in c ==> key in p.names[..n] && key != "")
  {
    if n > 0 {
      CapturesPrefix(p, sub, n - 1);
      assert p.names[..n][..n - 1] == p.names[..n - 1] && sub[..n][..n - 1] == sub[..n - 1];
      assert p.names[..n] == p.names[..n - 1] + [p.names[n - 1]];
    }
  }

  /** The tags that survive are exactly the ones the pattern accepts. */
  lemma {:induction false} MatchesExactly(p: Pattern, tags: seq<string>, m: Match)
    requires ValidPattern(p)
    ensures m in Matches(p, tags) <==>
            m.tag in tags && p.find(m.tag).Some? && m.captures == Captures(p.names, p.find(m.tag).value)
  {
    if tags != [] {
      var last := |tags| - 1;
      MatchesExactly(p, tags[..last], m);
      assert tags == tags[..last] + [tags[last]];
    }
  }

  // ----- the order -----

  function Number(m: Match): Option<int> {
    Atoi(Get(m.captures, "n"))
  }

  /** The comparator handed to the sort: by number when both are numeric, else by tag, descending. */
  predicate Before(a: Match, b: Match) {
    if Number(a).Some? && Number(b).Some? then Number(a).value > Number(b).value
    else Less(b.tag, a.tag)
  }

  ghost predicate AllNumeric(ms: seq<Match>) {
    forall m :: m in ms ==> Number(m).Some?
  }

  ghost predicate NoneNumeric(ms: seq<Match>) {
    forall m :: m in ms ==> Number(m).None?
  }

  ghost predicate Transitive(ms: seq<Match>) {
    forall a, b, c :: a in ms && b in ms && c in ms && Before(a, b) && Before(b, c) ==> Before(a, c)
  }

  ghost predicate SortedBy(ms: seq<Match>) {
    forall i, j :: 0 <= i < j < |ms| ==> !Before(ms[j], ms[i])
  }

  /** What a sort needs to be told to put ms in order: a strict weak order. */
  ghost predicate WeakOrder(ms: seq<Match>) {
    && Transitive(ms)
    && (forall a, b, c :: a in ms && b in ms && c in ms && !Before(b, a) && !Before(c, b) ==> !Before(c, a))
  }

  lemma UniformIsWeakOrder(ms: seq<Match>)
    requires AllNumeric(ms) || NoneNumeric(ms)
    ensures WeakOrder(ms)
  {
    forall a, b, c | a in ms && b in ms && c in ms
      ensures Before(a, b) && Before(b, c) ==> Before(a, c)
      ensures !Before(b, a) && !Before(c, b) ==> !Before(c, a)
    {
      if !AllNumeric(ms) {
        if Less(b.tag, a.tag) && Less(c.tag, b.tag) { LessTransitive(c.tag, b.tag, a.tag); }
        if Less(a.tag, c.tag) {
          LessTotal(a.tag, b.tag);
          LessTotal(b.tag, c.tag);
          if Less(b.tag, a.tag) { LessTransitive(b.tag, a.tag, c.tag); }
        }
      }
    }
  }

  /**
   Two numeric matches and a non-numeric one whose tag lies between theirs, where the
   numeric order disagrees with the tag order.
   */
  ghost predicate Straddle(ms: seq<Match>, a: Match, b: Match, c: Match) {
    && a in ms && b in ms && c in ms
    && Number(a).Some? && Number(c).Some? && Number(b).None?
    && (|| (Number(a).value > Number(c).value && !Less(b.tag, a.tag) && Less(b.tag, c.tag))
        || (Number(a).value > Number(c).value && Less(a.tag, b.tag) && !Less(c.tag, b.tag))
        || (Number(a).value >= Number(c).value && Less(a.tag, b.tag) && Less(b.tag, c.tag)))
  }

  /** The comparator is transitive exactly when no non-numeric tag straddles a pair of numeric ones. */
  lemma TransitiveIffNoStraddle(ms: seq<Match>)
    ensures Transitive(ms) <==> !exists a, b, c :: Straddle(ms, a, b, c)
  {
    if exists a, b, c :: Straddle(ms, a, b, c) {
      var a, b, c :| Straddle(ms, a, b, c);
      StraddleCycles(ms, a, b, c);
    } else {
      forall a, b, c | a in ms && b in ms && c in ms && Before(a, b) && Before(b, c)
        ensures Before(a, c)
      {
        if !Before(a, c) { UnorderedStraddles(ms, a, b, c); }
      }
    }
  }

  lemma StraddleCycles(ms: seq<Match>, a: Match, b: Match, c: Match)
    requires Straddle(ms, a, b, c)
    ensures !Transitive(ms)
  {
    LessTotal(a.tag, b.tag);
    LessTotal(b.tag, c.tag);
    if Number(a).value > Number(c).value && !Less(b.tag, a.tag) && Less(b.tag, c.tag) {
      assert Before(a, c) && Before(c, b) && !Before(a, b);
    } else if Number(a).value > Number(c).value && Less(a.tag, b.tag) && !Less(c.tag, b.tag) {
      assert Before(b, a) && Before(a, c) && !Before(b, c);
    } else {
      assert Before(c, b) && Before(b, a) && !Before(c, a);
    }
  }

  lemma UnorderedStraddles(ms: seq<Match>, a: Match, b: Match, c: Match)
    requires a in ms && b in ms && c in ms && Before(a, b) && Before(b, c) && !Before(a, c)
    ensures exists x, y, z :: Straddle(ms, x, y, z)
  {
    if Less(c.tag, b.tag) && Less(b.tag, a.tag) { LessTransitive(c.tag, b.tag, a.tag); }
    if Number(b).None? {
      assert Straddle(ms, c, b, a);
    } else if Number(a).None? {
      assert Straddle(ms, b, a, c);
    } else {
      assert Straddle(ms, a, c, b);
    }
  }

  /** A mixed list on which no match is newest: "a" beats "c" by number, and both lose around "b". */
  lemma MixedNumbersCycle()
    ensures var a := Match("a", map["n" := "3"]);
            var b := Match("b", map["n" := "rc"]);
            var c := Match("c", map["n" := "1"]);
            Before(a, c) && Before(c, b) && Before(b, a) && !Transitive([a, b, c])
  {
    var a := Match("a", map["n" := "3"]);
    var b := Match("b", map["n" := "rc"]);
    var c := Match("c", map["n" := "1"]);
    assert DigitsValue("3") == 3 && DigitsValue("1") == 1;
    assert !IsDigit("rc"[0]);
    assert Straddle([a, b, c], a, b, c);
    StraddleCycles([a, b, c], a, b, c);
  }

  // ----- the sort and Latest -----

  function Insert(m: Match, sorted: seq<Match>): (r: seq<Match>)
    ensures multiset(r) == multiset([m]) + multiset(sorted)
  {
    if sorted == [] || !Before(sorted[0], m) then [m] + sorted
    else
      assert sorted == [sorted[0]] + sorted[1..];
      [sorted[0]] + Insert(m, sorted[1..])
  }

  function SortMatches(ms: seq<Match>): (r: seq<Match>)
    ensures multiset(r) == multiset(ms)
  {
    if ms == [] then [] else
      assert ms == [ms[0]] + ms[1..];
      Insert(ms[0], SortMatches(ms[1..]))
  }

  lemma {:induction false} InsertSorted(m: Match, sorted: seq<Match>, pool: seq<Match>)
    requires SortedBy(sorted) && WeakOrder(pool)
    requires m in pool && forall x :: x in sorted ==> x in pool
    ensures SortedBy(Insert(m, sorted))
  {
    var r := Insert(m, sorted);
    if sorted == [] {
    } else if !Before(sorted[0], m) {
      forall j | 1 <= j < |r| ensures !Before(r[j], m) {
        assert r[j] == sorted[j - 1] && sorted[j - 1] in pool;
      }
    } else {
      InsertSorted(m, sorted[1..], pool);
      var rest := Insert(m, sorted[1..]);
      forall j | 0 <= j < |rest| ensures !Before(rest[j], sorted[0]) {
        assert rest[j] in multiset(rest);
        assert rest[j] in multiset([m]) + multiset(sorted[1..]);
        assert rest[j] == m || rest[j] in sorted[1..];
        if rest[j] == m && Before(m, sorted[0]) {
          assert Before(m, m);
          LessIrreflexive(m.tag);
        }
      }
    }
  }

  lemma {:induction false} SortSorts(ms: seq<Match>, pool: seq<Match>)
    requires WeakOrder(pool) && forall x :: x in ms ==> x in pool
    ensures SortedBy(SortMatches(ms))
  {
    if ms != [] {
      SortSorts(ms[1..], pool);
      var tail := SortMatches(ms[1..]);
      forall x | x in tail ensures x in pool {
        assert x in multiset(tail);
        assert x in ms[1..];
      }
      InsertSorted(ms[0], tail, pool);
    }
  }

  function LatestOf(p: Pattern, tags: seq<string>): Option<Match>
    requires forall t :: p.find(t).Some? ==> |p.find(t).value| == |p.names|
  {
    var ms := Matches(p, tags);
    if ms == [] then None
    else
      assert |multiset(SortMatches(ms))| == |ms|;
      Some(SortMatches(ms)[0])
  }

  method Latest(p: Pattern, tags: seq<string>) returns (r: Option<Match>)
    requires ValidPattern(p)
    ensures r == LatestOf(p, tags)
  {
    var matches := All(p, tags);
    if |matches| == 0 {
      return None;
    }
    var sorted := SortMatches(matches);
    assert |multiset(sorted)| == |matches|;
    return Some(sorted[0]);
  }

  /** Whatever is returned is one of the matches, and something is returned whenever a tag matches. */
  lemma LatestIsAMatch(p: Pattern, tags: seq<string>)
    requires ValidPattern(p)
    ensures LatestOf(p, tags).None? <==> Matches(p, tags) == []
    ensures LatestOf(p, tags).Some? ==> LatestOf(p, tags).value in Matches(p, tags)
  {
    var ms := Matches(p, tags);
    if ms != [] {
      var sorted := SortMatches(ms);
      assert |multiset(sorted)| == |ms|;
      assert sorted[0] in multiset(sorted);
    }
  }

  /** With a uniform "n", nothing in the list comes before what Latest picks. */
  lemma LatestIsNewest(p: Pattern, tags: seq<string>, other: Match)
    requires ValidPattern(p)
    requires AllNumeric(Matches(p, tags)) || NoneNumeric(Matches(p, tags))
    requires other in Matches(p, tags)
    ensures var latest := LatestOf(p, tags);
            && latest.Some? && latest.value in Matches(p, tags)
            && (AllNumeric(Matches(p, tags)) ==> Number(other).value <= Number(latest.value).value)
            && (NoneNumeric(Matches(p, tags)) ==> !Less(latest.value.tag, other.tag))
  {
    var ms := Matches(p, tags);
    LatestIsAMatch(p, tags);
    UniformIsWeakOrder(ms);
    SortSorts(ms, ms);
    var sorted := SortMatches(ms);
    assert other in multiset(sorted);
    var k :| 0 <= k < |sorted| && sorted[k] == other;
    LessIrreflexive(other.tag);
    assert k > 0 ==> !Before(sorted[k], sorted[0]);
  }

  ghost predicate DistinctNumbers(ms: seq<Match>) {
    forall a, b :: a in ms && b in ms && Number(a) == Number(b) ==> a == b
  }

  /** The newest match of a set, stated without reference to any list order. */
  ghost predicate IsNewest(ms: seq<Match>, m: Match) {
    m in ms && forall other :: other in ms ==> Number(other).Some? && Number(m).Some? && Number(other).value <= Number(m).value
  }

  lemma LatestIsTheNewest(p: Pattern, tags: seq<string>)
    requires ValidPattern(p) && AllNumeric(Matches(p, tags)) && Matches(p, tags) != []
    ensures LatestOf(p, tags).Some? && IsNewest(Matches(p, tags), LatestOf(p, tags).value)
  {
    LatestIsAMatch(p, tags);
    forall other | other in Matches(p, tags)
      ensures Number(other).value <= Number(LatestOf(p, tags).value).value
    {
      LatestIsNewest(p, tags, other);
    }
  }

  lemma NewestIsUnique(ms: seq<Match>, ms': seq<Match>, a: Match, b: Match)
    requires DistinctNumbers(ms) && (forall m :: m in ms <==> m in ms')
    requires IsNewest(ms, a) && IsNewest(ms', b)
    ensures a == b
  {
    assert a in ms' && b in ms;
    assert Number(a) == Number(b);
  }

  /** Distinct numbers make the choice depend on the set of tags alone, not on their order or repetition. */
  lemma LatestIgnoresOrder(p: Pattern, tags: seq<string>, tags': seq<string>)
    requires ValidPattern(p)
    requires AllNumeric(Matches(p, tags)) && DistinctNumbers(Matches(p, tags))
    requires forall t :: t in tags <==> t in tags'
    ensures LatestOf(p, tags) == LatestOf(p, tags')
  {
    var ms, ms' := Matches(p, tags), Matches(p, tags');
    forall m ensures m in ms <==> m in ms' {
      MatchesExactly(p, tags, m);
      MatchesExactly(p, tags', m);
    }
    LatestIsAMatch(p, tags);
    LatestIsAMatch(p, tags');
    SomeElement(ms');
    if ms != [] {
      assert ms[0] in ms';
      assert AllNumeric(ms');
      LatestIsTheNewest(p, tags);
      LatestIsTheNewest(p, tags');
      NewestIsUnique(ms, ms', LatestOf(p, tags).value, LatestOf(p, tags').value);
    }
  }
}
