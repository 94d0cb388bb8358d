/**
 Where a new mapping entry goes: line starts of the input, and the search for the first
 following line that is indented less than the mapping.
 */
module Insertion {
  import opened Text

  /** Offsets of the first n bytes' line starts: 0, and one past every line feed. */
  function StartsUpTo(input: string, n: nat): (r: seq<nat>)
    requires n <= |input|
    ensures r != [] && r[0] == 0
    ensures forall i :: 0 <= i < |r| ==> r[i] <= n
    ensures forall i, j :: 0 <= i < j < |r| ==> r[i] < r[j]
    ensures forall i :: 0 < i < |r| ==> input[r[i] - 1] == '\n'
  {
    if n == 0 then [0]
    else StartsUpTo(input, n - 1) + if input[n - 1] == '\n' then [n] else []
  }

  function Starts(input: string): seq<nat> {
    StartsUpTo(input, |input|)
  }

  method LineStarts(input: string) returns (starts: seq<nat>)
    ensures starts == Starts(input)
  {
    starts := [0];
    for i := 0 to |input|
      invariant starts == StartsUpTo(input, i)
    {
      if input[i] == '\n' {
        starts := starts + [i + 1];
      }
    }
  }

  predicate ValidStarts(input: string, starts: seq<nat>) {
    && starts != []
    && (forall i :: 0 <= i < |starts| ==> starts[i] <= |input|)
    && (forall i, j :: 0 <= i < j < |starts| ==> starts[i] < starts[j])
  }

  function LineEnd(input: string, starts: seq<nat>, line: nat): nat
    requires line < |starts|
  {
    if line + 1 < |starts| then starts[line + 1] else |input|
  }

  /** strings.TrimRight(line, "\r\n"). */
  function TrimBreaks(s: string): (r: string)
    ensures r <= s
  {
    if s != [] && (s[|s| - 1] == '\n' || s[|s| - 1] == '\r') then TrimBreaks(s[..|s| - 1]) else s
  }

  /** A line that is neither blank nor a comment. */
  predicate IsContent(line: string) {
    var k := FirstNonSpace(line);
    k < |line| && line[k] != '#'
  }

  function LineText(input: string, starts: seq<nat>, line: nat): string
    requires ValidStarts(input, starts) && line < |starts|
  {
    TrimBreaks(input[starts[line]..LineEnd(input, starts, line)])
  }

  /** A content line to the left of the mapping. */
  predicate Ends(input: string, starts: seq<nat>, line: nat, indent: nat)
    requires ValidStarts(input, starts) && line < |starts|
  {
    var text := LineText(input, starts, line);
    IsContent(text) && LeadingSpaces(text) < indent
  }

  function PointFrom(input: string, starts: seq<nat>, line: nat, indent: nat): nat
    requires ValidStarts(input, starts)
    decreases |starts| - line
  {
    if line >= |starts| then |input|
    else if Ends(input, starts, line, indent) then starts[line]
    else PointFrom(input, starts, line + 1, indent)
  }

  /** The search of mappingInsertionPoint, from the line after the mapping's first key. */
  method InsertionPoint(input: string, starts: seq<nat>, startLine: nat, indent: nat) returns (point: nat)
    requires ValidStarts(input, starts)
    ensures point == PointFrom(input, starts, startLine + 1, indent)
  {
    var line := startLine + 1;
    while line < |starts|
      invariant PointFrom(input, starts, startLine + 1, indent) == PointFrom(input, starts, line, indent)
    {
      var start, end := starts[line], |input|;
      if line + 1 < |starts| {
        end := starts[line + 1];
      }
      var text := TrimBreaks(input[start..end]);
      if IsContent(text) {
        var lineIndent := LeadingSpaces(text);
        if lineIndent < indent {
          return start;
        }
      }
      line := line + 1;
    }
    return |input|;
  }

  /**
   Placement: the point is where some line starts, or the end of input; no earlier line of the
   search ends the mapping, and the line at the point does.
   */
  lemma {:induction false} PointPlacement(input: string, starts: seq<nat>, from: nat, indent: nat) returns (stop: nat)
    requires ValidStarts(input, starts) && from <= |starts|
    ensures from <= stop <= |starts|
    ensures PointFrom(input, starts, from, indent) == if stop < |starts| then starts[stop] else |input|
    ensures stop < |starts| ==> Ends(input, starts, stop, indent)
    ensures forall line :: from <= line < stop ==> !Ends(input, starts, line, indent)
    decreases |starts| - from
  {
    stop := from;
    if from < |starts| && !Ends(input, starts, from, indent) {
      stop := PointPlacement(input, starts, from + 1, indent);
    }
  }

  /** A top-level mapping has nothing to its left: the search always runs to the end of input. */
  lemma {:induction false} ZeroIndentRunsToEnd(input: string, starts: seq<nat>, from: nat)
    requires ValidStarts(input, starts)
    ensures PointFrom(input, starts, from, 0) == |input|
    decreases |starts| - from
  {
    if from < |starts| { ZeroIndentRunsToEnd(input, starts, from + 1); }
  }

  // ----- text given as lines -----

  /** Lines, each closed by a line feed. */
  function Joined(lines: seq<string>): string {
    if lines == [] then [] else lines[0] + "\n" + Joined(lines[1..])
  }

  lemma {:induction false} JoinedConcat(a: seq<string>, b: seq<string>)
    ensures Joined(a + b) == Joined(a) + Joined(b)
  {
    if a == [] {
      assert a + b == b;
    } else {
      assert (a + b)[1..] == a[1..] + b;
      JoinedConcat(a[1..], b);
    }
  }

  predicate NoFeed(s: string) {
    forall i :: 0 <= i < |s| ==> s[i] != '\n'
  }

  predicate NoFeeds(lines: seq<string>) {
    forall i :: 0 <= i < |lines| ==> NoFeed(lines[i])
  }

  lemma NoFeedsConcat(a: seq<string>, b: seq<string>)
    requires NoFeeds(a) && NoFeeds(b)
    ensures NoFeeds(a + b)
  {
  }

  lemma {:induction false} StartsThroughLine(input: string, from: nat, upto: nat)
    requires from <= upto <= |input|
    requires forall i :: from <= i < upto ==> input[i] != '\n'
    ensures StartsUpTo(input, upto) == StartsUpTo(input, from)
    decreases upto
  {
    if from < upto { StartsThroughLine(input, from, upto - 1); }
  }

  /** The starts found in joined lines are where the lines begin, plus the end. */
  lemma {:induction false} StartsOfJoined(input: string, done: seq<string>, todo: seq<string>)
    requires input == Joined(done) + Joined(todo) && NoFeeds(todo)
    ensures |Joined(done)| <= |input|
    ensures |Starts(input)| == |StartsUpTo(input, |Joined(done)|)| + |todo|
    ensures StartsUpTo(input, |Joined(done)|) <= Starts(input)
    decreases |todo|
  {
    var at := |Joined(done)|;
    if todo != [] {
      var next := at + |todo[0]| + 1;
      assert Joined(done + [todo[0]]) == Joined(done) + (todo[0] + "\n") by { JoinedConcat(done, [todo[0]]); assert [todo[0]][1..] == []; }
      assert input == Joined(done + [todo[0]]) + Joined(todo[1..]);
      forall i | at <= i < next - 1 ensures input[i] != '\n' { assert input[i] == todo[0][i - at]; }
      StartsThroughLine(input, at, next - 1);
      assert input[next - 1] == '\n';
      assert StartsUpTo(input, next) == StartsUpTo(input, at) + [next];
      StartsOfJoined(input, done + [todo[0]], todo[1..]);
    }
  }

  lemma LineStartsAt(lines: seq<string>, i: nat)
    requires NoFeeds(lines) && i <= |lines|
    ensures |Starts(Joined(lines))| == |lines| + 1
    ensures Starts(Joined(lines))[i] == |Joined(lines[..i])|
  {
    var input := Joined(lines);
    StartsOfJoined(input, [], lines);
    assert lines == lines[..i] + lines[i..];
    JoinedConcat(lines[..i], lines[i..]);
    StartsOfJoined(input, lines[..i], lines[i..]);
    var at := |Joined(lines[..i])|;
    assert |StartsUpTo(input, at)| == i + 1;
    StartsEndAtLine(input, lines[..i], lines[i..]);
  }

  lemma StartsEndAtLine(input: string, done: seq<string>, todo: seq<string>)
    requires input == Joined(done) + Joined(todo) && NoFeeds(done)
    ensures var at, r := |Joined(done)|, StartsUpTo(input, |Joined(done)|);
            r[|r| - 1] == at
  {
    if done != [] {
      var n := |done| - 1;
      assert done == done[..n] + [done[n]];
      JoinedConcat(done[..n], [done[n]]);
      assert Joined([done[n]]) == done[n] + "\n" by { assert [done[n]][1..] == []; }
      assert input[|Joined(done)| - 1] == '\n';
    }
  }

  lemma {:induction false} TrimBreaksKeeps(s: string, k: nat)
    requires k < |s| && s[k] != '\n' && s[k] != '\r'
    ensures k < |TrimBreaks(s)|
  {
    if s[|s| - 1] == '\n' || s[|s| - 1] == '\r' { TrimBreaksKeeps(s[..|s| - 1], k); }
  }

  lemma {:induction false} FirstNonSpacePrefix(s: string, t: string)
    requires t <= s
    ensures FirstNonSpace(s) < |t| ==> FirstNonSpace(t) == FirstNonSpace(s)
    ensures FirstNonSpace(s) >= |t| ==> FirstNonSpace(t) == |t|
  {
    var k, m := FirstNonSpace(s), FirstNonSpace(t);
    assert forall i :: 0 <= i < |t| ==> t[i] == s[i];
  }

  lemma LeadingSpacesPrefix(s: string, t: string)
    requires t <= s && LeadingSpaces(s) < |t|
    ensures LeadingSpaces(t) == LeadingSpaces(s)
  {
    assert forall i :: 0 <= i < |t| ==> t[i] == s[i];
  }

  lemma LeadingBeforeFirst(s: string)
    ensures LeadingSpaces(s) <= FirstNonSpace(s)
  {
  }

  /** Trimming the line end hides nothing the search looks at. */
  lemma TrimmedLine(line: string)
    ensures var text := TrimBreaks(line + "\n");
            && (IsContent(text) <==> IsContent(line))
            && (IsContent(line) ==> LeadingSpaces(text) == LeadingSpaces(line))
  {
    var text := TrimBreaks(line + "\n");
    assert (line + "\n")[..|line|] == line;
    assert TrimBreaks(line + "\n") == TrimBreaks(line);
    var k := FirstNonSpace(line);
    FirstNonSpacePrefix(line, text);
    LeadingBeforeFirst(line);
    if k < |line| {
      TrimBreaksKeeps(line, k);
      LeadingSpacesPrefix(line, text);
    }
  }

  lemma JoinedOne(line: string)
    ensures Joined([line]) == line + "\n"
  {
    assert [line][1..] == [];
  }

  lemma JoinedNext(lines: seq<string>, i: nat)
    requires i < |lines|
    ensures Joined(lines[..i + 1]) == Joined(lines[..i]) + (lines[i] + "\n")
  {
    JoinedOne(lines[i]);
    assert lines[..i + 1] == lines[..i] + [lines[i]];
    JoinedConcat(lines[..i], [lines[i]]);
  }

  lemma JoinedSplit(lines: seq<string>, i: nat)
    requires i <= |lines|
    ensures Joined(lines) == Joined(lines[..i]) + Joined(lines[i..])
  {
    assert lines == lines[..i] + lines[i..];
    JoinedConcat(lines[..i], lines[i..]);
  }

  lemma LineSlice(lines: seq<string>, i: nat)
    requires NoFeeds(lines) && i < |lines|
    ensures ValidStarts(Joined(lines), Starts(Joined(lines))) && |Starts(Joined(lines))| == |lines| + 1
    ensures var input, starts := Joined(lines), Starts(Joined(lines));
            input[starts[i]..LineEnd(input, starts, i)] == lines[i] + "\n"
  {
    JoinedNext(lines, i);
    JoinedSplit(lines, i + 1);
    LineStartsAt(lines, i);
    LineStartsAt(lines, i + 1);
  }

  /** On joined lines the search tests the lines themselves. */
  lemma EndsOnLines(lines: seq<string>, i: nat, indent: nat)
    requires NoFeeds(lines) && i <= |lines|
    ensures ValidStarts(Joined(lines), Starts(Joined(lines))) && |Starts(Joined(lines))| == |lines| + 1
    ensures Ends(Joined(lines), Starts(Joined(lines)), i, indent)
            <==> i < |lines| && IsContent(lines[i]) && LeadingSpaces(lines[i]) < indent
  {
    if i < |lines| {
      LineSlice(lines, i);
      TrimmedLine(lines[i]);
    } else {
      LineStartsAt(lines, i);
      assert lines[..i] == lines;
    }
  }

  /** The search skips a run of lines none of which ends the mapping. */
  lemma {:induction false} PointSkips(lines: seq<string>, from: nat, upto: nat, indent: nat)
    requires NoFeeds(lines) && from <= upto <= |lines|
    requires forall i :: from <= i < upto ==> !(IsContent(lines[i]) && LeadingSpaces(lines[i]) < indent)
    requires upto < |lines| ==> IsContent(lines[upto]) && LeadingSpaces(lines[upto]) < indent
    ensures ValidStarts(Joined(lines), Starts(Joined(lines)))
    ensures PointFrom(Joined(lines), Starts(Joined(lines)), from, indent) == |Joined(lines[..upto])|
    decreases upto - from
  {
    EndsOnLines(lines, from, indent);
    LineStartsAt(lines, from);
    if from < upto {
      PointSkips(lines, from + 1, upto, indent);
    } else if upto == |lines| {
      assert lines[..upto] == lines;
    }
  }
}
