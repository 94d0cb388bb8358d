/**
 Manifests whose last line has no line feed. Every span is where it would be in the terminated text,
 except that an insertion at the end brings the missing line feed with it.
 */
module Unterminated {
  import opened Basics
  import opened Scan
  import opened Nodes
  import opened Insertion
  import opened Splice
  import opened Rewrite

  /** The text without the line feed of its last, not empty, line. */
  predicate Cut(cut: string, text: string) {
    text == cut + "\n" && cut != [] && cut[|cut| - 1] != '\n'
  }

  // ----- line starts and the insertion point -----

  lemma {:induction false} StartsPrefix(cut: string, text: string, n: nat)
    requires Cut(cut, text) && n <= |cut|
    ensures StartsUpTo(cut, n) == StartsUpTo(text, n)
    decreases n
  {
    if n > 0 { StartsPrefix(cut, text, n - 1); }
  }

  /** The only start that goes is the one behind the last line feed. */
  lemma CutStarts(cut: string, text: string)
    requires Cut(cut, text)
    ensures Starts(text) == Starts(cut) + [|text|]
  {
    StartsPrefix(cut, text, |cut|);
    assert text[|text| - 1] == '\n';
  }

  lemma CutLine(cut: string, text: string, line: nat)
    requires Cut(cut, text) && Starts(text) == Starts(cut) + [|text|] && line < |Starts(cut)|
    ensures LineText(text, Starts(text), line) == LineText(cut, Starts(cut), line)
    ensures |LineText(cut, Starts(cut), line)| <= |cut| - Starts(cut)[line]
  {
    hide StartsUpTo;
    var at := Starts(cut)[line];
    if line + 1 < |Starts(cut)| {
      var next := Starts(cut)[line + 1];
      assert text[at..next] == cut[at..next];
    } else {
      assert text[at..|text|] == cut[at..|cut|] + "\n";
      assert (cut[at..|cut|] + "\n")[..|cut| - at] == cut[at..|cut|];
    }
  }

  lemma NoContent(line: string)
    ensures IsContent(line) ==> line != []
  {
  }

  lemma LastLine(text: string, starts: seq<nat>)
    requires ValidStarts(text, starts) && starts[|starts| - 1] == |text|
    ensures !IsContent(LineText(text, starts, |starts| - 1))
  {
    assert text[|text|..|text|] == [];
    NoContent(TrimBreaks([]));
  }

  lemma {:induction false} CutPoint(cut: string, text: string, line: nat, indent: nat)
    requires Cut(cut, text) && line > 0
    ensures var p, q := PointFrom(text, Starts(text), line, indent), PointFrom(cut, Starts(cut), line, indent);
            || (p == |text| && q == |cut|)
            || (0 < p == q < |cut| && text[p - 1] == '\n')
    decreases |Starts(text)| - line
  {
    hide StartsUpTo, LineText, IsContent;
    CutStarts(cut, text);
    var starts := Starts(cut);
    if line < |starts| {
      CutLine(cut, text, line);
      if Ends(cut, starts, line, indent) {
        NoContent(LineText(cut, starts, line));
        assert Starts(text)[line] == starts[line];
      } else {
        CutPoint(cut, text, line + 1, indent);
      }
    } else if line == |starts| {
      LastLine(text, Starts(text));
      CutPoint(cut, text, line + 1, indent);
    }
  }

  // ----- the end of a token -----

  lemma {:induction false} CutQuoted(cut: string, text: string, i: nat, quote: char)
    requires Cut(cut, text) && quote != '\n' && QuotedEnd(text, i, quote).Some?
    ensures QuotedEnd(cut, i, quote) == QuotedEnd(text, i, quote) && QuotedEnd(text, i, quote).value <= |cut|
    decreases |text| - i
  {
    assert i < |cut| ==> text[i] == cut[i];
    if quote == '\"' && text[i] == '\\' {
      CutQuoted(cut, text, i + 2, quote);
    } else if text[i] != quote {
      CutQuoted(cut, text, i + 1, quote);
    } else if quote == '\'' && i + 1 < |text| && text[i + 1] == '\'' {
      assert text[|cut|] == '\n';
      CutQuoted(cut, text, i + 2, quote);
    }
  }

  lemma {:induction false} CutPlain(cut: string, text: string, start: nat, i: nat)
    requires Cut(cut, text) && start <= i <= |cut|
    ensures PlainStop(cut, start, i) == PlainStop(text, start, i)
    decreases |cut| - i
  {
    if i < |cut| && !IsBreak(cut[i]) && !StartsComment(cut, start, i) { CutPlain(cut, text, start, i + 1); }
  }

  lemma {:induction false} CutTrim(cut: string, text: string, start: nat, end: nat)
    requires Cut(cut, text) && start <= end <= |cut|
    ensures TrimBack(cut, start, end) == TrimBack(text, start, end)
    decreases end
  {
    if end > start && IsBlank(cut[end - 1]) { CutTrim(cut, text, start, end - 1); }
  }

  lemma CutToken(cut: string, text: string, start: nat, style: Style)
    requires Cut(cut, text) && TokenEnd(text, start, style).Ok? && start < TokenEnd(text, start, style).value
    ensures start < |cut| && TokenEnd(text, start, style).value <= |cut|
    ensures TokenEnd(cut, start, style) == TokenEnd(text, start, style)
  {
    if style == DoubleQuoted || style == SingleQuoted {
      var quote := if style == DoubleQuoted then '\"' else '\'';
      CutQuoted(cut, text, start + 1, quote);
    } else {
      assert text[|cut|] == '\n';
      CutPlain(cut, text, start, start);
      CutTrim(cut, text, start, PlainStop(cut, start, start));
    }
  }

  // ----- the spans -----

  function CutSpan(cut: string, text: string, e: Edit): Edit {
    if e.start == |text| then Edit(|cut|, |cut|, "\n" + e.value) else e
  }

  /** The span lies before the missing line feed, or is an insertion at the end. */
  predicate Placed(cut: string, text: string, e: Edit) {
    e.start == e.end == |text| || (e.start < |cut| && e.end <= |cut|)
  }

  lemma SpanCut(em: Emitter, cut: string, text: string, w: Work, a: Address)
    requires Cut(cut, text) && SpanOf(em, text, w, a).Ok? && SpanSane(text, SpanAt(em, text, w, a), a in w.edits)
    ensures SpanOf(em, cut, w, a) == Ok(CutSpan(cut, text, SpanAt(em, text, w, a)))
    ensures Placed(cut, text, SpanAt(em, text, w, a))
  {
    hide StartsUpTo, TokenEnd, PointFrom, InsertedText, Noted, At, RenderScalar;
    CutStarts(cut, text);
    var n := At(w.root, a);
    if a in w.edits {
      var start := Starts(text)[n.line - 1] + n.col - 1;
      CutToken(cut, text, start, n.style);
      assert n.line - 1 < |Starts(cut)|;
    } else {
      CutPoint(cut, text, n.children[0].line, n.children[0].col - 1);
    }
  }

  lemma CutApart(em: Emitter, cut: string, text: string, w: Work, order: seq<Address>)
    requires Cut(cut, text) && AllOk(em, text, w, order) && OnlyInsertionsTie(Spans(em, text, w, order))
    ensures forall i :: 0 <= i < |order| ==> SpanOf(em, cut, w, order[i]).Ok?
    ensures Spans(em, cut, w, order) == CutSpans(cut, text, Spans(em, text, w, order))
    ensures forall i :: 0 <= i < |order| ==> Placed(cut, text, Spans(em, text, w, order)[i])
    ensures OnlyInsertionsTie(Spans(em, cut, w, order))
    ensures DistinctStarts(Spans(em, cut, w, order)) <==> DistinctStarts(Spans(em, text, w, order))
  {
    hide SpanOf, SpanSane, CutSpan, Placed, OnlyInsertionsTie, DistinctStarts;
    var spans, spans' := Spans(em, text, w, order), Spans(em, cut, w, order);
    forall i | 0 <= i < |order|
      ensures SpanOf(em, cut, w, order[i]) == Ok(CutSpan(cut, text, spans[i])) && Placed(cut, text, spans[i])
    {
      assert SpanSane(text, spans[i], order[i] in w.edits);
      SpanCut(em, cut, text, w, order[i]);
    }
    assert forall i :: 0 <= i < |order| ==> spans'[i] == CutSpan(cut, text, spans[i]);
    CutTies(cut, text, spans, spans');
  }

  lemma CutTies(cut: string, text: string, spans: seq<Edit>, spans': seq<Edit>)
    requires Cut(cut, text) && |spans'| == |spans|
    requires forall i :: 0 <= i < |spans| ==> Placed(cut, text, spans[i]) && spans'[i] == CutSpan(cut, text, spans[i])
    ensures OnlyInsertionsTie(spans') <==> OnlyInsertionsTie(spans)
    ensures DistinctStarts(spans') <==> DistinctStarts(spans)
  {
    hide CutSpan, Placed;
    forall i, j | 0 <= i < j < |spans|
      ensures spans'[i].start == spans'[j].start <==> spans[i].start == spans[j].start
      ensures spans'[i].start == spans'[i].end <==> spans[i].start == spans[i].end
      ensures spans'[j].start == spans'[j].end <==> spans[j].start == spans[j].end
    {
      SameStarts(cut, text, spans[i], spans[j]);
    }
  }

  lemma SameStarts(cut: string, text: string, e: Edit, f: Edit)
    requires Cut(cut, text) && Placed(cut, text, e) && Placed(cut, text, f)
    ensures CutSpan(cut, text, e).start == CutSpan(cut, text, f).start <==> e.start == f.start
    ensures e.start == e.end <==> CutSpan(cut, text, e).start == CutSpan(cut, text, e).end
    ensures f.start == f.end <==> CutSpan(cut, text, f).start == CutSpan(cut, text, f).end
  {
  }

  function CutSpans(cut: string, text: string, spans: seq<Edit>): (r: seq<Edit>)
    ensures |r| == |spans| && forall i :: 0 <= i < |r| ==> r[i] == CutSpan(cut, text, spans[i])
  {
    if spans == [] then [] else [CutSpan(cut, text, spans[0])] + CutSpans(cut, text, spans[1..])
  }

  // ----- the output -----

  /** Something is inserted at the end of the text. */
  predicate Appends(text: string, spans: seq<Edit>) {
    exists i :: 0 <= i < |spans| && spans[i].start == |text|
  }

  lemma {:induction false} CutInOrder(cut: string, text: string, pos: nat, spans: seq<Edit>)
    requires Cut(cut, text) && pos <= |cut| && InOrder(spans, pos, |text|)
    requires forall i :: 0 <= i < |spans| ==> Placed(cut, text, spans[i])
    ensures InOrder(CutSpans(cut, text, spans), pos, |cut|)
    decreases |spans|
  {
    if spans != [] {
      var rest := spans[1..];
      assert CutSpans(cut, text, spans)[1..] == CutSpans(cut, text, rest);
      if spans[0].start == |text| {
        InOrderBounds(rest, |text|, |text|);
        AllAtEnd(cut, text, rest);
      } else {
        CutInOrder(cut, text, spans[0].end, rest);
      }
    }
  }

  lemma {:induction false} AllAtEnd(cut: string, text: string, spans: seq<Edit>)
    requires Cut(cut, text) && forall e :: e in spans ==> e.start == e.end == |text|
    ensures InOrder(CutSpans(cut, text, spans), |cut|, |cut|)
  {
    if spans != [] { AllAtEnd(cut, text, spans[1..]); }
  }

  lemma Unfold(input: string, pos: nat, spans: seq<Edit>)
    requires spans != [] && InOrder(spans, pos, |input|)
    ensures pos <= spans[0].start <= spans[0].end <= |input| && InOrder(spans[1..], spans[0].end, |input|)
    ensures Substitute(input, pos, spans)
            == input[pos..spans[0].start] + spans[0].value + Substitute(input, spans[0].end, spans[1..])
  {
    InOrderBounds(spans, pos, |input|);
  }

  lemma OnlyOneAtEnd(text: string, spans: seq<Edit>)
    requires spans != [] && spans[0].start == spans[0].end == |text|
    requires DistinctStarts(spans) && InOrder(spans[1..], |text|, |text|)
    ensures spans[1..] == []
  {
    if |spans| > 1 {
      assert spans[1] in spans[1..];
      InOrderBounds(spans[1..], |text|, |text|);
    }
  }

  /** The cut text becomes what the whole text becomes, without a final line feed unless something is appended. */
  lemma {:induction false} CutSubstitute(cut: string, text: string, pos: nat, spans: seq<Edit>)
    requires Cut(cut, text) && pos <= |cut| && InOrder(spans, pos, |text|) && DistinctStarts(spans)
    requires forall i :: 0 <= i < |spans| ==> Placed(cut, text, spans[i])
    ensures InOrder(CutSpans(cut, text, spans), pos, |cut|)
    ensures Substitute(cut, pos, CutSpans(cut, text, spans)) + (if Appends(text, spans) then "" else "\n")
            == Substitute(text, pos, spans)
    decreases |spans|
  {
    hide Substitute, InOrder, CutSpans, DistinctStarts, Appends;
    CutInOrder(cut, text, pos, spans);
    if spans == [] {
      NoSpans(cut, text, pos);
    } else {
      var e, rest := spans[0], spans[1..];
      Unfold(text, pos, spans);
      Unfold(cut, pos, CutSpans(cut, text, spans));
      assert CutSpans(cut, text, spans)[1..] == CutSpans(cut, text, rest);
      if e.start == |text| {
        OnlyOneAtEnd(text, spans);
        NoSpans(cut, text, |cut|);
        assert CutSpans(cut, text, rest) == [];
        NothingLeft(cut);
        NothingLeft(text);
        AppendsFirst(text, spans);
        assert text[pos..|text|] == cut[pos..|cut|] + "\n";
      } else {
        StaysDistinct(spans);
        CutSubstitute(cut, text, e.end, rest);
        AppendsLater(text, spans);
        assert text[pos..e.start] == cut[pos..e.start];
      }
    }
  }

  lemma NothingLeft(input: string)
    ensures Substitute(input, |input|, []) == []
  {
  }

  lemma StaysDistinct(spans: seq<Edit>)
    requires spans != [] && DistinctStarts(spans)
    ensures DistinctStarts(spans[1..])
  {
    var rest := spans[1..];
    assert forall i :: 0 <= i < |rest| ==> rest[i] == spans[i + 1];
  }

  lemma NoSpans(cut: string, text: string, pos: nat)
    requires Cut(cut, text) && pos <= |cut|
    ensures InOrder([], pos, |cut|) && InOrder([], pos, |text|) && CutSpans(cut, text, []) == [] && !Appends(text, [])
    ensures Substitute(text, pos, []) == Substitute(cut, pos, []) + "\n"
  {
    assert text[pos..] == cut[pos..] + "\n";
  }

  lemma AppendsFirst(text: string, spans: seq<Edit>)
    requires spans != [] && spans[0].start == |text|
    ensures Appends(text, spans)
  {
  }

  lemma AppendsLater(text: string, spans: seq<Edit>)
    requires spans != [] && spans[0].start != |text|
    ensures Appends(text, spans) <==> Appends(text, spans[1..])
  {
    if Appends(text, spans) {
      var i :| 0 <= i < |spans| && spans[i].start == |text|;
      assert spans[1..][i - 1] == spans[i];
    }
  }

  // ----- how the output ends -----

  /** A last line that is there and has no line feed. */
  predicate Unfed(s: string) {
    s != [] && s[|s| - 1] != '\n'
  }

  /** Spans that leave the last line in place, or put a token at its end, leave the text without a final line feed. */
  lemma {:induction false} EndsUnfed(cut: string, pos: nat, spans: seq<Edit>)
    requires Unfed(cut) && pos < |cut| && InOrder(spans, pos, |cut|)
    requires forall i :: 0 <= i < |spans| ==> spans[i].start < |cut| && (spans[i].end == |cut| ==> Unfed(spans[i].value))
    ensures Unfed(Substitute(cut, pos, spans))
    decreases |spans|
  {
    hide Substitute, InOrder;
    if spans == [] {
      RestUnfed(cut, pos);
    } else {
      Unfold(cut, pos, spans);
      if spans[0].end < |cut| {
        EndsUnfed(cut, spans[0].end, spans[1..]);
      } else {
        NothingBehind(cut, spans[1..]);
        NothingLeft(cut);
      }
    }
  }

  lemma RestUnfed(cut: string, pos: nat)
    requires Unfed(cut) && pos < |cut|
    ensures InOrder([], pos, |cut|) && Unfed(Substitute(cut, pos, []))
  {
  }

  lemma NothingBehind(cut: string, spans: seq<Edit>)
    requires InOrder(spans, |cut|, |cut|) && forall i :: 0 <= i < |spans| ==> spans[i].start < |cut|
    ensures spans == []
  {
  }
}
