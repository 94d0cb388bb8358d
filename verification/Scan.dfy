/**
 Scalar tokens: how a value is spelled in the manifest, and how the end of an existing token is
 found again. Styles and quoting follow sections 7.3.1 to 7.3.3 of YAML 1.2.2, comments section 6.6.
 */
module Scan {
  import opened Basics
  import opened Text

  datatype Style = Plain | SingleQuoted | DoubleQuoted | Literal | Folded

  predicate IsBlock(style: Style) {
    style == Literal || style == Folded
  }

  predicate IsBreak(c: char) {
    c == '\n' || c == '\r'
  }

  predicate IsBlank(c: char) {
    c == ' ' || c == '\t'
  }

  predicate OneLine(s: string) {
    forall i :: 0 <= i < |s| ==> !IsBreak(s[i])
  }

  // ----- finding the end of a token -----

  function QuotedEnd(input: string, i: nat, quote: char): Option<nat>
    decreases |input| - i
  {
    if i >= |input| then None
    else if quote == '\"' && input[i] == '\\' then QuotedEnd(input, i + 2, quote)
    else if input[i] != quote then QuotedEnd(input, i + 1, quote)
    else if quote == '\'' && i + 1 < |input| && input[i + 1] == '\'' then QuotedEnd(input, i + 2, quote)
    else Some(i + 1)
  }

  predicate StartsComment(input: string, start: nat, i: nat)
    requires i < |input|
  {
    input[i] == '#' && i > start && IsBlank(input[i - 1])
  }

  function PlainStop(input: string, start: nat, i: nat): (r: nat)
    requires start <= i <= |input|
    ensures i <= r <= |input|
    decreases |input| - i
  {
    if i == |input| || IsBreak(input[i]) || StartsComment(input, start, i) then i
    else PlainStop(input, start, i + 1)
  }

  function TrimBack(input: string, start: nat, end: nat): (r: nat)
    requires start <= end <= |input|
    ensures start <= r <= end
  {
    if end > start && IsBlank(input[end - 1]) then TrimBack(input, start, end - 1) else end
  }

  function TokenEnd(input: string, start: nat, style: Style): Result<nat> {
    if start >= |input| then Err("edited scalar starts past end of manifest")
    else if style == DoubleQuoted || style == SingleQuoted then
      match QuotedEnd(input, start + 1, if style == DoubleQuoted then '\"' else '\'')
      case Some(end) => Ok(end)
      case None => Err("unterminated quoted scalar")
    else Ok(TrimBack(input, start, PlainStop(input, start, start)))
  }

  method ScalarTokenEnd(input: string, start: nat, style: Style) returns (r: Result<nat>)
    ensures r == TokenEnd(input, start, style)
  {
    if start >= |input| {
      return Err("edited scalar starts past end of manifest");
    }
    if style == DoubleQuoted || style == SingleQuoted {
      var quote := if style == DoubleQuoted then '\"' else '\'';
      var i := start + 1;
      while i < |input|
        invariant QuotedEnd(input, i, quote) == QuotedEnd(input, start + 1, quote)
        decreases |input| - i
      {
        if quote == '\"' && input[i] == '\\' {
          i := i + 2;
          continue;
        }
        if input[i] == quote {
          if quote == '\'' && i + 1 < |input| && input[i + 1] == '\'' {
            i := i + 2;
            continue;
          }
          return Ok(i + 1);
        }
        i := i + 1;
      }
      return Err("unterminated quoted scalar");
    }
    var end := start;
    while end < |input| && !IsBreak(input[end])
      invariant start <= end <= |input|
      invariant PlainStop(input, start, end) == PlainStop(input, start, start)
    {
      if StartsComment(input, start, end) {
        break;
      }
      end := end + 1;
    }
    while end > start && IsBlank(input[end - 1])
      invariant start <= end <= |input|
      invariant TrimBack(input, start, end) == TrimBack(input, start, PlainStop(input, start, start))
    {
      end := end - 1;
    }
    r := Ok(end);
  }

  // ----- token shapes -----

  /** The inside of a single-quoted token: a quote appears only doubled. */
  predicate SingleBody(s: string) {
    s == [] || (s[0] != '\'' && SingleBody(s[1..])) || (|s| >= 2 && s[0] == '\'' && s[1] == '\'' && SingleBody(s[2..]))
  }

  /** The inside of a double-quoted token: a backslash takes the next character with it. */
  predicate DoubleBody(s: string) {
    s == [] || (s[0] != '\"' && s[0] != '\\' && DoubleBody(s[1..])) || (|s| >= 2 && s[0] == '\\' && DoubleBody(s[2..]))
  }

  /** A plain token on one line: no blank or comment marker in front, none after a blank, no blank at the end. */
  predicate PlainShape(s: string) {
    && s != [] && OneLine(s) && !IsSpace(s[0]) && s[0] != '#' && !IsBlank(s[|s| - 1])
    && (forall i :: 1 <= i < |s| ==> !StartsComment(s, 0, i))
  }

  predicate TokenShape(style: Style, token: string) {
    match style
    case Plain => PlainShape(token)
    case SingleQuoted => |token| >= 2 && token[0] == token[|token| - 1] == '\'' && SingleBody(token[1..|token| - 1])
    case DoubleQuoted => |token| >= 2 && token[0] == token[|token| - 1] == '\"' && DoubleBody(token[1..|token| - 1])
    case Literal => false
    case Folded => false
  }

  function Blanks(s: string): (n: nat)
    ensures n <= |s|
    ensures forall i :: 0 <= i < n ==> IsBlank(s[i])
    ensures n < |s| ==> !IsBlank(s[n])
  {
    if s == [] || !IsBlank(s[0]) then 0 else 1 + Blanks(s[1..])
  }

  /**
   What may follow a token. A double quote closes unconditionally; a single quote must not be
   doubled; a plain token ends at a line break, the end, or a comment set off by a blank.
   */
  predicate Delimited(style: Style, rest: string) {
    match style
    case Plain =>
      var w := Blanks(rest);
      w == |rest| || IsBreak(rest[w]) || (w > 0 && rest[w] == '#')
    case SingleQuoted => rest == [] || rest[0] != '\''
    case _ => true
  }

  // ----- scanning finds exactly the token -----

  lemma {:induction false} DoubleScan(pre: string, body: string, rest: string)
    requires DoubleBody(body)
    ensures QuotedEnd(pre + body + "\"" + rest, |pre|, '\"') == Some(|pre| + |body| + 1)
    decreases |body|
  {
    var input := pre + body + "\"" + rest;
    if body != [] {
      var step := if body[0] == '\\' then 2 else 1;
      assert input == (pre + body[..step]) + body[step..] + "\"" + rest;
      assert input[|pre|] == body[0];
      DoubleScan(pre + body[..step], body[step..], rest);
    }
  }

  lemma {:induction false} SingleScan(pre: string, body: string, rest: string)
    requires SingleBody(body)
    ensures var end := QuotedEnd(pre + body + "'" + rest, |pre|, '\'');
            && (Delimited(SingleQuoted, rest) ==> end == Some(|pre| + |body| + 1))
            && (!Delimited(SingleQuoted, rest) ==> end == QuotedEnd(pre + body + "'" + rest, |pre| + |body| + 2, '\''))
    decreases |body|
  {
    var input := pre + body + "'" + rest;
    if body == [] {
      assert input[|pre|] == '\'';
      assert rest != [] ==> input[|pre| + 1] == rest[0];
    } else {
      var step := if body[0] == '\'' then 2 else 1;
      assert input == (pre + body[..step]) + body[step..] + "'" + rest;
      assert input[|pre|] == body[0];
      assert step == 2 ==> input[|pre| + 1] == body[1];
      SingleScan(pre + body[..step], body[step..], rest);
    }
  }

  lemma {:induction false} QuotedEndAhead(input: string, i: nat, quote: char)
    ensures QuotedEnd(input, i, quote).Some? ==> QuotedEnd(input, i, quote).value > i
    decreases |input| - i
  {
    if i < |input| {
      QuotedEndAhead(input, i + 1, quote);
      QuotedEndAhead(input, i + 2, quote);
    }
  }

  lemma {:induction false} PlainRuns(input: string, start: nat, i: nat, j: nat)
    requires start <= i <= j <= |input|
    requires forall k :: i <= k < j ==> !IsBreak(input[k]) && !StartsComment(input, start, k)
    ensures PlainStop(input, start, i) == PlainStop(input, start, j)
    decreases j - i
  {
    if i < j { PlainRuns(input, start, i + 1, j); }
  }

  lemma {:induction false} TrimRuns(input: string, start: nat, i: nat, end: nat)
    requires start <= i <= end <= |input|
    requires forall k :: i <= k < end ==> IsBlank(input[k])
    ensures TrimBack(input, start, end) == TrimBack(input, start, i)
  {
    if i < end { TrimRuns(input, start, i, end - 1); }
  }

  lemma {:induction false} TrimKeeps(input: string, start: nat, k: nat, end: nat)
    requires start <= k < end <= |input| && !IsBlank(input[k])
    ensures TrimBack(input, start, end) > k
  {
    if IsBlank(input[end - 1]) { TrimKeeps(input, start, k, end - 1); }
  }

  lemma PlainThroughToken(pre: string, token: string, rest: string)
    requires PlainShape(token)
    ensures var input, start, end := pre + token + rest, |pre|, |pre| + |token|;
            PlainStop(input, start, start) == PlainStop(input, start, end)
  {
    var input, start, end := pre + token + rest, |pre|, |pre| + |token|;
    forall k | start <= k < end ensures !IsBreak(input[k]) && !StartsComment(input, start, k) {
      assert input[k] == token[k - start];
      if k > start { assert input[k - 1] == token[k - 1 - start] && !StartsComment(token, 0, k - start); }
    }
    PlainRuns(input, start, start, end);
  }

  /** Scanning from a point inside a line: through the blanks, and stopping at a break, the end or a comment. */
  lemma PlainThroughBlanks(input: string, start: nat, end: nat)
    requires start < end <= |input| && !IsBlank(input[end - 1])
    ensures var past := end + Blanks(input[end..]);
            if Delimited(Plain, input[end..]) then PlainStop(input, start, end) == past
            else past < |input| && PlainStop(input, start, end) > past
  {
    var rest := input[end..];
    var w := Blanks(rest);
    forall k | end <= k < end + w ensures !IsBreak(input[k]) && !StartsComment(input, start, k) {
      assert input[k] == rest[k - end];
    }
    PlainRuns(input, start, end, end + w);
    if end + w < |input| {
      assert input[end + w] == rest[w];
      if w > 0 { assert input[end + w - 1] == rest[w - 1]; }
    }
  }

  lemma PlainScan(pre: string, token: string, rest: string)
    requires PlainShape(token)
    ensures TokenEnd(pre + token + rest, |pre|, Plain) == Ok(|pre| + |token|) <==> Delimited(Plain, rest)
  {
    var input, start, end := pre + token + rest, |pre|, |pre| + |token|;
    assert input[end..] == rest;
    assert input[end - 1] == token[|token| - 1];
    PlainThroughToken(pre, token, rest);
    PlainThroughBlanks(input, start, end);
    var w := Blanks(rest);
    if Delimited(Plain, rest) {
      forall k | end <= k < end + w ensures IsBlank(input[k]) { assert input[k] == rest[k - end]; }
      TrimRuns(input, start, end, end + w);
    } else {
      assert input[end + w] == rest[w];
      TrimKeeps(input, start, end + w, PlainStop(input, start, end));
    }
  }

  /** Scanning a token stops at its end exactly when what follows delimits it. */
  lemma ScanFindsToken(pre: string, style: Style, token: string, rest: string)
    requires TokenShape(style, token)
    ensures TokenEnd(pre + token + rest, |pre|, style) == Ok(|pre| + |token|) <==> Delimited(style, rest)
  {
    var input := pre + token + rest;
    if style == Plain {
      PlainScan(pre, token, rest);
    } else {
      var body := token[1..|token| - 1];
      assert token == token[..1] + body + token[|token| - 1..];
      if style == DoubleQuoted {
        assert input == (pre + "\"") + body + "\"" + rest;
        DoubleScan(pre + "\"", body, rest);
      } else {
        assert input == (pre + "'") + body + "'" + rest;
        SingleScan(pre + "'", body, rest);
        QuotedEndAhead(input, |pre| + |token| + 1, '\'');
      }
    }
  }

  /** A plain scalar inside a flow collection is never found: what follows it does not end the scan. */
  lemma FlowScalarOverrun(pre: string, token: string, rest: string)
    requires PlainShape(token) && rest != [] && rest[0] in [',', '}', ']']
    ensures TokenEnd(pre + token + rest, |pre|, Plain) != Ok(|pre| + |token|)
  {
    ScanFindsToken(pre, Plain, token, rest);
  }

  // ----- spelling a value -----

  function DoubledQuotes(s: string): string {
    if s == [] then [] else (if s[0] == '\'' then "''" else [s[0]]) + DoubledQuotes(s[1..])
  }

  function Escape(c: char): string {
    if c == '\"' then "\\\"" else if c == '\\' then "\\\\"
    else if c == '\n' then "\\n" else if c == '\r' then "\\r" else if c == '\t' then "\\t"
    else [c]
  }

  function Escaped(s: string): string {
    if s == [] then [] else Escape(s[0]) + Escaped(s[1..])
  }

  function Spell(style: Style, value: string): string {
    match style
    case SingleQuoted => "'" + DoubledQuotes(value) + "'"
    case DoubleQuoted => "\"" + Escaped(value) + "\""
    case Literal => "|-\n" + value
    case Folded => ">-\n" + value
    case Plain => value
  }

  /**
   The choices the YAML library makes: whether a value reads back from a plain token, the style
   it picks for a string without a style of its own, and whether single quotes can carry a value.
   */
  datatype Emitter = Emitter(safePlain: string -> bool, natural: string -> Style, singleOk: string -> bool)

  ghost predicate ValidEmitter(em: Emitter) {
    forall v: string {:trigger em.natural(v)} {:trigger em.safePlain(v)} {:trigger em.singleOk(v)} ::
      && (em.safePlain(v) ==> PlainShape(v))
      && (em.natural(v) == Plain ==> em.safePlain(v))
      && (em.natural(v) == SingleQuoted ==> em.singleOk(v))
      && (em.singleOk(v) ==> OneLine(v))
      && (IsBlock(em.natural(v)) ==> !OneLine(v))
  }

  function RenderStyle(em: Emitter, value: string, style: Style): Style {
    if style == Plain && em.safePlain(value) then Plain
    else
      match style
      case Plain => em.natural(value)
      case SingleQuoted => if em.singleOk(value) then SingleQuoted else DoubleQuoted
      case other => other
  }

  function RenderScalar(em: Emitter, value: string, style: Style): string {
    Spell(RenderStyle(em, value, style), value)
  }

  /** Rendering a value again in the style it was rendered in changes nothing. */
  lemma RenderStyleStable(em: Emitter, value: string, style: Style)
    requires ValidEmitter(em)
    ensures RenderStyle(em, value, RenderStyle(em, value, style)) == RenderStyle(em, value, style)
    ensures RenderStyle(em, value, em.natural(value)) == em.natural(value)
  {
  }

  lemma {:induction false} DoubledIsBody(s: string)
    ensures SingleBody(DoubledQuotes(s))
    ensures OneLine(s) ==> OneLine(DoubledQuotes(s))
  {
    if s != [] {
      DoubledIsBody(s[1..]);
      var d, rest := DoubledQuotes(s), DoubledQuotes(s[1..]);
      if s[0] == '\'' { assert d[2..] == rest; } else { assert d[1..] == rest; }
    }
  }

  lemma EscapeIsBody(c: char, rest: string)
    requires DoubleBody(rest) && OneLine(rest)
    ensures DoubleBody(Escape(c) + rest) && OneLine(Escape(c) + rest)
  {
    var e := Escape(c);
    assert (e + rest)[|e|..] == rest;
    assert OneLine(e);
  }

  lemma {:induction false} EscapedIsBody(s: string)
    ensures DoubleBody(Escaped(s))
    ensures OneLine(Escaped(s))
  {
    if s != [] {
      EscapedIsBody(s[1..]);
      EscapeIsBody(s[0], Escaped(s[1..]));
    }
  }

  lemma SpelledShape(style: Style, value: string)
    requires style == Plain ==> PlainShape(value)
    requires style == SingleQuoted ==> OneLine(value)
    requires !IsBlock(style)
    ensures TokenShape(style, Spell(style, value)) && OneLine(Spell(style, value))
  {
    hide SingleBody, DoubleBody, PlainShape;
    DoubledIsBody(value);
    EscapedIsBody(value);
    var token := Spell(style, value);
    if style == Plain { PlainIsOneLine(value); }
    if style == SingleQuoted { assert token[1..|token| - 1] == DoubledQuotes(value); }
    if style == DoubleQuoted { assert token[1..|token| - 1] == Escaped(value); }
  }

  lemma PlainIsOneLine(value: string)
    requires PlainShape(value)
    ensures OneLine(value)
  {
  }

  /** A rendered value is a one-line token of the style it is rendered in, unless that is a block style. */
  lemma RenderedTokenShape(em: Emitter, value: string, style: Style)
    requires ValidEmitter(em)
    ensures TokenShape(RenderStyle(em, value, style), RenderScalar(em, value, style))
            <==> !IsBlock(RenderStyle(em, value, style))
    ensures !IsBlock(RenderStyle(em, value, style)) ==> OneLine(RenderScalar(em, value, style))
    ensures OneLine(value) && !IsBlock(style) ==> !IsBlock(RenderStyle(em, value, style))
  {
    hide PlainShape, OneLine, Spell;
    var s := RenderStyle(em, value, style);
    assert s == Plain ==> em.safePlain(value);
    if !IsBlock(s) { SpelledShape(s, value); }
  }

  /** So a replaced token is found again, whatever delimiter follows it. */
  lemma RenderedTokenRescans(em: Emitter, value: string, style: Style, pre: string, rest: string)
    requires ValidEmitter(em) && !IsBlock(RenderStyle(em, value, style))
    ensures TokenEnd(pre + RenderScalar(em, value, style) + rest, |pre|, RenderStyle(em, value, style))
            == Ok(|pre| + |RenderScalar(em, value, style)|)
            <==> Delimited(RenderStyle(em, value, style), rest)
  {
    RenderedTokenShape(em, value, style);
    ScanFindsToken(pre, RenderStyle(em, value, style), RenderScalar(em, value, style), rest);
  }

  // ----- reading a quoted token back -----

  function Undouble(s: string): string {
    if s == [] then [] else
      [s[0]] + Undouble(if |s| >= 2 && s[0] == '\'' && s[1] == '\'' then s[2..] else s[1..])
  }

  function Unescape(s: string): string {
    if s == [] then []
    else if s[0] == '\\' && |s| >= 2 then
      [if s[1] == 'n' then '\n' else if s[1] == 'r' then '\r' else if s[1] == 't' then '\t' else s[1]] + Unescape(s[2..])
    else [s[0]] + Unescape(s[1..])
  }

  lemma {:induction false} DoublingRoundTrips(s: string)
    ensures Undouble(DoubledQuotes(s)) == s
  {
    if s != [] {
      DoublingRoundTrips(s[1..]);
      var d := DoubledQuotes(s);
      if s[0] == '\'' { assert d[2..] == DoubledQuotes(s[1..]); } else { assert d[1..] == DoubledQuotes(s[1..]); }
    }
  }

  lemma UnescapeStep(c: char, rest: string)
    ensures Unescape(Escape(c) + rest) == [c] + Unescape(rest)
  {
    var s := Escape(c) + rest;
    if |Escape(c)| == 2 { assert s[2..] == rest; } else { assert s[1..] == rest; }
  }

  lemma {:induction false} EscapingRoundTrips(s: string)
    ensures Unescape(Escaped(s)) == s
  {
    if s != [] {
      hide Unescape, Escape;
      EscapingRoundTrips(s[1..]);
      UnescapeStep(s[0], Escaped(s[1..]));
    } else {
      assert Escaped(s) == [];
    }
  }
}
