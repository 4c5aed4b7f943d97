/** The two hand-written scanners that decide whether a query's brackets and quotes are complete,
    and the grammar they decide.  A query is a sequence of tokens: plain characters, double-quoted
    strings with backslash escapes, and groups in matched brackets. */
module QueryScanner {
  import opened Text

  /** LogsQL filters know parentheses only; PromQL and MetricsQL know three kinds of brackets. */
  datatype Dialect = LogsQL | MetricsQL

  predicate IsOpen(d: Dialect, c: char) { c == '(' || (d == MetricsQL && (c == '[' || c == '{')) }

  predicate IsClose(d: Dialect, c: char) { c == ')' || (d == MetricsQL && (c == ']' || c == '}')) }

  function Closer(c: char): char { if c == '(' then ')' else if c == '[' then ']' else '}' }

  // ---------- The grammar ----------

  datatype Token = Plain(c: char) | Quoted(body: string) | Group(open: char, inner: seq<Token>)

  type Forest = seq<Token>

  function Print(f: Forest): string
    decreases f
  {
    if f == [] then "" else PrintToken(f[0]) + Print(f[1..])
  }

  function PrintToken(t: Token): string
    decreases t
  {
    match t
    case Plain(c) => [c]
    case Quoted(body) => "\"" + body + "\""
    case Group(open, inner) => [open] + Print(inner) + [Closer(open)]
  }

  /** No quote that is not escaped, and no backslash that escapes nothing. */
  predicate BodyOk(body: string) {
    body == "" ||
    if body[0] == '\\' then |body| >= 2 && BodyOk(body[2..]) else body[0] != '"' && BodyOk(body[1..])
  }

  predicate PlainChar(d: Dialect, c: char) { c != '"' && !IsOpen(d, c) && !IsClose(d, c) }

  predicate WellFormed(d: Dialect, f: Forest)
    decreases f
  {
    forall t :: t in f ==> WellFormedToken(d, t)
  }

  predicate WellFormedToken(d: Dialect, t: Token)
    decreases t
  {
    match t
    case Plain(c) => PlainChar(d, c)
    case Quoted(body) => BodyOk(body)
    case Group(open, inner) => IsOpen(d, open) && WellFormed(d, inner)
  }

  // ---------- The scanners ----------

  /** The state of a scan: the closers still expected, innermost last. */
  datatype Scan = Scanning(stack: string, quoted: bool, escaped: bool) | Rejected

  const START := Scanning("", false, false)

  function Step(d: Dialect, s: Scan, c: char): Scan {
    if s.Rejected? then s
    else if s.escaped then s.(escaped := false)
    else if c == '\\' && s.quoted then s.(escaped := true)
    else if c == '"' then s.(quoted := !s.quoted)
    else if s.quoted then s
    else if IsOpen(d, c) then s.(stack := s.stack + [Closer(c)])
    else if IsClose(d, c) then
      if s.stack == "" || s.stack[|s.stack| - 1] != c then Rejected else s.(stack := s.stack[..|s.stack| - 1])
    else s
  }

  function Run(d: Dialect, s: Scan, text: string): Scan {
    if text == "" then s else Step(d, Run(d, s, text[..|text| - 1]), text[|text| - 1])
  }

  predicate Accepts(d: Dialect, text: string) { Run(d, START, text) == START }

  lemma RejectedStays(d: Dialect, text: string, i: nat)
    requires i <= |text| && Run(d, START, text[..i]).Rejected?
    ensures Run(d, START, text).Rejected?
    decreases |text| - i
  {
    if i < |text| {
      assert text[..i + 1][..i] == text[..i];
      RejectedStays(d, text, i + 1);
    } else {
      assert text[..i] == text;
    }
  }

  method BalancedMetricQuery(expression: string) returns (balanced: bool)
    ensures balanced == Accepts(MetricsQL, expression)
  {
    var stack: string := "";
    var quoted, escaped := false, false;
    for i := 0 to |expression|
      invariant Run(MetricsQL, START, expression[..i]) == Scanning(stack, quoted, escaped)
    {
      var c := expression[i];
      assert expression[..i + 1][..i] == expression[..i];
      if escaped {
        escaped := false;
        continue;
      }
      if c == '\\' && quoted {
        escaped := true;
        continue;
      }
      if c == '"' {
        quoted := !quoted;
        continue;
      }
      if quoted {
        continue;
      }
      if c == '(' {
        stack := stack + [')'];
      } else if c == '[' {
        stack := stack + [']'];
      } else if c == '{' {
        stack := stack + ['}'];
      } else if c == ')' || c == ']' || c == '}' {
        if |stack| == 0 || stack[|stack| - 1] != c {
          RejectedStays(MetricsQL, expression, i + 1);
          return false;
        }
        stack := stack[..|stack| - 1];
      }
    }
    assert expression[..|expression|] == expression;
    return !quoted && !escaped && |stack| == 0;
  }

  /** The LogsQL scanner keeps a counter where the other keeps a stack; the counter is the stack's height. */
  method BalancedLogsQLFilter(expression: string) returns (balanced: bool)
    ensures balanced == Accepts(LogsQL, expression)
  {
    var depth := 0;
    var quoted, escaped := false, false;
    for i := 0 to |expression|
      invariant depth >= 0
      invariant Run(LogsQL, START, expression[..i]) == Scanning(Parentheses(depth), quoted, escaped)
    {
      var c := expression[i];
      assert expression[..i + 1][..i] == expression[..i];
      if escaped {
        escaped := false;
        continue;
      }
      if c == '\\' && quoted {
        escaped := true;
        continue;
      }
      if c == '"' {
        quoted := !quoted;
        continue;
      }
      if quoted {
        continue;
      }
      if c == '(' {
        depth := depth + 1;
      } else if c == ')' {
        depth := depth - 1;
        if depth < 0 {
          RejectedStays(LogsQL, expression, i + 1);
          return false;
        }
        assert Parentheses(depth + 1)[..depth] == Parentheses(depth);
      }
    }
    assert expression[..|expression|] == expression;
    return !quoted && !escaped && depth == 0;
  }

  function Parentheses(depth: nat): (r: string)
    ensures |r| == depth && forall i :: 0 <= i < depth ==> r[i] == ')'
  {
    if depth == 0 then "" else Parentheses(depth - 1) + [')']
  }

  // ---------- Reading the tokens off ----------

  datatype Frame = Frame(before: Forest, open: char)

  /** A scan that also remembers what it has read: the open groups, the tokens of the innermost one,
      and the body of the string it is in. */
  datatype Parser = Parsing(frames: seq<Frame>, tokens: Forest, body: Option<string>, escaped: bool) | Failed

  const BEGIN := Parsing([], [], None, false)

  function ParseStep(d: Dialect, p: Parser, c: char): Parser {
    if p.Failed? then p
    else if p.body.Some? then
      if p.escaped then p.(body := Some(p.body.value + [c]), escaped := false)
      else if c == '\\' then p.(body := Some(p.body.value + [c]), escaped := true)
      else if c == '"' then p.(tokens := p.tokens + [Quoted(p.body.value)], body := None)
      else p.(body := Some(p.body.value + [c]))
    else if c == '"' then p.(body := Some(""))
    else if IsOpen(d, c) then p.(frames := p.frames + [Frame(p.tokens, c)], tokens := [])
    else if IsClose(d, c) then
      var n := |p.frames| - 1;
      if n < 0 || Closer(p.frames[n].open) != c then Failed
      else p.(frames := p.frames[..n], tokens := p.frames[n].before + [Group(p.frames[n].open, p.tokens)])
    else p.(tokens := p.tokens + [Plain(c)])
  }

  function ParseRun(d: Dialect, p: Parser, text: string): Parser {
    if text == "" then p else ParseStep(d, ParseRun(d, p, text[..|text| - 1]), text[|text| - 1])
  }

  /** The tokens of a text, when its brackets and quotes are complete. */
  function Parse(d: Dialect, text: string): Option<Forest> {
    var p := ParseRun(d, BEGIN, text);
    if p.Parsing? && p.frames == [] && p.body.None? then Some(p.tokens) else None
  }

  // ---------- The scanners accept exactly the grammar ----------

  ghost predicate Tracks(p: Parser, s: Scan) {
    match s
    case Rejected => p.Failed?
    case Scanning(stack, quoted, escaped) =>
      && p.Parsing? && |stack| == |p.frames|
      && (forall i :: 0 <= i < |stack| ==> stack[i] == Closer(p.frames[i].open))
      && quoted == p.body.Some? && escaped == p.escaped && (escaped ==> quoted)
  }

  lemma {:induction false} ParserTracksScan(d: Dialect, text: string)
    ensures Tracks(ParseRun(d, BEGIN, text), Run(d, START, text))
  {
    if text != "" {
      var init, c := text[..|text| - 1], text[|text| - 1];
      ParserTracksScan(d, init);
      StepTracks(d, ParseRun(d, BEGIN, init), Run(d, START, init), c);
    }
  }

  lemma StepTracks(d: Dialect, p: Parser, s: Scan, c: char)
    requires Tracks(p, s)
    ensures Tracks(ParseStep(d, p, c), Step(d, s, c))
  {}

  lemma AcceptsParses(d: Dialect, text: string)
    ensures Accepts(d, text) <==> Parse(d, text).Some?
  {
    ParserTracksScan(d, text);
  }

  /** The text a parser has read. */
  function Shown(p: Parser): string
    requires p.Parsing?
  {
    ShownFrames(p.frames) + Print(p.tokens) + if p.body.Some? then "\"" + p.body.value else ""
  }

  function ShownFrames(frames: seq<Frame>): string {
    if frames == [] then "" else
      var n := |frames| - 1;
      ShownFrames(frames[..n]) + Print(frames[n].before) + [frames[n].open]
  }

  predicate ReadWell(d: Dialect, p: Parser) {
    p.Parsing? ==>
      && WellFormed(d, p.tokens)
      && (forall f :: f in p.frames ==> WellFormed(d, f.before) && IsOpen(d, f.open))
      && (p.escaped ==> p.body.Some? && p.body.value != "" && p.body.value[|p.body.value| - 1] == '\\' &&
                        BodyOk(p.body.value[..|p.body.value| - 1]))
      && (p.body.Some? && !p.escaped ==> BodyOk(p.body.value))
  }

  lemma {:induction false} PrintConcat(f: Forest, g: Forest)
    ensures Print(f + g) == Print(f) + Print(g)
  {
    hide PrintToken;
    if f == [] {
      assert f + g == g;
    } else {
      PrintConcat(f[1..], g);
      assert (f + g)[1..] == f[1..] + g;
      Assoc(PrintToken(f[0]), Print(f[1..]), Print(g));
    }
  }

  lemma PrintSnoc(f: Forest, t: Token)
    ensures Print(f + [t]) == Print(f) + PrintToken(t)
  {
    hide PrintToken;
    PrintConcat(f, [t]);
    PrintOne(t);
  }

  lemma PrintOne(t: Token)
    ensures Print([t]) == PrintToken(t)
  {}

  lemma {:induction false} BodySnoc(body: string, c: char)
    requires BodyOk(body) && c != '"'
    ensures c != '\\' ==> BodyOk(body + [c])
    ensures forall e: char :: BodyOk(body + ['\\', e])
  {
    if body == "" {
      forall e: char ensures BodyOk(['\\', e]) { assert ['\\', e][2..] == ""; }
      assert c != '\\' ==> BodyOk([c]);
      assert forall e: char :: body + ['\\', e] == ['\\', e];
      assert body + [c] == [c];
    } else {
      var k := if body[0] == '\\' then 2 else 1;
      BodySnoc(body[k..], c);
      assert (body + [c])[k..] == body[k..] + [c];
      forall e: char ensures BodyOk(body + ['\\', e]) {
        assert (body + ['\\', e])[k..] == body[k..] + ['\\', e];
      }
    }
  }

  lemma StepShows(d: Dialect, p: Parser, c: char)
    requires p.Parsing? && ReadWell(d, p) && ParseStep(d, p, c).Parsing?
    ensures Shown(ParseStep(d, p, c)) == Shown(p) + [c]
  {
    hide Print, WellFormed, BodyOk;
    var outer := ShownFrames(p.frames);
    if p.body.Some? {
      var shown := Print(p.tokens) + ("\"" + p.body.value);
      Assoc(outer, Print(p.tokens), "\"" + p.body.value);
      Assoc(outer, shown, [c]);
      if !p.escaped && c == '"' {
        PrintSnoc(p.tokens, Quoted(p.body.value));
        assert PrintToken(Quoted(p.body.value)) == "\"" + p.body.value + [c];
        assert Print(p.tokens) + PrintToken(Quoted(p.body.value)) == shown + [c];
      } else {
        assert Print(p.tokens) + ("\"" + (p.body.value + [c])) == shown + [c];
        Assoc(outer, Print(p.tokens), "\"" + (p.body.value + [c]));
      }
    } else if c == '"' {
      assert "\"" + "" == [c];
    } else if IsOpen(d, c) {
      assert (p.frames + [Frame(p.tokens, c)])[..|p.frames|] == p.frames;
      PrintNothing();
    } else if IsClose(d, c) {
      ClosingShows(p.frames, p.tokens, c);
    } else {
      PrintSnoc(p.tokens, Plain(c));
      Assoc(outer, Print(p.tokens), [c]);
    }
  }

  lemma PrintNothing()
    ensures Print([]) == ""
  {}

  lemma ClosingShows(frames: seq<Frame>, tokens: Forest, c: char)
    requires frames != [] && Closer(frames[|frames| - 1].open) == c
    ensures var f := frames[|frames| - 1];
            ShownFrames(frames[..|frames| - 1]) + Print(f.before + [Group(f.open, tokens)]) ==
            ShownFrames(frames) + Print(tokens) + [c]
  {
    hide Print;
    var n := |frames| - 1;
    var f, outer := frames[n], ShownFrames(frames[..n]);
    PrintSnoc(f.before, Group(f.open, tokens));
    Assoc(outer, Print(f.before), [f.open] + Print(tokens) + [c]);
    Assoc(outer + Print(f.before), [f.open], Print(tokens));
    Assoc(outer + Print(f.before), [f.open] + Print(tokens), [c]);
  }

  lemma StepReadsWell(d: Dialect, p: Parser, c: char)
    requires ReadWell(d, p)
    ensures ReadWell(d, ParseStep(d, p, c))
  {
    if p.Parsing? && p.body.Some? {
      var b := p.body.value;
      if p.escaped {
        BodySnoc(b[..|b| - 1], ' ');
        assert b + [c] == b[..|b| - 1] + ['\\', c];
      } else if c != '"' {
        BodySnoc(b, c);
        assert (b + [c])[..|b|] == b;
      }
    }
  }

  lemma {:induction false} RunReads(d: Dialect, text: string)
    ensures var p := ParseRun(d, BEGIN, text); ReadWell(d, p) && (p.Parsing? ==> Shown(p) == text)
  {
    if text != "" {
      var n := |text| - 1;
      RunReads(d, text[..n]);
      var p := ParseRun(d, BEGIN, text[..n]);
      StepReadsWell(d, p, text[n]);
      if ParseStep(d, p, text[n]).Parsing? { StepShows(d, p, text[n]); }
    }
  }

  /** What is read off an accepted text is well formed and prints back as the text. */
  lemma ParseSound(d: Dialect, text: string)
    requires Parse(d, text).Some?
    ensures WellFormed(d, Parse(d, text).value) && Print(Parse(d, text).value) == text
  {
    RunReads(d, text);
  }

  lemma {:induction false} ParseRunConcat(d: Dialect, p: Parser, s: string, t: string)
    ensures ParseRun(d, p, s + t) == ParseRun(d, ParseRun(d, p, s), t)
  {
    if t == "" {
      assert s + t == s;
    } else {
      ParseRunConcat(d, p, s, t[..|t| - 1]);
      assert (s + t)[..|s + t| - 1] == s + t[..|t| - 1];
    }
  }

  lemma ParseRunOne(d: Dialect, p: Parser, c: char)
    ensures ParseRun(d, p, [c]) == ParseStep(d, p, c)
  {
    assert [c][..0] == "";
  }

  lemma {:induction false} ParseBody(d: Dialect, p: Parser, body: string)
    requires p.Parsing? && p.body.Some? && !p.escaped && BodyOk(body)
    ensures ParseRun(d, p, body) == p.(body := Some(p.body.value + body))
    decreases |body|
  {
    if body == "" {
      assert p.body.value + body == p.body.value;
    } else {
      var k := if body[0] == '\\' then 2 else 1;
      var q := p.(body := Some(p.body.value + body[..k]));
      ParseBodyHead(d, p, body[..k]);
      ParseBody(d, q, body[k..]);
      assert body == body[..k] + body[k..];
      ParseRunConcat(d, p, body[..k], body[k..]);
      Assoc(p.body.value, body[..k], body[k..]);
    }
  }

  lemma ParseBodyHead(d: Dialect, p: Parser, head: string)
    requires p.Parsing? && p.body.Some? && !p.escaped
    requires (|head| == 1 && head[0] != '"' && head[0] != '\\') || (|head| == 2 && head[0] == '\\')
    ensures ParseRun(d, p, head) == p.(body := Some(p.body.value + head))
  {
    ParseRunOne(d, p, head[0]);
    if |head| == 2 {
      assert head == [head[0]] + [head[1]];
      ParseRunConcat(d, p, [head[0]], [head[1]]);
      ParseRunOne(d, ParseStep(d, p, head[0]), head[1]);
      assert p.body.value + [head[0]] + [head[1]] == p.body.value + head;
    } else {
      assert head == [head[0]];
    }
  }

  /** Reading the print of a well-formed forest adds exactly that forest. */
  lemma {:induction false} ParsePrinted(d: Dialect, p: Parser, f: Forest)
    requires p.Parsing? && p.body.None? && !p.escaped && WellFormed(d, f)
    ensures ParseRun(d, p, Print(f)) == p.(tokens := p.tokens + f)
    decreases f
  {
    hide ParseRun, PrintToken, WellFormedToken;
    if f != [] {
      assert f[0] in f && forall t :: t in f[1..] ==> t in f;
      ParseRunConcat(d, p, PrintToken(f[0]), Print(f[1..]));
      ParsePrintedToken(d, p, f[0]);
      ParsePrinted(d, p.(tokens := p.tokens + [f[0]]), f[1..]);
      assert p.tokens + [f[0]] + f[1..] == p.tokens + f;
    } else {
      assert p.tokens + f == p.tokens;
      ParseRunNothing(d, p);
    }
  }

  lemma ParseRunNothing(d: Dialect, p: Parser)
    ensures ParseRun(d, p, "") == p
  {}

  lemma {:induction false} ParsePrintedToken(d: Dialect, p: Parser, t: Token)
    requires p.Parsing? && p.body.None? && !p.escaped && WellFormedToken(d, t)
    ensures ParseRun(d, p, PrintToken(t)) == p.(tokens := p.tokens + [t])
    decreases t
  {
    hide ParseRun, Print, WellFormed, BodyOk;
    match t
    case Plain(c) =>
      ParseRunOne(d, p, c);
    case Quoted(body) =>
      var q := p.(body := Some(""));
      ParseRunConcat(d, p, "\"" + body, "\"");
      ParseRunConcat(d, p, "\"", body);
      ParseRunOne(d, p, '"');
      assert "\"" == ['"'];
      ParseBody(d, q, body);
      assert "" + body == body;
      ParseRunOne(d, q.(body := Some(body)), '"');
    case Group(open, inner) =>
      ParseRunConcat(d, p, [open] + Print(inner), [Closer(open)]);
      ParseRunConcat(d, p, [open], Print(inner));
      ParseRunOne(d, p, open);
      var q := p.(frames := p.frames + [Frame(p.tokens, open)], tokens := []);
      ParsePrinted(d, q, inner);
      assert [] + inner == inner;
      ParseRunOne(d, q.(tokens := inner), Closer(open));
      assert q.frames[..|p.frames|] == p.frames;
  }

  /** Every well-formed forest is read back from its print: the grammar is unambiguous. */
  lemma ParseComplete(d: Dialect, f: Forest)
    requires WellFormed(d, f)
    ensures Parse(d, Print(f)) == Some(f)
  {
    ParsePrinted(d, BEGIN, f);
    assert [] + f == f;
  }

  /** A scanner accepts a text exactly when the grammar derives it. */
  lemma AcceptsIffDerived(d: Dialect, text: string)
    ensures Accepts(d, text) <==> exists f :: WellFormed(d, f) && Print(f) == text
  {
    AcceptsParses(d, text);
    if Accepts(d, text) {
      ParseSound(d, text);
    }
    if f :| WellFormed(d, f) && Print(f) == text {
      ParseComplete(d, f);
    }
  }

  // ---------- The counter against the stack ----------

  /** Outside quotes, the text has no bracket other than a parenthesis. */
  predicate OnlyParentheses(text: string) {
    forall i :: 0 <= i < |text| ==>
      var s := Run(LogsQL, START, text[..i]);
      s.Scanning? && !s.quoted ==> text[i] !in "[]{}"
  }

  lemma {:induction false} SameRun(text: string)
    requires OnlyParentheses(text)
    ensures Run(LogsQL, START, text) == Run(MetricsQL, START, text)
  {
    if text != "" {
      var n := |text| - 1;
      forall i | 0 <= i < n ensures text[..n][..i] == text[..i] {}
      SameRun(text[..n]);
    }
  }

  /** On such texts the counting scanner and the stack scanner agree. */
  lemma CounterAgreesWithStack(text: string)
    requires OnlyParentheses(text)
    ensures Accepts(LogsQL, text) <==> Accepts(MetricsQL, text)
  {
    SameRun(text);
  }
}
