/** Validating a rule's query and compiling it into the query that is run: the accepted text is
    spliced into a larger one, and this module shows where it ends up. */
module QueryCompiler {
  import opened Text
  import opened QueryScanner
  import opened RuleSpecs

  /** Parts of the Go library that the model does not open up. */
  datatype Library = Library(
    parseDuration: string -> Option<int>,
    formatFloat: real -> string,
    isHTTPURL: string -> bool)

  const SECOND := 1_000_000_000
  const HOUR := 3600 * SECOND

  predicate DurationChar(c: char) { '0' <= c <= '9' || 'a' <= c <= 'z' || c == '.' || c == '+' || c == '-' || c == '\U{B5}' || c == '\U{3BC}' }

  predicate NumberChar(c: char) { '0' <= c <= '9' || c == '.' || c == '-' || c == '+' || c == 'e' }

  /** What is used of that library: durations and numbers are written without brackets, quotes and pipes. */
  ghost predicate LibraryOk(lib: Library) {
    && (forall w, i :: lib.parseDuration(w).Some? && 0 <= i < |w| ==> DurationChar(w[i]))
    && (forall x, i :: 0 <= i < |lib.formatFloat(x)| ==> NumberChar(lib.formatFloat(x)[i]))
  }

  // ---------- Validation ----------

  predicate DurationWithin(lib: Library, raw: string, min: int, max: int) {
    match lib.parseDuration(raw)
    case None => false
    case Some(value) => min <= value <= max
  }

  predicate ValidLabel(key: string, value: string) {
    key in {"cluster", "namespace", "region", "team", "component"} && value != "" && ByteLength(value) <= 64
  }

  predicate ValidScope(s: RuleSpec) {
    if s.signalType == "logs" then
      && s.scope.serviceID != "" && s.scope.serviceName != "" && s.scope.endpointID != ""
      && (s.scope.logRouteID != "" || s.scope.logTargetID != "")
      && (s.scope.logRouteID == "" || s.scope.logTargetID == "")
      && s.scope.accountID != "" && s.scope.projectID != ""
    else if s.signalType == "metrics" then
      && s.scope.environmentID != "" && s.scope.environmentName != "" && s.scope.endpointID != ""
      && s.scope.serviceID == "" && s.scope.serviceName == "" && s.scope.logRouteID == ""
      && s.scope.logTargetID == "" && s.scope.baseFilter == ""
      && forall k :: k in s.scope.labels ==> ValidLabel(k, s.scope.labels[k])
    else false
  }

  /** A filter that holds no pipe, sets no time range and is complete. */
  predicate FilterOnly(filter: string) {
    !Contains(filter, "|") && !Contains(ToLower(filter), "_time") && Accepts(LogsQL, filter)
  }

  predicate ValidQuery(s: RuleSpec) {
    && s.query.expression != "" && ByteLength(s.query.expression) <= 16 * 1024
    && if s.signalType == "logs" then
         && s.query.mode in {"contains", "exact", "logsql"}
         && (s.query.mode == "logsql" ==> FilterOnly(s.query.expression))
       else if s.signalType == "metrics" then
         && s.query.mode in {"promql", "metricsql"}
         && !Contains(s.query.expression, "$")
         && Accepts(MetricsQL, s.query.expression)
       else false
  }

  predicate ValidTrigger(lib: Library, t: Trigger) {
    && t.mode == "window" && t.aggregation in {"count", "rate"} && t.operator in {"gt", "gte"}
    && t.threshold > 0.0
    && DurationWithin(lib, t.window, SECOND, HOUR)
    && DurationWithin(lib, t.interval, SECOND, lib.parseDuration(t.window).value)
    && DurationWithin(lib, t.delay, 0, HOUR)
    && DurationWithin(lib, t.pendingFor, 0, HOUR)
    && DurationWithin(lib, t.keepFiringFor, 0, HOUR)
  }

  predicate ValidGrouping(g: Grouping) {
    && |g.fields| <= 3
    && (forall i :: 0 <= i < |g.fields| ==> g.fields[i] != "")
    && (forall i, j :: 0 <= i < j < |g.fields| ==> g.fields[i] != g.fields[j])
    && 1 <= g.maxInstances <= 100
  }

  predicate ValidNotification(lib: Library, n: Notification) {
    && n.policyID != "" && n.ownerTeam != ""
    && n.severity in {"info", "warning", "critical"}
    && (n.runbookURL != "" ==> lib.isHTTPURL(n.runbookURL))
  }

  predicate ValidDerivedMetric(s: RuleSpec) {
    match s.derivedMetric
    case None => true
    case Some(m) => m.enabled ==>
      && s.signalType != "metrics"
      && m.signal in {"match_count", "match_rate"}
      && |m.labels| <= 4 && s.grouping.fields == []
      && forall k :: k in m.labels ==>
           k in {"environment", "region", "team", "component"} && TrimSpace(m.labels[k]) != "" && ByteLength(m.labels[k]) <= 64
  }

  /** The checks on a normal specification. */
  predicate Valid(lib: Library, s: RuleSpec) {
    && s.name != "" && ByteLength(s.name) <= 120
    && s.signalType in {"logs", "metrics"}
    && ValidScope(s) && ValidQuery(s) && ValidTrigger(lib, s.trigger)
    && ValidGrouping(s.grouping) && ValidNotification(lib, s.notification) && ValidDerivedMetric(s)
  }

  /** What a log target's base filter has passed before a rule can carry it. */
  predicate ValidBaseFilter(filter: string) {
    filter != "" && ByteLength(filter) <= 8 * 1024 && FilterOnly(filter)
  }

  /** The check a log target's filter passes when the target is saved. */
  predicate ValidateLogTargetBaseFilter(filter: string) { ValidBaseFilter(TrimSpace(filter)) }

  // ---------- Quoting ----------

  /** The escape of one character; the escapes for other unprintable characters are left out. */
  function EscapeChar(c: char): string {
    if c == '"' then "\\\"" else if c == '\\' then "\\\\"
    else if c == '\n' then "\\n" else if c == '\t' then "\\t" else if c == '\r' then "\\r"
    else [c]
  }

  function Escape(s: string): string {
    if s == "" then "" else EscapeChar(s[0]) + Escape(s[1..])
  }

  function Quote(s: string): string { "\"" + Escape(s) + "\"" }

  /** What a quoted body stands for. */
  function Unescape(body: string): string {
    if body == "" then ""
    else if body[0] == '\\' && |body| >= 2 then
      var c := body[1];
      [if c == 'n' then '\n' else if c == 't' then '\t' else if c == 'r' then '\r' else c] + Unescape(body[2..])
    else [body[0]] + Unescape(body[1..])
  }

  lemma EscapeStep(c: char, rest: string)
    requires BodyOk(rest)
    ensures BodyOk(EscapeChar(c) + rest) && Unescape(EscapeChar(c) + rest) == [c] + Unescape(rest)
  {
    var e := EscapeChar(c);
    assert (e + rest)[|e|..] == rest;
  }

  /** Quoting makes one complete string token, which stands for the text that was quoted. */
  lemma {:induction false} QuoteFaithful(s: string)
    ensures BodyOk(Escape(s)) && Unescape(Escape(s)) == s
  {
    hide BodyOk, Unescape, EscapeChar;
    if s != "" {
      QuoteFaithful(s[1..]);
      EscapeStep(s[0], Escape(s[1..]));
      assert s == [s[0]] + s[1..];
    } else {
      EscapeNothing();
    }
  }

  lemma EscapeNothing()
    ensures BodyOk("") && Unescape("") == ""
  {}

  // ---------- Texts and the tokens they are made of ----------

  ghost predicate Derives(d: Dialect, text: string, f: Forest) { WellFormed(d, f) && Print(f) == text }

  function Chars(text: string): (f: Forest)
    ensures |f| == |text|
  {
    seq(|text|, i requires 0 <= i < |text| => Plain(text[i]))
  }

  predicate PlainText(d: Dialect, text: string) { forall i :: 0 <= i < |text| ==> PlainChar(d, text[i]) }

  lemma {:induction false} DerivesChars(d: Dialect, text: string)
    requires PlainText(d, text)
    ensures Derives(d, text, Chars(text))
  {
    if text != "" {
      DerivesChars(d, text[1..]);
      assert Chars(text)[1..] == Chars(text[1..]);
      assert text == [text[0]] + text[1..];
    }
  }

  lemma DerivesConcat(d: Dialect, s: string, f: Forest, t: string, g: Forest)
    requires Derives(d, s, f) && Derives(d, t, g)
    ensures Derives(d, s + t, f + g)
  {
    PrintConcat(f, g);
  }

  lemma DerivesGroup(d: Dialect, open: char, s: string, f: Forest)
    requires Derives(d, s, f) && IsOpen(d, open)
    ensures Derives(d, [open] + s + [Closer(open)], [Group(open, f)])
  {
    PrintOne(Group(open, f));
  }

  lemma DerivesQuote(d: Dialect, s: string)
    ensures Derives(d, Quote(s), [Quoted(Escape(s))])
  {
    QuoteFaithful(s);
    PrintOne(Quoted(Escape(s)));
  }

  lemma DerivesAccepted(d: Dialect, text: string)
    requires Accepts(d, text)
    ensures Parse(d, text).Some? && Derives(d, text, Parse(d, text).value)
  {
    AcceptsParses(d, text);
    ParseSound(d, text);
  }

  /** The tokens of an accepted text. */
  function Tokens(d: Dialect, text: string): Forest {
    match Parse(d, text)
    case Some(f) => f
    case None => []
  }

  // ---------- Pipes ----------

  /** The pipes outside strings, at any depth. */
  function Pipes(f: Forest): nat
    decreases f
  {
    if f == [] then 0 else PipesOf(f[0]) + Pipes(f[1..])
  }

  function PipesOf(t: Token): nat
    decreases t
  {
    match t
    case Plain(c) => if c == '|' then 1 else 0
    case Quoted(_) => 0
    case Group(_, inner) => Pipes(inner)
  }

  /** The pipes that are inside no group: what separates the stages of a LogsQL query. */
  function TopPipes(f: Forest): nat {
    if f == [] then 0 else (if f[0] == Plain('|') then 1 else 0) + TopPipes(f[1..])
  }

  function Stages(f: Forest): nat { 1 + TopPipes(f) }

  lemma {:induction false} PipesConcat(f: Forest, g: Forest)
    ensures Pipes(f + g) == Pipes(f) + Pipes(g) && TopPipes(f + g) == TopPipes(f) + TopPipes(g)
  {
    if f == [] {
      assert f + g == g;
    } else {
      PipesConcat(f[1..], g);
      assert (f + g)[1..] == f[1..] + g;
    }
  }

  predicate NoPipe(text: string) { forall i :: 0 <= i < |text| ==> text[i] != '|' }

  lemma {:induction false} CharsPipes(text: string)
    requires NoPipe(text)
    ensures Pipes(Chars(text)) == 0 && TopPipes(Chars(text)) == 0
  {
    if text != "" {
      CharsPipes(text[1..]);
      assert Chars(text)[1..] == Chars(text[1..]);
    }
  }

  lemma {:induction false} NoPipePrinted(f: Forest)
    requires NoPipe(Print(f))
    ensures Pipes(f) == 0 && TopPipes(f) == 0
    decreases f
  {
    if f != [] {
      var head, tail := PrintToken(f[0]), Print(f[1..]);
      assert forall i :: 0 <= i < |head| ==> head[i] == Print(f)[i];
      assert forall i :: 0 <= i < |tail| ==> tail[i] == Print(f)[|head| + i];
      NoPipePrinted(f[1..]);
      match f[0]
      case Group(open, inner) =>
        assert forall i :: 0 <= i < |Print(inner)| ==> Print(inner)[i] == head[1 + i];
        NoPipePrinted(inner);
      case Plain(c) => assert head[0] == c;
      case Quoted(_) =>
    }
  }

  lemma FilterHasNoPipe(filter: string)
    requires FilterOnly(filter)
    ensures Pipes(Tokens(LogsQL, filter)) == 0 && TopPipes(Tokens(LogsQL, filter)) == 0
  {
    DerivesAccepted(LogsQL, filter);
    forall i | 0 <= i < |filter| ensures filter[i] != '|' {
      assert "|" <= filter[i..] <==> filter[i] == '|';
    }
    NoPipePrinted(Tokens(LogsQL, filter));
  }

  /** A constant piece of a query that starts a new stage. */
  lemma StagePipes(text: string, rest: string)
    requires text == " | " + rest && NoPipe(rest)
    ensures Pipes(Chars(text)) == 1 && TopPipes(Chars(text)) == 1
  {
    CharsPipes(rest);
    CharsPipes(" ");
    assert Chars(text) == Chars(" ") + [Plain('|')] + (Chars(" ") + Chars(rest));
    PipesConcat(Chars(" ") + [Plain('|')], Chars(" ") + Chars(rest));
    PipesConcat(Chars(" "), [Plain('|')]);
    PipesConcat(Chars(" "), Chars(rest));
  }

  // ---------- Log queries ----------

  predicate NameStart(c: char) { 'A' <= c <= 'Z' || 'a' <= c <= 'z' || c == '_' }

  /** A field name that may be grouped by. */
  predicate FieldName(s: string) {
    && s != "" && NameStart(s[0])
    && forall i :: 0 < i < |s| ==> NameStart(s[i]) || '0' <= s[i] <= '9' || s[i] == '.' || s[i] == '-'
  }

  predicate FieldNames(fields: seq<string>) { forall i :: 0 <= i < |fields| ==> FieldName(fields[i]) }

  function ScopeText(s: RuleSpec): string {
    if s.scope.baseFilter == "" then Quote("service.name") + ":=" + Quote(s.scope.serviceName)
    else "(" + s.scope.baseFilter + ")"
  }

  function ScopeForest(s: RuleSpec): Forest {
    if s.scope.baseFilter == "" then [Quoted(Escape("service.name"))] + Chars(":=") + [Quoted(Escape(s.scope.serviceName))]
    else [Group('(', Tokens(LogsQL, s.scope.baseFilter))]
  }

  function FilterText(q: Query): string {
    if q.mode == "contains" then Quote(q.expression)
    else if q.mode == "exact" then Quote("_msg") + ":=" + Quote(q.expression)
    else q.expression
  }

  function FilterForest(q: Query): Forest {
    if q.mode == "contains" then [Quoted(Escape(q.expression))]
    else if q.mode == "exact" then [Quoted(Escape("_msg"))] + Chars(":=") + [Quoted(Escape(q.expression))]
    else Tokens(LogsQL, q.expression)
  }

  function Comparison(operator: string): string { if operator == "gt" then ">" else ">=" }

  function StatsText(s: RuleSpec): string {
    " | stats" + (if s.grouping.fields == [] then "" else " by " + ("(" + Join(s.grouping.fields, ", ") + ")"))
    + ((if s.trigger.aggregation == "rate" then " rate" else " count") + "()" + " as matches")
  }

  function StatsForest(s: RuleSpec): Forest {
    Chars(" | stats")
    + (if s.grouping.fields == [] then [] else Chars(" by ") + [Group('(', Chars(Join(s.grouping.fields, ", ")))])
    + (Chars(if s.trigger.aggregation == "rate" then " rate" else " count") + [Group('(', [])] + Chars(" as matches"))
  }

  function FilterStage(lib: Library, s: RuleSpec): string {
    "filter matches:" + Comparison(s.trigger.operator) + lib.formatFloat(s.trigger.threshold)
  }

  function FieldsStage(s: RuleSpec): string { "fields " + Join(s.grouping.fields + ["matches"], ", ") }

  function LogText(lib: Library, s: RuleSpec, timeWindow: bool, threshold: bool): string {
    (if timeWindow then "_time:" + s.trigger.window + " AND " else "")
    + (ScopeText(s) + " AND " + ("(" + FilterText(s.query) + ")"))
    + StatsText(s)
    + (if threshold then " | " + FilterStage(lib, s) + (" | " + FieldsStage(s)) else "")
  }

  /** A log query token by token: the scope and the filter are each one operand of the conjunction,
      whatever they contain. */
  function LogForest(lib: Library, s: RuleSpec, timeWindow: bool, threshold: bool): Forest {
    Chars(if timeWindow then "_time:" + s.trigger.window + " AND " else "")
    + (ScopeForest(s) + Chars(" AND ") + [Group('(', FilterForest(s.query))])
    + StatsForest(s)
    + (if threshold then Chars(" | " + FilterStage(lib, s)) + Chars(" | " + FieldsStage(s)) else [])
  }

  ghost predicate BaseFilterOk(s: RuleSpec) { s.scope.baseFilter == "" || ValidBaseFilter(s.scope.baseFilter) }

  lemma ScopeDerives(s: RuleSpec)
    requires BaseFilterOk(s)
    ensures Derives(LogsQL, ScopeText(s), ScopeForest(s))
    ensures Pipes(ScopeForest(s)) == 0 && TopPipes(ScopeForest(s)) == 0
  {
    hide Escape, Print, WellFormed, Parse;
    if s.scope.baseFilter == "" {
      KeyValueDerives("service.name", s.scope.serviceName);
    } else {
      DerivesAccepted(LogsQL, s.scope.baseFilter);
      DerivesGroup(LogsQL, '(', s.scope.baseFilter, Tokens(LogsQL, s.scope.baseFilter));
      FilterHasNoPipe(s.scope.baseFilter);
    }
  }

  lemma KeyValueDerives(key: string, value: string)
    ensures var f := [Quoted(Escape(key))] + Chars(":=") + [Quoted(Escape(value))];
            Derives(LogsQL, Quote(key) + ":=" + Quote(value), f) && Pipes(f) == 0 && TopPipes(f) == 0
  {
    hide Escape, Print, WellFormed;
    DerivesQuote(LogsQL, key); DerivesQuote(LogsQL, value); DerivesChars(LogsQL, ":=");
    DerivesConcat(LogsQL, Quote(key), [Quoted(Escape(key))], ":=", Chars(":="));
    DerivesConcat(LogsQL, Quote(key) + ":=", [Quoted(Escape(key))] + Chars(":="), Quote(value), [Quoted(Escape(value))]);
    CharsPipes(":=");
    PipesConcat([Quoted(Escape(key))], Chars(":="));
    PipesConcat([Quoted(Escape(key))] + Chars(":="), [Quoted(Escape(value))]);
  }

  lemma FilterDerives(q: Query)
    requires q.mode != "contains" && q.mode != "exact" ==> FilterOnly(q.expression)
    ensures Derives(LogsQL, FilterText(q), FilterForest(q))
    ensures Pipes(FilterForest(q)) == 0
  {
    hide Escape, Print, WellFormed, Parse;
    if q.mode == "contains" {
      DerivesQuote(LogsQL, q.expression);
    } else if q.mode == "exact" {
      KeyValueDerives("_msg", q.expression);
    } else {
      DerivesAccepted(LogsQL, q.expression);
      FilterHasNoPipe(q.expression);
    }
  }

  predicate Harmless(text: string) { PlainText(LogsQL, text) && PlainText(MetricsQL, text) && NoPipe(text) }

  lemma {:induction false} JoinHarmless(parts: seq<string>, separator: string)
    requires Harmless(separator) && forall i :: 0 <= i < |parts| ==> Harmless(parts[i])
    ensures Harmless(Join(parts, separator))
  {
    if |parts| > 1 { JoinHarmless(parts[..|parts| - 1], separator); }
  }

  lemma FieldsHarmless(fields: seq<string>)
    requires FieldNames(fields)
    ensures Harmless(Join(fields, ", ")) && Harmless(Join(fields + ["matches"], ", "))
  {
    assert Harmless(", ") && Harmless("matches");
    forall i | 0 <= i < |fields| ensures Harmless(fields[i]) { assert FieldName(fields[i]); }
    JoinHarmless(fields, ", ");
    JoinHarmless(fields + ["matches"], ", ");
  }

  lemma StatsDerives(s: RuleSpec)
    requires FieldNames(s.grouping.fields)
    ensures Derives(LogsQL, StatsText(s), StatsForest(s))
    ensures Pipes(StatsForest(s)) == 1 && TopPipes(StatsForest(s)) == 1
  {
    hide Print, WellFormed, Join, Harmless, Pipes, TopPipes;
    var name := if s.trigger.aggregation == "rate" then " rate" else " count";
    var list := Join(s.grouping.fields, ", ");
    ConstantPieces();
    DerivesChars(LogsQL, name); DerivesChars(LogsQL, " as matches");
    DerivesNothing();
    DerivesGroup(LogsQL, '(', "", []);
    assert ['('] + "" + [')'] == "()";
    DerivesConcat(LogsQL, name, Chars(name), "()", [Group('(', [])]);
    DerivesConcat(LogsQL, name + "()", Chars(name) + [Group('(', [])], " as matches", Chars(" as matches"));
    var tail, tailForest := name + "()" + " as matches", Chars(name) + [Group('(', [])] + Chars(" as matches");
    PipesConcat(Chars(name), [Group('(', [])]);
    PipesConcat(Chars(name) + [Group('(', [])], Chars(" as matches"));
    PipesOfGroup([]);
    CharsPipes(name); CharsPipes(" as matches");
    DerivesChars(LogsQL, " | stats");
    StagePipes(" | stats", "stats");
    var list', listForest := "", [];
    if s.grouping.fields != [] {
      FieldsHarmless(s.grouping.fields);
      HarmlessMeans(list);
      DerivesChars(LogsQL, list); DerivesChars(LogsQL, " by ");
      DerivesGroup(LogsQL, '(', list, Chars(list));
      DerivesConcat(LogsQL, " by ", Chars(" by "), "(" + list + ")", [Group('(', Chars(list))]);
      list', listForest := " by " + ("(" + list + ")"), Chars(" by ") + [Group('(', Chars(list))];
      CharsPipes(" by "); CharsPipes(list); PipesOfGroup(Chars(list));
      PipesConcat(Chars(" by "), [Group('(', Chars(list))]);
    }
    DerivesConcat(LogsQL, " | stats", Chars(" | stats"), list', listForest);
    DerivesConcat(LogsQL, " | stats" + list', Chars(" | stats") + listForest, tail, tailForest);
    PipesConcat(Chars(" | stats"), listForest);
    PipesConcat(Chars(" | stats") + listForest, tailForest);
    PipesNothing();
  }

  lemma ConstantPieces()
    ensures PlainText(LogsQL, " rate") && PlainText(LogsQL, " count") && PlainText(LogsQL, " as matches")
    ensures PlainText(LogsQL, " | stats") && PlainText(LogsQL, " by ") && PlainText(LogsQL, " AND ")
    ensures NoPipe(" rate") && NoPipe(" count") && NoPipe(" as matches") && NoPipe(" by ") && NoPipe(" AND ") && NoPipe("stats")
  {}

  lemma HarmlessMeans(text: string)
    requires Harmless(text)
    ensures PlainText(LogsQL, text) && PlainText(MetricsQL, text) && NoPipe(text)
  {}

  lemma DerivesNothing()
    ensures Derives(LogsQL, "", []) && Derives(MetricsQL, "", [])
  {}

  lemma PipesNothing()
    ensures Pipes([]) == 0 && TopPipes([]) == 0
  {}

  lemma PipesOfGroup(f: Forest)
    ensures Pipes([Group('(', f)]) == Pipes(f) && TopPipes([Group('(', f)]) == 0
  {}

  lemma StageDerives(rest: string)
    requires Harmless(rest)
    ensures Derives(LogsQL, " | " + rest, Chars(" | " + rest))
    ensures Pipes(Chars(" | " + rest)) == 1 && TopPipes(Chars(" | " + rest)) == 1
  {
    var text := " | " + rest;
    forall i | 0 <= i < |text| ensures PlainChar(LogsQL, text[i]) {
      if i >= 3 { assert text[i] == rest[i - 3]; }
    }
    DerivesChars(LogsQL, text);
    StagePipes(text, rest);
  }

  lemma HarmlessConcat(a: string, b: string)
    requires Harmless(a) && Harmless(b)
    ensures Harmless(a + b)
  {}

  lemma NumberHarmless(lib: Library, x: real)
    requires LibraryOk(lib)
    ensures Harmless(lib.formatFloat(x))
  {}

  lemma DurationHarmless(lib: Library, w: string)
    requires LibraryOk(lib) && lib.parseDuration(w).Some?
    ensures Harmless(w)
  {}

  lemma LiteralsHarmless()
    ensures Harmless("filter matches:") && Harmless("fields ") && Harmless("_time:") && Harmless(" AND ")
    ensures Harmless(">") && Harmless(">=")
  {}

  lemma ThresholdHarmless(lib: Library, s: RuleSpec)
    requires LibraryOk(lib) && FieldNames(s.grouping.fields)
    ensures Harmless(FilterStage(lib, s)) && Harmless(FieldsStage(s))
  {
    hide Harmless, Join;
    LiteralsHarmless();
    FieldsHarmless(s.grouping.fields);
    NumberHarmless(lib, s.trigger.threshold);
    HarmlessConcat("filter matches:", Comparison(s.trigger.operator));
    HarmlessConcat("filter matches:" + Comparison(s.trigger.operator), lib.formatFloat(s.trigger.threshold));
    HarmlessConcat("fields ", Join(s.grouping.fields + ["matches"], ", "));
  }

  lemma WindowHarmless(lib: Library, w: string)
    requires LibraryOk(lib) && lib.parseDuration(w).Some?
    ensures Harmless("_time:" + w + " AND ")
  {
    hide Harmless;
    LiteralsHarmless();
    DurationHarmless(lib, w);
    HarmlessConcat("_time:", w);
    HarmlessConcat("_time:" + w, " AND ");
  }

  /** The text of a compiled log query has exactly the tokens of `LogForest`: the parenthesis opened
      before the base filter, and the one opened before the rule's own filter, are closed by the ones
      written right after them.  A query that only counts has two stages, an alert query four. */
  lemma LogTextStructure(lib: Library, s: RuleSpec, timeWindow: bool, threshold: bool)
    requires LibraryOk(lib) && Valid(lib, s) && s.signalType == "logs" && FieldNames(s.grouping.fields)
    requires BaseFilterOk(s)
    ensures Parse(LogsQL, LogText(lib, s, timeWindow, threshold)) == Some(LogForest(lib, s, timeWindow, threshold))
    ensures Accepts(LogsQL, LogText(lib, s, timeWindow, threshold))
    ensures Stages(LogForest(lib, s, timeWindow, threshold)) == if threshold then 4 else 2
    ensures Pipes(LogForest(lib, s, timeWindow, threshold)) == TopPipes(LogForest(lib, s, timeWindow, threshold))
  {
    hide Print, WellFormed, Escape, Parse, ScopeText, ScopeForest, FilterText, FilterForest, StatsText, StatsForest,
         FilterStage, FieldsStage, Pipes, TopPipes, Harmless, Accepts;
    var time := if timeWindow then "_time:" + s.trigger.window + " AND " else "";
    if timeWindow { WindowHarmless(lib, s.trigger.window); } else { HarmlessNothing(); }
    HarmlessMeans(time);
    DerivesChars(LogsQL, time);
    CharsPipes(time);
    ConjunctionDerives(s);
    var both, bothForest := ScopeText(s) + " AND " + ("(" + FilterText(s.query) + ")"),
                            ScopeForest(s) + Chars(" AND ") + [Group('(', FilterForest(s.query))];
    StatsDerives(s);
    DerivesConcat(LogsQL, time, Chars(time), both, bothForest);
    DerivesConcat(LogsQL, time + both, Chars(time) + bothForest, StatsText(s), StatsForest(s));
    PipesConcat(Chars(time), bothForest);
    PipesConcat(Chars(time) + bothForest, StatsForest(s));
    var tail, tailForest := "", [];
    DerivesNothing(); PipesNothing();
    if threshold {
      ThresholdHarmless(lib, s);
      StageDerives(FilterStage(lib, s)); StageDerives(FieldsStage(s));
      DerivesConcat(LogsQL, " | " + FilterStage(lib, s), Chars(" | " + FilterStage(lib, s)),
                            " | " + FieldsStage(s), Chars(" | " + FieldsStage(s)));
      PipesConcat(Chars(" | " + FilterStage(lib, s)), Chars(" | " + FieldsStage(s)));
      tail := " | " + FilterStage(lib, s) + (" | " + FieldsStage(s));
      tailForest := Chars(" | " + FilterStage(lib, s)) + Chars(" | " + FieldsStage(s));
    }
    DerivesConcat(LogsQL, time + both + StatsText(s), Chars(time) + bothForest + StatsForest(s), tail, tailForest);
    PipesConcat(Chars(time) + bothForest + StatsForest(s), tailForest);
    ParseComplete(LogsQL, LogForest(lib, s, timeWindow, threshold));
    AcceptsParses(LogsQL, LogText(lib, s, timeWindow, threshold));
  }

  lemma HarmlessNothing()
    ensures Harmless("")
  {}

  lemma ConjunctionDerives(s: RuleSpec)
    requires ValidQuery(s) && s.signalType == "logs" && BaseFilterOk(s)
    ensures var f := ScopeForest(s) + Chars(" AND ") + [Group('(', FilterForest(s.query))];
            && Derives(LogsQL, ScopeText(s) + " AND " + ("(" + FilterText(s.query) + ")"), f)
            && Pipes(f) == 0 && TopPipes(f) == 0
  {
    hide Print, WellFormed, Escape, Parse, ScopeText, ScopeForest, FilterText, FilterForest, Pipes, TopPipes, Accepts;
    ScopeDerives(s); FilterDerives(s.query);
    ConstantPieces();
    DerivesChars(LogsQL, " AND ");
    CharsPipes(" AND ");
    DerivesGroup(LogsQL, '(', FilterText(s.query), FilterForest(s.query));
    PipesOfGroup(FilterForest(s.query));
    DerivesConcat(LogsQL, ScopeText(s), ScopeForest(s), " AND ", Chars(" AND "));
    DerivesConcat(LogsQL, ScopeText(s) + " AND ", ScopeForest(s) + Chars(" AND "),
                  "(" + FilterText(s.query) + ")", [Group('(', FilterForest(s.query))]);
    PipesConcat(ScopeForest(s), Chars(" AND "));
    PipesConcat(ScopeForest(s) + Chars(" AND "), [Group('(', FilterForest(s.query))]);
  }

  /** Why the base filter has to be complete by itself: this one is not, and yet the query it is
      spliced into is accepted -- with the parentheses matched across the seam. */
  lemma SplicedFilterMustBeComplete()
    ensures var base := ") OR (";
            && !Accepts(LogsQL, base)
            && Accepts(LogsQL, "(" + base + ")")
            && Parse(LogsQL, "(" + base + ")") == Some([Group('(', []), Plain(' '), Plain('O'), Plain('R'), Plain(' '), Group('(', [])])
  {
    var base := ") OR (";
    assert base[..1] == ")" && base[..0] == "";
    assert Run(LogsQL, START, base[..1]) == Rejected by { assert base[..1][..0] == ""; }
    RejectedStays(LogsQL, base, 1);
    var f := [Group('(', []), Plain(' '), Plain('O'), Plain('R'), Plain(' '), Group('(', [])];
    assert Chars(" OR ") == [Plain(' '), Plain('O'), Plain('R'), Plain(' ')];
    DerivesNothing();
    DerivesGroup(LogsQL, '(', "", []);
    DerivesChars(LogsQL, " OR ");
    assert ['('] + "" + [')'] == "()";
    DerivesConcat(LogsQL, "()", [Group('(', [])], " OR ", Chars(" OR "));
    DerivesConcat(LogsQL, "()" + " OR ", [Group('(', [])] + Chars(" OR "), "()", [Group('(', [])]);
    assert "(" + base + ")" == "()" + " OR " + "()";
    assert f == [Group('(', [])] + Chars(" OR ") + [Group('(', [])];
    ParseComplete(LogsQL, f);
    AcceptsParses(LogsQL, "(" + base + ")");
  }

  // ---------- Metric queries ----------

  const ENVIRONMENT_LABEL := "novaapm_environment_id"

  /** The labels a metric query is restricted to. */
  function QueryLabels(s: RuleSpec): map<string, string> {
    map[ENVIRONMENT_LABEL := s.scope.environmentID] + s.scope.labels
  }

  function Matcher(labels: map<string, string>, key: string): string
    requires key in labels
  {
    key + "=" + Quote(labels[key])
  }

  function Matchers(labels: map<string, string>, keys: seq<string>): (r: seq<string>)
    requires forall k :: k in keys ==> k in labels
    ensures |r| == |keys| && forall i :: 0 <= i < |keys| ==> r[i] == Matcher(labels, keys[i])
  {
    seq(|keys|, i requires 0 <= i < |keys| => Matcher(labels, keys[i]))
  }

  function MatchersForest(labels: map<string, string>, keys: seq<string>): Forest
    requires forall k :: k in keys ==> k in labels
  {
    if keys == [] then [] else
      var n := |keys| - 1;
      (if n == 0 then [] else MatchersForest(labels, keys[..n]) + Chars(","))
      + (Chars(keys[n]) + Chars("=") + [Quoted(Escape(labels[keys[n]]))])
  }

  function MetricText(lib: Library, s: RuleSpec, keys: seq<string>, threshold: bool): string
    requires forall k :: k in keys ==> k in QueryLabels(s)
  {
    var expression := "(" + s.query.expression + ")" + " and on" + ("(" + Join(keys, ",") + ")") + " "
      + ("(" + ("{" + Join(Matchers(QueryLabels(s), keys), ",") + "}") + ")");
    if threshold then
      "(" + expression + ")" + (" " + Comparison(s.trigger.operator) + " " + lib.formatFloat(s.trigger.threshold))
    else expression
  }

  /** A metric query token by token: the rule's expression is one operand of `and`, and the whole of
      that one operand of the comparison. */
  function MetricForest(lib: Library, s: RuleSpec, keys: seq<string>, threshold: bool): Forest
    requires forall k :: k in keys ==> k in QueryLabels(s)
  {
    var expression := [Group('(', Tokens(MetricsQL, s.query.expression))] + Chars(" and on") + [Group('(', Chars(Join(keys, ",")))] + Chars(" ")
      + [Group('(', [Group('{', MatchersForest(QueryLabels(s), keys))])];
    if threshold then
      [Group('(', expression)] + Chars(" " + Comparison(s.trigger.operator) + " " + lib.formatFloat(s.trigger.threshold))
    else expression
  }

  lemma LabelKeysHarmless(s: RuleSpec, key: string)
    requires ValidScope(s) && s.signalType == "metrics" && key in QueryLabels(s)
    ensures Harmless(key)
  {
    hide Harmless;
    LabelNamesHarmless();
    assert key == ENVIRONMENT_LABEL || ValidLabel(key, s.scope.labels[key]);
  }

  lemma LabelNamesHarmless()
    ensures Harmless(ENVIRONMENT_LABEL) && Harmless("cluster") && Harmless("namespace")
    ensures Harmless("region") && Harmless("team") && Harmless("component")
  {
    hide Harmless;
    EnvironmentHarmless();
    PlacesHarmless();
    OwnersHarmless();
  }

  lemma EnvironmentHarmless()
    ensures Harmless(ENVIRONMENT_LABEL)
  {}

  lemma PlacesHarmless()
    ensures Harmless("cluster") && Harmless("namespace")
  {}

  lemma OwnersHarmless()
    ensures Harmless("region") && Harmless("team") && Harmless("component")
  {}

  lemma MatcherDerives(labels: map<string, string>, key: string)
    requires key in labels && PlainText(MetricsQL, key)
    ensures Derives(MetricsQL, Matcher(labels, key), Chars(key) + Chars("=") + [Quoted(Escape(labels[key]))])
  {
    hide Print, WellFormed, Escape;
    DerivesChars(MetricsQL, key); DerivesChars(MetricsQL, "=");
    DerivesQuote(MetricsQL, labels[key]);
    DerivesConcat(MetricsQL, key, Chars(key), "=", Chars("="));
    DerivesConcat(MetricsQL, key + "=", Chars(key) + Chars("="), Quote(labels[key]), [Quoted(Escape(labels[key]))]);
  }

  lemma {:induction false} MatchersDerive(labels: map<string, string>, keys: seq<string>)
    requires forall k :: k in keys ==> k in labels && PlainText(MetricsQL, k)
    ensures Derives(MetricsQL, Join(Matchers(labels, keys), ","), MatchersForest(labels, keys))
  {
    hide Print, WellFormed, Escape, Matcher, PlainText;
    if keys == [] {
      DerivesNothing();
    } else {
      var n := |keys| - 1;
      var last, lastForest := Matcher(labels, keys[n]), Chars(keys[n]) + Chars("=") + [Quoted(Escape(labels[keys[n]]))];
      assert keys[n] in keys;
      MatcherDerives(labels, keys[n]);
      if n == 0 {
        assert [] + lastForest == lastForest;
      } else {
        assert forall k :: k in keys[..n] ==> k in keys;
        MatchersDerive(labels, keys[..n]);
        assert Matchers(labels, keys)[..n] == Matchers(labels, keys[..n]);
        CommaPlain();
        DerivesChars(MetricsQL, ",");
        DerivesConcat(MetricsQL, Join(Matchers(labels, keys[..n]), ","), MatchersForest(labels, keys[..n]), ",", Chars(","));
        DerivesConcat(MetricsQL, Join(Matchers(labels, keys[..n]), ",") + ",", MatchersForest(labels, keys[..n]) + Chars(","), last, lastForest);
      }
    }
  }

  lemma CommaPlain()
    ensures PlainText(MetricsQL, ",") && PlainText(MetricsQL, " and on") && PlainText(MetricsQL, " ")
    ensures Harmless(",") && Harmless(" ")
  {}

  /** The text of a compiled metric query has exactly the tokens of `MetricForest`. */
  lemma MetricTextStructure(lib: Library, s: RuleSpec, keys: seq<string>, threshold: bool)
    requires LibraryOk(lib) && Valid(lib, s) && s.signalType == "metrics"
    requires forall k :: k in keys ==> k in QueryLabels(s)
    ensures Parse(MetricsQL, MetricText(lib, s, keys, threshold)) == Some(MetricForest(lib, s, keys, threshold))
    ensures Accepts(MetricsQL, MetricText(lib, s, keys, threshold))
  {
    hide Print, WellFormed, Escape, Parse, Join, Harmless, Matchers, MatchersForest, Accepts, PlainText, ValidScope;
    var e, list, labels := s.query.expression, Join(keys, ","), QueryLabels(s);
    forall k | k in keys ensures Harmless(k) && PlainText(MetricsQL, k) { LabelKeysHarmless(s, k); HarmlessMeans(k); }
    CommaPlain();
    JoinHarmless(keys, ",");
    HarmlessMeans(list);
    DerivesAccepted(MetricsQL, e);
    DerivesGroup(MetricsQL, '(', e, Tokens(MetricsQL, e));
    DerivesChars(MetricsQL, " and on"); DerivesChars(MetricsQL, " "); DerivesChars(MetricsQL, list);
    DerivesGroup(MetricsQL, '(', list, Chars(list));
    MatchersDerive(labels, keys);
    var m, mForest := Join(Matchers(labels, keys), ","), MatchersForest(labels, keys);
    DerivesGroup(MetricsQL, '{', m, mForest);
    DerivesGroup(MetricsQL, '(', "{" + m + "}", [Group('{', mForest)]);
    var a, aF := "(" + e + ")" + " and on", [Group('(', Tokens(MetricsQL, e))] + Chars(" and on");
    DerivesConcat(MetricsQL, "(" + e + ")", [Group('(', Tokens(MetricsQL, e))], " and on", Chars(" and on"));
    DerivesConcat(MetricsQL, a, aF, "(" + list + ")", [Group('(', Chars(list))]);
    DerivesConcat(MetricsQL, a + ("(" + list + ")"), aF + [Group('(', Chars(list))], " ", Chars(" "));
    var b, bF := a + ("(" + list + ")") + " ", aF + [Group('(', Chars(list))] + Chars(" ");
    DerivesConcat(MetricsQL, b, bF, "(" + ("{" + m + "}") + ")", [Group('(', [Group('{', mForest)])]);
    if threshold {
      var c, cF := b + ("(" + ("{" + m + "}") + ")"), bF + [Group('(', [Group('{', mForest)])];
      var t := " " + Comparison(s.trigger.operator) + " " + lib.formatFloat(s.trigger.threshold);
      ComparisonHarmless(lib, s);
      DerivesChars(MetricsQL, t);
      DerivesGroup(MetricsQL, '(', c, cF);
      DerivesConcat(MetricsQL, "(" + c + ")", [Group('(', cF)], t, Chars(t));
    }
    ParseComplete(MetricsQL, MetricForest(lib, s, keys, threshold));
    AcceptsParses(MetricsQL, MetricText(lib, s, keys, threshold));
  }

  lemma ComparisonHarmless(lib: Library, s: RuleSpec)
    requires LibraryOk(lib)
    ensures PlainText(MetricsQL, " " + Comparison(s.trigger.operator) + " " + lib.formatFloat(s.trigger.threshold))
  {
    hide Harmless;
    LiteralsHarmless(); CommaPlain();
    NumberHarmless(lib, s.trigger.threshold);
    HarmlessConcat(" ", Comparison(s.trigger.operator));
    HarmlessConcat(" " + Comparison(s.trigger.operator), " ");
    HarmlessConcat(" " + Comparison(s.trigger.operator) + " ", lib.formatFloat(s.trigger.threshold));
    HarmlessMeans(" " + Comparison(s.trigger.operator) + " " + lib.formatFloat(s.trigger.threshold));
  }

  // ---------- The compiler ----------

  /** `keys` lists a set of strings in ascending order. */
  ghost predicate Ascending(keys: seq<string>, names: set<string>) {
    && Sorted(keys) && (forall k :: k in keys <==> k in names)
    && forall i, j :: 0 <= i < j < |keys| ==> keys[i] != keys[j]
  }

  /** Collecting the keys of a map in whatever order it yields them, then sorting. */
  method SortedKeys(labels: map<string, string>) returns (keys: seq<string>)
    ensures Ascending(keys, labels.Keys)
  {
    hide AtMost, Sorted, Sort;
    keys := [];
    var todo := labels.Keys;
    while todo != {}
      invariant todo <= labels.Keys
      invariant forall k :: k in keys <==> k in labels && k !in todo
      invariant forall i, j :: 0 <= i < j < |keys| ==> keys[i] != keys[j]
    {
      var key :| key in todo;
      keys := keys + [key];
      todo := todo - {key};
    }
    ghost var unsorted := keys;
    SortSorts(keys);
    keys := Sort(keys);
    forall k ensures k in keys <==> k in unsorted {
      assert k in keys <==> k in multiset(keys);
      assert k in unsorted <==> k in multiset(unsorted);
    }
    SameOnce(unsorted, keys);
  }

  lemma SameOnce(a: seq<string>, b: seq<string>)
    requires multiset(a) == multiset(b) && forall i, j :: 0 <= i < j < |a| ==> a[i] != a[j]
    ensures forall i, j :: 0 <= i < j < |b| ==> b[i] != b[j]
  {
    forall i, j | 0 <= i < j < |b| ensures b[i] != b[j] {
      if b[i] == b[j] {
        assert b == b[..j] + b[j..] && b[i] in b[..j] && b[j] in b[j..];
        assert multiset(b)[b[i]] == multiset(b[..j])[b[i]] + multiset(b[j..])[b[i]];
        OnceAtMost(a, b[i]);
        assert false;
      }
    }
  }

  lemma {:induction false} OnceAtMost(a: seq<string>, x: string)
    requires forall i, j :: 0 <= i < j < |a| ==> a[i] != a[j]
    ensures multiset(a)[x] <= 1
  {
    if a != [] {
      OnceAtMost(a[1..], x);
      assert a == [a[0]] + a[1..];
      if a[0] == x { assert x !in a[1..]; assert multiset(a[1..])[x] == 0; }
    }
  }

  /** There is one ascending order of a set: the compiled text does not depend on the map's order. */
  lemma AscendingUnique(a: seq<string>, b: seq<string>, names: set<string>)
    requires Ascending(a, names) && Ascending(b, names)
    ensures a == b
  {
    hide AtMost, Sorted;
    forall x ensures multiset(a)[x] == multiset(b)[x] {
      OnceAtMost(a, x); OnceAtMost(b, x);
      assert x in multiset(a) <==> x in a;
      assert x in multiset(b) <==> x in b;
    }
    assert multiset(a) == multiset(b);
    SortedUnique(a, b);
  }

  method CompileMetricQuery(lib: Library, s: RuleSpec, threshold: bool) returns (expression: string, ghost keys: seq<string>)
    requires TrimSpace(s.query.expression) == s.query.expression
    ensures Ascending(keys, QueryLabels(s).Keys) && expression == MetricText(lib, s, keys, threshold)
  {
    hide AtMost, Sorted, TrimSpace, Escape, Join, Ascending;
    expression := TrimSpace(s.query.expression);
    var labels := map[ENVIRONMENT_LABEL := s.scope.environmentID];
    labels := labels + s.scope.labels;
    var sorted := SortedKeys(labels);
    keys := sorted;
    AscendingKeys(keys, labels.Keys);
    var matchers := WriteMatchers(labels, sorted);
    MetricPieces(expression, Join(sorted, ","), Join(matchers, ","));
    expression := "(" + expression + ") and on(" + Join(sorted, ",") + ") ({" + Join(matchers, ",") + "})";
    if threshold {
      var op := ">=";
      if s.trigger.operator == "gt" {
        op := ">";
      }
      ComparisonPieces(expression, op, lib.formatFloat(s.trigger.threshold));
      expression := "(" + expression + ") " + op + " " + lib.formatFloat(s.trigger.threshold);
    }
  }

  lemma AscendingKeys(keys: seq<string>, names: set<string>)
    requires Ascending(keys, names)
    ensures forall k :: k in keys ==> k in names
  {}

  method WriteMatchers(labels: map<string, string>, keys: seq<string>) returns (matchers: seq<string>)
    requires forall k :: k in keys ==> k in labels
    ensures matchers == Matchers(labels, keys)
  {
    hide Escape;
    matchers := [];
    for i := 0 to |keys|
      invariant matchers == Matchers(labels, keys)[..i]
    {
      var key := keys[i];
      matchers := matchers + [key + "=" + Quote(labels[key])];
    }
  }

  lemma MetricPieces(e: string, list: string, m: string)
    ensures "(" + e + ") and on(" + list + ") ({" + m + "})" ==
            "(" + e + ")" + " and on" + ("(" + list + ")") + " " + ("(" + ("{" + m + "}") + ")")
  {
    assert ") and on(" == ")" + " and on" + "(";
    assert ") ({" == ")" + " " + "(" + "{";
    assert "})" == "}" + ")";
  }

  lemma ComparisonPieces(e: string, op: string, number: string)
    ensures "(" + e + ") " + op + " " + number == "(" + e + ")" + (" " + op + " " + number)
  {
    assert ") " == ")" + " ";
  }

  /** `query` is what a normal specification compiles to: its text where it is valid, an error otherwise. */
  ghost predicate Compiled(lib: Library, n: RuleSpec, keys: seq<string>, timeWindow: bool, threshold: bool, query: Option<string>) {
    && (query.Some? <==> Valid(lib, n) && (n.signalType == "logs" ==> FieldNames(n.grouping.fields)))
    && (query.Some? && n.signalType == "logs" ==> query.value == LogText(lib, n, timeWindow, threshold))
    && (query.Some? && n.signalType == "metrics" ==>
          Ascending(keys, QueryLabels(n).Keys) && query.value == MetricText(lib, n, keys, threshold))
  }

  ghost predicate Compiles(lib: Library, spec: RuleSpec, timeWindow: bool, threshold: bool, query: Option<string>) {
    exists n, keys :: Normalizes(spec, n) && Compiled(lib, n, keys, timeWindow, threshold, query)
  }

  /** Compiling normalises, validates, and writes the query out. */
  method CompileQuery(lib: Library, spec: RuleSpec, timeWindow: bool, threshold: bool) returns (query: Option<string>)
    ensures Compiles(lib, spec, timeWindow, threshold, query)
  {
    hide Ascending, Sorted, Valid, Normalizes, Escape, FieldName, MetricText, LogText, Join;
    var s := NormalizeSpec(spec);
    if !Valid(lib, s) {
      assert Compiled(lib, s, [], timeWindow, threshold, None);
      return None;
    }
    ValidSignal(lib, s);
    if s.signalType == "metrics" {
      ExpressionTrimmed(spec, s);
      var text, keys := CompileMetricQuery(lib, s, threshold);
      query := Some(text);
      assert Compiled(lib, s, keys, timeWindow, threshold, query);
    } else {
      query := CompileLogQuery(lib, s, timeWindow, threshold);
      assert Compiled(lib, s, [], timeWindow, threshold, query);
    }
  }

  method CompileLogQuery(lib: Library, s: RuleSpec, timeWindow: bool, threshold: bool) returns (query: Option<string>)
    ensures query.Some? <==> FieldNames(s.grouping.fields)
    ensures query.Some? ==> query.value == LogText(lib, s, timeWindow, threshold)
  {
    hide Escape, FieldName, Join, Quote, ScopeText, FilterText, StatsText, FilterStage, FieldsStage, Comparison;
    var scopeFilter := Quote("service.name") + ":=" + Quote(s.scope.serviceName);
    if s.scope.baseFilter != "" {
      scopeFilter := "(" + s.scope.baseFilter + ")";
    }
    ConjunctionPieces(s);
    var text := scopeFilter + " AND (" + FilterText(s.query) + ")";
    if timeWindow {
      text := "_time:" + s.trigger.window + " AND " + text;
    } else {
      assert "" + text == text;
    }
    var grouping := "";
    if |s.grouping.fields| > 0 {
      for i := 0 to |s.grouping.fields|
        invariant forall j :: 0 <= j < i ==> FieldName(s.grouping.fields[j])
      {
        if !FieldName(s.grouping.fields[i]) {
          return None;
        }
      }
      grouping := " by (" + Join(s.grouping.fields, ", ") + ")";
    }
    var name := "count()";
    if s.trigger.aggregation == "rate" {
      name := "rate()";
    }
    StatsPieces(text, s);
    text := text + " | stats" + grouping + " " + name + " as matches";
    if threshold {
      var op := ">=";
      if s.trigger.operator == "gt" {
        op := ">";
      }
      var fields := s.grouping.fields + ["matches"];
      ThresholdPieces(text, lib, s);
      text := text + " | filter matches:" + op + lib.formatFloat(s.trigger.threshold);
      text := text + " | fields " + Join(fields, ", ");
    } else {
      assert text + "" == text;
    }
    return Some(text);
  }

  lemma ConjunctionPieces(s: RuleSpec)
    ensures (if s.scope.baseFilter != "" then "(" + s.scope.baseFilter + ")"
             else Quote("service.name") + ":=" + Quote(s.scope.serviceName)) + " AND (" + FilterText(s.query) + ")" ==
            ScopeText(s) + " AND " + ("(" + FilterText(s.query) + ")")
  {
    hide Quote, FilterText;
    assert " AND (" == " AND " + "(";
  }

  lemma StatsPieces(head: string, s: RuleSpec)
    ensures head + " | stats" + (if |s.grouping.fields| > 0 then " by (" + Join(s.grouping.fields, ", ") + ")" else "")
              + " " + (if s.trigger.aggregation == "rate" then "rate()" else "count()") + " as matches" ==
            head + StatsText(s)
  {
    hide Join;
    var list := Join(s.grouping.fields, ", ");
    ByPieces(list);
    FunctionPieces();
    if s.trigger.aggregation == "rate" {
      StatsShape(head, if |s.grouping.fields| > 0 then " by (" + list + ")" else "", "rate");
    } else {
      StatsShape(head, if |s.grouping.fields| > 0 then " by (" + list + ")" else "", "count");
    }
  }

  lemma ByPieces(list: string)
    ensures " by (" + list + ")" == " by " + ("(" + list + ")")
  {
    assert " by (" == " by " + "(";
  }

  lemma FunctionPieces()
    ensures "rate" + "()" == "rate()" && "count" + "()" == "count()"
    ensures " " + "rate" == " rate" && " " + "count" == " count"
  {}

  lemma StatsShape(head: string, grouping: string, name: string)
    ensures head + " | stats" + grouping + " " + (name + "()") + " as matches" ==
            head + (" | stats" + grouping + (" " + name + "()" + " as matches"))
  {}

  lemma ThresholdPieces(head: string, lib: Library, s: RuleSpec)
    ensures head + " | filter matches:" + (if s.trigger.operator == "gt" then ">" else ">=") + lib.formatFloat(s.trigger.threshold)
              + " | fields " + Join(s.grouping.fields + ["matches"], ", ") ==
            head + (" | " + FilterStage(lib, s) + (" | " + FieldsStage(s)))
  {
    hide Join;
    ThresholdShape(head, Comparison(s.trigger.operator), lib.formatFloat(s.trigger.threshold), Join(s.grouping.fields + ["matches"], ", "));
  }

  lemma ThresholdShape(head: string, op: string, number: string, list: string)
    ensures head + " | filter matches:" + op + number + " | fields " + list ==
            head + (" | " + ("filter matches:" + op + number) + (" | " + ("fields " + list)))
  {
    assert " | filter matches:" == " | " + "filter matches:";
    assert " | fields " == " | " + "fields ";
  }

  lemma ValidSignal(lib: Library, s: RuleSpec)
    requires Valid(lib, s)
    ensures s.signalType == "logs" || s.signalType == "metrics"
  {}

  lemma ExpressionTrimmed(spec: RuleSpec, n: RuleSpec)
    requires Normalizes(spec, n)
    ensures TrimSpace(n.query.expression) == n.query.expression
  {
    hide TrimSpace;
    TrimTwice(spec.query.expression);
  }

  /** The query the rule is tried out with, the recorded series, and the alert. */
  method CompileTestQuery(lib: Library, spec: RuleSpec) returns (query: Option<string>)
    ensures Compiles(lib, spec, false, false, query)
  {
    query := CompileQuery(lib, spec, false, false);
  }

  method CompileAlertQuery(lib: Library, spec: RuleSpec) returns (query: Option<string>)
    ensures Compiles(lib, spec, true, true, query)
    ensures query.Some? && ToLower(TrimSpace(spec.signalType)) in {"", "logs"} ==>
              exists filter, list :: LogAlert(query.value, lib, spec, filter, list)
    ensures query.Some? && ToLower(TrimSpace(spec.signalType)) == "metrics" ==> exists expression :: MetricAlert(query.value, lib, spec, expression)
  {
    hide Compiles, TrimSpace, ToLower, LogAlert, MetricAlert;
    query := CompileQuery(lib, spec, true, true);
    if query.Some? {
      AlertsByThreshold(lib, spec, query.value);
    }
  }

  /** The query asks for the window of the request and compares with the threshold of the request, by the request's operator. */
  ghost predicate LogAlert(text: string, lib: Library, spec: RuleSpec, filter: string, list: string) {
    text == "_time:" + spec.trigger.window + " AND " + filter + " | filter matches:" + (if spec.trigger.operator == "gt" then ">" else ">=")
            + lib.formatFloat(spec.trigger.threshold) + " | fields " + list
  }

  ghost predicate MetricAlert(text: string, lib: Library, spec: RuleSpec, expression: string) {
    text == "(" + expression + ") " + (if spec.trigger.operator == "gt" then ">" else ">=") + " " + lib.formatFloat(spec.trigger.threshold)
  }

  lemma AlertsByThreshold(lib: Library, spec: RuleSpec, text: string)
    requires Compiles(lib, spec, true, true, Some(text))
    ensures ToLower(TrimSpace(spec.signalType)) in {"", "logs"} ==> exists filter, list :: LogAlert(text, lib, spec, filter, list)
    ensures ToLower(TrimSpace(spec.signalType)) == "metrics" ==> exists expression :: MetricAlert(text, lib, spec, expression)
  {
    hide TrimSpace, ToLower, Valid, Ascending, Normalizes, FieldNames, LogText, MetricText, LogAlert, MetricAlert;
    var n, keys :| Normalizes(spec, n) && Compiled(lib, n, keys, true, true, Some(text));
    NormalizedFields(spec, n);
    NormalizedTrigger(spec, n);
    if n.signalType == "logs" {
      LogAlertBy(lib, spec, n);
    } else if n.signalType == "metrics" {
      AscendingKeys(keys, QueryLabels(n).Keys);
      MetricAlertBy(lib, spec, n, keys);
    }
  }

  predicate SameTrigger(spec: RuleSpec, n: RuleSpec) {
    n.trigger.threshold == spec.trigger.threshold && n.trigger.window == spec.trigger.window
    && (n.trigger.operator == "gt" <==> spec.trigger.operator == "gt")
  }

  lemma LogAlertBy(lib: Library, spec: RuleSpec, n: RuleSpec)
    requires SameTrigger(spec, n)
    ensures exists filter, list :: LogAlert(LogText(lib, n, true, true), lib, spec, filter, list)
  {
    hide Join, ScopeText, FilterText, StatsText;
    var scope, list := ScopeText(n) + " AND " + ("(" + FilterText(n.query) + ")"), Join(n.grouping.fields + ["matches"], ", ");
    LogAlertText(spec.trigger.window, scope, StatsText(n), Comparison(n.trigger.operator), lib.formatFloat(n.trigger.threshold), list);
    assert LogAlert(LogText(lib, n, true, true), lib, spec, scope + StatsText(n), list);
  }

  lemma MetricAlertBy(lib: Library, spec: RuleSpec, n: RuleSpec, keys: seq<string>)
    requires SameTrigger(spec, n) && forall k :: k in keys ==> k in QueryLabels(n)
    ensures exists expression :: MetricAlert(MetricText(lib, n, keys, true), lib, spec, expression)
  {
    hide Join, Matchers;
    var expression := MetricText(lib, n, keys, false);
    ComparisonPieces(expression, Comparison(n.trigger.operator), lib.formatFloat(n.trigger.threshold));
    assert MetricAlert(MetricText(lib, n, keys, true), lib, spec, expression);
  }

  lemma LogAlertText(window: string, scope: string, stats: string, op: string, number: string, list: string)
    ensures "_time:" + window + " AND " + scope + stats + (" | " + ("filter matches:" + op + number) + (" | " + ("fields " + list)))
            == "_time:" + window + " AND " + (scope + stats) + " | filter matches:" + op + number + " | fields " + list
  {
    assert " | filter matches:" == " | " + "filter matches:";
    assert " | fields " == " | " + "fields ";
  }

  method CompileRecordingQuery(lib: Library, spec: RuleSpec) returns (query: Option<string>)
    ensures var rate := spec.derivedMetric.Some? && spec.derivedMetric.value.signal == "match_rate";
            Compiles(lib, spec.(trigger := spec.trigger.(aggregation := if rate then "rate" else "count")), true, false, query)
  {
    var aggregation := "count";
    if spec.derivedMetric.Some? && spec.derivedMetric.value.signal == "match_rate" {
      aggregation := "rate";
    }
    query := CompileQuery(lib, spec.(trigger := spec.trigger.(aggregation := aggregation)), true, false);
  }

  /** Every query that compiles, for whatever specification, is accepted by the scanner of its language, and a log query has two
      stages without and four with a threshold, provided the base filter it carries has passed its check. */
  lemma CompiledQueriesAreComplete(lib: Library, spec: RuleSpec, timeWindow: bool, threshold: bool, text: string)
    requires LibraryOk(lib) && Compiles(lib, spec, timeWindow, threshold, Some(text))
    requires TrimSpace(spec.scope.baseFilter) == "" || ValidateLogTargetBaseFilter(spec.scope.baseFilter)
    ensures var signal := OrElse(ToLower(TrimSpace(spec.signalType)), "logs");
            && signal in {"logs", "metrics"}
            && (signal == "metrics" ==> Accepts(MetricsQL, text))
            && (signal == "logs" ==> Accepts(LogsQL, text) && Parse(LogsQL, text).Some?
                                     && Stages(Parse(LogsQL, text).value) == if threshold then 4 else 2)
  {
    hide TrimSpace, ToLower, Valid, LogText, MetricText, Ascending, FieldNames, LibraryOk, ValidBaseFilter, Stages, Accepts, Parse;
    var n, keys :| Normalizes(spec, n) && Compiled(lib, n, keys, timeWindow, threshold, Some(text));
    ValidSignal(lib, n);
    if n.signalType == "metrics" {
      AscendingKeys(keys, QueryLabels(n).Keys);
      MetricTextStructure(lib, n, keys, threshold);
    } else {
      LogTextStructure(lib, n, timeWindow, threshold);
    }
  }
}
