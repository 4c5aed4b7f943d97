/** What the checks on a rule and the compiled queries come to, written out in the rule's own fields. */
module RuleTexts {
  import opened Text
  import opened QueryScanner
  import opened RuleSpecs
  import opened QueryCompiler

  // ---------- Which rules are valid ----------

  /** The window lasts a second to an hour, the rule is evaluated every second at most and once per window at least, and delays last
      no more than an hour. */
  lemma TriggerValidIff(lib: Library, t: Trigger)
    ensures ValidTrigger(lib, t) <==>
              && t.mode == "window" && (t.aggregation == "count" || t.aggregation == "rate") && (t.operator == "gt" || t.operator == "gte")
              && t.threshold > 0.0
              && lib.parseDuration(t.window).Some? && 1_000_000_000 <= lib.parseDuration(t.window).value <= 3_600_000_000_000
              && lib.parseDuration(t.interval).Some?
              && 1_000_000_000 <= lib.parseDuration(t.interval).value <= lib.parseDuration(t.window).value
              && lib.parseDuration(t.delay).Some? && 0 <= lib.parseDuration(t.delay).value <= 3_600_000_000_000
              && lib.parseDuration(t.pendingFor).Some? && 0 <= lib.parseDuration(t.pendingFor).value <= 3_600_000_000_000
              && lib.parseDuration(t.keepFiringFor).Some? && 0 <= lib.parseDuration(t.keepFiringFor).value <= 3_600_000_000_000
  {}

  /** What rules of either signal must satisfy apart from scope and query. */
  lemma CommonValidIff(lib: Library, s: RuleSpec)
    ensures Valid(lib, s) <==>
              && s.name != "" && ByteLength(s.name) <= 120 && (s.signalType == "logs" || s.signalType == "metrics")
              && ValidScope(s) && ValidQuery(s) && ValidTrigger(lib, s.trigger)
              && (|s.grouping.fields| <= 3 && "" !in s.grouping.fields
                  && forall i, j :: 0 <= i < j < |s.grouping.fields| ==> s.grouping.fields[i] != s.grouping.fields[j])
              && 1 <= s.grouping.maxInstances <= 100
              && s.notification.policyID != "" && s.notification.ownerTeam != ""
              && s.notification.severity in {"info", "warning", "critical"}
              && (s.notification.runbookURL == "" || lib.isHTTPURL(s.notification.runbookURL))
              && (s.derivedMetric.Some? && s.derivedMetric.value.enabled ==>
                    && s.signalType == "logs" && (s.derivedMetric.value.signal == "match_count" || s.derivedMetric.value.signal == "match_rate")
                    && |s.grouping.fields| == 0 && |s.derivedMetric.value.labels| <= 4
                    && forall k :: k in s.derivedMetric.value.labels ==>
                         k in {"environment", "region", "team", "component"}
                         && TrimSpace(s.derivedMetric.value.labels[k]) != "" && ByteLength(s.derivedMetric.value.labels[k]) <= 64)
  {
    hide ValidScope, ValidQuery, ValidTrigger, ByteLength, TrimSpace;
    assert "" in s.grouping.fields <==> exists i :: 0 <= i < |s.grouping.fields| && s.grouping.fields[i] == "";
  }

  /** A log rule names its service and an endpoint, account and project, and exactly one of a route and a target. */
  lemma LogScopeValidIff(s: RuleSpec)
    requires s.signalType == "logs"
    ensures ValidScope(s) <==>
              && s.scope.serviceID != "" && s.scope.serviceName != "" && s.scope.endpointID != ""
              && s.scope.accountID != "" && s.scope.projectID != ""
              && (s.scope.logRouteID == "" <==> s.scope.logTargetID != "")
  {}

  /** A metric rule names its environment and an endpoint, nothing of logs, and restricts itself by a few labels only. */
  lemma MetricScopeValidIff(s: RuleSpec)
    requires s.signalType == "metrics"
    ensures ValidScope(s) <==>
              && s.scope.environmentID != "" && s.scope.environmentName != "" && s.scope.endpointID != ""
              && s.scope.serviceID == "" && s.scope.serviceName == "" && s.scope.logRouteID == ""
              && s.scope.logTargetID == "" && s.scope.baseFilter == ""
              && forall k :: k in s.scope.labels ==>
                   (k == "cluster" || k == "namespace" || k == "region" || k == "team" || k == "component")
                   && s.scope.labels[k] != "" && ByteLength(s.scope.labels[k]) <= 64
  {
    hide ByteLength;
  }

  lemma ContainsChar(s: string, c: char)
    ensures Contains(s, [c]) <==> c in s
  {
    if c in s {
      var i :| 0 <= i < |s| && s[i] == c;
      assert [c] <= s[i..];
    }
    if i :| 0 <= i <= |s| && [c] <= s[i..] {
      assert s[i] == c;
    }
  }

  /** The text of a log query: no more than 16 KiB; as LogsQL it has no pipe, says nothing of time and is complete. */
  lemma LogQueryValidIff(s: RuleSpec)
    requires s.signalType == "logs"
    ensures ValidQuery(s) <==>
              && 0 < |s.query.expression| && ByteLength(s.query.expression) <= 16384
              && (s.query.mode == "contains" || s.query.mode == "exact"
                  || (s.query.mode == "logsql" && '|' !in s.query.expression && Accepts(LogsQL, s.query.expression)
                      && forall i :: 0 <= i <= |s.query.expression| ==> !("_time" <= ToLower(s.query.expression)[i..])))
  {
    hide ByteLength, Accepts, ToLower;
    ContainsChar(s.query.expression, '|');
    assert "|" == ['|'];
  }

  lemma MetricQueryValidIff(s: RuleSpec)
    requires s.signalType == "metrics"
    ensures ValidQuery(s) <==>
              && 0 < |s.query.expression| && ByteLength(s.query.expression) <= 16384
              && (s.query.mode == "promql" || s.query.mode == "metricsql")
              && '$' !in s.query.expression && Accepts(MetricsQL, s.query.expression)
  {
    hide ByteLength, Accepts;
    ContainsChar(s.query.expression, '$');
    assert "$" == ['$'];
  }

  /** The base filter of a log target: no more than 8 KiB without the space around it, with no pipe, nothing of time, and complete. */
  lemma BaseFilterValidIff(filter: string)
    ensures var trimmed := TrimSpace(filter);
            ValidateLogTargetBaseFilter(filter) <==>
              && 0 < |trimmed| && ByteLength(trimmed) <= 8192 && '|' !in trimmed && Accepts(LogsQL, trimmed)
              && forall i :: 0 <= i <= |trimmed| ==> !("_time" <= ToLower(trimmed)[i..])
  {
    hide ByteLength, Accepts, ToLower, TrimSpace;
    ContainsChar(TrimSpace(filter), '|');
    assert "|" == ['|'];
  }

  /** What a log query may group by: names of letters, underscores, digits, dots and dashes that start with one of the first two. */
  lemma GroupedByIff(fields: seq<string>)
    ensures FieldNames(fields) <==>
              forall field :: field in fields ==>
                && field != "" && ('A' <= field[0] <= 'Z' || 'a' <= field[0] <= 'z' || field[0] == '_')
                && forall c :: c in field[1..] ==>
                     'A' <= c <= 'Z' || 'a' <= c <= 'z' || c == '_' || '0' <= c <= '9' || c == '.' || c == '-'
  {
    forall field: string ensures FieldName(field) <==> Nameable(field) {
      if field != "" && Nameable(field) {
        forall i | 0 < i < |field|
          ensures 'A' <= field[i] <= 'Z' || 'a' <= field[i] <= 'z' || field[i] == '_' || '0' <= field[i] <= '9' || field[i] == '.' || field[i] == '-'
        {
          assert field[1..][i - 1] == field[i] && field[i] in field[1..];
        }
      }
      if FieldName(field) {
        forall c | c in field[1..]
          ensures 'A' <= c <= 'Z' || 'a' <= c <= 'z' || c == '_' || '0' <= c <= '9' || c == '.' || c == '-'
        {
          var i :| 0 <= i < |field| - 1 && field[1..][i] == c;
          assert field[i + 1] == c;
        }
      }
    }
    if FieldNames(fields) {
      forall field | field in fields ensures Nameable(field) {
        var i :| 0 <= i < |fields| && fields[i] == field;
        assert FieldName(fields[i]);
      }
    }
  }

  predicate Nameable(field: string) {
    && field != "" && ('A' <= field[0] <= 'Z' || 'a' <= field[0] <= 'z' || field[0] == '_')
    && forall c :: c in field[1..] ==> 'A' <= c <= 'Z' || 'a' <= c <= 'z' || c == '_' || '0' <= c <= '9' || c == '.' || c == '-'
  }

  // ---------- What they compile to ----------

  /** The query a log rule compiles to, in the fields of the request; the fields it groups by are those of its normal form `n`. */
  lemma LogQueryText(lib: Library, spec: RuleSpec, n: RuleSpec, keys: seq<string>, timeWindow: bool, threshold: bool, text: string)
    requires Normalizes(spec, n) && Compiled(lib, n, keys, timeWindow, threshold, Some(text))
    requires ToLower(TrimSpace(spec.signalType)) in {"", "logs"}
    ensures var baseFilter, mode := TrimSpace(spec.scope.baseFilter), ToLower(TrimSpace(spec.query.mode));
            var expression := TrimSpace(spec.query.expression);
            var scope := if baseFilter == "" then Quote("service.name") + ":=" + Quote(TrimSpace(spec.scope.serviceName)) else "(" + baseFilter + ")";
            var filter := if mode == "contains" then Quote(expression)
                          else if mode == "exact" then Quote("_msg") + ":=" + Quote(expression) else expression;
            var grouping := if n.grouping.fields == [] then "" else " by " + ("(" + Join(n.grouping.fields, ", ") + ")");
            var counted := if spec.trigger.aggregation == "rate" then " rate" else " count";
            text == (if timeWindow then "_time:" + spec.trigger.window + " AND " else "")
                    + (scope + " AND " + ("(" + filter + ")"))
                    + (" | stats" + grouping + (counted + "()" + " as matches"))
                    + (if threshold then
                         " | " + ("filter matches:" + (if spec.trigger.operator == "gt" then ">" else ">=") + lib.formatFloat(spec.trigger.threshold))
                         + (" | " + ("fields " + Join(n.grouping.fields + ["matches"], ", ")))
                       else "")
  {
    hide TrimSpace, ToLower, Valid, Ascending, Normalizes, MetricText, Join, Quote, FieldNames;
    NormalizedFields(spec, n);
    NormalizedScope(spec, n);
    NormalizedTrigger(spec, n);
  }

  /** The labels a metric query is restricted to, in the order of their keys: its environment, unless a label of its own takes that
      place, and the labels of its normal form `n`. */
  lemma MetricQueryLabels(spec: RuleSpec, n: RuleSpec, keys: seq<string>)
    requires n.scope.environmentID == TrimSpace(spec.scope.environmentID) && Ascending(keys, QueryLabels(n).Keys)
    ensures forall k :: k in keys <==> k == "novaapm_environment_id" || k in n.scope.labels
    ensures forall i, j :: 0 <= i < j < |keys| ==> AtMost(keys[i], keys[j]) && keys[i] != keys[j]
    ensures forall i :: 0 <= i < |keys| ==>
              Matchers(QueryLabels(n), keys)[i]
              == keys[i] + "=" + Quote(if keys[i] in n.scope.labels then n.scope.labels[keys[i]] else TrimSpace(spec.scope.environmentID))
  {
    hide TrimSpace, Quote, AtMost;
  }

  /** The query a metric rule compiles to, in the fields of the request. */
  lemma MetricQueryText(lib: Library, spec: RuleSpec, n: RuleSpec, keys: seq<string>, timeWindow: bool, threshold: bool, text: string)
    requires Normalizes(spec, n) && Compiled(lib, n, keys, timeWindow, threshold, Some(text))
    requires ToLower(TrimSpace(spec.signalType)) == "metrics"
    ensures var matchers := Join(Matchers(QueryLabels(n), keys), ",");
            var restricted := "(" + TrimSpace(spec.query.expression) + ")" + " and on" + ("(" + Join(keys, ",") + ")") + " "
                              + ("(" + ("{" + matchers + "}") + ")");
            text == if threshold then
                      "(" + restricted + ")" + (" " + (if spec.trigger.operator == "gt" then ">" else ">=") + " "
                                                + lib.formatFloat(spec.trigger.threshold))
                    else restricted
  {
    hide TrimSpace, ToLower, Valid, LogText, Join, Quote, FieldNames, AtMost, Sorted, Normalizes, QueryLabels, Matchers;
    NormalizedFields(spec, n);
    NormalizedTrigger(spec, n);
  }
}
