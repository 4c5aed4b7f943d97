/** Alert rule specifications: normalising and validating them. */
module RuleSpecs {
  import opened Text
  import opened QueryScanner

  datatype Scope = Scope(
    serviceID: string, serviceName: string, environmentID: string, environmentName: string,
    labels: map<string, string>, logRouteID: string, logTargetID: string, endpointID: string,
    accountID: string, projectID: string, baseFilter: string)

  datatype Query = Query(mode: string, expression: string)

  datatype Trigger = Trigger(
    mode: string, aggregation: string, operator: string, threshold: real, window: string,
    interval: string, delay: string, pendingFor: string, keepFiringFor: string)

  datatype Grouping = Grouping(fields: seq<string>, maxInstances: int)

  datatype Notification = Notification(policyID: string, severity: string, ownerTeam: string, runbookURL: string)

  datatype DerivedMetric = DerivedMetric(enabled: bool, signal: string, labels: map<string, string>)

  datatype RuleSpec = RuleSpec(
    signalType: string, name: string, description: string, scope: Scope, query: Query,
    trigger: Trigger, grouping: Grouping, notification: Notification, derivedMetric: Option<DerivedMetric>)

  // ---------- Normalising ----------

  function OrElse(value: string, fallback: string): string { if value == "" then fallback else value }

  function TrimAll(xs: seq<string>): (r: seq<string>)
    ensures |r| == |xs|
  {
    seq(|xs|, i requires 0 <= i < |xs| => TrimSpace(xs[i]))
  }

  /** Everything normalising does except to the scope labels, whose outcome is given. */
  function NormalizeWith(s: RuleSpec, labels: map<string, string>): RuleSpec {
    RuleSpec(
      OrElse(ToLower(TrimSpace(s.signalType)), "logs"),
      TrimSpace(s.name),
      TrimSpace(s.description),
      Scope(TrimSpace(s.scope.serviceID), TrimSpace(s.scope.serviceName), TrimSpace(s.scope.environmentID),
            TrimSpace(s.scope.environmentName), labels, TrimSpace(s.scope.logRouteID), TrimSpace(s.scope.logTargetID),
            TrimSpace(s.scope.endpointID), TrimSpace(s.scope.accountID), TrimSpace(s.scope.projectID),
            TrimSpace(s.scope.baseFilter)),
      Query(ToLower(TrimSpace(s.query.mode)), TrimSpace(s.query.expression)),
      Trigger(OrElse(s.trigger.mode, "window"), OrElse(s.trigger.aggregation, "count"),
              OrElse(s.trigger.operator, "gte"), s.trigger.threshold, s.trigger.window,
              OrElse(s.trigger.interval, "30s"), OrElse(s.trigger.delay, "0s"),
              OrElse(s.trigger.pendingFor, "0s"), OrElse(s.trigger.keepFiringFor, "0s")),
      Grouping(Sort(TrimAll(s.grouping.fields)), if s.grouping.maxInstances == 0 then 100 else s.grouping.maxInstances),
      Notification(TrimSpace(s.notification.policyID), ToLower(TrimSpace(s.notification.severity)),
                   TrimSpace(s.notification.ownerTeam), TrimSpace(s.notification.runbookURL)),
      s.derivedMetric)
  }

  /** The value of `x` may end up under the trimmed key `k`: a key with space around it always wins over `k` itself, which is
      either overwritten later or met after it was overwritten. */
  ghost predicate Wins(m: map<string, string>, x: string, k: string) {
    x in m && TrimSpace(x) == k && (x == k ==> forall y :: y in m && TrimSpace(y) == k ==> y == k)
  }

  /** `r` is a possible outcome of trimming the labels `m` in place, in whatever order the loop meets them: the order decides
      only between two or more keys that have space around them and trim to the same text. */
  ghost predicate LabelsNormalize(m: map<string, string>, r: map<string, string>) {
    && (forall k :: k in m && TrimSpace(k) != "" ==> TrimSpace(k) in r)
    && (forall k :: k in r ==> k != "" && exists x :: Wins(m, x, k) && r[k] == TrimSpace(m[x]))
  }

  /** `n` is a possible result of normalising `s`. */
  ghost predicate Normalizes(s: RuleSpec, n: RuleSpec) {
    LabelsNormalize(s.scope.labels, n.scope.labels) && n == NormalizeWith(s, n.scope.labels)
  }

  ghost predicate LabelsNormal(m: map<string, string>) {
    forall k :: k in m ==> k != "" && Trimmed(k) && Trimmed(m[k])
  }

  /** No key with space around it that trims to `k` has been met yet. */
  ghost predicate NoneMet(m: map<string, string>, todo: set<string>, k: string) {
    forall y :: y in m && y !in todo && TrimSpace(y) == k ==> y == k
  }

  ghost predicate Overwritten(m: map<string, string>, todo: set<string>, k: string, v: string) {
    exists x :: x in m && x !in todo && x != k && TrimSpace(x) == k && v == TrimSpace(m[x])
  }

  /** What the loop may have under `k` while `todo` is still to be met. */
  ghost predicate Held(m: map<string, string>, todo: set<string>, k: string, v: string) {
    || (k in todo && k in m && v == m[k] && NoneMet(m, todo, k))
    || Overwritten(m, todo, k, v)
    || (k in m && k !in todo && TrimSpace(k) == k && v == TrimSpace(m[k]) && NoneMet(m, todo, k))
  }

  method NormalizeLabels(m: map<string, string>) returns (r: map<string, string>)
    ensures LabelsNormalize(m, r)
  {
    hide TrimSpace, Held;
    r := m;
    var todo := m.Keys;
    HeldAtStart(m);
    while todo != {}
      invariant todo <= m.Keys && todo <= r.Keys
      invariant forall k :: k in m && k !in todo && TrimSpace(k) != "" ==> TrimSpace(k) in r
      invariant forall k :: k in r ==> if k == "" then k in todo else Held(m, todo, k, r[k])
    {
      var key :| key in todo;
      var value, trimmed := TrimSpace(r[key]), TrimSpace(key);
      ghost var before, met := r, todo;
      r := r - {key};
      if trimmed != "" {
        r := r[trimmed := value];
      }
      todo := todo - {key};
      if key == "" {
        TrimTrimmed("");
      } else {
        HeldMet(m, met, key, before[key]);
      }
      forall k | k in r && k != "" ensures Held(m, todo, k, r[k]) {
        if k != trimmed {
          HeldOther(m, met, key, k, r[k]);
        }
      }
      forall k | k in m && k !in todo && TrimSpace(k) != "" ensures TrimSpace(k) in r {
        TrimTrimmed(TrimSpace(k));
      }
    }
    forall k | k in r ensures exists x :: Wins(m, x, k) && r[k] == TrimSpace(m[x]) {
      HeldAtEnd(m, k, r[k]);
    }
  }

  lemma HeldAtStart(m: map<string, string>)
    ensures forall k :: k in m ==> Held(m, m.Keys, k, m[k])
  {
    hide TrimSpace;
  }

  lemma HeldMet(m: map<string, string>, todo: set<string>, key: string, v: string)
    requires key in todo && key in m && Held(m, todo, key, v)
    ensures Held(m, todo - {key}, TrimSpace(key), TrimSpace(v))
  {
    hide TrimSpace;
    var rest := todo - {key};
    if Overwritten(m, todo, key, v) {
      var x :| x in m && x !in todo && x != key && TrimSpace(x) == key && v == TrimSpace(m[x]);
      TrimTrimmed(key);
      TrimTrimmed(v);
      assert x !in rest;
    } else if TrimSpace(key) != key {
      assert key !in rest && TrimSpace(v) == TrimSpace(m[key]);
      assert Overwritten(m, rest, TrimSpace(key), TrimSpace(v));
    }
  }

  lemma HeldOther(m: map<string, string>, todo: set<string>, key: string, k: string, v: string)
    requires key in todo && k != key && k != TrimSpace(key) && Held(m, todo, k, v)
    ensures Held(m, todo - {key}, k, v)
  {
    hide TrimSpace;
  }

  lemma HeldAtEnd(m: map<string, string>, k: string, v: string)
    requires Held(m, {}, k, v)
    ensures exists x :: Wins(m, x, k) && v == TrimSpace(m[x])
  {
    hide TrimSpace;
    if Overwritten(m, {}, k, v) {
      var x :| x in m && x != k && TrimSpace(x) == k && v == TrimSpace(m[x]);
      assert Wins(m, x, k);
    } else {
      assert Wins(m, k, k);
    }
  }

  method NormalizeSpec(s: RuleSpec) returns (n: RuleSpec)
    ensures Normalizes(s, n)
  {
    var labels := NormalizeLabels(s.scope.labels);
    n := NormalizeWith(s, labels);
  }

  /** What normalising leaves alone. */
  ghost predicate IsNormal(s: RuleSpec) {
    && LabelsNormal(s.scope.labels)
    && s == NormalizeWith(s, s.scope.labels)
  }

  lemma LabelsBecomeNormal(m: map<string, string>, r: map<string, string>)
    requires LabelsNormalize(m, r)
    ensures LabelsNormal(r)
  {
    forall k | k in r ensures k != "" && Trimmed(k) && Trimmed(r[k]) {
      var x :| Wins(m, x, k) && r[k] == TrimSpace(m[x]);
    }
  }

  lemma LabelsFixed(m: map<string, string>, r: map<string, string>)
    requires LabelsNormal(m)
    ensures LabelsNormalize(m, r) <==> r == m
  {
    hide TrimSpace;
    forall k | k in m ensures TrimSpace(k) == k && TrimSpace(m[k]) == m[k] { TrimTrimmed(k); TrimTrimmed(m[k]); }
    if LabelsNormalize(m, r) {
      forall k | k in r ensures k in m && r[k] == m[k] {
        var x :| Wins(m, x, k) && r[k] == TrimSpace(m[x]);
      }
      assert r.Keys == m.Keys;
    } else if r == m {
      forall k | k in r ensures k != "" && exists x :: Wins(m, x, k) && r[k] == TrimSpace(m[x]) {
        assert Wins(m, k, k);
      }
    }
  }

  lemma TrimTwice(s: string)
    ensures TrimSpace(TrimSpace(s)) == TrimSpace(s)
    ensures ToLower(TrimSpace(ToLower(TrimSpace(s)))) == ToLower(TrimSpace(s))
  {
    hide TrimSpace, ToLower;
    TrimTrimmed(TrimSpace(s));
    LowerTrimmed(TrimSpace(s));
    TrimTrimmed(ToLower(TrimSpace(s)));
  }

  lemma SignalTwice(s: string)
    ensures var t := OrElse(ToLower(TrimSpace(s)), "logs"); OrElse(ToLower(TrimSpace(t)), "logs") == t
  {
    hide TrimSpace, ToLower;
    TrimTwice(s);
    if ToLower(TrimSpace(s)) == "" {
      TrimTrimmed("logs");
      LowerLogs();
    }
  }

  lemma LowerLogs()
    ensures ToLower("logs") == "logs"
  {}

  lemma FieldsTwice(fields: seq<string>)
    ensures Sort(TrimAll(Sort(TrimAll(fields)))) == Sort(TrimAll(fields))
  {
    hide TrimSpace, Sort, Sorted;
    var t := TrimAll(fields);
    SortSorts(t);
    forall i | 0 <= i < |Sort(t)| ensures TrimSpace(Sort(t)[i]) == Sort(t)[i] {
      assert Sort(t)[i] in multiset(Sort(t));
      assert Sort(t)[i] in t;
      var j :| 0 <= j < |t| && t[j] == Sort(t)[i];
      TrimTwice(fields[j]);
    }
    assert TrimAll(Sort(t)) == Sort(t);
    SortFixed(Sort(t));
  }

  /** Every result of normalising is normal. */
  lemma NormalizedIsNormal(s: RuleSpec, n: RuleSpec)
    requires Normalizes(s, n)
    ensures IsNormal(n)
  {
    hide TrimSpace, ToLower, Sort, TrimAll;
    LabelsBecomeNormal(s.scope.labels, n.scope.labels);
    SignalTwice(s.signalType);
    TrimTwice(s.name); TrimTwice(s.description);
    TrimTwice(s.scope.serviceID); TrimTwice(s.scope.serviceName); TrimTwice(s.scope.environmentID);
    TrimTwice(s.scope.environmentName); TrimTwice(s.scope.logRouteID); TrimTwice(s.scope.logTargetID);
    TrimTwice(s.scope.endpointID); TrimTwice(s.scope.accountID); TrimTwice(s.scope.projectID);
    TrimTwice(s.scope.baseFilter); TrimTwice(s.query.mode); TrimTwice(s.query.expression);
    FieldsTwice(s.grouping.fields);
    TrimTwice(s.notification.policyID); TrimTwice(s.notification.severity);
    TrimTwice(s.notification.ownerTeam); TrimTwice(s.notification.runbookURL);
  }

  /** A normal specification normalises to itself and to nothing else. */
  lemma NormalFixed(s: RuleSpec, n: RuleSpec)
    requires IsNormal(s)
    ensures Normalizes(s, n) <==> n == s
  {
    hide NormalizeWith;
    LabelsFixed(s.scope.labels, n.scope.labels);
  }

  /** Keys with space around them that trim to the same text have values that trim to the same text. */
  ghost predicate LabelsAgree(m: map<string, string>) {
    forall x, y :: x in m && y in m && TrimSpace(x) == TrimSpace(y) && TrimSpace(x) != "" && x != TrimSpace(x) && y != TrimSpace(y) ==>
                     TrimSpace(m[x]) == TrimSpace(m[y])
  }

  ghost function Winner(m: map<string, string>, k: string): (x: string)
    requires exists x :: x in m && TrimSpace(x) == k
    ensures Wins(m, x, k)
  {
    if y :| y in m && TrimSpace(y) == k && y != k then y
    else
      var x :| x in m && TrimSpace(x) == k;
      x
  }

  /** One outcome of the loop, in which `x` wins if it can. */
  ghost function Outcome(m: map<string, string>, x: string): map<string, string> {
    map k | k in (set y | y in m && TrimSpace(y) != "" :: TrimSpace(y))
      :: TrimSpace(m[if x in m && TrimSpace(x) == k && x != k then x else Winner(m, k)])
  }

  lemma OutcomeIs(m: map<string, string>, x: string)
    ensures LabelsNormalize(m, Outcome(m, x))
    ensures x in m && TrimSpace(x) != "" && TrimSpace(x) != x ==> TrimSpace(x) in Outcome(m, x) && Outcome(m, x)[TrimSpace(x)] == TrimSpace(m[x])
  {
    hide TrimSpace;
    var r := Outcome(m, x);
    forall k | k in r ensures k != "" && exists y :: Wins(m, y, k) && r[k] == TrimSpace(m[y]) {
      var y := if x in m && TrimSpace(x) == k && x != k then x else Winner(m, k);
      assert Wins(m, y, k);
    }
  }

  lemma AgreeingOutcomes(m: map<string, string>, r: map<string, string>, r': map<string, string>)
    requires LabelsNormalize(m, r) && LabelsNormalize(m, r') && LabelsAgree(m)
    ensures r == r'
  {
    hide TrimSpace;
    forall k | k in r ensures k in r' && r'[k] == r[k] {
      var x :| Wins(m, x, k) && r[k] == TrimSpace(m[x]);
      assert k in r';
      var y :| Wins(m, y, k) && r'[k] == TrimSpace(m[y]);
    }
    forall k | k in r' ensures k in r {
      var x :| Wins(m, x, k) && r'[k] == TrimSpace(m[x]);
    }
  }

  /** The loop over the labels is free to meet them in any order, and the order does not show if and only if keys with space
      around them that trim alike have values that trim alike. */
  lemma NormalizeDeterministic(s: RuleSpec)
    ensures (forall n, n' :: Normalizes(s, n) && Normalizes(s, n') ==> n == n') <==> LabelsAgree(s.scope.labels)
  {
    hide TrimSpace, NormalizeWith, LabelsNormalize;
    var m := s.scope.labels;
    if LabelsAgree(m) {
      forall n, n' | Normalizes(s, n) && Normalizes(s, n') ensures n == n' {
        AgreeingOutcomes(m, n.scope.labels, n'.scope.labels);
      }
    } else {
      var x, y :| x in m && y in m && TrimSpace(x) == TrimSpace(y) && TrimSpace(x) != "" && x != TrimSpace(x) && y != TrimSpace(y)
                  && TrimSpace(m[x]) != TrimSpace(m[y]);
      OutcomeIs(m, x);
      OutcomeIs(m, y);
      WithLabels(s, Outcome(m, x));
      WithLabels(s, Outcome(m, y));
      assert NormalizeWith(s, Outcome(m, x)) != NormalizeWith(s, Outcome(m, y));
    }
  }

  lemma WithLabels(s: RuleSpec, labels: map<string, string>)
    requires LabelsNormalize(s.scope.labels, labels)
    ensures NormalizeWith(s, labels).scope.labels == labels && Normalizes(s, NormalizeWith(s, labels))
  {
    hide TrimSpace, ToLower, Sort, TrimAll, LabelsNormalize;
  }

  // ---------- Field by field ----------

  /** What each field of a normal form is, in terms of the same field of the request. Threshold, window and derived metric are
      taken as they are. */
  lemma NormalizedFields(s: RuleSpec, n: RuleSpec)
    requires Normalizes(s, n)
    ensures n.trigger.threshold == s.trigger.threshold && n.trigger.window == s.trigger.window && n.derivedMetric == s.derivedMetric
    ensures var signal := ToLower(TrimSpace(s.signalType)); n.signalType == if signal == "" then "logs" else signal
    ensures n.name == TrimSpace(s.name) && n.description == TrimSpace(s.description)
    ensures n.query.mode == ToLower(TrimSpace(s.query.mode)) && n.query.expression == TrimSpace(s.query.expression)
    ensures n.notification.severity == ToLower(TrimSpace(s.notification.severity))
    ensures n.notification.policyID == TrimSpace(s.notification.policyID)
    ensures n.notification.ownerTeam == TrimSpace(s.notification.ownerTeam)
    ensures n.notification.runbookURL == TrimSpace(s.notification.runbookURL)
  {
    hide TrimSpace, ToLower, Sort, TrimAll, LabelsNormalize;
  }

  lemma NormalizedScope(s: RuleSpec, n: RuleSpec)
    requires Normalizes(s, n)
    ensures n.scope.serviceID == TrimSpace(s.scope.serviceID) && n.scope.serviceName == TrimSpace(s.scope.serviceName)
    ensures n.scope.environmentID == TrimSpace(s.scope.environmentID) && n.scope.environmentName == TrimSpace(s.scope.environmentName)
    ensures n.scope.logRouteID == TrimSpace(s.scope.logRouteID) && n.scope.logTargetID == TrimSpace(s.scope.logTargetID)
    ensures n.scope.endpointID == TrimSpace(s.scope.endpointID) && n.scope.accountID == TrimSpace(s.scope.accountID)
    ensures n.scope.projectID == TrimSpace(s.scope.projectID) && n.scope.baseFilter == TrimSpace(s.scope.baseFilter)
    ensures forall k :: k in n.scope.labels ==>
              k != "" && exists x :: x in s.scope.labels && TrimSpace(x) == k && n.scope.labels[k] == TrimSpace(s.scope.labels[x])
    ensures forall x :: x in s.scope.labels && TrimSpace(x) != "" ==> TrimSpace(x) in n.scope.labels
  {
    hide TrimSpace, ToLower, Sort, TrimAll;
  }

  /** Of the trigger, what is given stays and what is blank gets its default; no limit on instances means 100 of them. */
  lemma NormalizedTrigger(s: RuleSpec, n: RuleSpec)
    requires Normalizes(s, n)
    ensures if s.trigger.mode == "" then n.trigger.mode == "window" else n.trigger.mode == s.trigger.mode
    ensures if s.trigger.aggregation == "" then n.trigger.aggregation == "count" else n.trigger.aggregation == s.trigger.aggregation
    ensures if s.trigger.operator == "" then n.trigger.operator == "gte" else n.trigger.operator == s.trigger.operator
    ensures if s.trigger.interval == "" then n.trigger.interval == "30s" else n.trigger.interval == s.trigger.interval
    ensures if s.trigger.delay == "" then n.trigger.delay == "0s" else n.trigger.delay == s.trigger.delay
    ensures if s.trigger.pendingFor == "" then n.trigger.pendingFor == "0s" else n.trigger.pendingFor == s.trigger.pendingFor
    ensures if s.trigger.keepFiringFor == "" then n.trigger.keepFiringFor == "0s" else n.trigger.keepFiringFor == s.trigger.keepFiringFor
    ensures if s.grouping.maxInstances == 0 then n.grouping.maxInstances == 100 else n.grouping.maxInstances == s.grouping.maxInstances
  {
    hide TrimSpace, ToLower, Sort, TrimAll, LabelsNormalize;
  }

  /** The fields to group by are the given ones without the space around them, in ascending order, each as often as given. */
  lemma NormalizedGrouping(s: RuleSpec, n: RuleSpec)
    requires Normalizes(s, n)
    ensures forall i, j :: 0 <= i < j < |n.grouping.fields| ==> AtMost(n.grouping.fields[i], n.grouping.fields[j])
    ensures multiset(n.grouping.fields)
            == multiset(seq(|s.grouping.fields|, i requires 0 <= i < |s.grouping.fields| => TrimSpace(s.grouping.fields[i])))
  {
    hide TrimSpace, ToLower, Sort, LabelsNormalize;
    SortSorts(TrimAll(s.grouping.fields));
    assert TrimAll(s.grouping.fields)
           == seq(|s.grouping.fields|, i requires 0 <= i < |s.grouping.fields| => TrimSpace(s.grouping.fields[i]));
  }
}
