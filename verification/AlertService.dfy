/** The service operations on rules, each a read, some checks, and a save: run by themselves they
    perform exactly the steps that `RuleProtocol` interleaves. */
module AlertService {
  import opened Text
  import opened RuleSpecs
  import opened AlertStore
  import opened RuleProtocol
  import QueryCompiler

  /** What the scope resolver answers, if there is one. */
  datatype ScopeAnswer = NoResolver | Resolved(scope: Scope) | Unresolvable

  /** What the collaborators of the service answer: the scope resolver, the authorizer for the scope a rule or record has and
      for the one it is to have, the notification policy and the test receipt. */
  datatype Answers = Answers(scope: ScopeAnswer, allowedOld: bool, allowedNew: bool, policy: bool, receipt: bool)

  datatype Result = Done(change: ChangeSet) | Refused | Missing | Conflicting

  function ResultOf(outcome: Outcome, change: ChangeSet): Result {
    match outcome
    case Saved => Done(change)
    case Conflict => Conflicting
    case NotFound => Missing
  }

  /** `resolved` is what a request's specification may resolve to. */
  ghost predicate Resolves(spec: RuleSpec, answer: ScopeAnswer, resolved: RuleSpec) {
    match answer
    case NoResolver => Normalizes(spec, resolved)
    case Resolved(scope) => exists n :: Normalizes(spec, n) && Normalizes(n.(scope := scope), resolved)
    case Unresolvable => false
  }

  /** Every rule is stored under its id and has a current update, as in every reachable state. */
  predicate InOrder(ars: map<Id, Rule>) {
    forall id :: id in ars ==> ars[id].id == id && ars[id].currentUpdateID != ""
  }

  lemma ReachableInOrder(ops: seq<Op>)
    ensures InOrder(Run(INIT, ops).db.rules)
  {
    hide Run, IsChain, AppliedOk, IsNormal, ClientOk, Apart;
    ReachableInv(ops);
    var db := Run(INIT, ops).db;
    forall id | id in db.rules ensures db.rules[id].id == id && db.rules[id].currentUpdateID != "" {
      assert Faithful(db, db.rules[id]);
      assert RecordOk(db, db.updates[db.rules[id].currentUpdateID]);
    }
  }

  /** A change to a rule that was read a moment ago goes through. */
  lemma ImmediateSave(db: Rules, change: ChangeSet)
    requires InOrder(db.rules) && change.rule.id in db.rules
    requires change.expectedCurrentUpdateID == db.rules[change.rule.id].currentUpdateID
    ensures Verdict(db, change) == Saved
  {
    hide NameTaken;
  }

  class Service {
    const repository: AlertingStore

    constructor (repository: AlertingStore)
      ensures this.repository == repository
    {
      this.repository := repository;
    }

    /** The specification a request resolves to is normal. */
    method ResolveSpec(spec: RuleSpec, answer: ScopeAnswer) returns (resolved: Option<RuleSpec>)
      ensures resolved.None? <==> answer.Unresolvable?
      ensures resolved.Some? ==> Resolves(spec, answer, resolved.value) && IsNormal(resolved.value)
      ensures resolved.Some? ==>
                && resolved.value.name == TrimSpace(spec.name) && resolved.value.query.expression == TrimSpace(spec.query.expression)
                && resolved.value.trigger.threshold == spec.trigger.threshold && resolved.value.trigger.window == spec.trigger.window
      ensures resolved.Some? ==>
                var scope := if answer.Resolved? then answer.scope else spec.scope;
                && resolved.value.scope.serviceID == TrimSpace(scope.serviceID) && resolved.value.scope.endpointID == TrimSpace(scope.endpointID)
                && resolved.value.scope.logRouteID == TrimSpace(scope.logRouteID) && resolved.value.scope.baseFilter == TrimSpace(scope.baseFilter)
    {
      hide IsNormal, Normalizes;
      var normal := NormalizeSpec(spec);
      NormalizedIsNormal(spec, normal);
      NormalizedFields(spec, normal);
      NormalizedScope(spec, normal);
      TrimTwice(spec.name);
      TrimTwice(spec.query.expression);
      match answer
      case NoResolver =>
        resolved := Some(normal);
      case Unresolvable =>
        resolved := None;
      case Resolved(scope) =>
        var scoped := NormalizeSpec(normal.(scope := scope));
        NormalizedIsNormal(normal.(scope := scope), scoped);
        NormalizedFields(normal.(scope := scope), scoped);
        NormalizedScope(normal.(scope := scope), scoped);
        resolved := Some(scoped);
    }

    /** The rule is created exactly when its scope resolves, the resolved specification is valid and allowed, its policy exists
        and its test receipt holds, and the store has no conflict. */
    method Enable(spec: RuleSpec, lib: QueryCompiler.Library, answers: Answers, ruleID: Id, updateID: Id, auditID: Id)
      returns (result: Result, ghost resolved: RuleSpec)
      modifies repository
      ensures !answers.scope.Unresolvable? ==> Resolves(spec, answers.scope, resolved) && IsNormal(resolved)
      ensures result.Refused? <==> answers.scope.Unresolvable? || !QueryCompiler.Valid(lib, resolved)
                                   || !answers.allowedNew || !answers.policy || !answers.receipt
      ensures result.Refused? ==> repository.Contents() == old(repository.Contents())
      ensures !result.Refused? ==>
                var change := CreateChange(resolved, ruleID, updateID, auditID);
                && result == ResultOf(Verdict(old(repository.Contents()), change), change)
                && repository.Contents() == Save(old(repository.Contents()), change)
      ensures result.Done? ==>
                && repository.ars == old(repository.ars)[ruleID := Rule(ruleID, resolved, Enabled, Pending, updateID, "")]
                && repository.arus == old(repository.arus)[updateID := UpdateRecord(updateID, ruleID, "", "", Create, Enabled, resolved, auditID)]
                && repository.aes == old(repository.aes)[auditID := AuditEvent(auditID, ruleID, Create)]
      ensures result.Done? ==> ruleID !in old(repository.ars)
    {
      hide IsNormal, Verdict, Save, Resolves, QueryCompiler.Valid;
      resolved := spec;
      var answer := ResolveSpec(spec, answers.scope);
      if answer.None? {
        return Refused, resolved;
      }
      resolved := answer.value;
      if !QueryCompiler.Valid(lib, answer.value) || !answers.allowedNew || !answers.policy || !answers.receipt {
        return Refused, resolved;
      }
      var change := CreateChange(answer.value, ruleID, updateID, auditID);
      var outcome := repository.SaveChange(change);
      result := ResultOf(outcome, change);
    }

    method SaveExistingChange(current: Rule, spec: RuleSpec, state: RuleState, action: Action, sourceUpdateID: Id,
                              updateID: Id, auditID: Id) returns (result: Result)
      modifies repository
      ensures var change := ExistingChange(current, spec, state, action, sourceUpdateID, updateID, auditID);
              && result == ResultOf(Verdict(old(repository.Contents()), change), change)
              && repository.Contents() == Save(old(repository.Contents()), change)
      ensures result.Done? ==>
                && repository.ars == old(repository.ars)[current.id := Rule(current.id, spec, state, Pending, updateID, current.appliedUpdateID)]
                && repository.arus == old(repository.arus)[updateID :=
                     UpdateRecord(updateID, current.id, current.currentUpdateID, sourceUpdateID, action, state, spec, auditID)]
                && repository.aes == old(repository.aes)[auditID := AuditEvent(auditID, current.id, action)]
    {
      hide Verdict, Save;
      var updated := current;
      updated := updated.(spec := spec);
      updated := updated.(state := state);
      updated := updated.(applyStatus := Pending);
      updated := updated.(currentUpdateID := updateID);
      var change := ChangeSet(
        updated,
        UpdateRecord(updateID, current.id, current.currentUpdateID, sourceUpdateID, action, state, spec, auditID),
        AuditEvent(auditID, current.id, action),
        current.currentUpdateID);
      var outcome := repository.SaveChange(change);
      result := ResultOf(outcome, change);
    }

    /** With no other client between its read and its save, an update that passes its checks never conflicts. */
    method Update(ruleID: Id, spec: RuleSpec, lib: QueryCompiler.Library, answers: Answers, updateID: Id, auditID: Id)
      returns (result: Result, ghost resolved: RuleSpec)
      requires InOrder(repository.ars)
      modifies repository
      ensures result.Missing? <==> ruleID !in old(repository.ars)
      ensures !result.Missing? && !answers.scope.Unresolvable? ==> Resolves(spec, answers.scope, resolved) && IsNormal(resolved)
      ensures result.Refused? <==> !result.Missing? && (answers.scope.Unresolvable? || !QueryCompiler.Valid(lib, resolved)
                                   || !answers.allowedOld || !answers.allowedNew || !answers.policy || !answers.receipt)
      ensures result.Missing? || result.Refused? ==> repository.Contents() == old(repository.Contents())
      ensures !result.Missing? && !result.Refused? ==>
                var change := ExistingChange(old(repository.ars)[ruleID], resolved, Enabled, AlertStore.Update, "", updateID, auditID);
                result == Done(change) && repository.Contents() == Save(old(repository.Contents()), change)
      ensures result.Done? ==>
                var was := old(repository.ars)[ruleID];
                && repository.ars == old(repository.ars)[ruleID := Rule(ruleID, resolved, Enabled, Pending, updateID, was.appliedUpdateID)]
                && repository.arus == old(repository.arus)[updateID :=
                     UpdateRecord(updateID, ruleID, was.currentUpdateID, "", AlertStore.Update, Enabled, resolved, auditID)]
                && repository.aes == old(repository.aes)[auditID := AuditEvent(auditID, ruleID, AlertStore.Update)]
    {
      hide IsNormal, Save, Verdict, Resolves, QueryCompiler.Valid;
      resolved := spec;
      var current := repository.FindRuleByID(ruleID);
      if current.None? {
        return Missing, resolved;
      }
      var answer := ResolveSpec(spec, answers.scope);
      if answer.None? {
        return Refused, resolved;
      }
      resolved := answer.value;
      if !QueryCompiler.Valid(lib, answer.value) || !answers.allowedOld || !answers.allowedNew || !answers.policy || !answers.receipt {
        return Refused, resolved;
      }
      ImmediateSave(repository.Contents(), ExistingChange(current.value, resolved, Enabled, AlertStore.Update, "", updateID, auditID));
      result := SaveExistingChange(current.value, answer.value, Enabled, AlertStore.Update, "", updateID, auditID);
    }

    /** A rule is disabled exactly when it is there, the caller may manage it, its signal is the expected one, if any is, and
        it is not disabled already. */
    method Disable(ruleID: Id, expectedSignal: string, allowed: bool, updateID: Id, auditID: Id) returns (result: Result)
      requires InOrder(repository.ars)
      modifies repository
      ensures result.Missing? <==> ruleID !in old(repository.ars)
      ensures result.Done? <==> ruleID in old(repository.ars) && allowed && old(repository.ars)[ruleID].state != Disabled
                                && SignalExpected(expectedSignal, SignalOf(old(repository.ars)[ruleID].spec.signalType))
      ensures result.Done? <==> ruleID in old(repository.ars) && allowed && old(repository.ars)[ruleID].state != Disabled
                                && var expected := ToLower(TrimSpace(expectedSignal));
                                   var signal := ToLower(TrimSpace(old(repository.ars)[ruleID].spec.signalType));
                                   expected == "" || (expected == "metrics" && signal == "metrics")
                                   || (expected == "logs" && (signal == "logs" || signal == ""))
      ensures !result.Done? ==> repository.Contents() == old(repository.Contents())
      ensures result.Done? ==>
                var current := old(repository.ars)[ruleID];
                var change := ExistingChange(current, current.spec, Disabled, AlertStore.Disable, "", updateID, auditID);
                result == Done(change) && repository.Contents() == Save(old(repository.Contents()), change)
      ensures result.Done? ==>
                var was := old(repository.ars)[ruleID];
                && repository.ars == old(repository.ars)[ruleID := Rule(ruleID, was.spec, Disabled, Pending, updateID, was.appliedUpdateID)]
                && repository.arus == old(repository.arus)[updateID :=
                     UpdateRecord(updateID, ruleID, was.currentUpdateID, "", AlertStore.Disable, Disabled, was.spec, auditID)]
                && repository.aes == old(repository.aes)[auditID := AuditEvent(auditID, ruleID, AlertStore.Disable)]
    {
      hide IsNormal, Verdict, Save, ToLower, TrimSpace;
      var current := repository.FindRuleByID(ruleID);
      if current.None? {
        return Missing;
      }
      if !allowed {
        return Refused;
      }
      var expected := ToLower(TrimSpace(expectedSignal));
      if expected != "" && expected != "logs" && expected != "metrics" {
        return Refused;
      }
      var normal := NormalizeSpec(current.value.spec);
      if expected != "" && normal.signalType != expected {
        return Conflicting;
      }
      if current.value.state == Disabled {
        return Conflicting;
      }
      ImmediateSave(repository.Contents(), ExistingChange(current.value, current.value.spec, Disabled, AlertStore.Disable, "", updateID, auditID));
      result := SaveExistingChange(current.value, current.value.spec, Disabled, AlertStore.Disable, "", updateID, auditID);
    }

    /** A rule goes back to a record exactly when both are there, the record is of that rule, the caller may manage both
        scopes and the record's policy still exists. */
    method Rollback(ruleID: Id, sourceID: Id, answers: Answers, updateID: Id, auditID: Id) returns (result: Result, ghost normal: RuleSpec)
      requires InOrder(repository.ars)
      modifies repository
      ensures result.Done? <==> ruleID in old(repository.ars) && sourceID in old(repository.arus) && old(repository.arus)[sourceID].ruleID == ruleID
                                && answers.allowedOld && answers.allowedNew && answers.policy
      ensures !result.Done? ==> repository.Contents() == old(repository.Contents())
      ensures result.Done? ==>
                var change := RollbackChange(old(repository.ars)[ruleID], old(repository.arus)[sourceID], normal, updateID, auditID);
                && Normalizes(old(repository.arus)[sourceID].spec, normal)
                && result == Done(change) && repository.Contents() == Save(old(repository.Contents()), change)
      ensures result.Done? ==>
                var was, source := old(repository.ars)[ruleID], old(repository.arus)[sourceID];
                var state := if source.resultingState == Disabled then Disabled else Enabled;
                && repository.ars == old(repository.ars)[ruleID := Rule(ruleID, normal, state, Pending, updateID, was.appliedUpdateID)]
                && repository.arus == old(repository.arus)[updateID :=
                     UpdateRecord(updateID, ruleID, was.currentUpdateID, source.id, AlertStore.Rollback, state, normal, auditID)]
                && repository.aes == old(repository.aes)[auditID := AuditEvent(auditID, ruleID, AlertStore.Rollback)]
    {
      hide IsNormal, Normalizes, Verdict, Save;
      normal := *;
      var current := repository.FindRuleByID(ruleID);
      if current.None? {
        return Missing, normal;
      }
      if !answers.allowedOld {
        return Refused, normal;
      }
      var source := repository.FindUpdate(ruleID, sourceID);
      if source.None? {
        return Missing, normal;
      }
      if !answers.allowedNew {
        return Refused, normal;
      }
      if !answers.policy {
        return Refused, normal;
      }
      var targetState := source.value.resultingState;
      if targetState == Unset {
        targetState := Enabled;
      }
      var spec := NormalizeSpec(source.value.spec);
      normal := spec;
      ImmediateSave(repository.Contents(), RollbackChange(current.value, source.value, normal, updateID, auditID));
      result := SaveExistingChange(current.value, spec, targetState, AlertStore.Rollback, source.value.id, updateID, auditID);
    }
  }

  // ---------- The operations as runs of the protocol ----------

  lemma ThreeSteps(s: System, a: Op, b: Op, c: Op)
    ensures Run(s, [a, b, c]) == RuleProtocol.Step(RuleProtocol.Step(RuleProtocol.Step(s, a), b), c)
  {
    hide RuleProtocol.Step;
    assert [a, b, c][..2] == [a, b] && [a, b][..1] == [a] && [a][..0] == [];
    assert Run(s, [a]) == RuleProtocol.Step(Run(s, []), a);
    assert Run(s, [a, b]) == RuleProtocol.Step(Run(s, [a]), b);
  }

  /** What `Update`, `Disable` and `Rollback` do to the store is what a client does that reads, prepares and submits with
      nobody in between. */
  lemma OperationsAreRuns(s: System, c: nat, id: Id, normal: RuleSpec, sourceID: Id, expected: string, u: Id, a: Id)
    requires id in s.db.rules && Fresh(s, u, a)
    ensures IsNormal(normal) ==>
              Run(s, [Read(c, id), PrepareUpdate(c, normal, u, a), Submit(c)]).db
              == Save(s.db, ExistingChange(s.db.rules[id], normal, Enabled, AlertStore.Update, "", u, a))
    ensures Normalizes(s.db.rules[id].spec, normal) && SignalExpected(expected, normal.signalType) && s.db.rules[id].state != Disabled ==>
              Run(s, [Read(c, id), PrepareDisable(c, expected, normal, u, a), Submit(c)]).db
              == Save(s.db, ExistingChange(s.db.rules[id], s.db.rules[id].spec, Disabled, AlertStore.Disable, "", u, a))
    ensures sourceID in s.db.updates && s.db.updates[sourceID].ruleID == s.db.rules[id].id && Normalizes(s.db.updates[sourceID].spec, normal) ==>
              Run(s, [Read(c, id), PrepareRollback(c, sourceID, normal, u, a), Submit(c)]).db
              == Save(s.db, RollbackChange(s.db.rules[id], s.db.updates[sourceID], normal, u, a))
  {
    hide IsNormal, Normalizes, SignalExpected, Save, Run;
    ThreeSteps(s, Read(c, id), PrepareUpdate(c, normal, u, a), Submit(c));
    ThreeSteps(s, Read(c, id), PrepareDisable(c, expected, normal, u, a), Submit(c));
    ThreeSteps(s, Read(c, id), PrepareRollback(c, sourceID, normal, u, a), Submit(c));
  }
}
