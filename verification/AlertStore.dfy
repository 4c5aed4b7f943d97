/** The store the alerting protocols run on: rules, their update records and audit events, saved
    together under a compare-and-set. */
module AlertStore {
  import opened Text
  import opened RuleSpecs

  datatype RuleState = Unset | Enabled | Disabled
  datatype ApplyStatus = Pending | Applied | ApplyFailed
  datatype Action = Create | Update | Disable | Rollback

  /** Ids are texts; the empty one stands for "none". */
  type Id = string

  datatype Rule = Rule(id: Id, spec: RuleSpec, state: RuleState, applyStatus: ApplyStatus,
                       currentUpdateID: Id, appliedUpdateID: Id)

  datatype UpdateRecord = UpdateRecord(id: Id, ruleID: Id, parentUpdateID: Id, sourceUpdateID: Id,
                                       action: Action, resultingState: RuleState, spec: RuleSpec, auditID: Id)

  datatype AuditEvent = AuditEvent(id: Id, ruleID: Id, action: Action)

  datatype ChangeSet = ChangeSet(rule: Rule, update: UpdateRecord, audit: AuditEvent, expectedCurrentUpdateID: Id)

  datatype Outcome = Saved | Conflict | NotFound

  /** The rule part of the store as a value. */
  datatype Rules = Rules(rules: map<Id, Rule>, updates: map<Id, UpdateRecord>, audits: map<Id, AuditEvent>)

  /** The rules name a rule of a service once; this is checked when a rule is created. */
  predicate NameTaken(db: Rules, rule: Rule) {
    exists id :: id in db.rules && db.rules[id].spec.scope.serviceID == rule.spec.scope.serviceID
                 && db.rules[id].spec.name == rule.spec.name
  }

  /** What becomes of a change handed to the store: only a change based on the rule's current update goes through. */
  function Verdict(db: Rules, change: ChangeSet): Outcome {
    var id := change.rule.id;
    if change.expectedCurrentUpdateID == "" then
      if id in db.rules || NameTaken(db, change.rule) then Conflict else Saved
    else if id !in db.rules then NotFound
    else if db.rules[id].currentUpdateID != change.expectedCurrentUpdateID then Conflict
    else Saved
  }

  function Save(db: Rules, change: ChangeSet): Rules {
    if Verdict(db, change) != Saved then db else
      Rules(db.rules[change.rule.id := change.rule],
            db.updates[change.update.id := change.update],
            db.audits[change.audit.id := change.audit])
  }

  function SignalOf(value: string): string { OrElse(ToLower(TrimSpace(value)), "logs") }

  predicate RunsOn(rule: Rule, endpointID: string, signalType: string) {
    rule.spec.scope.endpointID == endpointID && SignalOf(rule.spec.signalType) == ToLower(TrimSpace(signalType))
  }

  function MarkedRule(rule: Rule): Rule {
    rule.(applyStatus := Applied, appliedUpdateID := rule.currentUpdateID)
  }

  function MarkAmong(rules: map<Id, Rule>, ids: set<Id>, endpointID: string, signalType: string): map<Id, Rule> {
    map id | id in rules :: if id in ids && RunsOn(rules[id], endpointID, signalType) then MarkedRule(rules[id]) else rules[id]
  }

  function Matching(rules: map<Id, Rule>, ids: set<Id>, endpointID: string, signalType: string): set<Id> {
    set id | id in ids && id in rules && RunsOn(rules[id], endpointID, signalType)
  }

  /** Publishing a runtime stamps every rule on it as applied, at whatever update is current by then. */
  function Mark(db: Rules, endpointID: string, signalType: string): Rules {
    db.(rules := MarkAmong(db.rules, db.rules.Keys, endpointID, signalType))
  }

  lemma MarkOneMore(rules: map<Id, Rule>, ids: set<Id>, id: Id, endpointID: string, signalType: string)
    requires id in rules && id !in ids
    ensures MarkAmong(rules, ids, endpointID, signalType).Keys == rules.Keys
    ensures MarkAmong(rules, ids, endpointID, signalType)[id] == rules[id]
    ensures RunsOn(rules[id], endpointID, signalType) ==>
              && MarkAmong(rules, ids + {id}, endpointID, signalType) == MarkAmong(rules, ids, endpointID, signalType)[id := MarkedRule(rules[id])]
              && |Matching(rules, ids + {id}, endpointID, signalType)| == |Matching(rules, ids, endpointID, signalType)| + 1
    ensures !RunsOn(rules[id], endpointID, signalType) ==>
              && MarkAmong(rules, ids + {id}, endpointID, signalType) == MarkAmong(rules, ids, endpointID, signalType)
              && |Matching(rules, ids + {id}, endpointID, signalType)| == |Matching(rules, ids, endpointID, signalType)|
  {
    hide RunsOn, MarkedRule;
    var before, after := Matching(rules, ids, endpointID, signalType), Matching(rules, ids + {id}, endpointID, signalType);
    assert id !in before;
    assert after == if RunsOn(rules[id], endpointID, signalType) then before + {id} else before;
  }

  lemma MarkNone(rules: map<Id, Rule>, endpointID: string, signalType: string)
    ensures MarkAmong(rules, {}, endpointID, signalType) == rules && Matching(rules, {}, endpointID, signalType) == {}
  {
    hide RunsOn, MarkedRule;
  }

  /** The rules that are stamped, and what a stamp is. */
  lemma MarkedIs(rules: map<Id, Rule>, endpointID: string, signalType: string)
    ensures var after := MarkAmong(rules, rules.Keys, endpointID, signalType);
            && after.Keys == rules.Keys
            && (forall id :: id in rules ==>
                  var signal := ToLower(TrimSpace(rules[id].spec.signalType));
                  after[id] == if rules[id].spec.scope.endpointID == endpointID
                                  && ToLower(TrimSpace(signalType)) == (if signal == "" then "logs" else signal)
                               then rules[id].(applyStatus := Applied, appliedUpdateID := rules[id].currentUpdateID) else rules[id])
    ensures Matching(rules, rules.Keys, endpointID, signalType) ==
            set id | id in rules && rules[id].spec.scope.endpointID == endpointID
                     && var signal := ToLower(TrimSpace(rules[id].spec.signalType));
                        ToLower(TrimSpace(signalType)) == if signal == "" then "logs" else signal
  {
    hide TrimSpace, ToLower;
  }

  class AlertingStore {
    var ars: map<Id, Rule>
    var arus: map<Id, UpdateRecord>
    var aes: map<Id, AuditEvent>

    constructor ()
      ensures Contents() == Rules(map[], map[], map[])
    {
      ars, arus, aes := map[], map[], map[];
    }

    function Contents(): Rules
      reads this
    {
      Rules(ars, arus, aes)
    }

    method SaveChange(change: ChangeSet) returns (outcome: Outcome)
      modifies this
      ensures outcome == Verdict(old(Contents()), change)
      ensures Contents() == Save(old(Contents()), change)
      ensures change.expectedCurrentUpdateID == "" ==>
                outcome == if change.rule.id in old(ars)
                              || (exists id :: id in old(ars) && old(ars)[id].spec.scope.serviceID == change.rule.spec.scope.serviceID
                                               && old(ars)[id].spec.name == change.rule.spec.name)
                           then Conflict else Saved
      ensures change.expectedCurrentUpdateID != "" ==>
                outcome == if change.rule.id !in old(ars) then NotFound
                           else if old(ars)[change.rule.id].currentUpdateID == change.expectedCurrentUpdateID then Saved else Conflict
      ensures outcome == Saved ==>
                && ars == old(ars)[change.rule.id := change.rule] && arus == old(arus)[change.update.id := change.update]
                && aes == old(aes)[change.audit.id := change.audit]
      ensures outcome != Saved ==> ars == old(ars) && arus == old(arus) && aes == old(aes)
    {
      var ruleID := change.rule.id;
      if change.expectedCurrentUpdateID == "" {
        if ruleID in ars {
          return Conflict;
        }
        var todo := ars.Keys;
        while todo != {}
          invariant todo <= ars.Keys
          invariant forall id :: id in ars && id !in todo ==>
                      !(ars[id].spec.scope.serviceID == change.rule.spec.scope.serviceID && ars[id].spec.name == change.rule.spec.name)
        {
          var id :| id in todo;
          var existing := ars[id];
          if existing.spec.scope.serviceID == change.rule.spec.scope.serviceID && existing.spec.name == change.rule.spec.name {
            assert NameTaken(Contents(), change.rule);
            return Conflict;
          }
          todo := todo - {id};
        }
      } else {
        if ruleID !in ars {
          return NotFound;
        }
        if ars[ruleID].currentUpdateID != change.expectedCurrentUpdateID {
          return Conflict;
        }
      }
      ars := ars[ruleID := change.rule];
      arus := arus[change.update.id := change.update];
      aes := aes[change.audit.id := change.audit];
      return Saved;
    }

    method MarkRuntimeRulesApplied(endpointID: string, signalType: string) returns (applied: nat)
      modifies this
      ensures Contents() == Mark(old(Contents()), endpointID, signalType)
      ensures applied == |Matching(old(ars), old(ars).Keys, endpointID, signalType)|
      ensures ars.Keys == old(ars).Keys && arus == old(arus) && aes == old(aes)
      ensures forall id :: id in ars ==>
                var signal := ToLower(TrimSpace(old(ars)[id].spec.signalType));
                ars[id] == if old(ars)[id].spec.scope.endpointID == endpointID
                              && ToLower(TrimSpace(signalType)) == (if signal == "" then "logs" else signal)
                           then old(ars)[id].(applyStatus := Applied, appliedUpdateID := old(ars)[id].currentUpdateID) else old(ars)[id]
      ensures applied == |set id | id in old(ars) && old(ars)[id].spec.scope.endpointID == endpointID
                                   && var signal := ToLower(TrimSpace(old(ars)[id].spec.signalType));
                                      ToLower(TrimSpace(signalType)) == if signal == "" then "logs" else signal|
    {
      hide RunsOn, MarkedRule, MarkAmong, Matching, TrimSpace, ToLower;
      ghost var before, done := ars, {};
      var todo := ars.Keys;
      applied := 0;
      MarkNone(before, endpointID, signalType);
      while todo != {}
        invariant done !! todo && done + todo == before.Keys && arus == old(arus) && aes == old(aes)
        invariant ars == MarkAmong(before, done, endpointID, signalType)
        invariant applied == |Matching(before, done, endpointID, signalType)|
      {
        var id :| id in todo;
        MarkOneMore(before, done, id, endpointID, signalType);
        done := done + {id};
        todo := todo - {id};
        if !RunsOn(ars[id], endpointID, signalType) {
          continue;
        }
        ars := ars[id := MarkedRule(ars[id])];
        applied := applied + 1;
      }
      assert done == before.Keys;
      MarkedIs(before, endpointID, signalType);
    }

    method FindRuleByID(id: Id) returns (rule: Option<Rule>)
      ensures rule == if id in ars then Some(ars[id]) else None
    {
      if id !in ars {
        return None;
      }
      return Some(ars[id]);
    }

    /** An update record of that rule; a record of another rule is not found. */
    method FindUpdate(ruleID: Id, updateID: Id) returns (update: Option<UpdateRecord>)
      ensures update == if updateID in arus && arus[updateID].ruleID == ruleID then Some(arus[updateID]) else None
    {
      if updateID !in arus {
        return None;
      }
      if arus[updateID].ruleID != ruleID {
        return None;
      }
      return Some(arus[updateID]);
    }
  }
}
