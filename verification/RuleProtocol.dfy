/** The alert-rule lifecycle as a protocol of many clients over one store: each operation reads a
    rule, prepares a change from what it read, and submits it under a compare-and-set, while runtime
    publications mark rules as applied.  All interleavings are runs of `Op`s. */
module RuleProtocol {
  import opened Text
  import opened RuleSpecs
  import opened AlertStore

  /** What a client holds between its steps. */
  datatype Client = Idle | Reading(current: Rule) | Ready(change: ChangeSet)

  datatype System = System(db: Rules, clients: map<nat, Client>, issued: set<Id>)

  const INIT := System(Rules(map[], map[], map[]), map[], {})

  function ClientOf(s: System, c: nat): Client { if c in s.clients then s.clients[c] else Idle }

  // ---------- Changes ----------

  function CreateChange(spec: RuleSpec, ruleID: Id, updateID: Id, auditID: Id): ChangeSet {
    ChangeSet(
      Rule(ruleID, spec, Enabled, Pending, updateID, ""),
      UpdateRecord(updateID, ruleID, "", "", Create, Enabled, spec, auditID),
      AuditEvent(auditID, ruleID, Create),
      "")
  }

  /** A change to a rule as it was read: its applied update travels along, however old the copy is. */
  function ExistingChange(current: Rule, spec: RuleSpec, state: RuleState, action: Action, sourceUpdateID: Id,
                          updateID: Id, auditID: Id): ChangeSet {
    ChangeSet(
      current.(spec := spec, state := state, applyStatus := Pending, currentUpdateID := updateID),
      UpdateRecord(updateID, current.id, current.currentUpdateID, sourceUpdateID, action, state, spec, auditID),
      AuditEvent(auditID, current.id, action),
      current.currentUpdateID)
  }

  /** A rollback goes to the state its source record led to; an old record without one counts as enabled. */
  function RollbackChange(current: Rule, source: UpdateRecord, normal: RuleSpec, updateID: Id, auditID: Id): ChangeSet {
    ExistingChange(current, normal, if source.resultingState == Unset then Enabled else source.resultingState,
                   Rollback, source.id, updateID, auditID)
  }

  predicate SignalExpected(expected: string, actual: string) {
    var e := ToLower(TrimSpace(expected));
    e == "" || ((e == "logs" || e == "metrics") && e == actual)
  }

  // ---------- Steps ----------

  /** `normal` is what normalising the specification at hand yielded; ids come from the id generator. */
  datatype Op =
    | Read(client: nat, ruleID: Id)
    | PrepareCreate(client: nat, normal: RuleSpec, newRuleID: Id, updateID: Id, auditID: Id)
    | PrepareUpdate(client: nat, normal: RuleSpec, updateID: Id, auditID: Id)
    | PrepareRollback(client: nat, sourceID: Id, normal: RuleSpec, updateID: Id, auditID: Id)
    | PrepareDisable(client: nat, expectedSignal: string, normal: RuleSpec, updateID: Id, auditID: Id)
    | Submit(client: nat)
    | Publish(endpointID: string, signalType: string)
    | Abandon(client: nat)

  /** Generated ids are non-empty, different from each other and never seen before. */
  predicate Fresh(s: System, updateID: Id, auditID: Id) {
    updateID != "" && auditID != "" && updateID != auditID && updateID !in s.issued && auditID !in s.issued
  }

  ghost predicate Possible(s: System, op: Op) {
    match op
    case Read(c, ruleID) => ruleID in s.db.rules
    case PrepareCreate(c, normal, ruleID, u, a) =>
      IsNormal(normal) && Fresh(s, u, a) && ruleID != "" && ruleID != u && ruleID != a && ruleID !in s.issued
    case PrepareUpdate(c, normal, u, a) =>
      ClientOf(s, c).Reading? && IsNormal(normal) && Fresh(s, u, a)
    case PrepareRollback(c, sourceID, normal, u, a) =>
      && ClientOf(s, c).Reading? && Fresh(s, u, a)
      && sourceID in s.db.updates && s.db.updates[sourceID].ruleID == ClientOf(s, c).current.id
      && Normalizes(s.db.updates[sourceID].spec, normal)
    case PrepareDisable(c, expected, normal, u, a) =>
      && ClientOf(s, c).Reading? && Fresh(s, u, a)
      && Normalizes(ClientOf(s, c).current.spec, normal) && SignalExpected(expected, normal.signalType)
      && ClientOf(s, c).current.state != Disabled
    case Submit(c) => ClientOf(s, c).Ready?
    case Publish(_, _) => true
    case Abandon(c) => true
  }

  function Prepared(s: System, c: nat, change: ChangeSet): System {
    s.(clients := s.clients[c := Ready(change)], issued := s.issued + {change.rule.id, change.update.id, change.audit.id})
  }

  /** One step; an impossible one changes nothing. */
  ghost function Step(s: System, op: Op): System {
    if !Possible(s, op) then s else
      match op
      case Read(c, ruleID) => s.(clients := s.clients[c := Reading(s.db.rules[ruleID])])
      case PrepareCreate(c, normal, ruleID, u, a) => Prepared(s, c, CreateChange(normal, ruleID, u, a))
      case PrepareUpdate(c, normal, u, a) =>
        Prepared(s, c, ExistingChange(ClientOf(s, c).current, normal, Enabled, Update, "", u, a))
      case PrepareRollback(c, sourceID, normal, u, a) =>
        Prepared(s, c, RollbackChange(ClientOf(s, c).current, s.db.updates[sourceID], normal, u, a))
      case PrepareDisable(c, _, _, u, a) =>
        var current := ClientOf(s, c).current;
        Prepared(s, c, ExistingChange(current, current.spec, Disabled, Disable, "", u, a))
      case Submit(c) => s.(db := Save(s.db, ClientOf(s, c).change), clients := s.clients[c := Idle])
      case Publish(endpointID, signalType) => s.(db := Mark(s.db, endpointID, signalType))
      case Abandon(c) => s.(clients := s.clients[c := Idle])
  }

  ghost function Run(s: System, ops: seq<Op>): System {
    if ops == [] then s else Step(Run(s, ops[..|ops| - 1]), ops[|ops| - 1])
  }

  // ---------- What every reachable state satisfies ----------

  /** The records of a rule, from its creation to its current update, each the parent of the next. */
  ghost predicate IsChain(db: Rules, ruleID: Id, chain: seq<Id>) {
    && ruleID in db.rules && chain != [] && chain[|chain| - 1] == db.rules[ruleID].currentUpdateID
    && (forall i :: 0 <= i < |chain| ==> LinkedAt(db, ruleID, chain, i))
    && (forall u :: u in db.updates && db.updates[u].ruleID == ruleID ==> u in chain)
    && (forall i, j :: 0 <= i < j < |chain| ==> chain[i] != chain[j])
  }

  ghost predicate LinkedAt(db: Rules, ruleID: Id, chain: seq<Id>, i: int)
    requires 0 <= i < |chain|
  {
    && chain[i] in db.updates && db.updates[chain[i]].ruleID == ruleID
    && db.updates[chain[i]].parentUpdateID == (if i == 0 then "" else chain[i - 1])
    && (db.updates[chain[i]].action == Create <==> i == 0)
  }

  /** A rule, stored or copied, that says what its current record says. */
  ghost predicate Faithful(db: Rules, r: Rule) {
    && r.currentUpdateID in db.updates
    && db.updates[r.currentUpdateID].ruleID == r.id
    && r.spec == db.updates[r.currentUpdateID].spec && r.state == db.updates[r.currentUpdateID].resultingState
    && (r.applyStatus == Applied ==> r.appliedUpdateID == r.currentUpdateID)
    && AppliedOk(db, r)
  }

  ghost predicate AppliedOk(db: Rules, r: Rule) {
    r.appliedUpdateID != "" ==> r.appliedUpdateID in db.updates && db.updates[r.appliedUpdateID].ruleID == r.id
  }

  ghost predicate RecordOk(db: Rules, u: UpdateRecord) {
    && u.id != "" && u.ruleID in db.rules && IsNormal(u.spec) && u.resultingState != Unset
    && u.auditID in db.audits && db.audits[u.auditID] == AuditEvent(u.auditID, u.ruleID, u.action)
    && (u.action == Disable ==> u.parentUpdateID in db.updates && db.updates[u.parentUpdateID].resultingState == Enabled)
    && (u.action == Rollback ==>
          u.sourceUpdateID in db.updates && u.ruleID == db.updates[u.sourceUpdateID].ruleID &&
          u.spec == db.updates[u.sourceUpdateID].spec && u.resultingState == db.updates[u.sourceUpdateID].resultingState)
  }

  ghost predicate StoreOk(db: Rules) {
    && (forall id :: id in db.rules ==> db.rules[id].id == id && Faithful(db, db.rules[id]) && exists chain :: IsChain(db, id, chain))
    && (forall u :: u in db.updates ==> db.updates[u].id == u && RecordOk(db, db.updates[u]))
    && (forall u, v :: u in db.updates && v in db.updates && u != v ==> db.updates[u].auditID != db.updates[v].auditID)
    && |db.updates| == |db.audits|
  }

  /** A change that waits to be submitted, and would leave the store in order. */
  ghost predicate ChangeOk(db: Rules, change: ChangeSet) {
    var r, u := change.rule, change.update;
    && u.id !in db.updates && change.audit.id !in db.audits && u.id != ""
    && change.audit == AuditEvent(u.auditID, u.ruleID, u.action)
    && u.ruleID == r.id && r.currentUpdateID == u.id && r.spec == u.spec && r.state == u.resultingState
    && r.state != Unset && r.applyStatus == Pending && IsNormal(u.spec)
    && AppliedOk(db, r) && u.parentUpdateID == change.expectedCurrentUpdateID
    && (u.action == Create <==> u.parentUpdateID == "")
    && (u.parentUpdateID != "" ==> u.parentUpdateID in db.updates && db.updates[u.parentUpdateID].ruleID == r.id)
    && (u.action == Disable ==> db.updates[u.parentUpdateID].resultingState == Enabled)
    && (u.action == Rollback ==>
          u.sourceUpdateID in db.updates && u.ruleID == db.updates[u.sourceUpdateID].ruleID &&
          u.spec == db.updates[u.sourceUpdateID].spec && u.resultingState == db.updates[u.sourceUpdateID].resultingState)
  }

  ghost predicate ClientOk(s: System, c: nat) {
    match ClientOf(s, c)
    case Idle => true
    case Reading(current) => current.id in s.db.rules && Faithful(s.db, current)
    case Ready(change) => ChangeOk(s.db, change) && change.update.id in s.issued && change.audit.id in s.issued
  }

  ghost predicate Apart(s: System, c: nat, d: nat) {
    ClientOf(s, c).Ready? && ClientOf(s, d).Ready? ==>
      && ClientOf(s, c).change.update.id != ClientOf(s, d).change.update.id
      && ClientOf(s, c).change.audit.id != ClientOf(s, d).change.audit.id
  }

  ghost predicate Inv(s: System) {
    && StoreOk(s.db) && s.db.updates.Keys <= s.issued && s.db.audits.Keys <= s.issued
    && (forall c :: ClientOk(s, c))
    && (forall c, d :: c != d ==> Apart(s, c, d))
  }

  // ---------- Every step keeps it ----------

  /** Records are only ever added. */
  ghost predicate Grows(a: Rules, b: Rules) {
    && a.rules.Keys <= b.rules.Keys
    && (forall u :: u in a.updates ==> u in b.updates && b.updates[u] == a.updates[u])
    && (forall x :: x in a.audits ==> x in b.audits && b.audits[x] == a.audits[x])
  }

  lemma FaithfulGrows(a: Rules, b: Rules, r: Rule)
    requires Grows(a, b) && Faithful(a, r)
    ensures Faithful(b, r)
  {}

  lemma ChangeGrows(a: Rules, b: Rules, change: ChangeSet)
    requires Grows(a, b) && ChangeOk(a, change) && change.update.id !in b.updates && change.audit.id !in b.audits
    ensures ChangeOk(b, change)
  {
    hide IsNormal;
  }

  lemma RecordGrows(a: Rules, b: Rules, u: UpdateRecord)
    requires Grows(a, b) && RecordOk(a, u)
    ensures RecordOk(b, u)
  {
    hide IsNormal;
  }

  lemma SavedGrows(db: Rules, change: ChangeSet)
    requires ChangeOk(db, change)
    ensures Grows(db, Save(db, change))
  {
    hide IsNormal, NameTaken;
  }

  lemma SavedChain(db: Rules, change: ChangeSet, chain: seq<Id>)
    requires Verdict(db, change) == Saved && change.update.id !in db.updates
    requires change.update.ruleID == change.rule.id && change.rule.currentUpdateID == change.update.id
    requires change.update.parentUpdateID == change.expectedCurrentUpdateID
    requires change.update.action == Create <==> change.expectedCurrentUpdateID == ""
    requires forall u :: u in db.updates ==> db.updates[u].ruleID in db.rules
    requires if change.expectedCurrentUpdateID == "" then chain == [] else IsChain(db, change.rule.id, chain)
    ensures IsChain(Save(db, change), change.rule.id, chain + [change.update.id])
  {
    var db', all, id := Save(db, change), chain + [change.update.id], change.rule.id;
    forall i | 0 <= i < |all| ensures LinkedAt(db', id, all, i) {
      if i < |chain| { assert LinkedAt(db, id, chain, i) && all[i] == chain[i]; }
    }
    forall u | u in db'.updates && db'.updates[u].ruleID == id ensures u in all {
      assert all[|chain|] == change.update.id;
      if u != change.update.id {
        assert db'.updates[u] == db.updates[u];
        assert forall x :: x in chain ==> x in all;
      }
    }
    forall i, j | 0 <= i < j < |all| ensures all[i] != all[j] {
      assert LinkedAt(db, id, chain, i);
    }
  }

  lemma OtherChain(db: Rules, change: ChangeSet, id: Id, chain: seq<Id>)
    requires ChangeOk(db, change) && IsChain(db, id, chain) && id != change.rule.id
    ensures IsChain(Save(db, change), id, chain)
  {
    hide IsNormal, NameTaken, Faithful, AppliedOk;
    forall i | 0 <= i < |chain| ensures LinkedAt(Save(db, change), id, chain, i) { assert LinkedAt(db, id, chain, i); }
  }

  lemma SaveKeepsStore(db: Rules, change: ChangeSet)
    requires StoreOk(db) && ChangeOk(db, change)
    ensures StoreOk(Save(db, change))
  {
    hide IsNormal, NameTaken, IsChain, Faithful, RecordOk, Grows;
    if Verdict(db, change) == Saved {
      var db' := Save(db, change);
      SavedGrows(db, change);
      forall id | id in db'.rules
        ensures db'.rules[id].id == id && Faithful(db', db'.rules[id]) && exists chain :: IsChain(db', id, chain)
      {
        if id == change.rule.id {
          SavedFaithful(db, change);
          ExtendChain(db, change);
        } else {
          FaithfulGrows(db, db', db.rules[id]);
          var chain :| IsChain(db, id, chain);
          OtherChain(db, change, id, chain);
        }
      }
      forall u | u in db'.updates ensures db'.updates[u].id == u && RecordOk(db', db'.updates[u]) {
        if u == change.update.id { SavedRecord(db, change); } else { RecordGrows(db, db', db.updates[u]); }
      }
      forall u | u in db.updates ensures db.updates[u].auditID in db.audits { AuditedRecord(db, db.updates[u]); }
    }
  }

  lemma AuditedRecord(db: Rules, u: UpdateRecord)
    requires RecordOk(db, u)
    ensures u.auditID in db.audits
  {}

  lemma SavedFaithful(db: Rules, change: ChangeSet)
    requires ChangeOk(db, change) && Verdict(db, change) == Saved
    ensures Faithful(Save(db, change), change.rule)
  {
    hide IsNormal, NameTaken;
  }

  lemma SavedRecord(db: Rules, change: ChangeSet)
    requires ChangeOk(db, change) && Verdict(db, change) == Saved
    ensures RecordOk(Save(db, change), change.update)
  {
    hide IsNormal, NameTaken;
  }

  lemma ExtendChain(db: Rules, change: ChangeSet)
    requires StoreOk(db) && ChangeOk(db, change) && Verdict(db, change) == Saved
    ensures exists chain :: IsChain(Save(db, change), change.rule.id, chain)
  {
    hide IsNormal, NameTaken, IsChain, Faithful;
    forall u | u in db.updates ensures db.updates[u].ruleID in db.rules { assert RecordOk(db, db.updates[u]); }
    if change.expectedCurrentUpdateID == "" {
      SavedChain(db, change, []);
    } else {
      var chain :| IsChain(db, change.rule.id, chain);
      SavedChain(db, change, chain);
    }
  }

  lemma MarkKeepsStore(db: Rules, endpointID: string, signalType: string)
    requires StoreOk(db)
    ensures StoreOk(Mark(db, endpointID, signalType)) && Grows(db, Mark(db, endpointID, signalType))
  {
    hide IsNormal, RunsOn, IsChain, Faithful, RecordOk;
    var db' := Mark(db, endpointID, signalType);
    assert db'.rules.Keys == db.rules.Keys;
    forall id | id in db'.rules
      ensures db'.rules[id].id == id && Faithful(db', db'.rules[id]) && exists chain :: IsChain(db', id, chain)
    {
      assert db'.rules[id] == db.rules[id] || db'.rules[id] == MarkedRule(db.rules[id]);
      FaithfulGrows(db, db', db.rules[id]);
      MarkedFaithful(db', db.rules[id]);
      var chain :| IsChain(db, id, chain);
      MarkKeepsChain(db, db', id, chain);
    }
    forall u | u in db'.updates ensures RecordOk(db', db'.updates[u]) { RecordGrows(db, db', db.updates[u]); }
  }

  lemma MarkedFaithful(db: Rules, r: Rule)
    requires Faithful(db, r)
    ensures Faithful(db, MarkedRule(r))
  {}

  lemma MarkKeepsChain(db: Rules, db': Rules, id: Id, chain: seq<Id>)
    requires IsChain(db, id, chain) && db'.updates == db.updates
    requires id in db'.rules && db'.rules[id].currentUpdateID == db.rules[id].currentUpdateID
    ensures IsChain(db', id, chain)
  {
    forall i | 0 <= i < |chain| ensures LinkedAt(db', id, chain, i) { assert LinkedAt(db, id, chain, i); }
  }

  /** A prepared change is in order when it was made from a faithful copy. */
  lemma PreparedOk(s: System, op: Op)
    requires Inv(s) && Possible(s, op) && !op.Read? && !op.Submit? && !op.Publish? && !op.Abandon?
    ensures var t := Step(s, op); ClientOf(t, op.client).Ready? && ChangeOk(s.db, ClientOf(t, op.client).change)
  {
    hide IsNormal, Normalizes, IsChain, SignalExpected, Apart, StoreOk;
    assert ClientOk(s, op.client);
    match op
    case PrepareCreate(c, normal, ruleID, u, a) =>
    case PrepareUpdate(c, normal, u, a) => CurrentRecord(s.db, ClientOf(s, c).current);
    case PrepareRollback(c, sourceID, normal, u, a) =>
      RollbackOk(s.db, ClientOf(s, c).current, sourceID, normal, u, a);
    case PrepareDisable(c, _, _, u, a) => CurrentRecord(s.db, ClientOf(s, c).current);
  }

  lemma RollbackOk(db: Rules, current: Rule, sourceID: Id, normal: RuleSpec, updateID: Id, auditID: Id)
    requires StoreOk(db) && Faithful(db, current) && updateID !in db.updates && auditID !in db.audits && updateID != ""
    requires sourceID in db.updates && db.updates[sourceID].ruleID == current.id && Normalizes(db.updates[sourceID].spec, normal)
    ensures ChangeOk(db, RollbackChange(current, db.updates[sourceID], normal, updateID, auditID))
  {
    hide IsNormal, Normalizes, IsChain;
    CurrentRecord(db, current);
    assert RecordOk(db, db.updates[sourceID]);
    NormalFixed(db.updates[sourceID].spec, normal);
  }

  lemma CurrentRecord(db: Rules, r: Rule)
    requires StoreOk(db) && Faithful(db, r)
    ensures r.currentUpdateID != "" && IsNormal(r.spec) && r.state != Unset
  {
    hide IsNormal, IsChain;
    assert RecordOk(db, db.updates[r.currentUpdateID]);
  }

  lemma StepKeepsInv(s: System, op: Op)
    requires Inv(s)
    ensures Inv(Step(s, op)) && Grows(s.db, Step(s, op).db)
  {
    hide IsNormal, Normalizes, StoreOk, Faithful, SignalExpected;
    if Possible(s, op) {
      match op
      case Read(c, ruleID) => ReadKeepsInv(s, c, ruleID);
      case Submit(c) => SubmitKeepsInv(s, c);
      case Publish(endpointID, signalType) =>
        MarkKeepsStore(s.db, endpointID, signalType);
        GrownClients(s, Step(s, op));
      case Abandon(c) =>
        var t := Step(s, op);
        forall d ensures ClientOk(t, d) { assert ClientOk(s, d); }
        forall d, e | d != e ensures Apart(t, d, e) { assert Apart(s, d, e); }
      case _ => PrepareKeepsInv(s, op);
    }
  }

  lemma ReadKeepsInv(s: System, c: nat, ruleID: Id)
    requires Inv(s) && ruleID in s.db.rules
    ensures Inv(s.(clients := s.clients[c := Reading(s.db.rules[ruleID])]))
  {
    hide IsNormal, ChangeOk, RecordOk, IsChain;
    var t := s.(clients := s.clients[c := Reading(s.db.rules[ruleID])]);
    forall d ensures ClientOk(t, d) { assert ClientOk(s, d); }
    forall d, e | d != e ensures Apart(t, d, e) { assert Apart(s, d, e); }
  }

  lemma GrownClients(s: System, t: System)
    requires Inv(s) && Grows(s.db, t.db) && t.clients == s.clients && t.issued == s.issued
    requires StoreOk(t.db) && t.db.updates == s.db.updates && t.db.audits == s.db.audits
    ensures Inv(t)
  {
    hide IsNormal, StoreOk, Faithful, ChangeOk;
    forall d ensures ClientOk(t, d) {
      assert ClientOk(s, d);
      match ClientOf(s, d)
      case Idle =>
      case Reading(current) => FaithfulGrows(s.db, t.db, current);
      case Ready(change) => ChangeUnsaved(s.db, change); ChangeGrows(s.db, t.db, change);
    }
    forall d, e | d != e ensures Apart(t, d, e) { assert Apart(s, d, e); }
  }

  lemma ChangeUnsaved(db: Rules, change: ChangeSet)
    requires ChangeOk(db, change)
    ensures change.update.id !in db.updates && change.audit.id !in db.audits
  {}

  lemma PrepareKeepsInv(s: System, op: Op)
    requires Inv(s) && Possible(s, op) && !op.Read? && !op.Submit? && !op.Publish? && !op.Abandon?
    ensures Inv(Step(s, op)) && Step(s, op).db == s.db
  {
    hide IsNormal, Normalizes, StoreOk, Faithful, ChangeOk, SignalExpected;
    var t := Step(s, op);
    PreparedOk(s, op);
    forall d ensures ClientOk(t, d) { assert ClientOk(s, d); }
    forall d, e | d != e ensures Apart(t, d, e) {
      assert Apart(s, d, e) && ClientOk(s, d) && ClientOk(s, e);
    }
  }

  lemma SubmitKeepsInv(s: System, c: nat)
    requires Inv(s) && ClientOf(s, c).Ready?
    ensures Inv(Step(s, Submit(c))) && Grows(s.db, Step(s, Submit(c)).db)
  {
    hide IsNormal, StoreOk, Faithful, ChangeOk, Grows, NameTaken;
    var change, t := ClientOf(s, c).change, Step(s, Submit(c));
    assert ClientOk(s, c);
    SaveKeepsStore(s.db, change);
    SavedGrows(s.db, change);
    forall d ensures ClientOk(t, d) {
      assert ClientOk(s, d) && (d != c ==> Apart(s, c, d));
      GrownRules(s.db, t.db);
      match ClientOf(t, d)
      case Idle =>
      case Reading(current) => FaithfulGrows(s.db, t.db, current);
      case Ready(other) =>
        ChangeUnsaved(s.db, other);
        ChangeGrows(s.db, t.db, other);
    }
    forall d, e | d != e ensures Apart(t, d, e) { assert Apart(s, d, e); }
  }

  lemma GrownRules(a: Rules, b: Rules)
    requires Grows(a, b)
    ensures a.rules.Keys <= b.rules.Keys
  {}

  lemma InitInv()
    ensures Inv(INIT)
  {}

  /** Every state that any interleaving of clients and publications can reach is in order. */
  lemma {:induction false} ReachableInv(ops: seq<Op>)
    ensures Inv(Run(INIT, ops))
  {
    hide Inv, Possible;
    if ops == [] {
      InitInv();
    } else {
      ReachableInv(ops[..|ops| - 1]);
      StepKeepsInv(Run(INIT, ops[..|ops| - 1]), ops[|ops| - 1]);
    }
  }

  // ---------- What follows ----------

  /** In every reachable state: a rule says what its current record says; it counts as applied only at
      its current update; its applied update, if any, is on its chain; its specification is normal. */
  lemma ReachableRule(ops: seq<Op>, id: Id) returns (chain: seq<Id>)
    requires id in Run(INIT, ops).db.rules
    ensures var db := Run(INIT, ops).db; var r := db.rules[id];
            && IsChain(db, id, chain) && IsNormal(r.spec)
            && r.currentUpdateID in db.updates
            && r.spec == db.updates[r.currentUpdateID].spec && r.state == db.updates[r.currentUpdateID].resultingState
            && (r.applyStatus == Applied ==> r.appliedUpdateID == r.currentUpdateID)
            && (r.appliedUpdateID != "" ==> r.appliedUpdateID in chain)
  {
    hide IsNormal;
    ReachableInv(ops);
    var db := Run(INIT, ops).db;
    CurrentRecord(db, db.rules[id]);
    chain :| IsChain(db, id, chain);
  }

  /** No forks: two saved changes of one rule were never based on the same update. */
  lemma NoForks(ops: seq<Op>, u: Id, v: Id)
    requires var db := Run(INIT, ops).db; u in db.updates && v in db.updates && u != v && db.updates[u].ruleID == db.updates[v].ruleID
    ensures var db := Run(INIT, ops).db; db.updates[u].parentUpdateID != db.updates[v].parentUpdateID
  {
    hide Run, StoreOk, RecordOk, IsChain;
    ReachableInv(ops);
    var db := Run(INIT, ops).db;
    var id := db.updates[u].ruleID;
    var chain := TheChain(db, u);
    var i := Position(db, id, chain, u);
    var j := Position(db, id, chain, v);
    if i > 0 { RecordNamed(db, chain[i - 1]); }
    if j > 0 { RecordNamed(db, chain[j - 1]); }
  }

  lemma TheChain(db: Rules, u: Id) returns (chain: seq<Id>)
    requires StoreOk(db) && u in db.updates
    ensures IsChain(db, db.updates[u].ruleID, chain)
  {
    hide IsChain, Faithful;
    assert RecordOk(db, db.updates[u]);
    chain :| IsChain(db, db.updates[u].ruleID, chain);
  }

  /** Where a record is on its rule's chain. */
  lemma Position(db: Rules, id: Id, chain: seq<Id>, u: Id) returns (i: nat)
    requires IsChain(db, id, chain) && u in db.updates && db.updates[u].ruleID == id
    ensures i < |chain| && chain[i] == u && db.updates[u].parentUpdateID == (if i == 0 then "" else chain[i - 1])
    ensures i > 0 ==> chain[i - 1] in db.updates
    ensures forall j, k :: 0 <= j < k < |chain| ==> chain[j] != chain[k]
  {
    assert u in chain;
    i :| 0 <= i < |chain| && chain[i] == u;
    assert LinkedAt(db, id, chain, i);
    if i > 0 { assert LinkedAt(db, id, chain, i - 1); }
  }

  lemma RecordNamed(db: Rules, u: Id)
    requires StoreOk(db) && u in db.updates
    ensures u != "" && db.updates[u].id == u
  {
    hide IsChain, Faithful, IsNormal;
    assert RecordOk(db, db.updates[u]);
  }

  /** A submission succeeds exactly when the rule is still at the update the change was based on (for a
      new rule: when its name is free).  Then exactly one record and one audit event are added, the
      record's parent is the update that was current, and it becomes current; otherwise nothing changes. */
  lemma SubmitIsCompareAndSet(ops: seq<Op>, c: nat)
    requires ClientOf(Run(INIT, ops), c).Ready?
    ensures var s := Run(INIT, ops); var change, t := ClientOf(s, c).change, Step(s, Submit(c));
            var id, u := change.rule.id, change.update;
            && (Verdict(s.db, change) == Saved <==>
                  if u.action == Create then id !in s.db.rules && !NameTaken(s.db, change.rule)
                  else id in s.db.rules && s.db.rules[id].currentUpdateID == u.parentUpdateID)
            && (Verdict(s.db, change) == Saved ==>
                  && t.db.updates == s.db.updates[u.id := u] && u.id !in s.db.updates
                  && t.db.audits == s.db.audits[u.auditID := change.audit] && u.auditID !in s.db.audits
                  && t.db.rules == s.db.rules[id := change.rule] && change.rule.currentUpdateID == u.id
                  && |t.db.audits| == |s.db.audits| + 1 && |t.db.updates| == |s.db.updates| + 1)
            && (Verdict(s.db, change) != Saved ==> t.db == s.db)
  {
    hide IsNormal, Faithful, StoreOk, NameTaken;
    ReachableInv(ops);
    assert ClientOk(Run(INIT, ops), c);
  }

  lemma {:induction false} RunAppend(s: System, a: seq<Op>, b: seq<Op>)
    ensures Run(s, a + b) == Run(Run(s, a), b)
  {
    hide Step;
    if b == [] {
      assert a + b == a;
    } else {
      RunAppend(s, a, b[..|b| - 1]);
      assert (a + b)[..|a + b| - 1] == a + b[..|b| - 1];
    }
  }

  /** No lost update: whatever happens next, saved records and audit events stay as they are. */
  lemma {:induction false} RecordsForever(before: seq<Op>, after: seq<Op>)
    ensures Grows(Run(INIT, before).db, Run(INIT, before + after).db)
  {
    hide Inv, Step;
    if after == [] {
      assert before + after == before;
    } else {
      var n := |after| - 1;
      RecordsForever(before, after[..n]);
      assert (before + after)[..|before| + n] == before + after[..n];
      ReachableInv(before + after[..n]);
      StepKeepsInv(Run(INIT, before + after[..n]), after[n]);
    }
  }

  /** Rolling back to the record that was current at some earlier time restores exactly the
      specification and the state the rule had then, whatever happened in between. */
  lemma RollbackRestores(before: seq<Op>, after: seq<Op>, c: nat, id: Id)
    requires var s, t := Run(INIT, before), Run(INIT, before + after);
             && id in s.db.rules && ClientOf(t, c).Ready?
             && var change := ClientOf(t, c).change;
                change.rule.id == id && change.update.action == Rollback
                && change.update.sourceUpdateID == s.db.rules[id].currentUpdateID
                && Verdict(t.db, change) == Saved
    ensures var s, t' := Run(INIT, before), Step(Run(INIT, before + after), Submit(c));
            && t'.db.rules[id].spec == s.db.rules[id].spec
            && t'.db.rules[id].state == s.db.rules[id].state
  {
    hide Run, Inv, Grows, Verdict, Save;
    var s, t := Run(INIT, before), Run(INIT, before + after);
    ReachableInv(before); ReachableInv(before + after);
    RecordsForever(before, after);
    CurrentSays(s, t.db, id);
    RollbackSays(t, c);
    SubmitSaves(t, c);
  }

  lemma CurrentSays(s: System, db: Rules, id: Id)
    requires Inv(s) && Grows(s.db, db) && id in s.db.rules
    ensures var r := s.db.rules[id];
            r.currentUpdateID in db.updates && db.updates[r.currentUpdateID].spec == r.spec && db.updates[r.currentUpdateID].resultingState == r.state
  {
    hide IsNormal, IsChain, RecordOk;
    assert Faithful(s.db, s.db.rules[id]);
  }

  lemma RollbackSays(s: System, c: nat)
    requires Inv(s) && ClientOf(s, c).Ready? && ClientOf(s, c).change.update.action == Rollback
    ensures var change := ClientOf(s, c).change; var source := change.update.sourceUpdateID;
            source in s.db.updates && change.rule.spec == s.db.updates[source].spec && change.rule.state == s.db.updates[source].resultingState
  {
    hide IsNormal, StoreOk;
    assert ClientOk(s, c);
  }

  lemma SubmitSaves(s: System, c: nat)
    requires ClientOf(s, c).Ready? && Verdict(s.db, ClientOf(s, c).change) == Saved
    ensures var change, t := ClientOf(s, c).change, Step(s, Submit(c));
            change.rule.id in t.db.rules && t.db.rules[change.rule.id] == change.rule
  {
    hide Verdict;
  }

  /** A rule is never disabled twice in a row. */
  lemma DisableFollowsEnabled(ops: seq<Op>, u: Id)
    requires u in Run(INIT, ops).db.updates && Run(INIT, ops).db.updates[u].action == Disable
    ensures var db := Run(INIT, ops).db; var parent := db.updates[u].parentUpdateID;
            parent in db.updates && db.updates[parent].resultingState == Enabled
  {
    hide IsNormal;
    ReachableInv(ops);
    assert RecordOk(Run(INIT, ops).db, Run(INIT, ops).db.updates[u]);
  }

  // A run in which the applied update goes backwards: rule "r" is created (record "u", audit event "a"),
  // client 1 reads it and prepares an update (record "v"), and then the rule is published.
  function Created(spec: RuleSpec): ChangeSet { CreateChange(spec, "r", "u", "a") }

  function Stale(spec: RuleSpec): ChangeSet { ExistingChange(Created(spec).rule, spec, Enabled, Update, "", "v", "b") }

  function AfterCreate(spec: RuleSpec): System {
    System(Rules(map["r" := Created(spec).rule], map["u" := Created(spec).update], map["a" := Created(spec).audit]),
           map[0 := Idle], {"r", "u", "a"})
  }

  function AfterPrepare(spec: RuleSpec): System {
    AfterCreate(spec).(clients := map[0 := Idle, 1 := Ready(Stale(spec))], issued := {"r", "u", "a", "v", "b"})
  }

  function AfterPublish(spec: RuleSpec): System {
    AfterPrepare(spec).(db := AfterCreate(spec).db.(rules := map["r" := MarkedRule(Created(spec).rule)]))
  }

  lemma CreateSteps(spec: RuleSpec)
    requires IsNormal(spec)
    ensures Step(Step(INIT, PrepareCreate(0, spec, "r", "u", "a")), Submit(0)) == AfterCreate(spec)
  {
    hide IsNormal;
    var s := Prepared(INIT, 0, Created(spec));
    assert Step(INIT, PrepareCreate(0, spec, "r", "u", "a")) == s;
    assert s.issued == {"r", "u", "a"};
    assert s.clients[0 := Idle] == map[0 := Idle];
  }

  lemma PrepareSteps(spec: RuleSpec)
    requires IsNormal(spec)
    ensures Step(Step(AfterCreate(spec), Read(1, "r")), PrepareUpdate(1, spec, "v", "b")) == AfterPrepare(spec)
  {
    hide IsNormal, Save, Mark;
    var s := AfterCreate(spec);
    var t := s.(clients := s.clients[1 := Reading(s.db.rules["r"])]);
    assert Step(s, Read(1, "r")) == t;
    assert t.issued + {"r", "v", "b"} == AfterPrepare(spec).issued;
    assert t.clients[1 := Ready(Stale(spec))] == AfterPrepare(spec).clients;
  }

  lemma PublishStep(spec: RuleSpec)
    ensures Step(AfterPrepare(spec), Publish(spec.scope.endpointID, SignalOf(spec.signalType))) == AfterPublish(spec)
  {
    hide IsNormal, SignalOf, RunsOn, MarkAmong, MarkedRule, Stale, Created;
    CreatedRunsOn(spec);
    MarkSingle(Created(spec).rule, spec.scope.endpointID, SignalOf(spec.signalType));
    PublishMarks(AfterPrepare(spec), spec.scope.endpointID, SignalOf(spec.signalType));
  }

  lemma PublishMarks(s: System, endpointID: string, signalType: string)
    ensures Step(s, Publish(endpointID, signalType)) == s.(db := Mark(s.db, endpointID, signalType))
  {
    hide Mark;
  }

  lemma CreatedRunsOn(spec: RuleSpec)
    ensures RunsOn(Created(spec).rule, spec.scope.endpointID, SignalOf(spec.signalType))
  {
    hide SignalOf;
    SignalTrimmed(spec.signalType);
  }

  lemma MarkSingle(rule: Rule, endpointID: string, signalType: string)
    requires RunsOn(rule, endpointID, signalType)
    ensures MarkAmong(map["r" := rule], map["r" := rule].Keys, endpointID, signalType) == map["r" := MarkedRule(rule)]
  {
    hide RunsOn, MarkedRule;
  }

  lemma SubmitStep(spec: RuleSpec)
    ensures var t := Step(AfterPublish(spec), Submit(1)); "r" in t.db.rules && t.db.rules["r"] == Stale(spec).rule
  {
    hide IsNormal;
  }

  /** The applied update can go backwards: a client reads the rule, a publication marks it, and the
      client's save -- based on the update that is still current -- carries the stale copy's mark. */
  lemma AppliedCanGoBack(spec: RuleSpec)
    requires IsNormal(spec)
    ensures exists before: seq<Op>, c: nat, id :: GoesBack(Run(INIT, before), c, id)
  {
    hide IsNormal, Step;
    var p0, p1 := PrepareCreate(0, spec, "r", "u", "a"), Submit(0);
    var p2, p3, p4 := Read(1, "r"), PrepareUpdate(1, spec, "v", "b"), Publish(spec.scope.endpointID, SignalOf(spec.signalType));
    CreateSteps(spec); PrepareSteps(spec); PublishStep(spec); SubmitStep(spec);
    FiveSteps(INIT, p0, p1, p2, p3, p4);
    assert GoesBack(Run(INIT, [p0, p1, p2, p3, p4]), 1, "r");
  }

  /** Submitting takes the mark from an applied rule. */
  ghost predicate GoesBack(s: System, c: nat, id: Id) {
    var t := Step(s, Submit(c));
    && id in s.db.rules && s.db.rules[id].applyStatus == Applied && s.db.rules[id].appliedUpdateID != ""
    && id in t.db.rules && t.db.rules[id].appliedUpdateID == ""
  }

  lemma SignalTrimmed(value: string)
    ensures ToLower(TrimSpace(SignalOf(value))) == SignalOf(value)
  {
    hide TrimSpace, ToLower;
    TrimTwice(value);
    SignalTwice(value);
    if ToLower(TrimSpace(value)) == "" { TrimTrimmed("logs"); LowerLogs(); }
  }

  lemma FiveSteps(s: System, a: Op, b: Op, c: Op, d: Op, e: Op)
    ensures Run(s, [a, b, c, d, e]) == Step(Step(Step(Step(Step(s, a), b), c), d), e)
  {
    hide Step;
    assert [a, b, c, d, e][..4] == [a, b, c, d] && [a, b, c, d][..3] == [a, b, c];
    assert [a, b, c][..2] == [a, b] && [a, b][..1] == [a] && [a][..0] == [];
    assert Run(s, [a]) == Step(Run(s, []), a);
    assert Run(s, [a, b]) == Step(Run(s, [a]), b);
    assert Run(s, [a, b, c]) == Step(Run(s, [a, b]), c);
    assert Run(s, [a, b, c, d]) == Step(Run(s, [a, b, c]), d);
  }
}
