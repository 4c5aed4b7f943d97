/** When a rule keeps the mark a publication put on it: a save writes the whole rule back, with the applied update of the copy
    it was made from. */
module AppliedMarks {
  import opened AlertStore
  import opened RuleProtocol
  import RuleSpecs
  import opened Text

  /** A publication that stamps the rule. */
  predicate Stamps(s: System, op: Op, id: Id) {
    op.Publish? && id in s.db.rules && RunsOn(s.db.rules[id], op.endpointID, op.signalType)
  }

  ghost predicate StampAt(s: System, mid: seq<Op>, i: int, id: Id) {
    0 <= i < |mid| && id in Run(s, mid[..i]).db.rules && Stamps(Run(s, mid[..i]), mid[i], id)
  }

  lemma {:induction false} RunKeepsInv(s: System, mid: seq<Op>)
    requires Inv(s)
    ensures Inv(Run(s, mid)) && s.db.rules.Keys <= Run(s, mid).db.rules.Keys && s.db.updates.Keys <= Run(s, mid).db.updates.Keys
  {
    hide Inv, RuleProtocol.Step;
    if mid != [] {
      RunKeepsInv(s, mid[..|mid| - 1]);
      StepKeepsInv(Run(s, mid[..|mid| - 1]), mid[|mid| - 1]);
      GrownKeys(Run(s, mid[..|mid| - 1]).db, Run(s, mid).db);
    }
  }

  lemma GrownKeys(a: Rules, b: Rules)
    requires Grows(a, b)
    ensures a.rules.Keys <= b.rules.Keys && a.updates.Keys <= b.updates.Keys
  {}

  /** A rule that is at an update now was there before the step, and only a publication has touched its mark: a save would have
      taken it to a new update, and no update comes back. */
  lemma StepMark(s: System, op: Op, id: Id, u: Id)
    requires Inv(s) && id in s.db.rules && u in s.db.updates
    ensures var t := RuleProtocol.Step(s, op);
            && id in t.db.rules
            && (t.db.rules[id].currentUpdateID == u ==>
                  && s.db.rules[id].currentUpdateID == u
                  && t.db.rules[id].appliedUpdateID == if Stamps(s, op, id) then u else s.db.rules[id].appliedUpdateID)
  {
    hide StoreOk, RunsOn, NameTaken, Apart, RuleSpecs.IsNormal, RuleSpecs.Normalizes, SignalExpected, AppliedOk;
    if op.Submit? && Possible(s, op) {
      assert ClientOk(s, op.client);
    }
  }

  /** As long as the rule stays at the update it was read at, its mark is the one it had, or that update once a publication has
      stamped it. */
  lemma {:induction false} MarkHistory(s: System, mid: seq<Op>, id: Id)
    requires Inv(s) && id in s.db.rules && s.db.rules[id].currentUpdateID in s.db.updates
    ensures id in Run(s, mid).db.rules
    ensures var u, r := s.db.rules[id].currentUpdateID, Run(s, mid).db.rules[id];
            r.currentUpdateID == u ==>
              && (forall i :: StampAt(s, mid, i, id) ==> Run(s, mid[..i]).db.rules[id].currentUpdateID == u)
              && r.appliedUpdateID == if exists i :: StampAt(s, mid, i, id) then u else s.db.rules[id].appliedUpdateID
  {
    hide Inv, RuleProtocol.Step, Stamps;
    if mid != [] {
      var n := |mid| - 1;
      var init, u := mid[..n], s.db.rules[id].currentUpdateID;
      MarkHistory(s, init, id);
      RunKeepsInv(s, init);
      StepMark(Run(s, init), mid[n], id, u);
      assert mid[..n] == init;
      forall i | 0 <= i < n ensures StampAt(s, mid, i, id) <==> StampAt(s, init, i, id) {
        assert init[..i] == mid[..i];
      }
      if Run(s, mid).db.rules[id].currentUpdateID == u {
        if Stamps(Run(s, init), mid[n], id) {
          assert StampAt(s, mid, n, id);
        }
        if i :| StampAt(s, init, i, id) {
          assert StampAt(s, mid, i, id);
        }
        forall i | StampAt(s, mid, i, id) ensures Run(s, mid[..i]).db.rules[id].currentUpdateID == u {
          assert i < n ==> StampAt(s, init, i, id) && init[..i] == mid[..i];
        }
      }
    }
  }

  /** What a client makes of a rule it has read. */
  predicate MadeFrom(client: Client, copy: Rule) {
    match client
    case Idle => true
    case Reading(current) => current == copy
    case Ready(change) =>
      change.expectedCurrentUpdateID == ""
      || (change.rule.id == copy.id && change.rule.appliedUpdateID == copy.appliedUpdateID && change.expectedCurrentUpdateID == copy.currentUpdateID)
  }

  lemma {:induction false} HeldCopy(s: System, mid: seq<Op>, c: nat, copy: Rule)
    requires MadeFrom(ClientOf(s, c), copy) && forall i :: 0 <= i < |mid| ==> !(mid[i].Read? && mid[i].client == c)
    ensures MadeFrom(ClientOf(Run(s, mid), c), copy)
  {
    hide RuleSpecs.IsNormal, RuleSpecs.Normalizes, SignalExpected, Save, Mark;
    if mid != [] {
      HeldCopy(s, mid[..|mid| - 1], c, copy);
    }
  }

  /** Between a client's read of a rule and the save of what it made of it, a publication has stamped the rule with an update
      other than the one the client read as applied. */
  ghost predicate StampedMeanwhile(s: System, mid: seq<Op>, id: Id, mark: Id) {
    exists i :: StampAt(s, mid, i, id) && Run(s, mid[..i]).db.rules[id].currentUpdateID != mark
  }

  /** In every run: a saved change to a rule leaves its applied update as it is by then if and only if no publication has stamped
      the rule with a new value between the client's read and its submission. */
  lemma SaveKeepsMarkIff(before: seq<Op>, c: nat, id: Id, mid: seq<Op>)
    requires id in Run(INIT, before).db.rules
    requires forall i :: 0 <= i < |mid| ==> !(mid[i].Read? && mid[i].client == c)
    requires var t := Run(INIT, before + [Read(c, id)] + mid);
             ClientOf(t, c).Ready? && ClientOf(t, c).change.rule.id == id && Verdict(t.db, ClientOf(t, c).change) == Saved
    ensures var read, t := Run(INIT, before + [Read(c, id)]), Run(INIT, before + [Read(c, id)] + mid);
            && id in t.db.rules && id in RuleProtocol.Step(t, Submit(c)).db.rules && id in read.db.rules
            && (RuleProtocol.Step(t, Submit(c)).db.rules[id].appliedUpdateID == t.db.rules[id].appliedUpdateID <==>
                  !StampedMeanwhile(read, mid, id, read.db.rules[id].appliedUpdateID))
  {
    hide Inv, Run, StampAt, NameTaken;
    var read := Run(INIT, before + [Read(c, id)]);
    var t := Run(INIT, before + [Read(c, id)] + mid);
    ReadHolds(before, c, id);
    RunAppend(INIT, before + [Read(c, id)], mid);
    ReachableInv(before + [Read(c, id)]);
    HasRecord(read, id);
    MarkHistory(read, mid, id);
    HeldCopy(read, mid, c, read.db.rules[id]);
    assert t.db.rules[id].currentUpdateID == read.db.rules[id].currentUpdateID;
  }

  lemma ReadHolds(before: seq<Op>, c: nat, id: Id)
    requires id in Run(INIT, before).db.rules
    ensures var read := Run(INIT, before + [Read(c, id)]);
            id in read.db.rules && ClientOf(read, c) == Reading(read.db.rules[id])
  {
    assert (before + [Read(c, id)])[..|before|] == before;
  }

  lemma HasRecord(s: System, id: Id)
    requires Inv(s) && id in s.db.rules
    ensures s.db.rules[id].currentUpdateID in s.db.updates && s.db.rules[id].id == id
  {
    hide IsChain, AppliedOk, RecordOk;
  }

  /** A publication stamps exactly the rules on its endpoint and of its signal, at the update they are at; to every other rule, over
      every run, nothing happens. */
  lemma PublicationMarks(ops: seq<Op>, op: Op, id: Id)
    requires op.Publish? && id in Run(INIT, ops).db.rules
    ensures var before, after := Run(INIT, ops).db.rules[id], RuleProtocol.Step(Run(INIT, ops), op).db.rules;
            var signal := ToLower(TrimSpace(before.spec.signalType));
            && id in after
            && (before.spec.scope.endpointID == op.endpointID && ToLower(TrimSpace(op.signalType)) == (if signal == "" then "logs" else signal)
                ==> after[id] == before.(applyStatus := Applied, appliedUpdateID := before.currentUpdateID))
            && (before.spec.scope.endpointID != op.endpointID ==> after[id] == before)
            && (ToLower(TrimSpace(op.signalType)) != (if signal == "" then "logs" else signal) ==> after[id] == before)
  {
    hide Run, TrimSpace, ToLower;
    MarkedIs(Run(INIT, ops).db.rules, op.endpointID, op.signalType);
  }
}
