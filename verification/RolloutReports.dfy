/** How agent reports taken in by the OpAMP manager reach the collector group's publish state. */
module RolloutReports {
  import opened Text
  import OpampFleet
  import opened CollectorPublish

  /** What the manager's sink passes on about an agent, if anything. */
  function SinkReport(state: OpampFleet.AgentState, chosen: Id): Option<Op> {
    if state.groupID != "" && state.lastConfigHash != ""
    then Some(Report(state.groupID, state.lastConfigHash, state.configStatus, state.lastError, chosen))
    else None
  }

  function Noted(db: Store, state: OpampFleet.AgentState, chosen: Id): Store {
    match SinkReport(state, chosen)
    case Some(op) => if op.groupID in db.groups then Step(db, op) else db
    case None => db
  }

  /** A state without a group or a hash passes nothing on, and any other says what it holds about its own group. */
  lemma NotedIs(db: Store, state: OpampFleet.AgentState, chosen: Id)
    ensures var g, about, said := state.groupID, TrimSpace(state.lastConfigHash), TrimSpace(state.configStatus);
            var counts := g != "" && g in db.groups && about != "" && about == db.groups[g].desiredHash && said in {"applied", "failed", "applying"};
            && (!counts ==> Noted(db, state, chosen) == db)
            && (counts ==>
                  && (forall other :: other in Noted(db, state, chosen).groups <==> other in db.groups)
                  && (forall other :: other in db.groups && other != g ==> Noted(db, state, chosen).groups[other] == db.groups[other])
                  && var after := Noted(db, state, chosen).groups[g];
                     && after.status == said && after.desiredHash == about && after.configVersion == db.groups[g].configVersion
                     && (TrimSpace(state.lastError) != "" ==> after.message == state.lastError)
                     && after.appliedHash == if said == "applied" then about else db.groups[g].appliedHash)
  {
    TrimTrimmed("");
    hide TrimSpace;
    if state.groupID != "" && state.groupID in db.groups && state.lastConfigHash != "" {
      ReportWrites(db, state.groupID, state.lastConfigHash, state.configStatus, state.lastError, chosen);
    }
  }

  predicate Succeeded(db: Store, groupID: Id) {
    groupID in db.groups && db.groups[groupID].status == "applied" && db.groups[groupID].appliedHash == db.groups[groupID].desiredHash
  }

  lemma HexTrimmed(hash: string)
    requires OpampFleet.IsHex(hash)
    ensures TrimSpace(hash) == hash
  {
    hide TrimSpace;
    TrimTrimmed(hash);
  }

  lemma AppliedReportSucceeds(db: Store, state: OpampFleet.AgentState, chosen: Id)
    requires state.groupID in db.groups && state.groupID != "" && state.lastConfigHash != "" && OpampFleet.IsHex(state.lastConfigHash)
    requires db.groups[state.groupID].desiredHash == state.lastConfigHash && state.configStatus == "applied"
    ensures Succeeded(Noted(db, state, chosen), state.groupID)
  {
    hide TrimSpace;
    HexTrimmed(state.lastConfigHash);
    TrimTrimmed("applied");
  }

  /** When a member reports that it applied the deployment published for its group, echoing its hash, the deployment stops
      being pending and the group counts as published. */
  lemma RolloutEndsApplied(f: OpampFleet.Fleet, db: Store, g: Id, conn: Option<OpampFleet.Conn>, m: OpampFleet.Message, now: int, chosen: Id)
    requires g != "" && g in db.groups && g in f.groupPending && OpampFleet.ResolvedGroup(f, m) == g
    requires OpampFleet.IsHex(f.groupPending[g].configHash) && f.groupPending[g].configHash != ""
    requires db.groups[g].desiredHash == f.groupPending[g].configHash
    requires OpampFleet.ReportsApplied(m) && m.remoteStatus.value.lastHash == f.groupPending[g].configHash
    ensures g !in OpampFleet.Received(f, conn, m, now).groupPending
    ensures Succeeded(Noted(db, OpampFleet.ReportedState(f, m, now), chosen), g)
  {
    hide OpampFleet.Received, OpampFleet.HashToText, OpampFleet.ResolvedGroup, Noted, Succeeded;
    OpampFleet.HonestAcknowledgementIff(f, conn, m, now, g);
    OpampFleet.EchoedHashIff(f.groupPending[g].configHash);
    AppliedReportSucceeds(db, OpampFleet.ReportedState(f, m, now), chosen);
  }

  lemma HexText(hash: string)
    ensures OpampFleet.IsHex(OpampFleet.HashToText(hash))
  {}

  /** A report settles the group exactly when it is of the desired configuration, as applied. */
  lemma SettlesIff(db: Store, state: OpampFleet.AgentState, chosen: Id)
    requires state.groupID in db.groups && state.groupID != "" && OpampFleet.IsHex(state.lastConfigHash)
    requires db.groups[state.groupID].status == "pending" && db.groups[state.groupID].desiredHash != ""
    requires state.configStatus in {"applied", "applying", "failed", "unset"}
    ensures Succeeded(Noted(db, state, chosen), state.groupID) <==>
            state.configStatus == "applied" && state.lastConfigHash == db.groups[state.groupID].desiredHash
  {
    hide TrimSpace;
    HexTrimmed(state.lastConfigHash);
    TrimTrimmed(state.configStatus);
  }

  /** The deployment is sent before the group is marked, so a quick member's acknowledgement may find a group that does not
      want its configuration yet, and changes nothing. What the agent's next message passes on then decides: a message without
      a status repeats the last one. The publish is complete exactly when that message has none, or again says that this
      configuration is applied. */
  lemma EarlyAcknowledgementIsRepeated(f: OpampFleet.Fleet, db: Store, g: Id, early: OpampFleet.Message, next: OpampFleet.Message,
                                       conn: Option<OpampFleet.Conn>, now: int, later: int, publish: Op, chosen: Id)
    requires g != "" && g in db.groups && publish.Publish? && publish.groupID == g
    requires OpampFleet.IsHex(publish.hash) && publish.hash != "" && db.groups[g].desiredHash != publish.hash
    requires OpampFleet.ResolvedGroup(f, early) == g && OpampFleet.ReportsApplied(early) && early.remoteStatus.value.lastHash == publish.hash
    requires OpampFleet.UidOf(next) == OpampFleet.UidOf(early)
    requires OpampFleet.ResolvedGroup(OpampFleet.Received(f, conn, early, now), next) == g
    ensures Noted(db, OpampFleet.ReportedState(f, early, now), chosen) == db
    ensures var received := OpampFleet.Received(f, conn, early, now);
            Succeeded(Noted(Step(db, publish), OpampFleet.ReportedState(received, next, later), chosen), g) <==>
              next.remoteStatus.None?
              || (OpampFleet.ReportsApplied(next) && OpampFleet.HashToText(next.remoteStatus.value.lastHash) == publish.hash)
  {
    hide OpampFleet.HashToText, OpampFleet.ResolvedGroup, OpampFleet.InstanceUIDToText, TrimSpace, Succeeded;
    OpampFleet.EchoedHashIff(publish.hash);
    HexTrimmed(publish.hash);
    if next.remoteStatus.Some? {
      HexText(next.remoteStatus.value.lastHash);
    }
    SettlesIff(Step(db, publish), OpampFleet.ReportedState(OpampFleet.Received(f, conn, early, now), next, later), chosen);
  }
}
