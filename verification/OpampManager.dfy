/** The OpAMP manager: the maps it updates under its lock, tied to the fleet they stand for. */
module OpampManager {
  import opened Text
  import opened OpampFleet

  /** The text last given for each key; blank texts do not count. */
  method AttributeTexts(attributes: seq<Attribute>) returns (texts: map<string, string>)
    ensures forall key :: Get(texts, key, "") == LastText(attributes, key)
  {
    hide TrimSpace;
    texts := map[];
    for i := 0 to |attributes|
      invariant forall key :: Get(texts, key, "") == LastText(attributes[..i], key)
    {
      assert attributes[..i + 1][..i] == attributes[..i];
      if TrimSpace(attributes[i].text) != "" {
        texts := texts[attributes[i].key := attributes[i].text];
      }
    }
    assert attributes[..|attributes|] == attributes;
  }

  method FirstAttribute(texts: map<string, string>, keys: seq<string>) returns (value: string)
    ensures forall i :: 0 <= i < |keys| && (forall j :: 0 <= j < i ==> TrimSpace(Get(texts, keys[j], "")) == "")
                        && TrimSpace(Get(texts, keys[i], "")) != "" ==>
                          value == TrimSpace(Get(texts, keys[i], ""))
    ensures (forall i :: 0 <= i < |keys| ==> TrimSpace(Get(texts, keys[i], "")) == "") ==> value == ""
  {
    hide TrimSpace;
    for i := 0 to |keys|
      invariant forall j :: 0 <= j < i ==> TrimSpace(Get(texts, keys[j], "")) == ""
    {
      value := TrimSpace(Get(texts, keys[i], ""));
      if value != "" {
        return;
      }
    }
    value := "";
  }

  method DescribeGroup(d: Description) returns (g: GroupID)
    ensures g == DescribedGroup(d)
  {
    hide TrimSpace, LastText;
    var texts := AttributeTexts(d.identifying + d.nonIdentifying);
    var keys := ["novaapm.collector.group_id", "collector_group_id"];
    g := FirstAttribute(texts, keys);
    assert keys[0] == "novaapm.collector.group_id" && keys[1] == "collector_group_id";
    assert TrimSpace("") == "" by { TrimTrimmed(""); }
  }

  /** An agent's state and detail after a report, and the group it counts for; `registered` is the group it is registered in. */
  method Report(was: AgentState, wasDetail: Detail, registered: GroupID, service: string, message: Message, now: int)
    returns (state: AgentState, detail: Detail, groupID: GroupID)
    ensures groupID == if message.description.Some? && DescribedGroup(message.description.value) != "" then DescribedGroup(message.description.value)
                       else registered
    ensures state == StateAfter(was, groupID, service, message, now)
    ensures detail == DetailAfter(wasDetail, state, message, now)
  {
    hide InstanceUIDToText, HashToText, DescribedGroup, Capable;
    groupID := registered;
    state := was.(instanceUID := InstanceUIDToText(message.instanceUID), groupID := groupID, serviceID := service,
                  online := true, capable := Capable(message), lastSeen := now);
    detail := wasDetail.(state := state, lastSeen := now);
    if message.health.Some? {
      state := state.(healthy := message.health.value.healthy, healthSet := true, lastError := message.health.value.lastError);
    } else {
      state := state.(healthSet := false);
    }
    if message.description.Some? {
      detail := detail.(identifying := message.description.value.identifying, nonIdentifying := message.description.value.nonIdentifying);
      var described := DescribeGroup(message.description.value);
      if described != "" {
        state := state.(groupID := described);
        groupID := described;
      }
    }
    if message.effective.Some? {
      state := state.(effectiveHash := message.effective.value.hash);
      detail := detail.(effectiveFiles := message.effective.value.files);
    }
    if message.remoteStatus.Some? {
      var status := message.remoteStatus.value;
      state := state.(configStatus := StatusText(status.status), lastConfigHash := HashToText(status.lastHash), lastError := status.error);
    }
    detail := detail.(state := state);
  }

  class Manager {
    var agents: map<Uid, AgentState>
    var details: map<Uid, Detail>
    var pending: map<Uid, Deployment>
    var groupPending: map<GroupID, Deployment>
    var instanceGroups: map<Uid, GroupID>
    var serviceAgents: map<Uid, string>
    var connectionUIDs: map<Conn, Uid>
    var uidConnections: map<Uid, Conn>

    ghost function Contents(): Fleet
      reads this
    {
      Fleet(agents, details, pending, groupPending, instanceGroups, serviceAgents, connectionUIDs, uidConnections)
    }

    constructor ()
      ensures Contents() == EMPTY_FLEET
    {
      agents, details, pending, groupPending := map[], map[], map[], map[];
      instanceGroups, serviceAgents, connectionUIDs, uidConnections := map[], map[], map[], map[];
    }

    method QueueDeployment(deployment: Deployment)
      modifies this
      ensures Contents() == Step(old(Contents()), Queue(deployment))
    {
      var uid := deployment.instanceUID;
      if uid == "" {
        uid := "default";
      }
      pending := pending[uid := deployment];
    }

    method QueueGroupDeployment(groupID: GroupID, deployment: Deployment)
      modifies this
      ensures Contents() == Step(old(Contents()), QueueGroup(groupID, deployment))
    {
      groupPending := groupPending[groupID := deployment];
    }

    method RegisterInstanceGroup(uid: Uid, groupID: GroupID)
      modifies this
      ensures Contents() == Step(old(Contents()), RegisterGroup(uid, groupID))
    {
      instanceGroups := instanceGroups[uid := groupID];
      var state := Get(agents, uid, UNKNOWN_AGENT);
      state := state.(instanceUID := uid, groupID := groupID);
      serviceAgents := serviceAgents - {uid};
      state := state.(serviceID := "");
      agents := agents[uid := state];
    }

    method UnregisterInstanceGroup(uid: Uid)
      modifies this
      ensures Contents() == Step(old(Contents()), UnregisterGroup(uid))
    {
      instanceGroups := instanceGroups - {uid};
      var state := Get(agents, uid, UNKNOWN_AGENT);
      agents := agents[uid := state.(instanceUID := uid, groupID := "")];
    }

    method RegisterInstanceService(uid: Uid, serviceID: string)
      modifies this
      ensures Contents() == Step(old(Contents()), RegisterService(uid, serviceID))
    {
      serviceAgents := serviceAgents[uid := serviceID];
      instanceGroups := instanceGroups - {uid};
      var state := Get(agents, uid, UNKNOWN_AGENT);
      agents := agents[uid := state.(instanceUID := uid, serviceID := serviceID, groupID := "")];
    }

    method UnregisterInstanceService(uid: Uid)
      modifies this
      ensures Contents() == Step(old(Contents()), UnregisterService(uid))
    {
      serviceAgents := serviceAgents - {uid};
      var state := Get(agents, uid, UNKNOWN_AGENT);
      agents := agents[uid := state.(instanceUID := uid, serviceID := "")];
    }

    method MarkConnectionClosed(conn: Conn, now: int)
      modifies this
      ensures Contents() == Step(old(Contents()), Close(conn, now))
    {
      var uid := Get(connectionUIDs, conn, "");
      connectionUIDs := connectionUIDs - {conn};
      if uid == "" {
        return;
      }
      var state := Get(agents, uid, UNKNOWN_AGENT);
      state := state.(instanceUID := uid, online := false, healthy := false, healthSet := true, lastSeen := now);
      agents := agents[uid := state];
      var detail := Get(details, uid, NO_DETAIL);
      details := details[uid := detail.(state := state, lastSeen := now)];
      uidConnections := uidConnections - {uid};
    }

    method RecordLastRemoteConfig(uid: Uid, deployment: Deployment)
      modifies this`details
      ensures Contents() == Step(old(Contents()), Record(uid, deployment))
    {
      var detail := Get(details, uid, NO_DETAIL);
      detail := detail.(state := Get(agents, uid, UNKNOWN_AGENT));
      detail := detail.(lastRemoteConfig := deployment.collectorYAML, lastRemoteHash := deployment.configHash);
      details := details[uid := detail.(lastSeen := detail.state.lastSeen)];
    }

    method Bind(conn: Option<Conn>, uid: Uid)
      modifies this`connectionUIDs, this`uidConnections
      ensures connectionUIDs == if conn.Some? then old(connectionUIDs)[conn.value := uid] else old(connectionUIDs)
      ensures uidConnections == if conn.Some? then old(uidConnections)[uid := conn.value] else old(uidConnections)
    {
      if conn.Some? {
        connectionUIDs := connectionUIDs[conn.value := uid];
        uidConnections := uidConnections[uid := conn.value];
      }
    }

    /** The part of taking in a message that holds the lock. */
    method TakeIn(conn: Option<Conn>, message: Message, now: int) returns (state: AgentState, answer: Option<Deployment>)
      modifies this
      ensures Contents() == Received(old(Contents()), conn, message, now)
      ensures state == ReportedState(old(Contents()), message, now)
      ensures answer == Answer(Contents(), message, ResolvedGroup(old(Contents()), message))
    {
      hide InstanceUIDToText, HashToText, DescribedGroup, StateAfter, DetailAfter, Capable, ReportsApplied, Answer;
      var uid := InstanceUIDToText(message.instanceUID);
      Bind(conn, uid);
      var groupID := Get(instanceGroups, uid, "");
      var detail;
      state, detail, groupID := Report(Get(agents, uid, UNKNOWN_AGENT), Get(details, uid, NO_DETAIL), groupID,
                                       Get(serviceAgents, uid, ""), message, now);
      if message.description.Some? && groupID != "" {
        instanceGroups := instanceGroups[uid := groupID];
      }
      Acknowledge(uid, groupID, message);
      agents := agents[uid := state];
      details := details[uid := detail];
      answer := ChooseAnswer(groupID, message);
    }

    method ChooseAnswer(groupID: GroupID, message: Message) returns (answer: Option<Deployment>)
      ensures answer == Answer(Contents(), message, groupID)
    {
      var uid := InstanceUIDToText(message.instanceUID);
      answer := None;
      if uid in pending {
        answer := Some(pending[uid]);
      }
      if groupID != "" && groupID in groupPending {
        answer := Some(groupPending[groupID]);
      }
      if !Capable(message) {
        answer := None;
      }
    }

    method Acknowledge(uid: Uid, groupID: GroupID, message: Message)
      modifies this`pending, this`groupPending
      ensures pending == if ReportsApplied(message) then old(pending) - {uid} else old(pending)
      ensures groupPending == if ReportsApplied(message) && groupID != "" && groupID in old(groupPending)
                                 && HashToText(message.remoteStatus.value.lastHash) == old(groupPending)[groupID].configHash
                              then old(groupPending) - {groupID} else old(groupPending)
    {
      hide HashToText;
      if message.remoteStatus.Some? && message.remoteStatus.value.status == Applied {
        pending := pending - {uid};
        if groupID != "" && groupID in groupPending && HashToText(message.remoteStatus.value.lastHash) == groupPending[groupID].configHash {
          groupPending := groupPending - {groupID};
        }
      }
    }

    /** `reported` is what the state sinks are told. */
    method HandleConnectionMessage(conn: Option<Conn>, message: Message, now: int)
      returns (reported: AgentState, answer: Option<Deployment>)
      modifies this
      ensures var received := Step(old(Contents()), Receive(conn, message, now));
              && answer == Answer(received, message, ResolvedGroup(old(Contents()), message))
              && Contents() == (if answer.Some? then Step(received, Record(UidOf(message), answer.value)) else received)
              && reported == received.agents[UidOf(message)]
    {
      hide InstanceUIDToText, ReportedDetail, ResolvedGroup, Answer;
      reported, answer := TakeIn(conn, message, now);
      if answer.Some? {
        RecordLastRemoteConfig(UidOf(message), answer.value);
      }
    }

    method GetAgentDetail(uid: Uid) returns (detail: Option<Detail>)
      ensures detail == DetailOf(Contents(), uid)
    {
      if uid in details {
        detail := Some(details[uid].(state := Get(agents, uid, UNKNOWN_AGENT)));
      } else if uid in agents {
        var state := agents[uid];
        detail := Some(NO_DETAIL.(state := state, lastSeen := state.lastSeen));
      } else {
        detail := None;
      }
    }

    /** The group is queued for first, so members that cannot be reached now get the deployment with their next message.
        `reachable` holds the connections a message can be sent over; the first failure stops the sending. */
    method SendGroupDeployment(groupID: GroupID, deployment: Deployment, reachable: set<Conn>)
      returns (count: nat, failed: bool, ghost sent: set<Uid>)
      modifies this
      ensures count == |Targets(old(Contents()), groupID)|
      ensures sent <= Targets(old(Contents()), groupID)
      ensures forall uid :: uid in sent ==> old(uidConnections)[uid] in reachable
      ensures !failed ==> sent == Targets(old(Contents()), groupID)
      ensures failed ==> exists uid :: uid in Targets(old(Contents()), groupID) && old(uidConnections)[uid] !in reachable
      ensures Contents() == RecordedAll(Step(old(Contents()), QueueGroup(groupID, deployment)), sent, deployment)
      ensures forall uid :: uid in sent ==>
                && uid in agents && agents[uid].groupID == groupID && agents[uid].online && agents[uid].capable && uid in uidConnections
                && uid in details && details[uid].lastRemoteConfig == deployment.collectorYAML
                && details[uid].lastRemoteHash == deployment.configHash
      ensures !failed ==> forall uid :: (uid in agents && agents[uid].groupID == groupID && agents[uid].online && agents[uid].capable
                                         && uid in uidConnections) ==> uid in sent
      ensures forall uid :: uid !in sent ==> (uid in details <==> uid in old(details))
                                             && (uid in details ==> details[uid] == old(details)[uid])
      ensures count == |set uid | uid in agents && agents[uid].groupID == groupID && agents[uid].online && agents[uid].capable
                                  && uid in uidConnections|
      ensures agents == old(agents) && uidConnections == old(uidConnections)
      ensures groupPending == old(groupPending)[groupID := deployment]
    {
      groupPending := groupPending[groupID := deployment];
      var targets := set uid | uid in agents && agents[uid].groupID == groupID && agents[uid].online && agents[uid].capable
                               && uid in uidConnections;
      assert targets == Targets(old(Contents()), groupID);
      count := |targets|;
      failed, sent := SendAll(targets, deployment, reachable);
    }

    method SendAll(targets: set<Uid>, deployment: Deployment, reachable: set<Conn>) returns (failed: bool, ghost sent: set<Uid>)
      requires targets <= uidConnections.Keys
      modifies this`details
      ensures sent <= targets && forall uid :: uid in sent ==> uidConnections[uid] in reachable
      ensures !failed ==> sent == targets
      ensures failed ==> exists uid :: uid in targets && uidConnections[uid] !in reachable
      ensures Contents() == RecordedAll(old(Contents()), sent, deployment)
    {
      hide RecordedAll, RecordedDetail;
      var todo := targets;
      sent := {};
      RecordedNone(Contents(), deployment);
      while todo != {}
        invariant todo <= targets && sent == targets - todo
        invariant forall uid :: uid in sent ==> uidConnections[uid] in reachable
        invariant Contents() == RecordedAll(old(Contents()), sent, deployment)
      {
        var uid :| uid in todo;
        todo := todo - {uid};
        if uidConnections[uid] !in reachable {
          return true, sent;
        }
        RecordedMore(old(Contents()), sent, uid, deployment);
        RecordLastRemoteConfig(uid, deployment);
        sent := sent + {uid};
      }
      failed := false;
    }
  }

  /** The members of a group a deployment is sent to right away. */
  function Targets(f: Fleet, g: GroupID): set<Uid> {
    set uid | uid in f.agents && f.agents[uid].groupID == g && f.agents[uid].online && f.agents[uid].capable && uid in f.uidConnections
  }

  function RecordedAll(f: Fleet, uids: set<Uid>, d: Deployment): Fleet {
    f.(details := map uid | uid in f.details.Keys + uids :: if uid in uids then RecordedDetail(f, uid, d) else f.details[uid])
  }

  lemma RecordedNone(f: Fleet, d: Deployment)
    ensures RecordedAll(f, {}, d) == f
  {
    assert RecordedAll(f, {}, d).details == f.details;
  }

  lemma RecordedMore(f: Fleet, uids: set<Uid>, uid: Uid, d: Deployment)
    requires uid !in uids
    ensures RecordedAll(f, uids + {uid}, d) == Step(RecordedAll(f, uids, d), Record(uid, d))
  {
    var now := RecordedAll(f, uids, d);
    assert RecordedDetail(now, uid, d) == RecordedDetail(f, uid, d);
    assert RecordedAll(f, uids + {uid}, d).details == Step(now, Record(uid, d)).details;
  }
}
