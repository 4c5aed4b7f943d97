/** Publishing a collector group's configuration: the group's publish fields, the records of what was published, and the
    reports that say how it went. */
module CollectorPublish {
  import opened Text

  type Id = string

  datatype Group = Group(configVersion: int, desiredHash: string, appliedHash: string, status: string, message: string)

  datatype Version = Version(id: Id, groupID: Id, version: int, hash: string, yaml: string, status: string, message: string)

  datatype Store = Store(groups: map<Id, Group>, versions: map<Id, Version>)

  datatype Outcome = Ok | NotFound | InvalidRequest

  // ---------- Writing a group back ----------

  function PublishedGroup(g: Group, hash: string, message: string): Group {
    g.(configVersion := g.configVersion + 1, desiredHash := TrimSpace(hash), status := "pending", message := message)
  }

  predicate KnownStatus(status: string) { status == "applied" || status == "failed" || status == "applying" }

  /** A report counts only when it is about the desired configuration. */
  predicate Counts(g: Group, hash: string, status: string) {
    TrimSpace(hash) != "" && TrimSpace(hash) == g.desiredHash && KnownStatus(TrimSpace(status))
  }

  function DefaultMessage(status: string): string {
    if status == "applied" then "配置已应用" else if status == "failed" then "Collector 应用配置失败" else "Collector 正在应用配置"
  }

  function MessageFor(status: string, message: string): string {
    if TrimSpace(message) == "" then DefaultMessage(TrimSpace(status)) else message
  }

  function ReportedGroup(g: Group, hash: string, status: string, message: string): Group {
    if !Counts(g, hash, status) then g
    else
      g.(status := TrimSpace(status), appliedHash := if TrimSpace(status) == "applied" then TrimSpace(hash) else g.appliedHash,
         message := MessageFor(status, message))
  }

  // ---------- The records ----------

  predicate Matches(db: Store, id: Id, groupID: Id, hash: string) {
    id in db.versions && db.versions[id].groupID == groupID && db.versions[id].hash == hash
  }

  predicate Recorded(db: Store, groupID: Id, hash: string) {
    exists id :: id in db.versions && Matches(db, id, groupID, hash)
  }

  /** Some one record of the group with the reported hash takes the status; `chosen` is the one the store comes across. */
  function ReportedVersions(db: Store, groupID: Id, hash: string, status: string, message: string, chosen: Id): map<Id, Version> {
    if Matches(db, chosen, groupID, TrimSpace(hash))
    then db.versions[chosen := db.versions[chosen].(status := TrimSpace(status), message := MessageFor(status, message))]
    else db.versions
  }

  /** The record a publish leaves: its number is the group's new version, or, where that is zero, the next one. */
  function PublishedVersion(g: Group, id: Id, groupID: Id, hash: string, yaml: string, message: string): Version {
    Version(id, groupID, if g.configVersion == 0 then 1 else g.configVersion, hash, yaml, "pending", message)
  }

  /** `v` is a published record of the group with the highest number. */
  predicate IsLatest(db: Store, groupID: Id, v: Version) {
    && v.id in db.versions && db.versions[v.id] == v && v.groupID == groupID && v.status != "draft"
    && forall id :: id in db.versions && db.versions[id].groupID == groupID && db.versions[id].status != "draft" ==>
                      db.versions[id].version <= v.version
  }

  predicate HasPublished(db: Store, groupID: Id) {
    exists id :: id in db.versions && db.versions[id].groupID == groupID && db.versions[id].status != "draft"
  }

  // ---------- The service ----------

  class Service {
    var groups: map<Id, Group>
    var versions: map<Id, Version>

    ghost function Contents(): Store
      reads this
    {
      Store(groups, versions)
    }

    constructor ()
      ensures Contents() == Store(map[], map[])
    {
      groups, versions := map[], map[];
    }

    method MarkGroupPublishPending(id: Id, configHash: string, message: string) returns (outcome: Outcome)
      modifies this`groups
      ensures outcome == if id in old(groups) then Ok else NotFound
      ensures groups == if outcome == Ok then old(groups)[id := PublishedGroup(old(groups)[id], configHash, message)] else old(groups)
    {
      if id !in groups {
        return NotFound;
      }
      var group := groups[id];
      group := group.(configVersion := group.configVersion + 1);
      group := group.(desiredHash := TrimSpace(configHash));
      group := group.(status := "pending", message := message);
      groups := groups[id := group];
      return Ok;
    }

    method CreateConfigVersion(record: Version, newID: Id) returns (outcome: Outcome, created: Version)
      modifies this`versions
      ensures outcome == if TrimSpace(record.groupID) == "" then InvalidRequest
                         else if record.version == 0 && record.groupID !in groups then NotFound else Ok
      ensures outcome == Ok ==>
                created == record.(id := if record.id == "" then newID else record.id,
                                   version := if record.version == 0 then groups[record.groupID].configVersion + 1 else record.version,
                                   status := if record.status == "" then "pending" else record.status)
      ensures versions == if outcome == Ok then old(versions)[created.id := created] else old(versions)
    {
      hide TrimSpace;
      created := record;
      if TrimSpace(record.groupID) == "" {
        return InvalidRequest, created;
      }
      if created.id == "" {
        created := created.(id := newID);
      }
      if created.version == 0 {
        if created.groupID !in groups {
          return NotFound, created;
        }
        created := created.(version := groups[created.groupID].configVersion + 1);
      }
      if created.status == "" {
        created := created.(status := "pending");
      }
      versions := versions[created.id := created];
      return Ok, created;
    }

    /** The two halves of a publish: mark the group, then record what it was given. */
    method PublishGroup(id: Id, configHash: string, yaml: string, message: string, newID: Id) returns (outcome: Outcome)
      requires newID != ""
      modifies this
      ensures outcome == if id !in old(groups) then NotFound else if TrimSpace(id) == "" then InvalidRequest else Ok
      ensures outcome == Ok ==> Contents() == Step(old(Contents()), Publish(id, configHash, yaml, message, newID))
      ensures outcome == NotFound ==> Contents() == old(Contents())
    {
      hide TrimSpace;
      outcome := MarkGroupPublishPending(id, configHash, message);
      if outcome != Ok {
        return;
      }
      var record := Version("", id, groups[id].configVersion, configHash, yaml, "pending", message);
      var created;
      outcome, created := CreateConfigVersion(record, newID);
    }

    method UpdateStatusByGroupAndHash(groupID: Id, configHash: string, status: string, message: string) returns (outcome: Outcome, ghost chosen: Id)
      modifies this`versions
      ensures outcome == if Recorded(old(Contents()), groupID, configHash) then Ok else NotFound
      ensures outcome == Ok <==> exists id :: id in old(versions) && old(versions)[id].groupID == groupID && old(versions)[id].hash == configHash
      ensures outcome == Ok ==> chosen in old(versions) && old(versions)[chosen].groupID == groupID && old(versions)[chosen].hash == configHash
      ensures outcome == Ok ==> Matches(old(Contents()), chosen, groupID, configHash)
                                && versions == old(versions)[chosen := old(versions)[chosen].(status := status, message := message)]
      ensures outcome != Ok ==> versions == old(versions)
    {
      chosen := "";
      var todo := versions.Keys;
      while todo != {}
        invariant todo <= versions.Keys && versions == old(versions)
        invariant forall id :: id in versions && id !in todo ==> !Matches(old(Contents()), id, groupID, configHash)
      {
        var id :| id in todo;
        todo := todo - {id};
        if versions[id].groupID == groupID && versions[id].hash == configHash {
          assert Matches(old(Contents()), id, groupID, configHash);
          versions := versions[id := versions[id].(status := status, message := message)];
          return Ok, id;
        }
      }
      outcome := NotFound;
    }

    /** A report about anything but the desired configuration, or with an unknown status, changes nothing. */
    method MarkGroupConfigStatus(groupID: Id, configHash: string, status: string, message: string) returns (outcome: Outcome, ghost chosen: Id)
      modifies this
      ensures groupID !in old(groups) ==> outcome == NotFound && Contents() == old(Contents())
      ensures groupID in old(groups) ==> CanStep(old(Contents()), Report(groupID, configHash, status, message, chosen))
                                         && Contents() == Step(old(Contents()), Report(groupID, configHash, status, message, chosen))
      ensures groupID in old(groups) ==>
                (outcome == NotFound <==> Counts(old(groups)[groupID], configHash, status)
                                          && !Recorded(old(Contents()), groupID, TrimSpace(configHash)))
    {
      hide TrimSpace;
      chosen := "";
      if groupID !in groups {
        return NotFound, chosen;
      }
      var group := groups[groupID];
      var trimmed, hash, text := TrimSpace(status), TrimSpace(configHash), message;
      if hash == "" || hash != group.desiredHash {
        return Ok, chosen;
      }
      match trimmed {
        case "applied" =>
          group := group.(status := "applied", appliedHash := hash);
        case "failed" =>
          group := group.(status := "failed");
        case "applying" =>
          group := group.(status := "applying");
        case _ =>
          return Ok, chosen;
      }
      if TrimSpace(text) == "" {
        text := DefaultMessage(trimmed);
      }
      group := group.(message := text);
      groups := groups[groupID := group];
      outcome, chosen := UpdateStatusByGroupAndHash(groupID, hash, trimmed, text);
    }

    method LatestConfigVersion(groupID: Id) returns (latest: Option<Version>)
      requires forall id :: id in versions ==> versions[id].id == id
      ensures latest.Some? <==> HasPublished(Contents(), groupID)
      ensures latest.Some? ==> IsLatest(Contents(), groupID, latest.value)
      ensures latest.None? ==> forall id :: id in versions && versions[id].groupID == groupID ==> versions[id].status == "draft"
      ensures latest.Some? ==>
                && latest.value.id in versions && versions[latest.value.id] == latest.value
                && latest.value.groupID == groupID && latest.value.status != "draft"
                && forall id :: id in versions && versions[id].groupID == groupID && versions[id].status != "draft" ==>
                                  versions[id].version <= latest.value.version
    {
      latest := None;
      var todo := versions.Keys;
      while todo != {}
        invariant todo <= versions.Keys
        invariant latest.None? ==> forall id :: id in versions && id !in todo ==> versions[id].groupID != groupID || versions[id].status == "draft"
        invariant latest.Some? ==>
                    && latest.value.id in versions && versions[latest.value.id] == latest.value
                    && latest.value.groupID == groupID && latest.value.status != "draft"
                    && forall id :: id in versions && id !in todo && versions[id].groupID == groupID && versions[id].status != "draft" ==>
                                      versions[id].version <= latest.value.version
      {
        var id :| id in todo;
        todo := todo - {id};
        var version := versions[id];
        if version.groupID == groupID && version.status != "draft" && (latest.None? || version.version > latest.value.version) {
          latest := Some(version);
        }
      }
    }
  }

  // ---------- Runs of publishes and reports ----------

  datatype Op =
    | Publish(groupID: Id, hash: string, yaml: string, message: string, newID: Id)
    | Report(groupID: Id, hash: string, status: string, message: string, chosen: Id)

  /** Record ids are generated, and a report's status goes to a record with its hash where there is one. */
  predicate CanStep(db: Store, op: Op) {
    && op.groupID in db.groups
    && (op.Publish? ==> op.newID !in db.versions)
    && (op.Report? && Counts(db.groups[op.groupID], op.hash, op.status) && Recorded(db, op.groupID, TrimSpace(op.hash)) ==>
          Matches(db, op.chosen, op.groupID, TrimSpace(op.hash)))
  }

  function Step(db: Store, op: Op): Store
    requires op.groupID in db.groups
  {
    var g := db.groups[op.groupID];
    match op
    case Publish(groupID, hash, yaml, message, newID) =>
      var published := PublishedGroup(g, hash, message);
      Store(db.groups[groupID := published], db.versions[newID := PublishedVersion(published, newID, groupID, hash, yaml, message)])
    case Report(groupID, hash, status, message, chosen) =>
      if !Counts(g, hash, status) then db
      else Store(db.groups[groupID := ReportedGroup(g, hash, status, message)], ReportedVersions(db, groupID, hash, status, message, chosen))
  }

  /** The store after a run, if every step of it can be taken. */
  function After(db: Store, ops: seq<Op>): Option<Store> {
    if ops == [] then Some(db)
    else
      match After(db, ops[..|ops| - 1])
      case None => None
      case Some(before) => if CanStep(before, ops[|ops| - 1]) then Some(Step(before, ops[|ops| - 1])) else None
  }

  predicate PublishesFor(op: Op, groupID: Id) { op.Publish? && op.groupID == groupID }

  function PublishCount(ops: seq<Op>, groupID: Id): nat {
    if ops == [] then 0 else PublishCount(ops[..|ops| - 1], groupID) + if PublishesFor(ops[|ops| - 1], groupID) then 1 else 0
  }

  /** The hash last published for the group. */
  function LastPublished(ops: seq<Op>, groupID: Id): Option<string> {
    if ops == [] then None
    else if PublishesFor(ops[|ops| - 1], groupID) then Some(ops[|ops| - 1].hash)
    else LastPublished(ops[..|ops| - 1], groupID)
  }

  /** A group as it is before anything was published for it. */
  predicate Unpublished(db: Store, groupID: Id) {
    && groupID in db.groups && db.groups[groupID].configVersion >= 0 && db.groups[groupID].status != "applied"
    && (forall id :: id in db.versions ==> db.versions[id].id == id && db.versions[id].groupID != groupID)
  }

  predicate RecordOk(v: Version, id: Id, groupID: Id, g: Group, hash: Option<string>) {
    && v.id == id
    && (v.groupID == groupID ==> v.status != "draft" && v.version <= g.configVersion
                                 && (v.version == g.configVersion ==> hash == Some(v.hash)))
  }

  predicate HasCurrent(db: Store, groupID: Id)
    requires groupID in db.groups
  {
    exists id :: id in db.versions && db.versions[id].groupID == groupID && db.versions[id].version == db.groups[groupID].configVersion
  }

  /** What holds for a group after `count` publishes, the last of `hash`. */
  predicate Inv(db: Store, groupID: Id, first: int, count: nat, hash: Option<string>)
    requires groupID in db.groups
  {
    var g := db.groups[groupID];
    && first >= 0 && g.configVersion == first + count
    && (hash.Some? <==> count > 0)
    && (hash.Some? ==> g.desiredHash == TrimSpace(hash.value) && HasCurrent(db, groupID))
    && (g.status == "applied" ==> g.appliedHash == g.desiredHash)
    && forall id :: id in db.versions ==> RecordOk(db.versions[id], id, groupID, g, hash)
  }

  lemma PublishKeepsInv(db: Store, op: Op, groupID: Id, first: int, count: nat, hash: Option<string>)
    requires groupID in db.groups && Inv(db, groupID, first, count, hash) && CanStep(db, op) && PublishesFor(op, groupID)
    ensures Inv(Step(db, op), groupID, first, count + 1, Some(op.hash))
  {
    hide TrimSpace;
    var after := Step(db, op);
    assert op.newID in after.versions && after.versions[op.newID].version == after.groups[groupID].configVersion;
    forall id | id in after.versions ensures RecordOk(after.versions[id], id, groupID, after.groups[groupID], Some(op.hash)) {
      if id != op.newID {
        assert RecordOk(db.versions[id], id, groupID, db.groups[groupID], hash);
      }
    }
  }

  lemma CurrentStays(db: Store, after: Store, groupID: Id)
    requires groupID in db.groups && groupID in after.groups && HasCurrent(db, groupID)
    requires after.groups[groupID].configVersion == db.groups[groupID].configVersion
    requires forall id :: id in db.versions ==> id in after.versions && after.versions[id].groupID == db.versions[id].groupID
                                                && after.versions[id].version == db.versions[id].version
    ensures HasCurrent(after, groupID)
  {
    var id :| id in db.versions && db.versions[id].groupID == groupID && db.versions[id].version == db.groups[groupID].configVersion;
    assert id in after.versions;
  }

  lemma OtherKeepsInv(db: Store, op: Op, groupID: Id, first: int, count: nat, hash: Option<string>)
    requires groupID in db.groups && Inv(db, groupID, first, count, hash) && CanStep(db, op) && !PublishesFor(op, groupID)
    ensures groupID in Step(db, op).groups && Inv(Step(db, op), groupID, first, count, hash)
  {
    hide TrimSpace, HasCurrent;
    var after := Step(db, op);
    forall id | id in after.versions ensures RecordOk(after.versions[id], id, groupID, after.groups[groupID], hash) {
      if id in db.versions {
        assert RecordOk(db.versions[id], id, groupID, db.groups[groupID], hash);
      }
    }
    if hash.Some? {
      CurrentStays(db, after, groupID);
    }
  }

  lemma {:induction false} RunKeepsInv(db: Store, ops: seq<Op>, groupID: Id)
    requires Unpublished(db, groupID) && After(db, ops).Some?
    ensures groupID in After(db, ops).value.groups
    ensures Inv(After(db, ops).value, groupID, db.groups[groupID].configVersion, PublishCount(ops, groupID), LastPublished(ops, groupID))
  {
    hide CanStep, Step, Inv, PublishesFor;
    if ops == [] {
      StartsInv(db, groupID);
    } else {
      var n := |ops| - 1;
      RunKeepsInv(db, ops[..n], groupID);
      var before := After(db, ops[..n]).value;
      if PublishesFor(ops[n], groupID) {
        PublishKeepsInv(before, ops[n], groupID, db.groups[groupID].configVersion, PublishCount(ops[..n], groupID), LastPublished(ops[..n], groupID));
        PublishStays(before, ops[n], groupID);
      } else {
        OtherKeepsInv(before, ops[n], groupID, db.groups[groupID].configVersion, PublishCount(ops[..n], groupID), LastPublished(ops[..n], groupID));
      }
    }
  }

  lemma PublishStays(db: Store, op: Op, groupID: Id)
    requires groupID in db.groups && PublishesFor(op, groupID)
    ensures groupID in Step(db, op).groups
  {}

  lemma StartsInv(db: Store, groupID: Id)
    requires Unpublished(db, groupID)
    ensures Inv(db, groupID, db.groups[groupID].configVersion, 0, None)
  {}

  /** After any run the group's version has grown by one for each publish, so every publish gets a higher version than all
      before it. */
  lemma VersionCountsPublishes(db: Store, ops: seq<Op>, groupID: Id)
    requires Unpublished(db, groupID) && After(db, ops).Some?
    ensures groupID in After(db, ops).value.groups
    ensures After(db, ops).value.groups[groupID].configVersion == db.groups[groupID].configVersion + PublishCount(ops, groupID)
  {
    hide After, HasCurrent, RecordOk, PublishCount, Unpublished;
    RunKeepsInv(db, ops, groupID);
  }

  /** Once something was published, the latest record carries the group's version and the hash last published, and that hash
      is the desired one exactly when it has no space around it. */
  lemma LatestIsDesired(db: Store, ops: seq<Op>, groupID: Id, v: Version)
    requires Unpublished(db, groupID) && After(db, ops).Some? && LastPublished(ops, groupID).Some?
    requires IsLatest(After(db, ops).value, groupID, v)
    ensures groupID in After(db, ops).value.groups
    ensures var g := After(db, ops).value.groups[groupID];
            && v.version == g.configVersion && Some(v.hash) == LastPublished(ops, groupID)
            && g.desiredHash == TrimSpace(v.hash) && (v.hash == g.desiredHash <==> Trimmed(v.hash))
  {
    hide After, PublishCount, Unpublished, LastPublished;
    RunKeepsInv(db, ops, groupID);
    var after := After(db, ops).value;
    var id :| id in after.versions && after.versions[id].groupID == groupID && after.versions[id].version == after.groups[groupID].configVersion;
    assert RecordOk(after.versions[id], id, groupID, after.groups[groupID], LastPublished(ops, groupID));
    assert RecordOk(v, v.id, groupID, after.groups[groupID], LastPublished(ops, groupID));
    if Trimmed(v.hash) {
      TrimTrimmed(v.hash);
    }
  }

  /** A latest record is there to be found. */
  lemma SomethingIsPublished(db: Store, ops: seq<Op>, groupID: Id)
    requires Unpublished(db, groupID) && After(db, ops).Some? && LastPublished(ops, groupID).Some?
    ensures HasPublished(After(db, ops).value, groupID)
  {
    hide After, PublishCount, Unpublished, LastPublished, TrimSpace;
    RunKeepsInv(db, ops, groupID);
    var after := After(db, ops).value;
    var id :| id in after.versions && after.versions[id].groupID == groupID && after.versions[id].version == after.groups[groupID].configVersion;
    assert RecordOk(after.versions[id], id, groupID, after.groups[groupID], LastPublished(ops, groupID));
  }

  /** In every reachable state, "applied" means that the desired configuration is the one last applied. */
  lemma {:induction false} AppliedIsDesired(db: Store, ops: seq<Op>, groupID: Id)
    requires Unpublished(db, groupID) && After(db, ops).Some?
    ensures groupID in After(db, ops).value.groups
    ensures After(db, ops).value.groups[groupID].status == "applied" ==>
              After(db, ops).value.groups[groupID].appliedHash == After(db, ops).value.groups[groupID].desiredHash
  {
    hide After, HasCurrent, RecordOk, PublishCount, Unpublished;
    RunKeepsInv(db, ops, groupID);
  }

  /** A report changes the store only if it is about the desired configuration, and then only statuses, messages and the
      applied hash. */
  lemma ReportsTouchStatusOnly(db: Store, op: Op)
    requires CanStep(db, op) && op.Report?
    ensures var after := Step(db, op);
            && after.groups.Keys == db.groups.Keys && after.versions.Keys == db.versions.Keys
            && (forall id :: id in db.groups ==> after.groups[id].configVersion == db.groups[id].configVersion
                                                 && after.groups[id].desiredHash == db.groups[id].desiredHash)
            && (forall id :: id in db.versions ==> after.versions[id].version == db.versions[id].version
                                                   && after.versions[id].hash == db.versions[id].hash)
            && (after != db ==> Counts(db.groups[op.groupID], op.hash, op.status))
  {
    hide TrimSpace;
  }

  // ---------- Each step, field by field ----------

  /** A publish raises the group's version by one, sets what is desired, and leaves a pending record of it. */
  lemma PublishWrites(db: Store, groupID: Id, hash: string, yaml: string, message: string, newID: Id)
    requires groupID in db.groups
    ensures var g, after := db.groups[groupID], Step(db, Publish(groupID, hash, yaml, message, newID));
            && after.groups == db.groups[groupID := Group(g.configVersion + 1, TrimSpace(hash), g.appliedHash, "pending", message)]
            && after.versions == db.versions[newID := Version(newID, groupID, if g.configVersion == -1 then 1 else g.configVersion + 1,
                                                              hash, yaml, "pending", message)]
  {
    hide TrimSpace;
  }

  /** A report is heeded when it is about the desired hash and says applied, failed or applying. */
  lemma ReportWrites(db: Store, groupID: Id, hash: string, status: string, message: string, chosen: Id)
    requires groupID in db.groups
    ensures var g, after := db.groups[groupID], Step(db, Report(groupID, hash, status, message, chosen));
            var said, about := TrimSpace(status), TrimSpace(hash);
            var text := if TrimSpace(message) != "" then message
                        else if said == "applied" then "配置已应用" else if said == "failed" then "Collector 应用配置失败"
                        else "Collector 正在应用配置";
            && (about == "" || about != g.desiredHash || said !in {"applied", "failed", "applying"} ==> after == db)
            && (about != "" && about == g.desiredHash && said in {"applied", "failed", "applying"} ==>
                  && after.groups == db.groups[groupID :=
                       Group(g.configVersion, g.desiredHash, if said == "applied" then about else g.appliedHash, said, text)]
                  && after.versions == if chosen in db.versions && db.versions[chosen].groupID == groupID && db.versions[chosen].hash == about
                                       then db.versions[chosen := db.versions[chosen].(status := said, message := text)] else db.versions)
  {
    hide TrimSpace;
  }
}
