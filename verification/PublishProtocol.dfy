/** Publishing one collector group when calls overlap: each call reads the group, and writes it back as a whole later, so any
    number of clients may work from stale copies. All interleavings are runs of `Op`s. */
module PublishProtocol {
  import opened Text
  import opened CollectorPublish

  /** What a client is about: a publish, an agent's report, or a change of other fields of the group. */
  datatype Job = Publishing(hash: string, yaml: string, message: string) | Reporting(hash: string, status: string, message: string) | Editing

  /** What a client holds between its steps: the copy it read, then the record it still has to add or to note a status on. */
  datatype Call = Idle | Holding(read: Group, job: Job) | Recording(record: Version) | Noting(hash: string, status: string, message: string)

  /** `made` remembers the version and the hash of every publish written so far. */
  datatype System = System(groupID: Id, group: Group, records: map<Id, Version>, calls: map<nat, Call>, made: set<(int, string)>)

  function CallOf(s: System, c: nat): Call { if c in s.calls then s.calls[c] else Idle }

  datatype Op =
    | Read(client: nat, job: Job)
    | Write(client: nat)
    | Insert(client: nat, newID: Id)
    | Note(client: nat, chosen: Id)
    | Drop(client: nat)

  /** Whether a call writes the group at all: a report that does not count leaves it alone. */
  predicate Writes(read: Group, job: Job) { job.Reporting? ==> Counts(read, job.hash, job.status) }

  function Written(read: Group, job: Job): Group {
    match job
    case Publishing(hash, _, message) => PublishedGroup(read, hash, message)
    case Reporting(hash, status, message) => ReportedGroup(read, hash, status, message)
    case Editing => read
  }

  function Next(groupID: Id, read: Group, job: Job): Call {
    match job
    case Publishing(hash, yaml, message) => Recording(PublishedVersion(PublishedGroup(read, hash, message), "", groupID, hash, yaml, message))
    case Reporting(hash, status, message) => if Counts(read, hash, status) then Noting(hash, status, message) else Idle
    case Editing => Idle
  }

  function StoreOf(s: System): Store { Store(map[s.groupID := s.group], s.records) }

  predicate Possible(s: System, op: Op) {
    match op
    case Read(c, _) => CallOf(s, c).Idle?
    case Write(c) => CallOf(s, c).Holding?
    case Insert(c, newID) => CallOf(s, c).Recording? && newID !in s.records
    case Note(c, chosen) =>
      CallOf(s, c).Noting?
      && (Recorded(StoreOf(s), s.groupID, TrimSpace(CallOf(s, c).hash)) ==> Matches(StoreOf(s), chosen, s.groupID, TrimSpace(CallOf(s, c).hash)))
    case Drop(_) => true
  }

  /** One step; an impossible one changes nothing. */
  function Step(s: System, op: Op): System {
    if !Possible(s, op) then s
    else
      match op
      case Read(c, job) => s.(calls := s.calls[c := Holding(s.group, job)])
      case Write(c) =>
        var read, job := CallOf(s, c).read, CallOf(s, c).job;
        System(s.groupID, if Writes(read, job) then Written(read, job) else s.group, s.records, s.calls[c := Next(s.groupID, read, job)],
               if job.Publishing? then s.made + {(Written(read, job).configVersion, job.hash)} else s.made)
      case Insert(c, newID) => s.(records := s.records[newID := CallOf(s, c).record.(id := newID)], calls := s.calls[c := Idle])
      case Note(c, chosen) =>
        var call := CallOf(s, c);
        s.(records := ReportedVersions(StoreOf(s), s.groupID, call.hash, call.status, call.message, chosen), calls := s.calls[c := Idle])
      case Drop(c) => s.(calls := s.calls[c := Idle])
  }

  function Run(s: System, ops: seq<Op>): System {
    if ops == [] then s else Step(Run(s, ops[..|ops| - 1]), ops[|ops| - 1])
  }

  lemma RunSnoc(s: System, ops: seq<Op>, op: Op)
    ensures Run(s, ops + [op]) == Step(Run(s, ops), op)
  {
    hide Step;
    assert (ops + [op])[..|ops|] == ops;
  }

  lemma {:induction false} RunAppend(s: System, a: seq<Op>, b: seq<Op>)
    ensures Run(s, a + b) == Run(Run(s, a), b)
  {
    hide Step;
    if b == [] {
      assert a + b == a;
    } else {
      RunAppend(s, a, b[..|b| - 1]);
      assert (a + b)[..|a| + |b| - 1] == a + b[..|b| - 1];
    }
  }

  /** A group before anything was published for it, and no call under way. */
  predicate Fresh(s: System) {
    s.records == map[] && s.calls == map[] && s.made == {} && s.group.configVersion >= 0 && s.group.status != "applied"
  }

  // ---------- What survives every interleaving ----------

  /** Version and desired hash are those of one and the same publish. */
  predicate Published(g: Group, made: set<(int, string)>) {
    exists m :: m in made && m.0 == g.configVersion && TrimSpace(m.1) == g.desiredHash
  }

  /** A state the group may be in, or may have been read in, after at most `count` publishes. */
  predicate Coherent(g: Group, start: Group, made: set<(int, string)>, count: nat) {
    && start.configVersion <= g.configVersion <= start.configVersion + count
    && (g.status == "applied" ==> g.appliedHash == g.desiredHash)
    && ((g.configVersion == start.configVersion && g.desiredHash == start.desiredHash) || Published(g, made))
  }

  predicate RecordOf(v: Version, s: System) { v.groupID == s.groupID && (v.version, v.hash) in s.made }

  predicate CallOk(s: System, c: nat, start: Group, count: nat) {
    match CallOf(s, c)
    case Holding(read, _) => Coherent(read, start, s.made, count)
    case Recording(record) => RecordOf(record, s)
    case _ => true
  }

  ghost predicate Inv(s: System, start: Group, count: nat) {
    && Coherent(s.group, start, s.made, count)
    && (forall c: nat :: CallOk(s, c, start, count))
    && (forall id :: id in s.records ==> RecordOf(s.records[id], s))
    && |s.made| <= count
  }

  predicate WritesPublish(s: System, op: Op) { op.Write? && Possible(s, op) && CallOf(s, op.client).job.Publishing? }

  /** How many publishes a run has written. */
  function PublishWrites(s: System, ops: seq<Op>): nat {
    if ops == [] then 0
    else
      var before, op := Run(s, ops[..|ops| - 1]), ops[|ops| - 1];
      PublishWrites(s, ops[..|ops| - 1]) + if WritesPublish(before, op) then 1 else 0
  }

  lemma CoherentLater(g: Group, start: Group, made: set<(int, string)>, count: nat, more: set<(int, string)>, later: nat)
    requires Coherent(g, start, made, count) && made <= more && count <= later
    ensures Coherent(g, start, more, later)
  {
    hide TrimSpace;
    if Published(g, made) {
      var m :| m in made && m.0 == g.configVersion && TrimSpace(m.1) == g.desiredHash;
      assert m in more;
    }
  }

  lemma WrittenCoherent(read: Group, job: Job, start: Group, made: set<(int, string)>, count: nat)
    requires Coherent(read, start, made, count) && Writes(read, job)
    ensures var more := if job.Publishing? then made + {(Written(read, job).configVersion, job.hash)} else made;
            Coherent(Written(read, job), start, more, if job.Publishing? then count + 1 else count)
  {
    hide TrimSpace;
    var g := Written(read, job);
    if job.Publishing? {
      assert (g.configVersion, job.hash) in made + {(g.configVersion, job.hash)};
    } else if Published(read, made) {
      var m :| m in made && m.0 == read.configVersion && TrimSpace(m.1) == read.desiredHash;
      assert m.0 == g.configVersion && TrimSpace(m.1) == g.desiredHash;
    }
  }

  lemma WriteKeepsInv(s: System, c: nat, start: Group, count: nat)
    requires Inv(s, start, count) && start.configVersion >= 0 && CallOf(s, c).Holding?
    ensures Inv(Step(s, Write(c)), start, if CallOf(s, c).job.Publishing? then count + 1 else count)
  {
    hide TrimSpace, Coherent;
    var read, job := CallOf(s, c).read, CallOf(s, c).job;
    var t := Step(s, Write(c));
    var later := if job.Publishing? then count + 1 else count;
    assert CallOk(s, c, start, count);
    if Writes(read, job) {
      WrittenCoherent(read, job, start, s.made, count);
    }
    CoherentLater(s.group, start, s.made, count, t.made, later);
    forall d: nat ensures CallOk(t, d, start, later) {
      if d == c {
        if job.Publishing? {
          NumberIsVersion(read, job, start, s.made, count, s.groupID);
        }
      } else {
        assert CallOk(s, d, start, count);
        if CallOf(s, d).Holding? {
          CoherentLater(CallOf(s, d).read, start, s.made, count, t.made, later);
        }
      }
    }
  }

  lemma NumberIsVersion(read: Group, job: Job, start: Group, made: set<(int, string)>, count: nat, groupID: Id)
    requires Coherent(read, start, made, count) && start.configVersion >= 0 && job.Publishing?
    ensures Next(groupID, read, job).record.version == Written(read, job).configVersion && Next(groupID, read, job).record.hash == job.hash
  {
    hide TrimSpace;
  }

  lemma OtherKeepsInv(s: System, op: Op, start: Group, count: nat)
    requires Inv(s, start, count) && Possible(s, op) && !op.Write?
    ensures Inv(Step(s, op), start, count)
  {
    hide TrimSpace, Coherent, Recorded;
    var t := Step(s, op);
    assert CallOk(s, op.client, start, count);
    forall id | id in t.records ensures RecordOf(t.records[id], t) {
      assert id in s.records ==> RecordOf(s.records[id], s);
    }
    forall d: nat ensures CallOk(t, d, start, count) {
      assert CallOk(s, d, start, count);
    }
  }

  lemma {:induction false} RunKeepsInv(s: System, ops: seq<Op>)
    requires Fresh(s)
    ensures Inv(Run(s, ops), s.group, PublishWrites(s, ops)) && Run(s, ops).groupID == s.groupID
  {
    hide Inv, Possible, Step, WritesPublish, Fresh;
    FreshCounts(s);
    if ops == [] {
      StartsInv(s);
    } else {
      var before, op := Run(s, ops[..|ops| - 1]), ops[|ops| - 1];
      RunKeepsInv(s, ops[..|ops| - 1]);
      StepKeepsInv(before, op, s.group, PublishWrites(s, ops[..|ops| - 1]));
    }
  }

  lemma StepKeepsInv(s: System, op: Op, start: Group, count: nat)
    requires Inv(s, start, count) && start.configVersion >= 0
    ensures Inv(Step(s, op), start, if WritesPublish(s, op) then count + 1 else count)
    ensures Step(s, op).groupID == s.groupID
  {
    hide Inv;
    if Possible(s, op) {
      if op.Write? {
        WriteKeepsInv(s, op.client, start, count);
      } else {
        OtherKeepsInv(s, op, start, count);
      }
    }
  }

  lemma FreshCounts(s: System)
    requires Fresh(s)
    ensures s.group.configVersion >= 0
  {}

  lemma StartsInv(s: System)
    requires Fresh(s)
    ensures Inv(s, s.group, 0)
  {
    hide TrimSpace;
  }

  /** However calls overlap: "applied" means that the desired configuration is the one last applied; version and desired hash
      are those of one publish that was made, or of none; the version is at most the number of publishes; and every record
      carries version and hash of a publish. */
  lemma ReachableCoherent(s: System, ops: seq<Op>)
    requires Fresh(s)
    ensures var g := Run(s, ops).group;
            && (g.status == "applied" ==> g.appliedHash == g.desiredHash)
            && s.group.configVersion <= g.configVersion <= s.group.configVersion + PublishWrites(s, ops)
            && ((g.configVersion == s.group.configVersion && g.desiredHash == s.group.desiredHash) || Published(g, Run(s, ops).made))
            && forall id :: id in Run(s, ops).records ==> (Run(s, ops).records[id].version, Run(s, ops).records[id].hash) in Run(s, ops).made
  {
    hide Run, PublishWrites, Published, CallOk;
    RunKeepsInv(s, ops);
  }

  // ---------- What an overlapping call does ----------

  predicate WritesGroup(s: System, op: Op) {
    op.Write? && Possible(s, op) && Writes(CallOf(s, op.client).read, CallOf(s, op.client).job)
  }

  /** The call that wrote the group last in a stretch of steps, if any did: the copy it had read, and what it was about. */
  function LastWriter(s: System, ops: seq<Op>): (last: Option<Call>)
    ensures last.Some? ==> last.value.Holding?
  {
    if ops == [] then None
    else
      var before, op := Run(s, ops[..|ops| - 1]), ops[|ops| - 1];
      if WritesGroup(before, op) then Some(CallOf(before, op.client)) else LastWriter(s, ops[..|ops| - 1])
  }

  function LeftBy(last: Option<Call>, otherwise: Group): Group
    requires last.Some? ==> last.value.Holding?
  {
    if last.Some? then Written(last.value.read, last.value.job) else otherwise
  }

  lemma {:induction false} GroupIsLastWritten(s: System, ops: seq<Op>)
    ensures Run(s, ops).group == LeftBy(LastWriter(s, ops), s.group)
  {
    hide Written, Writes, Next, TrimSpace;
    if ops != [] {
      GroupIsLastWritten(s, ops[..|ops| - 1]);
    }
  }

  lemma {:induction false} CopyStays(s: System, ops: seq<Op>, c: nat)
    requires forall i :: 0 <= i < |ops| ==> ops[i].client != c
    ensures CallOf(Run(s, ops), c) == CallOf(s, c)
  {
    hide Written, Writes, Next, ReportedVersions, Matches, Recorded, TrimSpace;
    if ops != [] {
      CopyStays(s, ops[..|ops| - 1], c);
    }
  }

  /** A call that reads, lets others take any steps, and writes: what it writes back is made from the copy it read. */
  lemma WritesFromCopy(s: System, c: nat, job: Job, mid: seq<Op>)
    requires CallOf(s, c).Idle? && forall i :: 0 <= i < |mid| ==> mid[i].client != c
    ensures var before := Run(s, [Read(c, job)] + mid);
            && CallOf(before, c) == Holding(s.group, job)
            && before.group == LeftBy(LastWriter(Step(s, Read(c, job)), mid), s.group)
            && Run(s, [Read(c, job)] + mid + [Write(c)]).group == if Writes(s.group, job) then Written(s.group, job) else before.group
  {
    hide Written, Writes, Next, TrimSpace;
    var read := Step(s, Read(c, job));
    RunSnoc(s, [], Read(c, job));
    assert [] + [Read(c, job)] == [Read(c, job)];
    RunAppend(s, [Read(c, job)], mid);
    CopyStays(read, mid, c);
    GroupIsLastWritten(read, mid);
    RunSnoc(s, [Read(c, job)] + mid, Write(c));
  }

  /** Writing after `last`, a publish that read `read` still gets a higher version: nobody wrote meanwhile, or the last who did
      had read an older version, if it was a publish, or no newer one. */
  predicate NotOvertaken(last: Option<Call>, read: Group)
    requires last.Some? ==> last.value.Holding?
  {
    last.Some? ==>
      if last.value.job.Publishing? then last.value.read.configVersion < read.configVersion
      else last.value.read.configVersion <= read.configVersion
  }

  /** After any run, and with any steps of others between its read and its write, a publish gets a higher version than the group
      has by then if and only if it was not overtaken. */
  lemma LatePublishIff(start: System, ops: seq<Op>, c: nat, job: Job, mid: seq<Op>)
    requires CallOf(Run(start, ops), c).Idle? && job.Publishing? && forall i :: 0 <= i < |mid| ==> mid[i].client != c
    ensures var s := Run(start, ops);
            var before, after := Run(start, ops + ([Read(c, job)] + mid)), Run(start, ops + ([Read(c, job)] + mid + [Write(c)]));
            var last := LastWriter(Step(s, Read(c, job)), mid);
            && (after.group.configVersion > before.group.configVersion <==> NotOvertaken(last, s.group))
            && (last.None? ==> after.group == PublishedGroup(before.group, job.hash, job.message))
  {
    hide Run, LastWriter, TrimSpace, Counts;
    RunAppend(start, ops, [Read(c, job)] + mid);
    RunAppend(start, ops, [Read(c, job)] + mid + [Write(c)]);
    WritesFromCopy(Run(start, ops), c, job, mid);
  }

  /** `last` left the group with the version and desired hash that were read in `read`: it had read them itself, or it is the
      publish they come from, made again. */
  predicate LeftAlone(last: Option<Call>, read: Group)
    requires last.Some? ==> last.value.Holding?
  {
    last.Some? ==>
      if last.value.job.Publishing? then last.value.read.configVersion + 1 == read.configVersion && TrimSpace(last.value.job.hash) == read.desiredHash
      else last.value.read.configVersion == read.configVersion && last.value.read.desiredHash == read.desiredHash
  }

  /** After any run, and with any steps of others between its read and its write, a report, or a change of other fields, leaves
      the published version and desired hash as they are by then if and only if those who wrote meanwhile left them alone.
      Otherwise it takes them back to what it read. */
  lemma LateReportIff(start: System, ops: seq<Op>, c: nat, job: Job, mid: seq<Op>)
    requires CallOf(Run(start, ops), c).Idle? && !job.Publishing? && Writes(Run(start, ops).group, job)
    requires forall i :: 0 <= i < |mid| ==> mid[i].client != c
    ensures var s := Run(start, ops);
            var before, after := Run(start, ops + ([Read(c, job)] + mid)), Run(start, ops + ([Read(c, job)] + mid + [Write(c)]));
            && after.group.configVersion == s.group.configVersion && after.group.desiredHash == s.group.desiredHash
            && (after.group.configVersion == before.group.configVersion && after.group.desiredHash == before.group.desiredHash <==>
                  LeftAlone(LastWriter(Step(s, Read(c, job)), mid), s.group))
  {
    hide Run, LastWriter, TrimSpace;
    RunAppend(start, ops, [Read(c, job)] + mid);
    RunAppend(start, ops, [Read(c, job)] + mid + [Write(c)]);
    WritesFromCopy(Run(start, ops), c, job, mid);
  }

  // ---------- Overlaps that go wrong ----------

  const FIRST_ID := "a"
  const SECOND_ID := "b"

  /** Two publishes read the group before either writes it. */
  function Crossing(one: Job, other: Job): seq<Op> {
    [Read(0, one), Read(1, other), Write(0), Write(1), Insert(0, FIRST_ID), Insert(1, SECOND_ID)]
  }

  lemma SixSteps(s: System, a: Op, b: Op, c: Op, d: Op, e: Op, f: Op)
    ensures Run(s, [a, b, c, d, e, f]) == Step(Step(Step(Step(Step(Step(s, a), b), c), d), e), f)
  {
    hide Step, Run;
    RunSnoc(s, [a, b, c, d, e], f);
    RunSnoc(s, [a, b, c, d], e);
    RunSnoc(s, [a, b, c], d);
    RunSnoc(s, [a, b], c);
    RunSnoc(s, [a], b);
    RunSnoc(s, [], a);
    NoSteps(s);
    assert [] + [a] == [a] && [a] + [b] == [a, b] && [a, b] + [c] == [a, b, c] && [a, b, c] + [d] == [a, b, c, d];
    assert [a, b, c, d] + [e] == [a, b, c, d, e] && [a, b, c, d, e] + [f] == [a, b, c, d, e, f];
  }

  lemma NoSteps(s: System)
    ensures Run(s, []) == s
  {}

  lemma BothWritten(s: System, one: Job, other: Job)
    requires Fresh(s) && one.Publishing? && other.Publishing?
    ensures var t := Step(Step(Step(Step(s, Read(0, one)), Read(1, other)), Write(0)), Write(1));
            && t.group == Written(s.group, other) && t.records == map[] && t.groupID == s.groupID
            && CallOf(t, 0) == Next(s.groupID, s.group, one) && CallOf(t, 1) == Next(s.groupID, s.group, other)
  {
    hide Written, Next;
    var read := Step(Step(s, Read(0, one)), Read(1, other));
    assert CallOf(read, 0) == Holding(s.group, one) && CallOf(read, 1) == Holding(s.group, other);
  }

  lemma BothInserted(s: System, v: Version, w: Version)
    requires s.records == map[] && CallOf(s, 0) == Recording(v) && CallOf(s, 1) == Recording(w)
    ensures var t := Step(Step(s, Insert(0, FIRST_ID)), Insert(1, SECOND_ID));
            t.records == map[FIRST_ID := v.(id := FIRST_ID), SECOND_ID := w.(id := SECOND_ID)] && t.group == s.group && t.groupID == s.groupID
  {
    DifferentIDs();
  }

  lemma DifferentIDs()
    ensures FIRST_ID != SECOND_ID
  {
    assert FIRST_ID[0] != SECOND_ID[0];
  }

  /** Two publishes of different hashes get one version: the group has grown by one, and two records share its number, so which
      is the latest is open. */
  lemma TwoPublishesOneVersion(s: System, one: Job, other: Job)
    requires Fresh(s) && one.Publishing? && other.Publishing? && one.hash != other.hash
    ensures var t := Run(s, Crossing(one, other));
            && t.group.configVersion == s.group.configVersion + 1 && t.group.desiredHash == TrimSpace(other.hash)
            && FIRST_ID in t.records && SECOND_ID in t.records
            && t.records[FIRST_ID].hash == one.hash && t.records[SECOND_ID].hash == other.hash
            && IsLatest(StoreOf(t), s.groupID, t.records[FIRST_ID]) && IsLatest(StoreOf(t), s.groupID, t.records[SECOND_ID])
  {
    hide TrimSpace, Run, Step;
    SixSteps(s, Read(0, one), Read(1, other), Write(0), Write(1), Insert(0, FIRST_ID), Insert(1, SECOND_ID));
    BothWritten(s, one, other);
    DifferentIDs();
    var written := Step(Step(Step(Step(s, Read(0, one)), Read(1, other)), Write(0)), Write(1));
    BothInserted(written, Next(s.groupID, s.group, one).record, Next(s.groupID, s.group, other).record);
  }

  /** A report of what is applied, read before and written after a second publish: the group goes back to the first publish and
      counts as applied, with version and desired hash the second has left behind. */
  lemma ReportTakesVersionBack(s: System, one: Job, other: Job, report: Job)
    requires Fresh(s) && one.Publishing? && other.Publishing? && TrimSpace(one.hash) != ""
    requires report == Reporting(one.hash, "applied", "")
    ensures var first := Run(s, [Read(0, one), Write(0), Insert(0, FIRST_ID)]);
            var mid := [Read(0, other), Write(0), Insert(0, SECOND_ID)];
            var published, after := Run(first, [Read(1, report)] + mid), Run(first, [Read(1, report)] + mid + [Write(1)]);
            && published.group.configVersion == s.group.configVersion + 2 && published.group.desiredHash == TrimSpace(other.hash)
            && after.group.configVersion == s.group.configVersion + 1 && after.group.desiredHash == TrimSpace(one.hash)
            && after.group.status == "applied"
  {
    hide TrimSpace, Run, Step, Counts, LastWriter;
    PublishAlone(s, 0, one, FIRST_ID);
    DifferentIDs();
    var first := Run(s, [Read(0, one), Write(0), Insert(0, FIRST_ID)]);
    PublishedMeanwhile(first, other, report);
    AppliedCounts(s.group, one, report);
  }

  lemma AppliedCounts(g: Group, one: Job, report: Job)
    requires one.Publishing? && TrimSpace(one.hash) != "" && report == Reporting(one.hash, "applied", "")
    ensures Writes(Written(g, one), report) && Written(Written(g, one), report).status == "applied"
    ensures Written(Written(g, one), report).configVersion == g.configVersion + 1
    ensures Written(Written(g, one), report).desiredHash == TrimSpace(one.hash)
  {
    hide TrimSpace;
    TrimTrimmed("applied");
  }

  /** A report reads, a publish is made, the report writes. */
  lemma PublishedMeanwhile(first: System, other: Job, report: Job)
    requires CallOf(first, 0).Idle? && CallOf(first, 1).Idle? && other.Publishing? && SECOND_ID !in first.records
    ensures var mid := [Read(0, other), Write(0), Insert(0, SECOND_ID)];
            && Run(first, [Read(1, report)] + mid).group == Written(first.group, other)
            && (Writes(first.group, report) ==>
                  Run(first, [Read(1, report)] + mid + [Write(1)]).group == Written(first.group, report))
  {
    hide TrimSpace, Run, Written, LastWriter;
    var mid := [Read(0, other), Write(0), Insert(0, SECOND_ID)];
    WritesFromCopy(first, 1, report, mid);
    RunSnoc(first, [], Read(1, report));
    NoSteps(first);
    assert [] + [Read(1, report)] == [Read(1, report)];
    RunAppend(first, [Read(1, report)], mid);
    PublishAlone(Step(first, Read(1, report)), 0, other, SECOND_ID);
  }

  lemma ThreeSteps(s: System, a: Op, b: Op, c: Op)
    ensures Run(s, [a, b, c]) == Step(Step(Step(s, a), b), c)
  {
    hide Step, Run;
    RunSnoc(s, [a, b], c);
    RunSnoc(s, [a], b);
    RunSnoc(s, [], a);
    NoSteps(s);
    assert [] + [a] == [a] && [a] + [b] == [a, b] && [a, b] + [c] == [a, b, c];
  }

  /** A publish with nobody in between does what the publish of `CollectorPublish` does. */
  lemma PublishAlone(s: System, c: nat, job: Job, newID: Id)
    requires CallOf(s, c).Idle? && job.Publishing? && newID !in s.records
    ensures var t := Run(s, [Read(c, job), Write(c), Insert(c, newID)]);
            && StoreOf(t) == CollectorPublish.Step(StoreOf(s), Publish(s.groupID, job.hash, job.yaml, job.message, newID))
            && t.calls == s.calls[c := Idle] && t.group == Written(s.group, job) && t.records.Keys == s.records.Keys + {newID}
  {
    hide TrimSpace, Run;
    ThreeSteps(s, Read(c, job), Write(c), Insert(c, newID));
  }

  /** And so does a report. */
  lemma ReportAlone(s: System, c: nat, job: Job, chosen: Id)
    requires CallOf(s, c).Idle? && job.Reporting?
    requires CanStep(StoreOf(s), Report(s.groupID, job.hash, job.status, job.message, chosen))
    ensures StoreOf(Run(s, [Read(c, job), Write(c), Note(c, chosen)]))
            == CollectorPublish.Step(StoreOf(s), Report(s.groupID, job.hash, job.status, job.message, chosen))
  {
    hide TrimSpace, Run;
    ThreeSteps(s, Read(c, job), Write(c), Note(c, chosen));
  }
}
