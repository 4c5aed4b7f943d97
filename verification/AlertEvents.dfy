/** Ingesting alert events: a log that keeps every event once, a table of the latest state of each
    alert instance, and batches that stop at the first bad alert and are sent again. */
module AlertEvents {
  import opened Text
  import opened AlertStore

  /** Instants, counted from the zero time. */
  type Time = int
  const ZERO: Time := 0

  /** The digest of an event's identity, the digest of labels, and the printed form of an instant. */
  datatype Digests = Digests(hash: string -> string, derive: (string, map<string, string>) -> string, stamp: Time -> string)

  predicate NoNul(s: string) { forall i :: 0 <= i < |s| ==> s[i] != '\0' }

  /** What is used of them: the digest of identities is taken as injective, printed instants hold no NUL. */
  ghost predicate DigestsOk(d: Digests) {
    && (forall x, y :: d.hash(x) == d.hash(y) ==> x == y)
    && (forall t :: NoNul(d.stamp(t)))
    && (forall r, m :: d.derive(r, m) != "")
  }

  datatype State = Firing | Resolved

  function StateText(s: State): string { if s == Firing then "firing" else "resolved" }

  datatype Alert = Alert(status: string, labels: map<string, string>, annotations: map<string, string>,
                         startsAt: Time, endsAt: Time, fingerprint: string)

  datatype Instance = Instance(fingerprint: string, ruleID: Id, serviceID: Id, state: State, labels: map<string, string>,
                               annotations: map<string, string>, startsAt: Time, endsAt: Time, lastReceivedAt: Time,
                               lastEventID: Id, sourceRuntimeID: Id)

  datatype Event = Event(id: Id, fingerprint: string, ruleID: Id, serviceID: Id, previousState: Option<State>, state: State,
                         labels: map<string, string>, annotations: map<string, string>, sourceRuntimeID: Id,
                         occurredAt: Time, receivedAt: Time)

  /** What one alert brings to the store. */
  datatype Delivery = Delivery(latest: Instance, event: Event)

  // ---------- Normalising an alert ----------

  function Label(labels: map<string, string>, key: string): string { if key in labels then TrimSpace(labels[key]) else "" }

  predicate MetadataKey(key: string) {
    && key != "" && (AsciiLetter(key[0]) || key[0] == '_')
    && forall i :: 0 < i < |key| ==> AsciiLetter(key[i]) || key[i] == '_' || '0' <= key[i] <= '9'
  }

  predicate AsciiLetter(c: char) { 'A' <= c <= 'Z' || 'a' <= c <= 'z' }

  predicate ValidMetadata(values: map<string, string>, maxItems: nat) {
    && |values| <= maxItems
    && forall k :: k in values ==> MetadataKey(k) && ByteLength(values[k]) <= 4096
  }

  /** An alert without a status counts as resolved once its end has been reached. */
  function StateOf(alert: Alert, receivedAt: Time): Option<State> {
    var status := TrimSpace(alert.status);
    if status == "" && alert.endsAt != ZERO && alert.endsAt <= receivedAt then Some(Resolved)
    else if status == "" || ToLower(status) == "firing" then Some(Firing)
    else if ToLower(status) == "resolved" then Some(Resolved)
    else None
  }

  function RawIdentity(d: Digests, fingerprint: string, state: State, startsAt: Time, endsAt: Time): string {
    fingerprint + "\0" + StateText(state) + "\0" + d.stamp(startsAt) + "\0" + d.stamp(endsAt)
  }

  function EventIdentity(d: Digests, fingerprint: string, state: State, startsAt: Time, endsAt: Time): Id {
    "event-" + d.hash(RawIdentity(d, fingerprint, state, startsAt, endsAt))
  }

  function Normalize(d: Digests, alert: Alert, receivedAt: Time): Option<Delivery> {
    var ruleID, serviceID := Label(alert.labels, "novaapm_rule_id"), Label(alert.labels, "service_id");
    if ruleID == "" || serviceID == "" || ByteLength(ruleID) > 128 || ByteLength(serviceID) > 128 then None
    else if !ValidMetadata(alert.labels, 128) || !ValidMetadata(alert.annotations, 64) then None
    else if StateOf(alert, receivedAt).None? then None
    else
      var state, given := StateOf(alert, receivedAt).value, TrimSpace(alert.fingerprint);
      if ByteLength(given) > 256 then None else
        var fingerprint := if given == "" then d.derive(ruleID, alert.labels) else given;
        var own := if state == Resolved && alert.endsAt != ZERO then alert.endsAt else alert.startsAt;
        var id := EventIdentity(d, fingerprint, state, alert.startsAt, alert.endsAt);
        var runtimeID := Label(alert.labels, "novaapm_runtime_id");
        Some(Delivery(
          Instance(fingerprint, ruleID, serviceID, state, alert.labels, alert.annotations, alert.startsAt, alert.endsAt,
                   receivedAt, id, runtimeID),
          Event(id, fingerprint, ruleID, serviceID, None, state, alert.labels, alert.annotations, runtimeID,
                if own == ZERO then receivedAt else own, receivedAt)))
  }

  // ---------- The store ----------

  datatype Log = Log(instances: map<string, Instance>, events: map<Id, Event>)

  const EMPTY := Log(map[], map[])

  /** The event as it is stored: with the state its instance was in before. */
  function Stamped(log: Log, d: Delivery): Event {
    if d.event.fingerprint in log.instances then d.event.(previousState := Some(log.instances[d.event.fingerprint].state))
    else d.event
  }

  function Deliver(log: Log, d: Delivery): Log {
    Log(log.instances[d.latest.fingerprint := d.latest],
        if d.event.id in log.events then log.events else log.events[d.event.id := Stamped(log, d)])
  }

  function DeliverAll(log: Log, ds: seq<Delivery>): Log {
    if ds == [] then log else Deliver(DeliverAll(log, ds[..|ds| - 1]), ds[|ds| - 1])
  }

  class EventStore {
    var aris: map<string, Instance>
    var ares: map<Id, Event>

    constructor ()
      ensures Contents() == EMPTY
    {
      aris, ares := map[], map[];
    }

    function Contents(): Log
      reads this
    {
      Log(aris, ares)
    }

    method ApplyAlertEvent(d: Delivery) returns (ok: bool)
      requires d.latest.fingerprint == d.event.fingerprint
      modifies this
      ensures ok <==> d.latest.fingerprint != "" && d.event.id != ""
      ensures Contents() == if ok then Deliver(old(Contents()), d) else old(Contents())
    {
      var fingerprint, eventID := d.latest.fingerprint, d.event.id;
      if fingerprint == "" || eventID == "" {
        return false;
      }
      if eventID !in ares {
        var document := d.event;
        if fingerprint in aris {
          document := document.(previousState := Some(aris[fingerprint].state));
        }
        ares := ares[eventID := document];
      }
      aris := aris[fingerprint := d.latest];
      return true;
    }
  }

  // ---------- Ingesting a batch ----------

  /** The rule an event names exists, is enabled and belongs to the event's service. */
  predicate RuleAccepts(rules: map<Id, Rule>, latest: Instance) {
    && latest.ruleID in rules && rules[latest.ruleID].state == Enabled
    && rules[latest.ruleID].spec.scope.serviceID == latest.serviceID
  }

  predicate Good(d: Digests, rules: map<Id, Rule>, alert: Alert, receivedAt: Time) {
    var n := Normalize(d, alert, receivedAt);
    n.Some? && RuleAccepts(rules, n.value.latest)
  }

  /** The deliveries of the alerts before the first bad one. */
  function Deliveries(d: Digests, rules: map<Id, Rule>, alerts: seq<Alert>, receivedAt: Time): seq<Delivery> {
    if alerts == [] || !Good(d, rules, alerts[0], receivedAt) then []
    else [Normalize(d, alerts[0], receivedAt).value] + Deliveries(d, rules, alerts[1..], receivedAt)
  }

  lemma NormalizeNames(d: Digests, alert: Alert, receivedAt: Time)
    requires DigestsOk(d) && Normalize(d, alert, receivedAt).Some?
    ensures var n := Normalize(d, alert, receivedAt).value;
            && n.latest.fingerprint == n.event.fingerprint != "" && n.event.id != ""
            && n.latest.lastEventID == n.event.id && n.latest.state == n.event.state && n.event.previousState == None
            && n.event.id == EventIdentity(d, n.event.fingerprint, n.event.state, n.latest.startsAt, n.latest.endsAt)
  {
    hide TrimSpace, ValidMetadata, ByteLength, StateOf, RawIdentity;
    assert "event-" + d.hash("") != "";
  }

  method IngestAlerts(store: EventStore, d: Digests, rules: map<Id, Rule>, authorized: bool, alerts: seq<Alert>, receivedAt: Time)
    returns (accepted: Option<nat>)
    requires DigestsOk(d)
    modifies store
    ensures !authorized ==> accepted == None && store.Contents() == old(store.Contents())
    ensures authorized ==>
              var ds := Deliveries(d, rules, alerts, receivedAt);
              && store.Contents() == DeliverAll(old(store.Contents()), ds)
              && accepted == if |ds| == |alerts| then Some(|alerts|) else None
  {
    hide Normalize, RuleAccepts, Deliver, DeliverAll, Deliveries;
    DeliverNone(store.Contents());
    if !authorized {
      return None;
    }
    ghost var all := Deliveries(d, rules, alerts, receivedAt);
    DeliveriesShort(d, rules, alerts, receivedAt);
    for i := 0 to |alerts|
      invariant i <= |all| && store.Contents() == DeliverAll(old(store.Contents()), all[..i])
    {
      DeliveriesAt(d, rules, alerts, i, receivedAt);
      assert |all| == i ==> all[..i] == all;
      var normalized := Normalize(d, alerts[i], receivedAt);
      if normalized.None? {
        return None;
      }
      if !RuleAccepts(rules, normalized.value.latest) {
        return None;
      }
      NormalizeNames(d, alerts[i], receivedAt);
      var ok := store.ApplyAlertEvent(normalized.value);
      if !ok {
        return None;
      }
      DeliverAllNext(old(store.Contents()), all, i);
    }
    assert all[..|alerts|] == all;
    return Some(|alerts|);
  }

  lemma DeliverNone(log: Log)
    ensures DeliverAll(log, []) == log
  {}

  lemma DeliverAllNext(log: Log, ds: seq<Delivery>, i: nat)
    requires i < |ds|
    ensures DeliverAll(log, ds[..i + 1]) == Deliver(DeliverAll(log, ds[..i]), ds[i])
  {
    hide Deliver;
    assert ds[..i + 1][..i] == ds[..i];
  }

  lemma {:induction false} DeliveriesAt(d: Digests, rules: map<Id, Rule>, alerts: seq<Alert>, i: nat, receivedAt: Time)
    requires i <= |Deliveries(d, rules, alerts, receivedAt)| && i < |alerts|
    ensures var all := Deliveries(d, rules, alerts, receivedAt);
            && |all| <= |alerts| && (i < |all| <==> Good(d, rules, alerts[i], receivedAt))
            && (i < |all| ==> all[i] == Normalize(d, alerts[i], receivedAt).value)
  {
    hide Normalize, RuleAccepts;
    DeliveriesShort(d, rules, alerts, receivedAt);
    if i > 0 { DeliveriesAt(d, rules, alerts[1..], i - 1, receivedAt); }
  }

  lemma {:induction false} DeliveriesShort(d: Digests, rules: map<Id, Rule>, alerts: seq<Alert>, receivedAt: Time)
    ensures |Deliveries(d, rules, alerts, receivedAt)| <= |alerts|
  {
    hide Normalize, RuleAccepts;
    if alerts != [] { DeliveriesShort(d, rules, alerts[1..], receivedAt); }
  }

  // ---------- Sending a batch again ----------

  lemma {:induction false} DeliverAllConcat(log: Log, xs: seq<Delivery>, ys: seq<Delivery>)
    ensures DeliverAll(log, xs + ys) == DeliverAll(DeliverAll(log, xs), ys)
  {
    hide Deliver;
    if ys == [] {
      assert xs + ys == xs;
    } else {
      DeliverAllConcat(log, xs, ys[..|ys| - 1]);
      assert (xs + ys)[..|xs + ys| - 1] == xs + ys[..|ys| - 1];
    }
  }

  /** The instance a batch leaves for a fingerprint, if it mentions it. */
  function LastOf(ds: seq<Delivery>, fingerprint: string): Option<Instance> {
    if ds == [] then None
    else if ds[|ds| - 1].latest.fingerprint == fingerprint then Some(ds[|ds| - 1].latest)
    else LastOf(ds[..|ds| - 1], fingerprint)
  }

  lemma {:induction false} LatestWins(log: Log, ds: seq<Delivery>, fingerprint: string)
    ensures var after := DeliverAll(log, ds).instances;
            match LastOf(ds, fingerprint)
            case Some(latest) => fingerprint in after && after[fingerprint] == latest
            case None => (fingerprint in after <==> fingerprint in log.instances) &&
                         (fingerprint in after ==> after[fingerprint] == log.instances[fingerprint])
  {
    if ds != [] { LatestWins(log, ds[..|ds| - 1], fingerprint); }
  }

  lemma {:induction false} EventsKept(log: Log, ds: seq<Delivery>)
    ensures forall id :: id in log.events ==> id in DeliverAll(log, ds).events && DeliverAll(log, ds).events[id] == log.events[id]
    ensures forall x :: x in ds ==> x.event.id in DeliverAll(log, ds).events
  {
    if ds != [] {
      EventsKept(log, ds[..|ds| - 1]);
      assert forall x :: x in ds ==> x in ds[..|ds| - 1] || x == ds[|ds| - 1];
    }
  }

  /** An event is stored at its first delivery, with the state its instance was in at that moment, and
      never changes after that. */
  lemma FirstDeliveryStays(log: Log, ds: seq<Delivery>, k: nat)
    requires k < |ds| && ds[k].event.id !in DeliverAll(log, ds[..k]).events
    ensures ds[k].event.id in DeliverAll(log, ds).events
    ensures DeliverAll(log, ds).events[ds[k].event.id] == Stamped(DeliverAll(log, ds[..k]), ds[k])
  {
    assert ds == ds[..k + 1] + ds[k + 1..] && ds[..k + 1][..k] == ds[..k];
    DeliverAllConcat(log, ds[..k + 1], ds[k + 1..]);
    EventsKept(DeliverAll(log, ds[..k + 1]), ds[k + 1..]);
  }

  lemma {:induction false} NothingNew(log: Log, ds: seq<Delivery>)
    requires forall x :: x in ds ==> x.event.id in log.events
    ensures DeliverAll(log, ds).events == log.events
  {
    if ds != [] {
      assert forall x :: x in ds[..|ds| - 1] ==> x in ds;
      NothingNew(log, ds[..|ds| - 1]);
      assert ds[|ds| - 1] in ds;
    }
  }

  /** Delivering a batch twice is delivering it once. */
  lemma DeliverTwice(log: Log, ds: seq<Delivery>)
    ensures DeliverAll(DeliverAll(log, ds), ds) == DeliverAll(log, ds)
  {
    hide Deliver;
    var once := DeliverAll(log, ds);
    var twice := DeliverAll(once, ds);
    EventsKept(log, ds);
    NothingNew(once, ds);
    forall fp ensures (fp in twice.instances <==> fp in once.instances) && (fp in once.instances ==> twice.instances[fp] == once.instances[fp]) {
      LatestWins(log, ds, fp);
      LatestWins(once, ds, fp);
    }
    assert twice.instances == once.instances;
  }

  /** The alert has no time of its own, so its event is taken to occur when it is received. */
  predicate BorrowsTime(d: Delivery) {
    d.latest.startsAt == ZERO && (d.latest.state == Resolved ==> d.latest.endsAt == ZERO)
  }

  predicate BorrowedIn(ds: seq<Delivery>, borrowed: set<Id>) {
    forall x :: x in ds && BorrowsTime(x) ==> x.event.id in borrowed
  }

  /** Times of receipt set aside, and with them the occurrence times of the events in `borrowed`, which stand in for one. */
  function Timeless(d: Delivery, borrowed: set<Id>): Delivery {
    Delivery(TimelessInstance(d.latest), TimelessEvent(d.event, borrowed))
  }

  function TimelessInstance(i: Instance): Instance { i.(lastReceivedAt := ZERO) }

  function TimelessEvent(e: Event, borrowed: set<Id>): Event {
    e.(receivedAt := ZERO, occurredAt := if e.id in borrowed then ZERO else e.occurredAt)
  }

  function TimelessLog(log: Log, borrowed: set<Id>): Log {
    Log(map fp | fp in log.instances :: TimelessInstance(log.instances[fp]),
        map id | id in log.events :: TimelessEvent(log.events[id], borrowed))
  }

  function AllTimeless(ds: seq<Delivery>, borrowed: set<Id>): (r: seq<Delivery>)
    ensures |r| == |ds|
  {
    seq(|ds|, i requires 0 <= i < |ds| => Timeless(ds[i], borrowed))
  }

  lemma TimelessDeliver(log: Log, d: Delivery, borrowed: set<Id>)
    ensures TimelessLog(Deliver(log, d), borrowed) == Deliver(TimelessLog(log, borrowed), Timeless(d, borrowed))
  {
    hide TimelessInstance, TimelessEvent;
    TimelessKeeps(log, d, borrowed);
    var a, b := TimelessLog(Deliver(log, d), borrowed), Deliver(TimelessLog(log, borrowed), Timeless(d, borrowed));
    assert a.instances == b.instances;
    assert a.events == b.events;
  }

  lemma TimelessKeeps(log: Log, d: Delivery, borrowed: set<Id>)
    ensures TimelessInstance(d.latest).fingerprint == d.latest.fingerprint && TimelessEvent(d.event, borrowed).id == d.event.id
    ensures TimelessEvent(Stamped(log, d), borrowed) == Stamped(TimelessLog(log, borrowed), Timeless(d, borrowed))
  {}

  lemma {:induction false} TimelessDeliverAll(log: Log, ds: seq<Delivery>, borrowed: set<Id>)
    ensures TimelessLog(DeliverAll(log, ds), borrowed) == DeliverAll(TimelessLog(log, borrowed), AllTimeless(ds, borrowed))
  {
    hide Deliver, TimelessLog;
    if ds != [] {
      TimelessDeliverAll(log, ds[..|ds| - 1], borrowed);
      TimelessDeliver(DeliverAll(log, ds[..|ds| - 1]), ds[|ds| - 1], borrowed);
      assert AllTimeless(ds, borrowed)[..|ds| - 1] == AllTimeless(ds[..|ds| - 1], borrowed);
    }
  }

  /** A run aborted after `p` and then sent again as a whole, `p'` followed by `q`, leaves what sending
      it once would have left, times of receipt aside.  `p'` is `p` received at another time. */
  lemma RetryEquivalence(log: Log, p: seq<Delivery>, p': seq<Delivery>, q: seq<Delivery>, borrowed: set<Id>)
    requires AllTimeless(p, borrowed) == AllTimeless(p', borrowed)
    ensures TimelessLog(DeliverAll(DeliverAll(log, p), p' + q), borrowed) == TimelessLog(DeliverAll(log, p' + q), borrowed)
  {
    hide Deliver, DeliverAll, TimelessLog;
    var l, t := TimelessLog(log, borrowed), AllTimeless(p, borrowed);
    assert AllTimeless(p' + q, borrowed) == t + AllTimeless(q, borrowed);
    TimelessDeliverAll(log, p, borrowed);
    TimelessDeliverAll(DeliverAll(log, p), p' + q, borrowed);
    TimelessDeliverAll(log, p' + q, borrowed);
    DeliverAllConcat(DeliverAll(l, t), t, AllTimeless(q, borrowed));
    DeliverAllConcat(l, t, AllTimeless(q, borrowed));
    DeliverTwice(l, t);
  }

  /** The alert carries no status, and its end was reached between the two receipts. */
  predicate EndCrossed(alert: Alert, early: Time, late: Time) {
    TrimSpace(alert.status) == "" && alert.endsAt != ZERO && early < alert.endsAt <= late
  }

  /** An alert that carries no status, and whose end lies between the two receipts, turns from firing
      to resolved; every other alert normalises the same whenever it is received. */
  lemma NormalizeStableIff(d: Digests, alert: Alert, early: Time, late: Time, borrowed: set<Id>)
    requires early <= late && Normalize(d, alert, early).Some?
    requires Normalize(d, alert, late).Some? ==> BorrowedIn([Normalize(d, alert, late).value], borrowed)
    ensures Normalize(d, alert, late).Some?
    ensures Timeless(Normalize(d, alert, early).value, borrowed) == Timeless(Normalize(d, alert, late).value, borrowed)
            <==> !EndCrossed(alert, early, late)
  {
    hide TrimSpace, ToLower, ValidMetadata, ByteLength, EventIdentity, Label;
    LowerNothing();
    assert Normalize(d, alert, late).Some?;
    var x := Normalize(d, alert, late).value;
    assert x in [x];
  }

  lemma LowerNothing()
    ensures ToLower("") == ""
  {}

  /** A batch that was aborted and is sent again, and then gets at least as far, with rules that may have changed meanwhile: the
      first sending leaves no trace, provided no alert's end was crossed in between. Occurrence times count, but for events
      whose alerts have no time of their own. */
  lemma BatchRetry(log: Log, d: Digests, before: map<Id, Rule>, after: map<Id, Rule>, alerts: seq<Alert>, early: Time, late: Time,
                   borrowed: set<Id>)
    requires early <= late && forall i :: 0 <= i < |alerts| ==> !EndCrossed(alerts[i], early, late)
    requires |Deliveries(d, before, alerts, early)| <= |Deliveries(d, after, alerts, late)|
    requires BorrowedIn(Deliveries(d, after, alerts, late), borrowed)
    ensures var p, all := Deliveries(d, before, alerts, early), Deliveries(d, after, alerts, late);
            TimelessLog(DeliverAll(DeliverAll(log, p), all), borrowed) == TimelessLog(DeliverAll(log, all), borrowed)
  {
    hide Normalize, EndCrossed, Deliver, DeliverAll, TimelessLog, RuleAccepts, BorrowedIn;
    var p, all := Deliveries(d, before, alerts, early), Deliveries(d, after, alerts, late);
    PrefixOfRetry(d, before, after, alerts, early, late, borrowed);
    assert all == all[..|p|] + all[|p|..];
    RetryEquivalence(log, p, all[..|p|], all[|p|..], borrowed);
  }

  lemma {:induction false} PrefixOfRetry(d: Digests, before: map<Id, Rule>, after: map<Id, Rule>, alerts: seq<Alert>, early: Time, late: Time,
                                         borrowed: set<Id>)
    requires early <= late && forall i :: 0 <= i < |alerts| ==> !EndCrossed(alerts[i], early, late)
    requires |Deliveries(d, before, alerts, early)| <= |Deliveries(d, after, alerts, late)|
    requires BorrowedIn(Deliveries(d, after, alerts, late), borrowed)
    ensures var p, all := Deliveries(d, before, alerts, early), Deliveries(d, after, alerts, late);
            AllTimeless(p, borrowed) == AllTimeless(all[..|p|], borrowed)
  {
    hide Normalize, EndCrossed, RuleAccepts, BorrowsTime;
    if alerts != [] && Good(d, before, alerts[0], early) {
      var p, all := Deliveries(d, before, alerts, early), Deliveries(d, after, alerts, late);
      var p1, all1 := Deliveries(d, before, alerts[1..], early), Deliveries(d, after, alerts[1..], late);
      var x, y := Normalize(d, alerts[0], early).value, Normalize(d, alerts[0], late).value;
      assert p == [x] + p1 && all == [y] + all1;
      BorrowedSplits(y, all1, borrowed);
      PrefixOfRetry(d, before, after, alerts[1..], early, late, borrowed);
      NormalizeStableIff(d, alerts[0], early, late, borrowed);
      hide Timeless, Deliveries;
      AllTimelessCons(x, p1, borrowed);
      AllTimelessCons(y, all1[..|p1|], borrowed);
      assert all[..|p|] == [y] + all1[..|p1|];
    } else {
      assert AllTimeless([], borrowed) == [];
    }
  }

  lemma BorrowedSplits(x: Delivery, ds: seq<Delivery>, borrowed: set<Id>)
    requires BorrowedIn([x] + ds, borrowed)
    ensures BorrowedIn([x], borrowed) && BorrowedIn(ds, borrowed)
  {
    hide BorrowsTime;
    assert x in [x] + ds && forall y :: y in ds ==> y in [x] + ds;
  }

  lemma AllTimelessCons(x: Delivery, ds: seq<Delivery>, borrowed: set<Id>)
    ensures AllTimeless([x] + ds, borrowed) == [Timeless(x, borrowed)] + AllTimeless(ds, borrowed)
  {
    hide Timeless;
  }

  // ---------- What a first sending leaves ----------

  predicate Brings(ds: seq<Delivery>, id: Id) { exists i :: 0 <= i < |ds| && ds[i].event.id == id }

  function FirstIndex(ds: seq<Delivery>, id: Id): nat
    requires Brings(ds, id)
    ensures FirstIndex(ds, id) < |ds|
  {
    var n := |ds| - 1;
    if Brings(ds[..n], id) then FirstIndex(ds[..n], id) else n
  }

  lemma {:induction false} FirstIndexIs(ds: seq<Delivery>, id: Id)
    requires Brings(ds, id)
    ensures ds[FirstIndex(ds, id)].event.id == id && !Brings(ds[..FirstIndex(ds, id)], id)
  {
    var n := |ds| - 1;
    if Brings(ds[..n], id) {
      FirstIndexIs(ds[..n], id);
      assert ds[..n][..FirstIndex(ds, id)] == ds[..FirstIndex(ds, id)];
    } else {
      assert forall i :: 0 <= i < n ==> ds[..n][i] == ds[i];
    }
  }

  /** The event as delivery `k` stores it: with the state of the delivery before it of the same instance, or else of the table. */
  function StoredAt(log: Log, ds: seq<Delivery>, k: nat): Event
    requires k < |ds|
  {
    var latest := LastOf(ds[..k], ds[k].event.fingerprint);
    if latest.Some? then ds[k].event.(previousState := Some(latest.value.state)) else Stamped(log, ds[k])
  }

  function Stored(log: Log, ds: seq<Delivery>, id: Id): Event
    requires Brings(ds, id)
  {
    StoredAt(log, ds, FirstIndex(ds, id))
  }

  lemma {:induction false} EventsCome(log: Log, ds: seq<Delivery>, id: Id)
    ensures id in DeliverAll(log, ds).events <==> id in log.events || Brings(ds, id)
  {
    if ds != [] {
      var n := |ds| - 1;
      EventsCome(log, ds[..n], id);
      if Brings(ds[..n], id) {
        var i :| 0 <= i < n && ds[..n][i].event.id == id;
        assert ds[i].event.id == id;
      }
      if i :| 0 <= i < |ds| && ds[i].event.id == id {
        assert i < n ==> ds[..n][i].event.id == id;
      }
    }
  }

  /** What the log holds under an id after some deliveries. */
  lemma EventAfter(log: Log, ds: seq<Delivery>, id: Id)
    ensures id in DeliverAll(log, ds).events <==> id in log.events || Brings(ds, id)
    ensures id in log.events ==> DeliverAll(log, ds).events[id] == log.events[id]
    ensures id !in log.events && Brings(ds, id) ==> DeliverAll(log, ds).events[id] == Stored(log, ds, id)
  {
    hide Deliver, DeliverAll, Brings, FirstIndex;
    EventsCome(log, ds, id);
    EventsKept(log, ds);
    if id !in log.events && Brings(ds, id) {
      var k := FirstIndex(ds, id);
      FirstIndexIs(ds, id);
      EventsCome(log, ds[..k], id);
      FirstDeliveryStays(log, ds, k);
      LatestWins(log, ds[..k], ds[k].event.fingerprint);
    }
  }

  /** The state an event of the second sending is stored with is the one it would have had without the first. */
  predicate Continues(log: Log, p: seq<Delivery>, all: seq<Delivery>, id: Id)
    requires Brings(all, id)
  {
    var k := FirstIndex(all, id);
    var fingerprint := all[k].event.fingerprint;
    LastOf(all[..k], fingerprint).Some? || LastOf(p, fingerprint).None?
    || Stamped(log, all[k]).previousState == Some(LastOf(p, fingerprint).value.state)
  }

  /** The first sending shows nowhere: not in the table, where the second does not overwrite it; not in an event of its own,
      unless the second stores the same one; and not in the previous state of an event of the second. */
  ghost predicate Traceless(log: Log, p: seq<Delivery>, all: seq<Delivery>, borrowed: set<Id>) {
    && (forall fp :: LastOf(p, fp).Some? && LastOf(all, fp).None? ==>
                       fp in log.instances && TimelessInstance(LastOf(p, fp).value) == TimelessInstance(log.instances[fp]))
    && (forall id :: id !in log.events && Brings(p, id) ==>
                       Brings(all, id) && TimelessEvent(Stored(log, p, id), borrowed) == TimelessEvent(Stored(log, all, id), borrowed))
    && (forall id :: id !in log.events && !Brings(p, id) && Brings(all, id) ==> Continues(log, p, all, id))
  }

  lemma StoredLater(log: Log, p: seq<Delivery>, all: seq<Delivery>, id: Id, borrowed: set<Id>)
    requires Brings(all, id)
    ensures TimelessEvent(Stored(DeliverAll(log, p), all, id), borrowed) == TimelessEvent(Stored(log, all, id), borrowed)
            <==> Continues(log, p, all, id)
  {
    hide DeliverAll, Brings, FirstIndex;
    LatestWins(log, p, all[FirstIndex(all, id)].event.fingerprint);
  }

  predicate SameEvent(a: Log, b: Log, id: Id, borrowed: set<Id>) {
    && (id in a.events <==> id in b.events)
    && (id in a.events && id in b.events ==> TimelessEvent(a.events[id], borrowed) == TimelessEvent(b.events[id], borrowed))
  }

  predicate SameInstance(a: Log, b: Log, fp: string) {
    && (fp in a.instances <==> fp in b.instances)
    && (fp in a.instances && fp in b.instances ==> TimelessInstance(a.instances[fp]) == TimelessInstance(b.instances[fp]))
  }

  lemma TimelessAgree(a: Log, b: Log, borrowed: set<Id>)
    ensures TimelessLog(a, borrowed) == TimelessLog(b, borrowed)
            <==> (forall id :: SameEvent(a, b, id, borrowed)) && forall fp :: SameInstance(a, b, fp)
  {
    hide TimelessEvent, TimelessInstance;
    var s, t := TimelessLog(a, borrowed), TimelessLog(b, borrowed);
    if s == t {
      forall id ensures SameEvent(a, b, id, borrowed) {
        assert id in s.events <==> id in a.events;
        assert id in t.events <==> id in b.events;
        if id in a.events {
          assert s.events[id] == t.events[id];
        }
      }
      forall fp ensures SameInstance(a, b, fp) {
        assert fp in s.instances <==> fp in a.instances;
        assert fp in t.instances <==> fp in b.instances;
        if fp in a.instances {
          assert s.instances[fp] == t.instances[fp];
        }
      }
    }
    if (forall id :: SameEvent(a, b, id, borrowed)) && forall fp :: SameInstance(a, b, fp) {
      assert forall id :: id in s.events <==> id in t.events by {
        forall id ensures id in s.events <==> id in t.events { assert SameEvent(a, b, id, borrowed); }
      }
      forall id | id in s.events ensures s.events[id] == t.events[id] { assert SameEvent(a, b, id, borrowed); }
      assert s.events == t.events;
      assert forall fp :: fp in s.instances <==> fp in t.instances by {
        forall fp ensures fp in s.instances <==> fp in t.instances { assert SameInstance(a, b, fp); }
      }
      forall fp | fp in s.instances ensures s.instances[fp] == t.instances[fp] { assert SameInstance(a, b, fp); }
      assert s.instances == t.instances;
    }
  }

  /** For any two sendings, however far each got: the second leaves what it would have left without the first, times of receipt
      aside, if and only if the first is traceless. */
  lemma TracelessIff(log: Log, p: seq<Delivery>, all: seq<Delivery>, borrowed: set<Id>)
    ensures TimelessLog(DeliverAll(DeliverAll(log, p), all), borrowed) == TimelessLog(DeliverAll(log, all), borrowed)
            <==> Traceless(log, p, all, borrowed)
  {
    hide DeliverAll, Brings, Stored, Continues, TimelessEvent, TimelessInstance, TimelessLog, LastOf;
    var first := DeliverAll(log, p);
    var a, b := DeliverAll(first, all), DeliverAll(log, all);
    TimelessAgree(a, b, borrowed);
    forall id
      ensures SameEvent(a, b, id, borrowed) <==>
              && (id !in log.events && Brings(p, id) ==>
                    Brings(all, id) && TimelessEvent(Stored(log, p, id), borrowed) == TimelessEvent(Stored(log, all, id), borrowed))
              && (id !in log.events && !Brings(p, id) && Brings(all, id) ==> Continues(log, p, all, id))
    {
      EventAfter(log, p, id);
      EventAfter(first, all, id);
      EventAfter(log, all, id);
      if Brings(all, id) {
        StoredLater(log, p, all, id, borrowed);
      }
    }
    forall fp
      ensures SameInstance(a, b, fp) <==>
              (LastOf(p, fp).Some? && LastOf(all, fp).None? ==>
                 fp in log.instances && TimelessInstance(LastOf(p, fp).value) == TimelessInstance(log.instances[fp]))
    {
      LatestWins(log, p, fp);
      LatestWins(first, all, fp);
      LatestWins(log, all, fp);
    }
  }

  lemma SameIdUnlessCrossed(d: Digests, alert: Alert, early: Time, late: Time)
    requires early <= late && !EndCrossed(alert, early, late) && Normalize(d, alert, early).Some? && Normalize(d, alert, late).Some?
    ensures Normalize(d, alert, early).value.event.id == Normalize(d, alert, late).value.event.id
  {
    hide Normalize, EndCrossed;
    var y := Normalize(d, alert, late).value;
    NormalizeStableIff(d, alert, early, late, {y.event.id});
  }

  /** A second sending that gets at least as far: the first leaves no event more if and only if every alert whose end was crossed
      had fired into the log before, or the second brings that event too. */
  lemma ExtraEventsIff(log: Log, d: Digests, before: map<Id, Rule>, after: map<Id, Rule>, alerts: seq<Alert>, early: Time, late: Time)
    requires early <= late && |Deliveries(d, before, alerts, early)| <= |Deliveries(d, after, alerts, late)|
    ensures var p, all := Deliveries(d, before, alerts, early), Deliveries(d, after, alerts, late);
            && |p| <= |alerts|
            && (DeliverAll(DeliverAll(log, p), all).events.Keys == DeliverAll(log, all).events.Keys <==>
                forall i :: 0 <= i < |p| && EndCrossed(alerts[i], early, late) ==> p[i].event.id in log.events || Brings(all, p[i].event.id))
  {
    hide DeliverAll, Deliveries, EndCrossed, Normalize, RuleAccepts, Stored;
    var p, all := Deliveries(d, before, alerts, early), Deliveries(d, after, alerts, late);
    DeliveriesShort(d, before, alerts, early);
    DeliveriesShort(d, after, alerts, late);
    var twice, once := DeliverAll(DeliverAll(log, p), all).events, DeliverAll(log, all).events;
    forall id
      ensures id in twice <==> id in log.events || Brings(p, id) || Brings(all, id)
      ensures id in once <==> id in log.events || Brings(all, id)
    {
      EventAfter(log, p, id);
      EventAfter(DeliverAll(log, p), all, id);
      EventAfter(log, all, id);
    }
    forall i | 0 <= i < |p| ensures Brings(p, p[i].event.id) && (!EndCrossed(alerts[i], early, late) ==> Brings(all, p[i].event.id)) {
      DeliveriesAt(d, before, alerts, i, early);
      DeliveriesAt(d, after, alerts, i, late);
      if !EndCrossed(alerts[i], early, late) {
        SameIdUnlessCrossed(d, alerts[i], early, late);
        assert all[i].event.id == p[i].event.id;
      }
    }
    if twice.Keys == once.Keys {
      forall i | 0 <= i < |p| ensures p[i].event.id in log.events || Brings(all, p[i].event.id) {
        assert p[i].event.id in twice.Keys;
      }
    }
  }

  /** An alert whose end is crossed between two receipts leaves a firing event that receiving it once would not have left, unless
      the log has it already. */
  lemma CrossedLeavesTrace(log: Log, d: Digests, alert: Alert, early: Time, late: Time, borrowed: set<Id>)
    requires DigestsOk(d) && EndCrossed(alert, early, late) && Normalize(d, alert, early).Some? && Normalize(d, alert, late).Some?
    requires Normalize(d, alert, early).value.event.id !in log.events
    ensures var p, all := [Normalize(d, alert, early).value], [Normalize(d, alert, late).value];
            var fires := p[0].event;
            && fires.state == Firing && fires.id in DeliverAll(DeliverAll(log, p), all).events && fires.id !in DeliverAll(log, all).events
            && TimelessLog(DeliverAll(DeliverAll(log, p), all), borrowed) != TimelessLog(DeliverAll(log, all), borrowed)
  {
    hide DeliverAll, TimelessLog, EventIdentity, ValidMetadata, ByteLength, TrimSpace, ToLower, Label, Stored, Continues;
    var x, y := Normalize(d, alert, early).value, Normalize(d, alert, late).value;
    CrossedStates(d, alert, early, late);
    assert [x][0] == x && [y][0] == y;
    EventAfter(log, [x], x.event.id);
    EventAfter(DeliverAll(log, [x]), [y], x.event.id);
    EventAfter(log, [y], x.event.id);
    assert Brings([x], x.event.id) && !Brings([y], x.event.id);
    TracelessIff(log, [x], [y], borrowed);
  }

  /** It turns from firing to resolved, and into another event. */
  lemma CrossedStates(d: Digests, alert: Alert, early: Time, late: Time)
    requires DigestsOk(d) && EndCrossed(alert, early, late) && Normalize(d, alert, early).Some? && Normalize(d, alert, late).Some?
    ensures var x, y := Normalize(d, alert, early).value, Normalize(d, alert, late).value;
            x.event.state == Firing && y.event.state == Resolved && x.event.id != y.event.id
  {
    hide EventIdentity, ValidMetadata, ByteLength, TrimSpace, ToLower, Label;
    var x, y := Normalize(d, alert, early).value, Normalize(d, alert, late).value;
    if x.event.id == y.event.id {
      IdentityInjective(d, x.event.fingerprint, Firing, alert.startsAt, alert.endsAt, y.event.fingerprint, Resolved, alert.startsAt, alert.endsAt);
    }
  }

  // ---------- The table agrees with the log ----------

  /** A text up to its last NUL, and what follows it. */
  lemma LastNul(a: string, x: string, b: string, y: string)
    requires a + "\0" + x == b + "\0" + y && NoNul(x) && NoNul(y)
    ensures a == b && x == y
  {
    var s := a + "\0" + x;
    assert s[|a|] == '\0' && s[|b|] == '\0';
    assert forall i :: |a| < i < |s| ==> s[i] == x[i - |a| - 1];
    assert forall i :: |b| < i < |s| ==> s[i] == y[i - |b| - 1];
    assert |a| == |b|;
    assert a == s[..|a|] && b == s[..|b|];
    assert x == s[|a| + 1..] && y == s[|b| + 1..];
  }

  /** The identity is read back from its right end, even when the fingerprint holds NULs itself. */
  lemma IdentityInjective(d: Digests, fp: string, s: State, t: Time, u: Time, fp': string, s': State, t': Time, u': Time)
    requires DigestsOk(d) && EventIdentity(d, fp, s, t, u) == EventIdentity(d, fp', s', t', u')
    ensures fp == fp' && s == s' && d.stamp(t) == d.stamp(t') && d.stamp(u) == d.stamp(u')
  {
    var p, h, h' := "event-", d.hash(RawIdentity(d, fp, s, t, u)), d.hash(RawIdentity(d, fp', s', t', u'));
    assert h == (p + h)[|p|..] && h' == (p + h')[|p|..];
    assert NoNul(d.stamp(t)) && NoNul(d.stamp(t')) && NoNul(d.stamp(u)) && NoNul(d.stamp(u'));
    LastNul(fp + "\0" + StateText(s) + "\0" + d.stamp(t), d.stamp(u), fp' + "\0" + StateText(s') + "\0" + d.stamp(t'), d.stamp(u'));
    LastNul(fp + "\0" + StateText(s), d.stamp(t), fp' + "\0" + StateText(s'), d.stamp(t'));
    LastNul(fp, StateText(s), fp', StateText(s'));
    assert "firing"[0] != "resolved"[0];
  }

  /** A delivery whose id is the identity of what it says. */
  ghost predicate Identified(d: Digests, x: Delivery) {
    && x.latest.fingerprint == x.event.fingerprint && x.latest.state == x.event.state && x.latest.lastEventID == x.event.id
    && exists t, u :: x.event.id == EventIdentity(d, x.event.fingerprint, x.event.state, t, u)
  }

  ghost predicate EventIdentified(d: Digests, e: Event) {
    exists t, u :: e.id == EventIdentity(d, e.fingerprint, e.state, t, u)
  }

  /** Each instance's last event is in the log, and is an event of that instance in that state. */
  ghost predicate Agrees(log: Log) {
    forall fp :: fp in log.instances ==>
      var i := log.instances[fp];
      && i.fingerprint == fp && i.lastEventID in log.events
      && log.events[i.lastEventID].fingerprint == fp && log.events[i.lastEventID].state == i.state
  }

  ghost predicate LogOk(d: Digests, log: Log) {
    && Agrees(log)
    && forall id :: id in log.events ==> log.events[id].id == id && EventIdentified(d, log.events[id])
  }

  lemma DeliverKeepsLogOk(d: Digests, log: Log, x: Delivery)
    requires DigestsOk(d) && LogOk(d, log) && Identified(d, x)
    ensures LogOk(d, Deliver(log, x))
  {
    hide EventIdentity;
    var t, u :| x.event.id == EventIdentity(d, x.event.fingerprint, x.event.state, t, u);
    var after := Deliver(log, x);
    if x.event.id in log.events {
      var e := log.events[x.event.id];
      assert EventIdentified(d, e);
      var t', u' :| e.id == EventIdentity(d, e.fingerprint, e.state, t', u');
      IdentityInjective(d, x.event.fingerprint, x.event.state, t, u, e.fingerprint, e.state, t', u');
    }
    forall id | id in after.events ensures after.events[id].id == id && EventIdentified(d, after.events[id]) {
      if id !in log.events { assert EventIdentified(d, Stamped(log, x)); }
    }
  }

  ghost predicate FromAlert(d: Digests, x: Delivery) {
    exists alert, at :: Normalize(d, alert, at) == Some(x)
  }

  /** After any deliveries of normalised alerts, in whatever order batches interleave, the table of
      latest states agrees with the log. */
  lemma {:induction false} TableAgreesWithLog(d: Digests, ds: seq<Delivery>)
    requires DigestsOk(d)
    requires forall x :: x in ds ==> FromAlert(d, x)
    ensures LogOk(d, DeliverAll(EMPTY, ds))
  {
    hide Normalize, Deliver, EventIdentity;
    if ds != [] {
      var x := ds[|ds| - 1];
      forall y | y in ds[..|ds| - 1] ensures FromAlert(d, y) { assert y in ds; }
      TableAgreesWithLog(d, ds[..|ds| - 1]);
      assert x in ds && FromAlert(d, x);
      var alert, at :| Normalize(d, alert, at) == Some(x);
      NormalizeNames(d, alert, at);
      assert Identified(d, x);
      DeliverKeepsLogOk(d, DeliverAll(EMPTY, ds[..|ds| - 1]), x);
    }
  }

  // ---------- What an alert is taken for ----------

  /** Delivery by delivery: an alert is delivered as resolved exactly when its status is "resolved", or blank with an end that was
      reached; as firing exactly when it is "firing", or blank otherwise; and any other status ends the batch. */
  lemma DeliveredStates(d: Digests, rules: map<Id, Rule>, alerts: seq<Alert>, receivedAt: Time, i: nat)
    requires i <= |Deliveries(d, rules, alerts, receivedAt)| && i < |alerts|
    ensures var all, endsAt := Deliveries(d, rules, alerts, receivedAt), alerts[i].endsAt;
            var status := TrimSpace(alerts[i].status);
            && |all| <= |alerts|
            && (i < |all| ==>
                  && all[i].latest.state == all[i].event.state
                  && (all[i].event.state == Resolved <==>
                        ToLower(status) == "resolved" || (status == "" && endsAt != 0 && endsAt <= receivedAt))
                  && (all[i].event.state == Firing <==>
                        ToLower(status) == "firing" || (status == "" && (endsAt == 0 || receivedAt < endsAt))))
            && (status != "" && ToLower(status) != "resolved" && ToLower(status) != "firing" ==> |all| == i)
  {
    hide TrimSpace, ToLower, ValidMetadata, ByteLength, EventIdentity, RuleAccepts, Label;
    LowerNothing();
    LowerBlank(TrimSpace(alerts[i].status));
    DeliveriesAt(d, rules, alerts, i, receivedAt);
  }

  lemma LowerBlank(s: string)
    ensures ToLower(s) == "" <==> s == ""
  {}

  function LabelText(alert: Alert, key: string): string { if key in alert.labels then TrimSpace(alert.labels[key]) else "" }

  /** Field by field: what a delivery carries of its alert. */
  lemma DeliveredFields(d: Digests, rules: map<Id, Rule>, alerts: seq<Alert>, receivedAt: Time, i: nat)
    requires i < |Deliveries(d, rules, alerts, receivedAt)| && i < |alerts|
    ensures var alert, x := alerts[i], Deliveries(d, rules, alerts, receivedAt)[i];
            && x.latest.ruleID == LabelText(alert, "novaapm_rule_id") && x.event.ruleID == x.latest.ruleID
            && x.latest.serviceID == LabelText(alert, "service_id") && x.event.serviceID == x.latest.serviceID
            && x.latest.sourceRuntimeID == LabelText(alert, "novaapm_runtime_id") && x.event.sourceRuntimeID == x.latest.sourceRuntimeID
            && x.latest.labels == alert.labels && x.event.labels == alert.labels
            && x.latest.annotations == alert.annotations && x.event.annotations == alert.annotations
            && x.latest.startsAt == alert.startsAt && x.latest.endsAt == alert.endsAt
            && x.latest.lastReceivedAt == receivedAt && x.event.receivedAt == receivedAt
            && x.latest.fingerprint == x.event.fingerprint && x.latest.lastEventID == x.event.id && x.event.previousState == None
            && x.event.fingerprint == (if TrimSpace(alert.fingerprint) == "" then d.derive(LabelText(alert, "novaapm_rule_id"), alert.labels)
                                       else TrimSpace(alert.fingerprint))
  {
    hide TrimSpace, ToLower, ValidMetadata, ByteLength, EventIdentity, RuleAccepts, StateOf;
    DeliveriesAt(d, rules, alerts, i, receivedAt);
  }

  /** When the event occurred: a resolved one when the alert ended, another, or one without an end, when it started, and one without
      that either when it was received. */
  lemma DeliveredTime(d: Digests, rules: map<Id, Rule>, alerts: seq<Alert>, receivedAt: Time, i: nat)
    requires i < |Deliveries(d, rules, alerts, receivedAt)| && i < |alerts|
    ensures var alert, e := alerts[i], Deliveries(d, rules, alerts, receivedAt)[i].event;
            && (e.state == Resolved && alert.endsAt != 0 ==> e.occurredAt == alert.endsAt)
            && ((e.state == Firing || alert.endsAt == 0) && alert.startsAt != 0 ==> e.occurredAt == alert.startsAt)
            && ((e.state == Firing || alert.endsAt == 0) && alert.startsAt == 0 ==> e.occurredAt == receivedAt)
  {
    hide TrimSpace, ToLower, ValidMetadata, ByteLength, EventIdentity, RuleAccepts, StateOf;
    DeliveriesAt(d, rules, alerts, i, receivedAt);
  }

  /** The identity of an event: its fingerprint, state and times, with NULs between them. */
  lemma DeliveredIdentity(d: Digests, rules: map<Id, Rule>, alerts: seq<Alert>, receivedAt: Time, i: nat)
    requires i < |Deliveries(d, rules, alerts, receivedAt)| && i < |alerts|
    ensures var alert, e := alerts[i], Deliveries(d, rules, alerts, receivedAt)[i].event;
            e.id == "event-" + d.hash(e.fingerprint + "\0" + (if e.state == Firing then "firing" else "resolved") + "\0"
                                      + d.stamp(alert.startsAt) + "\0" + d.stamp(alert.endsAt))
  {
    hide TrimSpace, ToLower, ValidMetadata, ByteLength, RuleAccepts, StateOf;
    DeliveriesAt(d, rules, alerts, i, receivedAt);
  }

  predicate KeyShape(key: string) {
    && key != "" && ('A' <= key[0] <= 'Z' || 'a' <= key[0] <= 'z' || key[0] == '_')
    && forall i :: 0 < i < |key| ==> 'A' <= key[i] <= 'Z' || 'a' <= key[i] <= 'z' || key[i] == '_' || '0' <= key[i] <= '9'
  }

  /** What an alert needs to be delivered: a rule and a service, well-formed labels and annotations, a status that is understood, a
      short fingerprint, and a rule that is there, enabled, and of that service. */
  lemma GoodIff(d: Digests, rules: map<Id, Rule>, alert: Alert, receivedAt: Time)
    ensures var ruleID, serviceID := LabelText(alert, "novaapm_rule_id"), LabelText(alert, "service_id");
            Good(d, rules, alert, receivedAt) <==>
              && ruleID != "" && ByteLength(ruleID) <= 128 && serviceID != "" && ByteLength(serviceID) <= 128
              && |alert.labels| <= 128 && (forall k :: k in alert.labels ==> KeyShape(k) && ByteLength(alert.labels[k]) <= 4096)
              && |alert.annotations| <= 64 && (forall k :: k in alert.annotations ==> KeyShape(k) && ByteLength(alert.annotations[k]) <= 4096)
              && (TrimSpace(alert.status) == "" || ToLower(TrimSpace(alert.status)) == "firing" || ToLower(TrimSpace(alert.status)) == "resolved")
              && ByteLength(TrimSpace(alert.fingerprint)) <= 256
              && ruleID in rules && rules[ruleID].state == Enabled && rules[ruleID].spec.scope.serviceID == serviceID
  {
    hide TrimSpace, ToLower, ByteLength, EventIdentity;
    LowerNothing();
    assert forall k :: MetadataKey(k) <==> KeyShape(k);
  }
}
