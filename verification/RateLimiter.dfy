/** The fixed-window limiter in front of alert ingestion: 600 requests per key and window of one
    minute, with expired windows swept out once there are many. */
module RateLimiter {

  /** Instants in nanoseconds, counted from the zero time. */
  type Time = int
  const ZERO: Time := 0
  const MINUTE := 60_000_000_000
  const LIMIT := 600
  const CROWD := 1024

  datatype Window = Window(startedAt: Time, count: nat)

  function WindowOf(windows: map<string, Window>, key: string): Window {
    if key in windows then windows[key] else Window(ZERO, 0)
  }

  /** The key's window with this request in it. */
  function Counted(windows: map<string, Window>, key: string, now: Time): Window {
    var w := WindowOf(windows, key);
    if w.startedAt == ZERO || now - w.startedAt >= MINUTE then Window(now, 1) else w.(count := w.count + 1)
  }

  function Swept(windows: map<string, Window>, now: Time): map<string, Window> {
    map key | key in windows && now - windows[key].startedAt < MINUTE :: windows[key]
  }

  function After(windows: map<string, Window>, key: string, now: Time): map<string, Window> {
    var counted := windows[key := Counted(windows, key, now)];
    if |counted| > CROWD then Swept(counted, now) else counted
  }

  class Limiter {
    var windows: map<string, Window>

    constructor ()
      ensures windows == map[]
    {
      windows := map[];
    }

    method Allow(key: string, now: Time) returns (allowed: bool)
      modifies this
      ensures windows == After(old(windows), key, now)
      ensures allowed <==> Counted(old(windows), key, now).count <= LIMIT
      ensures allowed <==> key !in old(windows) || old(windows)[key].startedAt == 0 || now - old(windows)[key].startedAt >= 60_000_000_000
                           || old(windows)[key].count < 600
      ensures |old(windows).Keys + {key}| <= 1024 ==>
                && windows.Keys == old(windows).Keys + {key}
                && forall k :: k in windows && k != key ==> windows[k] == old(windows)[k]
      ensures |old(windows).Keys + {key}| > 1024 ==>
                && key in windows
                && forall k :: k != key ==>
                     (k in windows <==> k in old(windows) && now - old(windows)[k].startedAt < 60_000_000_000)
                     && (k in windows ==> windows[k] == old(windows)[k])
      ensures key in windows && windows[key] ==
                if key !in old(windows) || old(windows)[key].startedAt == 0 || now - old(windows)[key].startedAt >= 60_000_000_000
                then Window(now, 1) else Window(old(windows)[key].startedAt, old(windows)[key].count + 1)
    {
      assert windows[key := Counted(windows, key, now)].Keys == windows.Keys + {key};
      assert |windows[key := Counted(windows, key, now)]| == |windows[key := Counted(windows, key, now)].Keys|;
      var window := if key in windows then windows[key] else Window(ZERO, 0);
      if window.startedAt == ZERO || now - window.startedAt >= MINUTE {
        window := Window(now, 0);
      }
      window := window.(count := window.count + 1);
      windows := windows[key := window];
      if |windows| > CROWD {
        ghost var before := windows;
        var todo := windows.Keys;
        while todo != {}
          invariant todo <= before.Keys && windows.Keys <= before.Keys
          invariant forall k :: k in windows ==> windows[k] == before[k]
          invariant forall k :: k in before ==> (k in windows <==> k in todo || now - before[k].startedAt < MINUTE)
        {
          var itemKey :| itemKey in todo;
          todo := todo - {itemKey};
          if now - windows[itemKey].startedAt >= MINUTE {
            windows := windows - {itemKey};
          }
        }
        assert windows == Swept(before, now);
      }
      return window.count <= LIMIT;
    }
  }

  // ---------- Traces ----------

  datatype Request = Request(key: string, now: Time)

  predicate Ordered(trace: seq<Request>) {
    forall i, j :: 0 <= i < j < |trace| ==> trace[i].now <= trace[j].now
  }

  /** The windows after a trace, as the limiter keeps them. */
  function Kept(trace: seq<Request>): map<string, Window> {
    if trace == [] then map[] else
      After(Kept(trace[..|trace| - 1]), trace[|trace| - 1].key, trace[|trace| - 1].now)
  }

  /** The windows after a trace, were none ever swept out. */
  function Unswept(trace: seq<Request>): map<string, Window> {
    if trace == [] then map[] else
      var w, r := Unswept(trace[..|trace| - 1]), trace[|trace| - 1];
      w[r.key := Counted(w, r.key, r.now)]
  }

  /** The limiter's decision on a request that follows a trace. */
  predicate Admits(trace: seq<Request>, r: Request) { Counted(Kept(trace), r.key, r.now).count <= LIMIT }

  ghost predicate SweptAway(kept: map<string, Window>, all: map<string, Window>, now: Time) {
    && (forall k :: k in kept ==> k in all && kept[k] == all[k])
    && (forall k :: k in all && k !in kept ==> now - all[k].startedAt >= MINUTE)
  }

  lemma {:induction false} OnlyExpiredSwept(trace: seq<Request>, now: Time)
    requires Ordered(trace) && forall i :: 0 <= i < |trace| ==> trace[i].now <= now
    ensures SweptAway(Kept(trace), Unswept(trace), now)
  {
    if trace != [] {
      var n := |trace| - 1;
      OnlyExpiredSwept(trace[..n], trace[n].now);
    }
  }

  /** Sweeping never shows: the limiter decides as one that keeps every window. */
  lemma SweepingIsInvisible(trace: seq<Request>, r: Request)
    requires Ordered(trace + [r])
    ensures Admits(trace, r) <==> Counted(Unswept(trace), r.key, r.now).count <= LIMIT
  {
    forall i | 0 <= i < |trace| ensures trace[i].now <= r.now {
      assert (trace + [r])[i] == trace[i] && (trace + [r])[|trace|] == r;
    }
    forall i, j | 0 <= i < j < |trace| ensures trace[i].now <= trace[j].now {
      assert (trace + [r])[i] == trace[i] && (trace + [r])[j] == trace[j];
    }
    OnlyExpiredSwept(trace, r.now);
  }

  // ---------- The rate ----------

  /** How many requests of `key` at instants in `[from, from + MINUTE)` are admitted. */
  function AdmittedWithin(trace: seq<Request>, key: string, from: Time): nat {
    if trace == [] then 0 else
      var before, r := trace[..|trace| - 1], trace[|trace| - 1];
      AdmittedWithin(before, key, from)
      + if r.key == key && from <= r.now < from + MINUTE && Admits(before, r) then 1 else 0
  }

  ghost predicate Clocked(trace: seq<Request>) {
    Ordered(trace) && forall i :: 0 <= i < |trace| ==> trace[i].now != ZERO
  }

  function Min(a: nat, b: nat): nat { if a < b then a else b }

  ghost predicate Within(admitted: nat, key: string, from: Time, windows: map<string, Window>) {
    if key !in windows then admitted == 0 else
      var w := windows[key];
      && w.startedAt != ZERO && (admitted > 0 ==> from < w.startedAt + MINUTE)
      && (w.startedAt <= from ==> admitted <= Min(w.count, LIMIT))
      && (from < w.startedAt < from + MINUTE ==> admitted <= LIMIT + Min(w.count, LIMIT))
      && admitted <= 2 * LIMIT
  }

  lemma WithinStep(admitted: nat, key: string, from: Time, windows: map<string, Window>, now: Time)
    requires Within(admitted, key, from, windows) && now != ZERO
    requires key in windows ==> windows[key].startedAt <= now
    ensures var w := Counted(windows, key, now);
            Within(admitted + if from <= now < from + MINUTE && w.count <= LIMIT then 1 else 0, key, from, windows[key := w])
  {}

  lemma {:induction false} RateInvariant(trace: seq<Request>, key: string, from: Time)
    requires Clocked(trace)
    ensures Within(AdmittedWithin(trace, key, from), key, from, Unswept(trace))
  {
    hide Counted, Kept, After;
    if trace != [] {
      var n := |trace| - 1;
      var before, r := trace[..n], trace[n];
      RateInvariant(before, key, from);
      assert before + [r] == trace;
      SweepingIsInvisible(before, r);
      if key in Unswept(before) { WindowStarts(before, key); }
      if r.key == key { WithinStep(AdmittedWithin(before, key, from), key, from, Unswept(before), r.now); }
    }
  }

  /** In no minute, wherever it starts, does a key get more than 1200 requests through. */
  lemma AtMostTwiceTheLimit(trace: seq<Request>, key: string, from: Time)
    requires Clocked(trace)
    ensures AdmittedWithin(trace, key, from) <= 1200
  {
    RateInvariant(trace, key, from);
  }

  /** Within the current window the limiter admits the first 600 requests and no other. */
  lemma {:induction false} WindowExact(trace: seq<Request>, key: string)
    requires Clocked(trace) && key in Unswept(trace)
    ensures var w := Unswept(trace)[key]; AdmittedWithin(trace, key, w.startedAt) == if w.count < 600 then w.count else 600
  {
    hide Kept, After;
    var n := |trace| - 1;
    var before, r := trace[..n], trace[n];
    assert before + [r] == trace;
    SweepingIsInvisible(before, r);
    if key in Unswept(before) { WindowExact(before, key); RateInvariant(before, key, Unswept(before)[key].startedAt); }
    WindowStarts(trace, key);
    RateInvariant(before, key, Unswept(trace)[key].startedAt);
  }

  /** A request is turned away exactly when its key has had 600 in a window that started less than a minute ago. */
  lemma AdmitsIff(trace: seq<Request>, r: Request)
    requires Clocked(trace + [r])
    ensures Admits(trace, r) <==>
              r.key !in Unswept(trace) || r.now - Unswept(trace)[r.key].startedAt >= 60_000_000_000 || Unswept(trace)[r.key].count < 600
  {
    SweepingIsInvisible(trace, r);
    if r.key in Unswept(trace) {
      forall i | 0 <= i < |trace| ensures trace[i].now != ZERO {
        assert (trace + [r])[i] == trace[i];
      }
      forall i, j | 0 <= i < j < |trace| ensures trace[i].now <= trace[j].now {
        assert (trace + [r])[i] == trace[i] && (trace + [r])[j] == trace[j];
      }
      RateInvariant(trace, r.key, 0);
    }
  }

  lemma {:induction false} WindowStarts(trace: seq<Request>, key: string)
    requires Clocked(trace) && key in Unswept(trace)
    ensures Unswept(trace)[key].startedAt <= trace[|trace| - 1].now
  {
    var n := |trace| - 1;
    if key in Unswept(trace[..n]) && n > 0 { WindowStarts(trace[..n], key); }
  }

  /** At the zero time, which marks a missing window, every request starts a new window: nothing is limited. */
  lemma ZeroTimeUnlimited(trace: seq<Request>, key: string)
    requires forall i :: 0 <= i < |trace| ==> trace[i].now == ZERO
    ensures Admits(trace, Request(key, ZERO))
  {
    AllAtZero(trace);
  }

  lemma {:induction false} AllAtZero(trace: seq<Request>)
    requires forall i :: 0 <= i < |trace| ==> trace[i].now == ZERO
    ensures forall k :: k in Kept(trace) ==> Kept(trace)[k] == Window(ZERO, 1)
  {
    if trace != [] { AllAtZero(trace[..|trace| - 1]); }
  }
}
