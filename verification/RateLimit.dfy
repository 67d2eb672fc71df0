/** The fixed-window rate limiter: a table of counts per key, emptied at every tick of a timer. */
module RateLimit {

  const TABLE_CAP: int := 100000

  /** One request by a key, or one tick that empties the table, at its time. */
  datatype Event = Request(time: int, key: string) | Reset(time: int)

  function CountOf(table: map<string, int>, key: string): int {
    if key in table then table[key] else 0
  }

  predicate Admits(table: map<string, int>, max: int, key: string) {
    |table| <= TABLE_CAP && CountOf(table, key) < max
  }

  function Step(table: map<string, int>, max: int, e: Event): map<string, int> {
    match e
    case Reset(_) => map[]
    case Request(_, key) => if Admits(table, max, key) then table[key := CountOf(table, key) + 1] else table
  }

  /** The table after a run of events from an empty start. */
  function TableAfter(max: int, events: seq<Event>): map<string, int> {
    if events == [] then map[] else Step(TableAfter(max, events[..|events| - 1]), max, events[|events| - 1])
  }

  class RateLimiter {
    var tokens: map<string, int>
    const max: int

    constructor (max: int)
      ensures this.max == max && tokens == TableAfter(max, [])
    {
      this.max := max;
      tokens := map[];
    }

    method Allow(key: string, ghost time: int) returns (ok: bool)
      modifies this
      ensures tokens == Step(old(tokens), max, Request(time, key))
      ensures ok <==> |old(tokens)| <= TABLE_CAP && CountOf(old(tokens), key) < max
      ensures ok ==> CountOf(tokens, key) == CountOf(old(tokens), key) + 1
      ensures forall k :: k != key ==> CountOf(tokens, k) == CountOf(old(tokens), k)
      ensures !ok ==> tokens == old(tokens)
    {
      if |tokens| > TABLE_CAP {
        return false;
      }
      var count := if key in tokens then tokens[key] else 0;
      if count >= max {
        return false;
      }
      tokens := tokens[key := count + 1];
      return true;
    }

    method Cleanup(ghost time: int)
      modifies this
      ensures tokens == Step(old(tokens), max, Reset(time))
      ensures forall k :: CountOf(tokens, k) == 0 && (Admits(tokens, max, k) <==> max > 0)
    {
      tokens := map[];
    }
  }

  // ---------- counting ----------

  /** The i-th event is a request of this key, and is let through. */
  predicate Admitted(max: int, events: seq<Event>, key: string, i: nat)
    requires i < |events|
  {
    events[i].Request? && events[i].key == key && Admits(TableAfter(max, events[..i]), max, key)
  }

  /** How many requests of a key are let through among the events from a up to b. */
  function Admissions(max: int, events: seq<Event>, key: string, a: nat, b: nat): nat
    requires a <= b <= |events|
  {
    if a == b then 0
    else Admissions(max, events, key, a, b - 1) + if Admitted(max, events, key, b - 1) then 1 else 0
  }

  function Resets(events: seq<Event>, a: nat, b: nat): nat
    requires a <= b <= |events|
  {
    if a == b then 0 else Resets(events, a, b - 1) + if events[b - 1].Reset? then 1 else 0
  }

  function Limit(max: int): nat {
    if max < 0 then 0 else max
  }

  lemma NextTable(max: int, events: seq<Event>, b: nat)
    requires 0 < b <= |events|
    ensures TableAfter(max, events[..b]) == Step(TableAfter(max, events[..b - 1]), max, events[b - 1])
  {
    assert events[..b][..b - 1] == events[..b - 1];
  }

  // Across any stretch of a run, the requests of a key let through are at most the limit for every reset in
  // the stretch, plus what the table holds for the key at its end, which never exceeds the limit.
  lemma {:induction false} AdmissionsByTable(max: int, events: seq<Event>, key: string, a: nat, b: nat)
    requires a <= b <= |events|
    ensures 0 <= CountOf(TableAfter(max, events[..b]), key) <= Limit(max)
    ensures Admissions(max, events, key, a, b)
      <= Resets(events, a, b) * Limit(max) + CountOf(TableAfter(max, events[..b]), key)
    decreases b
  {
    if b > 0 {
      NextTable(max, events, b);
      AdmissionsByTable(max, events, key, if a < b then a else 0, b - 1);
      if a < b && events[b - 1].Reset? {
        OneMoreTimes(Resets(events, a, b - 1), Limit(max));
      }
    }
  }

  lemma OneMoreTimes(r: nat, l: nat)
    ensures (r + 1) * l == r * l + l
  {
  }

  // A stretch of a run with r resets in it lets at most (r + 1) times the limit through for one key.
  lemma AdmissionsBound(max: int, events: seq<Event>, key: string, a: nat, b: nat)
    requires a <= b <= |events|
    ensures Admissions(max, events, key, a, b) <= (Resets(events, a, b) + 1) * Limit(max)
  {
    AdmissionsByTable(max, events, key, a, b);
  }

  // ---------- timed runs ----------

  /** Events are in order of time, and any two resets are at least the interval apart. */
  ghost predicate Timed(events: seq<Event>, interval: int) {
    && (forall i, j :: 0 <= i < j < |events| ==> events[i].time <= events[j].time)
    && (forall i, j :: 0 <= i < j < |events| && events[i].Reset? && events[j].Reset? ==>
          events[j].time - events[i].time >= interval)
  }

  lemma {:induction false} FewResets(events: seq<Event>, interval: int, a: nat, b: nat)
    requires a <= b <= |events| && Timed(events, interval)
    requires forall i, j :: a <= i < b && a <= j < b ==> events[j].time - events[i].time < interval
    ensures Resets(events, a, b) <= 1
    ensures Resets(events, a, b) == 0 <==> forall i :: a <= i < b ==> !events[i].Reset?
    decreases b
  {
    if a < b {
      FewResets(events, interval, a, b - 1);
    }
  }

  // A window of time is a stretch of the run.
  lemma {:induction false} WindowIsStretch(events: seq<Event>, interval: int, from: int, length: int)
    returns (a: nat, b: nat)
    requires Timed(events, interval)
    ensures a <= b <= |events|
    ensures forall i :: 0 <= i < |events| ==> (from <= events[i].time < from + length <==> a <= i < b)
  {
    a := 0;
    while a < |events| && events[a].time < from
      invariant a <= |events|
      invariant forall i :: 0 <= i < a ==> events[i].time < from
    {
      a := a + 1;
    }
    b := a;
    while b < |events| && events[b].time < from + length
      invariant a <= b <= |events|
      invariant forall i :: a <= i < b ==> events[i].time < from + length
    {
      b := b + 1;
    }
  }

  /** The requests of a key let through in a set of positions of a run. */
  function AdmittedIn(max: int, events: seq<Event>, key: string, from: int, until: int): set<nat> {
    set i: nat | i < |events| && from <= events[i].time < until && Admitted(max, events, key, i)
  }

  lemma WithoutOne(s: set<nat>, x: nat)
    ensures |s| == |s - {x}| + if x in s then 1 else 0
  {
    if x !in s { assert s - {x} == s; }
  }

  lemma {:induction false} AdmissionsCountSet(max: int, events: seq<Event>, key: string, a: nat, b: nat, s: set<nat>)
    requires a <= b <= |events|
    requires forall i: nat :: i in s <==> a <= i < b && Admitted(max, events, key, i)
    ensures |s| == Admissions(max, events, key, a, b)
    decreases b
  {
    hide Admitted, TableAfter;
    if a == b {
      assert s == {};
    } else {
      AdmissionsCountSet(max, events, key, a, b - 1, s - {b - 1});
      WithoutOne(s, b - 1);
    }
  }

  // With resets at least an interval apart, any half-open window of one interval lets at most twice the limit
  // through for one key.
  lemma WindowBound(max: int, events: seq<Event>, interval: int, key: string, from: int)
    requires Timed(events, interval) && interval > 0
    ensures |AdmittedIn(max, events, key, from, from + interval)| <= 2 * Limit(max)
  {
    hide TableAfter, Admits, Admitted, Admissions, Resets, Limit, Timed;
    var a, b := WindowIsStretch(events, interval, from, interval);
    StretchIsShort(events, interval, from, a, b);
    FewResets(events, interval, a, b);
    AdmissionsBound(max, events, key, a, b);
    AdmissionsCountSet(max, events, key, a, b, AdmittedIn(max, events, key, from, from + interval));
    AtMostTwice(Resets(events, a, b), Limit(max));
  }

  lemma StretchIsShort(events: seq<Event>, interval: int, from: int, a: nat, b: nat)
    requires a <= b <= |events| && forall i :: a <= i < b ==> from <= events[i].time < from + interval
    ensures forall i, j :: a <= i < b && a <= j < b ==> events[j].time - events[i].time < interval
  {
  }

  lemma AtMostTwice(r: nat, l: nat)
    requires r <= 1
    ensures (r + 1) * l <= 2 * l
  {
  }

  /** As many requests as the limit allows, a reset, and as many again, all at one moment. */
  function DoubleBurst(max: nat, key: string): seq<Event> {
    seq(2 * max + 1, i => if i == max then Reset(0) else Request(0, key))
  }

  lemma {:induction false} DoubleBurstAdmitsAll(max: nat, key: string, n: nat)
    requires n <= 2 * max + 1
    ensures var events, table := DoubleBurst(max, key), TableAfter(max, DoubleBurst(max, key)[..n]);
      && table.Keys <= {key}
      && CountOf(table, key) == (if n <= max then n else n - max - 1)
      && Admissions(max, events, key, 0, n) == (if n <= max then n else n - 1)
  {
    if n > 0 {
      DoubleBurstAdmitsAll(max, key, n - 1);
      NextTable(max, DoubleBurst(max, key), n);
      AtMostOneKey(TableAfter(max, DoubleBurst(max, key)[..n - 1]), key);
    }
  }

  // The bound on a window is reached, for every limit and every interval.
  lemma WindowBoundIsReached(max: nat, interval: int, key: string)
    requires interval > 0
    ensures var events := DoubleBurst(max, key);
      Timed(events, interval) && |AdmittedIn(max, events, key, 0, interval)| == 2 * max
  {
    hide TableAfter, Admits, Admitted, Admissions;
    var events := DoubleBurst(max, key);
    DoubleBurstAdmitsAll(max, key, |events|);
    AdmissionsCountSet(max, events, key, 0, |events|, AdmittedIn(max, events, key, 0, interval));
  }

  // Each stored count is the number of requests let through for the key since the last reset.
  lemma {:induction false} CountsSinceReset(max: int, events: seq<Event>, key: string, a: nat, b: nat)
    requires a <= b <= |events|
    requires a == 0 || events[a - 1].Reset?
    requires forall i :: a <= i < b ==> !events[i].Reset?
    ensures CountOf(TableAfter(max, events[..b]), key) == Admissions(max, events, key, a, b)
    decreases b
  {
    if b > 0 { NextTable(max, events, b); }
    if a < b { CountsSinceReset(max, events, key, a, b - 1); }
  }

  // The table never holds more than one key above its cap.
  lemma {:induction false} TableBounded(max: int, events: seq<Event>)
    ensures |TableAfter(max, events)| <= 100_001
  {
    if events != [] {
      TableBounded(max, events[..|events| - 1]);
      var table := TableAfter(max, events[..|events| - 1]);
      var e := events[|events| - 1];
      if e.Request? && e.key !in table {
        assert table[e.key := CountOf(table, e.key) + 1].Keys == table.Keys + {e.key};
        assert |table.Keys + {e.key}| == |table.Keys| + 1;
      }
    }
  }

  // ---------- independence of keys ----------

  /** The run as one key sees it: its own requests and the resets. */
  function Only(events: seq<Event>, key: string): seq<Event> {
    if events == [] then []
    else
      var rest, e := Only(events[..|events| - 1], key), events[|events| - 1];
      if e.Request? && e.key != key then rest else rest + [e]
  }

  /** The answers a key gets in a run, in order. */
  function Answers(max: int, events: seq<Event>, key: string): seq<bool> {
    if events == [] then []
    else
      var before, e := events[..|events| - 1], events[|events| - 1];
      Answers(max, before, key)
      + if e.Request? && e.key == key then [Admits(TableAfter(max, before), max, key)] else []
  }

  ghost predicate NeverFull(max: int, events: seq<Event>) {
    forall n :: 0 <= n <= |events| ==> |TableAfter(max, events[..n])| <= TABLE_CAP
  }

  lemma AtMostOneKey(table: map<string, int>, key: string)
    requires table.Keys <= {key}
    ensures |table| <= 1
  {
    assert |table| == |table.Keys|;
    if key in table.Keys { assert table.Keys == {key}; } else { assert table.Keys == {}; }
  }

  lemma TableSnoc(max: int, events: seq<Event>, e: Event)
    ensures TableAfter(max, events + [e]) == Step(TableAfter(max, events), max, e)
  {
    assert (events + [e])[..|events|] == events;
  }

  lemma OnlySnoc(events: seq<Event>, e: Event, key: string)
    ensures Only(events + [e], key) == if e.Request? && e.key != key then Only(events, key) else Only(events, key) + [e]
  {
    assert (events + [e])[..|events|] == events;
  }

  lemma NothingYet(max: int, key: string)
    ensures Only([], key) == [] && TableAfter(max, []) == map[]
  {
  }

  lemma {:induction false} OnlyTable(max: int, events: seq<Event>, key: string)
    requires NeverFull(max, events)
    ensures TableAfter(max, Only(events, key)).Keys <= {key}
    ensures CountOf(TableAfter(max, Only(events, key)), key) == CountOf(TableAfter(max, events), key)
    ensures |TableAfter(max, Only(events, key))| <= TABLE_CAP
  {
    hide TableAfter, Only;
    NothingYet(max, key);
    if events != [] {
      var before, e := events[..|events| - 1], events[|events| - 1];
      assert events == before + [e];
      assert forall n :: 0 <= n <= |before| ==> before[..n] == events[..n];
      OnlyTable(max, before, key);
      assert events[..|before|] == before && |TableAfter(max, events[..|before|])| <= TABLE_CAP;
      TableSnoc(max, before, e);
      OnlySnoc(before, e, key);
      TableSnoc(max, Only(before, key), e);
    }
    AtMostOneKey(TableAfter(max, Only(events, key)), key);
  }

  // While the table stays within its cap, the answers one key gets do not depend on the traffic of others.
  lemma {:induction false} KeysAreIndependent(max: int, events: seq<Event>, key: string)
    requires NeverFull(max, events)
    ensures Answers(max, Only(events, key), key) == Answers(max, events, key)
  {
    if events != [] {
      var before, e := events[..|events| - 1], events[|events| - 1];
      assert forall n :: 0 <= n <= |before| ==> before[..n] == events[..n];
      KeysAreIndependent(max, before, key);
      OnlyTable(max, before, key);
      assert events[..|before|] == before && |TableAfter(max, events[..|before|])| <= TABLE_CAP;
      var rest := Only(before, key);
      assert (rest + [e])[..|rest|] == rest;
    }
  }
}
