/** The timer: an ordered multimap of events behind a one-shot timerfd (rocket/net/timer.cpp,
    timer_event.cpp). Every reading of the clock takes the next value of `clock`. */
module Timers {

  import opened Options

  type Clock = nat -> int

  datatype Event = Event(arrive: int, interval: int, repeated: bool, canceled: bool)

  /** An entry of the multimap. `serial` numbers the insertions. */
  datatype Entry = Entry(key: int, id: nat, serial: nat)

  /** `armed` is the deadline of the timerfd, `armedAt` the clock reading it was set at. */
  datatype State = State(pending: seq<Entry>, events: map<nat, Event>, armed: Option<int>, armedAt: int,
                         tick: nat, serial: nat)

  // ---------------------------------------------------------------- the multimap

  /** How many entries at the front have a key up to `key`. */
  function UpTo(pending: seq<Entry>, key: int): (n: nat)
    ensures n <= |pending|
    ensures forall i :: 0 <= i < n ==> pending[i].key <= key
    ensures n < |pending| ==> pending[n].key > key
  {
    if pending == [] || pending[0].key > key then 0 else 1 + UpTo(pending[1..], key)
  }

  /** emplace: behind the entries with the same key. */
  function Insert(pending: seq<Entry>, e: Entry): seq<Entry> {
    pending[..UpTo(pending, e.key)] + [e] + pending[UpTo(pending, e.key)..]
  }

  /** Without the first entry of event `id` under `key`. */
  function Erase(pending: seq<Entry>, key: int, id: nat): seq<Entry> {
    if pending == [] then []
    else if pending[0].key == key && pending[0].id == id then pending[1..]
    else [pending[0]] + Erase(pending[1..], key, id)
  }

  /** In order of arrival time, and of insertion among equal ones. */
  ghost predicate Before(a: Entry, b: Entry) { a.key < b.key || (a.key == b.key && a.serial < b.serial) }

  ghost predicate Ordered(pending: seq<Entry>) {
    forall i, j :: 0 <= i < j < |pending| ==> Before(pending[i], pending[j])
  }

  ghost predicate OncePerEvent(pending: seq<Entry>) {
    forall i, j :: 0 <= i < j < |pending| ==> pending[i].id != pending[j].id
  }

  ghost predicate IsPending(pending: seq<Entry>, id: nat) { exists i :: 0 <= i < |pending| && pending[i].id == id }

  /** The entries of an insertion, place by place. */
  lemma InsertPlaces(pending: seq<Entry>, e: Entry)
    ensures var n, p := UpTo(pending, e.key), Insert(pending, e);
            && |p| == |pending| + 1 && p[n] == e
            && (forall i :: 0 <= i < n ==> p[i] == pending[i])
            && (forall i :: n < i < |p| ==> p[i] == pending[i - 1])
  {
  }

  lemma InsertMembers(pending: seq<Entry>, e: Entry)
    ensures forall x :: x in Insert(pending, e) <==> x == e || x in pending
  {
    var n := UpTo(pending, e.key);
    assert pending == pending[..n] + pending[n..];
    forall x ensures x in Insert(pending, e) <==> x == e || x in pending {
      BetweenMembers(pending[..n], e, pending[n..], x);
    }
  }

  lemma BetweenMembers(front: seq<Entry>, e: Entry, back: seq<Entry>, x: Entry)
    ensures x in front + [e] + back <==> x == e || x in front + back
  {
  }

  lemma InsertOrders(pending: seq<Entry>, e: Entry)
    requires Ordered(pending) && forall i :: 0 <= i < |pending| ==> pending[i].serial < e.serial
    ensures Ordered(Insert(pending, e))
    ensures !IsPending(pending, e.id) && OncePerEvent(pending) ==> OncePerEvent(Insert(pending, e))
    ensures Insert(pending, e) != []
    ensures Insert(pending, e)[0] == if pending == [] || e.key < pending[0].key then e else pending[0]
  {
    hide Insert;
    InsertPlaces(pending, e);
    var n, p := UpTo(pending, e.key), Insert(pending, e);
    forall i | n <= i < |pending| ensures pending[i].key > e.key {
      assert i == n || Before(pending[n], pending[i]);
    }
    forall i, j | 0 <= i < j < |p| ensures Before(p[i], p[j]) {
      var i', j' := if i > n then i - 1 else i, if j > n then j - 1 else j;
      assert i != n && j != n ==> Before(pending[i'], pending[j']);
    }
  }

  lemma {:induction false} EraseKeeps(pending: seq<Entry>, key: int, id: nat)
    requires Ordered(pending) && OncePerEvent(pending)
    ensures var p := Erase(pending, key, id);
            && Ordered(p) && OncePerEvent(p)
            && (forall x :: x in p <==> x in pending && !(x.key == key && x.id == id))
            && (p != [] ==> pending != [] && p[0].key >= pending[0].key)
  {
    if pending != [] {
      var rest := pending[1..];
      EraseKeeps(rest, key, id);
      assert pending == [pending[0]] + rest;
      if pending[0].key == key && pending[0].id == id {
        forall x | x in rest ensures x.id != id {
        }
      } else {
        var p := Erase(rest, key, id);
        assert forall i :: 0 <= i < |p| ==> p[i] in rest;
      }
    }
  }

  // ---------------------------------------------------------------- the operations

  /** Timer::resetArriveTime */
  ghost function Arm(clock: Clock, t: State): State
    requires Known(t)
  {
    if t.pending == [] then t
    else
      var now := clock(t.tick);
      t.(armed := Some(now + Interval(t.events[t.pending[0].id].arrive, now)), armedAt := now, tick := t.tick + 1)
  }

  function Interval(arrive: int, now: int): int { if arrive > now then arrive - now else 100 }

  /** TimerEvent::resetArriveTime */
  ghost function Refresh(clock: Clock, t: State, id: nat): State
    requires id in t.events
  {
    var e := t.events[id];
    t.(events := t.events[id := e.(arrive := clock(t.tick) + e.interval)], tick := t.tick + 1)
  }

  /** The constructor of TimerEvent. */
  ghost function Create(clock: Clock, t: State, id: nat, interval: int, repeated: bool): State {
    Refresh(clock, t.(events := t.events[id := Event(0, interval, repeated, false)]), id)
  }

  ghost function Add(clock: Clock, t: State, id: nat): State
    requires Known(t) && id in t.events
  {
    var arrive := t.events[id].arrive;
    var reset := t.pending == [] || t.events[t.pending[0].id].arrive > arrive;
    InsertKnown(t, Entry(arrive, id, t.serial));
    var t1 := t.(pending := Insert(t.pending, Entry(arrive, id, t.serial)), serial := t.serial + 1);
    if reset then Arm(clock, t1) else t1
  }

  ghost function Delete(t: State, id: nat): State
    requires id in t.events
  {
    var e := t.events[id];
    t.(events := t.events[id := e.(canceled := true)], pending := Erase(t.pending, e.arrive, id))
  }

  /** The events of these entries that are not cancelled, in their order. */
  ghost function Live(events: map<nat, Event>, due: seq<Entry>): (ids: seq<nat>)
    requires forall i :: 0 <= i < |due| ==> due[i].id in events
    ensures forall i :: 0 <= i < |ids| ==> ids[i] in events
  {
    if due == [] then []
    else
      var n := |due| - 1;
      Live(events, due[..n]) + (if events[due[n].id].canceled then [] else [due[n].id])
  }

  /** Each of these events that repeats gets a fresh arrival time and is added again. */
  ghost function Again(clock: Clock, t: State, ids: seq<nat>): (t': State)
    requires Known(t) && forall i :: 0 <= i < |ids| ==> ids[i] in t.events
    ensures Known(t') && t'.events.Keys == t.events.Keys
  {
    if ids == [] then t
    else
      var n := |ids| - 1;
      var t1 := Again(clock, t, ids[..n]);
      if !t1.events[ids[n]].repeated then t1
      else
        var t2 := Refresh(clock, t1, ids[n]);
        InsertKnown(t2, Entry(t2.events[ids[n]].arrive, ids[n], t2.serial));
        Add(clock, t2, ids[n])
  }

  /** Every entry belongs to an event. */
  ghost predicate Known(t: State) { forall i :: 0 <= i < |t.pending| ==> t.pending[i].id in t.events }

  lemma InsertKnown(t: State, e: Entry)
    requires Known(t) && e.id in t.events
    ensures forall i :: 0 <= i < |Insert(t.pending, e)| ==> Insert(t.pending, e)[i].id in t.events
  {
  }

  /** onTimer up to the callbacks: what it fires, and the state it leaves. The first clock reading is the
      kernel's, when it decides whether the timerfd has expired. */
  ghost function Tick(clock: Clock, t: State): (seq<nat>, State)
    requires Known(t)
  {
    var armed := if t.armed.Some? && t.armed.value <= clock(t.tick) then None else t.armed;
    var now := clock(t.tick + 1);
    var n := UpTo(t.pending, now);
    var fired := Live(t.events, t.pending[..n]);
    var t1 := t.(armed := armed, pending := t.pending[n..], tick := t.tick + 2);
    (fired, Arm(clock, Again(clock, t1, fired)))
  }

  ghost predicate AliveIn(events: map<nat, Event>, due: seq<Entry>, id: nat) {
    exists i :: 0 <= i < |due| && due[i].id == id && id in events && !events[id].canceled
  }

  lemma {:induction false} LiveKnown(events: map<nat, Event>, due: seq<Entry>)
    requires forall i :: 0 <= i < |due| ==> due[i].id in events
    ensures var ids := Live(events, due);
            forall id :: id in ids <==> AliveIn(events, due, id)
  {
    if due != [] {
      var n := |due| - 1;
      LiveKnown(events, due[..n]);
      forall id ensures id in Live(events, due) <==> AliveIn(events, due, id) {
        AliveOrLast(events, due, id);
      }
    }
  }

  lemma AliveOrLast(events: map<nat, Event>, due: seq<Entry>, id: nat)
    requires due != [] && forall i :: 0 <= i < |due| ==> due[i].id in events
    ensures var last := due[|due| - 1];
            AliveIn(events, due, id)
            <==> AliveIn(events, due[..|due| - 1], id) || (last.id == id && !events[id].canceled)
  {
    var n := |due| - 1;
    if AliveIn(events, due[..n], id) {
      var i :| 0 <= i < n && due[..n][i].id == id && !events[id].canceled;
      assert due[i].id == id;
    }
    if AliveIn(events, due, id) {
      var i :| 0 <= i < |due| && due[i].id == id && !events[id].canceled;
      if i < n { assert due[..n][i].id == id; }
    }
  }

  // ---------------------------------------------------------------- the invariant

  ghost predicate KeysAgree(t: State) {
    forall i :: 0 <= i < |t.pending| ==>
      t.pending[i].id in t.events && t.pending[i].key == t.events[t.pending[i].id].arrive
  }

  function Max(a: int, b: int): int { if a < b then b else a }

  /** If anything is pending, the timerfd goes off no later than the earliest event, or 100 ms after it
      was last set. */
  ghost predicate WillWake(t: State) {
    t.pending != [] ==> t.armed.Some? && t.armed.value <= Max(t.pending[0].key, t.armedAt + 100)
  }

  ghost predicate Consistent(t: State) {
    && KeysAgree(t) && Ordered(t.pending) && OncePerEvent(t.pending)
    && (forall i :: 0 <= i < |t.pending| ==> t.pending[i].serial < t.serial)
  }

  ghost predicate Inv(t: State) { Consistent(t) && WillWake(t) }

  /** The timespec handed to timerfd_settime. */
  function Timespec(interval: int): (int, int)
    requires interval > 0
  {
    (interval / 1000, interval % 1000 * 1000000)
  }

  /** Arming sets an exact, positive time: never zero, which would disarm the timerfd, and the seconds and
      nanoseconds together are the interval. */
  lemma ArmIsExact(arrive: int, now: int)
    ensures var interval := Interval(arrive, now);
            && interval > 0
            && var (sec, nsec) := Timespec(interval);
               && 0 <= nsec < 1000000000 && sec >= 0 && (sec, nsec) != (0, 0)
               && sec * 1000000000 + nsec == interval * 1000000
    ensures arrive > now ==> now + Interval(arrive, now) == arrive
  {
  }

  /** Arming looks at the earliest event: the deadline is its arrival if that is still to come, and 100 ms
      from now otherwise; with nothing pending nothing is done. */
  lemma ArmSets(clock: Clock, t: State)
    requires Consistent(t)
    ensures t.pending == [] ==> Arm(clock, t) == t
    ensures t.pending != [] ==>
              var now, t' := clock(t.tick), Arm(clock, t);
              && t' == t.(armed := t'.armed, armedAt := now, tick := t.tick + 1)
              && t'.armed == Some(if t.pending[0].key > now then t.pending[0].key else now + 100)
  {
  }

  lemma ArmWakes(clock: Clock, t: State)
    requires Consistent(t)
    ensures Inv(Arm(clock, t))
  {
  }

  lemma AddKeeps(clock: Clock, t: State, id: nat)
    requires Consistent(t) && id in t.events && !IsPending(t.pending, id)
    ensures Consistent(Add(clock, t, id)) && (Inv(t) ==> Inv(Add(clock, t, id)))
    ensures forall x :: x in Add(clock, t, id).pending <==>
              x in t.pending || x == Entry(t.events[id].arrive, id, t.serial)
    ensures Add(clock, t, id).events == t.events && Add(clock, t, id).tick >= t.tick
  {
    var e := Entry(t.events[id].arrive, id, t.serial);
    InsertOrders(t.pending, e);
    InsertMembers(t.pending, e);
    var t1 := t.(pending := Insert(t.pending, e), serial := t.serial + 1);
    assert Consistent(t1) by {
      forall i | 0 <= i < |t1.pending|
        ensures t1.pending[i].id in t.events && t1.pending[i].key == t.events[t1.pending[i].id].arrive
                && t1.pending[i].serial < t1.serial
      {
        assert t1.pending[i] in t1.pending;
      }
    }
    ArmWakes(clock, t1);
  }

  /** Adding sets the timerfd anew exactly if the event comes before all that are pending, and then for it. */
  lemma AddArms(clock: Clock, t: State, id: nat)
    requires Consistent(t) && id in t.events && !IsPending(t.pending, id)
    ensures var t', arrive, now := Add(clock, t, id), t.events[id].arrive, clock(t.tick);
            if t.pending == [] || arrive < t.pending[0].key
            then t'.armed == Some(if arrive > now then arrive else now + 100) && t'.armedAt == now
            else t'.armed == t.armed && t'.armedAt == t.armedAt && t'.tick == t.tick
  {
    hide Insert, UpTo;
    var e := Entry(t.events[id].arrive, id, t.serial);
    InsertOrders(t.pending, e);
  }

  lemma DeleteKeeps(t: State, id: nat)
    requires Inv(t) && id in t.events
    ensures Inv(Delete(t, id))
    ensures !IsPending(Delete(t, id).pending, id) && Delete(t, id).events[id].canceled
    ensures forall x :: x in Delete(t, id).pending <==> x in t.pending && x.id != id
  {
    var p := Erase(t.pending, t.events[id].arrive, id);
    EraseKeeps(t.pending, t.events[id].arrive, id);
    forall i | 0 <= i < |p|
      ensures p[i].id in t.events && p[i].key == t.events[p[i].id].arrive && p[i].id != id && p[i].serial < t.serial
    {
      assert p[i] in p;
    }
  }

  // ---------------------------------------------------------------- a tick

  ghost predicate Distinct(ids: seq<nat>) { forall i, j :: 0 <= i < j < |ids| ==> ids[i] != ids[j] }

  /** The event was given a new arrival time by a clock reading between these two ticks. */
  ghost predicate Refreshed(clock: Clock, e: Event, e': Event, from: nat, to: nat) {
    exists k :: from <= k < to && e' == e.(arrive := clock(k) + e.interval)
  }

  lemma ResetKeeps(clock: Clock, t: State, id: nat)
    requires Consistent(t) && id in t.events && !IsPending(t.pending, id)
    ensures Consistent(Refresh(clock, t, id)) && Known(Refresh(clock, t, id))
  {
  }

  /** What adding the repeating ones of `ids` again does. */
  ghost predicate AddedAgain(clock: Clock, t: State, t': State, ids: seq<nat>) {
    && Consistent(t') && t'.tick >= t.tick && t'.events.Keys == t.events.Keys
    && (forall id :: id in t.events ==> EventAfter(clock, t, t', ids, id))
    && (forall x :: x in t.pending ==> x in t'.pending)
    && (forall x :: x in t'.pending ==> x in t.pending || (x.id in ids && x.id in t.events && t.events[x.id].repeated))
  }

  ghost predicate EventAfter(clock: Clock, t: State, t': State, ids: seq<nat>, id: nat)
    requires id in t.events && t'.events.Keys == t.events.Keys
  {
    if id in ids && t.events[id].repeated
    then Refreshed(clock, t.events[id], t'.events[id], t.tick, t'.tick) && IsPending(t'.pending, id)
    else t'.events[id] == t.events[id]
  }

  lemma NotPendingAfter(clock: Clock, t: State, t1: State, ids: seq<nat>, id: nat)
    requires AddedAgain(clock, t, t1, ids) && id !in ids && !IsPending(t.pending, id)
    ensures !IsPending(t1.pending, id)
  {
    forall i | 0 <= i < |t1.pending| ensures t1.pending[i].id != id {
      assert t1.pending[i] in t1.pending;
    }
  }

  lemma OneMore(clock: Clock, t: State, t1: State, t': State, ids: seq<nat>, id: nat)
    requires AddedAgain(clock, t, t1, ids) && id !in ids && id in t.events && t.events[id].repeated
    requires Consistent(t') && t'.tick > t1.tick
    requires t'.events == t1.events[id := t.events[id].(arrive := clock(t1.tick) + t.events[id].interval)]
    requires forall x :: x in t1.pending ==> x in t'.pending
    requires forall x :: x in t'.pending ==> x in t1.pending || x.id == id
    requires IsPending(t'.pending, id)
    ensures AddedAgain(clock, t, t', ids + [id])
  {
    hide Consistent;
    assert id in ids + [id];
    forall x | x in t.events ensures EventAfter(clock, t, t', ids + [id], x) {
      assert EventAfter(clock, t, t1, ids, x);
      if x == id {
        assert Refreshed(clock, t.events[id], t'.events[id], t.tick, t'.tick);
      } else if x in ids && t.events[x].repeated {
        var k :| t.tick <= k < t1.tick && t1.events[x] == t.events[x].(arrive := clock(k) + t.events[x].interval);
        assert t'.events[x] == t1.events[x];
        var i :| 0 <= i < |t1.pending| && t1.pending[i].id == x;
        PendingFrom(t'.pending, t1.pending[i]);
      }
    }
  }

  lemma {:induction false} AgainKeeps(clock: Clock, t: State, ids: seq<nat>)
    requires Consistent(t) && Distinct(ids)
    requires forall i :: 0 <= i < |ids| ==> ids[i] in t.events && !IsPending(t.pending, ids[i])
    ensures AddedAgain(clock, t, Again(clock, t, ids), ids)
    decreases |ids|
  {
    assert Known(t);
    hide Consistent, Refreshed, Add, Insert;
    if ids != [] {
      var n := |ids| - 1;
      var init, id := ids[..n], ids[n];
      assert ids == init + [id];
      var t1 := Again(clock, t, init);
      AgainKeeps(clock, t, init);
      assert id !in init;
      EventUnchanged(clock, t, t1, init, id);
      hide AddedAgain, Distinct, Refresh;
      if t.events[id].repeated {
        RepeatedAgain(clock, t, t1, init, id);
      } else {
        OneLess(clock, t, t1, init, id);
      }
    }
  }

  lemma RepeatedAgain(clock: Clock, t: State, t1: State, ids: seq<nat>, id: nat)
    requires AddedAgain(clock, t, t1, ids) && id !in ids && !IsPending(t.pending, id)
    requires id in t.events && t.events[id].repeated
    ensures Consistent(t1) && Known(Refresh(clock, t1, id))
    ensures AddedAgain(clock, t, Add(clock, Refresh(clock, t1, id), id), ids + [id])
  {
    hide Consistent, Refreshed, Add, Insert;
    NotPendingAfter(clock, t, t1, ids, id);
    EventUnchanged(clock, t, t1, ids, id);
    var t2 := Refresh(clock, t1, id);
    ResetKeeps(clock, t1, id);
    AddKeeps(clock, t2, id);
    PendingFrom(Add(clock, t2, id).pending, Entry(t2.events[id].arrive, id, t2.serial));
    OneMore(clock, t, t1, Add(clock, t2, id), ids, id);
  }

  lemma EventUnchanged(clock: Clock, t: State, t1: State, ids: seq<nat>, id: nat)
    requires AddedAgain(clock, t, t1, ids) && id in t.events && id !in ids
    ensures Consistent(t1) && t1.events.Keys == t.events.Keys && t1.events[id] == t.events[id]
  {
    assert EventAfter(clock, t, t1, ids, id);
  }

  lemma OneLess(clock: Clock, t: State, t1: State, ids: seq<nat>, id: nat)
    requires AddedAgain(clock, t, t1, ids) && id in t.events && !t.events[id].repeated
    ensures AddedAgain(clock, t, t1, ids + [id])
  {
    hide Consistent, Refreshed;
    forall x | x in t.events ensures EventAfter(clock, t, t1, ids + [id], x) {
      assert EventAfter(clock, t, t1, ids, x);
    }
  }

  lemma PendingFrom(pending: seq<Entry>, x: Entry)
    requires x in pending
    ensures IsPending(pending, x.id)
  {
  }

  /** Cut off at the due entries, what stays is consistent, and the fired events are distinct, in order,
      and no longer pending. */
  lemma CutDue(t: State, now: int)
    requires Consistent(t)
    ensures var n := UpTo(t.pending, now);
            && Consistent(t.(pending := t.pending[n..]))
            && (forall x :: x in t.pending[n..] <==> x in t.pending && x.key > now)
            && (forall x :: x in t.pending[..n] <==> x in t.pending && x.key <= now)
  {
    var n := UpTo(t.pending, now);
    forall i | n <= i < |t.pending| ensures t.pending[i].key > now {
      assert i == n || Before(t.pending[n], t.pending[i]);
    }
    assert t.pending == t.pending[..n] + t.pending[n..];
  }

  /** In the order of the entries they come from. */
  ghost predicate InOrderOf(ids: seq<nat>, pending: seq<Entry>) {
    forall i, j, a, b :: 0 <= i < j < |ids| && a in pending && b in pending && a.id == ids[i] && b.id == ids[j]
                         ==> Before(a, b)
  }

  lemma {:induction false} LiveInOrder(events: map<nat, Event>, due: seq<Entry>)
    requires Ordered(due) && OncePerEvent(due) && forall i :: 0 <= i < |due| ==> due[i].id in events
    ensures var ids := Live(events, due); Distinct(ids) && InOrderOf(ids, due)
  {
    if due != [] {
      var n := |due| - 1;
      LiveInOrder(events, due[..n]);
      LiveKnown(events, due[..n]);
      var before := Live(events, due[..n]);
      forall id | id in before ensures exists i :: 0 <= i < n && due[i].id == id {
        assert AliveIn(events, due[..n], id);
        var i :| 0 <= i < n && due[..n][i].id == id;
        assert due[i].id == id;
      }
      hide Live, AliveIn;
      LastInOrder(due, before);
      FrontInOrder(due, before);
    }
  }

  /** Events of all but the last entry, and then the event of the last. */
  lemma LastInOrder(due: seq<Entry>, before: seq<nat>)
    requires due != [] && Ordered(due) && OncePerEvent(due) && Distinct(before)
    requires InOrderOf(before, due[..|due| - 1])
    requires forall id :: id in before ==> exists i :: 0 <= i < |due| - 1 && due[i].id == id
    ensures Distinct(before + [due[|due| - 1].id]) && InOrderOf(before + [due[|due| - 1].id], due)
  {
    FrontInOrder(due, before);
    var n := |due| - 1;
    var ids := before + [due[n].id];
    forall i | 0 <= i < |before| ensures before[i] != due[n].id {
      assert before[i] in before;
    }
    forall i, j, a, b | 0 <= i < j < |ids| && a in due && b in due && a.id == ids[i] && b.id == ids[j]
      ensures Before(a, b)
    {
      if j == |before| {
        var k :| 0 <= k < |due| && due[k] == a;
        var l :| 0 <= l < |due| && due[l] == b;
        assert l == n && k != n;
      } else {
        assert a.id == before[i] && b.id == before[j];
      }
    }
  }

  lemma FrontInOrder(due: seq<Entry>, before: seq<nat>)
    requires due != [] && Ordered(due) && OncePerEvent(due)
    requires InOrderOf(before, due[..|due| - 1])
    requires forall id :: id in before ==> exists i :: 0 <= i < |due| - 1 && due[i].id == id
    ensures InOrderOf(before, due)
  {
    hide Before;
    var n := |due| - 1;
    forall i, j, a, b | 0 <= i < j < |before| && a in due && b in due && a.id == before[i] && b.id == before[j]
      ensures Before(a, b)
    {
      assert before[i] in before && before[j] in before;
      FrontEntry(due, before[i], a);
      FrontEntry(due, before[j], b);
    }
  }

  lemma FrontEntry(due: seq<Entry>, id: nat, x: Entry)
    requires due != [] && OncePerEvent(due) && x in due && x.id == id
    requires exists i :: 0 <= i < |due| - 1 && due[i].id == id
    ensures x in due[..|due| - 1]
  {
    var i :| 0 <= i < |due| - 1 && due[i].id == id;
    var k :| 0 <= k < |due| && due[k] == x;
    assert i == k && due[..|due| - 1][k] == x;
  }

  ghost predicate Due(t: State, now: int, id: nat) {
    exists i :: 0 <= i < |t.pending| && t.pending[i].id == id && t.pending[i].key <= now
                && id in t.events && !t.events[id].canceled
  }

  lemma FiredInOrder(t: State, now: int)
    requires Consistent(t)
    ensures var fired := Live(t.events, t.pending[..UpTo(t.pending, now)]);
            && (forall id :: id in fired <==> Due(t, now, id)) && Distinct(fired) && InOrderOf(fired, t.pending)
  {
    var due := t.pending[..UpTo(t.pending, now)];
    var fired := Live(t.events, due);
    LiveKnown(t.events, due);
    LiveInOrder(t.events, due);
    hide Before, Consistent, Due, Live, Distinct, UpTo, InOrderOf, AliveIn;
    forall id ensures id in fired <==> Due(t, now, id) {
      FiredAreDue(t, now, id);
    }
    forall i | 0 <= i < |fired| ensures Due(t, now, fired[i]) {
      assert fired[i] in fired;
    }
    AllInOrder(t, now, fired);
  }

  lemma AllInOrder(t: State, now: int, fired: seq<nat>)
    requires Consistent(t) && InOrderOf(fired, t.pending[..UpTo(t.pending, now)])
    requires forall i :: 0 <= i < |fired| ==> Due(t, now, fired[i])
    ensures InOrderOf(fired, t.pending)
  {
    hide Before, Consistent, Due, UpTo;
    forall i, j, a, b | 0 <= i < j < |fired| && a in t.pending && b in t.pending && a.id == fired[i] && b.id == fired[j]
      ensures Before(a, b)
    {
      OneEntry(t, now, fired[i], a);
      OneEntry(t, now, fired[j], b);
    }
  }

  lemma FiredNotPending(t: State, now: int)
    requires Consistent(t)
    ensures forall id :: Due(t, now, id) ==> id in t.events && !IsPending(t.pending[UpTo(t.pending, now)..], id)
  {
    CutDue(t, now);
    var later := t.pending[UpTo(t.pending, now)..];
    forall id, k | Due(t, now, id) && 0 <= k < |later| ensures later[k].id != id {
      assert later[k] in later;
      if later[k].id == id { OneEntry(t, now, id, later[k]); }
    }
  }

  /** What onTimer needs before it adds the repeating events again. */
  lemma ReadyToAdd(t: State, now: int)
    requires Consistent(t)
    ensures var fired := Live(t.events, t.pending[..UpTo(t.pending, now)]);
            var later := t.pending[UpTo(t.pending, now)..];
            && Consistent(t.(pending := later)) && Distinct(fired)
            && forall i :: 0 <= i < |fired| ==> fired[i] in t.events && !IsPending(later, fired[i])
  {
    hide Live, Ordered, OncePerEvent, Due;
    CutDue(t, now);
    FiredInOrder(t, now);
    FiredNotPending(t, now);
    var fired := Live(t.events, t.pending[..UpTo(t.pending, now)]);
    forall i | 0 <= i < |fired| ensures fired[i] in t.events && Due(t, now, fired[i]) {
      assert fired[i] in fired;
    }
  }

  /** What a tick that fires `fired` at `now` leaves: the later entries stay, each fired event that repeats
      is pending again under a fresh clock reading plus its interval, and nothing else is pending or
      changed. */
  ghost predicate Left(clock: Clock, t: State, now: int, fired: seq<nat>, t': State) {
    && (forall x :: x in t.pending && x.key > now ==> x in t'.pending)
    && (forall x :: x in t'.pending ==>
          (x in t.pending && x.key > now) || (x.id in fired && x.id in t.events && t.events[x.id].repeated))
    && t'.events.Keys == t.events.Keys
    && (forall id :: id in t.events ==>
          if id in fired && t.events[id].repeated
          then Refreshed(clock, t.events[id], t'.events[id], t.tick + 2, t'.tick) && IsPending(t'.pending, id)
          else t'.events[id] == t.events[id])
  }

  /** A tick fires exactly the pending events that are due and not cancelled, each once, in order of
      arrival time and, among equal ones, of insertion; and the next wakeup is set. */
  lemma TickFiresExactlyTheDue(clock: Clock, t: State)
    requires Inv(t)
    ensures var (fired, t') := Tick(clock, t);
            var now := clock(t.tick + 1);
            && Inv(t') && Left(clock, t, now, fired, t')
            && (forall id :: id in fired <==> Due(t, now, id)) && Distinct(fired) && InOrderOf(fired, t.pending)
  {
    hide Arm, Again, Distinct, InOrderOf, Due, Live, Left, Consistent, WillWake;
    FiredInOrder(t, clock(t.tick + 1));
    TickLeaves(clock, t);
  }

  lemma TickLeaves(clock: Clock, t: State)
    requires Consistent(t)
    ensures var (fired, t') := Tick(clock, t);
            Inv(t') && Left(clock, t, clock(t.tick + 1), fired, t')
  {
    hide Arm, Distinct, InOrderOf, Due, Live, Ordered, OncePerEvent, Left, AddedAgain;
    var now := clock(t.tick + 1);
    ReadyToAdd(t, now);
    CutDue(t, now);
    var fired := Tick(clock, t).0;
    var armed := if t.armed.Some? && t.armed.value <= clock(t.tick) then None else t.armed;
    var t1 := t.(armed := armed, pending := t.pending[UpTo(t.pending, now)..], tick := t.tick + 2);
    ConsistentFrame(t.(pending := t1.pending), t1);
    AgainKeeps(clock, t1, fired);
    hide Again, Consistent, UpTo;
    var t2 := Again(clock, t1, fired);
    AgainConsistent(clock, t1, t2, fired);
    ArmKeeps(clock, t2);
    AddedLeaves(clock, t, now, fired, t1, t2, Arm(clock, t2));
  }

  lemma AgainConsistent(clock: Clock, t: State, t': State, ids: seq<nat>)
    requires AddedAgain(clock, t, t', ids)
    ensures Consistent(t')
  {
  }

  lemma AddedLeaves(clock: Clock, t: State, now: int, fired: seq<nat>, t1: State, t2: State, t': State)
    requires t1.events == t.events && t1.tick == t.tick + 2
    requires forall x :: x in t1.pending <==> x in t.pending && x.key > now
    requires AddedAgain(clock, t1, t2, fired)
    requires t'.events == t2.events && t'.pending == t2.pending && t'.tick >= t2.tick
    ensures Left(clock, t, now, fired, t')
  {
    hide Consistent, Refreshed, IsPending;
    RefreshedLater(clock, t1, t2, t'.tick, fired);
  }

  lemma ConsistentFrame(t: State, t1: State)
    requires Consistent(t) && t1.pending == t.pending && t1.events == t.events && t1.serial == t.serial
    ensures Consistent(t1)
  {
  }

  lemma RefreshedLater(clock: Clock, t: State, t2: State, tick: nat, ids: seq<nat>)
    requires AddedAgain(clock, t, t2, ids) && tick >= t2.tick
    ensures forall id :: id in t.events ==>
              if id in ids && t.events[id].repeated
              then Refreshed(clock, t.events[id], t2.events[id], t.tick, tick) && IsPending(t2.pending, id)
              else t2.events[id] == t.events[id]
  {
    hide Consistent;
    forall id | id in t.events
      ensures if id in ids && t.events[id].repeated
              then Refreshed(clock, t.events[id], t2.events[id], t.tick, tick) && IsPending(t2.pending, id)
              else t2.events[id] == t.events[id]
    {
      assert EventAfter(clock, t, t2, ids, id);
    }
  }

  lemma ArmKeeps(clock: Clock, t: State)
    requires Consistent(t)
    ensures var t' := Arm(clock, t);
            Inv(t') && t'.events == t.events && t'.pending == t.pending && t'.tick >= t.tick
  {
  }

  lemma FiredAreDue(t: State, now: int, id: nat)
    requires Consistent(t)
    ensures AliveIn(t.events, t.pending[..UpTo(t.pending, now)], id) <==> Due(t, now, id)
  {
    var due := t.pending[..UpTo(t.pending, now)];
    CutDue(t, now);
    hide Consistent, UpTo;
    if AliveIn(t.events, due, id) {
      var i :| 0 <= i < |due| && due[i].id == id && !t.events[id].canceled;
      assert due[i] in due && t.pending[i] == due[i];
    }
    if Due(t, now, id) {
      var i :| 0 <= i < |t.pending| && t.pending[i].id == id && t.pending[i].key <= now
               && id in t.events && !t.events[id].canceled;
      assert t.pending[i] in due;
      var j :| 0 <= j < |due| && due[j] == t.pending[i];
      assert due[j].id == id;
    }
  }

  /** A due event has no other entry than its due one. */
  lemma OneEntry(t: State, now: int, id: nat, x: Entry)
    requires Consistent(t) && Due(t, now, id) && x in t.pending && x.id == id
    ensures x.key <= now && x in t.pending[..UpTo(t.pending, now)]
  {
    CutDue(t, now);
    var i :| 0 <= i < |t.pending| && t.pending[i].id == id && t.pending[i].key <= now
             && id in t.events && !t.events[id].canceled;
    var j :| 0 <= j < |t.pending| && t.pending[j] == x;
    assert i == j;
  }

  // ---------------------------------------------------------------- whole runs

  datatype Op = CreateOp(newId: nat, interval: int, repeated: bool) | AddOp(id: nat) | DeleteOp(id: nat) | TickOp

  /** An event is added only while it is not pending. */
  ghost predicate Allowed(t: State, op: Op) {
    match op
    case CreateOp(id, _, _) => id !in t.events
    case AddOp(id) => id in t.events && !IsPending(t.pending, id)
    case DeleteOp(id) => id in t.events
    case TickOp => true
  }

  ghost function Next(clock: Clock, t: State, op: Op): State
    requires Known(t) && Allowed(t, op)
  {
    match op
    case CreateOp(id, interval, repeated) => Create(clock, t, id, interval, repeated)
    case AddOp(id) => Add(clock, t, id)
    case DeleteOp(id) => Delete(t, id)
    case TickOp => Tick(clock, t).1
  }

  ghost function Fires(clock: Clock, t: State, op: Op): seq<nat>
    requires Known(t)
  {
    if op.TickOp? then Tick(clock, t).0 else []
  }

  lemma StepKeeps(clock: Clock, t: State, op: Op)
    requires Inv(t) && Allowed(t, op)
    ensures Inv(Next(clock, t, op))
    ensures forall id :: id in t.events && t.events[id].canceled ==>
              && id in Next(clock, t, op).events && Next(clock, t, op).events[id].canceled
              && id !in Fires(clock, t, op)
  {
    hide Insert, Erase, Tick;
    match op {
      case CreateOp(id, interval, repeated) =>
        CreateKeeps(clock, t, id, interval, repeated);
      case AddOp(id) => AddKeeps(clock, t, id);
      case DeleteOp(id) => DeleteKeeps(t, id);
      case TickOp => TickFiresExactlyTheDue(clock, t);
    }
  }

  lemma CreateKeeps(clock: Clock, t: State, id: nat, interval: int, repeated: bool)
    requires Consistent(t) && id !in t.events
    ensures Consistent(Create(clock, t, id, interval, repeated))
    ensures Inv(t) ==> Inv(Create(clock, t, id, interval, repeated))
  {
  }

  /** A created event arrives an interval after the clock reading of its creation and is not pending yet; an
      added one is pending; a deleted one is neither pending nor ever to fire; and none of these changes
      another event or fires one. A tick is what TickFiresExactlyTheDue is about. */
  lemma OpDoes(clock: Clock, t: State, op: Op)
    requires Inv(t) && Allowed(t, op)
    ensures var t' := Next(clock, t, op);
            && (op.CreateOp? ==>
                  && t'.events
                     == t.events[op.newId := Event(clock(t.tick) + op.interval, op.interval, op.repeated, false)]
                  && t'.pending == t.pending && t'.armed == t.armed)
            && (op.AddOp? ==> IsPending(t'.pending, op.id) && t'.events == t.events)
            && (op.DeleteOp? ==>
                  && !IsPending(t'.pending, op.id) && t'.armed == t.armed
                  && t'.events == t.events[op.id := t.events[op.id].(canceled := true)])
            && (if op.TickOp? then (Fires(clock, t, op), t') == Tick(clock, t) else Fires(clock, t, op) == [])
  {
    hide Insert, Erase, Tick, UpTo;
    match op {
      case AddOp(id) =>
        AddKeeps(clock, t, id);
        PendingFrom(Add(clock, t, id).pending, Entry(t.events[id].arrive, id, t.serial));
      case DeleteOp(id) => DeleteKeeps(t, id);
      case _ =>
    }
  }

  /** A pending event that is not cancelled stays so, and arrives when it did, until it is deleted or a tick
      fires it, and the first tick at or after its arrival does. */
  lemma PendingStaysOrFires(clock: Clock, t: State, op: Op, id: nat)
    requires Inv(t) && Allowed(t, op) && op != DeleteOp(id)
    requires id in t.events && !t.events[id].canceled && IsPending(t.pending, id)
    ensures id in Fires(clock, t, op)
            || (id in Next(clock, t, op).events && Next(clock, t, op).events[id] == t.events[id]
                && IsPending(Next(clock, t, op).pending, id))
    ensures op.TickOp? && t.events[id].arrive <= clock(t.tick + 1) ==> id in Fires(clock, t, op)
  {
    hide Insert, Erase, Tick, UpTo, Ordered, OncePerEvent, WillWake, InOrderOf, Distinct, Refreshed;
    var i :| 0 <= i < |t.pending| && t.pending[i].id == id;
    match op {
      case CreateOp(x, interval, repeated) =>
      case AddOp(x) =>
        AddKeeps(clock, t, x);
        PendingFrom(Add(clock, t, x).pending, t.pending[i]);
      case DeleteOp(x) =>
        DeleteKeeps(t, x);
        PendingFrom(Delete(t, x).pending, t.pending[i]);
      case TickOp =>
        TickFiresExactlyTheDue(clock, t);
        if t.pending[i].key <= clock(t.tick + 1) {
          assert Due(t, clock(t.tick + 1), id);
        } else if id !in Fires(clock, t, op) {
          PendingFrom(Next(clock, t, op).pending, t.pending[i]);
        }
    }
  }

  /** Over every run: an event that is pending and not cancelled has fired by the first tick at or after its
      arrival, unless it is deleted before. */
  lemma {:induction false} PendingEventFires(clock: Clock, t: State, before: seq<Op>, id: nat)
    requires Inv(t) && RunAllowed(clock, t, before) && DeleteOp(id) !in before
    requires id in t.events && !t.events[id].canceled && IsPending(t.pending, id)
    requires t.events[id].arrive <= clock(Run(clock, t, before).tick + 1)
    ensures RunAllowed(clock, t, before + [TickOp]) && id in AllFired(clock, t, before + [TickOp])
    decreases |before|
  {
    hide Next, Fires, Ordered, OncePerEvent, WillWake;
    RunThenTick(clock, t, before);
    if before == [] {
      assert before + [TickOp] == [TickOp];
      PendingStaysOrFires(clock, t, TickOp, id);
    } else {
      var op, rest := before[0], before[1..];
      assert (before + [TickOp])[1..] == rest + [TickOp];
      StepKeeps(clock, t, op);
      PendingStaysOrFires(clock, t, op, id);
      if id !in Fires(clock, t, op) {
        PendingEventFires(clock, Next(clock, t, op), rest, id);
      }
    }
  }

  /** A tick can follow any run. */
  lemma {:induction false} RunThenTick(clock: Clock, t: State, before: seq<Op>)
    requires Inv(t) && RunAllowed(clock, t, before)
    ensures RunAllowed(clock, t, before + [TickOp])
    decreases |before|
  {
    hide Next, Ordered, OncePerEvent, WillWake;
    StepKeeps(clock, t, if before == [] then TickOp else before[0]);
    if before == [] {
      assert (before + [TickOp])[1..] == [];
    } else {
      assert (before + [TickOp])[1..] == before[1..] + [TickOp];
      RunThenTick(clock, Next(clock, t, before[0]), before[1..]);
    }
  }

  ghost predicate RunAllowed(clock: Clock, t: State, ops: seq<Op>)
    requires Inv(t)
    decreases |ops|
  {
    ops == [] || (Allowed(t, ops[0])
                  && (StepKeeps(clock, t, ops[0]); RunAllowed(clock, Next(clock, t, ops[0]), ops[1..])))
  }

  ghost function Run(clock: Clock, t: State, ops: seq<Op>): (t': State)
    requires Inv(t) && RunAllowed(clock, t, ops)
    ensures Inv(t')
    decreases |ops|
  {
    if ops == [] then t
    else
      StepKeeps(clock, t, ops[0]);
      Run(clock, Next(clock, t, ops[0]), ops[1..])
  }

  ghost function AllFired(clock: Clock, t: State, ops: seq<Op>): seq<nat>
    requires Inv(t) && RunAllowed(clock, t, ops)
    decreases |ops|
  {
    if ops == [] then []
    else
      StepKeeps(clock, t, ops[0]);
      Fires(clock, t, ops[0]) + AllFired(clock, Next(clock, t, ops[0]), ops[1..])
  }

  const EMPTY := State([], map[], None, 0, 0, 0)

  /** Over every run: what is pending has its event's arrival time as key, so a delete finds it, and the
      wakeup is never lost. */
  lemma NoWakeupIsLost(clock: Clock, ops: seq<Op>)
    requires Inv(EMPTY) && RunAllowed(clock, EMPTY, ops)
    ensures var t := Run(clock, EMPTY, ops); WillWake(t) && KeysAgree(t)
    ensures forall id :: id in Run(clock, EMPTY, ops).events ==>
              !IsPending(Delete(Run(clock, EMPTY, ops), id).pending, id)
  {
    var t := Run(clock, EMPTY, ops);
    forall id | id in t.events ensures !IsPending(Delete(t, id).pending, id) {
      DeleteKeeps(t, id);
    }
  }

  /** A deleted event is never fired again, whatever is done later, adding it again included. */
  lemma {:induction false} DeletedNeverFires(clock: Clock, t: State, ops: seq<Op>, id: nat)
    requires Inv(t) && id in t.events && t.events[id].canceled && RunAllowed(clock, t, ops)
    ensures id !in AllFired(clock, t, ops)
    decreases |ops|
  {
    hide Next, Fires, Ordered, OncePerEvent, WillWake;
    if ops != [] {
      StepKeeps(clock, t, ops[0]);
      DeletedNeverFires(clock, Next(clock, t, ops[0]), ops[1..], id);
    }
  }

  // ---------------------------------------------------------------- the classes

  class TimerEvent {
    const id: nat
    const interval: int
    const isRepeated: bool
    var arriveTime: int
    var isCanceled: bool

    /** `now` is the reading of the clock that the constructor takes. */
    constructor (id: nat, interval: int, isRepeated: bool, now: int)
      ensures this.id == id && Value() == Event(now + interval, interval, isRepeated, false)
    {
      this.id, this.interval, this.isRepeated := id, interval, isRepeated;
      arriveTime, isCanceled := now + interval, false;
    }

    function Value(): Event
      reads this
    {
      Event(arriveTime, interval, isRepeated, isCanceled)
    }

    method ResetArriveTime(now: int)
      modifies this
      ensures Value() == old(Value()).(arrive := now + interval)
    {
      arriveTime := now + interval;
    }

    method SetCanceled(value: bool)
      modifies this
      ensures Value() == old(Value()).(canceled := value)
    {
      isCanceled := value;
    }
  }

  /** Without the entry at `it`, if it is the first of event `id` under `key`. */
  lemma {:induction false} EraseAt(pending: seq<Entry>, key: int, id: nat, it: nat)
    requires it <= |pending|
    requires forall i :: 0 <= i < it ==> pending[i].key != key || pending[i].id != id
    ensures it == |pending| ==> Erase(pending, key, id) == pending
    ensures it < |pending| && pending[it].key == key && pending[it].id == id
            ==> Erase(pending, key, id) == pending[..it] + pending[it + 1..]
  {
    if it > 0 {
      EraseAt(pending[1..], key, id, it - 1);
      assert it < |pending| ==>
               [pending[0]] + (pending[1..][..it - 1] + pending[1..][it..]) == pending[..it] + pending[it + 1..];
    }
  }

  lemma UpToMonotone(pending: seq<Entry>, key: int, key': int)
    requires key <= key'
    ensures UpTo(pending, key) <= UpTo(pending, key')
  {
  }

  lemma EraseFound(pending: seq<Entry>, key: int, id: nat, it: nat, end: nat)
    requires Ordered(pending) && it <= |pending| && end == UpTo(pending, key)
    requires forall i :: 0 <= i < it ==> pending[i].key != key || pending[i].id != id
    requires it >= UpTo(pending, key - 1)
    requires it < |pending| && it != end ==> it < end && pending[it].id == id
    ensures Erase(pending, key, id)
            == if it < |pending| && it != end then pending[..it] + pending[it + 1..] else pending
  {
    forall i | 0 <= i < |pending| && i >= UpTo(pending, key - 1) ensures pending[i].key >= key {
      assert i == UpTo(pending, key - 1) || Before(pending[UpTo(pending, key - 1)], pending[i]);
    }
    forall i | end <= i < |pending| ensures pending[i].key > key {
      assert i == end || Before(pending[end], pending[i]);
    }
    if it < |pending| && it != end {
      EraseAt(pending, key, id, it);
    } else {
      EraseAt(pending, key, id, |pending|);
    }
  }

  lemma DeleteConsistent(t: State, id: nat)
    requires Consistent(t) && id in t.events
    ensures Consistent(Delete(t, id))
  {
    var p := Erase(t.pending, t.events[id].arrive, id);
    EraseKeeps(t.pending, t.events[id].arrive, id);
    forall i | 0 <= i < |p|
      ensures p[i].id in t.events && p[i].key == t.events[p[i].id].arrive && p[i].id != id && p[i].serial < t.serial
    {
      assert p[i] in p;
    }
  }

  /** An insertion before the timerfd is set. */
  lemma AddUnarmed(t: State, id: nat)
    requires Consistent(t) && id in t.events && !IsPending(t.pending, id)
    ensures Consistent(t.(pending := Insert(t.pending, Entry(t.events[id].arrive, id, t.serial)),
                          serial := t.serial + 1))
  {
    AddKeeps(_ => 0, t, id);
  }

  class Timer {
    const clock: Clock
    /** The events that exist, by identity. */
    var known: map<nat, TimerEvent>
    var pendingEvents: seq<Entry>
    var armed: Option<int>
    var armedAt: int
    var tick: nat
    var serial: nat

    ghost predicate Valid()
      reads this, set id | id in known :: known[id]
    {
      && (forall id :: id in known ==> known[id].id == id)
      && Consistent(Value())
    }

    ghost function Value(): State
      reads this, set id | id in known :: known[id]
    {
      State(pendingEvents, EventsOf(known), armed, armedAt, tick, serial)
    }

    static ghost function EventsOf(known: map<nat, TimerEvent>): (events: map<nat, Event>)
      reads set id | id in known :: known[id]
      ensures events.Keys == known.Keys
    {
      map id | id in known :: known[id].Value()
    }

    constructor (clock: Clock)
      ensures Valid() && this.clock == clock && Value() == EMPTY
    {
      this.clock, known, pendingEvents := clock, map[], [];
      armed, armedAt, tick, serial := None, 0, 0, 0;
    }

    method GetNowMs() returns (now: int)
      modifies this`tick
      ensures now == clock(old(tick)) && tick == old(tick) + 1
    {
      now := clock(tick);
      tick := tick + 1;
    }

    method CreateTimerEvent(id: nat, interval: int, isRepeated: bool)
      requires Valid() && id !in known
      modifies this
      ensures Valid() && Value() == Create(clock, old(Value()), id, interval, isRepeated)
    {
      CreateKeeps(clock, Value(), id, interval, isRepeated);
      hide Consistent;
      var now := GetNowMs();
      var event := new TimerEvent(id, interval, isRepeated, now);
      known := known[id := event];
      assert Value() == Create(clock, old(Value()), id, interval, isRepeated);
    }

    method ResetArriveTime()
      requires Valid()
      modifies this`armed, this`armedAt, this`tick
      ensures Valid() && Value() == Arm(clock, old(Value()))
    {
      if |pendingEvents| == 0 {
        return;
      }
      var now := GetNowMs();
      var arrive := known[pendingEvents[0].id].arriveTime;
      var interval;
      if arrive > now {
        interval := arrive - now;
      } else {
        interval := 100;
      }
      var sec, nsec := interval / 1000, interval % 1000 * 1000000;
      assert (sec, nsec) == Timespec(Interval(arrive, now));
      armed := Some(now + (sec * 1000 + nsec / 1000000));
      armedAt := now;
    }

    method AddTimerEvent(id: nat)
      requires Valid() && id in known && !IsPending(pendingEvents, id)
      modifies this`pendingEvents, this`armed, this`armedAt, this`tick, this`serial
      ensures Valid() && Value() == Add(clock, old(Value()), id)
    {
      AddKeeps(clock, Value(), id);
      AddUnarmed(Value(), id);
      var event := known[id];
      var isResetTimerfd := false;
      if |pendingEvents| == 0 {
        isResetTimerfd := true;
      } else if known[pendingEvents[0].id].arriveTime > event.arriveTime {
        isResetTimerfd := true;
      }
      pendingEvents := Insert(pendingEvents, Entry(event.arriveTime, id, serial));
      serial := serial + 1;
      if isResetTimerfd {
        ResetArriveTime();
      }
    }

    method DeleteTimerEvent(id: nat)
      requires Valid() && id in known
      modifies this`pendingEvents, known[id]
      ensures Valid() && Value() == Delete(old(Value()), id)
    {
      hide Consistent, Erase;
      ghost var t := Value();
      var event := known[id];
      DeleteConsistent(t, id);
      var it, found := Find(event.arriveTime, id);
      event.SetCanceled(true);
      OthersUnchanged(id);
      if found {
        pendingEvents := pendingEvents[..it] + pendingEvents[it + 1..];
      }
    }

    /** The place of the event in the range of entries with this key. */
    method Find(arrive: int, id: nat) returns (it: nat, found: bool)
      requires Valid()
      ensures found ==> it < |pendingEvents|
      ensures Erase(pendingEvents, arrive, id)
              == if found then pendingEvents[..it] + pendingEvents[it + 1..] else pendingEvents
    {
      hide Erase, Before, OncePerEvent, KeysAgree, EventsOf;
      it := UpTo(pendingEvents, arrive - 1);
      var end := UpTo(pendingEvents, arrive);
      UpToMonotone(pendingEvents, arrive - 1, arrive);
      while it != end
        invariant UpTo(pendingEvents, arrive - 1) <= it <= end
        invariant forall i :: 0 <= i < it ==> pendingEvents[i].key != arrive || pendingEvents[i].id != id
      {
        if pendingEvents[it].id == id {
          break;
        }
        it := it + 1;
      }
      assert Ordered(Value().pending);
      EraseFound(pendingEvents, arrive, id, it, end);
      found := it != end;
    }

    twostate lemma OthersUnchanged(id: nat)
      requires forall i :: i in known ==> known[i].id == i
      requires known == old(known) && id in known
      requires forall i :: i in known && known[i] != known[id] ==> unchanged(known[i])
      ensures Value().events == old(Value()).events[id := known[id].Value()]
    {
      forall i | i in known && i != id ensures known[i].Value() == old(known[i].Value()) {
        assert known[i].id == i;
      }
    }

    /** Runs what is due and sets the next wakeup; the callbacks of the returned events run afterwards. */
    method OnTimer() returns (tasks: seq<nat>)
      requires Valid()
      modifies this`pendingEvents, this`armed, this`armedAt, this`tick, this`serial, set id | id in known :: known[id]
      ensures known == old(known)
      ensures Valid() && (tasks, Value()) == Tick(clock, old(Value()))
    {
      hide Live, Ordered, OncePerEvent, Arm, Again, Consistent;
      ghost var t := Value();
      tasks := TakeDue();
      AddAgain(tasks, Value());
      ResetArriveTime();
    }

    /** Reads the timerfd empty if it has expired. */
    method Drain()
      modifies this`armed, this`tick
      ensures tick == old(tick) + 1
      ensures armed == if old(armed).Some? && old(armed).value <= clock(old(tick)) then None else old(armed)
    {
      var now := GetNowMs();
      if armed.Some? && armed.value <= now {
        armed := None;
      }
    }

    /** Drains the timerfd, reads the clock, and takes the due entries out. */
    method TakeDue() returns (tasks: seq<nat>)
      requires Valid()
      modifies this`pendingEvents, this`armed, this`tick
      ensures var t, now := old(Value()), clock(old(tick) + 1);
              && tasks == Live(t.events, t.pending[..UpTo(t.pending, now)])
              && Value() == t.(armed := if t.armed.Some? && t.armed.value <= clock(t.tick) then None else t.armed,
                               pending := t.pending[UpTo(t.pending, now)..], tick := t.tick + 2)
      ensures Valid() && Distinct(tasks)
      ensures forall i :: 0 <= i < |tasks| ==> tasks[i] in known && !IsPending(pendingEvents, tasks[i])
    {
      hide Live, Ordered, OncePerEvent, Distinct, Consistent, IsPending, EventsOf, UpTo;
      ghost var t := Value();
      Drain();
      var now := GetNowMs();
      ConsistentFrame(t, Value());
      tasks := CollectDue(now);
      ReadyToAdd(t, now);
      pendingEvents := pendingEvents[UpTo(pendingEvents, now)..];
      ConsistentFrame(t.(pending := pendingEvents), Value());
    }

    method RefreshEvent(id: nat)
      requires Valid() && id in known && !IsPending(pendingEvents, id)
      modifies this`tick, known[id]
      ensures Valid() && Value() == Refresh(clock, old(Value()), id)
    {
      ResetKeeps(clock, Value(), id);
      var now := GetNowMs();
      known[id].ResetArriveTime(now);
      OthersUnchanged(id);
      assert Value() == Refresh(clock, old(Value()), id);
    }

    method CollectDue(now: int) returns (tasks: seq<nat>)
      requires Valid()
      ensures tasks == Live(Value().events, pendingEvents[..UpTo(pendingEvents, now)])
    {
      tasks := [];
      var it := 0;
      while it < |pendingEvents|
        invariant it <= UpTo(pendingEvents, now)
        invariant tasks == Live(Value().events, pendingEvents[..it])
      {
        if pendingEvents[it].key <= now {
          if !known[pendingEvents[it].id].isCanceled {
            tasks := tasks + [pendingEvents[it].id];
          }
        } else {
          break;
        }
        assert pendingEvents[..it + 1][..it] == pendingEvents[..it];
        it := it + 1;
      }
    }

    method AddAgain(tasks: seq<nat>, ghost t: State)
      requires Valid() && t == Value() && Distinct(tasks)
      requires forall i :: 0 <= i < |tasks| ==> tasks[i] in known && !IsPending(pendingEvents, tasks[i])
      modifies this`pendingEvents, this`armed, this`armedAt, this`tick, this`serial, set id | id in known :: known[id]
      ensures known == old(known)
      ensures Valid() && Value() == Again(clock, t, tasks)
    {
      hide Add, Insert, Refreshed, Ordered, OncePerEvent;
      for i := 0 to |tasks|
        invariant known == old(known) && Valid()
        invariant Value() == Again(clock, t, tasks[..i])
      {
        var id := tasks[i];
        assert tasks[..i + 1][..i] == tasks[..i];
        AgainKeeps(clock, t, tasks[..i]);
        NotPendingAfter(clock, t, Value(), tasks[..i], id);
        EventUnchanged(clock, t, Value(), tasks[..i], id);
        ghost var t1 := Value();
        if known[id].isRepeated {
          ResetKeeps(clock, t1, id);
          RefreshEvent(id);
          AddTimerEvent(id);
        }
      }
      assert tasks[..|tasks|] == tasks;
    }
  }
}
