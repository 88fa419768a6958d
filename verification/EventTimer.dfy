/** The event timer: a vector of events kept as a binary heap by time, and the loop that fires the
    ones that are due. */
module EventTimer {

  /** An event record. The identifier stands for the descriptor handed to the caller, and `attached`
      for its pointer: whether it still leads to the event. */
  class EventFull {
    const id: nat
    var time: int
    var reSchedule: bool
    var enabled: bool
    var attached: bool

    constructor (id: nat, time: int)
      ensures this.id == id && this.time == time && enabled && attached && !reSchedule
    {
      this.id, this.time := id, time;
      enabled, attached, reSchedule := true, true, false;
    }
  }

  /** What one call of a callback does: the events it unschedules, the times it schedules new ones
      for, and whether (and when) its own event is to come again. */
  datatype Reaction = Reaction(cancel: set<nat>, schedule: seq<int>, again: bool, time: int)

  /** A callback that has been called: whose, and for which time. */
  datatype Firing = Firing(id: nat, time: int)

  // ---------- heaps ----------

  predicate IsChild(p: int, j: int) {
    j == 2 * p + 1 || j == 2 * p + 2
  }

  /** No element is before its parent. */
  ghost predicate Heap(times: seq<int>) {
    forall p, j :: 0 <= p < j < |times| && IsChild(p, j) ==> times[p] <= times[j]
  }

  /** The root is a least element. */
  lemma {:induction false} RootIsLeast(times: seq<int>, i: nat)
    requires Heap(times) && i < |times|
    ensures times[0] <= times[i]
    decreases i
  {
    if i > 0 {
      var p := (i - 1) / 2;
      assert IsChild(p, i);
      RootIsLeast(times, p);
    }
  }

  /** A heap except that element i may be before its parent. */
  ghost predicate HeapButUp(times: seq<int>, i: nat) {
    && (forall p, j :: 0 <= p < j < |times| && IsChild(p, j) && j != i ==> times[p] <= times[j])
    && (forall q, j :: 0 <= q < i < j < |times| && IsChild(q, i) && IsChild(i, j) ==> times[q] <= times[j])
  }

  /** The first n elements are a heap except that element i may be after its children. */
  ghost predicate HeapButDown(times: seq<int>, n: nat, i: nat)
    requires n <= |times|
  {
    && (forall p, j :: 0 <= p < j < n && IsChild(p, j) && p != i ==> times[p] <= times[j])
    && (forall q, j :: 0 <= q < i < j < n && IsChild(q, i) && IsChild(i, j) ==> times[q] <= times[j])
  }

  function Swapped<T>(s: seq<T>, i: nat, j: nat): (r: seq<T>)
    requires i < |s| && j < |s|
    ensures |r| == |s|
  {
    s[i := s[j]][j := s[i]]
  }

  ghost predicate Permuted<T>(a: seq<T>, b: seq<T>) {
    multiset(a) == multiset(b)
  }

  lemma SiftUp(times: seq<int>, i: nat, p: nat)
    requires HeapButUp(times, i) && i < |times| && IsChild(p, i) && times[i] < times[p]
    ensures HeapButUp(Swapped(times, i, p), p)
  {
    var r := Swapped(times, i, p);
    forall q, j | 0 <= q < j < |r| && IsChild(q, j) && j != p ensures r[q] <= r[j] {
    }
    forall q, j | 0 <= q < p < j < |r| && IsChild(q, p) && IsChild(p, j) ensures r[q] <= r[j] {
      assert times[q] <= times[p];
    }
  }

  /** Child c, the least of the children of i, changes places with i. */
  lemma SiftDown(times: seq<int>, n: nat, i: nat, c: nat)
    requires n <= |times| && HeapButDown(times, n, i) && c < n && IsChild(i, c) && times[c] < times[i]
    requires forall j :: i < j < n && IsChild(i, j) ==> times[c] <= times[j]
    ensures HeapButDown(Swapped(times, i, c), n, c)
  {
    var r := Swapped(times, i, c);
    forall q, j | 0 <= q < j < n && IsChild(q, j) && q != c ensures r[q] <= r[j] {
    }
    forall q, j | 0 <= q < c < j < n && IsChild(q, c) && IsChild(c, j) ensures r[q] <= r[j] {
      assert q == i;
    }
  }

  ghost function Times(es: seq<EventFull>): (ts: seq<int>)
    reads es
    ensures |ts| == |es| && forall i :: 0 <= i < |es| ==> ts[i] == es[i].time
  {
    seq(|es|, i requires 0 <= i < |es| reads es => es[i].time)
  }

  /** An exchange permutes the events, exchanges the times, and leaves the other places alone. */
  lemma Exchange(es: seq<EventFull>, i: nat, j: nat)
    requires i < |es| && j < |es|
    ensures Permuted(Swapped(es, i, j), es)
    ensures Times(Swapped(es, i, j)) == Swapped(Times(es), i, j)
    ensures forall k :: 0 <= k < |es| && k != i && k != j ==> Swapped(es, i, j)[k] == es[k]
    ensures Swapped(es, i, j)[j] == es[i]
  {
    assert Times(Swapped(es, i, j)) == Swapped(Times(es), i, j);
  }

  lemma PermutedTransitive<T>(a: seq<T>, b: seq<T>, c: seq<T>)
    requires Permuted(a, b) && Permuted(b, c)
    ensures Permuted(a, c)
  {
  }

  lemma LeastChild(times: seq<int>, n: nat, i: nat, c: nat)
    requires n <= |times| && 2 * i + 1 < n
    requires c == if 2 * i + 2 < n && times[2 * i + 2] < times[2 * i + 1] then 2 * i + 2 else 2 * i + 1
    ensures i < c < n && IsChild(i, c) && forall j :: i < j < n && IsChild(i, j) ==> times[c] <= times[j]
  {
  }

  /** The last element brought to its place, the others being a heap. */
  method PushHeap(es: seq<EventFull>) returns (r: seq<EventFull>)
    requires es != [] && Heap(Times(es[..|es| - 1]))
    ensures Heap(Times(r)) && Permuted(r, es) && |r| == |es|
  {
    r := es;
    var i := |r| - 1;
    assert Times(es[..|es| - 1]) == Times(es)[..|es| - 1];
    UpStart(Times(es));
    hide Heap, HeapButUp, Swapped, Permuted, IsChild, Times;
    PermutedSelf(es);
    while i > 0 && r[i].time < r[(i - 1) / 2].time
      invariant 0 <= i < |r| == |es|
      invariant Permuted(r, es)
      invariant HeapButUp(Times(r), i)
    {
      var p := (i - 1) / 2;
      ParentIs(i, p);
      SiftUp(Times(r), i, p);
      Exchange(r, i, p);
      PermutedTransitive(Swapped(r, i, p), r, es);
      r := Swapped(r, i, p);
      i := p;
    }
    UpDone(Times(r), i);
  }

  lemma PermutedSelf<T>(a: seq<T>)
    ensures Permuted(a, a)
  {
  }

  lemma ParentIs(i: nat, p: nat)
    requires i > 0 && p == (i - 1) / 2
    ensures IsChild(p, i) && p < i
  {
  }

  lemma UpStart(times: seq<int>)
    requires times != [] && Heap(times[..|times| - 1])
    ensures HeapButUp(times, |times| - 1)
  {
    forall p, j | 0 <= p < j < |times| && IsChild(p, j) && j != |times| - 1 ensures times[p] <= times[j] {
      assert times[..|times| - 1][p] <= times[..|times| - 1][j];
    }
  }

  lemma UpDone(times: seq<int>, i: nat)
    requires HeapButUp(times, i) && i < |times| && (i > 0 ==> times[(i - 1) / 2] <= times[i])
    ensures Heap(times)
  {
    forall p, j | 0 <= p < j < |times| && IsChild(p, j) ensures times[p] <= times[j] {
      if j == i {
        assert p == (i - 1) / 2;
      }
    }
  }

  lemma DownDone(times: seq<int>, n: nat, i: nat)
    requires n <= |times| && HeapButDown(times, n, i) && forall j :: i < j < n && IsChild(i, j) ==> times[i] <= times[j]
    ensures Heap(times[..n])
  {
  }

  lemma DownStart(times: seq<int>)
    requires times != [] && Heap(times)
    ensures HeapButDown(Swapped(times, 0, |times| - 1), |times| - 1, 0)
  {
  }

  /** The first element moved to the end, the others a heap again. */
  method PopHeap(es: seq<EventFull>) returns (r: seq<EventFull>)
    requires es != [] && Heap(Times(es))
    ensures Permuted(r, es) && |r| == |es|
    ensures r[|r| - 1] == es[0] && Heap(Times(r[..|r| - 1]))
  {
    hide Heap, HeapButDown, Swapped, Permuted, IsChild, Times;
    var n := |es| - 1;
    DownStart(Times(es));
    Exchange(es, 0, n);
    r := Swapped(es, 0, n);
    var i := 0;
    while 2 * i + 1 < n
      invariant 0 <= i <= n && n == |es| - 1 && |r| == |es|
      invariant Permuted(r, es) && r[n] == es[0]
      invariant HeapButDown(Times(r), n, i)
      decreases n - i
    {
      var child := 2 * i + 1;
      if child + 1 < n && r[child + 1].time < r[child].time {
        child := child + 1;
      }
      LeastChild(Times(r), n, i, child);
      if r[i].time <= r[child].time {
        break;
      }
      SiftDown(Times(r), n, i, child);
      Exchange(r, i, child);
      PermutedTransitive(Swapped(r, i, child), r, es);
      r := Swapped(r, i, child);
      i := child;
    }
    NoChildLess(Times(r), n, i);
    DownDone(Times(r), n, i);
    assert Times(r[..n]) == Times(r)[..n];
  }

  lemma NoChildLess(times: seq<int>, n: nat, i: nat)
    requires n <= |times| && i <= n
    requires 2 * i + 1 < n ==>
               exists c :: i < c < n && times[i] <= times[c]
                           && forall j :: i < j < n && IsChild(i, j) ==> times[c] <= times[j]
    ensures forall j :: i < j < n && IsChild(i, j) ==> times[i] <= times[j]
  {
  }

  // ---------- the timer ----------

  /** Every event stands once in the vector, and no two have the same identifier. */
  ghost predicate Once(es: seq<EventFull>, nextId: nat) {
    && (forall e :: e in es ==> multiset(es)[e] == 1 && e.id < nextId)
    && (forall a, b :: a in es && b in es && a.id == b.id ==> a == b)
  }

  lemma InMultiset<T>(s: seq<T>, x: T)
    ensures x in s <==> x in multiset(s)
  {
  }

  lemma OncePermuted(r: seq<EventFull>, es: seq<EventFull>, nextId: nat)
    requires Permuted(r, es)
    ensures Once(es, nextId) ==> Once(r, nextId)
    ensures forall e :: e in r <==> e in es
  {
    forall e: EventFull ensures e in r <==> e in es {
      InMultiset(r, e);
      InMultiset(es, e);
    }
  }

  lemma OnceAppended(es: seq<EventFull>, e: EventFull, nextId: nat)
    requires Once(es, nextId) && e.id < nextId && forall b :: b in es ==> b.id != e.id
    ensures Once(es + [e], nextId)
  {
    assert multiset(es + [e]) == multiset(es) + multiset{e};
  }

  lemma OnceShortened(es: seq<EventFull>, nextId: nat)
    requires Once(es, nextId) && es != []
    ensures var e, r := es[|es| - 1], es[..|es| - 1];
            Once(r, nextId) && e !in r && forall b :: b in r <==> b in es && b != e
  {
    var e, r := es[|es| - 1], es[..|es| - 1];
    assert es == r + [e];
    assert multiset(es) == multiset(r) + multiset{e};
    var all: multiset<EventFull>, rest: multiset<EventFull> := multiset(es), multiset(r);
    assert all[e] == 1 && rest[e] == 0;
    InMultiset(r, e);
    forall b: EventFull | b in r ensures b in es && b != e && rest[b] == 1 {
      InMultiset(r, b);
      assert all[b] == rest[b];
    }
    forall b: EventFull | b in es && b != e ensures b in r {
      assert all[b] == rest[b];
      InMultiset(r, b);
    }
  }

  class Timer {
    var events: seq<EventFull>
    var nextId: nat
    /** The callbacks called so far. */
    var fired: seq<Firing>

    /** The events are a heap, each once, and descriptors lead to exactly those that are on. */
    ghost predicate Valid()
      reads this, events
    {
      Heap(Times(events)) && Once(events, nextId) && forall b :: b in events ==> b.attached == b.enabled
    }

    /** Identifiers have been given out already, and the first event is not later than any other. */
    lemma Known()
      requires Valid()
      ensures forall b :: b in events ==> b.id < nextId
      ensures events != [] ==> forall b :: b in events ==> events[0].time <= b.time
      ensures events != [] ==> forall b :: b in events && b != events[0] ==> b.id != events[0].id
    {
      hide Heap, Times;
      if events != [] {
        EarliestFirst(events);
      }
    }

    constructor ()
      ensures Valid() && events == [] && fired == []
    {
      events, nextId, fired := [], 0, [];
    }

    method Push(e: EventFull)
      requires Valid() && e.id < nextId && e.attached == e.enabled && forall b :: b in events ==> b.id != e.id
      modifies this`events
      ensures Valid() && forall b :: b in events <==> b in old(events) || b == e
    {
      hide Heap, Once, Permuted;
      OnceAppended(events, e, nextId);
      var all := events + [e];
      assert all[..|all| - 1] == events;
      events := PushHeap(all);
      OncePermuted(events, all, nextId);
    }

    /** The earliest event taken out. */
    method Pop() returns (e: EventFull)
      requires Valid() && events != []
      modifies this`events
      ensures e == old(events)[0] && e in old(events) && Valid()
      ensures e !in events && forall b :: b in events <==> b in old(events) && b != e
      ensures e.id < nextId && forall b :: b in events ==> b.id != e.id
    {
      assert Once(events, nextId);
      assert forall b :: b in events && b != events[0] ==> b.id != events[0].id;
      hide Heap, Once, Permuted;
      e := events[0];
      var all := PopHeap(events);
      OncePermuted(all, events, nextId);
      OnceShortened(all, nextId);
      events := all[..|all| - 1];
    }

    method ScheduleEvent(time: int) returns (e: EventFull)
      requires Valid()
      modifies this`events, this`nextId
      ensures Valid() && fresh(e) && e.id == old(nextId) && nextId == old(nextId) + 1
      ensures e.time == time && e.enabled && e.attached && !e.reSchedule
      ensures forall b :: b in events <==> b in old(events) || b == e
    {
      e := new EventFull(nextId, time);
      nextId := nextId + 1;
      Push(e);
    }

    /** The event stays in the vector, switched off, and its descriptor no longer leads to it. */
    method UnscheduleEvent(e: EventFull)
      requires e.attached
      modifies e`enabled, e`attached
      ensures !e.enabled && !e.attached
    {
      e.enabled, e.attached := false, false;
    }

    /** The event is gone, and whoever still holds its descriptor can see that. */
    method DestroyEvent(e: EventFull)
      modifies e`attached
      ensures !e.attached
    {
      e.attached := false;
    }

    // ---------- callbacks ----------

    /** A callback unschedules the events with these identifiers. */
    method CancelAll(ids: set<nat>)
      requires forall b :: b in events ==> b.attached == b.enabled
      modifies events`enabled, events`attached
      ensures forall b :: b in events ==> b.enabled == b.attached == (old(b.enabled) && b.id !in ids)
    {
      for i := 0 to |events|
        invariant forall b :: b in events[..i] ==> b.enabled == b.attached == (old(b.enabled) && b.id !in ids)
        invariant forall b :: b in events[i..] && b !in events[..i] ==> b.enabled == b.attached == old(b.enabled)
      {
        assert events[..i + 1] == events[..i] + [events[i]] && events[i..] == [events[i]] + events[i + 1..];
        if events[i].id in ids && events[i].attached {
          UnscheduleEvent(events[i]);
        }
      }
      assert events[..|events|] == events;
    }

    /** A callback schedules events for these times: one new event for each, `made`, and no others. */
    method ScheduleAll(times: seq<int>) returns (ghost made: seq<EventFull>)
      requires Valid()
      modifies this`events, this`nextId
      ensures Valid() && nextId == old(nextId) + |times| == old(nextId) + |made|
      ensures forall b :: b in events <==> b in old(events) || b in made
      ensures forall j :: 0 <= j < |made| ==>
                fresh(made[j]) && made[j].time == times[j] && made[j].enabled && made[j].id == old(nextId) + j
    {
      hide Heap, Once;
      made := [];
      for i := 0 to |times|
        invariant Valid() && nextId == old(nextId) + i && |made| == i
        invariant forall b :: b in events <==> b in old(events) || b in made
        invariant forall j :: 0 <= j < i ==>
                    fresh(made[j]) && made[j].time == times[j] && made[j].enabled && made[j].id == old(nextId) + j
      {
        var e := ScheduleEvent(times[i]);
        made := made + [e];
      }
    }

    /** The callback of event e, which has been taken out of the vector. */
    method Call(e: EventFull, r: Reaction) returns (ghost made: seq<EventFull>)
      requires Valid() && e !in events && e.id < nextId && forall b :: b in events ==> b.id != e.id
      requires e.enabled && e.attached
      modifies this`events, this`nextId, events`enabled, events`attached, e
      ensures Valid() && nextId == old(nextId) + |r.schedule| == old(nextId) + |made|
      ensures e.attached == e.enabled == (e.id !in r.cancel)
      ensures e !in events && forall b :: b in events ==> b.id != e.id
      ensures e.reSchedule == r.again && e.time == (if r.again then r.time else old(e.time))
      ensures forall b :: b in old(events) ==>
                b in events && b.time == old(b.time) && b.enabled == (old(b.enabled) && b.id !in r.cancel)
      ensures forall b :: b in events <==> b in old(events) || b in made
      ensures forall j :: 0 <= j < |made| ==>
                fresh(made[j]) && made[j].time == r.schedule[j] && made[j].enabled && made[j].id == old(nextId) + j
    {
      hide Heap, Once;
      CancelAll(r.cancel);
      if e.id in r.cancel {
        UnscheduleEvent(e);
      }
      assert Times(events) == old(Times(events));
      made := ScheduleAll(r.schedule);
      e.reSchedule := r.again;
      ghost var before := Times(events);
      if r.again {
        e.time := r.time;
      }
      assert Times(events) == before;
    }

    // ---------- the firing loop ----------

    /** The callback of an event that is on is called, the others are passed over. */
    method Answer(e: EventFull, react: (nat, nat) -> Reaction) returns (ghost made: seq<EventFull>)
      requires Valid() && e !in events && e.id < nextId && e.attached == e.enabled
      requires forall b :: b in events ==> b.id != e.id
      modifies this`events, this`nextId, this`fired, events`enabled, events`attached, e
      ensures Valid() && nextId == old(nextId) + |made| && e !in events && forall b :: b in events ==> b.id != e.id
      ensures fired == old(fired) + if old(e.enabled) then [Firing(e.id, old(e.time))] else []
      ensures var r := react(|old(fired)|, e.id);
              && e.reSchedule == (old(e.enabled) && r.again) && e.attached == e.enabled
              && (e.reSchedule ==> e.time == r.time && e.enabled == (e.id !in r.cancel))
      ensures var cancel := if old(e.enabled) then react(|old(fired)|, e.id).cancel else {};
              forall b :: b in old(events) ==>
                b in events && b.time == old(b.time) && b.enabled == (old(b.enabled) && b.id !in cancel)
      ensures |made| == if old(e.enabled) then |react(|old(fired)|, e.id).schedule| else 0
      ensures forall b :: b in events <==> b in old(events) || b in made
      ensures forall j :: 0 <= j < |made| ==>
                && fresh(made[j]) && made[j].id == old(nextId) + j && made[j].enabled
                && made[j].time == react(|old(fired)|, e.id).schedule[j]
    {
      hide Heap, Once;
      made := [];
      ghost var before := Times(events);
      e.reSchedule := false;
      assert Times(events) == before;
      if e.enabled {
        var r := react(|fired|, e.id);
        fired := fired + [Firing(e.id, e.time)];
        made := Call(e, r);
      }
    }

    /** One round of the loop: the earliest event taken out, its callback called if the event is
        enabled, and the event put back if the callback asks for it; otherwise it is gone. */
    method TriggerFirst(now: int, react: (nat, nat) -> Reaction) returns (e: EventFull, ghost made: seq<EventFull>)
      requires Valid() && events != [] && events[0].time <= now && Later(react, now)
      modifies this, events
      ensures Valid() && e == old(events)[0] && e in old(events)
      ensures fired == old(fired) + if old(e.enabled) then [Firing(e.id, old(e.time))] else []
      ensures var cancel := if old(e.enabled) then react(|old(fired)|, e.id).cancel else {};
              forall b :: b in old(events) && b != e ==>
                b in events && b.time == old(b.time) && b.enabled == (old(b.enabled) && b.id !in cancel)
      // the event comes again exactly when its callback asks for it, at the time it asks for
      ensures var r := react(|old(fired)|, e.id);
              && (e in events <==> old(e.enabled) && r.again)
              && (e in events ==> e.time == r.time && e.enabled == (e.id !in r.cancel))
      ensures e !in events ==> !e.attached
      // and so does one new event for each time asked for
      ensures forall b :: b in events <==> (b in old(events) && b != e) || (b == e && e in events) || b in made
      ensures made == [] || old(e.enabled)
      ensures old(e.enabled) ==> |made| == |react(|old(fired)|, e.id).schedule|
      ensures nextId == old(nextId) + |made|
      ensures forall j :: 0 <= j < |made| ==>
                && fresh(made[j]) && made[j].id == old(nextId) + j && made[j].enabled
                && made[j].time == react(|old(fired)|, e.id).schedule[j]
    {
      hide Heap, Once;
      e := Pop();
      assert forall i :: 0 <= i < |events| ==> events[i] in old(events);
      made := Answer(e, react);
      if e.reSchedule {
        Push(e);
      } else {
        DestroyEvent(e);
      }
    }

    /** One round, as a step on clocks and switches. */
    method TriggerRound(now: int, react: (nat, nat) -> Reaction) returns (e: EventFull, ghost made: seq<EventFull>)
      requires Valid() && events != [] && events[0].time <= now && Later(react, now)
      modifies this, events
      ensures Valid() && forall b :: b in events ==> b in old(events) || fresh(b)
      ensures forall b :: b in old(events) && b !in events ==> !b.attached
      ensures Rounds(react, old(fired), fired, old(Clock(events)), old(Switches(events)), Clock(events),
                     Switches(events), e, now)
      ensures Adds(react, |old(fired)|, old(nextId), nextId, old(Clock(events)), old(Switches(events)), Clock(events),
                   Switches(events), e, made)
    {
      hide Valid, Later;
      LaterTimes(react, now, |fired|, events[0].id);
      Known();
      e, made := TriggerFirst(now, react);
    }

    method Round(now: int, react: (nat, nat) -> Reaction, ghost start: nat, ghost base: nat,
                 ghost first: map<EventFull, int>, ghost on: map<EventFull, bool>, ghost who: seq<EventFull>)
      returns (ghost after: seq<EventFull>)
      requires Valid() && events != [] && events[0].time <= now && Later(react, now)
      requires Midway(react, fired, start, Clock(events), Switches(events), first, on, now)
               && Calls(react, fired, start, who, first, on)
      requires Comings(react, fired, start, base, nextId, who, Clock(events), Switches(events), first, now)
      modifies this, events
      ensures Valid() && Midway(react, fired, start, Clock(events), Switches(events), first, on, now)
      ensures Calls(react, fired, start, after, first, on)
      ensures Comings(react, fired, start, base, nextId, after, Clock(events), Switches(events), first, now)
      ensures forall b :: b in events ==> b in old(events) || fresh(b)
      ensures forall b :: b in old(events) && b !in events ==> !b.attached
      ensures old(fired) <= fired && Due(Clock(events), now) < old(Due(Clock(events), now))
    {
      hide Valid, Later, Midway, Calls, Due, Rounds, Adds, Comings;
      ghost var before, clock, switch, id := fired, Clock(events), Switches(events), nextId;
      var e, made := TriggerRound(now, react);
      after := RoundKeeps(react, before, fired, start, clock, switch, Clock(events), Switches(events), e, who, first,
        on, now);
      RoundComings(react, before, fired, start, base, id, nextId, clock, switch, Clock(events), Switches(events), e,
        made, who, first, on, now);
    }

    /** The loop: it goes on until the earliest event is not due. */
    method FireDue(now: int, react: (nat, nat) -> Reaction) returns (ghost who: seq<EventFull>)
      requires Valid() && Later(react, now)
      modifies this, events
      ensures Valid() && old(fired) <= fired && forall b :: b in events ==> b.time > now
      ensures Calls(react, fired, |old(fired)|, who, old(Clock(events)), old(Switches(events)))
      ensures Midway(react, fired, |old(fired)|, Clock(events), Switches(events), old(Clock(events)),
                     old(Switches(events)), now)
      ensures Comings(react, fired, |old(fired)|, old(nextId), nextId, who, Clock(events), Switches(events),
                      old(Clock(events)), now)
      ensures forall b :: b in events ==> b in old(events) || fresh(b)
      ensures forall b :: b in old(events) && b !in events ==> !b.attached
    {
      hide Valid, Later, Calls, Midway, Due, Comings;
      Known();
      ghost var start, base, first, on := |fired|, nextId, Clock(events), Switches(events);
      LogStarts(react, fired, first, on, now);
      ComingsStart(react, fired, nextId, first, on, now);
      who := [];
      while events != [] && events[0].time <= now
        invariant Valid() && old(fired) <= fired && Calls(react, fired, start, who, first, on)
        invariant Midway(react, fired, start, Clock(events), Switches(events), first, on, now)
        invariant Comings(react, fired, start, base, nextId, who, Clock(events), Switches(events), first, now)
        invariant forall b :: b in events ==> b in old(events) || fresh(b)
        invariant forall b :: b in old(events) && b !in events ==> !b.attached
        decreases Due(Clock(events), now)
      {
        assert forall i :: 0 <= i < |events| ==> events[i] in old(events) || fresh(events[i]);
        who := Round(now, react, start, base, first, on, who);
      }
      Known();
    }

    /** Everything that is due fires. `who` lists the events whose callbacks are called. */
    method TriggerEvents(now: int, react: (nat, nat) -> Reaction) returns (ghost who: seq<EventFull>)
      requires Valid() && Later(react, now)
      modifies this, events
      ensures Valid() && old(fired) <= fired
      // only later events are left, and no later event is lost, moved, or switched off by anyone but a callback
      ensures forall b :: b in events ==> b.time > now
      ensures forall b :: b in old(events) && old(b.time) > now ==>
                b in events && b.time == old(b.time)
                && b.enabled == (old(b.enabled) && !CancelledIn(react, fired, |old(fired)|, |fired|, b.id))
      // the descriptor of an event that is gone does not lead to it any more
      ensures forall b :: b in old(events) && b !in events ==> !b.attached
      // the calls are in time order, each for a due event that was on and not yet unscheduled, none twice
      ensures forall j, k :: |old(fired)| <= j <= k < |fired| ==> fired[j].time <= fired[k].time <= now
      ensures |fired| == |old(fired)| + |who|
      ensures forall i :: 0 <= i < |who| ==> who[i] in old(events) && old(who[i].enabled)
      ensures forall i :: 0 <= i < |who| ==> fired[|old(fired)| + i] == Firing(who[i].id, old(who[i].time))
      ensures forall i :: 0 <= i < |who| ==> !CancelledIn(react, fired, |old(fired)|, |old(fired)| + i, who[i].id)
      ensures forall j, k :: |old(fired)| <= j < k < |fired| ==> fired[j].id != fired[k].id
      // a due event that was on is called, or was unscheduled by the callback of one not later than itself
      ensures forall b :: b in old(events) && old(b.time) <= now && old(b.enabled) ==>
                Called(fired, |old(fired)|, b.id) || CancelledBy(react, fired, |old(fired)|, b.id, old(b.time))
      // a called event comes again exactly when its callback asked for it, at the time it asked for, and is on
      // unless it or a later callback unscheduled it; a due event that was not called is gone
      ensures AllReturn(react, fired, |old(fired)|, old(nextId), who, Clock(events), Switches(events))
      ensures forall b :: b in old(events) && old(b.time) <= now && b !in who ==> b !in events
      // for each time a callback asked for there is a new event of that time, on unless a later callback
      // unscheduled it, and there are no other new events
      ensures AllArrive(react, fired, |old(fired)|, old(nextId), who, Clock(events), Switches(events))
      ensures forall b :: b in events && b !in old(events) ==> fresh(b) && old(nextId) <= b.id < nextId
      ensures forall b :: b in old(events) ==> b.id < old(nextId)
      ensures nextId == old(nextId) + Asked(react, |old(fired)|, who, |who|)
    {
      hide Valid, CancelledIn, CancelledBy, Called, Later, Ordered, UpTo, Calls, Midway, Due, Comings,
        AllArrive, AllReturn, Asked;
      Known();
      ghost var start, first, on := |fired|, Clock(events), Switches(events);
      who := FireDue(now, react);
      ghost var clock, switch := Clock(events), Switches(events);
      ComingsMean(react, fired, start, old(nextId), nextId, who, clock, switch, first, now);
      NothingDue(react, fired, start, clock, switch, first, on, now);
      LogMeans(react, fired, start, who, first, on, now);
    }
  }

  lemma LaterTimes(react: (nat, nat) -> Reaction, now: int, n: nat, id: nat)
    requires Later(react, now)
    ensures var r := react(n, id);
            (r.again ==> r.time > now) && forall j :: 0 <= j < |r.schedule| ==> r.schedule[j] > now
  {
    var r := react(n, id);
    forall j | 0 <= j < |r.schedule| ensures r.schedule[j] > now {
      assert r.schedule[j] in r.schedule;
    }
  }

  ghost function Due(clock: map<EventFull, int>, now: int): set<EventFull> {
    set b | b in clock && clock[b] <= now
  }

  /** How far the loop has come: `first` and `on` are times and switches at its start, `clock` and
      `switch` those of the events in the vector now. */
  ghost predicate Midway(react: (nat, nat) -> Reaction, fired: seq<Firing>, start: nat, clock: map<EventFull, int>,
                         switch: map<EventFull, bool>,
                         first: map<EventFull, int>, on: map<EventFull, bool>, now: int)
  {
    && start <= |fired| && first.Keys == on.Keys && clock.Keys == switch.Keys && Ordered(fired, start, now)
    && (forall b :: b in clock ==> UpTo(fired, start, clock[b]))
    && DueAsBefore(fired, start, clock, first, now)
    && (forall b :: b in first && first[b] > now ==> b in clock && clock[b] == first[b])
    && SwitchesFollow(react, fired, start, clock, switch, first, on, now)
    && Covered(react, fired, start, Due(clock, now), first, on, now)
  }

  /** Due events still to come are as they were at the start, and not yet called. */
  ghost predicate DueAsBefore(fired: seq<Firing>, start: nat, clock: map<EventFull, int>, first: map<EventFull, int>,
                              now: int)
  {
    forall b :: b in clock && clock[b] <= now ==> b in first && clock[b] == first[b] && !Called(fired, start, b.id)
  }

  ghost predicate SwitchesFollow(react: (nat, nat) -> Reaction, fired: seq<Firing>, start: nat,
                                 clock: map<EventFull, int>,
                                 switch: map<EventFull, bool>, first: map<EventFull, int>, on: map<EventFull, bool>,
                                 now: int)
    requires clock.Keys == switch.Keys && first.Keys == on.Keys
  {
    forall b :: b in first && b in clock && (clock[b] <= now || first[b] > now) ==>
      switch[b] == (on[b] && !CancelledIn(react, fired, start, |fired|, b.id))
  }

  /** What one round does to clocks, switches and the log. */
  ghost predicate Rounds(react: (nat, nat) -> Reaction, before: seq<Firing>, fired: seq<Firing>,
                         clock: map<EventFull, int>, switch: map<EventFull, bool>,
                         clock': map<EventFull, int>, switch': map<EventFull, bool>, e: EventFull, now: int)
    requires clock.Keys == switch.Keys && clock'.Keys == switch'.Keys
  {
    && e in clock && clock[e] <= now
    && (forall b :: b in clock ==> clock[e] <= clock[b] && (b != e ==> b.id != e.id))
    && fired == before + (if switch[e] then [Firing(e.id, clock[e])] else [])
    && (forall b :: b in clock && b != e ==> b in clock' && clock'[b] == clock[b])
    && (forall b :: b in clock && b != e ==>
       switch'[b] == (switch[b] && !(switch[e] && b.id in react(|before|, e.id).cancel)))
    && (forall b :: b in clock' ==> (b in clock && b != e) || clock'[b] > now)
  }

  lemma RoundKeeps(react: (nat, nat) -> Reaction, before: seq<Firing>, fired: seq<Firing>, start: nat,
                   clock: map<EventFull, int>, switch: map<EventFull, bool>, clock': map<EventFull, int>,
                   switch': map<EventFull, bool>,
                   e: EventFull, who: seq<EventFull>, first: map<EventFull, int>, on: map<EventFull, bool>, now: int)
    returns (after: seq<EventFull>)
    requires clock.Keys == switch.Keys && clock'.Keys == switch'.Keys
    requires Rounds(react, before, fired, clock, switch, clock', switch', e, now)
    requires Midway(react, before, start, clock, switch, first, on, now) && Calls(react, before, start, who, first, on)
    ensures Midway(react, fired, start, clock', switch', first, on, now) && Calls(react, fired, start, after, first, on)
    ensures after == if switch[e] then who + [e] else who
    ensures before <= fired && Due(clock', now) < Due(clock, now)
  {
    hide CancelledIn, CancelledBy, Called, Ordered, UpTo, Calls, Covered, DueAsBefore, SwitchesFollow;
    after := who;
    assert before + [] == before;
    HeadFacts(react, before, start, clock, switch, e, first, on, now);
    if switch[e] {
      LogGrows(react, before, Firing(e.id, first[e]), start, now);
      CallsGrow(react, before, e, start, who, first, on);
      after := who + [e];
    } else {
      WasCancelled(react, before, start, e.id, first[e]);
    }
    AfterNow(fired, start, now);
    assert e in Due(clock, now) && e !in Due(clock', now);
    CoveredGrows(react, before, fired, start, Due(clock, now), Due(clock', now), e, first, on, now);
    DueKept(react, before, fired, start, clock, switch, clock', switch', e, first, on, now);
    SwitchesKept(react, before, fired, start, clock, switch, clock', switch', e, first, on, now);
  }

  // ---------- what comes of the callbacks' requests ----------

  /** What one round puts into the vector: e again if its callback asks for it, and `made`, one new event
      for each time asked for. */
  ghost predicate Adds(react: (nat, nat) -> Reaction, n: nat, nextId: nat, nextId': nat,
                       clock: map<EventFull, int>, switch: map<EventFull, bool>,
                       clock': map<EventFull, int>, switch': map<EventFull, bool>, e: EventFull, made: seq<EventFull>)
    requires clock.Keys == switch.Keys && clock'.Keys == switch'.Keys
  {
    var r := react(n, e.id);
    && e in clock && (forall b :: b in clock ==> b.id < nextId)
    && (e in clock' <==> switch[e] && r.again)
    && (e in clock' ==> clock'[e] == r.time && switch'[e] == (e.id !in r.cancel))
    && nextId' == nextId + |made| && |made| == (if switch[e] then |r.schedule| else 0)
    && (forall b :: b in clock' ==> b in clock || b in made)
    && forall j :: 0 <= j < |made| ==>
         && made[j] in clock' && made[j] !in clock && made[j].id == nextId + j
         && clock'[made[j]] == r.schedule[j] && switch'[made[j]]
  }

  /** How many new events the first n calls ask for. */
  ghost function Asked(react: (nat, nat) -> Reaction, start: nat, who: seq<EventFull>, n: nat): nat
    requires n <= |who|
  {
    if n == 0 then 0 else Asked(react, start, who, n - 1) + |react(start + n - 1, who[n - 1].id).schedule|
  }

  /** The i-th called event is there again exactly if its callback asked for it, for the time it asked. */
  ghost predicate Returns(react: (nat, nat) -> Reaction, fired: seq<Firing>, n: nat, e: EventFull,
                          clock: map<EventFull, int>, switch: map<EventFull, bool>)
    requires clock.Keys == switch.Keys
  {
    var r := react(n, e.id);
    && (e in clock <==> r.again)
    && (r.again ==> clock[e] == r.time && switch[e] == !CancelledIn(react, fired, n, |fired|, e.id))
  }

  /** For each of the times that call n asks for there is an event of that time, on unless a later call
      unscheduled it. They are numbered from id on. */
  ghost predicate Arrived(react: (nat, nat) -> Reaction, fired: seq<Firing>, n: nat, id: nat, times: seq<int>,
                          clock: map<EventFull, int>, switch: map<EventFull, bool>)
    requires clock.Keys == switch.Keys
  {
    forall j :: 0 <= j < |times| ==> Numbered(react, fired, n, id + j, times[j], clock, switch)
  }

  ghost predicate Numbered(react: (nat, nat) -> Reaction, fired: seq<Firing>, n: nat, id: nat, time: int,
                           clock: map<EventFull, int>, switch: map<EventFull, bool>)
    requires clock.Keys == switch.Keys
  {
    exists b :: b in clock && b.id == id && clock[b] == time
      && switch[b] == !CancelledIn(react, fired, n + 1, |fired|, id)
  }

  /** All that the calls so far have asked for is there, and nothing else is new. */
  ghost predicate Comings(react: (nat, nat) -> Reaction, fired: seq<Firing>, start: nat, base: nat, nextId: nat,
                          who: seq<EventFull>, clock: map<EventFull, int>, switch: map<EventFull, bool>,
                          first: map<EventFull, int>, now: int)
  {
    && clock.Keys == switch.Keys && start + |who| == |fired|
    && nextId == base + Asked(react, start, who, |who|)
    && AllReturn(react, fired, start, base, who, clock, switch)
    && AllArrive(react, fired, start, base, who, clock, switch)
    && OthersStay(base, nextId, who, clock, first)
  }

  ghost predicate AllReturn(react: (nat, nat) -> Reaction, fired: seq<Firing>, start: nat, base: nat,
                            who: seq<EventFull>, clock: map<EventFull, int>, switch: map<EventFull, bool>)
    requires clock.Keys == switch.Keys
  {
    forall i :: 0 <= i < |who| ==> who[i].id < base && Returns(react, fired, start + i, who[i], clock, switch)
  }

  ghost predicate AllArrive(react: (nat, nat) -> Reaction, fired: seq<Firing>, start: nat, base: nat,
                            who: seq<EventFull>, clock: map<EventFull, int>, switch: map<EventFull, bool>)
    requires clock.Keys == switch.Keys
  {
    forall i :: 0 <= i < |who| ==>
      Arrived(react, fired, start + i, base + Asked(react, start, who, i), react(start + i, who[i].id).schedule,
              clock, switch)
  }

  ghost predicate OthersStay(base: nat, nextId: nat, who: seq<EventFull>, clock: map<EventFull, int>,
                             first: map<EventFull, int>)
  {
    && (forall b :: b in first ==> b.id < base)
    && (forall b :: b in clock ==> b in first || base <= b.id < nextId)
    && (forall b :: b in clock && b in first && b !in who ==> clock[b] == first[b])
  }

  lemma ComingsStart(react: (nat, nat) -> Reaction, fired: seq<Firing>, nextId: nat, first: map<EventFull, int>,
                     on: map<EventFull, bool>, now: int)
    requires first.Keys == on.Keys && forall b :: b in first ==> b.id < nextId
    ensures Comings(react, fired, |fired|, nextId, nextId, [], first, on, first, now)
  {
  }

  lemma ComingsMean(react: (nat, nat) -> Reaction, fired: seq<Firing>, start: nat, base: nat, nextId: nat,
                    who: seq<EventFull>, clock: map<EventFull, int>, switch: map<EventFull, bool>,
                    first: map<EventFull, int>, now: int)
    requires Comings(react, fired, start, base, nextId, who, clock, switch, first, now)
    requires forall b :: b in clock ==> clock[b] > now
    ensures clock.Keys == switch.Keys && nextId == base + Asked(react, start, who, |who|)
    ensures AllReturn(react, fired, start, base, who, clock, switch)
    ensures AllArrive(react, fired, start, base, who, clock, switch)
    ensures forall b :: b in first && first[b] <= now && b !in who ==> b !in clock
    ensures forall b :: b in first ==> b.id < base
    ensures forall b :: b in clock && b !in first ==> base <= b.id < nextId
  {
    hide CancelledIn, Asked, AllReturn, AllArrive;
  }

  lemma {:induction false} AskedPrefix(react: (nat, nat) -> Reaction, start: nat, who: seq<EventFull>, e: EventFull,
                                       n: nat)
    requires n <= |who|
    ensures Asked(react, start, who + [e], n) == Asked(react, start, who, n)
  {
    if n > 0 {
      AskedPrefix(react, start, who, e, n - 1);
    }
  }

  /** One more call unschedules what its callback says. */
  lemma CancelsOne(react: (nat, nat) -> Reaction, before: seq<Firing>, f: Firing, from: nat, id: nat)
    requires from <= |before|
    ensures CancelledIn(react, before + [f], from, |before| + 1, id) <==>
            CancelledIn(react, before, from, |before|, id) || id in react(|before|, f.id).cancel
  {
    CancelsGrow(react, before, f, from);
  }

  lemma NothingCancelled(react: (nat, nat) -> Reaction, fired: seq<Firing>, from: nat, id: nat)
    requires from >= |fired|
    ensures !CancelledIn(react, fired, from, |fired|, id)
  {
  }

  lemma ReturnsKept(react: (nat, nat) -> Reaction, before: seq<Firing>, fired: seq<Firing>,
                    nextId: nat, nextId': nat, clock: map<EventFull, int>, switch: map<EventFull, bool>,
                    clock': map<EventFull, int>, switch': map<EventFull, bool>, e: EventFull, made: seq<EventFull>,
                    now: int, n: nat, w: EventFull)
    requires clock.Keys == switch.Keys && clock'.Keys == switch'.Keys
    requires Rounds(react, before, fired, clock, switch, clock', switch', e, now)
    requires Adds(react, |before|, nextId, nextId', clock, switch, clock', switch', e, made)
    requires n < |before| && Returns(react, before, n, w, clock, switch) && w.id < nextId && Later(react, now)
    ensures Returns(react, fired, n, w, clock', switch')
  {
    hide CancelledIn;
    LaterTimes(react, now, n, w.id);
    if switch[e] {
      CancelsOne(react, before, Firing(e.id, clock[e]), n, w.id);
    } else {
      assert before + [] == before;
    }
  }

  lemma ArrivedKept(react: (nat, nat) -> Reaction, before: seq<Firing>, fired: seq<Firing>,
                    clock: map<EventFull, int>, switch: map<EventFull, bool>,
                    clock': map<EventFull, int>, switch': map<EventFull, bool>, e: EventFull, now: int, n: nat, id: nat,
                    times: seq<int>)
    requires clock.Keys == switch.Keys && clock'.Keys == switch'.Keys
    requires Rounds(react, before, fired, clock, switch, clock', switch', e, now)
    requires n < |before| && Arrived(react, before, n, id, times, clock, switch)
    requires forall j :: 0 <= j < |times| ==> times[j] > now
    ensures Arrived(react, fired, n, id, times, clock', switch')
  {
    hide CancelledIn;
    forall j | 0 <= j < |times| ensures Numbered(react, fired, n, id + j, times[j], clock', switch') {
      assert Numbered(react, before, n, id + j, times[j], clock, switch);
      var b :| b in clock && b.id == id + j && clock[b] == times[j]
        && switch[b] == !CancelledIn(react, before, n + 1, |before|, id + j);
      if switch[e] {
        CancelsOne(react, before, Firing(e.id, clock[e]), n + 1, b.id);
      } else {
        assert before + [] == before;
      }
      assert b in clock' && clock'[b] == times[j];
    }
  }

  /** The event just called. */
  lemma CalledReturns(react: (nat, nat) -> Reaction, before: seq<Firing>, nextId: nat, nextId': nat,
                      clock: map<EventFull, int>, switch: map<EventFull, bool>, clock': map<EventFull, int>,
                      switch': map<EventFull, bool>, e: EventFull, made: seq<EventFull>)
    requires clock.Keys == switch.Keys && clock'.Keys == switch'.Keys
    requires Adds(react, |before|, nextId, nextId', clock, switch, clock', switch', e, made) && switch[e]
    ensures Returns(react, before + [Firing(e.id, clock[e])], |before|, e, clock', switch')
  {
    hide CancelledIn;
    CancelsOne(react, before, Firing(e.id, clock[e]), |before|, e.id);
    NothingCancelled(react, before, |before|, e.id);
  }

  /** The new events its callback asks for. */
  lemma CalledArrive(react: (nat, nat) -> Reaction, fired: seq<Firing>, n: nat, nextId: nat, times: seq<int>,
                     clock: map<EventFull, int>, switch: map<EventFull, bool>, made: seq<EventFull>)
    requires clock.Keys == switch.Keys && |made| == |times| && |fired| == n + 1
    requires forall j :: 0 <= j < |made| ==>
               && made[j] in clock && made[j].id == nextId + j && clock[made[j]] == times[j] && switch[made[j]]
    ensures Arrived(react, fired, n, nextId, times, clock, switch)
  {
    hide CancelledIn;
    forall j | 0 <= j < |times| ensures Numbered(react, fired, n, nextId + j, times[j], clock, switch) {
      NothingCancelled(react, fired, n + 1, nextId + j);
      assert made[j] in clock;
    }
  }

  lemma RoundComings(react: (nat, nat) -> Reaction, before: seq<Firing>, fired: seq<Firing>, start: nat, base: nat,
                     nextId: nat, nextId': nat, clock: map<EventFull, int>, switch: map<EventFull, bool>,
                     clock': map<EventFull, int>, switch': map<EventFull, bool>, e: EventFull, made: seq<EventFull>,
                     who: seq<EventFull>, first: map<EventFull, int>, on: map<EventFull, bool>, now: int)
    requires clock.Keys == switch.Keys && clock'.Keys == switch'.Keys
    requires Rounds(react, before, fired, clock, switch, clock', switch', e, now)
    requires Adds(react, |before|, nextId, nextId', clock, switch, clock', switch', e, made)
    requires Midway(react, before, start, clock, switch, first, on, now)
    requires Comings(react, before, start, base, nextId, who, clock, switch, first, now) && Later(react, now)
    ensures Comings(react, fired, start, base, nextId', if switch[e] then who + [e] else who, clock', switch', first,
                    now)
  {
    hide CancelledIn, Midway, Later, Returns, Arrived, AllReturn, AllArrive, Rounds;
    RoundLog(react, before, fired, clock, switch, clock', switch', e, now);
    HeadFacts(react, before, start, clock, switch, e, first, on, now);
    RoundReturns(react, before, fired, start, base, nextId, nextId', clock, switch, clock', switch', e, made, who, now);
    RoundArrives(react, before, fired, start, base, nextId, nextId', clock, switch, clock', switch', e, made, who, now);
    if switch[e] {
      AskedPrefix(react, start, who, e, |who|);
    }
  }

  lemma RoundLog(react: (nat, nat) -> Reaction, before: seq<Firing>, fired: seq<Firing>,
                 clock: map<EventFull, int>, switch: map<EventFull, bool>,
                 clock': map<EventFull, int>, switch': map<EventFull, bool>, e: EventFull, now: int)
    requires clock.Keys == switch.Keys && clock'.Keys == switch'.Keys
    requires Rounds(react, before, fired, clock, switch, clock', switch', e, now)
    ensures e in clock && clock[e] <= now
    ensures fired == if switch[e] then before + [Firing(e.id, clock[e])] else before
    ensures forall b :: b in clock && b != e ==> b in clock' && clock'[b] == clock[b]
  {
    assert before + [] == before;
  }

  lemma RoundReturns(react: (nat, nat) -> Reaction, before: seq<Firing>, fired: seq<Firing>, start: nat, base: nat,
                     nextId: nat, nextId': nat, clock: map<EventFull, int>, switch: map<EventFull, bool>,
                     clock': map<EventFull, int>, switch': map<EventFull, bool>, e: EventFull, made: seq<EventFull>,
                     who: seq<EventFull>, now: int)
    requires clock.Keys == switch.Keys && clock'.Keys == switch'.Keys
    requires Rounds(react, before, fired, clock, switch, clock', switch', e, now)
    requires Adds(react, |before|, nextId, nextId', clock, switch, clock', switch', e, made)
    requires AllReturn(react, before, start, base, who, clock, switch) && start + |who| == |before|
    requires e.id < base <= nextId && Later(react, now)
    ensures AllReturn(react, fired, start, base, if switch[e] then who + [e] else who, clock', switch')
  {
    hide Later, Returns, Rounds, Adds;
    RoundLog(react, before, fired, clock, switch, clock', switch', e, now);
    var after := if switch[e] then who + [e] else who;
    forall i | 0 <= i < |after|
      ensures after[i].id < base && Returns(react, fired, start + i, after[i], clock', switch')
    {
      if i < |who| {
        ReturnsKept(react, before, fired, nextId, nextId', clock, switch, clock', switch', e, made, now, start + i,
          who[i]);
      } else {
        CalledReturns(react, before, nextId, nextId', clock, switch, clock', switch', e, made);
      }
    }
  }

  lemma MadeFor(react: (nat, nat) -> Reaction, n: nat, nextId: nat, nextId': nat, clock: map<EventFull, int>,
                switch: map<EventFull, bool>, clock': map<EventFull, int>, switch': map<EventFull, bool>, e: EventFull,
                made: seq<EventFull>)
    requires clock.Keys == switch.Keys && clock'.Keys == switch'.Keys
    requires Adds(react, n, nextId, nextId', clock, switch, clock', switch', e, made)
    ensures e in clock && (switch[e] ==> |made| == |react(n, e.id).schedule|)
    ensures forall j :: 0 <= j < |made| ==>
              && made[j] in clock' && made[j].id == nextId + j && switch'[made[j]]
              && clock'[made[j]] == react(n, e.id).schedule[j]
  {
  }

  lemma RoundArrives(react: (nat, nat) -> Reaction, before: seq<Firing>, fired: seq<Firing>, start: nat, base: nat,
                     nextId: nat, nextId': nat, clock: map<EventFull, int>, switch: map<EventFull, bool>,
                     clock': map<EventFull, int>, switch': map<EventFull, bool>, e: EventFull, made: seq<EventFull>,
                     who: seq<EventFull>, now: int)
    requires clock.Keys == switch.Keys && clock'.Keys == switch'.Keys
    requires Rounds(react, before, fired, clock, switch, clock', switch', e, now)
    requires Adds(react, |before|, nextId, nextId', clock, switch, clock', switch', e, made)
    requires AllArrive(react, before, start, base, who, clock, switch) && start + |who| == |before|
    requires nextId == base + Asked(react, start, who, |who|) && Later(react, now)
    ensures AllArrive(react, fired, start, base, if switch[e] then who + [e] else who, clock', switch')
  {
    hide Later, Arrived, Rounds, Adds, Asked;
    MadeFor(react, |before|, nextId, nextId', clock, switch, clock', switch', e, made);
    RoundLog(react, before, fired, clock, switch, clock', switch', e, now);
    var after := if switch[e] then who + [e] else who;
    forall i | 0 <= i < |after|
      ensures Arrived(react, fired, start + i, base + Asked(react, start, after, i),
                      react(start + i, after[i].id).schedule, clock', switch')
    {
      AskedPrefix(react, start, who, e, if i < |who| then i else |who|);
      if i < |who| {
        LaterTimes(react, now, start + i, who[i].id);
        ArrivedKept(react, before, fired, clock, switch, clock', switch', e, now, start + i,
          base + Asked(react, start, who, i), react(start + i, who[i].id).schedule);
      } else {
        CalledArrive(react, fired, |before|, nextId, react(|before|, e.id).schedule, clock', switch', made);
      }
    }
  }

  lemma HeadFacts(react: (nat, nat) -> Reaction, fired: seq<Firing>, start: nat, clock: map<EventFull, int>,
                  switch: map<EventFull, bool>,
                  e: EventFull, first: map<EventFull, int>, on: map<EventFull, bool>, now: int)
    requires Midway(react, fired, start, clock, switch, first, on, now) && e in clock && clock[e] <= now
    ensures e in first && clock[e] == first[e] && !Called(fired, start, e.id) && UpTo(fired, start, clock[e])
    ensures switch[e] == (on[e] && !CancelledIn(react, fired, start, |fired|, e.id))
  {
    hide CancelledIn, Called, UpTo, Ordered, Covered;
  }

  lemma DueKept(react: (nat, nat) -> Reaction, before: seq<Firing>, fired: seq<Firing>, start: nat,
                clock: map<EventFull, int>, switch: map<EventFull, bool>, clock': map<EventFull, int>,
                switch': map<EventFull, bool>,
                e: EventFull, first: map<EventFull, int>, on: map<EventFull, bool>, now: int)
    requires clock.Keys == switch.Keys && clock'.Keys == switch'.Keys && first.Keys == on.Keys
    requires Rounds(react, before, fired, clock, switch, clock', switch', e, now)
             && DueAsBefore(before, start, clock, first, now)
    requires forall id: nat :: Called(fired, start, id) ==> Called(before, start, id) || id == e.id
    ensures DueAsBefore(fired, start, clock', first, now)
  {
    hide Called;
  }

  lemma SwitchesKept(react: (nat, nat) -> Reaction, before: seq<Firing>, fired: seq<Firing>, start: nat,
                     clock: map<EventFull, int>, switch: map<EventFull, bool>, clock': map<EventFull, int>,
                     switch': map<EventFull, bool>,
                     e: EventFull, first: map<EventFull, int>, on: map<EventFull, bool>, now: int)
    requires clock.Keys == switch.Keys && clock'.Keys == switch'.Keys && first.Keys == on.Keys
    requires Rounds(react, before, fired, clock, switch, clock', switch', e, now)
    requires SwitchesFollow(react, before, start, clock, switch, first, on, now)
    requires forall b :: b in first && first[b] > now ==> b in clock && clock[b] == first[b]
    requires forall id: nat :: CancelledIn(react, fired, start, |fired|, id) <==>
               CancelledIn(react, before, start, |before|, id) || (switch[e] && id in react(|before|, e.id).cancel)
    ensures SwitchesFollow(react, fired, start, clock', switch', first, on, now)
  {
    hide CancelledIn;
  }

  /** At the end nothing is due any more. */
  lemma NothingDue(react: (nat, nat) -> Reaction, fired: seq<Firing>, start: nat, clock: map<EventFull, int>,
                   switch: map<EventFull, bool>,
                   first: map<EventFull, int>, on: map<EventFull, bool>, now: int)
    requires Midway(react, fired, start, clock, switch, first, on, now) && forall b :: b in clock ==> clock[b] > now
    ensures Ordered(fired, start, now) && first.Keys == on.Keys && clock.Keys == switch.Keys
    ensures forall b :: b in first && first[b] > now ==>
              b in clock && clock[b] == first[b]
                && switch[b] == (on[b] && !CancelledIn(react, fired, start, |fired|, b.id))
    ensures forall b :: b in first && first[b] <= now && on[b] ==>
              Called(fired, start, b.id) || CancelledBy(react, fired, start, b.id, first[b])
  {
    hide CancelledIn, CancelledBy, Called, UpTo, Ordered;
  }

  ghost function Clock(es: seq<EventFull>): (m: map<EventFull, int>)
    reads es
    ensures m.Keys == (set b | b in es) && forall b :: b in es ==> m[b] == b.time
  {
    map b | b in es :: b.time
  }

  ghost function Switches(es: seq<EventFull>): (m: map<EventFull, bool>)
    reads es
    ensures m.Keys == (set b | b in es) && forall b :: b in es ==> m[b] == b.enabled
  {
    map b | b in es :: b.enabled
  }

  /** The calls from `from` on are in time order, none after now, and none twice. */
  ghost predicate Ordered(fired: seq<Firing>, from: nat, now: int) {
    && (forall j, k :: from <= j <= k < |fired| ==> fired[j].time <= fired[k].time <= now)
    && (forall j, k :: from <= j < k < |fired| ==> fired[j].id != fired[k].id)
  }

  /** A due event that was on is still to come, or called, or unscheduled by one not later. */
  ghost predicate Covered(react: (nat, nat) -> Reaction, fired: seq<Firing>, from: nat, pending: set<EventFull>,
                          first: map<EventFull, int>, on: map<EventFull, bool>, now: int)
    requires first.Keys == on.Keys
  {
    forall b :: b in first && first[b] <= now && on[b] ==>
      b in pending || Called(fired, from, b.id) || CancelledBy(react, fired, from, b.id, first[b])
  }

  lemma CoveredGrows(react: (nat, nat) -> Reaction, before: seq<Firing>, after: seq<Firing>, from: nat,
                     due: set<EventFull>, rest: set<EventFull>, e: EventFull,
                     first: map<EventFull, int>, on: map<EventFull, bool>, now: int)
    requires first.Keys == on.Keys && Covered(react, before, from, due, first, on, now) && due - {e} <= rest
             && e in first
    requires forall id: nat :: Called(before, from, id) ==> Called(after, from, id)
    requires forall id: nat, time: int :: CancelledBy(react, before, from, id, time) ==>
             CancelledBy(react, after, from, id, time)
    requires on[e] ==> Called(after, from, e.id) || CancelledBy(react, after, from, e.id, first[e])
    ensures Covered(react, after, from, rest, first, on, now)
  {
    hide Called, CancelledBy;
  }

  ghost predicate UpTo(fired: seq<Firing>, from: nat, time: int) {
    forall k :: from <= k < |fired| ==> fired[k].time <= time
  }

  /** The calls from `from` on are those of the events `who`, on and not unscheduled before. */
  ghost predicate Calls(react: (nat, nat) -> Reaction, fired: seq<Firing>, from: nat, who: seq<EventFull>,
                        first: map<EventFull, int>, on: map<EventFull, bool>)
  {
    && |fired| == from + |who|
    && forall i :: 0 <= i < |who| ==>
         && who[i] in first && who[i] in on && on[who[i]] && fired[from + i] == Firing(who[i].id, first[who[i]])
         && !CancelledIn(react, fired, from, from + i, who[i].id)
  }

  /** The event was unscheduled by one of the calls from .. to. */
  ghost predicate CancelledIn(react: (nat, nat) -> Reaction, fired: seq<Firing>, from: nat, to: nat, id: nat) {
    exists k :: from <= k < to && k < |fired| && id in react(k, fired[k].id).cancel
  }

  lemma LogStarts(react: (nat, nat) -> Reaction, fired: seq<Firing>, first: map<EventFull, int>,
                  on: map<EventFull, bool>, now: int)
    requires first.Keys == on.Keys
    ensures Calls(react, fired, |fired|, [], first, on) && Midway(react, fired, |fired|, first, on, first, on, now)
    ensures forall id: nat :: !CancelledIn(react, fired, |fired|, |fired|, id) && !Called(fired, |fired|, id)
    ensures forall time: int :: UpTo(fired, |fired|, time)
  {
  }

  lemma LogGrows(react: (nat, nat) -> Reaction, before: seq<Firing>, f: Firing, from: nat, now: int)
    requires from <= |before| && Ordered(before, from, now) && UpTo(before, from, f.time) && f.time <= now
             && !Called(before, from, f.id)
    ensures var after := before + [f];
            && Ordered(after, from, now)
            && (forall time: int :: UpTo(before, from, time) && f.time <= time ==> UpTo(after, from, time))
            && (forall id: nat :: Called(after, from, id) <==> Called(before, from, id) || id == f.id)
            && (forall id: nat :: CancelledIn(react, after, from, |after|, id) <==>
                  CancelledIn(react, before, from, |before|, id) || id in react(|before|, f.id).cancel)
            && (forall id: nat, time: int :: CancelledBy(react, before, from, id, time) ==>
               CancelledBy(react, after, from, id, time))
            && (forall id: nat, time: int :: CancelledIn(react, before, from, |before|, id) && UpTo(before, from, time)
                  ==> CancelledBy(react, after, from, id, time))
  {
    var after := before + [f];
    assert after[|before|] == f;
    forall k | 0 <= k < |before| ensures after[k] == before[k] {
    }
    CalledGrows(before, f, from);
    CancelsGrow(react, before, f, from);
  }

  lemma WasCancelled(react: (nat, nat) -> Reaction, fired: seq<Firing>, from: nat, id: nat, time: int)
    requires UpTo(fired, from, time)
    ensures CancelledIn(react, fired, from, |fired|, id) ==> CancelledBy(react, fired, from, id, time)
  {
  }

  lemma AfterNow(fired: seq<Firing>, from: nat, now: int)
    requires Ordered(fired, from, now)
    ensures forall time: int :: time > now ==> UpTo(fired, from, time)
  {
    forall time: int | time > now ensures UpTo(fired, from, time) {
      forall k | from <= k < |fired| ensures fired[k].time <= time {
        assert fired[k].time <= fired[k].time <= now;
      }
    }
  }

  lemma CalledGrows(before: seq<Firing>, f: Firing, from: nat)
    requires from <= |before|
    ensures forall id: nat :: Called(before + [f], from, id) <==> Called(before, from, id) || id == f.id
  {
    var after := before + [f];
    forall id: nat | Called(before, from, id) || id == f.id ensures Called(after, from, id) {
      assert after[|before|].id == f.id;
      if Called(before, from, id) {
        var k :| from <= k < |before| && before[k].id == id;
        assert after[k].id == id;
      }
    }
  }

  lemma CancelsGrow(react: (nat, nat) -> Reaction, before: seq<Firing>, f: Firing, from: nat)
    requires from <= |before|
    ensures var after := before + [f];
            && (forall id: nat :: CancelledIn(react, after, from, |after|, id) <==>
                  CancelledIn(react, before, from, |before|, id) || id in react(|before|, f.id).cancel)
            && (forall id: nat, time: int :: CancelledBy(react, before, from, id, time) ==>
               CancelledBy(react, after, from, id, time))
            && (forall id: nat, time: int :: CancelledIn(react, before, from, |before|, id) && UpTo(before, from, time)
                  ==> CancelledBy(react, after, from, id, time))
  {
    var after := before + [f];
    assert after[|before|] == f;
    forall id: nat | CancelledIn(react, before, from, |before|, id)
      ensures CancelledIn(react, after, from, |after|, id)
    {
      var k :| from <= k < |before| && id in react(k, before[k].id).cancel;
      assert id in react(k, after[k].id).cancel;
    }
    forall id: nat, time: int | CancelledBy(react, before, from, id, time)
      ensures CancelledBy(react, after, from, id, time)
    {
      var k :| from <= k < |before| && before[k].time <= time && id in react(k, before[k].id).cancel;
      assert after[k] == before[k];
    }
    forall id: nat, time: int | CancelledIn(react, before, from, |before|, id) && UpTo(before, from, time)
      ensures CancelledBy(react, after, from, id, time)
    {
      var k :| from <= k < |before| && id in react(k, before[k].id).cancel;
      assert after[k] == before[k];
    }
  }

  /** The earlier calls are not touched by one more. */
  lemma CancelledPrefix(react: (nat, nat) -> Reaction, before: seq<Firing>, f: Firing, from: nat, to: nat, id: nat)
    requires to <= |before|
    ensures CancelledIn(react, before + [f], from, to, id) == CancelledIn(react, before, from, to, id)
  {
    var after := before + [f];
    if CancelledIn(react, before, from, to, id) {
      var k :| from <= k < to && k < |before| && id in react(k, before[k].id).cancel;
      assert id in react(k, after[k].id).cancel;
    }
  }

  lemma CallsGrow(react: (nat, nat) -> Reaction, before: seq<Firing>, e: EventFull, from: nat, who: seq<EventFull>,
                  first: map<EventFull, int>, on: map<EventFull, bool>)
    requires Calls(react, before, from, who, first, on) && e in first && e in on && on[e]
    requires !CancelledIn(react, before, from, |before|, e.id)
    ensures Calls(react, before + [Firing(e.id, first[e])], from, who + [e], first, on)
  {
    hide CancelledIn;
    var f, all := Firing(e.id, first[e]), who + [e];
    forall i | 0 <= i < |all| ensures !CancelledIn(react, before + [f], from, from + i, all[i].id) {
      CancelledPrefix(react, before, f, from, from + i, all[i].id);
    }
  }

  lemma LogMeans(react: (nat, nat) -> Reaction, fired: seq<Firing>, from: nat, who: seq<EventFull>,
                 first: map<EventFull, int>, on: map<EventFull, bool>, now: int)
    requires Ordered(fired, from, now) && Calls(react, fired, from, who, first, on)
    ensures forall j, k :: from <= j <= k < |fired| ==> fired[j].time <= fired[k].time <= now
    ensures forall j, k :: from <= j < k < |fired| ==> fired[j].id != fired[k].id
    ensures |fired| == from + |who|
    ensures forall i :: 0 <= i < |who| ==> who[i] in first && who[i] in on && on[who[i]]
    ensures forall i :: 0 <= i < |who| ==> fired[from + i] == Firing(who[i].id, first[who[i]])
    ensures forall i :: 0 <= i < |who| ==> !CancelledIn(react, fired, from, from + i, who[i].id)
  {
  }

  lemma EarliestFirst(es: seq<EventFull>)
    requires Heap(Times(es))
    ensures forall b :: b in es ==> es[0].time <= b.time
  {
    forall b | b in es ensures es[0].time <= b.time {
      var i :| 0 <= i < |es| && es[i] == b;
      RootIsLeast(Times(es), i);
    }
  }

  ghost predicate CancelledBy(react: (nat, nat) -> Reaction, fired: seq<Firing>, from: nat, id: nat, time: int) {
    exists k :: from <= k < |fired| && fired[k].time <= time && id in react(k, fired[k].id).cancel
  }

  ghost predicate Called(fired: seq<Firing>, from: nat, id: nat) {
    exists k :: from <= k < |fired| && fired[k].id == id
  }

  /** No callback asks for a time that has come already. */
  ghost predicate Later(react: (nat, nat) -> Reaction, now: int) {
    forall n: nat, id: nat :: (forall t :: t in react(n, id).schedule ==> t > now)
      && (react(n, id).again ==> react(n, id).time > now)
  }
}
