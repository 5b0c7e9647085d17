/** The activity sparkline of a session: twenty buckets of fifteen seconds in a circular array. */
module Activity {
  import opened Wrappers

  const BUCKET_DURATION: int := 15_000_000_000
  const BUCKET_COUNT := 20

  /** Times are in nanoseconds; a bucket is named by its number since the zero time. */
  function BucketOf(now: int): int { now / BUCKET_DURATION }

  // ---------- The window of buckets ----------

  /** The last twenty buckets, oldest first; `head` is the number of the newest. */
  datatype Window = Window(slots: seq<nat>, head: int, total: nat) {
    predicate Valid() { |slots| == BUCKET_COUNT }
  }

  function Zeros(n: nat): (s: seq<nat>)
    ensures |s| == n && forall i :: 0 <= i < n ==> s[i] == 0
  {
    seq(n, _ => 0)
  }

  function Opened(bucket: int): Window { Window(Zeros(BUCKET_COUNT), bucket, 0) }

  /** One empty bucket comes in, the oldest goes out. */
  function Shift(slots: seq<nat>): seq<nat>
    requires slots != []
  {
    slots[1..] + [0]
  }

  /** The window moved on to a later bucket; an earlier one leaves it where it is. */
  function MoveTo(w: Window, bucket: int): (r: Window)
    requires w.Valid()
    ensures r.Valid()
  {
    if bucket <= w.head then w else
      var steps := if bucket - w.head > BUCKET_COUNT then BUCKET_COUNT else bucket - w.head;
      w.(slots := w.slots[steps..] + Zeros(steps), head := bucket)
  }

  datatype Event = Record(now: int, bytes: nat) | Get(now: int)

  function Apply(w: Window, event: Event): (r: Window)
    requires w.Valid()
    ensures r.Valid()
  {
    var moved := MoveTo(w, BucketOf(event.now));
    match event
    case Get(_) => moved
    case Record(_, n) =>
      moved.(slots := moved.slots[BUCKET_COUNT - 1 := moved.slots[BUCKET_COUNT - 1] + n], total := moved.total + n)
  }

  // ---------- The circular array ----------

  class SessionActivity {
    const buckets: array<nat>
    var headIdx: nat
    var headTime: int
    var totalBytes: nat

    ghost predicate Valid()
      reads this
    {
      buckets.Length == BUCKET_COUNT && headIdx < BUCKET_COUNT
    }

    ghost function View(): (w: Window)
      requires Valid()
      reads this, buckets
      ensures w.Valid()
    {
      Window(Unrolled(buckets[..], headIdx), headTime, totalBytes)
    }

    constructor (now: int)
      ensures Valid() && fresh(buckets) && View() == Opened(BucketOf(now))
    {
      buckets := new nat[BUCKET_COUNT](_ => 0);
      headIdx, headTime, totalBytes := 0, BucketOf(now), 0;
    }

    method Advance(now: int)
      requires Valid()
      modifies this, buckets
      ensures Valid() && View() == MoveTo(old(View()), BucketOf(now))
    {
      hide Unrolled, Shift, Zeros, BucketOf;
      var currentBucket := BucketOf(now);
      var elapsed := currentBucket - headTime;
      ghost var was := View();
      if elapsed > 0 {
        var steps := if elapsed > BUCKET_COUNT then BUCKET_COUNT else elapsed;
        for i := 0 to steps
          invariant Valid() && headTime == was.head && totalBytes == was.total
          invariant View().slots == was.slots[i..] + Zeros(i)
        {
          ghost var ring, place := buckets[..], headIdx;
          headIdx := (headIdx + 1) % BUCKET_COUNT;
          buckets[headIdx] := 0;
          ClearingShifts(ring, place, headIdx, buckets[..]);
          ShiftOneMore(was.slots, i);
        }
        headTime := currentBucket;
      }
    }

    method Record(n: nat, now: int)
      requires Valid()
      modifies this, buckets
      ensures Valid() && View() == Apply(old(View()), Event.Record(now, n))
    {
      totalBytes := totalBytes + n;
      Advance(now);
      buckets[headIdx] := buckets[headIdx] + n;
    }

    method Get(now: int) returns (sparkline: array<nat>)
      requires Valid()
      modifies this, buckets
      ensures Valid() && View() == Apply(old(View()), Event.Get(now))
      ensures fresh(sparkline) && sparkline[..] == View().slots
    {
      Advance(now);
      sparkline := new nat[BUCKET_COUNT](_ => 0);
      for i := 0 to BUCKET_COUNT
        invariant Valid() && View() == Apply(old(View()), Event.Get(now))
        invariant forall k :: 0 <= k < i ==> sparkline[k] == View().slots[k]
      {
        var idx := (headIdx + 1 + i) % BUCKET_COUNT;
        sparkline[i] := buckets[idx];
      }
    }
  }

  /** The ring read from the place after its head. */
  function Unrolled(ring: seq<nat>, headIdx: nat): (s: seq<nat>)
    requires |ring| == BUCKET_COUNT && headIdx < BUCKET_COUNT
    ensures |s| == BUCKET_COUNT
  {
    seq(BUCKET_COUNT, i requires 0 <= i < BUCKET_COUNT => ring[(headIdx + 1 + i) % BUCKET_COUNT])
  }

  lemma ShiftOneMore(slots: seq<nat>, i: nat)
    requires i < |slots|
    ensures Shift(slots[i..] + Zeros(i)) == slots[i + 1..] + Zeros(i + 1)
  {
  }

  lemma ClearingShifts(ring: seq<nat>, headIdx: nat, next: nat, cleared: seq<nat>)
    requires |ring| == BUCKET_COUNT && headIdx < BUCKET_COUNT && next == (headIdx + 1) % BUCKET_COUNT
    requires cleared == ring[next := 0]
    ensures Unrolled(cleared, next) == Shift(Unrolled(ring, headIdx))
  {
  }

  // ---------- What the sparkline shows ----------

  function Run(created: int, events: seq<Event>): (w: Window)
    ensures w.Valid()
  {
    if events == [] then Opened(BucketOf(created))
    else Apply(Run(created, events[..|events| - 1]), events[|events| - 1])
  }

  /** The latest bucket seen so far. */
  function HighWater(created: int, events: seq<Event>): int {
    if events == [] then BucketOf(created)
    else Max(HighWater(created, events[..|events| - 1]), BucketOf(events[|events| - 1].now))
  }

  /** The bytes recorded while the latest bucket was `bucket`. */
  function Landed(created: int, events: seq<Event>, bucket: int): nat {
    if events == [] then 0 else
      Landed(created, events[..|events| - 1], bucket)
      + (if events[|events| - 1].Record? && HighWater(created, events) == bucket then events[|events| - 1].bytes else 0)
  }

  lemma {:induction false} NothingLandsLater(created: int, events: seq<Event>, bucket: int)
    requires bucket > HighWater(created, events)
    ensures Landed(created, events, bucket) == 0
  {
    if events != [] { NothingLandsLater(created, events[..|events| - 1], bucket); }
  }

  /** What a move does to one slot. */
  lemma MovedSlot(w: Window, bucket: int, i: nat)
    requires w.Valid() && i < BUCKET_COUNT
    ensures var moved := MoveTo(w, bucket);
      && moved.head == Max(w.head, bucket)
      && var place := moved.head - w.head + i;
         moved.slots[i] == if place < BUCKET_COUNT then w.slots[place] else 0
  {
  }

  /** For every history, whatever the clock does: each slot holds what was recorded while its bucket was the latest. */
  lemma {:induction false} SlotsHoldWhatLanded(created: int, events: seq<Event>, i: nat)
    requires i < BUCKET_COUNT
    ensures var w := Run(created, events);
      w.head == HighWater(created, events) && w.slots[i] == Landed(created, events, w.head - (BUCKET_COUNT - 1) + i)
  {
    hide BucketOf, MoveTo;
    if events == [] {
    } else {
      var before, event := events[..|events| - 1], events[|events| - 1];
      SlotsHoldWhatLanded(created, before, 0);
      MovedSlot(Run(created, before), BucketOf(event.now), i);
      var bucket := HighWater(created, events) - (BUCKET_COUNT - 1) + i;
      var place := HighWater(created, events) - HighWater(created, before) + i;
      if place < BUCKET_COUNT {
        SlotsHoldWhatLanded(created, before, place);
      } else {
        NothingLandsLater(created, before, bucket);
      }
    }
  }

  /** The clock never goes back. */
  ghost predicate InClockOrder(created: int, events: seq<Event>) {
    && (forall i :: 0 <= i < |events| ==> created <= events[i].now)
    && (forall i, j :: 0 <= i < j < |events| ==> events[i].now <= events[j].now)
  }

  /** The time lies in the bucket: in fifteen seconds from that many times fifteen seconds. */
  predicate Within(bucket: int, now: int) {
    bucket * 15_000_000_000 <= now < (bucket + 1) * 15_000_000_000
  }

  lemma BucketOfIff(now: int, bucket: int)
    ensures BucketOf(now) == bucket <==> Within(bucket, now)
  {
  }

  /** The bytes recorded at times within a bucket. */
  function RecordedIn(events: seq<Event>, bucket: int): nat {
    if events == [] then 0 else
      RecordedIn(events[..|events| - 1], bucket)
      + (if events[|events| - 1].Record? && Within(bucket, events[|events| - 1].now) then events[|events| - 1].bytes else 0)
  }

  function TotalRecorded(events: seq<Event>): nat {
    if events == [] then 0 else
      TotalRecorded(events[..|events| - 1]) + (if events[|events| - 1].Record? then events[|events| - 1].bytes else 0)
  }

  /** The total is everything that was ever recorded, whatever the clock does. */
  lemma {:induction false} TotalIsRecorded(created: int, events: seq<Event>)
    ensures Run(created, events).total == TotalRecorded(events)
  {
    hide BucketOf, MoveTo;
    if events != [] {
      TotalIsRecorded(created, events[..|events| - 1]);
      MoveKeepsTotal(Run(created, events[..|events| - 1]), BucketOf(events[|events| - 1].now));
    }
  }

  lemma MoveKeepsTotal(w: Window, bucket: int)
    requires w.Valid()
    ensures MoveTo(w, bucket).total == w.total
  {
  }

  lemma {:induction false} LandedIsRecorded(created: int, events: seq<Event>, bucket: int)
    requires InClockOrder(created, events)
    ensures HighWater(created, events) == if events == [] then BucketOf(created) else BucketOf(events[|events| - 1].now)
    ensures Landed(created, events, bucket) == RecordedIn(events, bucket)
  {
    if events != [] {
      var n := |events| - 1;
      LandedIsRecorded(created, events[..n], bucket);
      BucketOfIff(events[n].now, bucket);
      assert n > 0 ==> BucketOf(events[n - 1].now) <= BucketOf(events[n].now);
    }
  }

  /** With a clock that never goes back, slot i of the sparkline is what was recorded in the bucket that lies 19 - i
      buckets before now. */
  lemma SparklineIsExact(created: int, events: seq<Event>, now: int, i: nat)
    requires InClockOrder(created, events + [Get(now)]) && i < BUCKET_COUNT
    ensures Run(created, events + [Get(now)]).slots[i] == RecordedIn(events, BucketOf(now) - (BUCKET_COUNT - 1) + i)
  {
    var all := events + [Get(now)];
    assert all[..|all| - 1] == events;
    LandedIsRecorded(created, all, BucketOf(now) - (BUCKET_COUNT - 1) + i);
    SlotsHoldWhatLanded(created, all, i);
  }

  // ---------- Reading changes nothing ----------

  function WithoutGets(events: seq<Event>): seq<Event> {
    if events == [] then [] else
      WithoutGets(events[..|events| - 1]) + (if events[|events| - 1].Get? then [] else [events[|events| - 1]])
  }

  lemma {:induction false} WithoutGetsKeepsBytes(created: int, events: seq<Event>, bucket: int)
    ensures var records := WithoutGets(events);
      RecordedIn(records, bucket) == RecordedIn(events, bucket) && Run(created, records).total == Run(created, events).total
  {
    if events != [] {
      var before, last := events[..|events| - 1], events[|events| - 1];
      WithoutGetsKeepsBytes(created, before, bucket);
      var records := WithoutGets(before);
      if last.Record? {
        assert (records + [last])[..|records|] == records;
      } else {
        assert records + [] == records;
      }
    }
  }

  lemma {:induction false} WithoutGetsKeepsOrder(created: int, events: seq<Event>)
    requires InClockOrder(created, events)
    ensures InClockOrder(created, WithoutGets(events))
    ensures forall e :: e in WithoutGets(events) ==> e in events
  {
    if events != [] {
      var before, last := events[..|events| - 1], events[|events| - 1];
      WithoutGetsKeepsOrder(created, before);
      var records := WithoutGets(before);
      forall i | 0 <= i < |records| ensures records[i].now <= last.now {
        assert records[i] in before;
      }
    }
  }

  /** With a clock that never goes back, the gets before it do not change what a get returns. */
  lemma GetsAreInvisible(created: int, events: seq<Event>, now: int)
    requires InClockOrder(created, events + [Get(now)])
    ensures Run(created, WithoutGets(events) + [Get(now)]) == Run(created, events + [Get(now)])
  {
    hide Run, Landed, HighWater, RecordedIn;
    var left, right := WithoutGets(events) + [Get(now)], events + [Get(now)];
    WithoutGetsInOrder(created, events, now);
    forall i | 0 <= i < BUCKET_COUNT ensures Run(created, left).slots[i] == Run(created, right).slots[i] {
      var bucket := BucketOf(now) - (BUCKET_COUNT - 1) + i;
      SparklineIsExact(created, events, now, i);
      SparklineIsExact(created, WithoutGets(events), now, i);
      WithoutGetsKeepsBytes(created, events, bucket);
    }
    LastGet(created, events, now);
    LastGet(created, WithoutGets(events), now);
    WithoutGetsKeepsBytes(created, events, 0);
  }

  lemma LastGet(created: int, events: seq<Event>, now: int)
    requires InClockOrder(created, events + [Get(now)])
    ensures var w := Run(created, events + [Get(now)]);
      w.head == BucketOf(now) && w.total == Run(created, events).total
  {
    var all := events + [Get(now)];
    assert all[..|events|] == events;
    LandedIsRecorded(created, all, 0);
    SlotsHoldWhatLanded(created, all, 0);
  }

  lemma WithoutGetsInOrder(created: int, events: seq<Event>, now: int)
    requires InClockOrder(created, events + [Get(now)])
    ensures InClockOrder(created, WithoutGets(events) + [Get(now)])
  {
    hide WithoutGets;
    InOrderBefore(created, events, now);
    WithoutGetsKeepsOrder(created, events);
    var records := WithoutGets(events);
    forall i | 0 <= i < |records| ensures records[i].now <= now {
      assert records[i] in events;
    }
    assert created <= now by { assert (events + [Get(now)])[|events|] == Get(now); }
  }

  lemma InOrderBefore(created: int, events: seq<Event>, now: int)
    requires InClockOrder(created, events + [Get(now)])
    ensures InClockOrder(created, events) && forall e :: e in events ==> e.now <= now
  {
    var all := events + [Get(now)];
    assert forall i :: 0 <= i < |events| ==> all[i] == events[i];
    assert all[|events|] == Get(now);
  }

  /** A get at time t does not change what a get at time `now` returns, in whatever state, exactly if its bucket is not
      a later one. */
  lemma GetIsInvisibleIff(t: int, now: int)
    ensures (forall w: Window | w.Valid() :: Apply(Apply(w, Get(t)), Get(now)).slots == Apply(w, Get(now)).slots)
      <==> BucketOf(t) <= BucketOf(now)
  {
    hide BucketOf;
    if BucketOf(t) > BucketOf(now) {
      var w := Window(Zeros(BUCKET_COUNT - 1) + [1], BucketOf(now), 1);
      assert Apply(Apply(w, Get(t)), Get(now)).slots[BUCKET_COUNT - 1] == 0;
    } else {
      forall w: Window | w.Valid() ensures Apply(Apply(w, Get(t)), Get(now)).slots == Apply(w, Get(now)).slots {}
    }
  }
}
