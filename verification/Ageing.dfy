/** Age buckets of the review queue (src/lib/dashboard/ageing.ts, src/lib/format.ts). Instants are whole milliseconds. */
module Ageing {
  import opened Wrappers

  const DAY_MS := 86_400_000

  datatype BucketId = Fresh | Ageing | Stale

  /** Bounds in whole days, both inclusive; no upper bound means no end. */
  datatype Bucket = Bucket(id: BucketId, minDays: nat, maxDays: Option<nat>)

  const AGE_BUCKETS: seq<Bucket> := [Bucket(Fresh, 0, Some(2)), Bucket(Ageing, 3, Some(7)), Bucket(Stale, 8, None)]

  /** `Math.floor` of a quotient, whatever the sign. */
  function WholeDays(ms: int): (days: int)
    ensures days * DAY_MS <= ms < (days + 1) * DAY_MS
  {
    ms / DAY_MS
  }

  function AgeInDays(submitted: int, now: int): int {
    if WholeDays(now - submitted) < 0 then 0 else WholeDays(now - submitted)
  }

  predicate Covers(b: Bucket, days: int) {
    b.minDays <= days && (b.maxDays.None? || days <= b.maxDays.value)
  }

  /** The first bucket that covers the age; the first of all when none does. */
  method FindBucket(days: int) returns (id: BucketId)
    ensures id == BucketForAge(days)
  {
    for i := 0 to |AGE_BUCKETS|
      invariant forall k :: 0 <= k < i ==> !Covers(AGE_BUCKETS[k], days)
    {
      if Covers(AGE_BUCKETS[i], days) {
        FirstCovers(days, i);
        return AGE_BUCKETS[i].id;
      }
    }
    NoneCovers(days);
    return AGE_BUCKETS[0].id;
  }

  function BucketForAge(days: int): BucketId {
    if days <= 2 then Fresh else if days <= 7 then Ageing else Stale
  }

  lemma FirstCovers(days: int, i: nat)
    requires i < |AGE_BUCKETS| && Covers(AGE_BUCKETS[i], days)
    ensures AGE_BUCKETS[i].id == BucketForAge(days)
  {
  }

  lemma NoneCovers(days: int)
    requires forall k :: 0 <= k < |AGE_BUCKETS| ==> !Covers(AGE_BUCKETS[k], days)
    ensures days < 0 && BucketForAge(days) == AGE_BUCKETS[0].id
  {
    assert !Covers(AGE_BUCKETS[0], days) && !Covers(AGE_BUCKETS[1], days) && !Covers(AGE_BUCKETS[2], days);
  }

  /** `atOrBefore` and `after` as the query uses them. */
  predicate InRange(b: Bucket, submitted: int, now: int) {
    && submitted <= now - b.minDays * DAY_MS
    && (b.maxDays.Some? ==> submitted > now - (b.maxDays.value + 1) * DAY_MS)
  }

  /** The window of a bucket holds exactly the requests, submitted by now, whose floored age the bucket covers. */
  lemma RangeIsAge(b: Bucket, submitted: int, now: int)
    ensures InRange(b, submitted, now) <==> submitted <= now && Covers(b, AgeInDays(submitted, now))
  {
    var days := WholeDays(now - submitted);
    if b.maxDays.Some? {
      var m := b.maxDays.value;
      assert days <= m ==> (days + 1) * DAY_MS <= (m + 1) * DAY_MS;
      assert days > m ==> (m + 1) * DAY_MS <= days * DAY_MS;
    }
    assert b.minDays <= days ==> b.minDays * DAY_MS <= days * DAY_MS;
    assert days < b.minDays ==> (days + 1) * DAY_MS <= b.minDays * DAY_MS;
  }

  /** Exactly one bucket's window holds a request submitted by now, and it is the bucket of its age; a future one is in none. */
  lemma OneBucketExactly(submitted: int, now: int)
    ensures forall k :: 0 <= k < |AGE_BUCKETS| ==>
              (InRange(AGE_BUCKETS[k], submitted, now) <==>
               submitted <= now && AGE_BUCKETS[k].id == BucketForAge(AgeInDays(submitted, now)))
  {
    forall k | 0 <= k < |AGE_BUCKETS|
      ensures InRange(AGE_BUCKETS[k], submitted, now) <==>
              submitted <= now && AGE_BUCKETS[k].id == BucketForAge(AgeInDays(submitted, now))
    {
      RangeIsAge(AGE_BUCKETS[k], submitted, now);
      assert AGE_BUCKETS[k] == [Bucket(Fresh, 0, Some(2)), Bucket(Ageing, 3, Some(7)), Bucket(Stale, 8, None)][k];
    }
  }

  // ----- the dashboard's counts -----

  function CountIn(b: Bucket, queue: seq<int>, now: int): nat {
    if queue == [] then 0
    else CountIn(b, queue[..|queue| - 1], now) + if InRange(b, queue[|queue| - 1], now) then 1 else 0
  }

  function Ahead(queue: seq<int>, now: int): nat {
    if queue == [] then 0
    else Ahead(queue[..|queue| - 1], now) + if queue[|queue| - 1] > now then 1 else 0
  }

  /** The three counts and the requests dated ahead of the clock make up the queue. */
  lemma {:induction false} CountsMakeUpTheQueue(queue: seq<int>, now: int)
    ensures CountIn(AGE_BUCKETS[0], queue, now) + CountIn(AGE_BUCKETS[1], queue, now) + CountIn(AGE_BUCKETS[2], queue, now)
            + Ahead(queue, now) == |queue|
  {
    hide InRange;
    if queue != [] {
      CountsMakeUpTheQueue(queue[..|queue| - 1], now);
      OneBucketExactly(queue[|queue| - 1], now);
      var id := BucketForAge(AgeInDays(queue[|queue| - 1], now));
      assert AGE_BUCKETS[0].id == Fresh && AGE_BUCKETS[1].id == Ageing && AGE_BUCKETS[2].id == Stale;
    }
  }

  lemma {:induction false} AheadOnly(queue: seq<int>, now: int)
    ensures Ahead(queue, now) == 0 <==> forall i :: 0 <= i < |queue| ==> queue[i] <= now
  {
    if queue != [] {
      AheadOnly(queue[..|queue| - 1], now);
    }
  }

  /** The counts sum to the queue depth exactly when no request is dated ahead of the clock. */
  lemma DepthExactly(queue: seq<int>, now: int)
    ensures CountIn(AGE_BUCKETS[0], queue, now) + CountIn(AGE_BUCKETS[1], queue, now) + CountIn(AGE_BUCKETS[2], queue, now)
            == |queue|
            <==> forall i :: 0 <= i < |queue| ==> queue[i] <= now
  {
    CountsMakeUpTheQueue(queue, now);
    AheadOnly(queue, now);
  }

  /** A request dated ahead of the clock reads as fresh in the list and is in no count. */
  lemma AheadIsListedFresh(submitted: int, now: int)
    requires submitted > now
    ensures BucketForAge(AgeInDays(submitted, now)) == Fresh
    ensures forall k :: 0 <= k < |AGE_BUCKETS| ==> !InRange(AGE_BUCKETS[k], submitted, now)
  {
    OneBucketExactly(submitted, now);
  }

  // ----- in milliseconds -----

  /** A request is fresh for its first three days of 86,400,000 milliseconds, ageing until its eighth, and stale from then on. */
  lemma AgeInMilliseconds(submitted: int, now: int)
    ensures var age := now - submitted;
            && (BucketForAge(AgeInDays(submitted, now)) == Fresh <==> age < 259_200_000)
            && (BucketForAge(AgeInDays(submitted, now)) == Ageing <==> 259_200_000 <= age < 691_200_000)
            && (BucketForAge(AgeInDays(submitted, now)) == Stale <==> 691_200_000 <= age)
    ensures forall n: nat :: n > 0 ==>
              (AgeInDays(submitted, now) == n <==> n * 86_400_000 <= now - submitted < (n + 1) * 86_400_000)
  {
    var days := WholeDays(now - submitted);
    forall n: nat | n > 0 ensures AgeInDays(submitted, now) == n <==> n * 86_400_000 <= now - submitted < (n + 1) * 86_400_000 {
      assert days < n ==> (days + 1) * DAY_MS <= n * DAY_MS;
      assert days > n ==> (n + 1) * DAY_MS <= days * DAY_MS;
    }
  }

  /** What the three counts of the dashboard count, in milliseconds. */
  lemma WindowsInMilliseconds(submitted: int, now: int)
    ensures var age := now - submitted;
            && (InRange(AGE_BUCKETS[0], submitted, now) <==> 0 <= age < 259_200_000)
            && (InRange(AGE_BUCKETS[1], submitted, now) <==> 259_200_000 <= age < 691_200_000)
            && (InRange(AGE_BUCKETS[2], submitted, now) <==> 691_200_000 <= age)
  {
  }
}
