/** A rank, a middle and a pooled average among peers, with rates as exact fractions (src/lib/dashboard/performance.ts). */
module Peers {
  import opened Wrappers
  import opened Sorting

  datatype PeerRate = PeerRate(code: Option<string>, logins: nat, issued: nat)

  /** Only an entity with a denominator has a rate. */
  predicate Ranked(r: PeerRate) {
    r.code.Some? && r.logins > 0
  }

  function RateOf(r: PeerRate): real
    requires Ranked(r)
  {
    r.issued as real / r.logins as real
  }

  type Peer = r: PeerRate | Ranked(r) witness PeerRate(Some("A"), 1, 0)

  function RankedOf(rows: seq<PeerRate>): seq<Peer> {
    if rows == [] then []
    else RankedOf(rows[..|rows| - 1]) + if Ranked(rows[|rows| - 1]) then [rows[|rows| - 1]] else []
  }

  function Rates(peers: seq<Peer>): (r: seq<real>)
    ensures |r| == |peers|
  {
    seq(|peers|, i requires 0 <= i < |peers| => RateOf(peers[i]))
  }

  predicate AtMost(a: real, b: real) {
    a <= b
  }

  /** The first peer with the code. */
  function Find(peers: seq<Peer>, code: Option<string>): Option<Peer> {
    if peers == [] then None
    else if peers[0].code == code then Some(peers[0])
    else Find(peers[1..], code)
  }

  /** How many of the values stand in a relation to `x`. */
  function Count(values: seq<real>, p: real -> bool): nat {
    if values == [] then 0 else (if p(values[0]) then 1 else 0) + Count(values[1..], p)
  }

  function Above(x: real): real -> bool {
    y => y > x
  }

  function SumIssued(peers: seq<Peer>): nat {
    if peers == [] then 0 else peers[0].issued + SumIssued(peers[1..])
  }

  function SumLogins(peers: seq<Peer>): nat {
    if peers == [] then 0 else peers[0].logins + SumLogins(peers[1..])
  }

  function Ratio(numerator: nat, denominator: nat): Option<real> {
    if denominator == 0 then None else Some(numerator as real / denominator as real)
  }

  function Median(sorted: seq<real>): Option<real> {
    if sorted == [] then None
    else
      var middle := |sorted| / 2;
      Some(if |sorted| % 2 == 1 then sorted[middle] else (sorted[middle - 1] + sorted[middle]) / 2.0)
  }

  datatype Standing = Standing(rate: Option<real>, rank: Option<nat>, peers: nat, median: Option<real>, average: Option<real>)

  function PeerStanding(rows: seq<PeerRate>, ownCode: Option<string>): Standing {
    var peers := RankedOf(rows);
    var own := Find(peers, ownCode);
    var rates := Rates(peers);
    Standing(
      if own.Some? then Some(RateOf(own.value)) else None,
      if own.Some? then Some(Count(rates, Above(RateOf(own.value))) + 1) else None,
      |peers|,
      Median(Sorted(rates, AtMost)),
      Ratio(SumIssued(peers), SumLogins(peers)))
  }

  // ----- counting -----

  lemma {:induction false} CountAppends(a: seq<real>, b: seq<real>, p: real -> bool)
    ensures Count(a + b, p) == Count(a, p) + Count(b, p)
  {
    if a == [] {
      assert a + b == b;
    } else {
      assert (a + b)[1..] == a[1..] + b;
      CountAppends(a[1..], b, p);
    }
  }

  lemma CountTakeOut(s: seq<real>, k: nat, p: real -> bool)
    requires k < |s|
    ensures Count(s, p) == Count(s[..k] + s[k + 1..], p) + if p(s[k]) then 1 else 0
  {
    assert s == s[..k] + ([s[k]] + s[k + 1..]);
    CountAppends(s[..k], [s[k]] + s[k + 1..], p);
    CountAppends([s[k]], s[k + 1..], p);
    CountAppends(s[..k], s[k + 1..], p);
  }

  lemma {:induction false} CountUnordered(a: seq<real>, b: seq<real>, p: real -> bool)
    requires multiset(a) == multiset(b)
    ensures Count(a, p) == Count(b, p)
  {
    hide Count;
    if a == [] {
      SameLength(a, b);
    } else {
      assert a[0] in multiset(b);
      var k :| 0 <= k < |b| && b[k] == a[0];
      Cancel(a, b, k);
      CountUnordered(a[1..], b[..k] + b[k + 1..], p);
      CountTakeOut(a, 0, p);
      CountTakeOut(b, k, p);
      assert a[..0] + a[1..] == a[1..];
    }
  }

  /** Everything from position `k` on counts. */
  lemma {:induction false} CountFrom(s: seq<real>, k: nat, p: real -> bool)
    requires k <= |s| && forall i :: k <= i < |s| ==> p(s[i])
    ensures Count(s, p) >= |s| - k
    decreases |s|
  {
    if k < |s| {
      CountFrom(s[1..], if k == 0 then 0 else k - 1, p);
    }
  }

  /** Everything before position `k` counts. */
  lemma {:induction false} CountUpTo(s: seq<real>, k: nat, p: real -> bool)
    requires k <= |s| && forall i :: 0 <= i < k ==> p(s[i])
    ensures Count(s, p) >= k
  {
    if k > 0 {
      CountUpTo(s[1..], k - 1, p);
    }
  }

  lemma {:induction false} CountBounds(s: seq<real>, p: real -> bool, i: nat)
    requires i < |s| && !p(s[i])
    ensures Count(s, p) < |s|
  {
    CountTakeOut(s, i, p);
    CountIsAtMost(s[..i] + s[i + 1..], p);
  }

  lemma {:induction false} CountIsAtMost(s: seq<real>, p: real -> bool)
    ensures Count(s, p) <= |s|
  {
    if s != [] {
      CountIsAtMost(s[1..], p);
    }
  }

  // ----- the rank -----

  lemma {:induction false} FoundIsPeer(peers: seq<Peer>, code: Option<string>)
    ensures Find(peers, code).Some? <==> exists i :: 0 <= i < |peers| && peers[i].code == code
    ensures Find(peers, code).Some? ==> Find(peers, code).value in peers && Find(peers, code).value.code == code
  {
    if peers != [] {
      FoundIsPeer(peers[1..], code);
      if peers[0].code != code && exists i :: 0 <= i < |peers| && peers[i].code == code {
        var i :| 0 <= i < |peers| && peers[i].code == code;
        assert peers[1..][i - 1].code == code;
      }
    }
  }

  /** A rank is a place among the peers, and only a peer has one. */
  lemma RankIsAPlace(rows: seq<PeerRate>, ownCode: Option<string>)
    ensures var st := PeerStanding(rows, ownCode);
            && (st.rank.Some? <==> exists i :: 0 <= i < |RankedOf(rows)| && RankedOf(rows)[i].code == ownCode)
            && (st.rank.Some? ==> 1 <= st.rank.value <= st.peers)
  {
    var peers := RankedOf(rows);
    FoundIsPeer(peers, ownCode);
    var own := Find(peers, ownCode);
    if own.Some? {
      var i: nat :| i < |peers| && peers[i] == own.value;
      CountBounds(Rates(peers), Above(RateOf(own.value)), i);
    }
  }

  lemma {:induction false} CountIsMonotone(s: seq<real>, x: real, y: real)
    requires x <= y
    ensures Count(s, Above(y)) <= Count(s, Above(x))
    ensures x < y && y in s ==> Count(s, Above(y)) < Count(s, Above(x))
  {
    if s != [] {
      CountIsMonotone(s[1..], x, y);
    }
  }

  /** Equal rates share a place, and a strictly better rate has a strictly better one. */
  lemma RankFollowsRate(rows: seq<PeerRate>, a: Option<string>, b: Option<string>)
    ensures var p, q := PeerStanding(rows, a), PeerStanding(rows, b);
            p.rank.Some? && q.rank.Some? ==>
              && (p.rate.value == q.rate.value <==> p.rank.value == q.rank.value)
              && (p.rate.value > q.rate.value <==> p.rank.value < q.rank.value)
  {
    var peers := RankedOf(rows);
    var own, other := Find(peers, a), Find(peers, b);
    if own.Some? && other.Some? {
      FoundIsPeer(peers, a);
      FoundIsPeer(peers, b);
      var i :| 0 <= i < |peers| && peers[i] == own.value;
      var j :| 0 <= j < |peers| && peers[j] == other.value;
      var x, y, rates := RateOf(own.value), RateOf(other.value), Rates(peers);
      assert rates[i] == x && rates[j] == y;
      if x <= y {
        CountIsMonotone(rates, x, y);
      } else {
        CountIsMonotone(rates, y, x);
      }
    }
  }

  // ----- the median -----

  function NotAbove(x: real): real -> bool {
    y => y <= x
  }

  function NotBelow(x: real): real -> bool {
    y => y >= x
  }

  /** At least half the peers lie on each side of the median, those on it counting on both. */
  lemma MedianIsInTheMiddle(rows: seq<PeerRate>, ownCode: Option<string>)
    requires RankedOf(rows) != []
    ensures var st, rates := PeerStanding(rows, ownCode), Rates(RankedOf(rows));
            && st.median.Some?
            && 2 * Count(rates, NotAbove(st.median.value)) >= |rates|
            && 2 * Count(rates, NotBelow(st.median.value)) >= |rates|
  {
    var rates := Rates(RankedOf(rows));
    var sorted := Sorted(rates, AtMost);
    SortedIsOrdered(rates, AtMost);
    assert |sorted| == |rates| by {
      assert |multiset(sorted)| == |multiset(rates)|;
    }
    MedianOfSorted(sorted);
    CountUnordered(rates, sorted, NotAbove(Median(sorted).value));
    CountUnordered(rates, sorted, NotBelow(Median(sorted).value));
  }

  lemma MedianOfSorted(sorted: seq<real>)
    requires sorted != [] && InOrder(sorted, AtMost)
    ensures var m := Median(sorted).value;
            2 * Count(sorted, NotAbove(m)) >= |sorted| && 2 * Count(sorted, NotBelow(m)) >= |sorted|
  {
    hide Count;
    var m, middle := Median(sorted).value, |sorted| / 2;
    assert forall i :: 0 <= i < |sorted| && i < middle ==> AtMost(sorted[i], sorted[middle]);
    assert forall i :: middle < i < |sorted| ==> AtMost(sorted[middle], sorted[i]);
    if |sorted| % 2 == 1 {
      CountUpTo(sorted, middle + 1, NotAbove(m));
    } else {
      assert AtMost(sorted[middle - 1], sorted[middle]);
      assert forall i :: 0 <= i < middle - 1 ==> AtMost(sorted[i], sorted[middle - 1]);
      CountUpTo(sorted, middle, NotAbove(m));
    }
    CountFrom(sorted, middle, NotBelow(m));
  }

  // ----- the pooled average -----

  lemma Crosses(x: real, issued: nat, logins: nat)
    requires logins > 0
    ensures x <= issued as real / logins as real <==> x * logins as real <= issued as real
    ensures issued as real / logins as real <= x <==> issued as real <= x * logins as real
  {
  }

  ghost predicate Within(peers: seq<Peer>, low: real, high: real) {
    forall i :: 0 <= i < |peers| ==> low <= RateOf(peers[i]) <= high
  }

  /** The fraction lies between the bounds, said without dividing. */
  ghost predicate Bounded(issued: nat, logins: nat, low: real, high: real) {
    low * logins as real <= issued as real <= high * logins as real
  }

  lemma {:induction false} SumsCross(peers: seq<Peer>, low: real, high: real)
    requires Within(peers, low, high)
    ensures Bounded(SumIssued(peers), SumLogins(peers), low, high)
    ensures peers != [] ==> SumLogins(peers) > 0
  {
    hide SumIssued, SumLogins, RateOf, Within, Bounded;
    SumsStep(peers);
    if peers == [] {
      NothingIsBounded(low, high);
    } else {
      WithinStep(peers, low, high);
      SumsCross(peers[1..], low, high);
      OneMorePeer(peers[0], SumIssued(peers[1..]), SumLogins(peers[1..]), low, high);
    }
  }

  lemma NothingIsBounded(low: real, high: real)
    ensures Bounded(0, 0, low, high)
  {
  }

  lemma WithinStep(peers: seq<Peer>, low: real, high: real)
    requires Within(peers, low, high) && peers != []
    ensures low <= RateOf(peers[0]) <= high && Within(peers[1..], low, high)
  {
    hide RateOf;
  }

  lemma OneMorePeer(peer: Peer, issued: nat, logins: nat, low: real, high: real)
    requires low <= RateOf(peer) <= high && Bounded(issued, logins, low, high)
    ensures Bounded(peer.issued + issued, peer.logins + logins, low, high)
  {
    Crosses(low, peer.issued, peer.logins);
    Crosses(high, peer.issued, peer.logins);
    hide RateOf;
    Spread(low, peer.logins, logins);
    Spread(high, peer.logins, logins);
  }

  lemma SumsStep(peers: seq<Peer>)
    ensures peers == [] ==> SumIssued(peers) == SumLogins(peers) == 0
    ensures peers != [] ==>
              && SumIssued(peers) == peers[0].issued + SumIssued(peers[1..])
              && SumLogins(peers) == peers[0].logins + SumLogins(peers[1..])
  {
  }

  lemma Spread(x: real, a: nat, b: nat)
    ensures x * (a + b) as real == x * a as real + x * b as real
  {
  }

  /** The pooled average lies between any two bounds on the peers' rates, so between the least and the greatest. */
  lemma AverageIsBetween(rows: seq<PeerRate>, ownCode: Option<string>, low: real, high: real)
    requires RankedOf(rows) != []
    requires Within(RankedOf(rows), low, high)
    ensures var average := PeerStanding(rows, ownCode).average;
            average.Some? && low <= average.value <= high
  {
    hide RankedOf, SumIssued, SumLogins, Median, Rates, Find, Count;
    var peers := RankedOf(rows);
    SumsCross(peers, low, high);
    hide RateOf;
    Crosses(low, SumIssued(peers), SumLogins(peers));
    Crosses(high, SumIssued(peers), SumLogins(peers));
  }

  // ----- the order of the rows -----

  lemma {:induction false} RankedAppends(a: seq<PeerRate>, b: seq<PeerRate>)
    ensures RankedOf(a + b) == RankedOf(a) + RankedOf(b)
  {
    if b == [] {
      assert a + b == a;
    } else {
      RankedAppends(a, b[..|b| - 1]);
      assert (a + b)[..|a + b| - 1] == a + b[..|b| - 1];
    }
  }

  lemma {:induction false} RankedUnordered(a: seq<PeerRate>, b: seq<PeerRate>)
    requires multiset(a) == multiset(b)
    ensures multiset(RankedOf(a)) == multiset(RankedOf(b))
  {
    hide RankedOf;
    if a == [] {
      SameLength(a, b);
    } else {
      assert a[0] in multiset(b);
      var k :| 0 <= k < |b| && b[k] == a[0];
      Cancel(a, b, k);
      RankedUnordered(a[1..], b[..k] + b[k + 1..]);
      RankedTakeOut(a, 0);
      RankedTakeOut(b, k);
      assert a[..0] + a[1..] == a[1..];
    }
  }

  lemma RankedTakeOut(s: seq<PeerRate>, k: nat)
    requires k < |s|
    ensures multiset(RankedOf(s)) == multiset(RankedOf(s[..k] + s[k + 1..])) + multiset(RankedOf([s[k]]))
  {
    hide RankedOf;
    assert s == s[..k] + ([s[k]] + s[k + 1..]);
    RankedAppends(s[..k], [s[k]] + s[k + 1..]);
    RankedAppends([s[k]], s[k + 1..]);
    RankedAppends(s[..k], s[k + 1..]);
  }

  lemma RatesTakeOut(s: seq<Peer>, k: nat)
    requires k < |s|
    ensures multiset(Rates(s)) == multiset(Rates(s[..k] + s[k + 1..])) + multiset{RateOf(s[k])}
  {
    TakeOut(Rates(s), k);
    assert Rates(s[..k] + s[k + 1..]) == Rates(s)[..k] + Rates(s)[k + 1..];
  }

  lemma {:induction false} SumsAppend(a: seq<Peer>, b: seq<Peer>)
    ensures SumIssued(a + b) == SumIssued(a) + SumIssued(b) && SumLogins(a + b) == SumLogins(a) + SumLogins(b)
  {
    if a == [] {
      assert a + b == b;
    } else {
      assert (a + b)[1..] == a[1..] + b;
      SumsAppend(a[1..], b);
    }
  }

  lemma SumsTakeOut(s: seq<Peer>, k: nat)
    requires k < |s|
    ensures var rest := s[..k] + s[k + 1..];
            SumIssued(s) == SumIssued(rest) + s[k].issued && SumLogins(s) == SumLogins(rest) + s[k].logins
  {
    assert s == s[..k] + s[k..] && s[k..][1..] == s[k + 1..];
    SumsAppend(s[..k], s[k..]);
    SumsAppend(s[..k], s[k + 1..]);
  }

  lemma {:induction false} FiguresUnordered(a: seq<Peer>, b: seq<Peer>)
    requires multiset(a) == multiset(b)
    ensures multiset(Rates(a)) == multiset(Rates(b))
    ensures SumIssued(a) == SumIssued(b) && SumLogins(a) == SumLogins(b)
  {
    hide Rates, SumIssued, SumLogins, RateOf;
    if a == [] {
      SameLength(a, b);
    } else {
      assert a[0] in multiset(b);
      var k :| 0 <= k < |b| && b[k] == a[0];
      Cancel(a, b, k);
      FiguresUnordered(a[1..], b[..k] + b[k + 1..]);
      RatesTakeOut(a, 0);
      RatesTakeOut(b, k);
      SumsTakeOut(a, 0);
      SumsTakeOut(b, k);
      assert a[..0] + a[1..] == a[1..];
    }
  }

  /** There is only one way to sort numbers. */
  lemma {:induction false} SortedIsUnique(a: seq<real>, b: seq<real>)
    requires InOrder(a, AtMost) && InOrder(b, AtMost) && multiset(a) == multiset(b)
    ensures a == b
  {
    hide InOrder;
    if a == [] {
      SameLength(a, b);
    } else {
      HeadsAgree(a, b);
      TailsAgree(a, b);
      TailInOrder(a);
      TailInOrder(b);
      SortedIsUnique(a[1..], b[1..]);
      assert a == [a[0]] + a[1..] && b == [b[0]] + b[1..];
    }
  }

  lemma TailsAgree(a: seq<real>, b: seq<real>)
    requires multiset(a) == multiset(b) && a != [] && b != [] && a[0] == b[0]
    ensures multiset(a[1..]) == multiset(b[1..])
  {
    Cancel(a, b, 0);
    assert b[..0] + b[1..] == b[1..];
  }

  lemma HeadIsLeast(s: seq<real>, x: real)
    requires s != [] && InOrder(s, AtMost) && x in multiset(s)
    ensures s[0] <= x
  {
    var k :| 0 <= k < |s| && s[k] == x;
    assert k > 0 ==> AtMost(s[0], s[k]);
  }

  lemma HeadsAgree(a: seq<real>, b: seq<real>)
    requires InOrder(a, AtMost) && InOrder(b, AtMost) && multiset(a) == multiset(b) && a != []
    ensures b != [] && a[0] == b[0]
  {
    hide InOrder;
    assert a[0] in multiset(b);
    assert b[0] in multiset(a);
    HeadIsLeast(a, b[0]);
    HeadIsLeast(b, a[0]);
  }

  lemma TailInOrder(s: seq<real>)
    requires s != [] && InOrder(s, AtMost)
    ensures InOrder(s[1..], AtMost)
  {
  }

  ghost predicate DistinctCodes(rows: seq<PeerRate>) {
    forall r, s :: r in rows && s in rows && r.code == s.code ==> r == s
  }

  lemma FindUnordered(a: seq<Peer>, b: seq<Peer>, code: Option<string>)
    requires multiset(a) == multiset(b) && DistinctCodes(a)
    ensures Find(a, code) == Find(b, code)
  {
    hide Find;
    FoundIsPeer(a, code);
    FoundIsPeer(b, code);
    if i :| 0 <= i < |a| && a[i].code == code {
      assert a[i] in multiset(b);
      var k :| 0 <= k < |b| && b[k] == a[i];
    }
    if k :| 0 <= k < |b| && b[k].code == code {
      assert b[k] in multiset(a);
      var found := Find(b, code).value;
      assert found in multiset(a);
    }
  }

  lemma {:induction false} RankedAreRows(rows: seq<PeerRate>)
    ensures forall r :: r in RankedOf(rows) ==> r in rows
  {
    if rows != [] {
      RankedAreRows(rows[..|rows| - 1]);
    }
  }

  /** One row a code, as the grouped query returns them: the order they come back in changes nothing. */
  lemma OrderDoesNotMatter(a: seq<PeerRate>, b: seq<PeerRate>, ownCode: Option<string>)
    requires multiset(a) == multiset(b) && DistinctCodes(a)
    ensures PeerStanding(a, ownCode) == PeerStanding(b, ownCode)
  {
    hide RankedOf, Rates, Find, Count, SumIssued, SumLogins, Median, RateOf, Sorted;
    var p, q := RankedOf(a), RankedOf(b);
    RankedUnordered(a, b);
    RankedAreRows(a);
    assert DistinctCodes(p);
    FindUnordered(p, q, ownCode);
    FiguresUnordered(p, q);
    assert |p| == |multiset(p)| == |multiset(q)| == |q|;
    SortedIsOrdered(Rates(p), AtMost);
    SortedIsOrdered(Rates(q), AtMost);
    SortedIsUnique(Sorted(Rates(p), AtMost), Sorted(Rates(q), AtMost));
    if Find(p, ownCode).Some? {
      CountUnordered(Rates(p), Rates(q), Above(RateOf(Find(p, ownCode).value)));
    }
  }

  // ----- the standing, read off the rows -----

  /** The rows that have a code and a denominator. */
  ghost function Places(rows: seq<PeerRate>): (places: set<nat>)
    ensures forall i: nat :: i in places <==> i < |rows| && rows[i].code.Some? && rows[i].logins > 0
  {
    set i: nat | i < |rows| && rows[i].code.Some? && rows[i].logins > 0
  }

  /** Those of them whose rate is better. */
  ghost function Better(rows: seq<PeerRate>, rate: real): set<nat> {
    set i | i in Places(rows) && rows[i].issued as real / rows[i].logins as real > rate
  }

  lemma PlacesStep(rows: seq<PeerRate>, rate: real)
    requires rows != []
    ensures var n := |rows| - 1;
            && |Places(rows)| == |Places(rows[..n])| + (if Ranked(rows[n]) then 1 else 0)
            && |Better(rows, rate)| == |Better(rows[..n], rate)| + (if Ranked(rows[n]) && RateOf(rows[n]) > rate then 1 else 0)
  {
    var n := |rows| - 1;
    assert forall i :: 0 <= i < n ==> rows[..n][i] == rows[i];
    assert Places(rows) == if Ranked(rows[n]) then Places(rows[..n]) + {n} else Places(rows[..n]);
    assert Better(rows, rate) == if Ranked(rows[n]) && RateOf(rows[n]) > rate then Better(rows[..n], rate) + {n} else Better(rows[..n], rate);
  }

  lemma RatesOfMore(peers: seq<Peer>, peer: Peer)
    ensures Rates(peers + [peer]) == Rates(peers) + [RateOf(peer)]
  {
    hide RateOf;
  }

  lemma {:induction false} BetterIsCounted(rows: seq<PeerRate>, rate: real)
    ensures |RankedOf(rows)| == |Places(rows)|
    ensures Count(Rates(RankedOf(rows)), Above(rate)) == |Better(rows, rate)|
  {
    hide RateOf, Places, Better;
    if rows == [] {
      NoPlaces(rate);
    } else {
      var n := |rows| - 1;
      BetterIsCounted(rows[..n], rate);
      PlacesStep(rows, rate);
      var before := RankedOf(rows[..n]);
      if Ranked(rows[n]) {
        RatesOfMore(before, rows[n]);
        CountAppends(Rates(before), [RateOf(rows[n])], Above(rate));
      } else {
        assert before + [] == before;
      }
    }
  }

  lemma NoPlaces(rate: real)
    ensures Places([]) == {} == Better([], rate)
  {
  }

  /** Only what has a code and a denominator is ranked, and its rank is one more than the number of strictly better rates. */
  lemma RankExactly(rows: seq<PeerRate>, ownCode: Option<string>)
    ensures var st := PeerStanding(rows, ownCode);
            && st.peers == |Places(rows)|
            && (st.rate.Some? <==> exists i :: i in Places(rows) && rows[i].code == ownCode)
            && (st.rank.Some? <==> st.rate.Some?)
            && (st.rate.Some? ==>
                  && st.rank == Some(|Better(rows, st.rate.value)| + 1)
                  && exists i :: i in Places(rows) && rows[i].code == ownCode
                              && st.rate.value == rows[i].issued as real / rows[i].logins as real)
  {
    hide Rates, Count, Better, SumIssued, SumLogins;
    var peers := RankedOf(rows);
    FoundIsPeer(peers, ownCode);
    RankedExactly(rows);
    BetterIsCounted(rows, 0.0);
    var own := Find(peers, ownCode);
    if own.Some? {
      BetterIsCounted(rows, RateOf(own.value));
      var i :| 0 <= i < |rows| && rows[i] == own.value;
      assert i in Places(rows) && rows[i].code == ownCode;
    }
    if i :| i in Places(rows) && rows[i].code == ownCode {
      assert rows[i] in peers;
      var k :| 0 <= k < |peers| && peers[k] == rows[i];
    }
  }

  lemma {:induction false} RankedExactly(rows: seq<PeerRate>)
    ensures forall r :: r in RankedOf(rows) <==> r in rows && r.code.Some? && r.logins > 0
  {
    if rows != [] {
      RankedExactly(rows[..|rows| - 1]);
    }
  }

  /** The median is the middle one of the rates in order, or the mean of the middle two. */
  lemma MedianExactly(rows: seq<PeerRate>, ownCode: Option<string>, sorted: seq<real>)
    requires multiset(sorted) == multiset(Rates(RankedOf(rows)))
    requires forall i, j :: 0 <= i < j < |sorted| ==> sorted[i] <= sorted[j]
    ensures var m := PeerStanding(rows, ownCode).median;
            && (sorted == [] ==> m == None)
            && (forall h :: |sorted| == 2 * h + 1 ==> m == Some(sorted[h]))
            && (forall h :: h > 0 && |sorted| == 2 * h ==> m.Some? && 2.0 * m.value == sorted[h - 1] + sorted[h])
  {
    hide RankedOf, Rates, Sorted;
    var rates := Rates(RankedOf(rows));
    SortedIsOrdered(rates, AtMost);
    assert InOrder(sorted, AtMost);
    SortedIsUnique(sorted, Sorted(rates, AtMost));
  }

  ghost function Pooled(rows: seq<PeerRate>, of: PeerRate -> nat): nat {
    if rows == [] then 0
    else
      var last := rows[|rows| - 1];
      Pooled(rows[..|rows| - 1], of) + if last.code.Some? && last.logins > 0 then of(last) else 0
  }

  lemma {:induction false} SumsAreAppended(peers: seq<Peer>, peer: Peer)
    ensures SumIssued(peers + [peer]) == SumIssued(peers) + peer.issued
    ensures SumLogins(peers + [peer]) == SumLogins(peers) + peer.logins
  {
    if peers == [] {
      assert peers + [peer] == [peer];
    } else {
      SumsAreAppended(peers[1..], peer);
      assert (peers + [peer])[1..] == peers[1..] + [peer];
    }
  }

  lemma {:induction false} SumsArePooled(rows: seq<PeerRate>)
    ensures SumIssued(RankedOf(rows)) == Pooled(rows, (r: PeerRate) => r.issued)
    ensures SumLogins(RankedOf(rows)) == Pooled(rows, (r: PeerRate) => r.logins)
    ensures Places(rows) != {} <==> SumLogins(RankedOf(rows)) > 0
  {
    if rows != [] {
      var n := |rows| - 1;
      SumsArePooled(rows[..n]);
      PlacesStep(rows, 0.0);
      if Ranked(rows[n]) {
        SumsAreAppended(RankedOf(rows[..n]), rows[n]);
      } else {
        assert RankedOf(rows[..n]) + [] == RankedOf(rows[..n]);
      }
    }
  }

  /** The average is everything issued over everything logged in, not the mean of the rates. */
  lemma AverageIsPooled(rows: seq<PeerRate>, ownCode: Option<string>)
    ensures var average := PeerStanding(rows, ownCode).average;
            && (average.Some? <==> Places(rows) != {})
            && (average.Some? ==>
                  average.value * Pooled(rows, (r: PeerRate) => r.logins) as real == Pooled(rows, (r: PeerRate) => r.issued) as real)
  {
    hide Sorted, Rates, Find, Places, Pooled;
    SumsArePooled(rows);
    Quotient(SumIssued(RankedOf(rows)), SumLogins(RankedOf(rows)));
  }

  lemma Quotient(issued: nat, logins: nat)
    ensures logins > 0 ==> Ratio(issued, logins).Some? && Ratio(issued, logins).value * logins as real == issued as real
    ensures logins == 0 ==> Ratio(issued, logins).None?
  {
  }
}
