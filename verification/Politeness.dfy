/** The per-host slots requests leave in: reserved before waiting, apart by at least the interval. */
module Politeness {

  /** One caller reaching `awaitTurn`: its clock reading and the two random numbers it may draw. */
  datatype Claim = Claim(host: string, at: int, first: real, gap: real)

  datatype Pace = Pace(minIntervalMs: nat, jitterRatio: real)

  ghost predicate Drawn(r: real) {
    0.0 <= r < 1.0
  }

  function Jitter(p: Pace, r: real): int {
    (r * p.minIntervalMs as real * p.jitterRatio).Floor
  }

  /** `spacing`. */
  function Spacing(p: Pace, r: real): int {
    if p.jitterRatio <= 0.0 then p.minIntervalMs else p.minIntervalMs + Jitter(p, r)
  }

  function Max(a: int, b: int): int { if a >= b then a else b }

  /** The slot a claim gets when the host's next slot is known to be free at `next[host]`. */
  function SlotOf(p: Pace, next: map<string, int>, c: Claim): int {
    Max(c.at, if c.host in next then next[c.host] else c.at + Jitter(p, c.first))
  }

  function AfterClaim(p: Pace, next: map<string, int>, c: Claim): map<string, int> {
    next[c.host := SlotOf(p, next, c) + Spacing(p, c.gap)]
  }

  class Slots {
    const pace: Pace
    var nextAllowedAt: map<string, int>

    constructor (pace: Pace)
      ensures this.pace == pace && nextAllowedAt == map[]
    {
      this.pace := pace;
      nextAllowedAt := map[];
    }

    /** `awaitTurn` up to its sleep: the reservation is made before anything is awaited. */
    method Reserve(c: Claim) returns (wait: int)
      modifies this`nextAllowedAt
      ensures nextAllowedAt == AfterClaim(pace, old(nextAllowedAt), c)
      ensures wait == SlotOf(pace, old(nextAllowedAt), c) - c.at && wait >= 0
    {
      if c.host !in nextAllowedAt {
        nextAllowedAt := nextAllowedAt[c.host := c.at + Jitter(pace, c.first)];
      }
      var readyAt := Max(c.at, nextAllowedAt[c.host]);
      nextAllowedAt := nextAllowedAt[c.host := readyAt + Spacing(pace, c.gap)];
      wait := readyAt - c.at;
    }
  }

  // ---- runs of claims, by any number of callers

  function AfterAll(p: Pace, claims: seq<Claim>): map<string, int> {
    if claims == [] then map[]
    else AfterClaim(p, AfterAll(p, claims[..|claims| - 1]), claims[|claims| - 1])
  }

  /** The slot of the k-th claim. */
  function Slot(p: Pace, claims: seq<Claim>, k: nat): int
    requires k < |claims|
  {
    SlotOf(p, AfterAll(p, claims[..k]), claims[k])
  }

  ghost predicate AllDrawn(claims: seq<Claim>) {
    forall i :: 0 <= i < |claims| ==> Drawn(claims[i].first) && Drawn(claims[i].gap)
  }

  /** The most one gap can be. */
  function LongestGap(p: Pace): real {
    if p.jitterRatio <= 0.0 then p.minIntervalMs as real else p.minIntervalMs as real * (1.0 + p.jitterRatio)
  }

  lemma {:induction false} ScaledBy(r: real, a: real)
    requires 0.0 <= r < 1.0 && 0.0 <= a
    ensures 0.0 <= r * a <= a
  {
    assert a - r * a == (1.0 - r) * a;
  }

  lemma {:induction false} Regroup(r: real, m: real, j: real)
    ensures r * m * j == r * (m * j)
  {
  }

  lemma {:induction false} NotPositive(a: real, b: real)
    requires a >= 0.0 && b <= 0.0
    ensures a * b <= 0.0
  {
  }

  lemma {:induction false} FloorBounds(x: real)
    ensures x.Floor as real <= x < x.Floor as real + 1.0
  {
  }

  lemma {:induction false} FloorWithin(x: real, top: real)
    requires 0.0 <= x <= top
    ensures 0 <= x.Floor && x.Floor as real <= top
  {
    FloorBounds(x);
  }

  lemma {:induction false} NotNegative(a: real, b: real)
    requires a >= 0.0 && b >= 0.0
    ensures a * b >= 0.0
  {
  }

  lemma {:induction false} PartOf(r: real, m: real, j: real)
    requires 0.0 <= r < 1.0 && 0.0 <= m && 0.0 <= j
    ensures 0.0 <= r * m * j <= m * j
  {
    NotNegative(m, j);
    ScaledBy(r, m * j);
    Regroup(r, m, j);
  }

  lemma {:induction false} JitterAdds(p: Pace, r: real)
    requires Drawn(r) && p.jitterRatio >= 0.0
    ensures 0 <= Jitter(p, r) && Jitter(p, r) as real <= p.minIntervalMs as real * p.jitterRatio
  {
    PartOf(r, p.minIntervalMs as real, p.jitterRatio);
    FloorWithin(r * p.minIntervalMs as real * p.jitterRatio, p.minIntervalMs as real * p.jitterRatio);
  }

  lemma {:induction false} JitterTakes(p: Pace, r: real)
    requires Drawn(r) && p.jitterRatio <= 0.0
    ensures Jitter(p, r) <= 0
  {
    var m, j := p.minIntervalMs as real, p.jitterRatio;
    Regroup(r, m, j);
    NotPositive(m, j);
    NotPositive(r, m * j);
    FloorBounds(r * m * j);
  }

  lemma {:induction false} GapBounds(p: Pace, r: real)
    requires Drawn(r)
    ensures p.minIntervalMs <= Spacing(p, r) && Spacing(p, r) as real <= LongestGap(p)
    ensures Jitter(p, r) as real <= LongestGap(p)
  {
    if p.jitterRatio > 0.0 {
      JitterAdds(p, r);
      Spread(p.minIntervalMs as real, p.jitterRatio);
    } else {
      JitterTakes(p, r);
    }
  }

  lemma {:induction false} Spread(m: real, j: real)
    ensures m * (1.0 + j) == m + m * j
  {
  }

  lemma {:induction false} AfterAllStep(p: Pace, claims: seq<Claim>, k: nat)
    requires k < |claims|
    ensures AfterAll(p, claims[..k + 1]) == AfterClaim(p, AfterAll(p, claims[..k]), claims[k])
  {
    assert claims[..k + 1][..k] == claims[..k];
  }

  /** After a slot is taken the host's next is at least the interval later, whatever other hosts do. */
  lemma {:induction false} NextIsApart(p: Pace, claims: seq<Claim>, i: nat, k: nat)
    requires AllDrawn(claims) && i < k <= |claims|
    ensures claims[i].host in AfterAll(p, claims[..k])
    ensures AfterAll(p, claims[..k])[claims[i].host] >= Slot(p, claims, i) + p.minIntervalMs
  {
    AfterAllStep(p, claims, k - 1);
    GapBounds(p, claims[k - 1].gap);
    if i < k - 1 {
      NextIsApart(p, claims, i, k - 1);
    }
  }

  /** Two slots of one host are at least the interval apart in claim order, and none is before its claim. */
  lemma {:induction false} SlotsApart(p: Pace, claims: seq<Claim>, i: nat, k: nat)
    requires AllDrawn(claims) && i < k < |claims| && claims[i].host == claims[k].host
    ensures Slot(p, claims, k) >= Slot(p, claims, i) + p.minIntervalMs
    ensures Slot(p, claims, k) >= claims[k].at
  {
    NextIsApart(p, claims, i, k);
  }

  /** A claim that finds no other on its host leaves within the fraction of an interval it drew. */
  lemma {:induction false} FirstSlot(p: Pace, claims: seq<Claim>, k: nat)
    requires k < |claims| && forall i :: 0 <= i < k ==> claims[i].host != claims[k].host
    ensures var c := claims[k];
            var drawn := (c.first * p.minIntervalMs as real * p.jitterRatio).Floor;
            Slot(p, claims, k) == c.at + if drawn >= 0 then drawn else 0
  {
    OtherHosts(p, claims[..k], claims[k].host);
  }

  lemma {:induction false} OtherHosts(p: Pace, claims: seq<Claim>, host: string)
    requires forall i :: 0 <= i < |claims| ==> claims[i].host != host
    ensures host !in AfterAll(p, claims)
  {
    if claims != [] {
      OtherHosts(p, claims[..|claims| - 1], host);
    }
  }

  /** Any other leaves one drawn gap after the one before it on its host, or at once when that is over. */
  lemma {:induction false} SlotFollowsPrevious(p: Pace, claims: seq<Claim>, i: nat, k: nat)
    requires i < k < |claims| && claims[i].host == claims[k].host
    requires forall j :: i < j < k ==> claims[j].host != claims[k].host
    ensures var drawn := (claims[i].gap * p.minIntervalMs as real * p.jitterRatio).Floor;
            var free := Slot(p, claims, i) + p.minIntervalMs + if p.jitterRatio > 0.0 then drawn else 0;
            Slot(p, claims, k) == if claims[k].at > free then claims[k].at else free
  {
    NextIsKept(p, claims, i, k);
  }

  lemma {:induction false} NextIsKept(p: Pace, claims: seq<Claim>, i: nat, k: nat)
    requires i < k <= |claims| && forall j :: i < j < k ==> claims[j].host != claims[i].host
    ensures claims[i].host in AfterAll(p, claims[..k])
    ensures AfterAll(p, claims[..k])[claims[i].host] == Slot(p, claims, i) + Spacing(p, claims[i].gap)
  {
    AfterAllStep(p, claims, k - 1);
    if i < k - 1 {
      NextIsKept(p, claims, i, k - 1);
    }
  }

  /** How many of the claims are for one host. */
  function ClaimsFor(claims: seq<Claim>, host: string): nat {
    if claims == [] then 0
    else ClaimsFor(claims[..|claims| - 1], host) + if claims[|claims| - 1].host == host then 1 else 0
  }

  ghost predicate NoneAfter(claims: seq<Claim>, host: string, latest: int) {
    forall i :: 0 <= i < |claims| && claims[i].host == host ==> claims[i].at <= latest
  }

  /** `n` longest gaps. */
  function Gaps(p: Pace, n: nat): real {
    if n == 0 then 0.0 else Gaps(p, n - 1) + LongestGap(p)
  }

  lemma {:induction false} GapsAre(p: Pace, n: nat)
    ensures Gaps(p, n) == n as real * LongestGap(p)
  {
    if n > 0 {
      GapsAre(p, n - 1);
      assert (n - 1) as real == n as real - 1.0;
      assert (n as real - 1.0) * LongestGap(p) + LongestGap(p) == n as real * LongestGap(p);
    }
  }

  lemma {:induction false} GapsNotNegative(p: Pace, n: nat)
    ensures Gaps(p, n) >= 0.0 && LongestGap(p) >= 0.0
  {
    GapBounds(p, 0.0);
    if n > 0 {
      GapsNotNegative(p, n - 1);
    }
  }

  lemma {:induction false} NextIsSoon(p: Pace, claims: seq<Claim>, host: string, latest: int)
    requires AllDrawn(claims) && NoneAfter(claims, host, latest) && host in AfterAll(p, claims)
    ensures AfterAll(p, claims)[host] as real <= latest as real + Gaps(p, ClaimsFor(claims, host) + 1)
  {
    if claims != [] {
      var n := |claims| - 1;
      var c, before := claims[n], claims[..n];
      if host in AfterAll(p, before) {
        NextIsSoon(p, before, host, latest);
      }
      if c.host == host {
        SlotIsSoonAfter(p, before, c, host, latest);
        GapBounds(p, c.gap);
      }
    }
  }

  lemma {:induction false} SlotIsSoonAfter(p: Pace, before: seq<Claim>, c: Claim, host: string, latest: int)
    requires Drawn(c.first) && c.host == host && c.at <= latest
    requires host in AfterAll(p, before) ==>
      AfterAll(p, before)[host] as real <= latest as real + Gaps(p, ClaimsFor(before, host) + 1)
    ensures SlotOf(p, AfterAll(p, before), c) as real <= latest as real + Gaps(p, ClaimsFor(before, host) + 1)
  {
    GapBounds(p, c.first);
    GapsNotNegative(p, ClaimsFor(before, host));
  }

  /**
   * However clocks read and whatever is drawn, the n-th claimant of a host
   * leaves no later than the latest claim time so far and n longest gaps.
   */
  lemma {:induction false} SlotIsSoon(p: Pace, claims: seq<Claim>, k: nat, latest: int)
    requires AllDrawn(claims) && k < |claims| && NoneAfter(claims[..k + 1], claims[k].host, latest)
    ensures Slot(p, claims, k) as real
         <= latest as real + ClaimsFor(claims[..k + 1], claims[k].host) as real * LongestGap(p)
  {
    var before, c := claims[..k], claims[k];
    assert claims[..k + 1][..k] == before;
    assert claims[..k + 1][k] == c;
    assert NoneAfter(before, c.host, latest) by {
      forall i | 0 <= i < |before| && before[i].host == c.host ensures before[i].at <= latest {
        assert claims[..k + 1][i] == before[i];
      }
    }
    if c.host in AfterAll(p, before) {
      NextIsSoon(p, before, c.host, latest);
    }
    SlotIsSoonAfter(p, before, c, c.host, latest);
    GapsAre(p, ClaimsFor(before, c.host) + 1);
  }
}
