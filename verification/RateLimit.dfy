/** The service's two-level token bucket (workflow_service.py): one bucket per actor and
    one shared by all, in units of 10^9 per admission and integer nanoseconds.
 */
module RateLimit {

  const UNIT := 1_000_000_000

  const ACTOR_RATE := 4
  const GLOBAL_RATE := 16

  // ----- One bucket, as a value -----

  datatype Level = Level(rate: int, credit: int, at: int)

  predicate Sane(l: Level) {
    l.rate > 0 && 0 <= l.credit <= l.rate * UNIT
  }

  function Min(x: int, y: int): int {
    if x < y then x else y
  }

  function Max(x: int, y: int): int {
    if x < y then y else x
  }

  /** A refill that never multiplies by more than one second of elapsed time. */
  function Refilled(l: Level, now: int): Level {
    var elapsed := Max(0, Min(now - l.at, UNIT));
    Level(l.rate, Min(l.rate * UNIT, l.credit + elapsed * l.rate), Max(now, l.at))
  }

  lemma Scale(rate: int, x: int, y: int)
    requires rate > 0 && x <= y
    ensures x * rate <= y * rate
  {
  }

  /** Capping the elapsed time changes nothing: the refill is the plain one, clipped at
      capacity, for any clock reading that does not run backwards. */
  lemma RefillExact(l: Level, now: int)
    requires Sane(l) && now >= l.at
    ensures Refilled(l, now) == Level(l.rate, Min(l.rate * UNIT, l.credit + (now - l.at) * l.rate), now)
  {
    if now - l.at > UNIT {
      Scale(l.rate, UNIT, now - l.at);
    }
  }

  lemma RefillSane(l: Level, now: int)
    requires Sane(l)
    ensures Sane(Refilled(l, now)) && Refilled(l, now).credit >= l.credit
    ensures now <= l.at ==> Refilled(l, now) == l
  {
    var elapsed := Max(0, Min(now - l.at, UNIT));
    Scale(l.rate, 0, elapsed);
  }

  // ----- The two levels, as a value -----

  datatype Levels = Levels(shared: Level, actors: map<string, Level>)

  predicate SaneLevels(s: Levels) {
    && Sane(s.shared) && s.shared.rate == GLOBAL_RATE
    && forall a | a in s.actors :: Sane(s.actors[a]) && s.actors[a].rate == ACTOR_RATE
  }

  datatype Request = Request(actor: string, now: int)

  function Spend(l: Level): Level {
    l.(credit := l.credit - UNIT)
  }

  predicate Admits(s: Levels, q: Request)
    requires q.actor in s.actors
  {
    Min(Refilled(s.actors[q.actor], q.now).credit, Refilled(s.shared, q.now).credit) >= UNIT
  }

  function Step(s: Levels, q: Request): Levels
    requires q.actor in s.actors
  {
    var mine, shared := Refilled(s.actors[q.actor], q.now), Refilled(s.shared, q.now);
    if Admits(s, q) then Levels(Spend(shared), s.actors[q.actor := Spend(mine)])
    else Levels(shared, s.actors[q.actor := mine])
  }

  /** The credit of a bucket at an instant: rate times elapsed time on top, clipped at one
      second's worth; a clock that runs backwards adds nothing. */
  function CreditAt(l: Level, now: int): int {
    if now <= l.at then l.credit
    else if l.credit + (now - l.at) * l.rate > l.rate * UNIT then l.rate * UNIT
    else l.credit + (now - l.at) * l.rate
  }

  lemma RefilledCredit(l: Level, now: int)
    requires Sane(l)
    ensures Refilled(l, now) == Level(l.rate, CreditAt(l, now), if now <= l.at then l.at else now)
  {
    hide Sane;
    if now <= l.at {
      RefillSane(l, now);
    } else {
      RefillExact(l, now);
    }
  }

  /** One request: admitted exactly when its own bucket and the shared one both hold a unit,
      it takes that unit from both; refused it takes nothing, and no other actor's bucket
      is touched. */
  lemma StepExact(s: Levels, q: Request)
    requires SaneLevels(s) && q.actor in s.actors
    ensures var t, mine, all := Step(s, q), CreditAt(s.actors[q.actor], q.now), CreditAt(s.shared, q.now);
            var cost := if Admits(s, q) then UNIT else 0;
            && (Admits(s, q) <==> mine >= UNIT && all >= UNIT)
            && t.actors.Keys == s.actors.Keys
            && (forall a | a in s.actors && a != q.actor :: t.actors[a] == s.actors[a])
            && t.actors[q.actor].credit == mine - cost && t.shared.credit == all - cost
            && t.actors[q.actor].rate == 4 && t.shared.rate == 16
            && (t.actors[q.actor].at == if q.now <= s.actors[q.actor].at then s.actors[q.actor].at else q.now)
            && (t.shared.at == if q.now <= s.shared.at then s.shared.at else q.now)
  {
    hide Refilled, CreditAt;
    RefilledCredit(s.actors[q.actor], q.now);
    RefilledCredit(s.shared, q.now);
  }

  // ----- The objects -----

  class Bucket {
    const rate: int
    var credit: int
    var at: int

    constructor (rate: int, now: int)
      ensures this.rate == rate && credit == rate * UNIT && at == now
    {
      this.rate := rate;
      credit := rate * UNIT;
      at := now;
    }

    function View(): Level
      reads this
    {
      Level(rate, credit, at)
    }

    method Refill(now: int)
      modifies this
      ensures View() == Refilled(old(View()), now)
    {
      var elapsed := Max(0, Min(now - at, UNIT));
      credit := Min(rate * UNIT, credit + elapsed * rate);
      at := Max(now, at);
    }
  }

  class Service {
    const shared: Bucket
    const buckets: map<string, Bucket>

    /** Every actor has a bucket of its own, and none is the shared one. */
    ghost predicate Separate() {
      && (forall a | a in buckets :: buckets[a] != shared)
      && (forall a, b | a in buckets && b in buckets && a != b :: buckets[a] != buckets[b])
    }

    function View(): Levels
      reads shared, buckets.Values
    {
      Levels(shared.View(), map a | a in buckets :: buckets[a].View())
    }

    /** One full bucket per configured actor, and the shared one. */
    constructor (actors: seq<string>, now: int)
      ensures Separate() && fresh(shared) && (forall a | a in buckets :: fresh(buckets[a]))
      ensures View() == Start(actors, now)
    {
      var all := new Bucket(GLOBAL_RATE, now);
      var each: map<string, Bucket> := map[];
      for i := 0 to |actors|
        invariant forall a :: a in each <==> a in actors[..i]
        invariant fresh(all) && all.View() == Level(GLOBAL_RATE, GLOBAL_RATE * UNIT, now)
        invariant forall a | a in each :: fresh(each[a]) && each[a] != all
        invariant forall a | a in each :: each[a].View() == Level(ACTOR_RATE, ACTOR_RATE * UNIT, now)
        invariant forall a, b | a in each && b in each && a != b :: each[a] != each[b]
      {
        var bucket := new Bucket(ACTOR_RATE, now);
        each := each[actors[i] := bucket];
      }
      shared := all;
      buckets := each;
    }

    /** Refill both buckets, then take one unit from each or refuse. */
    method Rate(actor: string, now: int) returns (admitted: bool)
      requires Separate() && actor in buckets
      modifies shared, buckets[actor]
      ensures admitted == Admits(old(View()), Request(actor, now))
      ensures View() == Step(old(View()), Request(actor, now))
    {
      var mine := buckets[actor];
      mine.Refill(now);
      shared.Refill(now);
      admitted := Min(mine.credit, shared.credit) >= UNIT;
      if admitted {
        mine.credit := mine.credit - UNIT;
        shared.credit := shared.credit - UNIT;
      }
    }
  }

  // ----- Whole runs -----

  /** A request history the clock and the credential registry allow. */
  predicate Lawful(s: Levels, requests: seq<Request>) {
    && (forall i | 0 <= i < |requests| :: requests[i].actor in s.actors)
    && (forall i, j | 0 <= i < j < |requests| :: requests[i].now <= requests[j].now)
  }

  function After(s: Levels, requests: seq<Request>): (r: Levels)
    requires forall i | 0 <= i < |requests| :: requests[i].actor in s.actors
    ensures r.actors.Keys == s.actors.Keys
  {
    if requests == [] then s
    else Step(After(s, requests[..|requests| - 1]), requests[|requests| - 1])
  }

  /** Admissions among the requests from `from` on, of one actor or of everyone. */
  function Admitted(s: Levels, requests: seq<Request>, from: nat, who: set<string>): nat
    requires forall i | 0 <= i < |requests| :: requests[i].actor in s.actors
    requires from <= |requests|
    decreases |requests|
  {
    if |requests| == from then 0
    else
      var n := |requests| - 1;
      var q := requests[n];
      Admitted(s, requests[..n], from, who) + (if q.actor in who && Admits(After(s, requests[..n]), q) then 1 else 0)
  }

  lemma {:induction false} AlwaysSane(s: Levels, requests: seq<Request>)
    requires SaneLevels(s) && forall i | 0 <= i < |requests| :: requests[i].actor in s.actors
    ensures SaneLevels(After(s, requests))
  {
    hide Refilled, Sane;
    if requests != [] {
      var n := |requests| - 1;
      AlwaysSane(s, requests[..n]);
      StepSane(After(s, requests[..n]), requests[n]);
    }
  }

  lemma StepSane(s: Levels, q: Request)
    requires SaneLevels(s) && q.actor in s.actors
    ensures SaneLevels(Step(s, q))
  {
    hide Refilled;
    RefillSane(s.actors[q.actor], q.now);
    RefillSane(s.shared, q.now);
    RefilledRate(s.actors[q.actor], q.now);
    RefilledRate(s.shared, q.now);
  }

  lemma RefilledRate(l: Level, now: int)
    ensures Refilled(l, now).rate == l.rate && Refilled(l, now).at == Max(now, l.at)
  {
  }

  /** A bucket's income over a period never exceeds its rate times the period. */
  lemma RefillIncome(l: Level, now: int)
    requires Sane(l)
    ensures Refilled(l, now).credit - l.credit <= l.rate * (Refilled(l, now).at - l.at)
  {
    if now >= l.at {
      RefillExact(l, now);
    } else {
      RefillSane(l, now);
    }
  }

  /** Conservation on the shared bucket: what was admitted since `from`, plus what is
      left, is at most one capacity plus the income since that request. */
  lemma {:induction false} SharedPotential(s: Levels, requests: seq<Request>, from: nat)
    requires SaneLevels(s) && Lawful(s, requests) && from < |requests|
    requires s.shared.at <= requests[from].now
    ensures var r := After(s, requests).shared;
            && r.at == requests[|requests| - 1].now
            && Admitted(s, requests, from, s.actors.Keys) * UNIT + r.credit
                 <= GLOBAL_RATE * UNIT + GLOBAL_RATE * (r.at - requests[from].now)
    decreases |requests|
  {
    hide Refilled, Sane;
    var n := |requests| - 1;
    var before := After(s, requests[..n]);
    AlwaysSane(s, requests[..n]);
    SharedClock(s, requests[..n]);
    RefilledRate(before.shared, requests[n].now);
    SaneUse(Refilled(before.shared, requests[n].now), before.shared, requests[n].now);
    if from < n {
      SharedPotential(s, requests[..n], from);
      RefillIncome(before.shared, requests[n].now);
    }
  }

  lemma SaneUse(r: Level, l: Level, now: int)
    requires Sane(l) && r == Refilled(l, now)
    ensures r.credit <= l.rate * UNIT
  {
  }

  /** The shared clock reading is the latest request's, or the initial one. */
  lemma {:induction false} SharedClock(s: Levels, requests: seq<Request>)
    requires forall i | 0 <= i < |requests| :: requests[i].actor in s.actors
    ensures var r := After(s, requests).shared;
            && s.shared.at <= r.at
            && (r.at == s.shared.at || exists i :: 0 <= i < |requests| && requests[i].now == r.at)
  {
    hide Admits;
    if requests != [] {
      var n := |requests| - 1;
      SharedClock(s, requests[..n]);
      var before := After(s, requests[..n]).shared;
      RefilledRate(before, requests[n].now);
      if before.at != s.shared.at {
        var i :| 0 <= i < n && requests[..n][i].now == before.at;
        assert requests[i].now == before.at;
      }
    }
  }

  /** Overall bound: in any stretch of consecutive requests spanning `d` nanoseconds, at
      most 16 + 16 d / 10^9 are admitted, whoever asked. */
  lemma OverallBound(s: Levels, requests: seq<Request>, from: nat)
    requires SaneLevels(s) && Lawful(s, requests) && from < |requests|
    requires s.shared.at <= requests[from].now
    ensures var d := requests[|requests| - 1].now - requests[from].now;
            Admitted(s, requests, from, s.actors.Keys) * UNIT <= 16 * UNIT + 16 * d
  {
    hide Admitted, Sane, Step;
    SharedPotential(s, requests, from);
    AlwaysSane(s, requests);
    CreditNotNegative(After(s, requests));
  }

  lemma CreditNotNegative(s: Levels)
    requires SaneLevels(s)
    ensures s.shared.credit >= 0 && forall a | a in s.actors :: s.actors[a].credit >= 0
  {
  }

  /** Other actors' requests leave an actor's bucket alone. */
  lemma OthersLeave(s: Levels, q: Request, actor: string)
    requires q.actor in s.actors && actor in s.actors && actor != q.actor
    ensures Step(s, q).actors[actor] == s.actors[actor]
  {
    hide Refilled;
  }

  lemma {:induction false} ActorClock(s: Levels, requests: seq<Request>, actor: string)
    requires (forall i | 0 <= i < |requests| :: requests[i].actor in s.actors) && actor in s.actors
    ensures var r := After(s, requests).actors[actor];
            && s.actors[actor].at <= r.at
            && (r.at == s.actors[actor].at || exists i :: 0 <= i < |requests| && requests[i].now == r.at)
  {
    hide Admits, Refilled;
    if requests != [] {
      var n := |requests| - 1;
      ActorClock(s, requests[..n], actor);
      var before := After(s, requests[..n]).actors[actor];
      if requests[n].actor == actor {
        RefilledRate(before, requests[n].now);
      } else {
        OthersLeave(After(s, requests[..n]), requests[n], actor);
      }
      if before.at != s.actors[actor].at {
        var i :| 0 <= i < n && requests[..n][i].now == before.at;
        assert requests[i].now == before.at;
      }
    }
  }

  lemma OwnStep(s: Levels, q: Request)
    requires q.actor in s.actors
    ensures var mine := Refilled(s.actors[q.actor], q.now);
            Step(s, q).actors[q.actor] == if Admits(s, q) then Spend(mine) else mine
  {
    hide Refilled;
  }

  /** Spending since `since` and the credit left are within one capacity plus the income
      since then; a bucket not touched since then has spent nothing. */
  predicate WithinBudget(l: Level, since: int, spent: nat) {
    && (l.at < since ==> spent == 0)
    && spent * UNIT + l.credit <= ACTOR_RATE * UNIT + ACTOR_RATE * Max(0, l.at - since)
  }

  lemma BudgetStarts(l: Level, since: int)
    requires Sane(l) && l.rate == ACTOR_RATE
    ensures WithinBudget(l, since, 0)
  {
  }

  lemma BudgetSteps(l: Level, now: int, since: int, spent: nat)
    requires Sane(l) && l.rate == ACTOR_RATE && l.at <= now && since <= now && WithinBudget(l, since, spent)
    ensures WithinBudget(Refilled(l, now), since, spent) && WithinBudget(Spend(Refilled(l, now)), since, spent + 1)
  {
    RefillExact(l, now);
  }

  /** Conservation on one actor's bucket, over a stretch in which others interleave. */
  lemma {:induction false} ActorPotential(s: Levels, requests: seq<Request>, from: nat, actor: string)
    requires SaneLevels(s) && Lawful(s, requests) && from <= |requests| && actor in s.actors
    requires from < |requests| ==> s.actors[actor].at <= requests[from].now
    ensures var since := if from < |requests| then requests[from].now else s.actors[actor].at;
            WithinBudget(After(s, requests).actors[actor], since, Admitted(s, requests, from, {actor}))
    decreases |requests|
  {
    hide Refilled, Sane, Admits, WithinBudget, Step, Spend;
    AlwaysSane(s, requests);
    if from == |requests| {
      BudgetStarts(After(s, requests).actors[actor], s.actors[actor].at);
    } else {
      var n := |requests| - 1;
      var q := requests[n];
      var before := After(s, requests[..n]);
      var since := requests[from].now;
      AlwaysSane(s, requests[..n]);
      ActorClock(s, requests[..n], actor);
      if from < n {
        ActorPotential(s, requests[..n], from, actor);
      } else {
        BudgetStarts(before.actors[actor], since);
      }
      if q.actor == actor {
        OwnStep(before, q);
        BudgetSteps(before.actors[actor], q.now, since, Admitted(s, requests[..n], from, {actor}));
      } else {
        OthersLeave(before, q, actor);
      }
    }
  }

  /** Per-actor bound: in any stretch of consecutive requests spanning `d` nanoseconds,
      however others interleave, an actor is admitted at most 4 + 4 d / 10^9 times. */
  lemma ActorBound(s: Levels, requests: seq<Request>, from: nat, actor: string)
    requires SaneLevels(s) && Lawful(s, requests) && from < |requests| && actor in s.actors
    requires s.actors[actor].at <= requests[from].now
    ensures var d := requests[|requests| - 1].now - requests[from].now;
            Admitted(s, requests, from, {actor}) * UNIT <= 4 * UNIT + 4 * d
  {
    hide Admitted, Sane, Step;
    ActorPotential(s, requests, from, actor);
    ActorClock(s, requests, actor);
    AlwaysSane(s, requests);
    CreditNotNegative(After(s, requests));
  }

  /** The state a new service starts in. */
  function Start(actors: seq<string>, now: int): Levels {
    Levels(Level(GLOBAL_RATE, GLOBAL_RATE * UNIT, now),
           map a | a in actors :: Level(ACTOR_RATE, ACTOR_RATE * UNIT, now))
  }

  /** Both bounds hold in every window of every run of a service, at every point. */
  lemma DualRateBound(actors: seq<string>, started: int, requests: seq<Request>, from: nat, to: nat, actor: string)
    requires from < to <= |requests| && actor in actors
    requires Lawful(Start(actors, started), requests) && forall i | 0 <= i < |requests| :: started <= requests[i].now
    ensures var s, d := Start(actors, started), requests[to - 1].now - requests[from].now;
            && SaneLevels(After(s, requests[..to]))
            && Admitted(s, requests[..to], from, {actor}) * UNIT <= 4 * UNIT + 4 * d
            && Admitted(s, requests[..to], from, s.actors.Keys) * UNIT <= 16 * UNIT + 16 * d
  {
    hide Admitted, After;
    var s := Start(actors, started);
    AlwaysSane(s, requests[..to]);
    ActorBound(s, requests[..to], from, actor);
    OverallBound(s, requests[..to], from);
  }

  /** The actor bound is attained: a fresh actor gets four admissions at one instant and
      the fifth is refused. */
  lemma BurstOfFour(actor: string, now: int)
    ensures var s, burst := Start([actor], now), seq(5, i => Request(actor, now));
            && Admitted(s, burst, 0, {actor}) == 4
            && !Admits(After(s, burst[..4]), burst[4])
  {
    var s, q := Start([actor], now), Request(actor, now);
    var burst := seq(5, i => q);
    BurstStep(s, burst, q, 1);
    BurstStep(s, burst, q, 2);
    BurstStep(s, burst, q, 3);
    BurstStep(s, burst, q, 4);
    BurstStep(s, burst, q, 5);
    assert burst == seq(5, i => Request(actor, now));
  }

  /** One actor's bucket holds `c` units and the shared one `g`, refilled just now. */
  predicate Holding(s: Levels, q: Request, c: nat, g: nat) {
    q.actor in s.actors && s.actors[q.actor] == Level(4, c * UNIT, q.now) && s.shared == Level(16, g * UNIT, q.now)
  }

  /** At the instant of the last refill, a request only spends. */
  lemma SpendOnly(s: Levels, q: Request, c: nat, g: nat)
    requires SaneLevels(s) && Holding(s, q, c, g)
    ensures Admits(s, q) <==> c >= 1 && g >= 1
    ensures c >= 1 && g >= 1 ==> Holding(Step(s, q), q, c - 1, g - 1)
  {
    hide Refilled, Sane;
    RefillSane(s.actors[q.actor], q.now);
    RefillSane(s.shared, q.now);
  }

  lemma {:induction false} BurstStep(s: Levels, burst: seq<Request>, q: Request, k: nat)
    requires 1 <= k <= 5 && |burst| == 5 && forall i | 0 <= i < 5 :: burst[i] == q
    requires s == Start([q.actor], q.now)
    ensures var before := After(s, burst[..k - 1]);
            && Holding(before, q, 5 - k, 17 - k)
            && (Admits(before, q) <==> k <= 4)
            && Admitted(s, burst[..k], 0, {q.actor}) == Min(k, 4)
  {
    hide Step, Admits, SaneLevels, Holding;
    if k > 1 {
      BurstStep(s, burst, q, k - 1);
      assert burst[..k - 1][..k - 2] == burst[..k - 2];
      StartSane(s, burst[..k - 2], q);
      SpendOnly(After(s, burst[..k - 2]), q, 6 - k, 18 - k);
    } else {
      StartHolds(q);
    }
    assert burst[..k][..k - 1] == burst[..k - 1];
    StartSane(s, burst[..k - 1], q);
    SpendOnly(After(s, burst[..k - 1]), q, 5 - k, 17 - k);
  }

  lemma StartHolds(q: Request)
    ensures Holding(Start([q.actor], q.now), q, 4, 16)
  {
  }

  lemma StartSane(s: Levels, requests: seq<Request>, q: Request)
    requires s == Start([q.actor], q.now) && forall i | 0 <= i < |requests| :: requests[i].actor == q.actor
    ensures SaneLevels(After(s, requests))
  {
    AlwaysSane(s, requests);
  }
}
