/** The relay's pool of outstanding connection challenges (server/enroll.go). */
module Challenges {
  import opened Basics

  type Nonce = Bytes

  /** Nonces handed out and not yet used, with the instant each was issued. */
  type Pool = map<Nonce, Time>

  const CHALLENGE_TTL: int := 120 * SECOND
  const MAX_CHALLENGES: nat := 4096

  datatype IssueResult = Issued(nonce: Nonce) | RandomnessFailed | TooManyChallenges

  function Live(pool: Pool, now: Time): Pool {
    map n | n in pool && now - CHALLENGE_TTL <= pool[n] :: pool[n]
  }

  /** `draw` is what the random source yields; the clock is read once to sweep and once to stamp. */
  function IssueStep(pool: Pool, draw: Option<Nonce>, now: Time, stamp: Time): (Pool, IssueResult) {
    match draw
    case None => (pool, RandomnessFailed)
    case Some(n) =>
      var live := Live(pool, now);
      if |live| >= MAX_CHALLENGES then (live, TooManyChallenges) else (live[n := stamp], Issued(n))
  }

  function RedeemStep(pool: Pool, n: Nonce, now: Time): (Pool, bool) {
    var live := Live(pool, now);
    if n in live then (live - {n}, true) else (live, false)
  }

  class Challenges {
    var seen: Pool

    constructor ()
      ensures seen == map[]
    {
      seen := map[];
    }

    method ExpireLocked(now: Time)
      modifies this
      ensures seen == Live(old(seen), now)
    {
      var cutoff := now - CHALLENGE_TTL;
      var unvisited := seen.Keys;
      while unvisited != {}
        invariant unvisited <= seen.Keys <= old(seen).Keys
        invariant forall n :: n in seen ==> seen[n] == old(seen)[n]
        invariant forall n :: n in old(seen) && n !in unvisited ==> (n in seen <==> cutoff <= old(seen)[n])
        decreases |unvisited|
      {
        var n :| n in unvisited;
        if seen[n] < cutoff {
          seen := seen - {n};
        }
        unvisited := unvisited - {n};
      }
    }

    method Issue(draw: Option<Nonce>, now: Time, stamp: Time) returns (r: IssueResult)
      modifies this
      ensures (seen, r) == IssueStep(old(seen), draw, now, stamp)
    {
      if draw.None? {
        return RandomnessFailed;
      }
      ExpireLocked(now);
      if |seen| >= MAX_CHALLENGES {
        return TooManyChallenges;
      }
      seen := seen[draw.value := stamp];
      r := Issued(draw.value);
    }

    method Redeem(n: Nonce, now: Time) returns (ok: bool)
      modifies this
      ensures (seen, ok) == RedeemStep(old(seen), n, now)
    {
      ExpireLocked(now);
      if n !in seen {
        return false;
      }
      seen := seen - {n};
      ok := true;
    }
  }

  // ---- Runs -----------------------------------------------------------------

  datatype Event =
    | Issue(draw: Option<Nonce>, now: Time, stamp: Time)
    | Redeem(nonce: Nonce, now: Time)
  {
    function Until(): Time {
      match this
      case Issue(_, _, stamp) => stamp
      case Redeem(_, now) => now
    }
  }

  datatype Outcome = IssueOutcome(result: IssueResult) | RedeemOutcome(ok: bool)

  function Step(pool: Pool, e: Event): (Pool, Outcome) {
    match e
    case Issue(draw, now, stamp) =>
      var (pool', r) := IssueStep(pool, draw, now, stamp);
      (pool', IssueOutcome(r))
    case Redeem(n, now) =>
      var (pool', ok) := RedeemStep(pool, n, now);
      (pool', RedeemOutcome(ok))
  }

  /** The pool of a relay that started empty and served `run`. */
  function After(run: seq<Event>): Pool {
    if run == [] then map[] else Step(After(DropLast(run)), Last(run)).0
  }

  function OutcomeAt(run: seq<Event>, i: nat): Outcome
    requires i < |run|
  {
    Step(After(run[..i]), run[i]).1
  }

  predicate IssuedAt(run: seq<Event>, i: nat, n: Nonce)
    requires i < |run|
  {
    OutcomeAt(run, i) == IssueOutcome(Issued(n))
  }

  predicate RedeemedAt(run: seq<Event>, i: nat, n: Nonce)
    requires i < |run|
  {
    run[i].Redeem? && run[i].nonce == n && OutcomeAt(run, i) == RedeemOutcome(true)
  }

  function Issues(run: seq<Event>, n: Nonce): nat {
    if run == [] then 0
    else Issues(DropLast(run), n) + if IssuedAt(run, |run| - 1, n) then 1 else 0
  }

  function Redemptions(run: seq<Event>, n: Nonce): nat {
    if run == [] then 0
    else Redemptions(DropLast(run), n) + if RedeemedAt(run, |run| - 1, n) then 1 else 0
  }

  /** The pool's mutex orders the clock readings: no reading precedes an earlier one. */
  ghost predicate ClockNeverGoesBack(run: seq<Event>) {
    && (forall i :: 0 <= i < |run| ==> run[i].now <= run[i].Until())
    && (forall i, j :: 0 <= i < j < |run| ==> run[i].Until() <= run[j].now)
  }

  lemma LivingIsSmaller(pool: Pool, now: Time)
    ensures |Live(pool, now)| <= |pool|
  {
    var live := Live(pool, now);
    assert live.Keys <= pool.Keys;
    assert |pool.Keys - live.Keys| == |pool.Keys| - |live.Keys|;
  }

  lemma {:induction false} PoolIsBounded(run: seq<Event>)
    ensures |After(run)| <= MAX_CHALLENGES
  {
    if run == [] {
    } else {
      var before := After(DropLast(run));
      PoolIsBounded(DropLast(run));
      var live := Live(before, Last(run).now);
      LivingIsSmaller(before, Last(run).now);
      match Last(run)
      case Issue(draw, _, stamp) =>
        if draw.Some? {
          assert live[draw.value := stamp].Keys == live.Keys + {draw.value};
        }
      case Redeem(n, _) =>
        assert (live - {n}).Keys <= live.Keys;
        assert |live.Keys - (live.Keys - (live - {n}).Keys)| == |(live - {n}).Keys|
               by { assert live.Keys - (live.Keys - (live - {n}).Keys) == (live - {n}).Keys; }
    }
  }

  /** No nonce is redeemed more often than it was issued, whatever the random source repeats. */
  lemma {:induction false} NoNonceIsRedeemedTwicePerIssue(run: seq<Event>, n: Nonce)
    ensures Redemptions(run, n) + (if n in After(run) then 1 else 0) <= Issues(run, n)
  {
    if run == [] {
    } else {
      NoNonceIsRedeemedTwicePerIssue(DropLast(run), n);
      assert run[..|run| - 1] == DropLast(run);
    }
  }

  // ---- Refinement of a ledger that never sweeps ------------------------------

  /** The simple specification: remember every issue until it is redeemed, judge freshness only when asked. */
  function LedgerStep(ledger: Pool, e: Event): (Pool, Outcome) {
    match e
    case Issue(None, _, _) => (ledger, IssueOutcome(RandomnessFailed))
    case Issue(Some(n), now, stamp) =>
      if |Live(ledger, now)| >= MAX_CHALLENGES then (ledger, IssueOutcome(TooManyChallenges))
      else (ledger[n := stamp], IssueOutcome(Issued(n)))
    case Redeem(n, now) =>
      if n in ledger && now <= ledger[n] + CHALLENGE_TTL then (ledger - {n}, RedeemOutcome(true))
      else (ledger, RedeemOutcome(false))
  }

  function Ledger(run: seq<Event>): Pool {
    if run == [] then map[] else LedgerStep(Ledger(DropLast(run)), Last(run)).0
  }

  lemma LiveTwice(pool: Pool, t: Time, now: Time)
    requires t <= now
    ensures Live(Live(pool, t), now) == Live(pool, now)
  {}

  /** Sweeping loses nothing that still counts... */
  lemma {:induction false} SweepingKeepsTheLiving(run: seq<Event>, now: Time)
    requires ClockNeverGoesBack(run)
    requires run != [] ==> Last(run).Until() <= now
    ensures Live(After(run), now) == Live(Ledger(run), now)
  {
    if run == [] {
    } else {
      var front, e := DropLast(run), Last(run);
      PrefixClock(run, |run| - 1);
      SweepingKeepsTheLiving(front, e.now);
      StepAgrees(After(front), Ledger(front), e, now);
    }
  }

  /** ...so it is invisible: every answer the relay gives is the ledger's answer. */
  lemma SweepingIsInvisible(run: seq<Event>, i: nat)
    requires ClockNeverGoesBack(run) && i < |run|
    ensures OutcomeAt(run, i) == LedgerStep(Ledger(run[..i]), run[i]).1
  {
    PrefixClock(run, i);
    SweepingKeepsTheLiving(run[..i], run[i].now);
  }

  /** Whatever a request comes to, it leaves no nonce behind that had expired by then. */
  lemma NothingExpiredIsKept(run: seq<Event>, n: Nonce)
    requires run != [] && n in After(run) && Last(run).now <= Last(run).Until()
    requires Last(run).Issue? ==> Last(run).draw.Some?
    ensures Last(run).now <= After(run)[n] + 120 * SECOND
  {}

  lemma PrefixClock(run: seq<Event>, i: nat)
    requires ClockNeverGoesBack(run) && i < |run|
    ensures ClockNeverGoesBack(run[..i])
    ensures run[..i] != [] ==> Last(run[..i]).Until() <= run[i].now
  {}

  lemma IssueAgrees(live: Pool, ledger: Pool, n: Nonce, stamp: Time, issuedAt: Time, now: Time)
    requires live == Live(ledger, issuedAt) && issuedAt <= now
    ensures Live(live[n := stamp], now) == Live(ledger[n := stamp], now)
  {
    LiveTwice(ledger, issuedAt, now);
  }

  lemma RedeemAgrees(live: Pool, ledger: Pool, n: Nonce, redeemedAt: Time, now: Time)
    requires live == Live(ledger, redeemedAt) && redeemedAt <= now
    ensures Live(live - {n}, now) == Live(ledger - {n}, now)
    ensures n !in live ==> Live(live, now) == Live(ledger - {n}, now)
  {
    LiveTwice(ledger, redeemedAt, now);
  }

  lemma StepAgrees(pool: Pool, ledger: Pool, e: Event, now: Time)
    requires Live(pool, e.now) == Live(ledger, e.now) && e.now <= now
    ensures Live(Step(pool, e).0, now) == Live(LedgerStep(ledger, e).0, now)
  {
    LiveTwice(pool, e.now, now);
    LiveTwice(ledger, e.now, now);
    var live := Live(ledger, e.now);
    match e
    case Issue(Some(n), _, stamp) => IssueAgrees(live, ledger, n, stamp, e.now, now);
    case Issue(None, _, _) =>
    case Redeem(n, _) => RedeemAgrees(live, ledger, n, e.now, now);
  }

  lemma StepHolds(pool: Pool, e: Event, n: Nonce, stamp: Time)
    requires n in pool && stamp <= pool[n]
    requires stamp <= e.Until() && e.now <= stamp + CHALLENGE_TTL
    requires !(e.Redeem? && e.nonce == n)
    ensures n in Step(pool, e).0 && stamp <= Step(pool, e).0[n]
  {}

  lemma PrefixOutcome(run: seq<Event>, k: nat, i: nat)
    requires i < k <= |run|
    ensures OutcomeAt(run[..k], i) == OutcomeAt(run, i) && run[..k][i] == run[i]
  {
    assert run[..k][..i] == run[..i];
  }

  lemma FrontIsUnredeemed(run: seq<Event>, i: nat, n: Nonce)
    requires i < |run| - 1 && IssuedAt(run, i, n) && ClockNeverGoesBack(run)
    requires forall j :: i < j < |run| ==> !RedeemedAt(run, j, n)
    ensures var front := DropLast(run);
            && IssuedAt(front, i, n) && ClockNeverGoesBack(front) && Last(front).Until() <= Last(run).now
            && forall j :: i < j < |front| ==> !RedeemedAt(front, j, n)
  {
    var front := DropLast(run);
    assert run[..|run| - 1] == front;
    PrefixClock(run, |front|);
    PrefixOutcome(run, |front|, i);
    forall j | i < j < |front|
      ensures !RedeemedAt(front, j, n)
    {
      PrefixOutcome(run, |front|, j);
      assert !RedeemedAt(run, j, n);
    }
  }

  /** An unexpired, unredeemed nonce survives any flood: it leaves the pool only by redemption. */
  lemma {:induction false} HeldUntilRedeemed(run: seq<Event>, i: nat, n: Nonce, now: Time)
    requires i < |run| && IssuedAt(run, i, n) && ClockNeverGoesBack(run)
    requires forall j :: i < j < |run| ==> !RedeemedAt(run, j, n)
    requires Last(run).Until() <= now <= run[i].stamp + CHALLENGE_TTL
    ensures n in After(run) && run[i].stamp <= After(run)[n]
    ensures RedeemStep(After(run), n, now).1
  {
    var front, e := DropLast(run), Last(run);
    assert run[..|run| - 1] == front;
    if i == |front| {
    } else {
      FrontIsUnredeemed(run, i, n);
      assert run[i].Until() <= e.now;
      assert Last(front).Until() <= e.now <= e.Until();
      HeldUntilRedeemed(front, i, n, e.now);
      assert !RedeemedAt(run, |front|, n);
      StepHolds(After(front), e, n, run[i].stamp);
    }
  }

  lemma StepOrigin(pool: Pool, e: Event, n: Nonce)
    requires n in Step(pool, e).0
    ensures
      || (e.Issue? && Step(pool, e).1 == IssueOutcome(Issued(n)) && Step(pool, e).0[n] == e.stamp)
      || (n in pool && Step(pool, e).0[n] == pool[n] && !(e.Redeem? && e.nonce == n))
  {}

  /** What the pool holds was issued at the recorded instant and has not been redeemed since. */
  lemma {:induction false} HeldMeansIssued(run: seq<Event>, n: Nonce) returns (i: nat)
    requires n in After(run)
    ensures i < |run| && IssuedAt(run, i, n) && run[i].stamp == After(run)[n]
    ensures forall j :: i < j < |run| ==> !RedeemedAt(run, j, n)
  {
    var front := DropLast(run);
    assert run[..|front|] == front;
    StepOrigin(After(front), Last(run), n);
    if IssuedAt(run, |front|, n) {
      i := |front|;
    } else {
      i := HeldMeansIssued(front, n);
      PrefixOutcome(run, |front|, i);
      forall j | i < j < |run|
        ensures !RedeemedAt(run, j, n)
      {
        if j < |front| {
          PrefixOutcome(run, |front|, j);
          assert !RedeemedAt(front, j, n);
        }
      }
    }
  }

  /** A redemption that succeeds was preceded, at most CHALLENGE_TTL earlier, by an issue not yet spent. */
  lemma RedeemedMeansRecentlyIssued(run: seq<Event>, k: nat, n: Nonce) returns (i: nat)
    requires k < |run| && RedeemedAt(run, k, n)
    ensures i < k && IssuedAt(run, i, n) && run[k].now <= run[i].stamp + CHALLENGE_TTL
    ensures forall j :: i < j < k ==> !RedeemedAt(run, j, n)
  {
    i := HeldMeansIssued(run[..k], n);
    PrefixOutcome(run, k, i);
    forall j | i < j < k
      ensures !RedeemedAt(run, j, n)
    {
      PrefixOutcome(run, k, j);
      assert !RedeemedAt(run[..k], j, n);
    }
  }
}
