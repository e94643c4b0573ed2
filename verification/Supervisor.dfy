/** The reconnect loop (client/run.go): one attempt after another, for ever, backing off in between. */
module Supervisor {
  import opened Basics
  import opened AgentState

  const MIN_BACKOFF: int := 1 * SECOND
  const MAX_BACKOFF: int := 30 * SECOND
  const HEALTHY_SESSION: int := 30 * SECOND

  /** A random draw from [0, 1). */
  type Draw = r: real | 0.0 <= r < 1.0

  function Jitter(d: int, draw: Draw): int {
    (d as real * (0.5 + draw / 2.0)).Floor
  }

  lemma JitterKeepsHalf(d: int, draw: Draw)
    requires 0 < d
    ensures d / 2 <= Jitter(d, draw) < d
  {
    var share: real := 0.5 + draw / 2.0;
    assert 0.5 <= share < 1.0;
    Scaled(d as real, share);
    assert (d / 2) as real <= d as real * 0.5;
  }

  /** The delay grows with the draw, and every whole delay from half the window up to the window can be drawn. */
  lemma JitterSpreads(d: int, a: Draw, b: Draw, m: int)
    requires 0 < d && d / 2 <= m < d
    ensures a <= b ==> Jitter(d, a) <= Jitter(d, b)
    ensures exists draw: Draw :: Jitter(d, draw) == m
  {
    var x := d as real;
    if a <= b {
      assert x * (0.5 + a / 2.0) <= x * (0.5 + b / 2.0);
    }
    if m as real <= x * 0.5 {
      assert x * (0.5 + 0.0 / 2.0) == x * 0.5;
      assert (x * 0.5).Floor == m;
      var draw: Draw := 0.0;
      assert Jitter(d, draw) == m;
    } else {
      var share := m as real / x;
      assert share * x == m as real;
      ShareBounds(m as real, x, share);
      var draw: Draw := 2.0 * (share - 0.5);
      assert 0.5 + draw / 2.0 == share;
      assert x * share == m as real;
      assert Jitter(d, draw) == m;
    }
  }

  lemma ShareBounds(m: real, x: real, share: real)
    requires 0.0 < x && share * x == m && x * 0.5 < m < x
    ensures 0.5 < share < 1.0
  {
    assert (share - 0.5) * x == m - x * 0.5 && (1.0 - share) * x == x - m;
    if share - 0.5 <= 0.0 {
      NotPositive(share - 0.5, x);
    }
    if 1.0 - share <= 0.0 {
      NotPositive(1.0 - share, x);
    }
  }

  lemma NotPositive(a: real, x: real)
    requires a <= 0.0 && 0.0 < x
    ensures a * x <= 0.0
  {}

  lemma Scaled(x: real, share: real)
    requires 0.0 < x && 0.5 <= share < 1.0
    ensures x * 0.5 <= x * share < x
  {
    assert x * (share - 0.5) >= 0.0;
    assert x * (1.0 - share) > 0.0;
  }

  /** What the surroundings do to one attempt: how long it takes, when in it the tunnel comes up if it does,
      the error it ends with, the draw for its delay, and how late the timer fires. */
  datatype Attempt = Attempt(lasts: nat, connectsAfter: Option<nat>, link: Link, error: Option<Bytes>, draw: Draw,
                             late: nat)
  {
    predicate Healthy() {
      lasts >= HEALTHY_SESSION
    }
  }

  function Doubled(backoff: int): int {
    if backoff < MAX_BACKOFF then Min(backoff * 2, MAX_BACKOFF) else backoff
  }

  /** The window the i-th delay is drawn from. */
  function Base(attempts: seq<Attempt>, i: nat): int
    requires i < |attempts|
  {
    if attempts[i].Healthy() || i == 0 then MIN_BACKOFF else Doubled(Base(attempts, i - 1))
  }

  function Delay(attempts: seq<Attempt>, i: nat): int
    requires i < |attempts|
  {
    Jitter(Base(attempts, i), attempts[i].draw)
  }

  function StartOf(attempts: seq<Attempt>, t0: Time, i: nat): Time
    requires i <= |attempts|
  {
    if i == 0 then t0
    else StartOf(attempts, t0, i - 1) + attempts[i - 1].lasts + Delay(attempts, i - 1) + attempts[i - 1].late
  }

  /** The i-th delay is drawn when the attempt ends, and the next attempt is announced for that long after. */
  function RetryAt(attempts: seq<Attempt>, t0: Time, i: nat): Time
    requires i < |attempts|
  {
    StartOf(attempts, t0, i) + attempts[i].lasts + Delay(attempts, i)
  }

  /** Runs until the script of attempts is used up, at which point the process is told to stop. */
  method SuperviseSessions(st: AgentState, attempts: seq<Attempt>, t0: Time)
    requires st.Valid() && st.calls == []
    modifies st
    ensures st.Valid() && st.startedAt == old(st.startedAt) && st.calls == Calls(attempts, t0, |attempts|)
  {
    var backoff, now := MIN_BACKOFF, t0;
    var i := 0;
    while i < |attempts|
      invariant i <= |attempts| && now == StartOf(attempts, t0, i)
      invariant backoff == if i == 0 then MIN_BACKOFF else Doubled(Base(attempts, i - 1))
      invariant st.Valid() && st.startedAt == old(st.startedAt) && st.calls == Calls(attempts, t0, i)
    {
      now, backoff := OneTurn(st, attempts[i], now, backoff);
      i := i + 1;
    }
  }

  /** The calls of an attempt up to its end. */
  function Opening(a: Attempt, start: Time): seq<Call> {
    [Connecting(start)] + if a.connectsAfter.Some? then [Connected(a.link, start + a.connectsAfter.value)] else []
  }

  /** Everything the agent's state is told in the first n attempts. */
  function Calls(attempts: seq<Attempt>, t0: Time, n: nat): seq<Call>
    requires n <= |attempts|
  {
    if n == 0 then []
    else
      var a, start := attempts[n - 1], StartOf(attempts, t0, n - 1);
      Calls(attempts, t0, n - 1) + Opening(a, start)
      + [Disconnected(a.error, Some(RetryAt(attempts, t0, n - 1)), start + a.lasts)]
  }

  /** One turn of the loop: an attempt, the report of its end, and the wait for the next. */
  method OneTurn(st: AgentState, a: Attempt, start: Time, backoff0: int) returns (now: Time, backoff: int)
    requires st.Valid()
    modifies st
    ensures var window := if a.Healthy() then MIN_BACKOFF else backoff0;
            var delay := Jitter(window, a.draw);
            && now == start + a.lasts + delay + a.late && backoff == Doubled(window)
            && st.calls == old(st.calls) + Opening(a, start)
                           + [Disconnected(a.error, Some(start + a.lasts + delay), start + a.lasts)]
    ensures st.Valid() && st.startedAt == old(st.startedAt)
  {
    Attempting(st, a, start);
    backoff := backoff0;
    if a.lasts >= HEALTHY_SESSION {
      backoff := MIN_BACKOFF;
    }
    var delay := Jitter(backoff, a.draw);
    now := start + a.lasts;
    st.MarkDisconnected(a.error, Some(now + delay), now);
    now := now + delay + a.late;
    if backoff < MAX_BACKOFF {
      backoff := Min(backoff * 2, MAX_BACKOFF);
    }
  }

  /** One session: the attempt is marked, and the tunnel too if it comes up. */
  method Attempting(st: AgentState, a: Attempt, now: Time)
    requires st.Valid()
    modifies st
    ensures st.Valid() && st.startedAt == old(st.startedAt) && st.calls == old(st.calls) + Opening(a, now)
  {
    st.MarkConnecting(now);
    if a.connectsAfter.Some? {
      st.MarkConnected(a.link, now + a.connectsAfter.value);
    }
  }

  /** The supervisor keeps the order the status relies on, and each attempt ends announcing the next. */
  lemma {:induction false} SupervisedCallsAreOrderly(attempts: seq<Attempt>, t0: Time, n: nat)
    requires n <= |attempts|
    ensures Orderly(Calls(attempts, t0, n))
    ensures n == 0 ==> Calls(attempts, t0, n) == []
    ensures n > 0 ==> Calls(attempts, t0, n) != [] && Last(Calls(attempts, t0, n)).Disconnected?
                      && Last(Calls(attempts, t0, n)).nextRetry == Some(RetryAt(attempts, t0, n - 1))
  {
    if n == 0 {
    } else {
      SupervisedCallsAreOrderly(attempts, t0, n - 1);
      var a, start := attempts[n - 1], StartOf(attempts, t0, n - 1);
      var before := Calls(attempts, t0, n - 1);
      var end := Disconnected(a.error, Some(RetryAt(attempts, t0, n - 1)), start + a.lasts);
      OpeningIsOrderly(before, a, start);
      OrderlyAppends(before + Opening(a, start), end);
    }
  }

  lemma OpeningIsOrderly(before: seq<Call>, a: Attempt, start: Time)
    requires Orderly(before) && (before == [] || Last(before).Disconnected?)
    ensures Orderly(before + Opening(a, start)) && !Last(before + Opening(a, start)).Disconnected?
  {
    OrderlyAppends(before, Connecting(start));
    if a.connectsAfter.Some? {
      var c := Connected(a.link, start + a.connectsAfter.value);
      OrderlyAppends(before + [Connecting(start)], c);
      assert before + Opening(a, start) == before + [Connecting(start)] + [c];
    }
  }

  /** At the end of every attempt, and in the middle of every attempt, the reported status is the true one:
      offline until RetryAt between attempts; connected exactly when the running attempt's tunnel is up. */
  lemma SupervisedStatus(attempts: seq<Attempt>, t0: Time, startedAt: Time, n: nat)
    requires n < |attempts|
    ensures var between := After(Initial(startedAt), Calls(attempts, t0, n + 1));
            !between.connected && !between.connecting && between.link.None?
            && between.nextRetry == Some(RetryAt(attempts, t0, n))
    ensures var a := attempts[n];
            var during := After(Initial(startedAt), Calls(attempts, t0, n) + Opening(a, StartOf(attempts, t0, n)));
            && (during.connected <==> a.connectsAfter.Some?) && (during.connecting <==> a.connectsAfter.None?)
            && during.nextRetry.None? && (during.link == if a.connectsAfter.Some? then Some(a.link) else None)
  {
    var start := StartOf(attempts, t0, n);
    var before, opening := Calls(attempts, t0, n), Opening(attempts[n], start);
    SupervisedCallsAreOrderly(attempts, t0, n);
    SupervisedCallsAreOrderly(attempts, t0, n + 1);
    OpeningIsOrderly(before, attempts[n], start);
    StatusIsTruthful(startedAt, before + opening);
    StatusIsTruthful(startedAt, Calls(attempts, t0, n + 1));
  }

  // ---- Backoff ---------------------------------------------------------------------------------------

  function Pow2(n: nat): nat {
    if n == 0 then 1 else 2 * Pow2(n - 1)
  }

  /** The number of attempts since the last healthy one up to i, or since the start. */
  function Streak(attempts: seq<Attempt>, i: nat): nat
    requires i < |attempts|
  {
    if attempts[i].Healthy() || i == 0 then 0 else 1 + Streak(attempts, i - 1)
  }

  /** The window doubles from one second to thirty, and only a healthy session takes it back. */
  lemma {:induction false} BaseDoublesToTheCeiling(attempts: seq<Attempt>, i: nat)
    requires i < |attempts|
    ensures Base(attempts, i) == Min(Pow2(Streak(attempts, i)), 30) * SECOND
    ensures MIN_BACKOFF <= Base(attempts, i) <= MAX_BACKOFF
    ensures Pow2(Streak(attempts, i)) >= 1
  {
    if attempts[i].Healthy() || i == 0 {
    } else {
      BaseDoublesToTheCeiling(attempts, i - 1);
    }
  }

  /** After n short attempts from the start the window is min(2^(n-1), 30) seconds. */
  lemma {:induction false} ShortAttemptsFromTheStart(attempts: seq<Attempt>, n: nat)
    requires 0 < n <= |attempts| && forall i :: 0 <= i < n ==> !attempts[i].Healthy()
    ensures Base(attempts, n - 1) == Min(Pow2(n - 1), 30) * SECOND
  {
    StreakFromTheStart(attempts, n - 1);
    BaseDoublesToTheCeiling(attempts, n - 1);
  }

  lemma {:induction false} StreakFromTheStart(attempts: seq<Attempt>, i: nat)
    requires i < |attempts| && forall j :: 0 <= j <= i ==> !attempts[j].Healthy()
    ensures Streak(attempts, i) == i
  {
    if i == 0 {
    } else {
      StreakFromTheStart(attempts, i - 1);
    }
  }

  /** The wait after an attempt is drawn from its window: at least half of it, and less than it; the next attempt
      starts when the announced wait is over, and only as late as the timer. */
  lemma WaitsAreDrawnFromTheWindow(attempts: seq<Attempt>, t0: Time, i: nat)
    requires i < |attempts|
    ensures var end := StartOf(attempts, t0, i) + attempts[i].lasts;
            && Base(attempts, i) / 2 <= RetryAt(attempts, t0, i) - end < Base(attempts, i)
            && StartOf(attempts, t0, i + 1) == RetryAt(attempts, t0, i) + attempts[i].late
    ensures StartOf(attempts, t0, 0) == t0
  {
    BaseDoublesToTheCeiling(attempts, i);
    JitterKeepsHalf(Base(attempts, i), attempts[i].draw);
  }

  /** Starts are at least half a second apart. */
  lemma {:induction false} StartsAreSpaced(attempts: seq<Attempt>, t0: Time, i: nat, j: nat)
    requires i <= j <= |attempts|
    ensures 2 * (StartOf(attempts, t0, j) - StartOf(attempts, t0, i)) >= (j - i) * SECOND
  {
    if i == j {
    } else {
      StartsAreSpaced(attempts, t0, i, j - 1);
      BaseDoublesToTheCeiling(attempts, j - 1);
      JitterKeepsHalf(Base(attempts, j - 1), attempts[j - 1].draw);
    }
  }

  /** Any window of `seconds` holds at most 2 * seconds + 1 attempts. */
  lemma AttemptsInAWindow(attempts: seq<Attempt>, t0: Time, i: nat, j: nat, seconds: nat)
    requires i <= j < |attempts| && StartOf(attempts, t0, j) - StartOf(attempts, t0, i) <= seconds * SECOND
    ensures j - i + 1 <= 2 * seconds + 1
  {
    StartsAreSpaced(attempts, t0, i, j);
  }
}
