/**
 * Backends and their pool: the circuit breaker, the two-tier selector and the adaptive threshold.
 * Scores are reals; a time is a number of nanoseconds.
 */
module ServerPool {
  import opened Options

  const COOLDOWN := 2_000_000_000
  const FAILURE_LIMIT := 5
  const PROBE_LIMIT := 3

  /** The largest finite float64, the selector's initial best score. */
  const MAX_FLOAT64: real :=
    179769313486231570814527423731704356798070567525844996598917476803157260780028538760589558632766878171540458953514382464234321326889464182768467546703537516986049910576551282076245490090389328944075868508455133942304583236903222948165808559332123348274797826204144723168738177180919299881250404026184124858368.0

  function Power2(n: nat): nat {
    if n == 0 then 1 else 2 * Power2(n - 1)
  }

  lemma {:induction false} PowerSum(m: nat, n: nat)
    ensures Power2(m + n) == Power2(m) * Power2(n)
    decreases m
  {
    if m > 0 {
      PowerSum(m - 1, n);
      assert 2 * (Power2(m - 1) * Power2(n)) == (2 * Power2(m - 1)) * Power2(n);
    }
  }

  lemma SmallPowers()
    ensures Power2(1) == 2 && Power2(3) == 8 && Power2(10) == 1024
  {
    assert Power2(3) == 8 && Power2(5) == 32;
    PowerSum(5, 5);
  }

  /** The sentinel is a full 53-bit significand times the largest power of two. */
  lemma SentinelIsMaxFloat()
    ensures MAX_FLOAT64 == ((Power2(53) - 1) * Power2(971)) as real
  {
    hide Power2;
    SmallPowers();
    PowerSum(10, 10);
    PowerSum(20, 20);
    PowerSum(40, 10);
    PowerSum(50, 3);
    PowerSum(40, 40);
    PowerSum(80, 40);
    PowerSum(120, 120);
    PowerSum(240, 240);
    PowerSum(480, 480);
    PowerSum(960, 10);
    PowerSum(970, 1);
    assert Power2(53) == 9007199254740992;
    assert Power2(480) ==
      3121748550315992231381597229793166305748598142664971150859156959625371738819765620120306103063491971159826931121406622895447975679288285306290176;
    assert Power2(971) ==
      19958403095347198116563727130368385660674512604354575415025472424372118918689640657849579654926357010893424468441924952439724379883935936607391717982848314203200056729510856765175377214443629871826533567445439239933308104551208703888888552684480441575071209068757560416423584952303440099278848;
  }

  // ---- The circuit breaker as a function of the event log -------------------------------------------

  datatype Event =
    | Failed(at: int)    // RecordFailure
    | Probed(at: int)    // SetAlive(false)
    | Recovered          // RecordSuccess, SetAlive(true)

  datatype Circuit = Circuit(alive: bool, fails: nat, cooldownUntil: Option<int>)

  function Limit(e: Event): nat {
    if e.Failed? then FAILURE_LIMIT else PROBE_LIMIT
  }

  function After(c: Circuit, e: Event): Circuit {
    if e.Recovered? then Circuit(true, 0, None)
    else if c.fails + 1 >= Limit(e) then Circuit(false, c.fails + 1, Some(e.at + COOLDOWN))
    else Circuit(c.alive, c.fails + 1, c.cooldownUntil)
  }

  /** A backend is registered alive. */
  function History(log: seq<Event>): Circuit {
    if log == [] then Circuit(true, 0, None) else After(History(log[..|log| - 1]), log[|log| - 1])
  }

  /** The events since the last recovery. */
  function Streak(log: seq<Event>): seq<Event> {
    if log == [] || log[|log| - 1].Recovered? then [] else Streak(log[..|log| - 1]) + [log[|log| - 1]]
  }

  /** The event is the k-th bad one in a row and its kind trips the breaker by then. */
  predicate Trips(streak: seq<Event>, k: nat)
    requires k < |streak|
  {
    if streak[k].Failed? then k + 1 >= 5 else k + 1 >= 3
  }

  /** The streak is the end of the log from just behind its last recovery. */
  lemma {:induction false} StreakMeaning(log: seq<Event>) returns (m: nat)
    ensures m <= |log| && Streak(log) == log[m..]
    ensures (m > 0 ==> log[m - 1].Recovered?) && forall k :: m <= k < |log| ==> !log[k].Recovered?
  {
    if log == [] || log[|log| - 1].Recovered? {
      m := |log|;
    } else {
      m := StreakMeaning(log[..|log| - 1]);
      assert log[..|log| - 1][m..] + [log[|log| - 1]] == log[m..];
    }
  }

  /**
   * After any run of failures, probes and recoveries, the breaker is open exactly when some event
   * since the last recovery reached the limit of its kind, and it cools down from the last such one.
   */
  lemma {:induction false} BreakerMeaning(log: seq<Event>)
    ensures History(log).fails == |Streak(log)|
    ensures History(log).alive <==> forall k :: 0 <= k < |Streak(log)| ==> !Trips(Streak(log), k)
    ensures History(log).alive <==> History(log).cooldownUntil == None
    ensures !History(log).alive ==>
              exists k :: 0 <= k < |Streak(log)| && Trips(Streak(log), k)
                          && (forall j :: k < j < |Streak(log)| ==> !Trips(Streak(log), j))
                          && !Streak(log)[k].Recovered?
                          && History(log).cooldownUntil == Some(Streak(log)[k].at + 2_000_000_000)
  {
    if log != [] && !log[|log| - 1].Recovered? {
      var init, e := log[..|log| - 1], log[|log| - 1];
      BreakerMeaning(init);
      var before, after := Streak(init), Streak(log);
      assert forall k :: 0 <= k < |before| ==> Trips(after, k) == Trips(before, k);
      if |before| + 1 >= Limit(e) {
        assert Trips(after, |before|);
      } else if !History(init).alive {
        var k :| 0 <= k < |before| && Trips(before, k) && !before[k].Recovered?
                 && History(init).cooldownUntil == Some(before[k].at + 2_000_000_000);
        assert Trips(after, k);
      }
    }
  }

  /** Five bad events in a row always open the breaker and two never do. */
  lemma BreakerBounds(log: seq<Event>)
    ensures |Streak(log)| >= 5 ==> !History(log).alive
    ensures |Streak(log)| <= 2 ==> History(log).alive
  {
    BreakerMeaning(log);
    if |Streak(log)| >= 5 {
      assert Trips(Streak(log), 4);
    }
  }

  /** What a health request came back with. */
  datatype Answer = Down | Garbled | Healthy(score: real)

  class Backend {
    var alive: bool
    var consecutiveFail: nat
    var cooldownUntil: Option<int>
    var loadScore: real
    var activeInFlight: int

    constructor()
      ensures Breaker() == History([]) && loadScore == 0.0 && activeInFlight == 0
    {
      alive, consecutiveFail, cooldownUntil, loadScore, activeInFlight := true, 0, None, 0.0, 0;
    }

    function Breaker(): Circuit
      reads this
    {
      Circuit(alive, consecutiveFail, cooldownUntil)
    }

    method RecordFailure(now: int)
      modifies `alive, `consecutiveFail, `cooldownUntil
      ensures Breaker() == After(old(Breaker()), Failed(now))
    {
      consecutiveFail := consecutiveFail + 1;
      if consecutiveFail >= 5 {
        alive := false;
        cooldownUntil := Some(now + COOLDOWN);
      }
    }

    method RecordSuccess()
      modifies `alive, `consecutiveFail, `cooldownUntil
      ensures Breaker() == After(old(Breaker()), Recovered)
    {
      consecutiveFail := 0;
      alive := true;
      cooldownUntil := None;
    }

    method SetAlive(up: bool, now: int)
      modifies `alive, `consecutiveFail, `cooldownUntil
      ensures Breaker() == After(old(Breaker()), if up then Recovered else Probed(now))
    {
      if !up {
        consecutiveFail := consecutiveFail + 1;
        if consecutiveFail >= 3 {
          alive := false;
          cooldownUntil := Some(now + COOLDOWN);
        }
      } else {
        consecutiveFail := 0;
        alive := true;
        cooldownUntil := None;
      }
    }

    method UpdateHealth(score: real)
      modifies `loadScore
      ensures loadScore == score
    {
      loadScore := score;
    }

    /** One health check of the backend; an answer that does not decode changes nothing. */
    method Probe(answer: Answer, now: int)
      modifies `alive, `consecutiveFail, `cooldownUntil, `loadScore
      ensures Breaker() == match answer
                           case Down => After(old(Breaker()), Probed(now))
                           case Garbled => old(Breaker())
                           case Healthy(_) => After(old(Breaker()), Recovered)
      ensures loadScore == if answer.Healthy? then answer.score else old(loadScore)
    {
      if answer.Down? {
        SetAlive(false, now);
      } else if answer.Healthy? {
        SetAlive(true, now);
        UpdateHealth(answer.score);
      }
    }

    predicate IsAvailable(now: int)
      reads this
    {
      alive || (cooldownUntil.Some? && now > cooldownUntil.value)
    }

    function EffectiveScore(): real
      reads this
    {
      if !alive then MAX_FLOAT64 else loadScore + (activeInFlight as real) * 1.5
    }
  }

  /** A backend is available unless its breaker is open and its last trip is at most two seconds ago. */
  lemma AvailabilityMeaning(b: Backend, log: seq<Event>, now: int)
    requires b.Breaker() == History(log)
    ensures b.IsAvailable(now) <==>
            (forall k :: 0 <= k < |Streak(log)| ==> !Trips(Streak(log), k))
            || exists k :: 0 <= k < |Streak(log)| && Trips(Streak(log), k) && !Streak(log)[k].Recovered?
                           && (forall j :: k < j < |Streak(log)| ==> !Trips(Streak(log), j))
                           && now > Streak(log)[k].at + 2_000_000_000
  {
    BreakerMeaning(log);
  }

  // ---- The selector ----------------------------------------------------------------------------------

  /** A backend the selector can prefer: alive, with a score below the sentinel. */
  predicate Eligible(b: Backend)
    reads b
  {
    b.alive && b.EffectiveScore() < MAX_FLOAT64
  }

  /** The first eligible backend of least score; neither threshold nor cooldown nor time occurs. */
  ghost predicate FirstBest(backends: seq<Backend>, i: nat)
    reads backends
  {
    && i < |backends| && Eligible(backends[i])
    && (forall j :: 0 <= j < |backends| && Eligible(backends[j]) ==>
          backends[i].EffectiveScore() <= backends[j].EffectiveScore())
    && (forall j :: 0 <= j < i && Eligible(backends[j]) ==>
          backends[i].EffectiveScore() < backends[j].EffectiveScore())
  }

  /** What one tier of the loop has found among the first `n` backends. */
  ghost predicate TierBest(backends: seq<Backend>, n: nat, low: bool, threshold: real, best: Backend?, score: real, i: nat)
    requires n <= |backends|
    reads backends
  {
    if best == null then
      score == MAX_FLOAT64 && forall j :: 0 <= j < n && InTier(backends[j], low, threshold) ==> !Eligible(backends[j])
    else
      && i < n && best == backends[i] && Eligible(best) && InTier(best, low, threshold) && score == best.EffectiveScore()
      && (forall j :: 0 <= j < n && InTier(backends[j], low, threshold) && Eligible(backends[j]) ==>
            score <= backends[j].EffectiveScore())
      && (forall j :: 0 <= j < i && InTier(backends[j], low, threshold) && Eligible(backends[j]) ==>
            score < backends[j].EffectiveScore())
  }

  predicate InTier(b: Backend, low: bool, threshold: real)
    reads b
  {
    (b.EffectiveScore() <= threshold) == low
  }

  /** Load score plus one and a half per request in flight. */
  function Load(b: Backend): real
    reads b
  {
    b.loadScore + 1.5 * b.activeInFlight as real
  }

  /** An alive backend with the least load of all alive ones, and the first with that load. */
  ghost predicate FirstLeastLoaded(backends: seq<Backend>, i: nat)
    reads backends
  {
    && i < |backends| && backends[i].alive
    && (forall j :: 0 <= j < |backends| && backends[j].alive ==>
          backends[i].loadScore + 1.5 * backends[i].activeInFlight as real
          <= backends[j].loadScore + 1.5 * backends[j].activeInFlight as real)
    && (forall j :: 0 <= j < i && backends[j].alive ==>
          backends[i].loadScore + 1.5 * backends[i].activeInFlight as real
          < backends[j].loadScore + 1.5 * backends[j].activeInFlight as real)
  }

  lemma BestIsLeastLoaded(backends: seq<Backend>, i: nat)
    requires FirstBest(backends, i)
    ensures FirstLeastLoaded(backends, i)
  {
    forall j | 0 <= j < |backends| && backends[j].alive
      ensures Load(backends[i]) <= Load(backends[j]) && (j < i ==> Load(backends[i]) < Load(backends[j]))
    {
      assert Load(backends[j]) == backends[j].EffectiveScore();
      assert Load(backends[j]) < MAX_FLOAT64 ==> Eligible(backends[j]);
    }
  }

  /** Nobody alive has a lower load score and no more in flight than the least loaded backend. */
  lemma NobodyIsBetter(backends: seq<Backend>, i: nat, j: nat)
    requires FirstLeastLoaded(backends, i) && j < |backends| && backends[j].alive
    ensures backends[j].loadScore < backends[i].loadScore ==> backends[j].activeInFlight > backends[i].activeInFlight
    ensures backends[j].activeInFlight < backends[i].activeInFlight ==> backends[j].loadScore > backends[i].loadScore
  {}

  lemma FirstBestUnique(backends: seq<Backend>, i: nat, j: nat)
    requires FirstBest(backends, i) && FirstBest(backends, j)
    ensures i == j
  {}

  // ---- The threshold --------------------------------------------------------------------------------

  predicate IsCounted(b: Backend)
    reads b
  {
    b.alive && b.loadScore > 0.0
  }

  /** The load scores that the average is taken over. */
  function Counted(backends: seq<Backend>): (scores: seq<real>)
    reads backends
    ensures forall k :: 0 <= k < |scores| ==> scores[k] > 0.0
  {
    if backends == [] then []
    else
      var b := backends[|backends| - 1];
      Counted(backends[..|backends| - 1]) + if IsCounted(b) then [b.loadScore] else []
  }

  function Sum(scores: seq<real>): real {
    if scores == [] then 0.0 else Sum(scores[..|scores| - 1]) + scores[|scores| - 1]
  }

  /** How many scores exceed the threshold. */
  function Above(scores: seq<real>, threshold: real): nat {
    if scores == [] then 0
    else Above(scores[..|scores| - 1], threshold) + if scores[|scores| - 1] > threshold then 1 else 0
  }

  /** Every score above the threshold contributes more than the threshold to the sum. */
  lemma {:induction false} AboveBound(scores: seq<real>, threshold: real)
    requires threshold >= 0.0 && forall k :: 0 <= k < |scores| ==> scores[k] > 0.0
    ensures Above(scores, threshold) <= |scores|
    ensures Above(scores, threshold) as real * threshold <= Sum(scores)
    ensures Above(scores, threshold) > 0 ==> Above(scores, threshold) as real * threshold < Sum(scores)
  {
    if scores != [] {
      var init, last := scores[..|scores| - 1], scores[|scores| - 1];
      AboveBound(init, threshold);
      OneMore(Above(init, threshold), threshold, Sum(init), last);
    }
  }

  lemma OneMore(n: nat, threshold: real, sum: real, last: real)
    requires n as real * threshold <= sum && (n > 0 ==> n as real * threshold < sum)
    ensures last > threshold ==> (n + 1) as real * threshold < sum + last
    ensures 0.0 < last ==> n as real * threshold < sum + last
  {
    var m := n as real;
    assert (n + 1) as real == m + 1.0;
    assert (m + 1.0) * threshold == m * threshold + threshold;
  }

  /** Some score is at most the average. */
  lemma {:induction false} LeastBelowAverage(scores: seq<real>, m: real)
    requires forall k :: 0 <= k < |scores| ==> scores[k] >= m
    ensures |scores| as real * m <= Sum(scores)
  {
    if scores != [] {
      var init := scores[..|scores| - 1];
      LeastBelowAverage(init, m);
      assert |scores| as real == |init| as real + 1.0;
      assert |scores| as real * m == |init| as real * m + m;
    }
  }

  function Clamp(x: real): real {
    if x < 30.0 then 30.0 else if x > 90.0 then 90.0 else x
  }

  /** The adapted threshold: one and a half times the average, kept within 30 and 90. */
  function Adapted(scores: seq<real>): real
    requires scores != []
  {
    Clamp(Sum(scores) / (|scores| as real) * 1.5)
  }

  /** The counted scores are those of the alive backends with a positive load score, each once and in order. */
  lemma {:induction false} CountedMeaning(backends: seq<Backend>) returns (at: seq<nat>)
    ensures |at| == |Counted(backends)| && forall k, m :: 0 <= k < m < |at| ==> at[k] < at[m]
    ensures forall k :: 0 <= k < |at| ==> at[k] < |backends| && Counted(backends)[k] == backends[at[k]].loadScore
    ensures forall i :: 0 <= i < |backends| ==> (i in at <==> backends[i].alive && backends[i].loadScore > 0.0)
  {
    at := [];
    if backends != [] {
      var n := |backends| - 1;
      at := CountedMeaning(backends[..n]);
      var before := at;
      if backends[n].alive && backends[n].loadScore > 0.0 {
        at := at + [n];
      }
      forall i | 0 <= i < |backends| ensures i in at <==> backends[i].alive && backends[i].loadScore > 0.0 {
        assert i < n ==> backends[..n][i] == backends[i] && (i in at <==> i in before);
        assert i == n ==> i !in before;
      }
    }
  }

  /**
   * `t` is the threshold for n scores of this sum: between 30 and 90, at the lower end when one and a
   * half times the average is at most 30, at the upper end when it is at least 90, and else equal to it.
   */
  predicate IsThreshold(n: real, sum: real, t: real) {
    && 30.0 <= t <= 90.0
    && (3.0 * sum <= 60.0 * n ==> t == 30.0)
    && (3.0 * sum >= 180.0 * n ==> t == 90.0)
    && (60.0 * n < 3.0 * sum < 180.0 * n ==> 2.0 * n * t == 3.0 * sum)
  }

  lemma AdaptedMeaning(scores: seq<real>)
    requires scores != []
    ensures IsThreshold(|scores| as real, Sum(scores), Adapted(scores))
  {
    AverageMeaning(|scores| as real, Sum(scores), Sum(scores) / (|scores| as real));
  }

  lemma AverageMeaning(n: real, sum: real, avg: real)
    requires n > 0.0 && avg == sum / n
    ensures 3.0 * sum <= 60.0 * n <==> avg * 1.5 <= 30.0
    ensures 3.0 * sum >= 180.0 * n <==> avg * 1.5 >= 90.0
    ensures 2.0 * n * (avg * 1.5) == 3.0 * sum
  {
    assert n * avg == sum;
    Scale(n, avg, 20.0);
    Scale(n, avg, 60.0);
  }

  lemma Scale(n: real, a: real, b: real)
    requires n > 0.0
    ensures n * a <= n * b <==> a <= b
    ensures n * a >= n * b <==> a >= b
  {
    if a < b { assert n * (b - a) > 0.0; }
    if a > b { assert n * (a - b) > 0.0; }
  }

  /** A score that is least, and at most 90, never exceeds the adapted threshold. */
  lemma LeastIsWithin(scores: seq<real>, m: real)
    requires scores != [] && m <= 90.0 && m > 0.0 && forall k :: 0 <= k < |scores| ==> scores[k] >= m
    ensures m <= Adapted(scores)
  {
    LeastBelowAverage(scores, m);
    var n := |scores| as real;
    DivideBound(m, n, Sum(scores));
  }

  lemma DivideBound(m: real, n: real, sum: real)
    requires n > 0.0 && n * m <= sum
    ensures m <= sum / n
  {
    var q := sum / n;
    assert q * n == sum;
    assert (q - m) * n >= 0.0;
  }

  /** Unless the cap of 90 cuts in, fewer than two thirds of the scores exceed the adapted threshold. */
  lemma FewExceed(scores: seq<real>)
    requires scores != [] && forall k :: 0 <= k < |scores| ==> scores[k] > 0.0
    requires Sum(scores) / (|scores| as real) * 1.5 <= 90.0
    ensures 3 * Above(scores, Adapted(scores)) < 2 * |scores|
  {
    var t, n := Adapted(scores), |scores| as real;
    var k := Above(scores, t);
    AboveBound(scores, t);
    if k > 0 {
      Markov(k as real, n, t, Sum(scores));
    }
  }

  lemma Markov(k: real, n: real, t: real, sum: real)
    requires k > 0.0 && n > 0.0 && t > 0.0 && k * t < sum && sum / n * 1.5 <= t
    ensures 3.0 * k < 2.0 * n
  {
    assert sum / n * n == sum;
    assert sum * 1.5 <= t * n;
    assert k * t * 1.5 < t * n;
    assert t * (1.5 * k) < t * n;
  }

  /** When the cap cuts in, every score may exceed the threshold. */
  lemma AllMayExceed()
    ensures Adapted([100.0]) == 90.0 && Above([100.0], Adapted([100.0])) == 1
  {
    assert [100.0][..0] == [];
    assert Sum([100.0]) == 100.0;
  }

  class ServerPool {
    const backends: seq<Backend>
    var threshold: real

    constructor(backends: seq<Backend>, threshold: real)
      ensures this.backends == backends && this.threshold == threshold
    {
      this.backends, this.threshold := backends, threshold;
    }

    /** The fallback takes any backend, as a random index does. */
    method SelectBest(now: int) returns (chosen: Backend?)
      ensures chosen == null <==> backends == []
      ensures chosen != null ==> chosen in backends
      ensures (exists i :: 0 <= i < |backends| && Eligible(backends[i])) ==>
                exists i :: 0 <= i < |backends| && FirstBest(backends, i) && chosen == backends[i]
      ensures (exists i :: 0 <= i < |backends| && backends[i].alive && Load(backends[i]) < MAX_FLOAT64) ==>
                && chosen != null && chosen.alive
                && (exists i :: 0 <= i < |backends| && chosen == backends[i] && FirstLeastLoaded(backends, i))
                && forall b :: b in backends && b.alive ==>
                     chosen.loadScore + 1.5 * chosen.activeInFlight as real <= b.loadScore + 1.5 * b.activeInFlight as real
    {
      var best: Backend?, bestScore := null, MAX_FLOAT64;
      var overloaded: Backend?, overloadedScore := null, MAX_FLOAT64;
      ghost var bi: nat, oi: nat := 0, 0;
      for n := 0 to |backends|
        invariant TierBest(backends, n, true, threshold, best, bestScore, bi)
        invariant TierBest(backends, n, false, threshold, overloaded, overloadedScore, oi)
      {
        var b := backends[n];
        if !b.IsAvailable(now) {
          continue;
        }
        var score := b.EffectiveScore();
        if score <= threshold {
          if score < bestScore {
            bestScore, best, bi := score, b, n;
          }
        } else {
          if score < overloadedScore {
            overloadedScore, overloaded, oi := score, b, n;
          }
        }
      }
      if best != null {
        assert FirstBest(backends, bi);
        BestIsLeastLoaded(backends, bi);
        return best;
      }
      if overloaded != null {
        assert FirstBest(backends, oi);
        BestIsLeastLoaded(backends, oi);
        return overloaded;
      }
      assert forall i :: 0 <= i < |backends| ==> !Eligible(backends[i]);
      if |backends| > 0 {
        var k :| 0 <= k < |backends|;
        return backends[k];
      }
      return null;
    }

    /** Without a counted backend the threshold stays. */
    method AdaptThreshold()
      modifies `threshold
      ensures threshold == if Counted(backends) == [] then old(threshold) else Adapted(Counted(backends))
      ensures Counted(backends) != [] ==>
                IsThreshold(|Counted(backends)| as real, Sum(Counted(backends)), threshold)
    {
      hide Adapted, Sum, IsThreshold;
      var scores: seq<real> := [];
      for n := 0 to |backends|
        invariant scores == Counted(backends[..n])
        invariant threshold == old(threshold)
      {
        assert backends[..n + 1][..n] == backends[..n];
        var b := backends[n];
        if b.alive && b.loadScore > 0.0 {
          scores := scores + [b.loadScore];
        }
      }
      assert backends[..|backends|] == backends;
      if |scores| == 0 {
        return;
      }
      threshold := Averaged(scores);
      AdaptedMeaning(scores);
    }
  }

  /** One and a half times the average of the scores, kept between 30 and 90. */
  method Averaged(scores: seq<real>) returns (newThreshold: real)
    requires scores != []
    ensures newThreshold == Adapted(scores)
  {
    var sum := 0.0;
    for n := 0 to |scores|
      invariant sum == Sum(scores[..n])
    {
      assert scores[..n + 1][..n] == scores[..n];
      sum := sum + scores[n];
    }
    assert scores[..|scores|] == scores;
    var avg := sum / (|scores| as real);
    newThreshold := avg * 1.5;
    if newThreshold < 30.0 {
      newThreshold := 30.0;
    }
    if newThreshold > 90.0 {
      newThreshold := 90.0;
    }
  }

  /** Two pools over the same backends choose alike, whatever their thresholds and the time of the call. */
  method ThresholdIsIgnored(a: ServerPool, b: ServerPool, now: int, later: int) returns (x: Backend?, y: Backend?)
    requires a.backends == b.backends
    requires exists i :: 0 <= i < |a.backends| && Eligible(a.backends[i])
    ensures x == y && x != null && Eligible(x)
  {
    x := a.SelectBest(now);
    y := b.SelectBest(later);
    ghost var i :| 0 <= i < |a.backends| && FirstBest(a.backends, i) && x == a.backends[i];
    ghost var j :| 0 <= j < |a.backends| && FirstBest(a.backends, j) && y == a.backends[j];
    FirstBestUnique(a.backends, i, j);
  }
}
