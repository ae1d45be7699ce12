/**
  The idle-timeout search of one test run (src/nat_test.c, init_values,
  get_timeout_binary_search and the probe loop of nat_test_run_single).

  A run keeps an integer candidate interval `timeout` and a bracket
  `lower`/`upper`. While every probe is answered the interval grows by the
  protocol's multiplier (the growth phase); the first probe that goes
  unanswered switches the run, for good, to bisection of the bracket, which
  ends when `upper - lower == 1` and reports `lower`.

  Socket I/O is reduced to one abstract `Outcome` per loop iteration.
 */
module TimeoutSearch {
  import opened NatTypes

  const DEFAULT_UDP_INITIAL_TIMEOUT: int := 1
  const DEFAULT_TCP_INITIAL_TIMEOUT: int := 300

  type Positive = d: int | d > 0 witness 1

  /**
    A multiplier `num / den`. The source keeps it as a float; every finite
    float is a rational with a positive denominator.
   */
  datatype Ratio = Ratio(num: int, den: Positive)

  const DEFAULT_UDP_TIMEOUT_MULTIPLIER: Ratio := Ratio(2, 1)
  const DEFAULT_TCP_TIMEOUT_MULTIPLIER: Ratio := Ratio(3, 2)

  /** The four configuration globals the shell commands write. */
  datatype Config = Config(udpTimeout: int, tcpTimeout: int, udpMultiplier: Ratio, tcpMultiplier: Ratio)

  /** The values nat_test_init stores at boot. */
  const DefaultConfig: Config := Config(DEFAULT_UDP_INITIAL_TIMEOUT, DEFAULT_TCP_INITIAL_TIMEOUT,
                                        DEFAULT_UDP_TIMEOUT_MULTIPLIER, DEFAULT_TCP_TIMEOUT_MULTIPLIER)

  function InitialTimeout(c: Config, p: Protocol): int {
    if p == Udp then c.udpTimeout else c.tcpTimeout
  }

  function Multiplier(c: Config, p: Protocol): Ratio {
    if p == Udp then c.udpMultiplier else c.tcpMultiplier
  }

  /**
    The search state: struct test_thread_timeout together with the loop's
    local flag `using_binary_search`, here `bisecting`.
   */
  datatype Search = Search(timeout: int, multiplier: Ratio, lower: int, upper: int, bisecting: bool)

  /** init_values: a fresh bracket and the protocol's configured values. */
  function InitValues(c: Config, p: Protocol): (s: Search)
    ensures s.lower == 0 && s.upper == 0 && !s.bisecting
    ensures s.timeout == InitialTimeout(c, p) && s.multiplier == Multiplier(c, p)
  {
    match p
    case Udp => Search(c.udpTimeout, c.udpMultiplier, 0, 0, false)
    case Tcp => Search(c.tcpTimeout, c.tcpMultiplier, 0, 0, false)
  }

  /** C's integer division, which truncates toward zero. */
  function TruncDiv(a: int, b: Positive): (q: int)
    ensures a >= 0 ==> 0 <= a - q * b < b
    ensures a < 0 ==> -(b as int) < a - q * b <= 0
  {
    if a >= 0 then a / b else -((-a) / b)
  }

  /** `timeout *= multiplier`: the product is truncated back to an int. */
  function Grow(t: int, m: Ratio): (g: int)
    ensures t * m.num >= 0 ==> g * m.den <= t * m.num < (g + 1) * m.den
    ensures t * m.num < 0 ==> (g - 1) * m.den < t * m.num <= g * m.den
  {
    TruncDiv(t * m.num, m.den)
  }

  datatype Halving = Halving(finished: bool, next: Search)

  /** get_timeout_binary_search */
  function BinarySearchStep(s: Search, timedOut: bool): (h: Halving)
    ensures timedOut ==> h.next.upper == s.timeout && h.next.lower == s.lower
    ensures !timedOut ==> h.next.lower == s.timeout && h.next.upper == s.upper
    ensures h.next.multiplier == s.multiplier && h.next.bisecting == s.bisecting
    ensures h.finished <==> h.next.upper - h.next.lower == 1
    ensures h.finished ==> h.next.timeout == h.next.lower
    ensures h.next.upper - h.next.lower >= 2 ==> h.next.lower < h.next.timeout < h.next.upper
  {
    var moved := if timedOut then s.(upper := s.timeout) else s.(lower := s.timeout);
    if moved.upper - moved.lower == 1 then
      Halving(true, moved.(timeout := moved.lower))
    else
      Halving(false, moved.(timeout := moved.lower + TruncDiv(moved.upper - moved.lower, 2)))
  }

  /**
    What one iteration of the probe loop observed.
    - Reply: poll_and_read returned 1.
    - NoReply: poll_and_read returned 0 (no answer in time, or an abort seen
      while waiting).
    - ReadError: the loop took its `reconnect` exit; `relinked` is whether
      the following setup_connection succeeded.
    - SendError: send_data failed; the loop takes its `abort` exit.
    - Aborted: the abort check at the top of the loop fired.
   */
  datatype Outcome = Reply | NoReply | ReadError(relinked: bool) | SendError | Aborted

  /** How a run ends without a result: through `abort`, or a failed setup_connection. */
  datatype Exit = AbortExit | LinkExit

  datatype Step = Continue(next: Search) | Converged(found: int) | Abandon(why: Exit)

  function Settle(h: Halving): Step {
    if h.finished then Converged(h.next.timeout) else Continue(h.next)
  }

  /** One iteration of the loop in nat_test_run_single. */
  function ProbeStep(s: Search, o: Outcome): (r: Step)
    ensures o.ReadError? ==> r == (if o.relinked then Continue(s) else Abandon(LinkExit))
    ensures o == SendError || o == Aborted ==> r == Abandon(AbortExit)
    ensures o == Reply || o == NoReply ==> !r.Abandon?
    ensures r.Continue? ==> r.next.multiplier == s.multiplier
    ensures r.Continue? && (s.bisecting || o == NoReply) ==> r.next.bisecting
    ensures o == NoReply && r.Continue? ==> r.next.lower == s.lower && r.next.upper == s.timeout
    ensures o == Reply && s.bisecting && r.Continue? ==> r.next.lower == s.timeout && r.next.upper == s.upper
    ensures o == Reply && !s.bisecting ==>
              r == Continue(s.(lower := s.timeout, timeout := Grow(s.timeout, s.multiplier)))
    ensures r.Converged? && o == NoReply ==> r.found == s.lower && s.timeout - s.lower == 1
    ensures r.Converged? && o == Reply ==> s.bisecting && r.found == s.timeout && s.upper - s.timeout == 1
  {
    match o
    case Aborted => Abandon(AbortExit)
    case SendError => Abandon(AbortExit)
    case ReadError(relinked) => if relinked then Continue(s) else Abandon(LinkExit)
    case NoReply => Settle(BinarySearchStep(s.(bisecting := true), true))
    case Reply =>
      if s.bisecting then Settle(BinarySearchStep(s, false))
      else Continue(s.(lower := s.timeout, timeout := Grow(s.timeout, s.multiplier)))
  }

  /** How a run ended: a reported value, an exit without one, or out of observations. */
  datatype RunEnd = Found(timeout: int) | Ended(why: Exit) | Unfinished(at: Search)

  /** Outcomes that end a run without a result. */
  predicate Abandons(o: Outcome) { o == Aborted || o == SendError || o == ReadError(false) }

  /**
    The probe loop fed a finite list of outcomes. It ends without a result
    only on an outcome that abandons the run, and it runs out of outcomes
    only when none of them abandons it; an abort or send failure ends it on
    the spot.
   */
  function Drive(s: Search, outs: seq<Outcome>): (e: RunEnd)
    decreases |outs|
    ensures e.Ended? ==> exists i :: 0 <= i < |outs| && Abandons(outs[i])
    ensures e.Unfinished? ==> forall i :: 0 <= i < |outs| ==> !Abandons(outs[i])
    ensures |outs| > 0 && (outs[0] == Aborted || outs[0] == SendError) ==> e == Ended(AbortExit)
    ensures e.Unfinished? && s.bisecting ==> e.at.bisecting
  {
    if |outs| == 0 then Unfinished(s)
    else match ProbeStep(s, outs[0])
      case Continue(n) => Drive(n, outs[1..])
      case Converged(v) => Found(v)
      case Abandon(why) => Ended(why)
  }

  /** nat_test_run_single: `linked` is whether the first setup_connection succeeded. */
  function RunSingle(c: Config, p: Protocol, linked: bool, outs: seq<Outcome>): (e: RunEnd)
    ensures !linked ==> e == Ended(LinkExit)
    ensures linked && |outs| > 0 && outs[0] == Aborted ==> e == Ended(AbortExit)
  {
    if !linked then Ended(LinkExit) else Drive(InitValues(c, p), outs)
  }

  // ---------------------------------------------------------------------
  // Bisection: bracket invariant and termination

  function Gap(s: Search): int { s.upper - s.lower }

  /** A bisection state as get_timeout_binary_search leaves it when not finished. */
  predicate Bisecting(s: Search) {
    && s.bisecting
    && Gap(s) >= 2
    && s.timeout == s.lower + Gap(s) / 2
  }

  predicate Probe(o: Outcome) { o == Reply || o == NoReply }

  /** Number of halvings that take a gap down to 1. */
  function CeilLog2(g: int): nat
    decreases g
  {
    if g <= 1 then 0 else 1 + CeilLog2((g + 1) / 2)
  }

  lemma {:induction false} CeilLog2Monotone(a: int, b: int)
    requires a <= b
    ensures CeilLog2(a) <= CeilLog2(b)
    decreases b
  {
    if a > 1 {
      CeilLog2Monotone((a + 1) / 2, (b + 1) / 2);
    }
  }

  /**
    One answered or unanswered probe during bisection keeps the bracket
    inside the old one, and either converges on a value in it or roughly
    halves the gap.
   */
  lemma BisectNarrows(s: Search, o: Outcome)
    requires Bisecting(s) && Probe(o)
    ensures ProbeStep(s, o).Converged? ==> s.lower <= ProbeStep(s, o).found < s.upper
    ensures ProbeStep(s, o).Continue? ==>
              var n := ProbeStep(s, o).next;
              && Bisecting(n)
              && s.lower <= n.lower && n.upper <= s.upper
              && Gap(n) < Gap(s) && Gap(n) <= (Gap(s) + 1) / 2
  {
  }

  /**
    Bisection converges, whatever the answers, within CeilLog2 of the gap
    many probes, on a value inside the bracket.
   */
  lemma {:induction false} BisectConverges(s: Search, outs: seq<Outcome>)
    requires Bisecting(s)
    requires |outs| >= CeilLog2(Gap(s))
    requires forall i :: 0 <= i < |outs| ==> Probe(outs[i])
    ensures Drive(s, outs).Found?
    ensures s.lower <= Drive(s, outs).timeout < s.upper
    decreases |outs|
  {
    BisectNarrows(s, outs[0]);
    match ProbeStep(s, outs[0])
    case Converged(v) =>
    case Continue(n) =>
      CeilLog2Monotone(Gap(n), (Gap(s) + 1) / 2);
      BisectConverges(n, outs[1..]);
  }

  /**
    The first unanswered probe of the growth phase: with `lower < timeout`
    the new bracket is proper, so bisection either ends at once or starts
    in a state BisectConverges applies to.
   */
  lemma PhaseSwitch(s: Search)
    requires !s.bisecting && s.lower < s.timeout
    ensures ProbeStep(s, NoReply).Converged? <==> s.timeout - s.lower == 1
    ensures ProbeStep(s, NoReply).Converged? ==> ProbeStep(s, NoReply).found == s.lower
    ensures ProbeStep(s, NoReply).Continue? ==>
              var n := ProbeStep(s, NoReply).next;
              Bisecting(n) && n.lower == s.lower && n.upper == s.timeout
  {
  }

  // ---------------------------------------------------------------------
  // Growth

  /** The multiplier grows `t` by at least one second, from `t` on. */
  predicate GrowsFrom(t: int, m: Ratio) {
    m.num > m.den && t * (m.num - m.den) >= m.den
  }

  predicate Growing(s: Search) {
    !s.bisecting && s.lower < s.timeout && GrowsFrom(s.timeout, s.multiplier)
  }

  lemma GrowthIncreases(t: int, m: Ratio)
    requires GrowsFrom(t, m)
    ensures Grow(t, m) > t
    ensures GrowsFrom(Grow(t, m), m)
  {
    var q := Grow(t, m);
    var d: int := m.den;
    assert t > 0;
    assert t * m.num >= (t + 1) * d;
    assert q * d > t * d;
    assert (q - t) * d == q * d - t * d;
    assert q > t;
    assert (q - t) * (m.num - d) >= 0;
    assert q * (m.num - d) >= t * (m.num - d);
  }

  /** An answered growth probe raises the bracket to the old interval and grows it. */
  lemma GrowthStep(s: Search)
    requires Growing(s)
    ensures ProbeStep(s, Reply).Continue?
    ensures var n := ProbeStep(s, Reply).next;
            Growing(n) && n.lower == s.timeout && n.timeout > s.timeout
  {
    GrowthIncreases(s.timeout, s.multiplier);
  }

  // ---------------------------------------------------------------------
  // Against a path with a fixed keep-alive time

  /**
    A path whose NAT binding survives idle intervals of at most `keepAlive`
    seconds: a probe sent `t` seconds after the previous one is answered
    exactly when `t <= keepAlive`.
   */
  function PathAnswer(keepAlive: int, t: int): Outcome {
    if t <= keepAlive then Reply else NoReply
  }

  /** The probe loop run for at most `fuel` iterations against such a path. */
  function AgainstPath(s: Search, keepAlive: int, fuel: nat): (e: RunEnd)
    decreases fuel
  {
    if fuel == 0 then Unfinished(s)
    else match ProbeStep(s, PathAnswer(keepAlive, s.timeout))
      case Continue(n) => AgainstPath(n, keepAlive, fuel - 1)
      case Converged(v) => Found(v)
      case Abandon(why) => Ended(why)
  }

  /** Bisection of a bracket holding the keep-alive time reports exactly that time. */
  lemma {:induction false} BisectFindsKeepAlive(s: Search, keepAlive: int, fuel: nat)
    requires Bisecting(s) && s.lower <= keepAlive < s.upper
    requires fuel >= CeilLog2(Gap(s))
    ensures AgainstPath(s, keepAlive, fuel) == Found(keepAlive)
    decreases fuel
  {
    var o := PathAnswer(keepAlive, s.timeout);
    BisectNarrows(s, o);
    match ProbeStep(s, o)
    case Converged(v) =>
    case Continue(n) =>
      CeilLog2Monotone(Gap(n), (Gap(s) + 1) / 2);
      BisectFindsKeepAlive(n, keepAlive, fuel - 1);
  }

  /**
    From any growth state below the keep-alive time, the run reports exactly
    the keep-alive time after finitely many probes.
   */
  lemma {:induction false} GrowthFindsKeepAlive(s: Search, keepAlive: int) returns (fuel: nat)
    requires Growing(s) && s.lower <= keepAlive
    ensures AgainstPath(s, keepAlive, fuel) == Found(keepAlive)
    decreases keepAlive - s.lower
  {
    if s.timeout <= keepAlive {
      GrowthStep(s);
      var n := ProbeStep(s, Reply).next;
      var rest := GrowthFindsKeepAlive(n, keepAlive);
      fuel := rest + 1;
    } else {
      PhaseSwitch(s);
      match ProbeStep(s, NoReply)
      case Converged(v) =>
        fuel := 1;
      case Continue(n) =>
        BisectFindsKeepAlive(n, keepAlive, CeilLog2(Gap(n)));
        fuel := CeilLog2(Gap(n)) + 1;
    }
  }

  /**
    A run whose configured interval is positive and whose multiplier adds at
    least a second to it finds every non-negative keep-alive time exactly.
   */
  lemma ConfiguredRunFindsKeepAlive(c: Config, p: Protocol, keepAlive: int) returns (fuel: nat)
    requires InitialTimeout(c, p) > 0 && GrowsFrom(InitialTimeout(c, p), Multiplier(c, p))
    requires keepAlive >= 0
    ensures AgainstPath(InitValues(c, p), keepAlive, fuel) == Found(keepAlive)
  {
    fuel := GrowthFindsKeepAlive(InitValues(c, p), keepAlive);
  }

  /**
    The outcomes such a path produces, one per probe, until the run reports
    or `fuel` probes have been sent.
   */
  function PathOutcomes(s: Search, keepAlive: int, fuel: nat): (outs: seq<Outcome>)
    decreases fuel
    ensures |outs| <= fuel
    ensures forall i :: 0 <= i < |outs| ==> outs[i] == Reply || outs[i] == NoReply
  {
    if fuel == 0 then []
    else
      var o := PathAnswer(keepAlive, s.timeout);
      match ProbeStep(s, o)
      case Continue(n) => [o] + PathOutcomes(n, keepAlive, fuel - 1)
      case _ => [o]
  }

  /** The probe loop fed the path's outcomes behaves as the run against the path. */
  lemma {:induction false} DriveIsAgainstPath(s: Search, keepAlive: int, fuel: nat)
    ensures Drive(s, PathOutcomes(s, keepAlive, fuel)) == AgainstPath(s, keepAlive, fuel)
    decreases fuel
  {
    if fuel > 0 {
      var o := PathAnswer(keepAlive, s.timeout);
      var outs := PathOutcomes(s, keepAlive, fuel);
      assert outs[0] == o;
      match ProbeStep(s, o)
      case Continue(n) =>
        assert outs[1..] == PathOutcomes(n, keepAlive, fuel - 1);
        DriveIsAgainstPath(n, keepAlive, fuel - 1);
      case Converged(v) =>
      case Abandon(why) =>
    }
  }

  /**
    nat_test_run_single, connected and fed the answers of a path whose
    binding lasts `keepAlive` seconds, reports exactly `keepAlive`.
   */
  lemma RunSingleFindsKeepAlive(c: Config, p: Protocol, keepAlive: int) returns (fuel: nat)
    requires InitialTimeout(c, p) > 0 && GrowsFrom(InitialTimeout(c, p), Multiplier(c, p))
    requires keepAlive >= 0
    ensures AgainstPath(InitValues(c, p), keepAlive, fuel) == Found(keepAlive)
    ensures RunSingle(c, p, true, PathOutcomes(InitValues(c, p), keepAlive, fuel)) == Found(keepAlive)
  {
    fuel := ConfiguredRunFindsKeepAlive(c, p, keepAlive);
    DriveIsAgainstPath(InitValues(c, p), keepAlive, fuel);
  }

  /**
    With the UDP defaults and a 10-second binding, the probes of 1, 2, 4 and
    8 seconds are answered and the 16-second one is not: bisection starts on
    [8, 16) with a 12-second probe.
   */
  lemma UdpDefaultsAgainstTenSeconds()
    ensures PathOutcomes(InitValues(DefaultConfig, Udp), 10, 5) == [Reply, Reply, Reply, Reply, NoReply]
    ensures Drive(InitValues(DefaultConfig, Udp), [Reply, Reply, Reply, Reply, NoReply])
            == Unfinished(Search(12, DEFAULT_UDP_TIMEOUT_MULTIPLIER, 8, 16, true))
  {
  }

  /** The boot-time configuration satisfies the growth condition for both protocols. */
  lemma DefaultsFindKeepAlive(p: Protocol, keepAlive: int) returns (fuel: nat)
    requires keepAlive >= 0
    ensures AgainstPath(InitValues(DefaultConfig, p), keepAlive, fuel) == Found(keepAlive)
    ensures RunSingle(DefaultConfig, p, true, PathOutcomes(InitValues(DefaultConfig, p), keepAlive, fuel)) == Found(keepAlive)
  {
    fuel := RunSingleFindsKeepAlive(DefaultConfig, p, keepAlive);
  }

  // ---------------------------------------------------------------------
  // Runs that never converge

  /**
    A state whose interval equals its lower bound and can no longer move:
    in growth the multiplier leaves it in place, in bisection the bracket
    is empty.
   */
  predicate Stalled(s: Search) {
    && s.timeout == s.lower
    && (s.bisecting ==> s.upper == s.lower)
    && (!s.bisecting ==> Grow(s.timeout, s.multiplier) == s.timeout)
  }

  /** Outcomes that neither end the run nor change its state from outside. */
  predicate Keeps(o: Outcome) { o == Reply || o == NoReply || o == ReadError(true) }

  /**
    Once stalled, no sequence of answers, silences and successful
    reconnects ever makes the gap 1: the run never reports.
   */
  lemma {:induction false} StalledNeverConverges(s: Search, outs: seq<Outcome>)
    requires Stalled(s)
    requires forall i :: 0 <= i < |outs| ==> Keeps(outs[i])
    ensures Drive(s, outs).Unfinished?
    decreases |outs|
  {
    if |outs| > 0 {
      var r := ProbeStep(s, outs[0]);
      assert r.Continue? && Stalled(r.next);
      StalledNeverConverges(r.next, outs[1..]);
    }
  }

  lemma DivOfOne(n: int, d: int)
    requires 0 < d <= n < 2 * d
    ensures n / d == 1
  {
  }

  /** A configured initial interval of 0 stalls the run at once. */
  lemma ZeroTimeoutNeverConverges(c: Config, p: Protocol, outs: seq<Outcome>)
    requires InitialTimeout(c, p) == 0
    requires forall i :: 0 <= i < |outs| ==> Keeps(outs[i])
    ensures RunSingle(c, p, true, outs).Unfinished?
  {
    StalledNeverConverges(InitValues(c, p), outs);
  }

  /**
    A multiplier in [1, 2) cannot grow an interval of 1 (1 * 1.5 truncates
    to 1): after the first answer the run is stalled. This is the case for
    an initial interval of 1 with the TCP default multiplier.
   */
  lemma SlowMultiplierStallsAtOne(c: Config, p: Protocol, outs: seq<Outcome>)
    requires InitialTimeout(c, p) == 1
    requires Multiplier(c, p).den <= Multiplier(c, p).num < 2 * Multiplier(c, p).den
    requires forall i :: 0 <= i < |outs| ==> Keeps(outs[i])
    ensures RunSingle(c, p, true, [Reply] + outs).Unfinished?
  {
    var s := InitValues(c, p);
    var m := s.multiplier;
    DivOfOne(m.num, m.den);
    assert Grow(1, m) == 1;
    var n := ProbeStep(s, Reply).next;
    assert Stalled(n);
    StalledNeverConverges(n, outs);
    assert ([Reply] + outs)[1..] == outs;
  }
}
