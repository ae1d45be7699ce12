/**
  The link-recovery wait before each connection attempt
  (lte_connection_check in src/nat_test.c) as a function of the
  registration statuses it reads.

  Every loop iteration first checks the abort flag, then reads the
  registration status. A registered status (home or roaming) ends the wait
  with 0. NOT_REGISTERED and REGISTRATION_DENIED each cost one of
  MAX_RECONNECT_ATTEMPTS attempts (and trigger a radio re-attach, not
  modelled); other statuses, such as SEARCHING, cost nothing. Abort or an
  exhausted budget ends the wait with -1.
 */
module LinkCheck {
  import opened NatTypes

  const MAX_RECONNECT_ATTEMPTS: int := 5

  /** enum lte_lc_nw_reg_status */
  datatype RegStatus =
    | NotRegistered
    | RegisteredHome
    | Searching
    | RegistrationDenied
    | Unknown
    | RegisteredRoaming
    | UiccFail

  /** One loop iteration: whether the abort check fired, and the status read after it. */
  datatype Tick = Tick(abortSeen: bool, status: RegStatus)

  predicate Registered(st: RegStatus) {
    st == RegisteredHome || st == RegisteredRoaming
  }

  /** Statuses that use up a reconnect attempt. */
  predicate CostsAttempt(st: RegStatus) {
    st == NotRegistered || st == RegistrationDenied
  }

  /** The loop of lte_connection_check after `attempts` attempts. */
  function CheckFrom(ticks: seq<Tick>, attempts: int): (v: Verdict)
    decreases |ticks|
    ensures v.Decided? ==> v.code == 0 || v.code == -1
  {
    if attempts >= MAX_RECONNECT_ATTEMPTS then Decided(-1)
    else if |ticks| == 0 then Pending
    else if ticks[0].abortSeen then Decided(-1)
    else if Registered(ticks[0].status) then Decided(0)
    else CheckFrom(ticks[1..], attempts + (if CostsAttempt(ticks[0].status) then 1 else 0))
  }

  /** lte_connection_check: 0 once the link is registered, -1 on abort or exhaustion. */
  function LteConnectionCheck(ticks: seq<Tick>): (v: Verdict)
    ensures v.Decided? ==> v.code == 0 || v.code == -1
    ensures |ticks| == 0 ==> v == Pending
    ensures |ticks| > 0 && ticks[0].abortSeen ==> v == Decided(-1)
  {
    CheckFrom(ticks, 0)
  }

  // ---------------------------------------------------------------------
  // An independent description

  /** Reconnect attempts the statuses in `ticks` use up. */
  function Attempts(ticks: seq<Tick>): nat
    decreases |ticks|
  {
    if |ticks| == 0 then 0
    else (if CostsAttempt(ticks[0].status) then 1 else 0) + Attempts(ticks[1..])
  }

  /** An iteration after which the loop keeps waiting (budget permitting). */
  predicate Waiting(t: Tick) {
    !t.abortSeen && !Registered(t.status)
  }

  /** The link comes up at iteration `k`, within budget and before any abort. */
  predicate LinkUpAt(ticks: seq<Tick>, attempts: int, k: int) {
    && 0 <= k < |ticks|
    && (forall j :: 0 <= j < k ==> Waiting(ticks[j]))
    && !ticks[k].abortSeen && Registered(ticks[k].status)
    && attempts + Attempts(ticks[..k]) < MAX_RECONNECT_ATTEMPTS
  }

  lemma AttemptsOfPrefix(ticks: seq<Tick>, k: int)
    requires 0 <= k < |ticks|
    ensures Attempts(ticks[..k + 1]) == (if CostsAttempt(ticks[0].status) then 1 else 0) + Attempts(ticks[1..][..k])
  {
    assert ticks[..k + 1][0] == ticks[0];
    assert ticks[..k + 1][1..] == ticks[1..][..k];
  }

  lemma {:induction false} CheckUpFindsTick(ticks: seq<Tick>, attempts: int) returns (k: int)
    requires CheckFrom(ticks, attempts) == Decided(0)
    ensures LinkUpAt(ticks, attempts, k)
    decreases |ticks|
  {
    assert ticks[..0] == [];
    if Registered(ticks[0].status) {
      k := 0;
    } else {
      var cost := if CostsAttempt(ticks[0].status) then 1 else 0;
      var k' := CheckUpFindsTick(ticks[1..], attempts + cost);
      k := k' + 1;
      AttemptsOfPrefix(ticks, k');
      forall j | 0 <= j < k
        ensures Waiting(ticks[j])
      {
        if j > 0 {
          assert ticks[j] == ticks[1..][j - 1];
        }
      }
    }
  }

  lemma {:induction false} TickMakesCheckUp(ticks: seq<Tick>, attempts: int, k: int)
    requires LinkUpAt(ticks, attempts, k)
    ensures CheckFrom(ticks, attempts) == Decided(0)
    decreases k
  {
    assert ticks[..0] == [];
    if k > 0 {
      var cost := if CostsAttempt(ticks[0].status) then 1 else 0;
      AttemptsOfPrefix(ticks, k - 1);
      assert Waiting(ticks[0]);
      forall j | 0 <= j < k - 1
        ensures Waiting(ticks[1..][j])
      {
        assert ticks[1..][j] == ticks[j + 1];
      }
      TickMakesCheckUp(ticks[1..], attempts + cost, k - 1);
    }
  }

  /**
    The wait reports a usable link exactly when a registered status is read
    before any abort and before the fifth NOT_REGISTERED or
    REGISTRATION_DENIED reading.
   */
  lemma LinkUpCharacterised(ticks: seq<Tick>)
    ensures LteConnectionCheck(ticks) == Decided(0) <==> exists k :: LinkUpAt(ticks, 0, k)
  {
    if LteConnectionCheck(ticks) == Decided(0) {
      var k := CheckUpFindsTick(ticks, 0);
    }
    if exists k :: LinkUpAt(ticks, 0, k) {
      var k :| LinkUpAt(ticks, 0, k);
      TickMakesCheckUp(ticks, 0, k);
    }
  }

  /** Statuses that cost nothing leave the wait where it was; an abort ends it. */
  lemma {:induction false} FreeStatusesAndAbort(st: RegStatus, rest: seq<Tick>, attempts: int)
    requires 0 <= attempts < MAX_RECONNECT_ATTEMPTS
    ensures !Registered(st) && !CostsAttempt(st) ==> CheckFrom([Tick(false, st)] + rest, attempts) == CheckFrom(rest, attempts)
    ensures CheckFrom([Tick(true, st)] + rest, attempts) == Decided(-1)
  {
    assert ([Tick(false, st)] + rest)[1..] == rest;
  }

  /** Five costly readings in a row exhaust the budget whatever follows. */
  lemma {:induction false} BudgetExhausts(ticks: seq<Tick>, attempts: int)
    requires 0 <= attempts <= MAX_RECONNECT_ATTEMPTS
    requires |ticks| >= MAX_RECONNECT_ATTEMPTS - attempts
    requires forall j :: 0 <= j < MAX_RECONNECT_ATTEMPTS - attempts ==>
               !ticks[j].abortSeen && CostsAttempt(ticks[j].status)
    ensures CheckFrom(ticks, attempts) == Decided(-1)
    decreases MAX_RECONNECT_ATTEMPTS - attempts
  {
    if attempts < MAX_RECONNECT_ATTEMPTS {
      forall j | 0 <= j < MAX_RECONNECT_ATTEMPTS - attempts - 1
        ensures !ticks[1..][j].abortSeen && CostsAttempt(ticks[1..][j].status)
      {
        assert ticks[1..][j] == ticks[j + 1];
      }
      BudgetExhausts(ticks[1..], attempts + 1);
    }
  }
}
