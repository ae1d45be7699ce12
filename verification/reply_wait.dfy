/**
  The reply wait of a probe (poll_and_read in src/nat_test.c) as a
  classifier over the events its loop observes.

  The loop polls the socket in slices of POLL_TIMEOUT_S seconds. A slice
  with nothing to read checks the abort flag and then adds the elapsed time
  to a running total; once the total exceeds the probe interval plus
  TIMEOUT_TOL_S seconds the wait gives up with 0. Readable data is received
  into a buffer of BUF_SIZE bytes: a reply containing "error" or "Error" gives
  -1, any other reply gives 1. A poll failure gives -1.
 */
module ReplyWait {
  import opened NatTypes

  /** Grace added to the probe interval before a silent probe counts as lost. */
  const TIMEOUT_TOL_S: int := 10

  /**
    One wake-up of the poll loop.
    - Silence: poll timed out. `elapsedMs` is what k_uptime_delta reported (the
      time since the previous reading), `abortSeen` whether the run state
      read ABORT at that moment.
    - Data: the socket was readable and recv returned `bytes`. A failed recv
      (whose -1 becomes a huge size_t) is a Data event of BUF_SIZE bytes or more;
      a wake-up without POLLIN, which the loop also ignores, is an empty Data event.
    - PollError: poll itself failed.
   */
  datatype PollEvent = Silence(elapsedMs: nat, abortSeen: bool) | Data(bytes: string) | PollError

  /** The total silence the wait tolerates, in milliseconds. */
  function WaitBudgetMs(timeoutS: int): int {
    (timeoutS + TIMEOUT_TOL_S) * S_TO_MS_MULT
  }

  /** `pat` occurs in `s` at offset `i`. */
  predicate OccursAt(s: string, pat: string, i: int) {
    0 <= i <= |s| - |pat| && s[i..i + |pat|] == pat
  }

  /** strstr(s, pat) != NULL */
  predicate Contains(s: string, pat: string) {
    exists i :: 0 <= i <= |s| && OccursAt(s, pat, i)
  }

  /** The two spellings the source looks for; the search is case-sensitive. */
  predicate HasErrorMarker(text: string) {
    Contains(text, "error") || Contains(text, "Error")
  }

  /** A recv result the loop acts on: `ret_len > 0 && ret_len < BUF_SIZE`. */
  predicate Usable(bytes: string) {
    0 < |bytes| < BUF_SIZE
  }

  function ReplyCode(bytes: string): int {
    if HasErrorMarker(CString(bytes)) then -1 else 1
  }

  /** The poll loop, `waitedMs` milliseconds of silence into the wait. */
  function WaitFrom(events: seq<PollEvent>, timeoutS: int, waitedMs: int): (v: Verdict)
    decreases |events|
    ensures v.Decided? ==> v.code == -1 || v.code == 0 || v.code == 1
    ensures v.Decided? ==> |events| > 0
  {
    if |events| == 0 then Pending
    else match events[0]
      case PollError => Decided(-1)
      case Silence(d, abortSeen) =>
        if abortSeen then Decided(0)
        else if waitedMs + d <= WaitBudgetMs(timeoutS) then WaitFrom(events[1..], timeoutS, waitedMs + d)
        else Decided(0)
      case Data(bytes) =>
        if Usable(bytes) then Decided(ReplyCode(bytes))
        else WaitFrom(events[1..], timeoutS, waitedMs)
  }

  /** poll_and_read: -1 for an error reply or a poll failure, 0 for silence or abort, 1 for a reply. */
  function PollAndRead(events: seq<PollEvent>, timeoutS: int): (v: Verdict)
    ensures v.Decided? ==> v.code == -1 || v.code == 0 || v.code == 1
    ensures |events| == 0 ==> v == Pending
    ensures |events| > 0 && events[0] == PollError ==> v == Decided(-1)
  {
    WaitFrom(events, timeoutS, 0)
  }

  // ---------------------------------------------------------------------
  // An independent description: the first event that decides

  /** Total silence reported by the idle slices of `events`. */
  function SilenceMs(events: seq<PollEvent>): nat
    decreases |events|
  {
    if |events| == 0 then 0
    else (if events[0].Silence? then events[0].elapsedMs else 0) + SilenceMs(events[1..])
  }

  predicate NoSilence(events: seq<PollEvent>) {
    forall j :: 0 <= j < |events| ==> !events[j].Silence?
  }

  /** An event after which the loop polls again, provided the budget holds. */
  predicate Inert(e: PollEvent) {
    (e.Silence? && !e.abortSeen) || (e.Data? && !Usable(e.bytes))
  }

  /** The first `k` events all let the loop go on. */
  predicate QuietUntil(events: seq<PollEvent>, k: int, timeoutS: int, waitedMs: int) {
    && 0 <= k <= |events|
    && (forall j :: 0 <= j < k ==> Inert(events[j]))
    && (NoSilence(events[..k]) || waitedMs + SilenceMs(events[..k]) <= WaitBudgetMs(timeoutS))
  }

  /** An event that ends the wait after `waitedMs` milliseconds of silence. */
  predicate Decisive(e: PollEvent, waitedMs: int, timeoutS: int) {
    || e.PollError?
    || (e.Silence? && (e.abortSeen || waitedMs + e.elapsedMs > WaitBudgetMs(timeoutS)))
    || (e.Data? && Usable(e.bytes))
  }

  function EventCode(e: PollEvent): int {
    match e
    case PollError => -1
    case Silence(_, _) => 0
    case Data(bytes) => ReplyCode(bytes)
  }

  predicate DecidesAt(events: seq<PollEvent>, timeoutS: int, waitedMs: int, k: int) {
    && 0 <= k < |events|
    && QuietUntil(events, k, timeoutS, waitedMs)
    && Decisive(events[k], waitedMs + SilenceMs(events[..k]), timeoutS)
  }

  lemma {:induction false} NoSilenceIsZero(events: seq<PollEvent>)
    requires NoSilence(events)
    ensures SilenceMs(events) == 0
    decreases |events|
  {
    if |events| > 0 {
      assert NoSilence(events[1..]) by {
        forall j | 0 <= j < |events| - 1
          ensures !events[1..][j].Silence?
        {
          assert events[1..][j] == events[j + 1];
        }
      }
      NoSilenceIsZero(events[1..]);
    }
  }

  lemma PrefixOfTail(events: seq<PollEvent>, k: int)
    requires 0 <= k < |events|
    ensures events[..k + 1] == [events[0]] + events[1..][..k]
    ensures SilenceMs(events[..k + 1]) == (if events[0].Silence? then events[0].elapsedMs else 0) + SilenceMs(events[1..][..k])
  {
    assert events[..k + 1][1..] == events[1..][..k];
  }

  /** Every decision of the loop is made by the first decisive event. */
  lemma {:induction false} WaitDecidesAt(events: seq<PollEvent>, timeoutS: int, waitedMs: int) returns (k: int)
    requires WaitFrom(events, timeoutS, waitedMs).Decided?
    ensures DecidesAt(events, timeoutS, waitedMs, k)
    ensures EventCode(events[k]) == WaitFrom(events, timeoutS, waitedMs).code
    decreases |events|
  {
    var e := events[0];
    assert events[..0] == [];
    if Decisive(e, waitedMs, timeoutS) {
      k := 0;
    } else {
      var w := if e.Silence? then waitedMs + e.elapsedMs else waitedMs;
      var k' := WaitDecidesAt(events[1..], timeoutS, w);
      k := k' + 1;
      PrefixOfTail(events, k');
      var tail := events[1..];
      assert forall j :: 0 <= j < k ==> Inert(events[j]) by {
        forall j | 0 <= j < k
          ensures Inert(events[j])
        {
          if j > 0 {
            assert events[j] == tail[j - 1];
          }
        }
      }
      if NoSilence(tail[..k']) {
        NoSilenceIsZero(tail[..k']);
        if e.Silence? {
          assert waitedMs + SilenceMs(events[..k]) <= WaitBudgetMs(timeoutS);
        } else {
          assert NoSilence(events[..k]) by {
            forall j | 0 <= j < k
              ensures !events[..k][j].Silence?
            {
              if j > 0 {
                assert events[..k][j] == tail[..k'][j - 1];
              }
            }
          }
        }
      }
    }
  }

  /** The first decisive event makes the loop's decision. */
  lemma {:induction false} DecidesAtWait(events: seq<PollEvent>, timeoutS: int, waitedMs: int, k: int)
    requires DecidesAt(events, timeoutS, waitedMs, k)
    ensures WaitFrom(events, timeoutS, waitedMs) == Decided(EventCode(events[k]))
    decreases k
  {
    assert events[..0] == [];
    if k > 0 {
      var e := events[0];
      assert e == events[..k][0];
      assert Inert(e);
      var w := if e.Silence? then waitedMs + e.elapsedMs else waitedMs;
      var tail := events[1..];
      PrefixOfTail(events, k - 1);
      assert e.Silence? ==> waitedMs + e.elapsedMs <= WaitBudgetMs(timeoutS) by {
        if e.Silence? {
          assert !NoSilence(events[..k]);
        }
      }
      assert forall j :: 0 <= j < k - 1 ==> Inert(tail[j]) by {
        forall j | 0 <= j < k - 1
          ensures Inert(tail[j])
        {
          assert tail[j] == events[j + 1];
        }
      }
      if !NoSilence(tail[..k - 1]) {
        assert !NoSilence(events[..k]) by {
          var j :| 0 <= j < k - 1 && tail[..k - 1][j].Silence?;
          assert events[..k][j + 1] == tail[..k - 1][j];
        }
      }
      assert tail[k - 1] == events[k];
      DecidesAtWait(tail, timeoutS, w, k - 1);
    }
  }

  /**
    The classifier decides `v` exactly when some event is the first
    decisive one and its code is `v`.
   */
  lemma PollAndReadCharacterised(events: seq<PollEvent>, timeoutS: int, v: int)
    ensures PollAndRead(events, timeoutS) == Decided(v) <==>
            exists k :: DecidesAt(events, timeoutS, 0, k) && EventCode(events[k]) == v
  {
    if PollAndRead(events, timeoutS) == Decided(v) {
      var k := WaitDecidesAt(events, timeoutS, 0);
      assert DecidesAt(events, timeoutS, 0, k) && EventCode(events[k]) == v;
    }
    if exists k :: DecidesAt(events, timeoutS, 0, k) && EventCode(events[k]) == v {
      var k :| DecidesAt(events, timeoutS, 0, k) && EventCode(events[k]) == v;
      DecidesAtWait(events, timeoutS, 0, k);
    }
  }

  /** Later events never change a decision already made. */
  lemma {:induction false} DecisionIsFinal(events: seq<PollEvent>, more: seq<PollEvent>, timeoutS: int, waitedMs: int)
    requires WaitFrom(events, timeoutS, waitedMs).Decided?
    ensures WaitFrom(events + more, timeoutS, waitedMs) == WaitFrom(events, timeoutS, waitedMs)
    decreases |events|
  {
    assert (events + more)[0] == events[0];
    assert (events + more)[1..] == events[1..] + more;
    match events[0]
    case PollError =>
    case Silence(d, abortSeen) =>
      if !abortSeen && waitedMs + d <= WaitBudgetMs(timeoutS) {
        DecisionIsFinal(events[1..], more, timeoutS, waitedMs + d);
      }
    case Data(bytes) =>
      if !Usable(bytes) {
        DecisionIsFinal(events[1..], more, timeoutS, waitedMs);
      }
  }

  /**
    Wake-ups whose recv gives nothing usable (a peer that closed the
    connection keeps the socket readable and recv returns 0) neither add to
    the elapsed time nor look at the abort flag: however many there are,
    the wait stays undecided.
   */
  lemma {:induction false} UnusableReadsNeverDecide(events: seq<PollEvent>, timeoutS: int, waitedMs: int)
    requires forall j :: 0 <= j < |events| ==> events[j].Data? && !Usable(events[j].bytes)
    ensures WaitFrom(events, timeoutS, waitedMs) == Pending
    decreases |events|
  {
    if |events| > 0 {
      forall j | 0 <= j < |events| - 1
        ensures events[1..][j].Data? && !Usable(events[1..][j].bytes)
      {
        assert events[1..][j] == events[j + 1];
      }
      UnusableReadsNeverDecide(events[1..], timeoutS, waitedMs);
    }
  }

  /** The error test is case-sensitive in two spellings only; a NUL hides what follows it. */
  lemma ErrorMarkerSpellings()
    ensures HasErrorMarker("error") && HasErrorMarker("Error")
    ensures !HasErrorMarker("ERROR")
    ensures HasErrorMarker("ok, Error 7")
    ensures CString("ok\0error") == "ok" && !HasErrorMarker(CString("ok\0error"))
  {
    var lower, upper, mixed := "error", "Error", "ok, Error 7";
    assert lower[0..0 + |lower|] == lower;
    assert upper[0..0 + |upper|] == upper;
    assert mixed[4..4 + |upper|] == upper;
    assert OccursAt(lower, lower, 0) && OccursAt(upper, upper, 0) && OccursAt(mixed, upper, 4);
    assert "ERROR"[0..5] != lower && "ERROR"[0..5] != upper by {
      assert "ERROR"[0..5][1] == 'R';
    }
  }

  /** An error reply is classified -1, and an abort seen while waiting ends the wait with 0. */
  lemma ReplyClassification(bytes: string, d: nat, rest: seq<PollEvent>, timeoutS: int)
    ensures Usable(bytes) && HasErrorMarker(CString(bytes)) ==> PollAndRead([Data(bytes)] + rest, timeoutS) == Decided(-1)
    ensures Usable(bytes) && !HasErrorMarker(CString(bytes)) ==> PollAndRead([Data(bytes)] + rest, timeoutS) == Decided(1)
    ensures PollAndRead([Silence(d, true)] + rest, timeoutS) == Decided(0)
    ensures PollAndRead([PollError] + rest, timeoutS) == Decided(-1)
  {
  }
}
