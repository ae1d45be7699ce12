/**
  The shell handlers of src/nat_cmd.c that configure and control the test:
  argument dispatch and acceptance rules only. The command text is parsed
  by strtol/strtof before the handler looks at it; the handlers receive
  the parsed value, or None when no value argument was given.

  The configuration setters find their protocol in the parent command
  word (`config test udp initial_timeout set 30` has "udp" two words before
  "set"). They warn about, but still store, values the search cannot use.
 */
module NatCmd {
  import opened NatTypes
  import opened TimeoutSearch
  import opened TestRunner

  /** The messages the handlers print, as far as the model tells them apart. */
  datatype Notice =
    | TimeoutNotProvided
    | TimeoutMustBePositive
    | TimeoutSet(p: Protocol, value: int)
    | MultiplierNotProvided
    | MultiplierMustExceedOne
    | MultiplierSet(p: Protocol, factor: Ratio)
    | AnotherTestActive
    | UnableToStop
    | TestStopped
    | InvalidModeNotice
    | ActiveTestNotice
    | ModeChanged(mode: int)

  /** The protocol a setter targets: argv[-2] compared with strcmp. */
  function ParentProtocol(word: string): (p: Option<Protocol>)
    ensures p == Some(Udp) <==> word == "udp"
    ensures p == Some(Tcp) <==> word == "tcp"
  {
    if word == "udp" then Some(Udp) else if word == "tcp" then Some(Tcp) else None
  }

  datatype Configured = Configured(config: Config, notices: seq<Notice>)

  /** handle_set_timeout */
  function HandleSetTimeout(c: Config, parent: string, arg: Option<int>): (h: Configured)
    ensures arg.None? ==> h == Configured(c, [TimeoutNotProvided])
    ensures arg.Some? ==> (TimeoutMustBePositive in h.notices <==> arg.value <= 0)
    ensures ParentProtocol(parent).None? ==> h.config == c
    ensures forall q: Protocol :: Multiplier(h.config, q) == Multiplier(c, q)
    ensures forall q: Protocol :: InitialTimeout(h.config, q) ==
              if arg.Some? && ParentProtocol(parent) == Some(q) then arg.value else InitialTimeout(c, q)
  {
    match arg
    case None => Configured(c, [TimeoutNotProvided])
    case Some(v) =>
      var warning := if v <= 0 then [TimeoutMustBePositive] else [];
      match ParentProtocol(parent)
      case None => Configured(c, warning)
      case Some(Udp) => Configured(c.(udpTimeout := v), warning + [TimeoutSet(Udp, v)])
      case Some(Tcp) => Configured(c.(tcpTimeout := v), warning + [TimeoutSet(Tcp, v)])
  }

  /** handle_set_multiplier; `arg` is strtof's value as a ratio. */
  function HandleSetMultiplier(c: Config, parent: string, arg: Option<Ratio>): (h: Configured)
    ensures arg.None? ==> h == Configured(c, [MultiplierNotProvided])
    ensures arg.Some? ==> (MultiplierMustExceedOne in h.notices <==> arg.value.num <= arg.value.den)
    ensures ParentProtocol(parent).None? ==> h.config == c
    ensures forall q: Protocol :: InitialTimeout(h.config, q) == InitialTimeout(c, q)
    ensures forall q: Protocol :: Multiplier(h.config, q) ==
              if arg.Some? && ParentProtocol(parent) == Some(q) then arg.value else Multiplier(c, q)
  {
    match arg
    case None => Configured(c, [MultiplierNotProvided])
    case Some(m) =>
      var warning := if m.num <= m.den then [MultiplierMustExceedOne] else [];
      match ParentProtocol(parent)
      case None => Configured(c, warning)
      case Some(Udp) => Configured(c.(udpMultiplier := m), warning + [MultiplierSet(Udp, m)])
      case Some(Tcp) => Configured(c.(tcpMultiplier := m), warning + [MultiplierSet(Tcp, m)])
  }

  /**
    The setters store what they warn about: an initial interval of 0 set
    for a protocol makes that protocol's next run unable to converge.
   */
  lemma AcceptedZeroTimeoutNeverConverges(c: Config, parent: string, outs: seq<Outcome>)
    requires ParentProtocol(parent).Some?
    requires forall i :: 0 <= i < |outs| ==> Keeps(outs[i])
    ensures var h := HandleSetTimeout(c, parent, Some(0));
            && TimeoutMustBePositive in h.notices
            && RunSingle(h.config, ParentProtocol(parent).value, true, outs).Unfinished?
  {
    var h := HandleSetTimeout(c, parent, Some(0));
    ZeroTimeoutNeverConverges(h.config, ParentProtocol(parent).value, outs);
  }

  /** The test type a start subcommand names, argv[0]. */
  function StartSelector(name: string): (t: Option<TestType>)
    ensures t == Some(TestUdp) <==> name == "udp"
    ensures t == Some(TestTcp) <==> name == "tcp"
    ensures t == Some(TestUdpAndTcp) <==> name == "udp_and_tcp"
  {
    if name == "udp" then Some(TestUdp)
    else if name == "tcp" then Some(TestTcp)
    else if name == "udp_and_tcp" then Some(TestUdpAndTcp)
    else None
  }

  datatype Controlled = Controlled(worker: Worker, notices: seq<Notice>)

  /**
    handle_start_test: `err` starts at -1, so a name that selects no test
    reports that another test is active, just as a refused start does.
   */
  function HandleStartTest(w: Worker, name: string): (r: Controlled)
    ensures r.notices == [] || r.notices == [AnotherTestActive]
    ensures r.notices == [AnotherTestActive] <==>
              StartSelector(name).None? || w.state == Running || w.state == Abort
    ensures r.notices == [AnotherTestActive] ==> r.worker == w
    ensures r.notices == [] ==> r.worker.wakeup && r.worker.kind == StartSelector(name).value
                                && r.worker.state == w.state
  {
    match StartSelector(name)
    case None => Controlled(w, [AnotherTestActive])
    case Some(t) =>
      var a := NatTestStart(w, t);
      Controlled(a.after, if a.code < 0 then [AnotherTestActive] else [])
  }

  /** handle_stop_test */
  function HandleStopTest(w: Worker, settled: bool): (r: Controlled)
    ensures r.notices == [TestStopped] || r.notices == [UnableToStop]
    ensures r.notices == [TestStopped] <==>
              w.state == Idle || w.state == Uninitialized || (settled && w.pc == InRun)
    ensures r.worker == NatTestStop(w, settled).after
  {
    var a := NatTestStop(w, settled);
    Controlled(a.after, if a.code < 0 then [UnableToStop] else [TestStopped])
  }

  datatype ModeReply = ModeReply(mode: int, notices: seq<Notice>)

  /**
    handle_set_network_mode: it reports an invalid mode or an active test,
    and then announces the change in every case.
   */
  function HandleSetNetworkMode(value: int, state: TestState, current: int): (r: ModeReply)
    ensures |r.notices| >= 1 && r.notices[|r.notices| - 1] == ModeChanged(value)
    ensures r.notices[0] == InvalidModeNotice <==>
              value != LTE_LC_SYSTEM_MODE_LTEM && value != LTE_LC_SYSTEM_MODE_NBIOT
    ensures r.notices[0] == ActiveTestNotice <==>
              (value == LTE_LC_SYSTEM_MODE_LTEM || value == LTE_LC_SYSTEM_MODE_NBIOT) && state != Idle
    ensures r.mode == value || r.mode == current
    ensures (value == LTE_LC_SYSTEM_MODE_LTEM || value == LTE_LC_SYSTEM_MODE_NBIOT) && state == Idle ==>
              r.mode == value && r.notices == [ModeChanged(value)]
    ensures r.mode != current ==> |r.notices| == 1 && state == Idle
  {
    var m := SetNetworkMode(value, state, current);
    var first := if m.code == -INVALID_MODE then [InvalidModeNotice]
                 else if m.code == -TEST_RUNNING then [ActiveTestNotice]
                 else [];
    ModeReply(m.mode, first + [ModeChanged(value)])
  }
}
