/**
 * The two stateful objects of the sampling engine: APMonitor, the session to the
 * access point, and App, whose poll_loop keeps the sample, the published rates and
 * the error state in its fields. Command outputs and clock readings are parameters;
 * every method is proved against the pure specification in Sampler.
 */
module Widget {
  import opened Maybe
  import opened Text
  import opened ProcNetDev
  import LinkState
  import opened Selection
  import opened Sampler

  /** Whether a session was open before an iteration does not affect its outcome. */
  lemma AdvanceIgnoresConnection(lanPerspective: bool, s: PollState, o: Observation)
    ensures Advance(lanPerspective, s.(connected := true), o) == Advance(lanPerspective, s, o)
  {
  }

  /** APMonitor: the SSH session, reduced to whether one is open. */
  class Monitor {
    var connected: bool

    constructor()
      ensures !connected
    {
      connected := false;
    }

    /** connect: opens a session unless one is open; reports whether it dialled. */
    method Connect() returns (dialled: bool)
      modifies this
      ensures connected && dialled == !old(connected)
    {
      dialled := false;
      if !connected {
        dialled := true;
        connected := true;
      }
    }

    /** close: drops the session, if any. */
    method Close()
      modifies this
      ensures !connected
    {
      if connected {
        connected := false;
      }
    }

    /** _ensure: connects when no session is open. */
    method Ensure()
      modifies this
      ensures connected
    {
      if !connected {
        var _ := Connect();
      }
    }

    /** read_counters, given what `cat /proc/net/dev` printed. */
    method ReadCounters(data: string, iface: string) returns (found: Option<Counters>)
      modifies this
      ensures connected && found == ParseCounters(data, iface)
    {
      Ensure();
      found := ScanCounters(data, iface);
    }

    /** read_all_counters, given what `cat /proc/net/dev` printed. */
    method ReadAllCounters(data: string) returns (result: Table)
      modifies this
      ensures connected && result == ParseAllCounters(data) && DistinctNames(result) && !HasName(result, "lo")
    {
      Ensure();
      result := ScanAllCounters(data);
    }

    /** read_link_status, given the two command outputs (None: that command raised). */
    method ReadLinkStatus(operstate: Option<string>, ipLink: Option<string>) returns (status: LinkState.LinkStatus)
      modifies this
      ensures connected && status == LinkState.ReadLinkStatus(operstate, ipLink)
    {
      Ensure();
      status := LinkState.ReadLinkStatus(operstate, ipLink);
    }
  }

  /** The sampling side of App: the fields poll_loop reads and writes. */
  class App {
    const lanPerspective: bool
    const monitor: Monitor
    var iface: string
    var prev: Option<Sample>
    var downBps: Option<real>
    var upBps: Option<real>
    var linkStatus: LinkState.LinkStatus
    var errorShown: bool
    var lastErrorText: string
    var carriedDelta: Option<int>
    var lastAutoCheck: real

    function State(): PollState
      reads this, monitor
    {
      PollState(monitor.connected, iface, prev, downBps, upBps, linkStatus,
                errorShown, lastErrorText, carriedDelta, lastAutoCheck)
    }

    predicate Valid()
      reads this, monitor
    {
      Inv(State())
    }

    /** The state App.__init__ sets up before the polling thread starts. */
    constructor(lanPerspective: bool, selector: string, monitor: Monitor)
      ensures this.lanPerspective == lanPerspective && this.monitor == monitor
      ensures State() == Initial(selector).(connected := monitor.connected)
      ensures Valid()
    {
      this.lanPerspective := lanPerspective;
      this.monitor := monitor;
      iface := selector;
      prev := None;
      downBps, upBps := None, None;
      linkStatus := LinkState.Unknown;
      errorShown, lastErrorText := false, "";
      carriedDelta := None;
      lastAutoCheck := 0.0;
    }

    /**
     * The start of poll_loop: detection of the busiest interface for an empty or
     * "auto" selector, given the two snapshots (None: a read raised), then the start
     * of the re-detection clock.
     */
    method Start(probe: Option<(string, string)>, startedAt: real)
      modifies this, monitor
      ensures State() == Startup(old(State()), probe, startedAt)
      ensures old(Valid()) ==> Valid()
    {
      if WantsDetection(iface) && probe.Some? {
        var first := monitor.ReadAllCounters(probe.value.0);
        var second := monitor.ReadAllCounters(probe.value.1);
        var bestName, bestDelta := FindBusiest(first, second);
        if bestName.Some? && bestName.value != "" {
          iface := bestName.value;
        }
      }
      lastAutoCheck := startedAt;
    }

    /** The rate block of an iteration that found counters `c` with a previous sample. */
    method PublishRates(c: Counters, status: LinkState.LinkStatus, now: real)
      requires prev.Some?
      modifies this
      ensures State() == Publish(lanPerspective, old(State()), c, status, now)
    {
      var p := prev.value;
      var dt := Max(now - p.at, MinElapsed);
      var drx, dtx := c.rx - p.rx, c.tx - p.tx;
      if drx < 0 || dtx < 0 {
        drx, dtx := 0, 0;
      }
      var down, up;
      if lanPerspective {
        down, up := dtx as real / dt, drx as real / dt;
      } else {
        down, up := drx as real / dt, dtx as real / dt;
      }
      var shown := status;
      if status != LinkState.Up && status != LinkState.Down && (down > 0.0 || up > 0.0) {
        shown := LinkState.Up;
      }
      assert Deltas(p, c) == Counters(drx, dtx) && Elapsed(p, now) == dt;
      assert RatesOf(lanPerspective, Counters(drx, dtx), dt) == Rates(down, up);
      assert Override(status, Rates(down, up)) == shown;
      downBps, upBps, linkStatus := Some(down), Some(up), shown;
      carriedDelta := Some(drx + dtx);
    }

    /** The re-detection block, given the probe's two snapshots (None: a read raised). */
    method Redetect(aggregate: bool, probe: Probe)
      requires monitor.connected
      modifies this, monitor
      ensures State() == Sampler.Redetect(aggregate, old(State()), ProbeBest(probe), probe.finishedAt)
    {
      ghost var s := State();
      ghost var target: Option<string> := None;
      if probe.snapshots.Some? {
        var all1 := monitor.ReadAllCounters(probe.snapshots.value.0);
        var all2 := monitor.ReadAllCounters(probe.snapshots.value.1);
        var bestName, bestDelta := FindBusiest(all1, all2);
        assert ProbeBest(probe) == Some(Best(bestName, bestDelta));
        if carriedDelta.Some? && !aggregate && bestName.Some? && bestName.value != ""
           && bestDelta > MaxInt(carriedDelta.value * SwitchFactor, SwitchFloor)
        {
          iface := bestName.value;
          prev := None;
          target := bestName;
        }
        assert target.Some? <==> Switches(aggregate, s.carriedDelta, Best(bestName, bestDelta));
      }
      assert State() == if target.Some? then s.(iface := target.value, prev := None) else s;
      lastAutoCheck := probe.finishedAt;
    }

    /** The reads at the top of an iteration: the counters for the selector, then the link status. */
    method Read(devText: string, operstate: Option<string>, ipLink: Option<string>)
      returns (reading: Option<Counters>, status: LinkState.LinkStatus)
      modifies monitor
      ensures monitor.connected
      ensures reading == Sampler.ReadCounters(iface, devText)
      ensures status == LinkState.ReadLinkStatus(operstate, ipLink)
    {
      if IsAggregate(iface) {
        var allc := monitor.ReadAllCounters(devText);
        var totalRx, totalTx := SumMatching(iface, allc);
        reading := Some(Counters(totalRx, totalTx));
      } else {
        reading := monitor.ReadCounters(devText, iface);
      }
      status := monitor.ReadLinkStatus(operstate, ipLink);
    }

    /** The rest of an iteration that found counters `c`. */
    method Record(c: Counters, status: LinkState.LinkStatus, now: real, clock: real, probe: Probe)
      requires monitor.connected
      modifies this, monitor
      ensures State() == Advance(lanPerspective, old(State()),
                                 Observation(Some(c), status, now, clock, ProbeBest(probe), probe.finishedAt))
    {
      var aggregate := IsAggregate(iface);
      if lastErrorText != "" {
        lastErrorText := "";
        errorShown := false;
      }
      if prev.Some? {
        PublishRates(c, status, now);
      }
      prev := Some(Sample(c.rx, c.tx, now));
      if clock - lastAutoCheck > RedetectPeriod {
        Redetect(aggregate, probe);
      }
    }

    /** One iteration of the poll_loop body; reports whether the error dialog was shown. */
    method Tick(input: TickInput) returns (notified: bool)
      modifies this, monitor
      ensures (State(), notified) == Step(lanPerspective, old(State()), input)
      ensures old(Valid()) ==> Valid()
    {
      ghost var s := State();
      match input {
        case Failed(message) =>
          monitor.Close();
          var msg := if message == "" then DefaultError else message;
          lastErrorText := ErrorPrefix + msg;
          notified := false;
          if !errorShown {
            notified := true;
            errorShown := true;
          }
          assert State() == s.(connected := false, lastErrorText := ErrorText(message), errorShown := true);
        case Polled(devText, operstate, ipLink, now, clock, probe) =>
          notified := false;
          var reading, status := Read(devText, operstate, ipLink);
          PolledStep(lanPerspective, s, input, reading, status);
          ghost var o := Observation(reading, status, now, clock, ProbeBest(probe), probe.finishedAt);
          assert State() == s.(connected := true);
          if reading.Some? {
            Record(reading.value, status, now, clock, probe);
            AdvanceIgnoresConnection(lanPerspective, s, o);
          }
          assert State() == Advance(lanPerspective, s, o);
      }
      if Inv(s) {
        StepKeepsInv(lanPerspective, s, input);
      }
    }
  }
}
