/**
 * One iteration of App.poll_loop as a function of the state it reads and writes:
 * the reads of the counter table and the link state, the rate computation against
 * the previous sample, the periodic re-detection of a busier interface, and the
 * one-shot error notification. Everything the loop learns from the remote host
 * arrives as an input: the command outputs, the wall clock `now`, the monotonic
 * clock, and the outcome of the re-detection probe.
 */
module Sampler {
  import opened Maybe
  import opened Text
  import opened ProcNetDev
  import opened LinkState
  import opened Selection

  /** The floor on the time between two samples, in seconds. */
  const MinElapsed: real := 0.000001
  /** Seconds of the monotonic clock between re-detection probes. */
  const RedetectPeriod: real := 5.0
  /** A busier interface must move more than this many bytes between the probe's snapshots. */
  const SwitchFloor: int := 200 * 1024
  /** ... and more than this many times the current interface's last delta. */
  const SwitchFactor: int := 4
  const DefaultError: string := "SSH connection failed"
  const ErrorPrefix: string := "Connection failed: "

  /** prev = (rx, tx, t) */
  datatype Sample = Sample(rx: int, tx: int, at: real)

  /** The two counter tables a detection probe reads (None: a read raised), and the monotonic clock after it. */
  datatype Probe = Probe(snapshots: Option<(string, string)>, finishedAt: real)

  /**
   * What one iteration observes: either a read that raised (with str(e)), or the
   * outputs of the three remote commands, the wall clock, the monotonic clock at the
   * re-detection check, and what the re-detection probe would see.
   */
  datatype TickInput =
    | Failed(message: string)
    | Polled(devText: string, operstate: Option<string>, ipLink: Option<string>,
             now: real, clock: real, probe: Probe)

  /**
   * The fields poll_loop reads and writes. `carriedDelta` is drx + dtx as last set
   * by an iteration that computed rates (None while no iteration has), and
   * `connected` stands for APMonitor._ssh being set.
   */
  datatype PollState = PollState(
    connected: bool,
    iface: string,
    prev: Option<Sample>,
    downBps: Option<real>,
    upBps: Option<real>,
    linkStatus: LinkStatus,
    errorShown: bool,
    lastErrorText: string,
    carriedDelta: Option<int>,
    lastAutoCheck: real)

  /** The fields as App.__init__ sets them; lastAutoCheck is set when the loop starts. */
  function Initial(selector: string): PollState
  {
    PollState(false, selector, None, None, None, Unknown, false, "", None, 0.0)
  }

  /** On no polled iteration of the run does the selector read any counters. */
  predicate NeverFound(iface: string, inputs: seq<TickInput>) {
    forall i :: 0 <= i < |inputs| && inputs[i].Polled? ==> ReadCounters(iface, inputs[i].devText).None?
  }

  /**
   * Re-detection runs only inside an iteration that found counters, so a selector
   * that never finds any is kept for the whole run and no rate is ever published.
   * This is the fate of "auto" when the startup probe raised (Startup then keeps
   * the selector) and no interface is named "auto".
   */
  lemma {:induction false} UnfoundSelectorIsKept(lanPerspective: bool, s: PollState, inputs: seq<TickInput>)
    requires NeverFound(s.iface, inputs)
    ensures var r := Run(lanPerspective, s, inputs).last;
      r.iface == s.iface && r.prev == s.prev && r.downBps == s.downBps && r.upBps == s.upBps
    decreases |inputs|
  {
    if inputs != [] {
      var s1 := Step(lanPerspective, s, inputs[0]).0;
      if inputs[0].Polled? {
        NotFoundChangesNothing(lanPerspective, s, Observe(s.iface, inputs[0]));
      } else {
        FailureKeepsReadings(lanPerspective, s, inputs[0].message);
      }
      assert NeverFound(s1.iface, inputs[1..]) by {
        forall i | 0 <= i < |inputs| - 1 ensures inputs[1..][i] == inputs[i + 1] { }
      }
      UnfoundSelectorIsKept(lanPerspective, s1, inputs[1..]);
    }
  }

  // ---------------------------------------------------------------------------
  // Startup detection

  /** The name detection settles on from two snapshots, if `if best_name:` lets it through. */
  function Detected(snapshots: (string, string)): Option<string>
  {
    Chosen(Busiest(ParseAllCounters(snapshots.0), ParseAllCounters(snapshots.1)))
  }

  /**
   * The start of poll_loop: for an empty or "auto" selector, two snapshots decide the
   * interface (a raised read leaves the selector as it is); then the re-detection
   * clock starts.
   */
  function Startup(s: PollState, probe: Option<(string, string)>, startedAt: real): (r: PollState)
    ensures r == s.(iface := r.iface, connected := r.connected, lastAutoCheck := startedAt)
    ensures !WantsDetection(s.iface) || probe.None? ==> r == s.(lastAutoCheck := startedAt)
  {
    var detect := WantsDetection(s.iface) && probe.Some?;
    var name := if detect then Detected(probe.value) else None;
    s.(iface := if name.Some? then name.value else s.iface,
       connected := s.connected || detect,
       lastAutoCheck := startedAt)
  }

  // ---------------------------------------------------------------------------
  // One iteration

  /** The counters the iteration reads: summed over the patterns for an aggregate selector. */
  function ReadCounters(iface: string, devText: string): (c: Option<Counters>)
    ensures IsAggregate(iface) ==> c.Some?
  {
    if IsAggregate(iface) then Some(AggregateCounters(iface, ParseAllCounters(devText)))
    else ParseCounters(devText, iface)
  }

  /** drx and dtx: both 0 when either counter went backwards (a counter reset). */
  function Deltas(prev: Sample, c: Counters): (d: Counters)
    ensures d.rx >= 0 && d.tx >= 0
    ensures c.rx >= prev.rx && c.tx >= prev.tx ==> d == Counters(c.rx - prev.rx, c.tx - prev.tx)
    ensures c.rx < prev.rx || c.tx < prev.tx ==> d == Counters(0, 0)
  {
    var drx, dtx := c.rx - prev.rx, c.tx - prev.tx;
    if drx < 0 || dtx < 0 then Counters(0, 0) else Counters(drx, dtx)
  }

  /** dt = max(now - pt, 1e-6) */
  function Elapsed(prev: Sample, now: real): (dt: real)
    ensures dt >= MinElapsed && dt >= now - prev.at
  {
    Max(now - prev.at, MinElapsed)
  }

  datatype Rates = Rates(down: real, up: real)

  /** From the LAN side the AP transmits what clients download: the directions swap. */
  function RatesOf(lanPerspective: bool, d: Counters, dt: real): (r: Rates)
    requires dt > 0.0
    ensures r.down + r.up == (d.rx + d.tx) as real / dt
    ensures d.rx >= 0 && d.tx >= 0 ==> r.down >= 0.0 && r.up >= 0.0
  {
    if lanPerspective then Rates(d.tx as real / dt, d.rx as real / dt)
    else Rates(d.rx as real / dt, d.tx as real / dt)
  }

  /** A status other than up or down is reported as up while traffic flows. */
  function Override(status: LinkStatus, r: Rates): (shown: LinkStatus)
    ensures status == Up || status == Down ==> shown == status
    ensures shown != status ==> shown == Up && (r.down > 0.0 || r.up > 0.0)
  {
    if status != Up && status != Down && (r.down > 0.0 || r.up > 0.0) then Up else status
  }

  /** The re-detection switch condition, with current_delta carried over from an earlier iteration. */
  predicate Switches(aggregate: bool, carriedDelta: Option<int>, best: Best)
    ensures Switches(aggregate, carriedDelta, best) ==>
              !aggregate && carriedDelta.Some? && best.delta > SwitchFloor && best.delta > SwitchFactor * carriedDelta.value
  {
    carriedDelta.Some? && !aggregate && Chosen(best).Some?
    && best.delta > MaxInt(carriedDelta.value * SwitchFactor, SwitchFloor)
  }

  /**
   * What the reads of one iteration returned: the counters for the selector (None:
   * not in the table), the link status, the wall clock after the reads, the monotonic
   * clock at the re-detection check, and, should the check run, the busiest interface
   * of its two snapshots (None: a snapshot read raised) and the monotonic clock after it.
   */
  datatype Observation = Observation(counters: Option<Counters>, status: LinkStatus, now: real,
                                     clock: real, best: Option<Best>, finishedAt: real)

  /** The busiest interface between the probe's snapshots, if both reads returned. */
  function ProbeBest(probe: Probe): Option<Best>
  {
    if probe.snapshots.None? then None
    else Some(Busiest(ParseAllCounters(probe.snapshots.value.0), ParseAllCounters(probe.snapshots.value.1)))
  }

  /** The reads an iteration makes for the selector `iface`. */
  function Observe(iface: string, input: TickInput): Observation
    requires input.Polled?
  {
    Observation(ReadCounters(iface, input.devText), ReadLinkStatus(input.operstate, input.ipLink),
                input.now, input.clock, ProbeBest(input.probe), input.probe.finishedAt)
  }

  /** The re-detection block: a switch resets prev; the check clock restarts either way. */
  function Redetect(aggregate: bool, s: PollState, best: Option<Best>, finishedAt: real): (r: PollState)
    ensures r == s.(iface := r.iface, prev := r.prev, lastAutoCheck := finishedAt)
    ensures r.iface != s.iface || r.prev != s.prev ==> r.prev.None? && r.iface != ""
  {
    var target := if best.Some? && Switches(aggregate, s.carriedDelta, best.value) then Chosen(best.value) else None;
    var s1 := if target.Some? then s.(iface := target.value, prev := None) else s;
    s1.(lastAutoCheck := finishedAt)
  }

  /** The rate block: runs only when a previous sample exists. */
  function Publish(lanPerspective: bool, s: PollState, c: Counters, status: LinkStatus, now: real): (r: PollState)
    ensures r == s.(downBps := r.downBps, upBps := r.upBps, linkStatus := r.linkStatus, carriedDelta := r.carriedDelta)
    ensures s.prev.None? ==> r == s
  {
    if s.prev.None? then s
    else
      var d := Deltas(s.prev.value, c);
      var r := RatesOf(lanPerspective, d, Elapsed(s.prev.value, now));
      s.(downBps := Some(r.down), upBps := Some(r.up), linkStatus := Override(status, r),
         carriedDelta := Some(d.rx + d.tx))
  }

  /** An iteration whose reads all returned, given what they returned. */
  function Advance(lanPerspective: bool, s: PollState, o: Observation): (r: PollState)
    ensures r.connected
    ensures r.iface != s.iface ==> r.prev.None?
  {
    if o.counters.None? then s.(connected := true)
    else
      var c := o.counters.value;
      var s1 := if s.lastErrorText != "" then s.(lastErrorText := "", errorShown := false) else s;
      var s2 := Publish(lanPerspective, s1, c, o.status, o.now);
      var s3 := s2.(prev := Some(Sample(c.rx, c.tx, o.now)), connected := true);
      if o.clock - s.lastAutoCheck > RedetectPeriod then Redetect(IsAggregate(s.iface), s3, o.best, o.finishedAt)
      else s3
  }

  /** The text recorded for a failed iteration. */
  function ErrorText(message: string): (text: string)
    ensures |text| > |ErrorPrefix| && text[..|ErrorPrefix|] == ErrorPrefix
  {
    ErrorPrefix + (if message == "" then DefaultError else message)
  }

  /** One iteration: the new state and whether the error dialog was shown. */
  function Step(lanPerspective: bool, s: PollState, input: TickInput): (r: (PollState, bool))
    ensures r.0.connected <==> input.Polled?
    ensures r.1 ==> input.Failed? && !s.errorShown && r.0.errorShown
  {
    match input
    case Failed(message) =>
      (s.(connected := false, lastErrorText := ErrorText(message), errorShown := true), !s.errorShown)
    case Polled(_, _, _, _, _, _) =>
      (Advance(lanPerspective, s, Observe(s.iface, input)), false)
  }

  /** A polled iteration is Advance applied to what its reads returned. */
  lemma PolledStep(lanPerspective: bool, s: PollState, input: TickInput, reading: Option<Counters>, status: LinkStatus)
    requires input.Polled?
    requires reading == ReadCounters(s.iface, input.devText) && status == ReadLinkStatus(input.operstate, input.ipLink)
    ensures Step(lanPerspective, s, input)
         == (Advance(lanPerspective, s, Observation(reading, status, input.now, input.clock,
                                                    ProbeBest(input.probe), input.probe.finishedAt)), false)
  {
  }

  /** The iteration found counters for the current selector. */
  predicate Found(s: PollState, input: TickInput) {
    input.Polled? && Observe(s.iface, input).counters.Some?
  }

  // ---------------------------------------------------------------------------
  // The state invariant

  /**
   * Rates are published in pairs, never negative, together with the carried delta;
   * the dialog flag is set exactly while an error text is recorded.
   */
  predicate Inv(s: PollState) {
    && (s.downBps.Some? <==> s.upBps.Some?)
    && (s.downBps.Some? <==> s.carriedDelta.Some?)
    && (s.downBps.Some? ==> s.downBps.value >= 0.0 && s.upBps.value >= 0.0)
    && (s.carriedDelta.Some? ==> s.carriedDelta.value >= 0)
    && (s.errorShown <==> s.lastErrorText != "")
  }

  lemma StartupKeepsInv(selector: string, probe: Option<(string, string)>, startedAt: real)
    ensures Inv(Initial(selector)) && Inv(Startup(Initial(selector), probe, startedAt))
  {
  }

  lemma RatesNonNegative(lanPerspective: bool, d: Counters, dt: real)
    requires d.rx >= 0 && d.tx >= 0 && dt > 0.0
    ensures RatesOf(lanPerspective, d, dt).down >= 0.0 && RatesOf(lanPerspective, d, dt).up >= 0.0
  {
  }

  lemma PublishKeepsInv(lanPerspective: bool, s: PollState, c: Counters, status: LinkStatus, now: real)
    requires Inv(s)
    ensures Inv(Publish(lanPerspective, s, c, status, now))
  {
    if s.prev.Some? {
      RatesNonNegative(lanPerspective, Deltas(s.prev.value, c), Elapsed(s.prev.value, now));
    }
  }

  lemma AdvanceKeepsInv(lanPerspective: bool, s: PollState, o: Observation)
    requires Inv(s)
    ensures Inv(Advance(lanPerspective, s, o))
  {
    if o.counters.Some? {
      var s1 := if s.lastErrorText != "" then s.(lastErrorText := "", errorShown := false) else s;
      PublishKeepsInv(lanPerspective, s1, o.counters.value, o.status, o.now);
    }
  }

  /** Every iteration keeps the invariant. */
  lemma StepKeepsInv(lanPerspective: bool, s: PollState, input: TickInput)
    requires Inv(s)
    ensures Inv(Step(lanPerspective, s, input).0)
  {
    if input.Polled? {
      AdvanceKeepsInv(lanPerspective, s, Observe(s.iface, input));
    } else {
      assert ErrorText(input.message) != "";
    }
  }

  // ---------------------------------------------------------------------------
  // Rates

  /** The rates and status an iteration with counters and a previous sample publishes. */
  lemma PublishedRates(lanPerspective: bool, s: PollState, o: Observation)
    requires o.counters.Some? && s.prev.Some?
    ensures var d := Deltas(s.prev.value, o.counters.value);
      var rates := RatesOf(lanPerspective, d, Elapsed(s.prev.value, o.now));
      var r := Advance(lanPerspective, s, o);
      && r.downBps == Some(rates.down) && r.upBps == Some(rates.up)
      && r.linkStatus == Override(o.status, rates)
      && r.carriedDelta == Some(d.rx + d.tx)
  {
  }

  /**
   * With a previous sample and counters that did not go backwards, the published
   * rates are the deltas over the elapsed time (at least 1e-6 s), in the direction the
   * perspective asks for, and never negative.
   */
  lemma RatesAreDeltasOverTime(lanPerspective: bool, s: PollState, o: Observation)
    requires o.counters.Some? && s.prev.Some?
    requires o.counters.value.rx >= s.prev.value.rx && o.counters.value.tx >= s.prev.value.tx
    ensures var c, p := o.counters.value, s.prev.value;
      var dt := Max(o.now - p.at, MinElapsed);
      var r := Advance(lanPerspective, s, o);
      && dt > 0.0
      && r.downBps == Some((if lanPerspective then c.tx - p.tx else c.rx - p.rx) as real / dt)
      && r.upBps == Some((if lanPerspective then c.rx - p.rx else c.tx - p.tx) as real / dt)
      && r.downBps.value >= 0.0 && r.upBps.value >= 0.0
  {
    var c, p := o.counters.value, s.prev.value;
    RatesNonNegative(lanPerspective, Deltas(p, c), Elapsed(p, o.now));
    PublishedRates(lanPerspective, s, o);
  }

  /** A counter that went backwards publishes zero for both directions, and the status as read. */
  lemma CounterResetPublishesZero(lanPerspective: bool, s: PollState, o: Observation)
    requires o.counters.Some? && s.prev.Some?
    requires o.counters.value.rx < s.prev.value.rx || o.counters.value.tx < s.prev.value.tx
    ensures var r := Advance(lanPerspective, s, o);
      r.downBps == Some(0.0) && r.upBps == Some(0.0) && r.linkStatus == o.status
  {
    PublishedRates(lanPerspective, s, o);
  }

  /** The two perspectives publish the same pair of rates, swapped. */
  lemma PerspectiveSwapsRates(s: PollState, o: Observation)
    requires o.counters.Some? && s.prev.Some?
    ensures Advance(true, s, o).downBps == Advance(false, s, o).upBps
    ensures Advance(true, s, o).upBps == Advance(false, s, o).downBps
  {
    PublishedRates(true, s, o);
    PublishedRates(false, s, o);
  }

  lemma PositiveRate(lanPerspective: bool, d: Counters, dt: real)
    requires d.rx >= 0 && d.tx >= 0 && dt > 0.0
    ensures var r := RatesOf(lanPerspective, d, dt); r.down > 0.0 || r.up > 0.0 <==> d.rx + d.tx > 0
  {
    if d.rx > 0 {
      assert d.rx as real / dt > 0.0;
    }
    if d.tx > 0 {
      assert d.tx as real / dt > 0.0;
    }
  }

  /**
   * The published status: up when the read said up, or said neither up nor down
   * while some traffic moved; down exactly when the read said down.
   */
  lemma StatusOverride(lanPerspective: bool, s: PollState, o: Observation)
    requires o.counters.Some? && s.prev.Some?
    ensures var d := Deltas(s.prev.value, o.counters.value);
      var r := Advance(lanPerspective, s, o);
      && (r.linkStatus == Up <==> o.status == Up || (o.status == Unknown && d.rx + d.tx > 0))
      && (r.linkStatus == Down <==> o.status == Down)
  {
    var d := Deltas(s.prev.value, o.counters.value);
    PublishedRates(lanPerspective, s, o);
    PositiveRate(lanPerspective, d, Elapsed(s.prev.value, o.now));
  }

  /**
   * The first iteration with counters after a start or a switch publishes nothing:
   * rates, status and the current delta stay as they were.
   */
  lemma FirstSamplePublishesNothing(lanPerspective: bool, s: PollState, o: Observation)
    requires o.counters.Some? && s.prev.None?
    ensures var r := Advance(lanPerspective, s, o);
      r.downBps == s.downBps && r.upBps == s.upBps && r.linkStatus == s.linkStatus
      && r.carriedDelta == s.carriedDelta
  {
  }

  /**
   * An iteration with counters clears the error and records its sample, unless it
   * switched interface, which leaves no sample.
   */
  lemma FoundRecordsSample(lanPerspective: bool, s: PollState, o: Observation)
    requires o.counters.Some?
    ensures var c, r := o.counters.value, Advance(lanPerspective, s, o);
      && (r.prev == Some(Sample(c.rx, c.tx, o.now)) || (r.prev == None && r.lastAutoCheck == o.finishedAt))
      && r.lastErrorText == "" && r.errorShown == (s.errorShown && s.lastErrorText == "") && r.connected
  {
  }

  /** An iteration that finds no counters changes nothing but the connection. */
  lemma NotFoundChangesNothing(lanPerspective: bool, s: PollState, o: Observation)
    requires o.counters.None?
    ensures Advance(lanPerspective, s, o) == s.(connected := true)
  {
  }

  // ---------------------------------------------------------------------------
  // Re-detection

  /**
   * Re-detection runs on an iteration with counters more than 5 s (monotonic) after
   * the last check. It switches, and drops the previous sample, exactly when the
   * probe's reads returned, the selector is not an aggregate, a current delta exists,
   * the busiest name is non-empty and its delta beats both 4 times the current delta
   * and 200 KiB.
   */
  lemma SwitchExactlyWhen(lanPerspective: bool, s: PollState, o: Observation)
    requires o.counters.Some? && o.clock - s.lastAutoCheck > RedetectPeriod
    ensures var r := Advance(lanPerspective, s, o);
      var carried := Publish(lanPerspective, s, o.counters.value, o.status, o.now).carriedDelta;
      && r.lastAutoCheck == o.finishedAt
      && (r.prev.None? <==> o.best.Some? && Switches(IsAggregate(s.iface), carried, o.best.value))
      && (r.prev.None? ==> Some(r.iface) == Chosen(o.best.value))
      && (r.prev.Some? ==> r.iface == s.iface)
  {
  }

  /** Until 5 s have passed since the last check, the interface and the check clock stay. */
  lemma NoRedetectWithinPeriod(lanPerspective: bool, s: PollState, o: Observation)
    requires o.clock - s.lastAutoCheck <= RedetectPeriod
    ensures Advance(lanPerspective, s, o).iface == s.iface
    ensures Advance(lanPerspective, s, o).lastAutoCheck == s.lastAutoCheck
  {
  }

  /** A busiest delta within the margin never switches, however busy the other interface is. */
  lemma WithinMarginNoSwitch(aggregate: bool, carried: int, best: Best)
    requires best.delta <= MaxInt(carried * SwitchFactor, SwitchFloor)
    ensures !Switches(aggregate, Some(carried), best)
  {
  }

  /** An aggregate selector is never replaced. */
  lemma AggregateNeverSwitches(lanPerspective: bool, s: PollState, o: Observation)
    requires IsAggregate(s.iface)
    ensures Advance(lanPerspective, s, o).iface == s.iface
  {
  }

  /**
   * While no iteration has computed rates there is no current delta, so the
   * interface stays. (After a switch there is one: see SwitchCarriesOldDelta.)
   */
  lemma NoSwitchWithoutCurrentDelta(lanPerspective: bool, s: PollState, o: Observation)
    requires s.prev.None? && s.carriedDelta.None?
    ensures Advance(lanPerspective, s, o).iface == s.iface
  {
  }

  /**
   * A switch keeps the current delta of the interface switched away from. The next
   * found iteration has no previous sample, publishes nothing and computes no new
   * delta, so a re-detection in it compares against that old delta.
   */
  lemma SwitchCarriesOldDelta(lanPerspective: bool, s: PollState, o: Observation, next: Observation)
    requires o.counters.Some? && next.counters.Some?
    requires Advance(lanPerspective, s, o).iface != s.iface
    ensures var r := Advance(lanPerspective, s, o);
      && r.carriedDelta.Some?
      && r.carriedDelta == Publish(lanPerspective, s, o.counters.value, o.status, o.now).carriedDelta
      && Publish(lanPerspective, r, next.counters.value, next.status, next.now) == r
  {
  }

  // ---------------------------------------------------------------------------
  // Failures and the error dialog

  /**
   * A failed iteration closes the session and records the error text; the previous
   * sample, the published rates and status, the selector and the clocks are untouched.
   * The dialog is shown only if it was not already.
   */
  lemma FailureKeepsReadings(lanPerspective: bool, s: PollState, message: string)
    ensures var (r, notified) := Step(lanPerspective, s, Failed(message));
      && !r.connected && r.errorShown && notified == !s.errorShown
      && r.lastErrorText == ErrorPrefix + (if message == "" then DefaultError else message)
      && r.prev == s.prev && r.downBps == s.downBps && r.upBps == s.upBps
      && r.linkStatus == s.linkStatus && r.iface == s.iface
      && r.carriedDelta == s.carriedDelta && r.lastAutoCheck == s.lastAutoCheck
  {
  }

  /** A polled iteration never shows the dialog; it clears the error exactly when it found counters. */
  lemma PolledDialog(lanPerspective: bool, s: PollState, input: TickInput)
    requires input.Polled? && Inv(s)
    ensures !Step(lanPerspective, s, input).1
    ensures Found(s, input) ==> !Step(lanPerspective, s, input).0.errorShown
    ensures !Found(s, input) ==> Step(lanPerspective, s, input).0.errorShown == s.errorShown
  {
    var o := Observe(s.iface, input);
    assert Step(lanPerspective, s, input) == (Advance(lanPerspective, s, o), false);
    if o.counters.Some? {
      FoundRecordsSample(lanPerspective, s, o);
    } else {
      NotFoundChangesNothing(lanPerspective, s, o);
    }
  }

  /** Iterations in order: the final state, the dialogs shown, and the iterations that cleared an error. */
  datatype Outcome = Outcome(last: PollState, notified: nat, cleared: nat)

  function Run(lanPerspective: bool, s: PollState, inputs: seq<TickInput>): Outcome
    decreases |inputs|
  {
    if inputs == [] then Outcome(s, 0, 0)
    else
      var (s1, shown) := Step(lanPerspective, s, inputs[0]);
      var rest := Run(lanPerspective, s1, inputs[1..]);
      var clears := Found(s, inputs[0]) && s.lastErrorText != "";
      Outcome(rest.last, rest.notified + (if shown then 1 else 0), rest.cleared + (if clears then 1 else 0))
  }

  predicate AllFailed(inputs: seq<TickInput>) {
    forall i :: 0 <= i < |inputs| ==> inputs[i].Failed?
  }

  /**
   * However many iterations fail in a row, the dialog is shown at most once: once if
   * it was not showing, never if it was; the previous sample survives the outage.
   */
  lemma {:induction false} OutageNotifiesOnce(lanPerspective: bool, s: PollState, inputs: seq<TickInput>)
    requires |inputs| >= 1 && AllFailed(inputs)
    ensures Run(lanPerspective, s, inputs).notified == if s.errorShown then 0 else 1
    ensures Run(lanPerspective, s, inputs).last.errorShown
    ensures Run(lanPerspective, s, inputs).last.prev == s.prev
    decreases |inputs|
  {
    FailureKeepsReadings(lanPerspective, s, inputs[0].message);
    var s1 := Step(lanPerspective, s, inputs[0]).0;
    if |inputs| > 1 {
      assert AllFailed(inputs[1..]) by {
        forall i | 0 <= i < |inputs| - 1 ensures inputs[1..][i].Failed? {
          assert inputs[1..][i] == inputs[i + 1];
        }
      }
      OutageNotifiesOnce(lanPerspective, s1, inputs[1..]);
    }
  }

  /**
   * Over any run, dialogs shown plus "not showing at the end" equals iterations that
   * cleared an error plus "not showing at the start": a new dialog needs an
   * intervening success.
   */
  lemma {:induction false} NotificationsBalanceRecoveries(lanPerspective: bool, s: PollState, inputs: seq<TickInput>)
    requires Inv(s)
    ensures var o := Run(lanPerspective, s, inputs);
      o.notified + (if o.last.errorShown then 0 else 1) == o.cleared + (if s.errorShown then 0 else 1)
    ensures Run(lanPerspective, s, inputs).notified <= Run(lanPerspective, s, inputs).cleared + 1
    decreases |inputs|
  {
    if inputs != [] {
      var s1 := Step(lanPerspective, s, inputs[0]).0;
      StepKeepsInv(lanPerspective, s, inputs[0]);
      NotificationsBalanceRecoveries(lanPerspective, s1, inputs[1..]);
      if inputs[0].Polled? {
        PolledDialog(lanPerspective, s, inputs[0]);
      } else {
        FailureKeepsReadings(lanPerspective, s, inputs[0].message);
      }
    }
  }

  /**
   * After a failure the next iteration with counters still rates against the sample
   * taken before it, not against nothing.
   */
  lemma StaleSampleAfterOutage(lanPerspective: bool, s: PollState, message: string, o: Observation)
    requires s.prev.Some? && o.counters.Some?
    ensures var s1 := Step(lanPerspective, s, Failed(message)).0;
      s1.prev == s.prev && Advance(lanPerspective, s1, o).downBps.Some?
  {
    var s1 := Step(lanPerspective, s, Failed(message)).0;
    FailureKeepsReadings(lanPerspective, s, message);
    PublishedRates(lanPerspective, s1, o);
  }

  // ---------------------------------------------------------------------------
  // Startup detection

  /**
   * For an empty or "auto" selector whose probe returned, startup takes the first
   * busiest interface of the first snapshot, provided its name is not empty; an
   * empty first snapshot leaves the selector. Other selectors are kept as given.
   */
  lemma StartupDetects(s: PollState, probe: Option<(string, string)>, startedAt: real)
    ensures var r := Startup(s, probe, startedAt);
      && r.lastAutoCheck == startedAt
      && (!WantsDetection(s.iface) || probe.None? ==> r.iface == s.iface)
      && (WantsDetection(s.iface) && probe.Some? ==>
            var first, second := ParseAllCounters(probe.value.0), ParseAllCounters(probe.value.1);
            && (first == [] ==> r.iface == s.iface)
            && (first != [] ==>
                  exists k :: IsFirstMaximum(first, second, k)
                    && r.iface == if first[k].name != "" then first[k].name else s.iface))
  {
    if WantsDetection(s.iface) && probe.Some? {
      BusiestIsFirstMaximum(ParseAllCounters(probe.value.0), ParseAllCounters(probe.value.1));
    }
  }
}
