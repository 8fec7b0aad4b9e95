/**
 The filament tension sensor
 (libs/MachineServiceComponent/src/FilamentTensionSensorService.cpp): edges on three pins are
 classified into tension events; only changes are reported, and a timer repeats a low or high
 tension until it is normal again. Handlers are atomic here.
 */
module TensionSensors {
  import opened Sequences

  datatype Tension = Low | Normal | High | Overload

  datatype EdgeType = RisingEdge | FallingEdge | Timeout

  datatype Edge = Edge(edge: EdgeType, pin: string)

  /** The identifiers of the three observed pins. */
  datatype Pins = Pins(low: string, high: string, overload: string)

  /** The event an edge stands for, given the one before it. */
  function Classify(pins: Pins, e: Edge, last: Tension): Tension {
    match e.edge
    case RisingEdge =>
      if e.pin == pins.overload then Overload
      else if e.pin == pins.low then Low
      else if e.pin == pins.high then High
      else Normal
    case FallingEdge => if e.pin == pins.overload then High else Normal
    case Timeout => last
  }

  // ---------------------------------------------------------------------------------------------
  // The stream of edges, said without the handler's state

  /** The tension each edge stands for; a timeout stands for none. */
  function Tensions(pins: Pins, edges: seq<Edge>): seq<Tension>
    decreases |edges|
  {
    if edges == [] then []
    else
      var before, last := edges[..|edges| - 1], edges[|edges| - 1];
      if last.edge == Timeout then Tensions(pins, before)
      else Tensions(pins, before) + [Classify(pins, last, Normal)]
  }

  /** A list without its repetitions, and without leading elements equal to `first`. */
  function Destutter(first: Tension, ts: seq<Tension>): seq<Tension>
    decreases |ts|
  {
    if ts == [] then []
    else
      var n := |ts| - 1;
      var before := Destutter(first, ts[..n]);
      if ts[n] == (if n == 0 then first else ts[n - 1]) then before else before + [ts[n]]
  }

  /** What de-stuttering promises: no repetition is left, and the list still ends the same way. */
  lemma {:induction false} DestutterHasNoRepetition(first: Tension, ts: seq<Tension>)
    ensures var d := Destutter(first, ts);
            && (d != [] ==> d[0] != first)
            && (forall i :: 0 < i < |d| ==> d[i] != d[i - 1])
            && (if d == [] then first else d[|d| - 1]) == (if ts == [] then first else ts[|ts| - 1])
    decreases |ts|
  {
    if ts != [] {
      var n := |ts| - 1;
      DestutterHasNoRepetition(first, ts[..n]);
    }
  }

  // ---------------------------------------------------------------------------------------------
  // The service on values

  /** An event reported to the component: by an edge, or repeated by the timer. */
  datatype Report = ByEdge(tension: Tension) | ByTimer(tension: Tension)

  datatype Service = Service(last: Tension, timerRuns: bool, reports: seq<Report>)

  function HandleEdge(pins: Pins, s: Service, e: Edge): Service {
    var current := Classify(pins, e, s.last);
    if current == s.last then s
    else Service(current, current != Normal, s.reports + [ByEdge(current)])
  }

  /** The timer calls the repetition only while it runs. */
  function HandleTimer(s: Service): Service {
    if s.timerRuns && RepeatedTension(s.last) then s.(reports := s.reports + [ByTimer(s.last)]) else s
  }

  datatype Input = EdgeSeen(e: Edge) | TimerFired

  function Handle(pins: Pins, s: Service, input: Input): Service {
    match input
    case EdgeSeen(e) => HandleEdge(pins, s, e)
    case TimerFired => HandleTimer(s)
  }

  function RunService(pins: Pins, s: Service, inputs: seq<Input>): Service
    decreases |inputs|
  {
    if inputs == [] then s
    else Handle(pins, RunService(pins, s, inputs[..|inputs| - 1]), inputs[|inputs| - 1])
  }

  function Edges(inputs: seq<Input>): seq<Edge>
    decreases |inputs|
  {
    if inputs == [] then []
    else
      var last := inputs[|inputs| - 1];
      var before := Edges(inputs[..|inputs| - 1]);
      if last.EdgeSeen? then before + [last.e] else before
  }

  function EdgeReports(reports: seq<Report>): seq<Tension>
    decreases |reports|
  {
    if reports == [] then []
    else
      var last := reports[|reports| - 1];
      var before := EdgeReports(reports[..|reports| - 1]);
      if last.ByEdge? then before + [last.tension] else before
  }

  /** A new service: the tension is Normal, the timer is off. */
  const NEW_SERVICE := Service(Normal, false, [])

  lemma TensionsStep(pins: Pins, edges: seq<Edge>, e: Edge)
    ensures Tensions(pins, edges + [e])
         == if e.edge == Timeout then Tensions(pins, edges)
            else Tensions(pins, edges) + [Classify(pins, e, Normal)]
  {
    assert (edges + [e])[..|edges|] == edges;
  }

  lemma DestutterStep(first: Tension, ts: seq<Tension>, t: Tension)
    ensures Destutter(first, ts + [t])
         == if t == (if ts == [] then first else ts[|ts| - 1]) then Destutter(first, ts)
            else Destutter(first, ts) + [t]
  {
    assert (ts + [t])[..|ts|] == ts;
  }

  lemma EdgeReportsStep(reports: seq<Report>, r: Report)
    ensures EdgeReports(reports + [r])
         == if r.ByEdge? then EdgeReports(reports) + [r.tension] else EdgeReports(reports)
  {
    assert (reports + [r])[..|reports|] == reports;
  }

  predicate RepeatedTension(t: Tension) {
    t == Low || t == High
  }

  /** The timer runs exactly while the tension is not normal, and repeats only Low and High. */
  ghost predicate Consistent(s: Service) {
    && (s.timerRuns <==> s.last != Normal)
    && forall i :: 0 <= i < |s.reports| && s.reports[i].ByTimer? ==> s.reports[i].tension in {Low, High}
  }

  /** Besides what was reported `earlier`, the service has reported exactly the changes of ts, from Normal. */
  ghost predicate Follows(s: Service, earlier: seq<Tension>, ts: seq<Tension>) {
    && EdgeReports(s.reports) == earlier + Destutter(Normal, ts)
    && s.last == (if ts == [] then Normal else ts[|ts| - 1])
  }

  lemma EdgeConsistent(pins: Pins, s: Service, e: Edge)
    requires Consistent(s)
    ensures Consistent(HandleEdge(pins, s, e))
  {
  }

  lemma EdgeFollows(pins: Pins, s: Service, earlier: seq<Tension>, ts: seq<Tension>, e: Edge)
    requires Follows(s, earlier, ts)
    ensures Follows(HandleEdge(pins, s, e), earlier, if e.edge == Timeout then ts else ts + [Classify(pins, e, Normal)])
  {
    if e.edge != Timeout {
      var t := Classify(pins, e, Normal);
      assert Classify(pins, e, s.last) == t;
      DestutterStep(Normal, ts, t);
      EdgeReportsStep(s.reports, ByEdge(t));
      AppendIsAssociative(earlier, Destutter(Normal, ts), [t]);
    }
  }

  lemma TimerConsistent(s: Service)
    requires Consistent(s)
    ensures Consistent(HandleTimer(s))
  {
  }

  lemma TimerFollows(s: Service, earlier: seq<Tension>, ts: seq<Tension>)
    requires Follows(s, earlier, ts)
    ensures Follows(HandleTimer(s), earlier, ts)
  {
    EdgeReportsStep(s.reports, ByTimer(s.last));
  }

  /** Whether the timer is on after these tensions: as before, unless they change; then iff the last is not Normal. */
  predicate TimerAfter(on: bool, ts: seq<Tension>) {
    if Destutter(Normal, ts) == [] then on else ts[|ts| - 1] != Normal
  }

  /** What the timer repeats on top of the earlier reports. */
  ghost predicate RepeatsOnlyLowAndHigh(reports: seq<Report>, earlier: seq<Report>) {
    && earlier <= reports
    && forall i :: |earlier| <= i < |reports| && reports[i].ByTimer? ==> reports[i].tension in {Low, High}
  }

  lemma TimerAfterStep(pins: Pins, s: Service, on: bool, ts: seq<Tension>, e: Edge)
    requires s.last == (if ts == [] then Normal else ts[|ts| - 1]) && s.timerRuns == TimerAfter(on, ts)
    ensures HandleEdge(pins, s, e).timerRuns ==
            TimerAfter(on, if e.edge == Timeout then ts else ts + [Classify(pins, e, Normal)])
  {
    if e.edge != Timeout {
      DestutterStep(Normal, ts, Classify(pins, e, Normal));
      assert Classify(pins, e, s.last) == Classify(pins, e, Normal);
      DestutterHasNoRepetition(Normal, ts);
    }
  }

  /** The state of a service that was started with these reports and this timer, and has seen these tensions. */
  ghost predicate Tracks(s: Service, on: bool, earlier: seq<Report>, ts: seq<Tension>) {
    && Follows(s, EdgeReports(earlier), ts)
    && s.timerRuns == TimerAfter(on, ts)
    && RepeatsOnlyLowAndHigh(s.reports, earlier)
  }

  lemma EdgeTracks(pins: Pins, s: Service, on: bool, earlier: seq<Report>, edges: seq<Edge>, e: Edge)
    requires Tracks(s, on, earlier, Tensions(pins, edges))
    ensures Tracks(HandleEdge(pins, s, e), on, earlier, Tensions(pins, edges + [e]))
  {
    var ts := Tensions(pins, edges);
    TensionsStep(pins, edges, e);
    EdgeFollows(pins, s, EdgeReports(earlier), ts, e);
    TimerAfterStep(pins, s, on, ts, e);
    RepeatsStep(s.reports, earlier, ByEdge(Classify(pins, e, s.last)));
  }

  lemma TimerTracks(s: Service, on: bool, earlier: seq<Report>, ts: seq<Tension>)
    requires Tracks(s, on, earlier, ts)
    ensures Tracks(HandleTimer(s), on, earlier, ts)
  {
    TimerFollows(s, EdgeReports(earlier), ts);
    RepeatsStep(s.reports, earlier, ByTimer(s.last));
  }

  lemma RepeatsStep(reports: seq<Report>, earlier: seq<Report>, r: Report)
    requires RepeatsOnlyLowAndHigh(reports, earlier)
    ensures r.ByEdge? || r.tension in {Low, High} ==> RepeatsOnlyLowAndHigh(reports + [r], earlier)
  {
  }

  /**
   Main result: after a start, with the timer on or off before it, whatever edges and timer ticks come
   in whatever order, the events reported by edges are the de-stuttered tensions of the edges, the last
   one is the current tension, the timer follows the changes, and repeats only Low and High.
   */
  lemma {:induction false} ReportsAreTheDestutteredEdges(
      pins: Pins, on: bool, earlier: seq<Report>, inputs: seq<Input>)
    ensures Tracks(RunService(pins, Service(Normal, on, earlier), inputs), on, earlier, Tensions(pins, Edges(inputs)))
    decreases |inputs|
  {
    if inputs == [] {
      assert EdgeReports(earlier) + [] == EdgeReports(earlier);
    } else {
      var before, input := inputs[..|inputs| - 1], inputs[|inputs| - 1];
      ReportsAreTheDestutteredEdges(pins, on, earlier, before);
      var s := RunService(pins, Service(Normal, on, earlier), before);
      match input
      case EdgeSeen(e) => EdgeTracks(pins, s, on, earlier, Edges(before), e);
      case TimerFired => TimerTracks(s, on, earlier, Tensions(pins, Edges(before)));
    }
  }

  /** With the timer off before the start, it runs exactly while the tension is not Normal. */
  lemma {:induction false} RunsStayConsistent(pins: Pins, s: Service, inputs: seq<Input>)
    requires Consistent(s)
    ensures Consistent(RunService(pins, s, inputs))
    decreases |inputs|
  {
    if inputs != [] {
      var before, input := inputs[..|inputs| - 1], inputs[|inputs| - 1];
      RunsStayConsistent(pins, s, before);
      match input
      case EdgeSeen(e) => EdgeConsistent(pins, RunService(pins, s, before), e);
      case TimerFired => TimerConsistent(RunService(pins, s, before));
    }
  }

  /** In general it does unless it was on before the start and nothing has changed since. */
  lemma TimerRunsIffNotNormal(pins: Pins, on: bool, earlier: seq<Report>, inputs: seq<Input>)
    ensures var s := RunService(pins, Service(Normal, on, earlier), inputs);
            (s.timerRuns <==> s.last != Normal) <==> !on || Destutter(Normal, Tensions(pins, Edges(inputs))) != []
  {
    ReportsAreTheDestutteredEdges(pins, on, earlier, inputs);
    DestutterHasNoRepetition(Normal, Tensions(pins, Edges(inputs)));
  }

  lemma RunOneMore(pins: Pins, s: Service, inputs: seq<Input>, input: Input)
    ensures RunService(pins, s, inputs + [input]) == Handle(pins, RunService(pins, s, inputs), input)
  {
    assert (inputs + [input])[..|inputs|] == inputs;
  }

  /**
   Main result on the pins: in every run the tension is what the last rising or falling edge says. A rising
   edge says Overload, Low or High by its pin, a falling one High if the overload is over, and any other Normal.
   */
  lemma {:induction false} TensionIsOfTheLastEdge(pins: Pins, s: Service, inputs: seq<Input>, k: nat)
    requires k < |inputs| && inputs[k].EdgeSeen? && inputs[k].e.edge != Timeout
    requires forall j :: k < j < |inputs| ==> inputs[j].TimerFired? || inputs[j].e.edge == Timeout
    ensures var e, tension := inputs[k].e, RunService(pins, s, inputs).last;
            if e.edge == RisingEdge then
              && (e.pin == pins.overload ==> tension == Overload)
              && (e.pin == pins.low != pins.overload ==> tension == Low)
              && (e.pin == pins.high && e.pin !in {pins.low, pins.overload} ==> tension == High)
              && (e.pin !in {pins.low, pins.high, pins.overload} ==> tension == Normal)
            else tension == if e.pin == pins.overload then High else Normal
    decreases |inputs|
  {
    var n := |inputs| - 1;
    if k < n {
      TensionIsOfTheLastEdge(pins, s, inputs[..n], k);
    }
  }

  /** Before the first such edge it is what it was. */
  lemma {:induction false} NoEdgeNoChange(pins: Pins, s: Service, inputs: seq<Input>)
    requires forall j :: 0 <= j < |inputs| ==> inputs[j].TimerFired? || inputs[j].e.edge == Timeout
    ensures RunService(pins, s, inputs).last == s.last
    decreases |inputs|
  {
    if inputs != [] { NoEdgeNoChange(pins, s, inputs[..|inputs| - 1]); }
  }

  /** Started with the timer off, a tick repeats the tension iff that is Low or High. */
  lemma TickRepeatsTheTension(pins: Pins, inputs: seq<Input>)
    ensures var s, s' := RunService(pins, NEW_SERVICE, inputs), RunService(pins, NEW_SERVICE, inputs + [TimerFired]);
            && s'.last == s.last && s'.timerRuns == s.timerRuns
            && s'.reports == s.reports + if s.last in {Low, High} then [ByTimer(s.last)] else []
  {
    RunsStayConsistent(pins, NEW_SERVICE, inputs);
    RunOneMore(pins, NEW_SERVICE, inputs, TimerFired);
  }

  /**
   One start: which of the three observers start, in their order, and what comes in before the second
   and before the third: edges of those already started, and ticks of a timer that is still on.
   */
  datatype Start = Start(low: bool, first: seq<Input>, high: bool, second: seq<Input>, overload: bool) {
    predicate Succeeds() {
      low && high && overload
    }

    /** What is handled before the start succeeds or fails. */
    function Seen(): seq<Input> {
      if !low then [] else if !high then first else first + second
    }
  }

  function Started(pins: Pins, s: Service, start: Start): Service {
    RunService(pins, s.(last := Normal), start.Seen())
  }

  // ---------------------------------------------------------------------------------------------
  // The service itself

  class FilamentTensionSensorService {
    const pins: Pins
    var lowObserved: bool
    var highObserved: bool
    var overloadObserved: bool
    var lastFilamentTensionEvent: Tension
    var repeatTimerRuns: bool
    ghost var reports: seq<Report>

    ghost function State(): Service
      reads this
    {
      Service(lastFilamentTensionEvent, repeatTimerRuns, reports)
    }

    constructor (pins: Pins)
      ensures this.pins == pins && State() == NEW_SERVICE
      ensures !lowObserved && !highObserved && !overloadObserved
    {
      this.pins := pins;
      lowObserved, highObserved, overloadObserved := false, false, false;
      lastFilamentTensionEvent, repeatTimerRuns, reports := Normal, false, [];
    }

    /** Starts the three observers one after the other, and gives up at the first that does not start. */
    method StartSensorObservation(start: Start) returns (ok: bool)
      requires !lowObserved && !highObserved && !overloadObserved // asserted here and by each observer
      modifies this
      ensures ok == start.Succeeds()
      ensures State() == Started(pins, old(State()), start)
      ensures repeatTimerRuns == TimerAfter(old(repeatTimerRuns), Tensions(pins, Edges(start.Seen())))
      ensures ok ==> lowObserved && highObserved && overloadObserved
      ensures !ok ==> !lowObserved && !highObserved && !overloadObserved
    {
      ghost var initial := Service(Normal, old(repeatTimerRuns), old(reports));
      TimerAfterStart(pins, old(State()), start);
      lastFilamentTensionEvent := Normal;
      if !start.low {
        return false;
      }
      lowObserved := true;
      Deliver(start.first);
      if !start.high {
        lowObserved := false;
        return false;
      }
      highObserved := true;
      RunAppend(pins, initial, start.first, start.second);
      Deliver(start.second);
      if !start.overload {
        lowObserved, highObserved := false, false;
        return false;
      }
      overloadObserved := true;
      return true;
    }

    method Deliver(inputs: seq<Input>)
      modifies this`lastFilamentTensionEvent, this`repeatTimerRuns, this`reports
      ensures State() == RunService(pins, old(State()), inputs)
    {
      for i := 0 to |inputs|
        invariant State() == RunService(pins, old(State()), inputs[..i])
      {
        assert inputs[..i + 1][..i] == inputs[..i];
        match inputs[i] {
          case EdgeSeen(e) => HandleFilamentTensionEvent(e);
          case TimerFired =>
            if repeatTimerRuns { RepeatFilamentTensionEvent(); }
        }
      }
      assert inputs[..|inputs|] == inputs;
    }

    method StopSensorObservation()
      modifies this
      ensures !lowObserved && !highObserved && !overloadObserved
      ensures State() == old(State()).(timerRuns := false)
    {
      lowObserved, highObserved, overloadObserved := false, false, false;
      repeatTimerRuns := false;
    }

    method RepeatFilamentTensionEvent()
      requires repeatTimerRuns
      modifies this`reports
      ensures State() == HandleTimer(old(State()))
      ensures reports == old(reports) +
                if lastFilamentTensionEvent in {Low, High} then [ByTimer(lastFilamentTensionEvent)] else []
    {
      if lastFilamentTensionEvent == Low || lastFilamentTensionEvent == High {
        reports := reports + [ByTimer(lastFilamentTensionEvent)];
      }
    }

    method HandleFilamentTensionEvent(event: Edge)
      modifies this`lastFilamentTensionEvent, this`repeatTimerRuns, this`reports
      ensures State() == HandleEdge(pins, old(State()), event)
      ensures event.edge == RisingEdge ==>
                lastFilamentTensionEvent ==
                if event.pin == pins.overload then Overload else if event.pin == pins.low then Low
                else if event.pin == pins.high then High else Normal
      ensures event.edge == FallingEdge ==>
                lastFilamentTensionEvent == if event.pin == pins.overload then High else Normal
      ensures event.edge == Timeout || lastFilamentTensionEvent == old(lastFilamentTensionEvent) ==>
                State() == old(State())
      ensures lastFilamentTensionEvent != old(lastFilamentTensionEvent) ==>
                && reports == old(reports) + [ByEdge(lastFilamentTensionEvent)]
                && (repeatTimerRuns <==> lastFilamentTensionEvent != Normal)
    {
      var currentEvent := Normal;
      match event.edge {
        case RisingEdge =>
          if event.pin == pins.overload {
            currentEvent := Overload;
          } else if event.pin == pins.low {
            currentEvent := Low;
          } else if event.pin == pins.high {
            currentEvent := High;
          }
        case FallingEdge =>
          if event.pin == pins.overload {
            currentEvent := High;
          } else {
            currentEvent := Normal;
          }
        case Timeout =>
          currentEvent := lastFilamentTensionEvent;
      }
      if currentEvent != lastFilamentTensionEvent {
        lastFilamentTensionEvent := currentEvent;
        reports := reports + [ByEdge(lastFilamentTensionEvent)];
        if currentEvent == Normal {
          repeatTimerRuns := false;
        } else if !repeatTimerRuns {
          repeatTimerRuns := true;
        }
      }
    }
  }

  lemma {:induction false} RunAppend(pins: Pins, s: Service, a: seq<Input>, b: seq<Input>)
    ensures RunService(pins, s, a + b) == RunService(pins, RunService(pins, s, a), b)
    decreases |b|
  {
    if b == [] {
      assert a + b == a;
    } else {
      var before := b[..|b| - 1];
      assert (a + b)[..|a + b| - 1] == a + before;
      RunAppend(pins, s, a, before);
    }
  }

  // ---------------------------------------------------------------------------------------------
  // Failed starts

  /** A start, whether it succeeds or fails, leaves the timer as the edges seen meanwhile decide. */
  lemma TimerAfterStart(pins: Pins, s: Service, start: Start)
    ensures Started(pins, s, start).timerRuns == TimerAfter(s.timerRuns, Tensions(pins, Edges(start.Seen())))
  {
    ReportsAreTheDestutteredEdges(pins, s.timerRuns, s.reports, start.Seen());
  }

  /**
   "The repeat timer is off while the sensor is not observed" is false: a start that fails stops the
   observers but not the timer. It leaves the timer on exactly if its first observer started and the
   last tension of the edges delivered meanwhile is not Normal, or if no edge changed the tension and
   the timer was on before, after an earlier failed start.
   */
  lemma FailedStartLeavesTimerOnIff(pins: Pins, s: Service, start: Start)
    requires !start.Succeeds()
    ensures var inputs := if start.low then start.first + (if start.high then start.second else []) else [];
            var ts := Tensions(pins, Edges(inputs));
            Started(pins, s, start).timerRuns <==>
            if forall i :: 0 <= i < |ts| ==> ts[i] == Normal then s.timerRuns else ts[|ts| - 1] != Normal
  {
    var inputs := if start.low then start.first + (if start.high then start.second else []) else [];
    assert start.first + [] == start.first;
    assert inputs == start.Seen();
    TimerAfterStart(pins, s, start);
    NothingLeftIff(Normal, Tensions(pins, Edges(inputs)));
  }

  /** De-stuttering leaves nothing iff there is no change. */
  lemma {:induction false} NothingLeftIff(first: Tension, ts: seq<Tension>)
    ensures Destutter(first, ts) == [] <==> forall i :: 0 <= i < |ts| ==> ts[i] == first
    decreases |ts|
  {
    if ts != [] { NothingLeftIff(first, ts[..|ts| - 1]); }
  }

  lemma OneLowEdge(pins: Pins, edge: Edge)
    requires pins.low != pins.overload && edge == Edge(RisingEdge, pins.low)
    ensures Started(pins, NEW_SERVICE, Start(true, [EdgeSeen(edge)], false, [], false))
         == Service(Low, true, [ByEdge(Low)])
  {
    RunOneMore(pins, NEW_SERVICE, [], EdgeSeen(edge));
    assert [] + [EdgeSeen(edge)] == [EdgeSeen(edge)] && [] + [ByEdge(Low)] == [ByEdge(Low)];
  }

  lemma NoEdges(pins: Pins, s: Service)
    ensures Started(pins, s, Start(true, [], true, [], true)) == s.(last := Normal)
  {
    assert Start(true, [], true, [], true).Seen() == [];
  }

  /** Such starts exist: one that fails leaves the timer on, and so does the successful one after it. */
  method FailedStartExample(pins: Pins) returns (service: FilamentTensionSensorService)
    requires pins.low != pins.overload
    ensures fresh(service) && service.repeatTimerRuns && service.lastFilamentTensionEvent == Normal
    ensures service.lowObserved && service.highObserved && service.overloadObserved
  {
    service := new FilamentTensionSensorService(pins);
    var edge := Edge(RisingEdge, pins.low);
    OneLowEdge(pins, edge);
    var ok := service.StartSensorObservation(Start(true, [EdgeSeen(edge)], false, [], false));
    assert !ok && service.repeatTimerRuns && !service.lowObserved;
    NoEdges(pins, service.State());
    ok := service.StartSensorObservation(Start(true, [], true, [], true));
  }
}
