/**
 The two-point temperature control
 (libs/MachineServiceComponent/src/HeaterService.cpp, `updateHeaterTemperatureAndCheck`): each
 sample at or beyond a limit reports a limit event, but a sample equal to the one checked before it is
 skipped. The first sample is compared with a sentinel, the smallest 32-bit integer.
 */
module HeaterServices {
  import opened Options

  type Temperature = x: int | -0x8000_0000 <= x <= 0x7FFF_FFFF

  const SENTINEL: Temperature := -0x8000_0000

  datatype LimitEvent = MaxTemperatureReached | MinTemperatureReached

  /** The configured limits; the source does not require the one to lie below the other. */
  datatype Limits = Limits(min: Temperature, max: Temperature)

  /** The limit a temperature has reached, the upper one first. */
  function Reached(limits: Limits, t: Temperature): Option<LimitEvent> {
    if t >= limits.max then Some(MaxTemperatureReached)
    else if t <= limits.min then Some(MinTemperatureReached)
    else None
  }

  // ---------------------------------------------------------------------------------------------
  // The reference: a Schmitt trigger on every sample

  /** The output of a Schmitt trigger: it switches at the limits and keeps its state between them. */
  function Schmitt(limits: Limits, samples: seq<Temperature>): Option<LimitEvent>
    decreases |samples|
  {
    if samples == [] then None
    else
      match Reached(limits, samples[|samples| - 1])
      case Some(e) => Some(e)
      case None => Schmitt(limits, samples[..|samples| - 1])
  }

  // ---------------------------------------------------------------------------------------------
  // The service on values

  datatype Check = Check(lastChecked: Temperature, events: seq<LimitEvent>)

  function CheckSample(limits: Limits, c: Check, t: Temperature): Check {
    if c.lastChecked == t then c
    else
      Check(t, match Reached(limits, t)
               case Some(e) => c.events + [e]
               case None => c.events)
  }

  function CheckAll(limits: Limits, samples: seq<Temperature>): Check
    decreases |samples|
  {
    if samples == [] then Check(SENTINEL, [])
    else CheckSample(limits, CheckAll(limits, samples[..|samples| - 1]), samples[|samples| - 1])
  }

  function LastEvent(c: Check): Option<LimitEvent> {
    if c.events == [] then None else Some(c.events[|c.events| - 1])
  }

  /** How many samples at the beginning equal the sentinel. */
  function LeadingSentinels(samples: seq<Temperature>): (n: nat)
    ensures n <= |samples|
    ensures forall i :: 0 <= i < n ==> samples[i] == SENTINEL
    ensures n < |samples| ==> samples[n] != SENTINEL
    decreases |samples|
  {
    if samples == [] then 0
    else
      var n := LeadingSentinels(samples[..|samples| - 1]);
      if n == |samples| - 1 && samples[n] == SENTINEL then n + 1 else n
  }

  lemma SentinelsOfOneMore(samples: seq<Temperature>, t: Temperature)
    ensures LeadingSentinels(samples + [t]) ==
            LeadingSentinels(samples) + if LeadingSentinels(samples) == |samples| && t == SENTINEL then 1 else 0
  {
    assert (samples + [t])[..|samples|] == samples;
  }

  lemma SchmittOneMore(limits: Limits, samples: seq<Temperature>, t: Temperature)
    ensures Schmitt(limits, samples + [t]) ==
            if Reached(limits, t).Some? then Reached(limits, t) else Schmitt(limits, samples)
  {
    assert (samples + [t])[..|samples|] == samples;
  }

  lemma CheckOneMore(limits: Limits, samples: seq<Temperature>, t: Temperature)
    ensures CheckAll(limits, samples + [t]) == CheckSample(limits, CheckAll(limits, samples), t)
  {
    assert (samples + [t])[..|samples|] == samples;
  }

  /** One sample that is not a leading sentinel, when check and trigger stand alike after the `checked` ones. */
  lemma CheckStep(limits: Limits, c: Check, checked: seq<Temperature>, t: Temperature)
    requires LastEvent(c) == Schmitt(limits, checked)
    requires if checked == [] then c.lastChecked != t else c.lastChecked == checked[|checked| - 1]
    ensures LastEvent(CheckSample(limits, c, t)) == Schmitt(limits, checked + [t])
    ensures CheckSample(limits, c, t).lastChecked == t
  {
    SchmittOneMore(limits, checked, t);
    if checked != [] && checked[|checked| - 1] == t { RepeatedSampleKeepsTrigger(limits, checked); }
  }

  /** The check has done exactly what the trigger does on the samples after the leading sentinels. */
  lemma {:induction false} ChecksAfterSentinels(limits: Limits, samples: seq<Temperature>)
    ensures var n := LeadingSentinels(samples);
            && LastEvent(CheckAll(limits, samples)) == Schmitt(limits, samples[n..])
            && CheckAll(limits, samples).lastChecked == (if samples == [] then SENTINEL else samples[|samples| - 1])
    decreases |samples|
  {
    if samples == [] {
      assert samples[0..] == [];
    } else {
      var before, t := samples[..|samples| - 1], samples[|samples| - 1];
      var n := LeadingSentinels(before);
      assert samples == before + [t];
      ChecksAfterSentinels(limits, before);
      SentinelsOfOneMore(before, t);
      CheckOneMore(limits, before, t);
      if n == |before| && t == SENTINEL {
        assert samples[n + 1..] == [] == before[n..];
      } else {
        assert samples[n..] == before[n..] + [t];
        CheckStep(limits, CheckAll(limits, before), before[n..], t);
      }
    }
  }

  /** Where the trigger stands at a limit, seeing the same sample again changes nothing. */
  lemma RepeatedSampleKeepsTrigger(limits: Limits, samples: seq<Temperature>)
    requires samples != []
    ensures Schmitt(limits, samples + [samples[|samples| - 1]]) == Schmitt(limits, samples)
  {
    var t := samples[|samples| - 1];
    assert (samples + [t])[..|samples|] == samples;
  }

  /**
   Main result: over any history whose first sample is not the sentinel, skipping repeated samples
   makes no difference: the last event reported is the state of the trigger that saw every sample.
   */
  lemma SkippingRepeatsIsHarmless(limits: Limits, samples: seq<Temperature>)
    requires samples != [] ==> samples[0] != SENTINEL
    ensures LastEvent(CheckAll(limits, samples)) == Schmitt(limits, samples)
  {
    assert LeadingSentinels(samples) == 0;
    NoSentinelsNoDifference(limits, samples);
  }

  lemma NoSentinelsNoDifference(limits: Limits, samples: seq<Temperature>)
    requires LeadingSentinels(samples) == 0
    ensures LastEvent(CheckAll(limits, samples)) == Schmitt(limits, samples)
  {
    ChecksAfterSentinels(limits, samples);
    assert samples[0..] == samples;
  }

  lemma {:induction false} SchmittSplit(limits: Limits, a: seq<Temperature>, b: seq<Temperature>)
    ensures Schmitt(limits, a + b) == if Schmitt(limits, b).Some? then Schmitt(limits, b) else Schmitt(limits, a)
    decreases |b|
  {
    if b == [] {
      assert a + b == a;
    } else {
      assert (a + b)[..|a + b| - 1] == a + b[..|b| - 1];
      SchmittSplit(limits, a, b[..|b| - 1]);
    }
  }

  lemma {:induction false} SchmittNoneIff(limits: Limits, samples: seq<Temperature>)
    ensures Schmitt(limits, samples) == None <==> forall i :: 0 <= i < |samples| ==> Reached(limits, samples[i]) == None
    decreases |samples|
  {
    if samples != [] {
      SchmittNoneIff(limits, samples[..|samples| - 1]);
    }
  }

  /**
   With leading sentinels the two differ exactly until a sample after them reaches a limit: the
   sentinel is itself at or below every lower limit, but is never checked.
   */
  lemma SentinelMattersIff(limits: Limits, samples: seq<Temperature>)
    ensures var n := LeadingSentinels(samples);
            LastEvent(CheckAll(limits, samples)) == Schmitt(limits, samples) <==>
            n == 0 || exists i :: n <= i < |samples| && (samples[i] >= limits.max || samples[i] <= limits.min)
  {
    var n := LeadingSentinels(samples);
    ChecksAfterSentinels(limits, samples);
    assert samples == samples[..n] + samples[n..];
    SchmittSplit(limits, samples[..n], samples[n..]);
    TriggerSilentFrom(limits, samples, n);
    if n > 0 {
      assert Reached(limits, samples[n - 1]).Some?;
    }
  }

  lemma TriggerSilentFrom(limits: Limits, samples: seq<Temperature>, n: nat)
    requires n <= |samples|
    ensures Schmitt(limits, samples[n..]) == None <==>
            forall i :: n <= i < |samples| ==> Reached(limits, samples[i]) == None
  {
    SchmittNoneIff(limits, samples[n..]);
    forall i | n <= i < |samples| ensures samples[i] == samples[n..][i - n] {
    }
  }

  // ---------------------------------------------------------------------------------------------
  // The hysteresis said about the samples and the limits alone

  ghost predicate AtMaxSince(limits: Limits, samples: seq<Temperature>, i: nat)
    requires i < |samples|
  {
    samples[i] >= limits.max && forall j :: i < j < |samples| ==> samples[j] >= limits.max || samples[j] > limits.min
  }

  ghost predicate AtMinSince(limits: Limits, samples: seq<Temperature>, i: nat)
    requires i < |samples|
  {
    samples[i] <= limits.min && forall j :: i <= j < |samples| ==> samples[j] < limits.max
  }

  lemma AtMaxStep(limits: Limits, samples: seq<Temperature>, t: Temperature, i: nat)
    requires i < |samples|
    ensures AtMaxSince(limits, samples + [t], i) <==>
            AtMaxSince(limits, samples, i) && (t >= limits.max || t > limits.min)
  {
    var all := samples + [t];
    assert all[|samples|] == t;
    assert forall j :: 0 <= j < |samples| ==> all[j] == samples[j];
  }

  lemma AtMinStep(limits: Limits, samples: seq<Temperature>, t: Temperature, i: nat)
    requires i < |samples|
    ensures AtMinSince(limits, samples + [t], i) <==> AtMinSince(limits, samples, i) && t < limits.max
  {
    var all := samples + [t];
    assert all[|samples|] == t;
    assert forall j :: 0 <= j < |samples| ==> all[j] == samples[j];
  }

  lemma SinceMaxWrittenOut(limits: Limits, samples: seq<Temperature>, n: nat)
    ensures (exists i :: n <= i < |samples| && AtMaxSince(limits, samples, i)) <==>
            exists i :: n <= i < |samples| && samples[i] >= limits.max &&
              forall j :: i < j < |samples| ==> samples[j] >= limits.max || samples[j] > limits.min
  {
    if i :| n <= i < |samples| && samples[i] >= limits.max &&
            forall j :: i < j < |samples| ==> samples[j] >= limits.max || samples[j] > limits.min
    {
      assert AtMaxSince(limits, samples, i);
    }
  }

  lemma SinceMinWrittenOut(limits: Limits, samples: seq<Temperature>, n: nat)
    ensures (exists i :: n <= i < |samples| && AtMinSince(limits, samples, i)) <==>
            exists i :: n <= i < |samples| && samples[i] <= limits.min &&
              forall j :: i <= j < |samples| ==> samples[j] < limits.max
  {
    if i :| n <= i < |samples| && samples[i] <= limits.min &&
            forall j :: i <= j < |samples| ==> samples[j] < limits.max
    {
      assert AtMinSince(limits, samples, i);
    }
  }

  /** Where the trigger stands that saw the samples from n on. */
  lemma {:induction false} SchmittStandsIff(limits: Limits, samples: seq<Temperature>, n: nat)
    requires n <= |samples|
    ensures Schmitt(limits, samples[n..]) == Some(MaxTemperatureReached) <==>
            exists i :: n <= i < |samples| && AtMaxSince(limits, samples, i)
    ensures Schmitt(limits, samples[n..]) == Some(MinTemperatureReached) <==>
            exists i :: n <= i < |samples| && AtMinSince(limits, samples, i)
    decreases |samples|
  {
    if n < |samples| {
      var k := |samples| - 1;
      var before, t := samples[..k], samples[k];
      SchmittStandsIff(limits, before, n);
      assert samples[n..][..|samples[n..]| - 1] == before[n..];
      assert samples == before + [t];
      forall i | n <= i < k
        ensures AtMaxSince(limits, samples, i) <==> AtMaxSince(limits, before, i) && (t >= limits.max || t > limits.min)
        ensures AtMinSince(limits, samples, i) <==> AtMinSince(limits, before, i) && t < limits.max
      {
        AtMaxStep(limits, before, t, i);
        AtMinStep(limits, before, t, i);
      }
      assert AtMaxSince(limits, samples, k) <==> t >= limits.max;
      assert AtMinSince(limits, samples, k) <==> t <= limits.min && t < limits.max;
    }
  }

  /**
   Main result on the last report: it is the maximum iff some checked sample reached the maximum and each
   later one was at the maximum or above the minimum; it is the minimum iff some checked sample was at or
   below the minimum and neither it nor a later one reached the maximum. All samples are checked but those
   at the beginning that equal the sentinel.
   */
  lemma LastReportIff(limits: Limits, samples: seq<Temperature>)
    ensures var n, events := LeadingSentinels(samples), CheckAll(limits, samples).events;
            && (events != [] && events[|events| - 1] == MaxTemperatureReached <==>
                exists i :: n <= i < |samples| && samples[i] >= limits.max &&
                  forall j :: i < j < |samples| ==> samples[j] >= limits.max || samples[j] > limits.min)
            && (events != [] && events[|events| - 1] == MinTemperatureReached <==>
                exists i :: n <= i < |samples| && samples[i] <= limits.min &&
                  forall j :: i <= j < |samples| ==> samples[j] < limits.max)
  {
    ChecksAfterSentinels(limits, samples);
    SchmittStandsIff(limits, samples, LeadingSentinels(samples));
    SinceMaxWrittenOut(limits, samples, LeadingSentinels(samples));
    SinceMinWrittenOut(limits, samples, LeadingSentinels(samples));
  }

  // ---------------------------------------------------------------------------------------------
  // The service itself

  class HeaterService {
    const limits: Limits
    var currentTemperature: Temperature
    var lastCheckedTemperature: Temperature
    ghost var samples: seq<Temperature>
    ghost var events: seq<LimitEvent>

    ghost predicate Valid()
      reads this
    {
      Check(lastCheckedTemperature, events) == CheckAll(limits, samples)
    }

    constructor (limits: Limits)
      ensures Valid() && this.limits == limits && samples == []
    {
      this.limits := limits;
      currentTemperature, lastCheckedTemperature := 0, SENTINEL;
      samples, events := [], [];
    }

    /** `updateHeaterTemperature` alone, as switching the heater on does it: nothing is checked. */
    method UpdateHeaterTemperature(measured: Temperature)
      modifies this`currentTemperature
      ensures currentTemperature == measured
    {
      currentTemperature := measured;
    }

    /** The timer's handler: measures and checks; returns the limit event it reports, if any. */
    method UpdateHeaterTemperatureAndCheck(measured: Temperature) returns (event: Option<LimitEvent>)
      requires Valid()
      modifies this
      ensures Valid() && samples == old(samples) + [measured] && currentTemperature == measured
      ensures events == old(events) + if event.Some? then [event.value] else []
      ensures event == Some(MaxTemperatureReached) <==>
                measured != old(lastCheckedTemperature) && measured >= limits.max
      ensures event == Some(MinTemperatureReached) <==>
                measured != old(lastCheckedTemperature) && measured < limits.max && measured <= limits.min
      ensures lastCheckedTemperature == measured
      ensures LeadingSentinels(samples) == 0 ==>
                LastEvent(Check(lastCheckedTemperature, events)) == Schmitt(limits, samples)
    {
      UpdateHeaterTemperature(measured);
      event := None;
      ghost var before := samples;
      samples := samples + [measured];
      if lastCheckedTemperature != currentTemperature {
        if currentTemperature >= limits.max {
          event := Some(MaxTemperatureReached);
        } else if currentTemperature <= limits.min {
          event := Some(MinTemperatureReached);
        }
        lastCheckedTemperature := currentTemperature;
      }
      events := events + if event.Some? then [event.value] else [];
      CheckOneMore(limits, before, measured);
      if LeadingSentinels(samples) == 0 { NoSentinelsNoDifference(limits, samples); }
    }
  }
}
