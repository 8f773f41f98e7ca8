/**
 * probes: the per-target probe loop `RunProbe`. Each tick that finds the
 * loop's context still live builds one metric event, runs the probe once
 * and pushes the event; the first tick that finds the context cancelled
 * ends the loop. Clock readings, cancellation and what `Run` reports are
 * inputs, one `Tick` per loop iteration.
 */
module Probes {
  import opened Wrappers
  import Durations

  /** A target: its display name and the key that identifies it. */
  datatype Endpoint = Endpoint(name: string, key: string)

  datatype Label = Label(key: string, value: string)
  datatype MetricValue = IntValue(i: int) | FloatValue(x: real)
  datatype Metric = Metric(name: string, value: MetricValue)
  datatype Kind = Cumulative | Gauge

  /** One labelled, timestamped measurement; labels and metrics in the order they were added. */
  datatype EventMetrics = EventMetrics(timestamp: int, kind: Kind, latencyUnit: int, labels: seq<Label>, metrics: seq<Metric>)
  {
    function AddLabel(key: string, value: string): (em: EventMetrics)
      ensures em.labels == labels + [Label(key, value)]
      ensures em.(labels := labels) == this
    {
      this.(labels := labels + [Label(key, value)])
    }

    function AddMetric(name: string, value: MetricValue): (em: EventMetrics)
      ensures em.metrics == metrics + [Metric(name, value)]
      ensures em.(metrics := metrics) == this
    {
      this.(metrics := metrics + [Metric(name, value)])
    }
  }

  /** A fresh event: the given timestamp, every other field at its zero value. */
  function NewEventMetrics(ts: int): (em: EventMetrics)
    ensures em.timestamp == ts && em.labels == [] && em.metrics == []
  {
    EventMetrics(ts, Cumulative, 0, [], [])
  }

  /** An extra label from the configuration; its value may depend on the target's name. */
  datatype AdditionalLabel = AdditionalLabel(key: string, valueForTarget: string -> string)

  /** The label an additional label contributes for `target`. */
  function LabelFor(extra: AdditionalLabel, target: Endpoint): (l: Label)
    ensures l.key == extra.key
  {
    Label(extra.key, extra.valueForTarget(target.name))
  }

  /** The configuration a probe is started with. */
  datatype ProbeConf = DomainProbeConf(domain: string) | OtherProbeConf(kind: string)

  /** The probe options (durations in nanoseconds). */
  datatype Options = Options(interval: int, timeout: int, latencyUnit: int, additionalLabels: seq<AdditionalLabel>, probeConf: ProbeConf)

  /** What the loop asks of the probe it drives: `GetType`, `GetName`, `GetOpts`. */
  datatype ProbeInfo = ProbeInfo(probeType: string, name: string, opts: Options)

  /** What one call of `Run` did to the event and returned. */
  datatype RunOutcome = RunOutcome(labels: seq<Label>, metrics: seq<Metric>, success: bool, err: Option<string>)

  /**
   * One loop iteration's inputs: the tick time, whether the context is
   * done when the iteration starts, what `Run` reports, and the elapsed
   * nanoseconds `time.Since(start)` measures.
   */
  datatype Tick = Tick(time: int, ctxDone: bool, run: RunOutcome, elapsed: int)

  const SuccessMetric: string := "probe_domain_success"
  const DurationMetric: string := "probe_domain_duration_seconds"

  /** The 0/1 success metric: 1 exactly when `Run` returned no error and reported success. */
  function SuccessValue(run: RunOutcome): (v: int)
    ensures v == 0 || v == 1
    ensures v == 1 <==> run.err == None && run.success
  {
    if run.err == None then (if run.success then 1 else 0) else 0
  }

  /** The labels added before `Run`: probe type, probe name, then the additional labels in order. */
  function BaseLabels(p: ProbeInfo, target: Endpoint): (ls: seq<Label>)
    ensures |ls| == 2 + |p.opts.additionalLabels|
    ensures ls[0] == Label("probe", p.probeType) && ls[1] == Label("target", p.name)
    ensures forall i :: 0 <= i < |p.opts.additionalLabels| ==>
      ls[2 + i] == LabelFor(p.opts.additionalLabels[i], target)
  {
    [Label("probe", p.probeType), Label("target", p.name)] + AdditionalLabelsFor(p.opts.additionalLabels, target)
  }

  function AdditionalLabelsFor(extra: seq<AdditionalLabel>, target: Endpoint): (ls: seq<Label>)
    ensures |ls| == |extra|
    ensures forall i :: 0 <= i < |extra| ==> ls[i] == LabelFor(extra[i], target)
  {
    if extra == [] then []
    else [LabelFor(extra[0], target)] + AdditionalLabelsFor(extra[1..], target)
  }

  /**
   * The event of one iteration that passed the cancellation check: stamped
   * with the tick time, a gauge; the base labels then whatever `Run`
   * added; `Run`'s metrics, then the success metric, then the duration.
   */
  function Iteration(p: ProbeInfo, target: Endpoint, t: Tick): (em: EventMetrics)
    ensures em.timestamp == t.time && em.kind == Gauge && em.latencyUnit == p.opts.latencyUnit
    ensures em.labels == BaseLabels(p, target) + t.run.labels
    ensures |em.metrics| == |t.run.metrics| + 2 && em.metrics[..|t.run.metrics|] == t.run.metrics
    ensures em.metrics[|t.run.metrics|] == Metric(SuccessMetric, IntValue(SuccessValue(t.run)))
    ensures em.metrics[|t.run.metrics| + 1].name == DurationMetric
  {
    EventMetrics(t.time, Gauge, p.opts.latencyUnit, BaseLabels(p, target) + t.run.labels,
      t.run.metrics + [Metric(SuccessMetric, IntValue(SuccessValue(t.run))),
                       Metric(DurationMetric, FloatValue(t.elapsed as real / Durations.Second as real))])
  }

  /** Index of the first tick that finds the context done, or the number of ticks if none does. */
  function FirstDone(ticks: seq<Tick>): (n: nat)
    ensures n <= |ticks|
    ensures forall i :: 0 <= i < n ==> !ticks[i].ctxDone
    ensures n < |ticks| ==> ticks[n].ctxDone
  {
    if ticks == [] || ticks[0].ctxDone then 0 else 1 + FirstDone(ticks[1..])
  }

  /**
   * The start of an iteration's event: a gauge stamped `time`, in the
   * probe's latency unit, carrying `BaseLabels` added one by one.
   */
  method LabelledEvent(p: ProbeInfo, target: Endpoint, time: int) returns (em: EventMetrics)
    ensures em == EventMetrics(time, Gauge, p.opts.latencyUnit, BaseLabels(p, target), [])
  {
    em := NewEventMetrics(time);
    em := em.(kind := Gauge, latencyUnit := p.opts.latencyUnit);
    em := em.AddLabel("probe", p.probeType);
    em := em.AddLabel("target", p.name);
    ghost var base := BaseLabels(p, target);
    assert em.labels == base[..2];
    var k := 0;
    while k < |p.opts.additionalLabels|
      invariant 0 <= k <= |p.opts.additionalLabels|
      invariant em.(labels := []) == EventMetrics(time, Gauge, p.opts.latencyUnit, [], [])
      invariant em.labels == base[..2 + k]
    {
      var extra := p.opts.additionalLabels[k];
      var added := LabelFor(extra, target);
      assert base[..2 + k + 1] == base[..2 + k] + [added];
      em := em.AddLabel(extra.key, extra.valueForTarget(target.name));
      k := k + 1;
    }
    assert base[..2 + k] == base;
  }

  /**
   * The body of one `RunProbe` iteration after the cancellation check:
   * builds the event step by step with `AddLabel` and `AddMetric`, the
   * way the loop does, and yields exactly `Iteration`.
   */
  method BuildEvent(p: ProbeInfo, target: Endpoint, t: Tick) returns (em: EventMetrics)
    ensures em == Iteration(p, target, t)
  {
    em := LabelledEvent(p, target, t.time);
    // Run adds its own labels and metrics to the event.
    em := em.(labels := em.labels + t.run.labels, metrics := em.metrics + t.run.metrics);
    if t.run.err == None {
      if t.run.success {
        em := em.AddMetric(SuccessMetric, IntValue(1));
      } else {
        em := em.AddMetric(SuccessMetric, IntValue(0));
      }
    } else {
      em := em.AddMetric(SuccessMetric, IntValue(0));
    }
    em := em.AddMetric(DurationMetric, FloatValue(t.elapsed as real / Durations.Second as real));
  }

  /**
   * `RunProbe` over a finite run of ticks. Returns the events pushed to the
   * data channel, in order, and whether the loop returned because its
   * context was done. Exactly one event per iteration before the first
   * cancelled tick; none from that tick on.
   */
  method RunProbe(p: ProbeInfo, target: Endpoint, ticks: seq<Tick>) returns (events: seq<EventMetrics>, cancelled: bool)
    ensures cancelled <==> exists i :: 0 <= i < |ticks| && ticks[i].ctxDone
    ensures |events| == FirstDone(ticks)
    ensures forall i :: 0 <= i < |events| ==> events[i] == Iteration(p, target, ticks[i])
  {
    events := [];
    var n := 0;
    while n < |ticks|
      invariant 0 <= n <= |ticks|
      invariant forall i :: 0 <= i < n ==> !ticks[i].ctxDone
      invariant |events| == n
      invariant forall i :: 0 <= i < n ==> events[i] == Iteration(p, target, ticks[i])
    {
      // Don't run another probe if the context is cancelled already.
      if ticks[n].ctxDone {
        return events, true;
      }
      var em := BuildEvent(p, target, ticks[n]);
      events := events + [em];
      n := n + 1;
    }
    cancelled := false;
  }
}
