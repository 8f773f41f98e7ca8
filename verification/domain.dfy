/**
 * probes/domain: the domain-expiration probe. `Parse` reads an expiration
 * date out of registry text, `Lookup` fetches that text for one domain,
 * `Run` turns a lookup into the probe's labels and metrics, and the
 * `Probe` class keeps the registry of per-target probe loops in step with
 * the listed targets.
 *
 * The expiry regular expression and Go's `time.Parse` are passed in as
 * functions (`Libraries`); the HTTP side as whois's `RoundTrip` and
 * `RequestCheck`. Starting and cancelling a loop are recorded as `Spawn`
 * and `Cancel` events instead of goroutines.
 */
module Domain {
  import opened Wrappers
  import Durations
  import Text
  import Whois
  import Probes
  import opened Registry

  /** Targets are re-listed no more often than this (or the probe interval, if longer). */
  const DefaultTargetsUpdateInterval: int := 12 * Durations.Hour


  const ProbeType: string := "domain"
  const ExpirationMetric: string := "probe_domain_expiration"
  const NotDomainConfig: string := "not domain config"

  /** The date layouts `Parse` tries, in this order; the first one that accepts the value wins. */
  const Formats: seq<string> := [
    "2006-01-02",
    "2006-01-02T15:04:05Z",
    "02-Jan-2006",
    "2006.01.02",
    "Mon Jan 2 15:04:05 MST 2006",
    "02/01/2006",
    "2006-01-02 15:04:05 MST",
    "2006/01/02",
    "Mon Jan 2006 15:04:05",
    "2006-01-02 15:04:05-07",
    "2006-01-02 15:04:05",
    "2.1.2006 15:04:05",
    "02/01/2006 15:04:05"
  ]

  /** The expiry regular expression: the value captured after an expiration label, if any. */
  type ExpiryMatcher = string -> Option<string>

  /** `time.Parse(layout, value)` followed by `Unix()`: seconds since the epoch, if the layout accepts the value. */
  type LayoutParser = (string, string) -> Option<int>

  datatype Libraries = Libraries(findExpiry: ExpiryMatcher, timeParse: LayoutParser)

  /** Everything a lookup depends on outside this package. */
  datatype Environment = Environment(requestCheck: Whois.RequestCheck, roundTrip: Whois.RoundTrip, libs: Libraries)

  datatype ParseError = NoExpiryLabel(host: string) | UnparseableDate(value: string, host: string)

  /** `parse`'s pair of results: a Unix time (or the sentinel -2 or -1) and an error. */
  datatype Parsed = Parsed(date: int, err: Option<ParseError>)

  /** `lookup`'s pair of results. */
  datatype Looked = Looked(date: int, err: Option<Whois.Error>)

  /** Position of the first layout that accepts `value`; `|layouts|` when none does. */
  function FirstAccepting(layouts: seq<string>, value: string, timeParse: LayoutParser): (k: nat)
    ensures k <= |layouts|
    ensures forall j :: 0 <= j < k ==> timeParse(layouts[j], value).None?
    ensures k < |layouts| ==> timeParse(layouts[k], value).Some?
  {
    if layouts == [] || timeParse(layouts[0], value).Some? then 0
    else 1 + FirstAccepting(layouts[1..], value, timeParse)
  }

  /**
   * `parse`: no expiration label gives -2 and an error naming the host; a
   * label whose trimmed value no layout accepts gives -1 and an error
   * naming value and host; otherwise the Unix time read by the first
   * layout, in `Formats` order, that accepts the trimmed value.
   */
  function Parse(host: string, body: string, libs: Libraries): (r: Parsed)
    ensures libs.findExpiry(body) == None ==> r == Parsed(-2, Some(NoExpiryLabel(host)))
    ensures libs.findExpiry(body) != None ==>
      var value := Text.TrimSpace(libs.findExpiry(body).value);
      && (r.err == None <==> exists k :: 0 <= k < |Formats| && libs.timeParse(Formats[k], value) != None)
      && (r.err == None ==>
            exists k :: 0 <= k < |Formats| && libs.timeParse(Formats[k], value) == Some(r.date)
                        && forall j :: 0 <= j < k ==> libs.timeParse(Formats[j], value) == None)
      && (r.err != None ==> r == Parsed(-1, Some(UnparseableDate(value, host))))
  {
    match libs.findExpiry(body)
    case None => Parsed(-2, Some(NoExpiryLabel(host)))
    case Some(raw) =>
      var value := Text.TrimSpace(raw);
      var k := FirstAccepting(Formats, value, libs.timeParse);
      if k < |Formats| then Parsed(libs.timeParse(Formats[k], value).value, None)
      else Parsed(-1, Some(UnparseableDate(value, host)))
  }

  lemma {:induction false} FirstAcceptingStopsEarly(layouts: seq<string>, value: string, tp: LayoutParser, other: LayoutParser, k: nat)
    requires k < |layouts| && tp(layouts[k], value) != None
    requires forall j :: 0 <= j <= k ==> other(layouts[j], value) == tp(layouts[j], value)
    ensures FirstAccepting(layouts, value, other) == FirstAccepting(layouts, value, tp) <= k
  {
    if tp(layouts[0], value) == None {
      FirstAcceptingStopsEarly(layouts[1..], value, tp, other, k - 1);
    }
  }

  /**
   * Layouts after the first accepting one are never consulted: changing
   * what they would accept does not change `Parse`'s result.
   */
  lemma ParseIgnoresLaterLayouts(host: string, body: string, libs: Libraries, other: LayoutParser, k: nat)
    requires libs.findExpiry(body) != None && k < |Formats|
    requires libs.timeParse(Formats[k], Text.TrimSpace(libs.findExpiry(body).value)) != None
    requires forall j :: 0 <= j <= k ==>
      other(Formats[j], Text.TrimSpace(libs.findExpiry(body).value)) == libs.timeParse(Formats[j], Text.TrimSpace(libs.findExpiry(body).value))
    ensures Parse(host, body, libs.(timeParse := other)) == Parse(host, body, libs)
  {
    FirstAcceptingStopsEarly(Formats, Text.TrimSpace(libs.findExpiry(body).value), libs.timeParse, other, k);
  }

  /**
   * `lookup`: a request that cannot be built, or a fetch that fails, gives
   * -1 and that error. Once the fetch succeeds the error is always nil and
   * the date is `Parse`'s, sentinels included: parse errors are dropped.
   * The lookup always goes through whois's default client.
   */
  function Lookup(domain: string, env: Environment): (r: Looked)
    ensures var req := Whois.NewRequest(domain, env.requestCheck);
      && (req.Err? ==> r == Looked(-1, Some(req.error)))
      && (req.Ok? ==>
            var res := Whois.Fetch(Whois.DefaultClient, req.value, env.roundTrip);
            && (res.Err? ==> r == Looked(-1, Some(res.error)))
            && (res.Ok? ==> r == Looked(Parse(domain, res.value.body, env.libs).date, None)))
  {
    match Whois.NewRequest(domain, env.requestCheck)
    case Err(e) => Looked(-1, Some(e))
    case Ok(req) =>
      match Whois.Fetch(Whois.DefaultClient, req, env.roundTrip)
      case Err(e) => Looked(-1, Some(e))
      case Ok(res) =>
        var parsed := Parse(domain, res.body, env.libs);
        Looked(parsed.date, None)
  }

  /**
   * `Run` for the domain `domain`: adds the `domain` label and the
   * expiration metric (0 unless the lookup succeeded, then its date), and
   * reports success exactly when the lookup returned no error. It never
   * returns an error itself.
   */
  function RunFor(domain: string, env: Environment): (r: Probes.RunOutcome)
    ensures r.err == None
    ensures r.labels == [Probes.Label("domain", domain)]
    ensures r.success <==> Lookup(domain, env).err == None
    ensures |r.metrics| == 1 && r.metrics[0].name == ExpirationMetric
    ensures r.metrics[0].value == Probes.IntValue(if r.success then Lookup(domain, env).date else 0)
  {
    var looked := Lookup(domain, env);
    var labels := [Probes.Label("domain", domain)];
    if looked.err != None then
      Probes.RunOutcome(labels, [Probes.Metric(ExpirationMetric, Probes.IntValue(0))], false, None)
    else
      Probes.RunOutcome(labels, [Probes.Metric(ExpirationMetric, Probes.IntValue(0 + looked.date))], true, None)
  }

  /**
   * Because `lookup` drops parse errors, a reply without an expiration
   * label is reported as a successful probe whose expiration is the
   * sentinel -2.
   */
  lemma MissingLabelReportedAsSuccess(domain: string, env: Environment)
    requires env.requestCheck(Whois.MethodPost, Whois.PublicAPI) == None
    requires var req := Whois.NewRequest(domain, env.requestCheck).value;
      var x := env.roundTrip(Whois.DefaultHttpClient, Whois.WithClientDeadline(Whois.DefaultClient, req));
      && x.Decoded? && x.response.code != "1"
      && env.libs.findExpiry(Whois.ExpirationLine(x.response.expirationDate)) == None
    ensures Probes.SuccessValue(RunFor(domain, env)) == 1
    ensures RunFor(domain, env).metrics[0].value == Probes.IntValue(-2)
  {
  }

  /**
   * Likewise a reply whose expiration value no layout accepts (an empty
   * `expirationDate`, say) is reported as a successful probe whose
   * expiration is the sentinel -1.
   */
  lemma UnparseableDateReportedAsSuccess(domain: string, env: Environment)
    requires env.requestCheck(Whois.MethodPost, Whois.PublicAPI) == None
    requires var req := Whois.NewRequest(domain, env.requestCheck).value;
      var x := env.roundTrip(Whois.DefaultHttpClient, Whois.WithClientDeadline(Whois.DefaultClient, req));
      && x.Decoded? && x.response.code != "1"
      && var found := env.libs.findExpiry(Whois.ExpirationLine(x.response.expirationDate));
      && found != None
      && forall k :: 0 <= k < |Formats| ==> env.libs.timeParse(Formats[k], Text.TrimSpace(found.value)) == None
    ensures Probes.SuccessValue(RunFor(domain, env)) == 1
    ensures RunFor(domain, env).metrics[0].value == Probes.IntValue(-1)
  {
  }

  /** A domain the lookup service does not know is reported as a failed probe with expiration 0. */
  lemma UnknownDomainReportedAsFailure(domain: string, env: Environment)
    requires env.requestCheck(Whois.MethodPost, Whois.PublicAPI) == None
    requires var req := Whois.NewRequest(domain, env.requestCheck).value;
      var x := env.roundTrip(Whois.DefaultHttpClient, Whois.WithClientDeadline(Whois.DefaultClient, req));
      x.Decoded? && x.response.code == "1"
    ensures Probes.SuccessValue(RunFor(domain, env)) == 0
    ensures RunFor(domain, env).metrics[0].value == Probes.IntValue(0)
  {
  }

  /** `max(DefaultTargetsUpdateInterval, interval)`, the refresh period `Init` sets. */
  function TargetsUpdateInterval(interval: int): (r: int)
    ensures r >= DefaultTargetsUpdateInterval && r >= interval
    ensures r == DefaultTargetsUpdateInterval || r == interval
  {
    if DefaultTargetsUpdateInterval < interval then interval else DefaultTargetsUpdateInterval
  }

  /** The retry period `Start` uses while no targets are listed: the probe interval, capped at one second. */
  function InitialRefreshInterval(interval: int): (r: int)
    ensures r <= Durations.Second && r <= interval
    ensures r == Durations.Second || r == interval
  {
    if interval > Durations.Second then Durations.Second else interval
  }

  datatype StartStep = Return | Steady | RetryListing

  /**
   * One pass of `Start`'s first loop: a done context ends `Start`; else a
   * non-empty target list moves on to the steady refresh ticker; else the
   * targets are listed again after the initial refresh interval.
   */
  function InitialPhaseStep(ctxDone: bool, targets: seq<Probes.Endpoint>): (step: StartStep)
    ensures step == Return <==> ctxDone
    ensures step == Steady <==> !ctxDone && targets != []
    ensures step == RetryListing <==> !ctxDone && targets == []
  {
    if ctxDone then Return else if |targets| != 0 then Steady else RetryListing
  }

  /** The domain probe's state, as `Init` and the target refreshes leave it. */
  class Probe {
    var name: string
    var opts: Probes.Options
    var domain: string
    var targets: seq<Probes.Endpoint>
    var targetsUpdateInterval: int

    /** The registry: the cancel function of every running per-target loop, by target key. */
    var cancelFuncs: map<string, CancelHandle>

    /** Loops started and not yet joined (`waitGroup`'s counter). */
    var waitGroup: nat

    /** Every loop start and every cancel call so far, in order. */
    var spawned: seq<Spawn>
    var cancelled: seq<Cancel>

    /** Id of the next cancel handle `context.WithCancel` hands out. */
    var nextHandle: nat

    ghost predicate Valid()
      reads this
    {
      RegistryValid(cancelFuncs, nextHandle)
    }

    /** A probe before `Init`: every field at its zero value. */
    constructor ()
      ensures Valid()
      ensures targets == [] && cancelFuncs == map[] && waitGroup == 0
      ensures spawned == [] && cancelled == [] && nextHandle == 0
    {
      name := "";
      opts := Probes.Options(0, 0, 0, [], Probes.OtherProbeConf(""));
      domain := "";
      targets := [];
      targetsUpdateInterval := 0;
      cancelFuncs := map[];
      waitGroup := 0;
      spawned := [];
      cancelled := [];
      nextHandle := 0;
    }

    /**
     * `Init`: fails with "not domain config", changing nothing, unless the
     * probe configuration is a domain configuration; otherwise records the
     * name, options and domain, lists the targets, empties the registry and
     * sets the refresh period to `max(12h, opts.interval)`.
     */
    method Init(name: string, opts: Probes.Options, listed: seq<Probes.Endpoint>) returns (err: Option<string>)
      modifies this`name, this`opts, this`domain, this`targets, this`cancelFuncs, this`targetsUpdateInterval
      ensures opts.probeConf.OtherProbeConf? ==> err == Some(NotDomainConfig) && unchanged(this)
      ensures opts.probeConf.DomainProbeConf? ==>
        && err == None && Valid()
        && this.name == name && this.opts == opts && domain == opts.probeConf.domain
        && targets == listed && cancelFuncs == map[]
        && targetsUpdateInterval == TargetsUpdateInterval(opts.interval)
    {
      if !opts.probeConf.DomainProbeConf? {
        return Some(NotDomainConfig);
      }
      this.name := name;
      this.opts := opts;
      domain := opts.probeConf.domain;
      targets := listed;
      cancelFuncs := map[];
      targetsUpdateInterval := DefaultTargetsUpdateInterval;
      // There is no point refreshing targets more often than the probe runs.
      if targetsUpdateInterval < opts.interval {
        targetsUpdateInterval := opts.interval;
      }
      return None;
    }

    /** What `RunProbe` asks of this probe: `GetType`, `GetName`, `GetOpts`. */
    function Info(): (info: Probes.ProbeInfo)
      reads this
      ensures info.probeType == ProbeType && info.name == name && info.opts == opts
    {
      Probes.ProbeInfo(ProbeType, name, opts)
    }

    /**
     * `updateTargetsAndStartProbes`: records the listing and refreshes the
     * registry to it (see `Refreshed`); the cancel calls and loop starts
     * made are appended to `cancelled` and `spawned`, and every started
     * loop joins the wait group.
     */
    method UpdateTargetsAndStartProbes(listed: seq<Probes.Endpoint>)
      returns (ghost before: map<string, CancelHandle>, ghost firstId: nat, ghost r: Refresh)
      requires Valid()
      modifies this`targets, this`cancelFuncs, this`cancelled, this`spawned, this`waitGroup, this`nextHandle
      ensures before == old(cancelFuncs) && firstId == old(nextHandle)
      ensures Refreshed(before, listed, firstId, r)
      ensures targets == listed && cancelFuncs == r.after && nextHandle == r.next
      ensures cancelled == old(cancelled) + r.cancels
      ensures spawned == old(spawned) + r.spawns
      ensures waitGroup == old(waitGroup) + |r.spawns|
      ensures Valid()
    {
      before, firstId := cancelFuncs, nextHandle;
      var refresh := RefreshRegistry(cancelFuncs, listed, nextHandle);
      Apply(listed, refresh);
      r := refresh;
    }

    /** Stores a refreshed registry and records its effects. */
    method Apply(listed: seq<Probes.Endpoint>, refresh: Refresh)
      requires RegistryValid(refresh.after, refresh.next)
      modifies this`targets, this`cancelFuncs, this`cancelled, this`spawned, this`waitGroup, this`nextHandle
      ensures targets == listed && cancelFuncs == refresh.after && nextHandle == refresh.next
      ensures cancelled == old(cancelled) + refresh.cancels
      ensures spawned == old(spawned) + refresh.spawns
      ensures waitGroup == old(waitGroup) + |refresh.spawns|
      ensures Valid()
    {
      targets := listed;
      cancelFuncs := refresh.after;
      nextHandle := refresh.next;
      cancelled := cancelled + refresh.cancels;
      waitGroup := waitGroup + |refresh.spawns|;
      spawned := spawned + refresh.spawns;
    }

    /** `Run` for this probe's configured domain. */
    function Run(env: Environment): (r: Probes.RunOutcome)
      reads this
      ensures r.labels == [Probes.Label("domain", domain)]
      ensures r.err == None && (r.success <==> Lookup(domain, env).err == None)
    {
      RunFor(domain, env)
    }
  }
}
