# domain_exporter core, modelled in Dafny

domain_exporter is a Prometheus exporter built on cloudprober. Its
`domain` probe reports when a domain's registration expires. This
project models the probe and the code it depends on, and proves
properties of that model.

- **Domain**: the domain probe.
  - `parse` reads an expiration date out of registry text. It tries 13
    date layouts in a fixed order and returns a sentinel -2 or -1 when it
    cannot.
  - `lookup` builds the lookup request, fetches the reply and parses it.
    It drops parse errors.
  - `Run` turns a lookup into a `domain` label and a
    `probe_domain_expiration` metric.
  - `Init` checks the configuration kind and sets the refresh period to
    `max(12h, interval)`.
  - `Start` clamps its initial retry period and, on each pass, decides
    whether to stop, move on to the steady ticker, or list the targets
    again.
  - The `Probe` class keeps the registry of per-target probe loops in
    step with the listed targets (`updateTargetsAndStartProbes`).
- **Registry**: that refresh, written on values.
  - The active-target map is built from the listing.
  - The cancel loop cancels and removes each registered key that is no
    longer listed.
  - The start loop starts a loop for each new key. It gives each one a
    fresh cancel handle and a start delay that grows by 10 ms from one
    new target to the next.
- **Whois**: the lookup client. `lookup` is taken to call this package;
  see "## Left out" for the `github.com/domainr/whois` import this
  assumption covers.
  - The request is a POST of `{"domainName": "<domain>"}` to the fixed
    endpoint.
  - `Fetch` replaces the request's deadline with the client's timeout.
  - `fetchHTTP` maps transport and decode errors, turns reply code "1"
    into "domain … does not exist", and returns the body
    "Expiration Date: <date>".
- **Probes**: `RunProbe`, the per-target loop.
  - Each tick that finds the context still live produces exactly one
    event.
  - The event is a gauge stamped with the tick time. Its labels are
    probe, target, the additional labels, then `Run`'s. Its metrics are
    `Run`'s, then a 0/1 success metric, then the duration.
  - The first tick that finds the context cancelled ends the loop.
- **Glog**: the verbosity flag.
  - `Level` is an `int32`.
  - `Set` parses with `strconv.Atoi` and truncates to 32 bits.
  - `String` writes the canonical decimal form, and `Set(String())`
    restores the level.
  - `V(level)` is true when the verbosity is at least `level`.
- **Array**: `ItemExists`, a linear membership search.
- **Text**: `strings.TrimSpace`.
- **Wrappers**: the `Option` type.
- **Durations**: Go's time constants in nanoseconds.

Several things are inputs to the model rather than part of it:
- The regular expression, `time.Parse`, the HTTP round trip with its JSON
  decoding, and `http.NewRequest`'s validation are function parameters.
- Clock readings, context cancellation and what `Run` reports are passed
  to `RunProbe` as one `Tick` per loop iteration.
- Goroutines are not modelled. Starting a probe loop and calling a cancel
  function are recorded as `Spawn` and `Cancel` events. The wait group is
  a counter.
- Go map iteration order is unspecified. Both registry loops therefore
  pick their next key with `:|`, and what they prove holds for every
  order.

## Model

| member | source | states |
|---|---|---|
| Array.ItemExists | common/array/array.go:7-17 | true exactly when some element of the slice equals the item; the loop stops at the first match and otherwise returns false |
| Text.TrimSpace | probes/domain/domain.go:164 | the result is the infix of the input from its first non-space character to its last one; nothing before it or after it is kept except white space |
| Text.TrimSpaceIdempotent | probes/domain/domain.go:164 | trimming is idempotent: a value `parse` has trimmed is not changed by trimming it again |
| Glog.FormatIntRoundTrip | pkg/glog/glog.go:24-26 | `strconv.Atoi` reads back every 64-bit integer that `FormatInt(v, 10)` writes |
| Glog.ToInt32 | pkg/glog/glog.go:19 | `Level(v)` keeps the low 32 bits: the result is congruent to v modulo 2^32 and equals v when v fits in int32 |
| Glog.LevelFlag.constructor | pkg/glog/glog.go:30 | the verbosity starts at level 0 |
| Glog.LevelFlag.Set | pkg/glog/glog.go:13-21 | an unparsable value returns the error and leaves the level unchanged; a parsable one sets the level to its 32-bit truncation |
| Glog.FormatInt | pkg/glog/glog.go:25 | the result is canonical: a '-' exactly for negative values, then digits without leading zeros, and never a '+' |
| Glog.FormatIntUnique | pkg/glog/glog.go:25 | the canonical form is unique: a canonical string that Atoi reads as v, with a '-' exactly when v is negative, is FormatInt(v) |
| Glog.LevelFlag.String | pkg/glog/glog.go:24-26 | the canonical decimal form of the level (no '+', no leading zeros, '-' exactly for negative levels), which Atoi parses back to the level; by FormatIntUnique no other string meets this |
| Glog.SetOfStringRestores | pkg/glog/glog.go:13-26 | `Set(String())` parses and stores back exactly the formatted level |
| Glog.SetStringRestores | pkg/glog/glog.go:13-26 | on a flag object, `Set(String())` succeeds and leaves the level as it was |
| Glog.V | pkg/glog/glog.go:39-41 | V(level) holds exactly when level is at most the verbosity |
| Glog.VMonotone | pkg/glog/glog.go:39-41 | a level that is shown makes every lower level shown; the current verbosity is always shown |
| Whois.NewClient | whois/client.go:23-27 | the client has no HTTP client of its own and the given timeout |
| Whois.DefaultClientDeadline | whois/client.go:20-36 | the default client sends every request with a 30-second deadline through Go's default HTTP client |
| Whois.RequestBody | whois/request.go:14 | the body is the fixed prefix, the domain verbatim, then the fixed suffix |
| Whois.RequestBodyRoundTrip | whois/request.go:14 | the domain can be read back from the body, so distinct domains give distinct bodies |
| Whois.NewRequest | whois/request.go:13-24 | an `http.NewRequest` error is returned as is; otherwise a POST to the public endpoint with the JSON body, a `Content-Type: application/json` header and no deadline |
| Whois.WithClientDeadline | whois/client.go:29-38 | the sent request carries a deadline exactly when the client's timeout is positive, equal to that timeout; nothing else about the request changes |
| Whois.ClientOf | whois/client.go:44-48 | a nil HTTP client means Go's default client; otherwise the one set |
| Whois.ExpirationLine | whois/client.go:65 | the line is "Expiration Date: " followed by the date verbatim |
| Whois.FetchHTTP | whois/client.go:41-66 | transport and decode errors are passed on; code "1" gives the not-found error naming the reply's domain; the result is Ok exactly for any other decoded reply, and its body is the expiration line |
| Whois.Fetch | whois/client.go:29-39 | the request is fetched with its deadline replaced by the client's timeout when positive and by none otherwise |
| Whois.FetchBodyCarriesDate | whois/client.go:29-66 | a successful fetch decoded a reply, and the reply's expiration date can be read back from the body |
| Probes.SuccessValue | probes/probes.go:51-62 | the success metric is 1 exactly when Run returned no error and reported success, and 0 otherwise |
| Probes.BaseLabels | probes/probes.go:39-44 | the labels before Run are ("probe", type), ("target", probe name), then each additional label for the target's name, in order |
| Probes.AdditionalLabelsFor | probes/probes.go:42-44 | one label per additional label, in configuration order, valued for the target's name |
| Probes.Iteration | probes/probes.go:35-64 | an iteration's event is a gauge at the tick time in the probe's latency unit; its labels are the base labels then Run's; its metrics are Run's, then the success metric, then the duration |
| Probes.FirstDone | probes/probes.go:29-33 | the index of the first tick that finds the context done: every earlier tick is live, and that tick, if any, is done |
| Probes.LabelledEvent | probes/probes.go:35-44 | the event built before Run, label by label, equals a gauge at the tick time carrying exactly the base labels and no metrics |
| Probes.BuildEvent | probes/probes.go:35-64 | one iteration built step by step with AddLabel and AddMetric yields exactly Iteration's event |
| Probes.RunProbe | probes/probes.go:22-70 | the loop returns on cancellation exactly when some tick finds the context done; it pushes one event per tick before the first such tick and none after, each equal to Iteration for its tick |
| Registry.ActiveTargets | probes/domain/domain.go:194-198 | the active map's keys are exactly the listed keys, and each maps to a listed target carrying that key |
| Registry.KeysOfListed | probes/domain/domain.go:194-198 | a key is active exactly when some listed target carries it |
| Registry.ActiveTargetsLastWins | probes/domain/domain.go:194-198 | when keys repeat, the map keeps the last listed target with that key |
| Registry.ListActiveTargets | probes/domain/domain.go:194-198 | the loop over the listing builds exactly the active map |
| Registry.CancelsDistinctOnce | probes/domain/domain.go:201-208 | in a record of cancel calls without repeats, each cancelled key is cancelled at exactly one position |
| Registry.SpawnsDistinctOnce | probes/domain/domain.go:214-234 | in a record of starts without repeats, each started key is started at exactly one position |
| Registry.StaggeredDelays | probes/domain/domain.go:210-231 | in a staggered record, the n-th start waits n times 10 ms |
| Registry.RegisterFresh | probes/domain/domain.go:221-233 | registering a new key under the next fresh handle keeps every registered handle older than the counter |
| Registry.CancelInactive | probes/domain/domain.go:200-208 | for any visiting order, the kept registry is the old one restricted to the active keys, with the same handles; each inactive key's registered handle is called exactly once, and no other handle is called |
| Registry.StartOne | probes/domain/domain.go:214-233 | a key already registered is skipped; a new key is registered under the next handle, and its start is recorded with the current delay |
| Registry.StartMissing | probes/domain/domain.go:210-234 | for any visiting order, old registrations keep their handles; each active key not registered gets exactly one staggered start with its target, and no other key gets one; the starts get the handles firstId, firstId + 1, … in start order, so each has its own |
| Registry.RefreshRegistry | probes/domain/domain.go:194-234 | the active map, then the cancel loop, then the start loop, together establish Refreshed: the registry holds exactly the listed keys; kept keys keep their handles; each dropped key is cancelled once with its handle; each new key gets one staggered start under its own new handle, numbered in start order from the counter |
| Registry.SecondRefreshChangesNothing | probes/domain/domain.go:181-235 | refreshing again to the same listing makes no cancel call and no start, and leaves the registry and the handle counter as they were |
| Registry.RefreshCancelCount | probes/domain/domain.go:201-208 | a refresh makes one cancel call per registered key that is no longer listed |
| Registry.RefreshSpawnCount | probes/domain/domain.go:214-234 | a refresh starts one loop per listed key that was not registered |
| Registry.RefreshKeepsListed | probes/domain/domain.go:201-218 | a key registered before and still listed keeps its handle, and is neither cancelled nor restarted |
| Registry.RefreshDelays | probes/domain/domain.go:210-231 | the loops one refresh starts wait 0, 10 ms, 20 ms, … in start order |
| Registry.RefreshHandlesDistinct | probes/domain/domain.go:221 | the i-th loop a refresh starts gets handle firstId + i, so no two loops share a cancel function |
| Registry.RefreshHandlesFresh | probes/domain/domain.go:221-233 | every loop started is registered under its key with its listed target, and its handle is none of the handles registered before the refresh |
| Registry.RefreshCancelsDropped | probes/domain/domain.go:201-207 | every cancel call is for a registered key that is no longer listed, with the handle registered for it |
| Domain.FirstAccepting | probes/domain/domain.go:163-173 | the position of the first layout that accepts the value: every earlier one rejects it, and this one, if any, accepts it |
| Domain.Parse | probes/domain/domain.go:156-175 | no expiration label gives -2 and an error naming the host; otherwise it succeeds exactly when some layout accepts the trimmed value, with the Unix time from the first such layout in order; if none accepts it, -1 and an error naming value and host |
| Domain.ParseIgnoresLaterLayouts | probes/domain/domain.go:163-173 | layouts after the first accepting one are never consulted |
| Domain.Lookup | probes/domain/domain.go:140-154 | a request or fetch error gives -1 with that error; after a successful fetch the error is nil and the date is parse's, including the -2 and -1 sentinels |
| Domain.RunFor | probes/domain/domain.go:114-138 | Run adds the `domain` label and the expiration metric, never returns an error, and reports success exactly when the lookup had no error; the metric is the lookup's date on success and 0 otherwise |
| Domain.MissingLabelReportedAsSuccess | probes/domain/domain.go:128-161 | because lookup drops parse errors, a reply without an expiration label is reported as a successful probe whose expiration is -2 (with the repository's regular expression the synthesized "Expiration Date: " line always has the label, so this case needs another matcher) |
| Domain.UnparseableDateReportedAsSuccess | probes/domain/domain.go:128-174 | because lookup drops parse errors, a reply whose expiration value no layout accepts (an empty date, say) is reported as a successful probe whose expiration is -1 |
| Domain.UnknownDomainReportedAsFailure | probes/domain/domain.go:128-137 | a domain the service does not know is reported as a failed probe with expiration 0 |
| Domain.TargetsUpdateInterval | probes/domain/domain.go:87-91 | the refresh period is max(12h, probe interval) |
| Domain.InitialRefreshInterval | probes/domain/domain.go:250-254 | the initial retry period is the probe interval, capped at one second |
| Domain.InitialPhaseStep | probes/domain/domain.go:256-265 | a done context returns; otherwise a non-empty target list moves on to the steady phase, and an empty one lists the targets again |
| Domain.Probe.constructor | probes/domain/domain.go:47-66 | a probe before Init has no targets, an empty registry, no loops started and no handles issued |
| Domain.Probe.Init | probes/domain/domain.go:69-96 | a non-domain configuration fails with "not domain config" and changes nothing; otherwise name, options, domain and targets are recorded, the registry is empty, and the refresh period is max(12h, interval) |
| Domain.Probe.Info | probes/domain/domain.go:98-108 | the probe reports type "domain", its name and its options |
| Domain.Probe.UpdateTargetsAndStartProbes | probes/domain/domain.go:181-235 | records the listing, and the registry, cancel calls and loop starts satisfy Refreshed (each new loop under its own new handle); the wait group grows by the number of loops started |
| Domain.Probe.Run | probes/domain/domain.go:114-138 | Run for the probe's configured domain: the `domain` label, no error, and success exactly when the lookup had no error |

## Left out

- Goroutines, `time.Sleep`, the start jitter (`rand.Int63n`) and the wait group's `Wait` are not modelled. A started loop is a recorded `Spawn` with its base delay, and the wait group is a counter of starts.
- `Start`'s loops themselves (the ticker and the `select` on the context) are not modelled, because they only sleep and repeat. Their decisions are modelled: the initial clamp and the per-pass decision of the first loop.
- Logging is not modelled: logrus calls, the `updatedTargets` map that exists only for a log line, and `opts.LogMetrics`.
- Domain.Lookup: `Run`'s `context.WithTimeout(ctx, opts.Timeout)` is not modelled, because the code never passes that context on. `lookup` always uses whois's default client with its own 30-second deadline.
- Domain.Lookup: domain.go imports `github.com/domainr/whois` (probes/domain/domain.go:16), and no module file that redirects that import is part of this model. The model assumes the `whois.NewRequest` and `whois.DefaultClient.Fetch` calls (domain.go:141, 146) resolve to the repository's own `whois` package, which has exactly that interface. The raw WHOIS protocol client of the third-party package is not modelled. Domain.UnknownDomainReportedAsFailure and Domain.UnparseableDateReportedAsSuccess depend on this assumption, because the JSON service's code "1" and its synthesized "Expiration Date: " line come from the repository's client.
- The error texts ("domain … does not exist", "don't know how to parse domain: …", "Unable to parse date: …") are not modelled as strings. Each error is a constructor carrying the values the text names. `lookup` drops the parse errors, and the other texts only reach the logs.
- Whois.Fetch: the request's own context is replaced by a fresh one, so any earlier deadline or cancellation is dropped. The code is followed here, and `Request.timeout` stands for the whole context.
- Whois.FetchHTTP: `hc.Do` and JSON decoding are one function parameter. Their error values are its error strings.
- Whois.NewRequest: the validation inside `http.NewRequest` is a function parameter, and the body reader is the body string.
- Domain.Parse: the expiry regular expression and `time.Parse` followed by `Unix()` are function parameters. The Go source has them in the standard library and the regexp package.
- Probes.Iteration: the duration metric's value (`time.Since(start).Seconds()`, a float) is modelled as elapsed nanoseconds over 10^9 as a real. Its value is not constrained beyond its name.
- Probes.RunProbe: the run is finite. The loop's ticks, their times and the context's state at each tick are inputs, and pushing to `dataChan` is appending to the returned sequence.
- Probes.EventMetrics.AddLabel: cloudprober's `EventMetrics` is not part of this model. Adding a label or a metric is modelled as appending to an ordered sequence.
- The target list (`opts.Targets.ListEndpoints()`) is a parameter, and `Endpoint.Key()` is a field of the endpoint.
- Glog.LevelFlag.Set: the error is modelled as the rejected input. The `strconv.NumError` kinds (syntax and range) are not distinguished.
- Glog.V: the `Verbose` logging helpers `Info`, `Infoln` and `Infof` are not modelled, because they only forward to logrus. The flag registration in `init` is not modelled either.
- Array.ItemExists: modelled on a typed array. The reflection behaviour is not modelled: the panic on a non-slice argument, and the panic when comparing uncomparable interface values.
- Domain.Probe.Init: the capacity hint given to `make` for the registry map is not modelled. The probe configuration is a tagged value (`ProbeConf`), not a protobuf message.
- Strings are sequences of characters. The Go byte slices of the response body are not distinguished from strings.
- The 64-bit `int` of `strconv.Atoi` is modelled by range checks. Other integers are unbounded, because no other arithmetic here comes near its limits.
