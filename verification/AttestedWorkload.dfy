/** From the attestation cache back to the registry: the workload verdict of a run is computed from its quote and
    compose text, so a passed snapshot stands for a compose text that a registered image reproduces. */
module AttestedWorkload {
  import opened BackendVerifier
  import opened ByteStrings
  import opened Hashing
  import opened Workload
  import Dispatch = WorkloadDispatch
  import Digest = SevDigest
  import Entries = SevEntries
  import Search = SevSearch
  import Sev = SevWorkload
  import Tdx = TdxWorkload

  /** What a run computes with: the hash functions, the registries at each download (None when not loaded), base64
      decoding and the HTML reading of a compose response. */
  datatype World = World(
    h: Hashes, tdxAt: nat -> Option<seq<Tdx.TdxEntry>>, sevAt: nat -> Option<seq<Digest.SevEntry>>,
    decode: Bytes -> Option<Bytes>, extract: Bytes -> Bytes)

  function Readings(w: World, compose: Bytes): seq<Bytes>
  {
    ComposeCandidates(compose, w.extract(compose))
  }

  /** The verdict among the replies is the one that workload verification gives on the others. */
  ghost predicate Judged(w: World, r: Replies)
  {
    r.cpu.Some? && r.compose.Some? ==>
      var quote := r.cpu.value.quote;
      Dispatch.DispatchSpec(w.h, w.tdxAt(r.generation), w.sevAt(r.generation), quote, w.decode(quote),
                            Readings(w, r.compose.value), r.workload)
  }

  ghost function JudgeOf(w: World): Judge
  {
    (r: Replies) => Judged(w, r)
  }

  /** An attestation run that verifies the workload itself. `orders` are the map iteration orders of the run. */
  method AttestBackend(v: Verifier, w: World, orders: seq<seq<Bytes>>, modelId: Bytes, url: Bytes, r: Replies)
    returns (ok: bool, ghost full: Replies)
    requires forall i :: 0 <= i < |orders| ==> Search.IsMapOrder(orders[i])
    requires w.sevAt(r.generation).Some? ==> |orders| == |w.sevAt(r.generation).value|
    modifies v
    ensures Judged(w, full) && full == r.(workload := full.workload)
    ensures v.cache == old(v.cache)[modelId := Attest(v.hash, modelId, url, full)]
    ensures ok <==> AllChecks(full)
  {
    var verdict := r.workload;
    if r.cpu.Some? && r.compose.Some? {
      var quote, compose := r.cpu.value.quote, r.compose.value;
      verdict := Dispatch.VerifyWorkload(w.h, w.tdxAt(r.generation), w.sevAt(r.generation), orders, quote,
                                         w.decode(quote), compose, w.extract(compose));
    }
    full := r.(workload := verdict);
    ok := v.AttestBackend(modelId, url, r.(workload := verdict));
  }

  /** Some registered TDX image with the quote's platform registers and some reading replay to its RTMR3. */
  ghost predicate TdxReproduced(w: World, r: Replies, e: Tdx.TdxEntry, v: Bytes)
    requires r.cpu.Some? && r.compose.Some?
  {
    var f := Tdx.ParseTdxQuoteFields(r.cpu.value.quote);
    && f.Some? && w.tdxAt(r.generation).Some? && e in w.tdxAt(r.generation).value && Tdx.Platform(f.value)(e)
    && v in Readings(w, r.compose.value) && Tdx.ReplayerOf(w.h)(v, e.rootfsData) == f.value.rtmr3
  }

  /** Some registered SEV image, template count and reading reproduce the quoted measurement. */
  ghost predicate SevReproduced(w: World, r: Replies, e: Digest.SevEntry, t: Bytes, c: Bytes)
    requires r.cpu.Some? && r.compose.Some?
  {
    var raw := w.decode(r.cpu.value.quote);
    && raw.Some? && |raw.value| >= 0xC0 && w.sevAt(r.generation).Some?
    && Search.Reproduces(Sev.MeasureOf(w.h), w.sevAt(r.generation).value,
                         Sev.ComposeHashes(w.h, Readings(w, r.compose.value)), Sev.QuotedMeasurement(raw.value),
                         e, t, c)
  }

  ghost predicate Reproduced(w: World, r: Replies)
    requires r.cpu.Some? && r.compose.Some?
  {
    if Tdx.IsTdxQuote(r.cpu.value.quote) then exists e, v :: TdxReproduced(w, r, e, v)
    else exists e, t, c :: SevReproduced(w, r, e, t, c)
  }

  lemma TdxCase(w: World, r: Replies)
    requires r.cpu.Some? && r.compose.Some? && w.tdxAt(r.generation).Some? && r.workload.status == Authentic
    requires Tdx.TdxSpec(Tdx.ReplayerOf(w.h), w.tdxAt(r.generation).value, r.cpu.value.quote,
                         Readings(w, r.compose.value), r.workload)
    ensures exists e, v :: TdxReproduced(w, r, e, v)
  {
    var e, v := Tdx.AuthenticReplays(w.h, w.tdxAt(r.generation).value, r.cpu.value.quote,
                                     Readings(w, r.compose.value), r.workload);
    assert TdxReproduced(w, r, e, v);
  }

  lemma SevCase(w: World, r: Replies)
    requires r.cpu.Some? && r.compose.Some? && w.sevAt(r.generation).Some? && r.workload.status == Authentic
    requires Sev.SevSpec(Sev.MeasureOf(w.h), w.sevAt(r.generation).value, w.decode(r.cpu.value.quote),
                         Sev.ComposeHashes(w.h, Readings(w, r.compose.value)), r.workload)
    ensures exists e, t, c :: SevReproduced(w, r, e, t, c)
  {
    var raw := w.decode(r.cpu.value.quote).value;
    var e, t, c := Sev.AuthenticReproduced(Sev.MeasureOf(w.h), w.sevAt(r.generation).value, raw,
                                           Sev.ComposeHashes(w.h, Readings(w, r.compose.value)), r.workload);
    assert SevReproduced(w, r, e, t, c);
  }

  lemma JudgedReproduced(w: World, r: Replies)
    requires Judged(w, r) && r.cpu.Some? && r.compose.Some? && r.workload.status == Authentic
    ensures Reproduced(w, r)
  {
    if Tdx.IsTdxQuote(r.cpu.value.quote) {
      TdxCase(w, r);
    } else {
      SevCase(w, r);
    }
  }

  /** End to end, over every interleaving: each passed snapshot in the cache stems from a run in which all checks
      held and a registered image with the run's own compose text reproduces the run's own quote. */
  lemma PassedWorkload(w: World, hash: BackendVerifier.Digest, trace: seq<System>, i: nat, modelId: Bytes)
    requires IsTrace(hash, JudgeOf(w), trace) && i < |trace|
    requires modelId in trace[i].cache && trace[i].cache[modelId].Passed?
    ensures exists run :: && run in trace[i].runs && run.modelId == modelId
                          && StemsFrom(hash, trace[i].cache[modelId], modelId, run.url, run.replies)
                          && Reproduced(w, run.replies)
  {
    CacheSafety(hash, JudgeOf(w), trace, i);
    var s := trace[i].cache[modelId];
    var run :| run in trace[i].runs && run.modelId == modelId && StemsFrom(hash, s, modelId, run.url, run.replies);
    assert JudgeOf(w)(run.replies);
    JudgedReproduced(w, run.replies);
  }

  /** Two passed runs on one TDX quote, whenever and with whatever registries they ran, had a reading of their
      compose texts in common, or their readings exhibit a collision. */
  lemma SameQuoteSameCompose(w: World, r: Replies, r': Replies)
    requires AllChecks(r) && AllChecks(r') && Judged(w, r) && Judged(w, r')
    requires r.cpu.value.quote == r'.cpu.value.quote && Tdx.IsTdxQuote(r.cpu.value.quote)
    ensures var vs, vs' := Readings(w, r.compose.value), Readings(w, r'.compose.value);
            || (exists v :: v in vs && v in vs')
            || (exists e, v, e', v' :: v in vs && v' in vs' && Tdx.ReplaysCollide(w.h, e, v, e', v'))
  {
    Tdx.AuthenticBindsCompose(w.h, r.cpu.value.quote, w.tdxAt(r.generation).value, Readings(w, r.compose.value),
                              r.workload, w.tdxAt(r'.generation).value, Readings(w, r'.compose.value), r'.workload);
  }

  /** The registry of a run is loaded and all its entries show the compose hash. */
  ghost predicate SevShown(w: World, r: Replies)
  {
    w.sevAt(r.generation).Some? && Sev.ShowsCompose(w.sevAt(r.generation).value)
  }

  lemma Attested(r: Replies)
    requires AllChecks(r)
    ensures r.cpu.Some? && r.compose.Some? && r.workload.status.Authentic?
  {
  }

  lemma SevDispatched(w: World, r: Replies)
    requires Judged(w, r) && r.cpu.Some? && r.compose.Some? && !Tdx.IsTdxQuote(r.cpu.value.quote)
    requires w.sevAt(r.generation).Some?
    ensures Sev.SevSpec(Sev.MeasureOf(w.h), w.sevAt(r.generation).value, w.decode(r.cpu.value.quote),
                        Sev.ComposeHashes(w.h, Readings(w, r.compose.value)), r.workload)
  {
  }

  /** What an authentic SEV run has verified. */
  lemma SevJudged(w: World, r: Replies) returns (quote: Bytes)
    requires AllChecks(r) && Judged(w, r) && !Tdx.IsTdxQuote(r.cpu.value.quote) && w.sevAt(r.generation).Some?
    ensures w.decode(r.cpu.value.quote) == Some(quote) && |quote| >= 0xC0 && r.workload.status.Authentic?
    ensures Sev.SevSpec(Sev.MeasureOf(w.h), w.sevAt(r.generation).value, Some(quote),
                        Sev.ComposeHashes(w.h, Readings(w, r.compose.value)), r.workload)
  {
    Attested(r);
    SevDispatched(w, r);
    Sev.AuthenticQuote(Sev.MeasureOf(w.h), w.sevAt(r.generation).value, w.decode(r.cpu.value.quote),
                       Sev.ComposeHashes(w.h, Readings(w, r.compose.value)), r.workload);
    quote := w.decode(r.cpu.value.quote).value;
  }

  /** Some reading of the one and some of the other exhibit a collision. */
  ghost predicate ReadingsCollide(w: World, vs: seq<Bytes>, vs': seq<Bytes>)
  {
    exists e, n, v, e', n', v' :: v in vs && v' in vs' && Entries.EntriesCollide(w.h, e, n, v, e', n', v')
  }

  lemma ShownCollide(w: World, quote: Bytes, es: seq<Digest.SevEntry>, vs: seq<Bytes>, v: WorkloadResult,
                     es': seq<Digest.SevEntry>, vs': seq<Bytes>, v': WorkloadResult)
    requires |quote| >= 0xC0 && Sev.ShowsCompose(es) && Sev.ShowsCompose(es')
    requires Sev.SevSpec(Sev.MeasureOf(w.h), es, Some(quote), Sev.ComposeHashes(w.h, vs), v) && v.status.Authentic?
    requires Sev.SevSpec(Sev.MeasureOf(w.h), es', Some(quote), Sev.ComposeHashes(w.h, vs'), v') && v'.status.Authentic?
    ensures (exists v :: v in vs && v in vs') || ReadingsCollide(w, vs, vs')
  {
    Sev.ShownBindsCompose(w.h, quote, es, vs, v, es', vs', v');
  }

  /** The same for SEV, from registries whose entries show the compose hash. */
  lemma SameSevQuoteSameCompose(w: World, r: Replies, r': Replies)
    requires AllChecks(r) && AllChecks(r') && Judged(w, r) && Judged(w, r')
    requires r.cpu.value.quote == r'.cpu.value.quote && !Tdx.IsTdxQuote(r.cpu.value.quote)
    requires SevShown(w, r) && SevShown(w, r')
    ensures var vs, vs' := Readings(w, r.compose.value), Readings(w, r'.compose.value);
            (exists v :: v in vs && v in vs') || ReadingsCollide(w, vs, vs')
  {
    var quote := SevJudged(w, r);
    var quote' := SevJudged(w, r');
    var vs, vs' := Readings(w, r.compose.value), Readings(w, r'.compose.value);
    ShownCollide(w, quote, w.sevAt(r.generation).value, vs, r.workload, w.sevAt(r'.generation).value, vs', r'.workload);
  }
}
