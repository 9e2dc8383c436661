/** The entry point of workload verification: the quote's platform picks the registry. */
module WorkloadDispatch {
  import opened ByteStrings
  import opened Hashing
  import opened SevLayout
  import opened SevDigest
  import opened SevSearch
  import opened Workload
  import opened TdxWorkload
  import Sev = SevWorkload

  const NOT_AVAILABLE: WorkloadResult := WorkloadResult(RegistryNotAvailable, [], [], [], [])

  /** A registry that is absent or not loaded is None. `sevQuote` is the quote text decoded as base64. */
  ghost predicate DispatchSpec(h: Hashes, tdx: Option<seq<TdxEntry>>, sev: Option<seq<SevEntry>>, quote: Bytes,
                               sevQuote: Option<Bytes>, variants: seq<Bytes>, r: WorkloadResult)
  {
    if IsTdxQuote(quote) then
      if tdx.None? then r == NOT_AVAILABLE else TdxSpec(ReplayerOf(h), tdx.value, quote, variants, r)
    else
      if sev.None? then r == NOT_AVAILABLE
      else Sev.SevSpec(Sev.MeasureOf(h), sev.value, sevQuote, Sev.ComposeHashes(h, variants), r)
  }

  method VerifyWorkload(h: Hashes, tdx: Option<seq<TdxEntry>>, sev: Option<seq<SevEntry>>, orders: seq<seq<Bytes>>,
                        quote: Bytes, sevQuote: Option<Bytes>, compose: Bytes, extracted: Bytes)
    returns (r: WorkloadResult)
    requires forall i :: 0 <= i < |orders| ==> IsMapOrder(orders[i])
    requires sev.Some? ==> |orders| == |sev.value|
    ensures DispatchSpec(h, tdx, sev, quote, sevQuote, ComposeCandidates(compose, extracted), r)
  {
    if IsTdxQuote(quote) {
      if tdx.None? {
        return NOT_AVAILABLE;
      }
      r := VerifyTdxWorkload(ReplayerOf(h), tdx.value, quote, compose, extracted);
    } else {
      if sev.None? {
        return NOT_AVAILABLE;
      }
      r := Sev.VerifySevWorkload(h, sev.value, orders, sevQuote, compose, extracted);
    }
  }

  lemma SevJudges(m: Trial, entries: seq<SevEntry>, quote: Option<Bytes>, hashes: seq<Bytes>, r: WorkloadResult)
    requires Sev.SevSpec(m, entries, quote, hashes, r)
    ensures !r.status.RegistryNotAvailable?
  {
  }

  lemma TdxJudges(rtmr3: Replayer, entries: seq<TdxEntry>, quote: Bytes, variants: seq<Bytes>, r: WorkloadResult)
    requires TdxSpec(rtmr3, entries, quote, variants, r)
    ensures !r.status.RegistryNotAvailable?
  {
  }

  /** The registry is reported missing exactly when the one the quote's platform needs is. */
  lemma NotAvailableIff(h: Hashes, tdx: Option<seq<TdxEntry>>, sev: Option<seq<SevEntry>>, quote: Bytes,
                        sevQuote: Option<Bytes>, variants: seq<Bytes>, r: WorkloadResult)
    requires DispatchSpec(h, tdx, sev, quote, sevQuote, variants, r)
    ensures r.status.RegistryNotAvailable? <==> if IsTdxQuote(quote) then tdx.None? else sev.None?
  {
    if IsTdxQuote(quote) {
      if tdx.Some? {
        TdxJudges(ReplayerOf(h), tdx.value, quote, variants, r);
      }
    } else if sev.Some? {
      SevJudges(Sev.MeasureOf(h), sev.value, sevQuote, Sev.ComposeHashes(h, variants), r);
    }
  }
}
