/** The backend attestation cache that gates every prompt. One full attestation is a chain of
    checks over network replies; the cache is read and written in separate critical sections,
    so the safety result is proved over every interleaving of concurrent calls. */
module BackendVerifier {
  import opened ByteStrings
  import opened ReportData
  import opened Workload

  type Digest = Bytes -> Bytes   // hexadecimal SHA-256

  // ---- one full attestation ----

  datatype LiveQuote = LiveQuote(quote: Bytes, tls: TlsBinding)
  datatype NrasResult = NrasResult(overall: bool, eatNonce: Bytes)

  /** Every reply one attestation run may get; None is a failed call. Later replies matter only
      when the run gets that far. A golden value of Some(None) means that none is configured. `generation`
      numbers the registry download that the workload check saw. */
  datatype Replies = Replies(
    generation: nat,
    cpu: Option<LiveQuote>, portal: Option<AttestationResult>, compose: Option<Bytes>, workload: WorkloadResult,
    gpu: Option<Bytes>, gpuNonce: Option<Bytes>, nras: Option<NrasResult>, golden: Option<Option<Golden>>)

  datatype Reason =
    | CpuFetch | NoTls | PortalFailed | CpuInvalid | TlsMismatch | ComposeFetch | WrongWorkload | NotSecretVm
    | RegistryMissing | GpuFetch | GpuParse | CpuGpuMismatch | NrasFailed | NrasRejected | NonceMismatch
    | GoldenFetch | RegisterMismatch

  datatype Snapshot =
    | Passed(modelId: Bytes, url: Bytes, cpuQuoteHash: Bytes, gpuQuoteHash: Bytes, tls: TlsBinding, kind: BindingKind,
             cpuReportData: Bytes, gpuReportData: Bytes, teeType: TeeType, workload: WorkloadResult)
    | Failed(modelId: Bytes, url: Bytes, reason: Reason)

  function NormalNonce(s: Bytes): Bytes { Lower(TrimSpace(s)) }

  /** What "attested" means: every check of the run held at once. */
  ghost predicate AllChecks(r: Replies)
  {
    && r.cpu.Some? && !r.cpu.value.tls.IsZero()
    && r.portal.Some? && r.portal.value.valid
    && r.compose.Some? && r.workload.status == Authentic
    && r.gpu.Some? && r.gpuNonce.Some?
    && BindsBoth(r.cpu.value.tls, r.portal.value.reportData, r.gpuNonce.value)
    && r.nras.Some? && r.nras.value.overall
    && NormalNonce(r.nras.value.eatNonce) != []
    && NormalNonce(r.nras.value.eatNonce) == NormalNonce(r.gpuNonce.value)
    && r.golden.Some? && (r.golden.value.None? || RegistersMatch(r.portal.value, r.golden.value.value))
  }

  ghost predicate StemsFrom(hash: Digest, s: Snapshot, modelId: Bytes, url: Bytes, r: Replies)
  {
    && AllChecks(r) && s.Passed? && s.modelId == modelId && s.url == url
    && s.cpuQuoteHash == hash(r.cpu.value.quote) && s.gpuQuoteHash == hash(r.gpu.value)
    && s.tls == r.cpu.value.tls && Some(s.kind) == VerifyTLSBinding(s.tls, r.portal.value.reportData)
    && s.cpuReportData == r.portal.value.reportData && s.gpuReportData == r.gpuNonce.value
    && s.teeType == r.portal.value.teeType && s.workload == r.workload
  }

  /** The steps after the workload check, each failing with its own reason. `bound` is the outcome of the
      CPU-GPU binding, `nonce` that of the nonce comparison and `golden` that of the register comparison. */
  function AttestGpu(hash: Digest, modelId: Bytes, url: Bytes, r: Replies, live: LiveQuote, cpu: AttestationResult,
                     kind: BindingKind, bound: bool, nonce: bool, golden: bool): Snapshot
  {
    if r.gpu.None? then Failed(modelId, url, GpuFetch)
    else if r.gpuNonce.None? then Failed(modelId, url, GpuParse)
    else if !bound then Failed(modelId, url, CpuGpuMismatch)
    else if r.nras.None? then Failed(modelId, url, NrasFailed)
    else if !r.nras.value.overall then Failed(modelId, url, NrasRejected)
    else if !nonce then Failed(modelId, url, NonceMismatch)
    else if r.golden.None? then Failed(modelId, url, GoldenFetch)
    else if !golden then Failed(modelId, url, RegisterMismatch)
    else Passed(modelId, url, hash(live.quote), hash(r.gpu.value), live.tls, kind,
                cpu.reportData, r.gpuNonce.value, cpu.teeType, r.workload)
  }

  predicate GpuBound(r: Replies, cpu: AttestationResult)
  {
    r.gpuNonce.Some? && VerifyCPUGPUBinding(cpu.reportData, r.gpuNonce.value)
  }

  predicate NonceBound(r: Replies)
  {
    && r.nras.Some? && r.gpuNonce.Some? && NormalNonce(r.nras.value.eatNonce) != []
    && NormalNonce(r.nras.value.eatNonce) == NormalNonce(r.gpuNonce.value)
  }

  predicate GoldenHolds(r: Replies, cpu: AttestationResult)
  {
    r.golden.Some? && (r.golden.value.None? || RegistersMatch(cpu, r.golden.value.value))
  }

  /** The steps from the TLS binding on. */
  function AttestCpu(hash: Digest, modelId: Bytes, url: Bytes, r: Replies, live: LiveQuote, cpu: AttestationResult,
                     kind: Option<BindingKind>, bound: bool, nonce: bool, golden: bool): Snapshot
  {
    match kind
    case None => Failed(modelId, url, TlsMismatch)
    case Some(k) =>
      if r.compose.None? then Failed(modelId, url, ComposeFetch)
      else match r.workload.status
      case AuthenticMismatch => Failed(modelId, url, WrongWorkload)
      case NotAuthentic => Failed(modelId, url, NotSecretVm)
      case RegistryNotAvailable => Failed(modelId, url, RegistryMissing)
      case Authentic => AttestGpu(hash, modelId, url, r, live, cpu, k, bound, nonce, golden)
  }

  /** The attestation steps in order. */
  function Attest(hash: Digest, modelId: Bytes, url: Bytes, r: Replies): Snapshot
  {
    if r.cpu.None? then Failed(modelId, url, CpuFetch)
    else if r.cpu.value.tls.IsZero() then Failed(modelId, url, NoTls)
    else if r.portal.None? then Failed(modelId, url, PortalFailed)
    else if !r.portal.value.valid then Failed(modelId, url, CpuInvalid)
    else AttestCpu(hash, modelId, url, r, r.cpu.value, r.portal.value,
                   VerifyTLSBinding(r.cpu.value.tls, r.portal.value.reportData),
                   GpuBound(r, r.portal.value), NonceBound(r), GoldenHolds(r, r.portal.value))
  }

  lemma AttestCpuPasses(hash: Digest, modelId: Bytes, url: Bytes, r: Replies, live: LiveQuote, cpu: AttestationResult,
                        kind: Option<BindingKind>, bound: bool, nonce: bool, golden: bool)
    ensures var s := AttestCpu(hash, modelId, url, r, live, cpu, kind, bound, nonce, golden);
            && (s.Passed? <==> && kind.Some? && r.compose.Some? && r.workload.status == Authentic && r.gpu.Some?
                               && r.gpuNonce.Some? && bound && r.nras.Some? && r.nras.value.overall && nonce
                               && r.golden.Some? && golden)
            && (s.Passed? ==> s == Passed(modelId, url, hash(live.quote), hash(r.gpu.value), live.tls, kind.value,
                                          cpu.reportData, r.gpuNonce.value, cpu.teeType, r.workload))
  {
  }

  /** A run passes exactly when every check held, and its snapshot records that run. */
  lemma AttestIffAllChecks(hash: Digest, modelId: Bytes, url: Bytes, r: Replies)
    ensures Attest(hash, modelId, url, r).Passed? <==> AllChecks(r)
    ensures AllChecks(r) ==> StemsFrom(hash, Attest(hash, modelId, url, r), modelId, url, r)
  {
    if r.cpu.Some? && r.portal.Some? {
      var live, cpu := r.cpu.value, r.portal.value;
      AttestCpuPasses(hash, modelId, url, r, live, cpu, VerifyTLSBinding(live.tls, cpu.reportData),
                      GpuBound(r, cpu), NonceBound(r), GoldenHolds(r, cpu));
      if r.gpuNonce.Some? {
        ChecksMeanLayout(live.tls, cpu.reportData, r.gpuNonce.value);
      }
    }
  }

  datatype Check = Check(holds: bool, reason: Reason)

  /** Every check of a run in the order it is made, with the reason recorded when it is the first to fail. */
  ghost function ChecksOf(r: Replies): (cs: seq<Check>)
    ensures |cs| == 17
  {
    CpuChecks(r) + GpuChecks(r)
  }

  ghost function CpuChecks(r: Replies): (cs: seq<Check>)
    ensures |cs| == 9
  {
    CpuList(r, && r.cpu.Some? && r.portal.Some?
               && VerifyTLSBinding(r.cpu.value.tls, r.portal.value.reportData).Some?)
  }

  ghost function CpuList(r: Replies, tls: bool): (cs: seq<Check>)
    ensures |cs| == 9
  {
    [Check(r.cpu.Some?, CpuFetch),
     Check(r.cpu.Some? && (r.cpu.value.tls.spki != [] || r.cpu.value.tls.certificate != []), NoTls),
     Check(r.portal.Some?, PortalFailed),
     Check(r.portal.Some? && r.portal.value.valid, CpuInvalid),
     Check(tls, TlsMismatch),
     Check(r.compose.Some?, ComposeFetch),
     Check(r.workload.status != AuthenticMismatch, WrongWorkload),
     Check(r.workload.status != NotAuthentic, NotSecretVm),
     Check(r.workload.status != RegistryNotAvailable, RegistryMissing)]
  }

  ghost function GpuChecks(r: Replies): (cs: seq<Check>)
    ensures |cs| == 8
  {
    GpuList(r, && r.portal.Some? && r.gpuNonce.Some?
               && VerifyCPUGPUBinding(r.portal.value.reportData, r.gpuNonce.value),
            && r.nras.Some? && r.gpuNonce.Some? && Lower(TrimSpace(r.nras.value.eatNonce)) != []
            && Lower(TrimSpace(r.nras.value.eatNonce)) == Lower(TrimSpace(r.gpuNonce.value)),
            && r.portal.Some? && r.golden.Some?
            && (r.golden.value.None? || OwnRegisterHolds(r.portal.value, r.golden.value.value)))
  }

  ghost function GpuList(r: Replies, bound: bool, nonce: bool, golden: bool): (cs: seq<Check>)
    ensures |cs| == 8
  {
    [Check(r.gpu.Some?, GpuFetch), Check(r.gpuNonce.Some?, GpuParse), Check(bound, CpuGpuMismatch),
     Check(r.nras.Some?, NrasFailed), Check(r.nras.Some? && r.nras.value.overall, NrasRejected),
     Check(nonce, NonceMismatch), Check(r.golden.Some?, GoldenFetch), Check(golden, RegisterMismatch)]
  }

  /** Check number i is the first to fail, or there is none. */
  ghost predicate FirstFails(cs: seq<Check>, i: nat)
  {
    i <= |cs| && (i < |cs| ==> !cs[i].holds) && forall j :: 0 <= j < i ==> cs[j].holds
  }

  lemma GpuReason(hash: Digest, modelId: Bytes, url: Bytes, r: Replies, live: LiveQuote, cpu: AttestationResult,
                  kind: BindingKind, bound: bool, nonce: bool, golden: bool) returns (i: nat)
    ensures FirstFails(GpuList(r, bound, nonce, golden), i)
    ensures var s := AttestGpu(hash, modelId, url, r, live, cpu, kind, bound, nonce, golden);
            if i < 8 then s == Failed(modelId, url, GpuList(r, bound, nonce, golden)[i].reason) else s.Passed?
  {
    i := if r.gpu.None? then 0 else if r.gpuNonce.None? then 1 else if !bound then 2
         else if r.nras.None? then 3 else if !r.nras.value.overall then 4 else if !nonce then 5
         else if r.golden.None? then 6 else if !golden then 7 else 8;
  }

  lemma GpuListIs(r: Replies)
    requires r.portal.Some?
    ensures GpuChecks(r) == GpuList(r, GpuBound(r, r.portal.value), NonceBound(r), GoldenHolds(r, r.portal.value))
  {
    if r.golden.Some? && r.golden.value.Some? { RegistersMatchMeans(r.portal.value, r.golden.value.value); }
  }

  lemma CpuReason(hash: Digest, modelId: Bytes, url: Bytes, r: Replies, cpu: AttestationResult,
                  kind: Option<BindingKind>, bound: bool, nonce: bool, golden: bool) returns (i: nat)
    requires r.cpu.Some? && !r.cpu.value.tls.IsZero() && r.portal == Some(cpu) && cpu.valid
    ensures FirstFails(CpuList(r, kind.Some?), i)
    ensures var s := AttestCpu(hash, modelId, url, r, r.cpu.value, cpu, kind, bound, nonce, golden);
            if i < 9 then s == Failed(modelId, url, CpuList(r, kind.Some?)[i].reason)
            else kind.Some? && s == AttestGpu(hash, modelId, url, r, r.cpu.value, cpu, kind.value, bound, nonce, golden)
  {
    i := if kind.None? then 4 else if r.compose.None? then 5 else if r.workload.status == AuthenticMismatch then 6
         else if r.workload.status == NotAuthentic then 7
         else if r.workload.status == RegistryNotAvailable then 8 else 9;
  }

  lemma EarlyReason(hash: Digest, modelId: Bytes, url: Bytes, r: Replies, tls: bool) returns (i: nat)
    requires r.cpu.None? || r.cpu.value.tls.IsZero() || r.portal.None? || !r.portal.value.valid
    ensures i < 4 && FirstFails(CpuList(r, tls), i)
    ensures Attest(hash, modelId, url, r) == Failed(modelId, url, CpuList(r, tls)[i].reason)
  {
    i := if r.cpu.None? then 0 else if r.cpu.value.tls.IsZero() then 1 else if r.portal.None? then 2 else 3;
  }

  lemma JoinFails(a: seq<Check>, b: seq<Check>, i: nat)
    requires FirstFails(a, |a|) && FirstFails(b, i)
    ensures FirstFails(a + b, |a| + i)
  {
  }

  lemma HeadFails(a: seq<Check>, b: seq<Check>, i: nat)
    requires FirstFails(a, i) && i < |a|
    ensures FirstFails(a + b, i)
  {
  }

  /** Check number i is the first to fail and the snapshot says so, or none fails and it has passed. */
  ghost predicate Records(cs: seq<Check>, i: nat, s: Snapshot, modelId: Bytes, url: Bytes)
  {
    && FirstFails(cs, i)
    && if i < |cs| then s == Failed(modelId, url, cs[i].reason) else s.Passed?
  }

  lemma RecordsHead(a: seq<Check>, b: seq<Check>, i: nat, s: Snapshot, modelId: Bytes, url: Bytes)
    requires FirstFails(a, i) && i < |a| && s == Failed(modelId, url, a[i].reason)
    ensures Records(a + b, i, s, modelId, url)
  {
    HeadFails(a, b, i);
  }

  lemma RecordsTail(a: seq<Check>, b: seq<Check>, i: nat, s: Snapshot, modelId: Bytes, url: Bytes)
    requires FirstFails(a, |a|) && Records(b, i, s, modelId, url)
    ensures Records(a + b, |a| + i, s, modelId, url)
  {
    JoinFails(a, b, i);
  }

  lemma LateReason(hash: Digest, modelId: Bytes, url: Bytes, r: Replies) returns (i: nat)
    requires r.cpu.Some? && !r.cpu.value.tls.IsZero() && r.portal.Some? && r.portal.value.valid
    ensures Records(ChecksOf(r), i, Attest(hash, modelId, url, r), modelId, url)
  {
    var live, cpu := r.cpu.value, r.portal.value;
    var kind := VerifyTLSBinding(live.tls, cpu.reportData);
    i := CpuThenGpu(hash, modelId, url, r, live, cpu, kind, GpuBound(r, cpu), NonceBound(r), GoldenHolds(r, cpu));
    GpuListIs(r);
  }

  lemma CpuThenGpu(hash: Digest, modelId: Bytes, url: Bytes, r: Replies, live: LiveQuote, cpu: AttestationResult,
                   kind: Option<BindingKind>, bound: bool, nonce: bool, golden: bool) returns (i: nat)
    requires r.cpu == Some(live) && !live.tls.IsZero() && r.portal == Some(cpu) && cpu.valid
    ensures Records(CpuList(r, kind.Some?) + GpuList(r, bound, nonce, golden), i,
                    AttestCpu(hash, modelId, url, r, live, cpu, kind, bound, nonce, golden), modelId, url)
  {
    var a, b := CpuList(r, kind.Some?), GpuList(r, bound, nonce, golden);
    var s := AttestCpu(hash, modelId, url, r, live, cpu, kind, bound, nonce, golden);
    i := CpuReason(hash, modelId, url, r, cpu, kind, bound, nonce, golden);
    if i < 9 {
      RecordsHead(a, b, i, s, modelId, url);
    } else {
      var j := GpuReason(hash, modelId, url, r, live, cpu, kind.value, bound, nonce, golden);
      RecordsTail(a, b, j, s, modelId, url);
      i := 9 + j;
    }
  }

  /** A failed run records the reason of the first check that does not hold, and a run without one passes. */
  lemma AttestReason(hash: Digest, modelId: Bytes, url: Bytes, r: Replies) returns (i: nat)
    ensures Records(ChecksOf(r), i, Attest(hash, modelId, url, r), modelId, url)
  {
    if r.cpu.None? || r.cpu.value.tls.IsZero() || r.portal.None? || !r.portal.value.valid {
      i := EarlyReason(hash, modelId, url, r, && r.cpu.Some? && r.portal.Some?
                       && VerifyTLSBinding(r.cpu.value.tls, r.portal.value.reportData).Some?);
      RecordsHead(CpuChecks(r), GpuChecks(r), i, Attest(hash, modelId, url, r), modelId, url);
    } else {
      i := LateReason(hash, modelId, url, r);
    }
  }

  lemma DropSpacesOfLower(s: Bytes)
    ensures DropSpaces(Lower(s)) == Lower(DropSpaces(s))
  {
    if s != [] {
      DropSpacesOfLower(s[1..]);
      assert Lower(s)[1..] == Lower(s[1..]);
      assert Lower(s) == [LowerByte(s[0])] + Lower(s[1..]);
      if s[0] != ' ' as int {
        assert Lower([s[0]] + DropSpaces(s[1..])) == [LowerByte(s[0])] + Lower(DropSpaces(s[1..]));
      }
    }
  }

  /** End to end: the nonce NVIDIA signed over is the tail of the CPU report data behind the digest. */
  lemma NonceChain(r: Replies)
    requires AllChecks(r)
    ensures DropSpaces(NormalNonce(r.nras.value.eatNonce)) == Normal(r.portal.value.reportData)[DIGEST_HEX..]
  {
    var d :| (d == Lower(r.cpu.value.tls.spki) || d == Lower(r.cpu.value.tls.certificate)) && |d| == DIGEST_HEX
             && Normal(r.portal.value.reportData) == d + Normal(r.gpuNonce.value);
    DropSpacesOfLower(TrimSpace(r.gpuNonce.value));
  }

  // ---- the verifier object, one call at a time ----

  type Cache = map<Bytes, Snapshot>

  function Lookup(cache: Cache, modelId: Bytes): Option<Snapshot>
  {
    if modelId in cache then Some(cache[modelId]) else None
  }

  datatype FastChoice = Accept | Reject | Reattest(url: Bytes)

  /** What the fast path decides from the snapshot it read and the live quote. */
  function FastDecision(hash: Digest, snapshot: Option<Snapshot>, live: Option<LiveQuote>): FastChoice
  {
    match snapshot
    case None => Reject
    case Some(Failed(_, url, _)) => Reattest(url)
    case Some(s) =>
      if live.None? then Reject
      else if hash(live.value.quote) != s.cpuQuoteHash then Reattest(s.url)
      else if !EqualFold(live.value.tls.certificate, s.tls.certificate) then
        if live.value.tls.spki != [] && EqualFold(live.value.tls.spki, s.tls.spki) then Reattest(s.url) else Reject
      else Accept
  }

  /** The live quote and certificate are those of a passed snapshot. */
  predicate LiveMatches(hash: Digest, s: Snapshot, live: LiveQuote)
  {
    s.Passed? && hash(live.quote) == s.cpuQuoteHash && EqualFold(live.tls.certificate, s.tls.certificate)
  }

  lemma AcceptMeansMatch(hash: Digest, snapshot: Option<Snapshot>, live: Option<LiveQuote>)
    ensures FastDecision(hash, snapshot, live) == Accept
       <==> snapshot.Some? && live.Some? && LiveMatches(hash, snapshot.value, live.value)
  {
  }

  /** Nothing may be sent and nothing is tried: no snapshot, a passed one whose backend does not answer, or one whose
      backend shows the same quote behind another certificate with another key. */
  predicate Refused(hash: Digest, snapshot: Option<Snapshot>, live: Option<LiveQuote>)
  {
    || snapshot.None?
    || (&& snapshot.value.Passed?
        && (live.None?
            || (&& hash(live.value.quote) == snapshot.value.cpuQuoteHash
                && !EqualFold(live.value.tls.certificate, snapshot.value.tls.certificate)
                && (live.value.tls.spki == [] || !EqualFold(live.value.tls.spki, snapshot.value.tls.spki)))))
  }

  predicate Accepted(hash: Digest, snapshot: Option<Snapshot>, live: Option<LiveQuote>)
  {
    snapshot.Some? && live.Some? && LiveMatches(hash, snapshot.value, live.value)
  }

  /** What a fast verification must answer and leave in the cache: refusal and acceptance leave it alone, and in every
      other case the backend is attested anew at its known URL, the answer being whether all checks held and the new
      snapshot being that of this run. */
  ghost predicate FastOutcome(hash: Digest, before: Cache, modelId: Bytes, live: Option<LiveQuote>, r: Replies,
                              ok: bool, after: Cache)
  {
    var snapshot := if modelId in before then Some(before[modelId]) else None;
    if Refused(hash, snapshot, live) then !ok && after == before
    else if Accepted(hash, snapshot, live) then ok && after == before
    else (ok <==> AllChecks(r)) && AttestedAnew(hash, before, modelId, snapshot.value.url, r, after)
  }

  /** The cache after a run: a passed snapshot with what the run saw, or a failed one, for this model only. */
  ghost predicate AttestedAnew(hash: Digest, before: Cache, modelId: Bytes, url: Bytes, r: Replies, after: Cache)
  {
    && modelId in after && after == before[modelId := after[modelId]]
    && if AllChecks(r) then StemsFrom(hash, after[modelId], modelId, url, r)
       else after[modelId].Failed? && after[modelId].modelId == modelId && after[modelId].url == url
  }

  /** A re-attestation uses the URL on record, or else the resolved one; without either it fails and changes nothing. */
  ghost predicate ReattestOutcome(hash: Digest, before: Cache, modelId: Bytes, resolved: Option<Bytes>, r: Replies,
                                  ok: bool, after: Cache)
  {
    if modelId in before && before[modelId].url != [] then
      (ok <==> AllChecks(r)) && AttestedAnew(hash, before, modelId, before[modelId].url, r, after)
    else if resolved.Some? then
      (ok <==> AllChecks(r)) && AttestedAnew(hash, before, modelId, resolved.value, r, after)
    else !ok && after == before
  }

  lemma AttestWrites(hash: Digest, before: Cache, modelId: Bytes, url: Bytes, r: Replies)
    ensures AttestedAnew(hash, before, modelId, url, r, before[modelId := Attest(hash, modelId, url, r)])
  {
    AttestIffAllChecks(hash, modelId, url, r);
    if !AllChecks(r) {
      var i := AttestReason(hash, modelId, url, r);
    }
  }

  lemma DecisionIs(hash: Digest, snapshot: Option<Snapshot>, live: Option<LiveQuote>)
    ensures FastDecision(hash, snapshot, live)
         == if Refused(hash, snapshot, live) then Reject
            else if Accepted(hash, snapshot, live) then Accept else Reattest(snapshot.value.url)
  {
  }

  class Verifier {
    const hash: Digest
    var cache: Cache

    constructor (hash: Digest)
      ensures cache == map[] && this.hash == hash
    {
      this.hash := hash;
      cache := map[];
    }

    method StoreFailure(modelId: Bytes, url: Bytes, reason: Reason)
      modifies this
      ensures cache == old(cache)[modelId := Failed(modelId, url, reason)]
    {
      cache := cache[modelId := Failed(modelId, url, reason)];
    }

    method AttestBackend(modelId: Bytes, url: Bytes, r: Replies) returns (ok: bool)
      modifies this
      ensures cache == old(cache)[modelId := Attest(hash, modelId, url, r)]
      ensures ok <==> AllChecks(r)
      ensures AttestedAnew(hash, old(cache), modelId, url, r, cache)
    {
      AttestIffAllChecks(hash, modelId, url, r);
      AttestWrites(hash, cache, modelId, url, r);
      if r.cpu.None? { StoreFailure(modelId, url, CpuFetch); return false; }
      var live := r.cpu.value;
      if live.tls.IsZero() { StoreFailure(modelId, url, NoTls); return false; }
      if r.portal.None? { StoreFailure(modelId, url, PortalFailed); return false; }
      var cpuResult := r.portal.value;
      if !cpuResult.valid { StoreFailure(modelId, url, CpuInvalid); return false; }
      var kind := VerifyTLSBinding(live.tls, cpuResult.reportData);
      if kind.None? { StoreFailure(modelId, url, TlsMismatch); return false; }
      if r.compose.None? { StoreFailure(modelId, url, ComposeFetch); return false; }
      match r.workload.status {
        case Authentic =>
        case AuthenticMismatch => StoreFailure(modelId, url, WrongWorkload); return false;
        case NotAuthentic => StoreFailure(modelId, url, NotSecretVm); return false;
        case RegistryNotAvailable => StoreFailure(modelId, url, RegistryMissing); return false;
      }
      if r.gpu.None? { StoreFailure(modelId, url, GpuFetch); return false; }
      if r.gpuNonce.None? { StoreFailure(modelId, url, GpuParse); return false; }
      var bound := VerifyCPUGPUBinding(cpuResult.reportData, r.gpuNonce.value);
      if !bound { StoreFailure(modelId, url, CpuGpuMismatch); return false; }
      if r.nras.None? { StoreFailure(modelId, url, NrasFailed); return false; }
      if !r.nras.value.overall { StoreFailure(modelId, url, NrasRejected); return false; }
      var submitted := NormalNonce(r.gpuNonce.value);
      var attested := NormalNonce(r.nras.value.eatNonce);
      if attested == [] || attested != submitted { StoreFailure(modelId, url, NonceMismatch); return false; }
      if r.golden.None? { StoreFailure(modelId, url, GoldenFetch); return false; }
      if r.golden.value.Some? {
        var same := CompareRegisters(cpuResult, r.golden.value.value);
        if !same { StoreFailure(modelId, url, RegisterMismatch); return false; }
      }
      cache := cache[modelId := Passed(modelId, url, hash(live.quote), hash(r.gpu.value), live.tls, kind.value,
                                       cpuResult.reportData, r.gpuNonce.value, cpuResult.teeType, r.workload)];
      ok := true;
    }

    /** `live` is the reply to the fast path's own fetch, `r` the replies of a re-attestation. */
    method FastVerifyBackend(modelId: Bytes, live: Option<LiveQuote>, r: Replies) returns (ok: bool)
      modifies this
      ensures ok <==> match FastDecision(hash, Lookup(old(cache), modelId), live)
                      case Accept => true
                      case Reject => false
                      case Reattest(_) => AllChecks(r)
      ensures cache == match FastDecision(hash, Lookup(old(cache), modelId), live)
                       case Reattest(url) => old(cache)[modelId := Attest(hash, modelId, url, r)]
                       case _ => old(cache)
      ensures FastOutcome(hash, old(cache), modelId, live, r, ok, cache)
    {
      DecisionIs(hash, Lookup(cache, modelId), live);
      if modelId !in cache { return false; }
      var snapshot := cache[modelId];
      if !snapshot.Passed? {
        ok := AttestBackend(modelId, snapshot.url, r);
        return;
      }
      if live.None? { return false; }
      if hash(live.value.quote) != snapshot.cpuQuoteHash {
        ok := AttestBackend(modelId, snapshot.url, r);
        return;
      }
      if !EqualFold(live.value.tls.certificate, snapshot.tls.certificate) {
        if live.value.tls.spki != [] && EqualFold(live.value.tls.spki, snapshot.tls.spki) {
          ok := AttestBackend(modelId, snapshot.url, r);
          return;
        }
        return false;
      }
      ok := true;
    }

    /** `resolved` is the probed attestation URL, None when it cannot be derived. */
    method ReattestBackend(modelId: Bytes, resolved: Option<Bytes>, r: Replies) returns (ok: bool)
      modifies this
      ensures var url := ReattestUrl(Lookup(old(cache), modelId), resolved);
              && (ok <==> url.Some? && AllChecks(r))
              && cache == if url.Some? then old(cache)[modelId := Attest(hash, modelId, url.value, r)] else old(cache)
      ensures ReattestOutcome(hash, old(cache), modelId, resolved, r, ok, cache)
    {
      var url := if modelId in cache then cache[modelId].url else [];
      if url == [] {
        if resolved.None? { return false; }
        url := resolved.value;
      }
      ok := AttestBackend(modelId, url, r);
    }

    /** The binding a pinned client checks its peer against. */
    method PinnedBinding(modelId: Bytes) returns (b: Option<TlsBinding>)
      ensures b.Some? <==> modelId in cache && cache[modelId].Passed?
      ensures b.Some? ==> b.value == cache[modelId].tls
    {
      if modelId !in cache || !cache[modelId].Passed? { return None; }
      b := Some(cache[modelId].tls);
    }
  }

  function ReattestUrl(snapshot: Option<Snapshot>, resolved: Option<Bytes>): Option<Bytes>
  {
    if snapshot.Some? && snapshot.value.url != [] then Some(snapshot.value.url) else resolved
  }

  // ---- concurrent calls ----

  datatype Call =
    | FastVerify(modelId: Bytes)
    | Attestation(modelId: Bytes, url: Bytes)
    | Reattestation(modelId: Bytes, resolved: Option<Bytes>)

  /** Where a call stands between its critical sections, with its local variables. */
  datatype Local =
    | Started(call: Call)
    | Loaded(call: Call, read: Option<Snapshot>)
    | Attesting(call: Call, read: Option<Snapshot>, live: Option<LiveQuote>, url: Bytes)
    | Storing(call: Call, read: Option<Snapshot>, live: Option<LiveQuote>, url: Bytes, replies: Replies)
    | Returned(call: Call, read: Option<Snapshot>, live: Option<LiveQuote>, attested: Option<Replies>, ok: bool)

  /** A completed attestation run: the model, its URL and the replies it got. */
  datatype Run = Run(modelId: Bytes, url: Bytes, replies: Replies)

  /** `runs` is the history of completed runs; no step reads it. */
  datatype System = System(cache: Cache, calls: map<nat, Local>, runs: set<Run>)

  /** What the network answers during one step. */
  datatype Network = Network(live: Option<LiveQuote>, replies: Replies)

  /** Which replies a run can get; it ties the workload verdict to quote and compose text. */
  type Judge = Replies -> bool

  function Advance(hash: Digest, cache: Cache, l: Local, net: Network): (Local, Cache)
  {
    match l
    case Started(FastVerify(m)) => (Loaded(l.call, Lookup(cache, m)), cache)
    case Started(Attestation(_, url)) => (Attesting(l.call, None, None, url), cache)
    case Started(Reattestation(m, resolved)) =>
      var read := Lookup(cache, m);
      (match ReattestUrl(read, resolved)
       case None => Returned(l.call, read, None, None, false)
       case Some(url) => Attesting(l.call, read, None, url), cache)
    case Loaded(call, read) =>
      (match FastDecision(hash, read, net.live)
       case Accept => Returned(call, read, net.live, None, true)
       case Reject => Returned(call, read, net.live, None, false)
       case Reattest(url) => Attesting(call, read, net.live, url), cache)
    case Attesting(call, read, live, url) => (Storing(call, read, live, url, net.replies), cache)
    case Storing(call, read, live, url, replies) =>
      var s := Attest(hash, call.modelId, url, replies);
      (Returned(call, read, live, Some(replies), s.Passed?), cache[call.modelId := s])
    case Returned(_, _, _, _, _) => (l, cache)
  }

  // ---- one call with nobody else ----

  /** The call takes four steps in a row, each with its own answers of the network. */
  function Alone(hash: Digest, cache: Cache, l: Local, n0: Network, n1: Network, n2: Network, n3: Network)
    : (Local, Cache)
  {
    var (l1, c1) := Advance(hash, cache, l, n0);
    var (l2, c2) := Advance(hash, c1, l1, n1);
    var (l3, c3) := Advance(hash, c2, l2, n2);
    Advance(hash, c3, l3, n3)
  }

  /** The last two steps of a run, and one more that does nothing. */
  lemma RunEnds(hash: Digest, cache: Cache, call: Call, read: Option<Snapshot>, live: Option<LiveQuote>, url: Bytes,
                n1: Network, n2: Network, n3: Network)
    ensures var s := Attest(hash, call.modelId, url, n1.replies);
            var l, after := Returned(call, read, live, Some(n1.replies), s.Passed?), cache[call.modelId := s];
            var storing := Storing(call, read, live, url, n1.replies);
            && Advance(hash, cache, Attesting(call, read, live, url), n1) == (storing, cache)
            && Advance(hash, cache, storing, n2) == (l, after) && Advance(hash, after, l, n3) == (l, after)
  {
  }

  lemma AttestTells(hash: Digest, cache: Cache, modelId: Bytes, url: Bytes, r: Replies)
    ensures Attest(hash, modelId, url, r).Passed? <==> AllChecks(r)
    ensures AttestedAnew(hash, cache, modelId, url, r, cache[modelId := Attest(hash, modelId, url, r)])
  {
    AttestWrites(hash, cache, modelId, url, r);
    AttestIffAllChecks(hash, modelId, url, r);
  }

  /** Undisturbed, a call returns and answers, and leaves in the cache, what the method of the verifier promises. */
  lemma AloneFast(hash: Digest, cache: Cache, modelId: Bytes, n0: Network, n1: Network, n2: Network, n3: Network)
    ensures var (l, after) := Alone(hash, cache, Started(FastVerify(modelId)), n0, n1, n2, n3);
            l.Returned? && FastOutcome(hash, cache, modelId, n1.live, n2.replies, l.ok, after)
  {
    var snapshot := Lookup(cache, modelId);
    DecisionIs(hash, snapshot, n1.live);
    if FastDecision(hash, snapshot, n1.live).Reattest? {
      AloneReads(hash, cache, modelId, n0, n1, n2, n3);
    }
  }

  lemma AloneReads(hash: Digest, cache: Cache, modelId: Bytes, n0: Network, n1: Network, n2: Network, n3: Network)
    requires FastDecision(hash, Lookup(cache, modelId), n1.live).Reattest?
    ensures var (l, after) := Alone(hash, cache, Started(FastVerify(modelId)), n0, n1, n2, n3);
            && l.Returned? && (l.ok <==> AllChecks(n2.replies))
            && AttestedAnew(hash, cache, modelId, FastDecision(hash, Lookup(cache, modelId), n1.live).url, n2.replies,
                            after)
  {
    var call, read := FastVerify(modelId), Lookup(cache, modelId);
    RunEnds(hash, cache, call, read, n1.live, FastDecision(hash, read, n1.live).url, n2, n3, n3);
    AttestTells(hash, cache, modelId, FastDecision(hash, read, n1.live).url, n2.replies);
  }

  lemma AloneAttest(hash: Digest, cache: Cache, modelId: Bytes, url: Bytes, n0: Network, n1: Network, n2: Network,
                    n3: Network)
    ensures var (l, after) := Alone(hash, cache, Started(Attestation(modelId, url)), n0, n1, n2, n3);
            && l.Returned? && (l.ok <==> AllChecks(n1.replies))
            && AttestedAnew(hash, cache, modelId, url, n1.replies, after)
  {
    RunEnds(hash, cache, Attestation(modelId, url), None, None, url, n1, n2, n3);
    AttestTells(hash, cache, modelId, url, n1.replies);
  }

  lemma AloneReattest(hash: Digest, cache: Cache, modelId: Bytes, resolved: Option<Bytes>, n0: Network, n1: Network,
                      n2: Network, n3: Network)
    ensures var (l, after) := Alone(hash, cache, Started(Reattestation(modelId, resolved)), n0, n1, n2, n3);
            l.Returned? && ReattestOutcome(hash, cache, modelId, resolved, n1.replies, l.ok, after)
  {
    var call, read := Reattestation(modelId, resolved), Lookup(cache, modelId);
    var url := ReattestUrl(read, resolved);
    if url.Some? {
      RunEnds(hash, cache, call, read, None, url.value, n1, n2, n3);
      AttestTells(hash, cache, modelId, url.value, n1.replies);
    }
  }

  /** The runs completed by this step. */
  function RunsOf(l: Local): set<Run>
  {
    if l.Storing? then {Run(l.call.modelId, l.url, l.replies)} else {}
  }

  ghost predicate Begins(s: System, s': System, id: nat, call: Call)
  {
    id !in s.calls && s' == s.(calls := s.calls[id := Started(call)])
  }

  ghost predicate Moves(hash: Digest, judge: Judge, s: System, s': System, id: nat, net: Network)
  {
    && id in s.calls && judge(net.replies)
    && var (l', cache') := Advance(hash, s.cache, s.calls[id], net);
       s' == System(cache', s.calls[id := l'], s.runs + RunsOf(s.calls[id]))
  }

  ghost predicate Next(hash: Digest, judge: Judge, s: System, s': System)
  {
    (exists id, call :: Begins(s, s', id, call)) || exists id, net :: Moves(hash, judge, s, s', id, net)
  }

  /** The snapshot was written by a completed run in which every check held. */
  ghost predicate Proven(hash: Digest, runs: set<Run>, modelId: Bytes, s: Snapshot)
  {
    s.Passed? ==>
      exists run :: run in runs && run.modelId == modelId && StemsFrom(hash, s, modelId, run.url, run.replies)
  }

  /** The call ran a full attestation itself, and every check held. */
  ghost predicate OwnRun(runs: set<Run>, l: Local)
    requires l.Returned?
  {
    && l.attested.Some? && AllChecks(l.attested.value)
    && exists run :: run in runs && run.modelId == l.call.modelId && run.replies == l.attested.value
  }

  /** Why a fast verification may return nil. */
  ghost predicate Justified(hash: Digest, runs: set<Run>, l: Local)
    requires l.Returned?
  {
    || (&& l.read.Some? && l.live.Some? && LiveMatches(hash, l.read.value, l.live.value)
        && Proven(hash, runs, l.call.modelId, l.read.value))
    || OwnRun(runs, l)
  }

  ghost predicate LocalSafe(hash: Digest, judge: Judge, runs: set<Run>, l: Local)
  {
    && (!l.Started? && l.read.Some? ==> Proven(hash, runs, l.call.modelId, l.read.value))
    && (l.Storing? ==> judge(l.replies))
    && (l.Returned? && l.ok ==> Justified(hash, runs, l))
  }

  ghost predicate Safe(hash: Digest, judge: Judge, s: System)
  {
    && (forall m :: m in s.cache ==> Proven(hash, s.runs, m, s.cache[m]))
    && (forall id :: id in s.calls ==> LocalSafe(hash, judge, s.runs, s.calls[id]))
    && (forall run :: run in s.runs ==> judge(run.replies))
  }

  lemma ProvenGrows(hash: Digest, runs: set<Run>, more: set<Run>, modelId: Bytes, s: Snapshot)
    requires runs <= more && Proven(hash, runs, modelId, s)
    ensures Proven(hash, more, modelId, s)
  {
  }

  lemma LocalSafeGrows(hash: Digest, judge: Judge, runs: set<Run>, more: set<Run>, l: Local)
    requires runs <= more && LocalSafe(hash, judge, runs, l)
    ensures LocalSafe(hash, judge, more, l)
  {
    if !l.Started? && l.read.Some? {
      ProvenGrows(hash, runs, more, l.call.modelId, l.read.value);
    }
  }

  lemma StoredProven(hash: Digest, runs: set<Run>, l: Local)
    requires l.Storing? && RunsOf(l) <= runs
    ensures Proven(hash, runs, l.call.modelId, Attest(hash, l.call.modelId, l.url, l.replies))
    ensures Attest(hash, l.call.modelId, l.url, l.replies).Passed? <==> AllChecks(l.replies)
  {
    AttestIffAllChecks(hash, l.call.modelId, l.url, l.replies);
    assert Run(l.call.modelId, l.url, l.replies) in runs;
  }

  /** A stored run lets its call return nil exactly when it passed. */
  lemma OwnRunSafe(hash: Digest, judge: Judge, runs: set<Run>, l: Local, passed: bool)
    requires l.Storing? && RunsOf(l) <= runs && LocalSafe(hash, judge, runs, l) && (passed ==> AllChecks(l.replies))
    ensures LocalSafe(hash, judge, runs, Returned(l.call, l.read, l.live, Some(l.replies), passed))
  {
    var l' := Returned(l.call, l.read, l.live, Some(l.replies), passed);
    assert Run(l.call.modelId, l.url, l.replies) in runs;
    if passed {
      assert OwnRun(runs, l');
    }
  }

  lemma StoringNext(hash: Digest, cache: Cache, l: Local, net: Network) returns (passed: bool)
    requires l.Storing?
    ensures Advance(hash, cache, l, net).0 == Returned(l.call, l.read, l.live, Some(l.replies), passed)
    ensures passed ==> AllChecks(l.replies)
  {
    passed := Attest(hash, l.call.modelId, l.url, l.replies).Passed?;
    AttestIffAllChecks(hash, l.call.modelId, l.url, l.replies);
  }

  lemma StoringSafe(hash: Digest, judge: Judge, cache: Cache, runs: set<Run>, l: Local, net: Network)
    requires l.Storing? && RunsOf(l) <= runs && LocalSafe(hash, judge, runs, l)
    ensures LocalSafe(hash, judge, runs, Advance(hash, cache, l, net).0)
  {
    var passed := StoringNext(hash, cache, l, net);
    OwnRunSafe(hash, judge, runs, l, passed);
  }

  lemma LoadedSafe(hash: Digest, judge: Judge, cache: Cache, runs: set<Run>, l: Local, net: Network)
    requires l.Loaded? && LocalSafe(hash, judge, runs, l)
    ensures LocalSafe(hash, judge, runs, Advance(hash, cache, l, net).0)
  {
    AcceptMeansMatch(hash, l.read, net.live);
  }

  lemma StartedSafe(hash: Digest, judge: Judge, cache: Cache, runs: set<Run>, l: Local, net: Network)
    requires l.Started? && forall m :: m in cache ==> Proven(hash, runs, m, cache[m])
    ensures LocalSafe(hash, judge, runs, Advance(hash, cache, l, net).0)
  {
  }

  lemma AttestingSafe(hash: Digest, judge: Judge, cache: Cache, runs: set<Run>, l: Local, net: Network)
    requires l.Attesting? && LocalSafe(hash, judge, runs, l) && judge(net.replies)
    ensures LocalSafe(hash, judge, runs, Advance(hash, cache, l, net).0)
  {
  }

  /** One step of one call keeps its own obligations. */
  lemma AdvanceSafe(hash: Digest, judge: Judge, cache: Cache, runs: set<Run>, l: Local, net: Network)
    requires LocalSafe(hash, judge, runs, l) && RunsOf(l) <= runs && judge(net.replies)
    requires forall m :: m in cache ==> Proven(hash, runs, m, cache[m])
    ensures LocalSafe(hash, judge, runs, Advance(hash, cache, l, net).0)
  {
    match l {
      case Started(_) => StartedSafe(hash, judge, cache, runs, l, net);
      case Loaded(_, _) => LoadedSafe(hash, judge, cache, runs, l, net);
      case Attesting(_, _, _, _) => AttestingSafe(hash, judge, cache, runs, l, net);
      case Storing(_, _, _, _, _) => StoringSafe(hash, judge, cache, runs, l, net);
      case Returned(_, _, _, _, _) =>
    }
  }

  lemma CacheSafe(hash: Digest, cache: Cache, runs: set<Run>, l: Local, net: Network)
    requires RunsOf(l) <= runs && forall m :: m in cache ==> Proven(hash, runs, m, cache[m])
    ensures var cache' := Advance(hash, cache, l, net).1;
            forall m :: m in cache' ==> Proven(hash, runs, m, cache'[m])
  {
    if l.Storing? {
      StoredProven(hash, runs, l);
    }
  }

  lemma NextSafe(hash: Digest, judge: Judge, s: System, s': System)
    requires Safe(hash, judge, s) && Next(hash, judge, s, s')
    ensures Safe(hash, judge, s')
  {
    if id, net :| Moves(hash, judge, s, s', id, net) {
      var l := s.calls[id];
      forall m | m in s.cache ensures Proven(hash, s'.runs, m, s.cache[m]) {
        ProvenGrows(hash, s.runs, s'.runs, m, s.cache[m]);
      }
      forall i | i in s.calls ensures LocalSafe(hash, judge, s'.runs, s.calls[i]) {
        LocalSafeGrows(hash, judge, s.runs, s'.runs, s.calls[i]);
      }
      AdvanceSafe(hash, judge, s.cache, s'.runs, l, net);
      CacheSafe(hash, s.cache, s'.runs, l, net);
    }
  }

  ghost predicate IsTrace(hash: Digest, judge: Judge, trace: seq<System>)
  {
    && trace != [] && trace[0] == System(map[], map[], {})
    && forall i :: 0 <= i < |trace| - 1 ==> Next(hash, judge, trace[i], trace[i + 1])
  }

  /** Over every interleaving of any number of calls: each passed snapshot stems from one completed run in
      which all checks held, and a call returns nil only with a live match of such a snapshot that it read
      itself, or after its own full attestation passed. */
  lemma {:induction false} CacheSafety(hash: Digest, judge: Judge, trace: seq<System>, i: nat)
    requires IsTrace(hash, judge, trace) && i < |trace|
    ensures Safe(hash, judge, trace[i])
  {
    if i > 0 {
      CacheSafety(hash, judge, trace, i - 1);
      assert Next(hash, judge, trace[i - 1], trace[i - 1 + 1]);
      NextSafe(hash, judge, trace[i - 1], trace[i]);
    }
  }

  /** The same for a pinned client: a peer it accepts presents a digest of a certificate that was live in
      a run whose report data binds one of the two digests. */
  predicate PeerAccepted(b: TlsBinding, cert: Bytes, spki: Option<Bytes>)
  {
    EqualFold(cert, b.certificate) || (spki.Some? && EqualFold(spki.value, b.spki))
  }

  lemma PinnedPeer(hash: Digest, judge: Judge, trace: seq<System>, i: nat, modelId: Bytes, cert: Bytes,
                   spki: Option<Bytes>)
    requires IsTrace(hash, judge, trace) && i < |trace|
    requires modelId in trace[i].cache && trace[i].cache[modelId].Passed?
    requires PeerAccepted(trace[i].cache[modelId].tls, cert, spki)
    ensures exists run :: && run in trace[i].runs && AllChecks(run.replies)
                          && PeerAccepted(run.replies.cpu.value.tls, cert, spki)
                          && BindsBoth(run.replies.cpu.value.tls, run.replies.portal.value.reportData,
                                       run.replies.gpuNonce.value)
  {
    CacheSafety(hash, judge, trace, i);
    var s := trace[i].cache[modelId];
    var run :| run in trace[i].runs && run.modelId == modelId && StemsFrom(hash, s, modelId, run.url, run.replies);
  }
}
