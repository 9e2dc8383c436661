/** What a verified quote's report data ties together: the TLS certificate digest and the GPU nonce. */
module ReportData {
  import opened ByteStrings

  datatype TlsBinding = TlsBinding(spki: Bytes, certificate: Bytes)
  {
    predicate IsZero() { spki == [] && certificate == [] }
  }

  datatype BindingKind = Spki | Certificate

  const DIGEST_HEX: nat := 64

  /** Trimmed, without spaces, in lower case. */
  function Normal(s: Bytes): Bytes
  {
    Lower(DropSpaces(TrimSpace(s)))
  }

  function VerifyTLSBinding(binding: TlsBinding, reportData: Bytes): Option<BindingKind>
  {
    if binding.IsZero() then None
    else if reportData == [] then None
    else
      var r := Normal(reportData);
      if |r| < DIGEST_HEX then None
      else if r[..DIGEST_HEX] == Lower(binding.spki) then Some(Spki)
      else if r[..DIGEST_HEX] == Lower(binding.certificate) then Some(Certificate)
      else None
  }

  predicate VerifyCPUGPUBinding(cpuReportData: Bytes, gpuNonce: Bytes)
  {
    var cpu := Normal(cpuReportData);
    var gpu := Normal(gpuNonce);
    if |cpu| <= DIGEST_HEX then false
    else if gpu == [] then false
    else if |cpu[DIGEST_HEX..]| != |gpu| then false
    else cpu[DIGEST_HEX..] == gpu
  }

  /** The report data is exactly one of the two certificate digests followed by the whole GPU nonce. */
  ghost predicate BindsBoth(binding: TlsBinding, reportData: Bytes, gpuNonce: Bytes)
  {
    && Normal(gpuNonce) != []
    && exists d :: (d == Lower(binding.spki) || d == Lower(binding.certificate)) && |d| == DIGEST_HEX
                && Normal(reportData) == d + Normal(gpuNonce)
  }

  /** Both checks pass exactly on that layout: no prefix match, no spare bytes, no empty nonce. */
  lemma ChecksMeanLayout(binding: TlsBinding, reportData: Bytes, gpuNonce: Bytes)
    ensures VerifyTLSBinding(binding, reportData).Some? && VerifyCPUGPUBinding(reportData, gpuNonce)
       <==> BindsBoth(binding, reportData, gpuNonce)
  {
    var r, n := Normal(reportData), Normal(gpuNonce);
    if VerifyTLSBinding(binding, reportData).Some? && VerifyCPUGPUBinding(reportData, gpuNonce) {
      assert r == r[..DIGEST_HEX] + n;
    }
    if BindsBoth(binding, reportData, gpuNonce) {
      var d :| (d == Lower(binding.spki) || d == Lower(binding.certificate)) && |d| == DIGEST_HEX && r == d + n;
      assert r[..DIGEST_HEX] == d && r[DIGEST_HEX..] == n;
      assert |TrimSpace([])| == 0;
    }
  }

  /** The report data starts with this digest. */
  predicate Leads(digest: Bytes, reportData: Bytes)
  {
    |digest| == 64 && Lower(digest) <= Normal(reportData)
  }

  /** The connection is bound to the key when the report data starts with the key's digest, otherwise to the certificate
      when it starts with that one's, and else to nothing. */
  lemma KindMeans(binding: TlsBinding, reportData: Bytes)
    ensures VerifyTLSBinding(binding, reportData) == Some(Spki) <==> Leads(binding.spki, reportData)
    ensures VerifyTLSBinding(binding, reportData) == Some(Certificate) <==>
              Leads(binding.certificate, reportData) && !Leads(binding.spki, reportData)
  {
    assert |TrimSpace([])| == 0;
    var r := Normal(reportData);
    assert forall d :: |d| == 64 && |r| >= 64 ==> (d <= r <==> r[..64] == d);
  }

  // ---- golden registers ----

  datatype TeeType = Tdx | Sev | OtherTee

  datatype AttestationResult = AttestationResult(
    valid: bool, teeType: TeeType, rtmr3: Bytes, measurement: Bytes, reportData: Bytes)

  datatype Golden = Golden(rtmr3: Bytes, measurement: Bytes)

  /** The (golden, actual) pairs that are compared for a TEE type. */
  function RegisterPairs(result: AttestationResult, golden: Golden): seq<(Bytes, Bytes)>
  {
    match result.teeType
    case Tdx => [(golden.rtmr3, result.rtmr3)]
    case Sev => [(golden.measurement, result.measurement)]
    case OtherTee => []
  }

  /** The golden register of the quote's TEE type is unset or equals the quoted one up to letter case. */
  predicate RegistersMatch(result: AttestationResult, golden: Golden)
  {
    match result.teeType
    case Tdx => golden.rtmr3 == [] || EqualFold(golden.rtmr3, result.rtmr3)
    case Sev => golden.measurement == [] || EqualFold(golden.measurement, result.measurement)
    case OtherTee => true
  }

  /** The register of the quote's own TEE type: RTMR3 for TDX, the launch measurement for SEV, none for others. */
  function OwnRegister(tee: TeeType, rtmr3: Bytes, measurement: Bytes): Option<Bytes>
  {
    if tee == Tdx then Some(rtmr3) else if tee == Sev then Some(measurement) else None
  }

  /** The golden value of that register is not set, or is the quoted one up to letter case. */
  predicate OwnRegisterHolds(result: AttestationResult, golden: Golden)
  {
    var want := OwnRegister(result.teeType, golden.rtmr3, golden.measurement);
    var got := OwnRegister(result.teeType, result.rtmr3, result.measurement);
    want.None? || want.value == [] || (got.Some? && Lower(want.value) == Lower(got.value))
  }

  lemma RegistersMatchMeans(result: AttestationResult, golden: Golden)
    ensures RegistersMatch(result, golden) <==> OwnRegisterHolds(result, golden)
  {
  }

  method CompareRegisters(result: AttestationResult, golden: Golden) returns (ok: bool)
    ensures ok == RegistersMatch(result, golden)
  {
    var pairs := RegisterPairs(result, golden);
    var mismatches := 0;
    var i := 0;
    while i < |pairs|
      invariant 0 <= i <= |pairs|
      invariant 0 <= mismatches
      invariant mismatches == 0 <==>
        forall j :: 0 <= j < i ==> pairs[j].0 == [] || EqualFold(pairs[j].0, pairs[j].1)
    {
      var (g, a) := pairs[i];
      if g != [] {
        if a == [] {
          assert |Lower(a)| != |Lower(g)|;
          mismatches := mismatches + 1;
        } else if !EqualFold(g, a) {
          mismatches := mismatches + 1;
        }
      }
      i := i + 1;
    }
    assert pairs != [] ==> pairs[0] in pairs;
    ok := mismatches == 0;
  }
}
