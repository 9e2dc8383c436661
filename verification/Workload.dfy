/** Verdicts shared by the TDX and the SEV workload verification. */
module Workload {
  import opened ByteStrings

  datatype WorkloadStatus = Authentic | AuthenticMismatch | NotAuthentic | RegistryNotAvailable

  datatype WorkloadResult = WorkloadResult(
    status: WorkloadStatus, templateName: Bytes, vmType: Bytes, artifactsVer: Bytes, env: Bytes)

  const NOT_AUTHENTIC: WorkloadResult := WorkloadResult(NotAuthentic, [], [], [], [])

  /** Both readings of the compose response: as served, and as extracted from an HTML page. */
  function ComposeCandidates(compose: Bytes, extracted: Bytes): (vs: seq<Bytes>)
    ensures vs != [] && compose in vs && extracted in vs
    ensures forall v :: v in vs ==> v == compose || v == extracted
  {
    if extracted != compose then [compose, extracted] else [compose]
  }
}
