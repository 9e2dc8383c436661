# Proofs about the Morpheus Lumerin node

A Dafny model of the parts of the node where a mistake costs money or trust, with proofs of what they keep.
`dafny verify dfyconfig.toml` checks everything.

- **Launch measurement** (`SevLayout`, `SevDigest`, `SevPages`, `SevBinding`, `SevEntries`, `SevTwin`). The SEV-SNP
  launch digest is a chain of SHA-384 page updates (PAGE_INFO, Table 67, section 8.17.2 of the AMD SEV-SNP firmware ABI
  specification; GUID byte order of RFC 4122). The Go loops are one fold over a flat list of page records; equal digests
  mean equal vCPU counts, command lines and compose files; the Python tool agrees exactly where stated. `SevPages`
  describes every hashed page byte by byte and gives each measurement from that of a smaller entry.
- **Workload verdicts** (`SevSearch`, `SevWorkload`, `SevReport`, `Semver`, `Rtmr`, `TdxWorkload`, `TdxReport`,
  `WorkloadDispatch`). The staged registry searches give the verdict of the flat ones, the RTMR replay binds its log,
  and two compose texts accepted for one quote share a reading or a hash collision is at hand; for SEV the registry
  entries must show the compose hash. Both verdicts are also stated over the fields of a laid-out report or quote.
- **Attestation caches** (`ReportData`, `BackendVerifier`, `ProviderVerifier`, `AttestedWorkload`). One call at a time
  as classes, and all interleavings of calls as state machines whose steps are the critical sections and network
  replies; a passed snapshot is traced back to a registered image and the compose text of its run.
- **Opening a session** (`Bids`, `BidRating`, `HealthPolicy`, `Stake`, `TxEscalator`, `EscalationRounds`, `ChainOpen`,
  `OpenProgress`, `SessionOpening`, `FailoverOrder`, `OpenByModel`). Stake arithmetic, allowance, ranking, filters,
  failover loop and gas escalation for all replies of the outside world. The escalation may hand over many copies of a
  transaction and the chain may execute several, early, late or unseen: at most one session is opened all the same, and
  it is stated exactly when a failure is reported although one was. What is attempted, when a failure passes on and when
  an open succeeds is said over the replies alone.
- **Recovering sessions** (`Pagination`, `Rehydration`). What the early termination of the scan can lose, exactly.
- **Shared structures** (`ChatStore`, `ChatFields`, `ChatTitles`, `ChatStorages`, `LogBuffer`, `BoundStackMaps`,
  `FanIn`). The chat store as a class and as interleaved critical sections, with the exact condition under which a title
  update acts as one operation; the log buffer and its reader, the bounded map, the channel fan-in.
- **Diamond cut** (`CutPlan`). The planner of the day-lock upgrade and what its three cuts do to the selector table.

Hash functions are arbitrary functions of the right output length. Nothing assumes that they are injective: a binding
result says that two inputs are equal or that two different inputs *among those the two runs hashed* have one hash.
`ByteStrings`, `ByteWindows` and `Hashing` hold what the modules share.

Where the code and its comments disagree the code is followed: `tryOpenSession` does not read its failover flag, so
the loop passes on to the next provider either way; a missing provider record or an unpriceable bid ends the loop
although nothing has reached the chain; the Remove cut names the old facet, which is what the diamond library in use
expects and not what EIP-2535 prescribes.

## Model

| member | source | states |
|---|---|---|
| SevLayout.GctxUpdate | proxy-router/internal/attestation/sev_gctx.go:80-90 | the in-place fill of the 112-byte buffer hashes exactly the fields of PAGE_INFO, with short digests zero-padded and long ones cut |
| SevLayout.PageInfoInjective | proxy-router/internal/attestation/sev_gctx.go:80-90 | PAGE_INFO determines running digest, contents, page type and guest address |
| SevLayout.UuidToLEGroups | proxy-router/internal/attestation/sev_gctx.go:132-145 | groups of four, two and two bytes are reversed each and the other eight stay, so twice gives the GUID back |
| SevLayout.SevHashTableEntry | proxy-router/internal/attestation/sev_gctx.go:155-161 | a 50-byte entry is GUID, length and the hash cut or padded to 32 bytes |
| SevLayout.BuildHashTable | proxy-router/internal/attestation/sev_gctx.go:184-190 | the table is the header and the command line, initrd and kernel entries one after another |
| SevLayout.BuildHashesPage | proxy-router/internal/attestation/sev_gctx.go:164-199 | the page holds as much of the 168-byte table as fits behind the offset, zeros elsewhere; the 8 padding bytes are invisible |
| SevLayout.HashesPageBindsCmdline | proxy-router/internal/attestation/sev_gctx.go:164-199 | with offset + 68 inside the page, equal pages carry equal command-line hashes |
| SevLayout.HashesPageShows | proxy-router/internal/attestation/sev_gctx.go:184-199 | for every offset two pages that differ in the command line only are equal exactly when the part of its hash inside the page is |
| SevLayout.HashesPageOffset | proxy-router/internal/attestation/sev_gctx.go:192-199 | the page shows where its table starts |
| SevLayout.VmcbSeg | proxy-router/internal/attestation/sev_gctx.go:205-210 | one segment is selector, attributes, limit and base in 16 bytes |
| SevLayout.BuildVmsaPage | proxy-router/internal/attestation/sev_gctx.go:202-241 | the page filled at absolute offsets is the run of fields and gaps of the reference layout |
| SevLayout.VmsaPageInjective | proxy-router/internal/attestation/sev_gctx.go:202-241 | different reset vectors give different VMSA pages |
| SevDigest.GctxUpdateNormalPages | proxy-router/internal/attestation/sev_gctx.go:97-107 | the page loop, last page short, is the fold of PAGE_INFO over the flat list of page records |
| SevDigest.GctxUpdateZeroPages | proxy-router/internal/attestation/sev_gctx.go:113-119 | the zero-page loop is the same fold, with uint64 addition wrapping and negative sizes giving no page |
| SevDigest.MeasureSection | proxy-router/internal/attestation/sev_gctx.go:251-265 | every section type adds its pages; unknown types add none |
| SevDigest.MeasureVcpus | proxy-router/internal/attestation/sev_gctx.go:267-275 | one VMSA update a vCPU, the boot processor with its own reset vector; SevPages.MeasuresVcpu says what such an update hashes |
| SevDigest.CalcSevMeasurement | proxy-router/internal/attestation/sev_gctx.go:245-278 | the whole computation equals one fold over sections and vCPUs, in hexadecimal; SevPages says what each update hashes |
| SevDigest.FoldConcat | proxy-router/internal/attestation/sev_gctx.go:245-278 | folding two page lists one after the other is folding their concatenation |
| SevDigest.PageCountBound | proxy-router/internal/attestation/sev_gctx.go:97-107 | page k is measured exactly when it starts inside the region |
| SevDigest.RecordsWellFormed | proxy-router/internal/attestation/sev_gctx.go:245-278 | only normal and VMSA pages have contents, every address fits 64 bits, and no section page has the VMSA type |
| SevBinding.StepBinds | proxy-router/internal/attestation/sev_gctx.go:80-90 | equal page updates come from the same record and running digest or exhibit a SHA-384 collision |
| SevBinding.FoldBinds | proxy-router/internal/attestation/sev_gctx.go:80-90 | equal digests unwind: the last k records of both runs agree, or two inputs these runs hashed collide |
| SevBinding.VcpuCountBound | proxy-router/internal/attestation/sev_gctx.go:245-278 | two vCPU counts of at least one with the same measurement are equal or exhibit a collision, given distinct reset vectors or any page measured before the vCPUs |
| SevBinding.MeasuresAPageIff | proxy-router/internal/attestation/sev_gctx.go:251-265 | a page is measured before the vCPUs exactly for a secrets, CPUID or kernel-hashes section or a zero region of positive size |
| SevBinding.RepeatsOnlyByReturn | proxy-router/internal/attestation/sev_gctx.go:267-275 | without such a page the measurements of two counts are equal only with a collision or when the digest chain comes back to the OVMF digest |
| SevBinding.MeasurementBinds | proxy-router/internal/attestation/sev_gctx.go:245-278 | for a fixed entry with a kernel-hashes section the measurement binds vCPU count and command line together |
| SevBinding.CmdlineShown | proxy-router/internal/attestation/sev_gctx.go:163-278 | for every table offset of an entry with a kernel-hashes section, two runs measure alike exactly when they agree in the vCPU count and in the bytes of the command-line hash that lie inside the page, up to a collision |
| SevBinding.BuildCmdlineInjective | proxy-router/internal/attestation/sev_workload.go:63-69 | the command line determines a compose hash of known length |
| SevBinding.ComposeBound | proxy-router/internal/attestation/sev_workload.go:44-79 | equal measurements of one entry mean the same vCPU count and the same compose text, or a SHA-256 or SHA-384 collision between inputs of the two runs |
| SevBinding.CmdlineUnmeasured | proxy-router/internal/attestation/sev_gctx.go:163-199 | without a kernel-hashes section, or with the table too close to the end of its page, the measurement does not depend on the command line |
| SevPages.VmsaBytes | proxy-router/internal/attestation/sev_gctx.go:202-241 | every window of the measured VMSA page, by absolute offset, holds the number it should, RDX the signature of family 0x17, model 1, stepping 2, and all other bytes are zero |
| SevPages.TableBytes | proxy-router/internal/attestation/sev_gctx.go:155-190 | header GUID, length 168 and the three entries with their GUIDs, lengths and hashes, read as numbers at their offsets |
| SevPages.HashesPageBytes | proxy-router/internal/attestation/sev_gctx.go:163-199 | the page of an entry shows that table from the low 12 bits of the table address on, with the hash of the NUL-terminated command line, and zeros elsewhere |
| SevPages.MeasuresNothing | proxy-router/internal/attestation/sev_gctx.go:245-250 | without sections and vCPUs the measurement is the OVMF hash |
| SevPages.MeasuresVcpu | proxy-router/internal/attestation/sev_gctx.go:267-278 | one more vCPU is one more PAGE_INFO of type 2 at 0xFFFFFFFFF000 over a VMSA page that starts at 0xfffffff0 for the first and at the entry vector for the others |
| SevPages.MeasuresOneVcpu | proxy-router/internal/attestation/sev_gctx.go:245-278 | an entry without sections and one vCPU: the measurement is the hexadecimal SHA-384 of one PAGE_INFO over the described VMSA page |
| SevPages.MeasuresMarker | proxy-router/internal/attestation/sev_gctx.go:108-131 | a secrets section adds one update of type 5, a CPUID section one of type 6, both with 48 zero bytes |
| SevPages.MeasuresHashes | proxy-router/internal/attestation/sev_gctx.go:251-265 | a kernel-hashes section adds one update of type 1 with the SHA-384 of the described page |
| SevPages.MeasuresZeros | proxy-router/internal/attestation/sev_gctx.go:109-119 | a zero region adds one update of type 3 for each page it reaches into, at wrapping addresses |
| SevPages.MeasuresNone | proxy-router/internal/attestation/sev_gctx.go:251-265 | sections of other kinds and zero regions without a size change nothing |
| SevEntries.SamePages | proxy-router/internal/attestation/sev_gctx.go:245-278 | equal measurements of two entries with kernel-hashes sections, whatever else differs, mean the same kernel-hashes page or a collision |
| SevEntries.ComposeBoundAcross | proxy-router/internal/attestation/sev_workload.go:44-79 | across entries, vCPU counts and OVMF images: equal measurements mean the same compose text and root file system text, or a collision, when these texts hold no space or have one length |
| SevTwin.PyGctxUpdate | proxy-router/scripts/compute-sev-measurement.py:106-120 | the Python update is the Go update or an exception for a digest of another size or an address past 2^64 |
| SevTwin.PyBuildHashesPage | proxy-router/scripts/compute-sev-measurement.py:179-210 | the table page; past offset 3920 the bytearray grows beyond a page |
| SevTwin.PyBuildVmsaPage | proxy-router/scripts/compute-sev-measurement.py:224-265 | the Python page equals the same reference VMSA layout |
| SevTwin.PyCalcSevMeasurement | proxy-router/scripts/compute-sev-measurement.py:272-311 | the Python computation is the partial fold over its page records, an exception when any step raises |
| SevTwin.PyFoldMeaning | proxy-router/scripts/compute-sev-measurement.py:106-151 | the fold raises exactly when an address passes 2^64, and otherwise is the Go fold |
| SevTwin.TwinAgrees | proxy-router/scripts/compute-sev-measurement.py:272-311 | for valid hexadecimal and table offset up to 3920: the tool raises exactly for wrong hash sizes or a passing address, and otherwise returns the Go measurement, for every vCPU count and command line |
| SevTwin.TwinDiverges | proxy-router/scripts/compute-sev-measurement.py:196-210 | past offset 3920, for an entry that measures the page, the tool returns the Go measurement only with a SHA-384 collision |
| SevTwin.TwinAgreesWithoutHashes | proxy-router/scripts/compute-sev-measurement.py:272-311 | without a kernel-hashes section the tools agree for every offset |
| SevTwin.TwinExact | proxy-router/scripts/compute-sev-measurement.py:272-311 | for every entry with valid hexadecimal, every vCPU count and command line: when the tool raises, when it agrees, and that elsewhere it agrees only with a collision; a grown hashes page also raises for its second address |
| SevSearch.VcpuCountInjective | proxy-router/internal/attestation/sev_gctx.go:20-26 | different templates have different vCPU counts |
| SevSearch.FamilyRoundTrip | proxy-router/internal/attestation/sev_gctx.go:59-76 | the parser accepts exactly the padded texts of a known template and a VM type without a dash, and returns their parts |
| SevSearch.FamilyParses | proxy-router/internal/attestation/sev_gctx.go:59-76 | a family text of at most 16 bytes parses back from its form padded with NUL or # |
| SevSearch.TryEntry | proxy-router/internal/attestation/sev_workload.go:71-79 | true exactly when some compose hash reproduces the quoted measurement |
| SevSearch.BruteForce | proxy-router/internal/attestation/sev_workload.go:81-101 | the first entry some template count reproduces, for every map iteration order; otherwise not authentic |
| SevSearch.BruteForceUnique | proxy-router/internal/attestation/sev_workload.go:81-101 | when no entry matches under two templates, any two runs give the same result |
| SevSearch.FindByVMType | proxy-router/internal/attestation/sev_workload.go:103-107 | the entries of the VM type, in registry order |
| SevSearch.SearchFamily | proxy-router/internal/attestation/sev_workload.go:103-160 | pinned versions first, then the others, then mismatch when the version exists and not authentic otherwise |
| SevSearch.BruteForceIffReproduced | proxy-router/internal/attestation/sev_workload.go:81-101 | authentic exactly when some entry, template count and compose hash reproduce the quote |
| SevSearch.FamilyIffReproduced | proxy-router/internal/attestation/sev_workload.go:103-160 | the staged search is authentic exactly when the flat one over the VM type is, and a mismatch exactly when it is not but the quoted version is registered |
| SevWorkload.VerifySevWorkload | proxy-router/internal/attestation/sev_workload.go:17-160 | every quote, short and undecodable ones included, gets the verdict of the specification; SevReport.FamilyVerdict and BruteVerdict say it over the fields of the report |
| SevWorkload.AuthenticIffReproduced | proxy-router/internal/attestation/sev_workload.go:71-159 | authentic if and only if some registered entry (of the family, or any with any template count) and some compose reading reproduce the quote |
| SevWorkload.BruteForceDeterministic | proxy-router/internal/attestation/sev_workload.go:81-101 | for any entries the result, template name included, does not depend on map order, unless the search exhibits a SHA-384 collision or a digest chain that comes back to its OVMF digest |
| SevWorkload.AuthenticMeasures | proxy-router/internal/attestation/sev_workload.go:71-145 | an authentic verdict names a registered entry, a count and a reading whose measurement is the quoted one |
| SevWorkload.AuthenticBindsCompose | proxy-router/internal/attestation/sev_workload.go:44-145 | two authentic verdicts on one quote, from any two registries, have a reading in common, or exhibit a collision, or two incomparable entries measure to the quote: one hides the command line, or a root file system text with a space stands against one of another length |
| SevWorkload.ShownBindsCompose | proxy-router/internal/attestation/sev_workload.go:44-145 | when all entries show the compose hash and no root file system text holds a space, the third case is gone |
| SevReport.LineText | proxy-router/internal/attestation/sev_workload.go:63-69 | the command line that is tried, as a text, with and without the extra part |
| SevReport.TemplateCounts | proxy-router/internal/attestation/sev_gctx.go:20-26 | the five templates and their vCPU counts, and no other |
| SevReport.FamilyVerdict | proxy-router/internal/attestation/sev_workload.go:17-160 | a laid-out report that names a family: authentic exactly when an entry of the VM type yields the measurement field with the count of the template, mismatch exactly when none does but the version in the image field is registered; which template, VM type and version are reported |
| SevReport.BruteVerdict | proxy-router/internal/attestation/sev_workload.go:17-101 | a laid-out report that names no family: authentic exactly when an entry yields the measurement field with some template, and then reported for the first such entry |
| SevReport.NoReport | proxy-router/internal/attestation/sev_workload.go:22-37 | a quote that does not decode or ends inside the measurement field is not authentic |
| Workload.ComposeCandidates | proxy-router/internal/attestation/workload_verifier.go:34-40 | both readings of the compose response are tried and nothing else |
| Semver.AtoiDigits | proxy-router/internal/attestation/artifacts_registry.go:221-241 | a part of digits counts as its decimal number, or as the largest int when that is smaller |
| Semver.AtoiJunk | proxy-router/internal/attestation/artifacts_registry.go:221-241 | a part without a sign that has anything behind its digits counts as 0, unless these already exceed a uint64 |
| Semver.AtoiPlus | proxy-router/internal/attestation/artifacts_registry.go:221-241 | a leading plus changes nothing, and a second sign makes the part 0 |
| Semver.ParseRoundTrip | proxy-router/internal/attestation/artifacts_registry.go:221-241 | parsing a written version, with or without the v, gives back its numbers and pre-release |
| Semver.RenderedOrder | proxy-router/internal/attestation/artifacts_registry.go:188-219 | written versions compare by their numbers, and a release comes after each of its pre-releases |
| Semver.CompareAntisymmetric | proxy-router/internal/attestation/artifacts_registry.go:188-219 | swapping the arguments negates the order |
| Semver.CompareTransitive | proxy-router/internal/attestation/artifacts_registry.go:188-219 | the order is transitive |
| Semver.CompareSemverPreorder | proxy-router/internal/attestation/artifacts_registry.go:188-219 | on every pair and triple of version strings the comparison is a total preorder; no part can overflow the comparison |
| Semver.PickNewestVersion | proxy-router/internal/attestation/artifacts_registry.go:171-184 | the first of the maximal versions, none for an empty list |
| Semver.NewestIsRelease | proxy-router/internal/attestation/artifacts_registry.go:171-219 | the newest version is a release as soon as a release has its numbers, and otherwise its pre-release is the largest of them |
| Semver.FirstMaximumUnique | proxy-router/internal/attestation/artifacts_registry.go:171-184 | there is only one first maximum, so the pick is determined |
| Rtmr.ExtendInPlace | proxy-router/internal/attestation/rtmr.go:31-42 | one extension hashes register and padded entry laid side by side |
| Rtmr.ReplayRtmr | proxy-router/internal/attestation/rtmr.go:28-45 | the loop is the hash chain over the decoded entries |
| Rtmr.CalculateRTMR3 | proxy-router/internal/attestation/rtmr.go:12-19 | chain of the compose hash and the root file system digest |
| Rtmr.ChainBinds | proxy-router/internal/attestation/rtmr.go:28-45 | equal chains of equally many contents have equal contents or exhibit a SHA-384 collision |
| Rtmr.ReplayBinds | proxy-router/internal/attestation/rtmr.go:28-45 | equal registers from equally long lists of 32-byte entries mean equal entries or a collision |
| Rtmr.Rtmr3Binds | proxy-router/internal/attestation/rtmr.go:12-19 | equal RTMR3 values mean the same compose text and root file system digest, or a collision |
| Rtmr.PyReplayRtmr | proxy-router/scripts/compute-rtmr3.py:38-54 | the Python loop is the chain over its decoded entries, an exception for invalid text |
| Rtmr.ReplayTwin | proxy-router/scripts/compute-rtmr3.py:38-54 | on valid hexadecimal the tool never raises, agrees when every entry fits 48 bytes, and otherwise agrees only with a SHA-384 collision |
| TdxWorkload.ParsesIffLaidOut | proxy-router/internal/attestation/tdx_quote.go:27-65 | a quote text parses exactly when it is the hexadecimal of some laid-out version 4 TDX quote, in either case, with spaces around it |
| TdxWorkload.QuoteRoundTrip | proxy-router/internal/attestation/tdx_quote.go:27-55 | parsing the hexadecimal of a laid-out quote gives back exactly its six registers |
| TdxWorkload.EncodedIsNormal | proxy-router/internal/attestation/artifacts_registry.go:146-151 | encoded registers are already in normal form |
| TdxWorkload.FindMatchingArtifacts | proxy-router/internal/attestation/artifacts_registry.go:153-169 | all entries with the four platform registers, once these are normalised, in registry order |
| TdxWorkload.VerifyTdxWorkload | proxy-router/internal/attestation/workload_verifier.go:42-94 | every quote text gets the verdict of the specification: first replaying candidate, or mismatch with the newest version |
| TdxWorkload.VerdictTrichotomy | proxy-router/internal/attestation/workload_verifier.go:42-94 | exactly one verdict, decided by existence of a platform match and of a replay among the matches |
| TdxWorkload.ReplayBindsCompose | proxy-router/internal/attestation/rtmr.go:12-45 | two compose texts that replay to one RTMR3, with whatever registry entries, are equal or collide |
| TdxWorkload.AuthenticBindsCompose | proxy-router/internal/attestation/workload_verifier.go:42-94 | two authentic verdicts on one quote, from any two registries, have a reading in common or exhibit a collision |
| TdxReport.ReplayIff | proxy-router/internal/attestation/rtmr.go:12-45 | a compose text and root file system digest replay to a register exactly when two SHA-384 extensions of 48 zero bytes, spelled out, give it |
| TdxReport.QuoteVerdict | proxy-router/internal/attestation/workload_verifier.go:42-94 | a laid-out quote: not authentic when no entry has its four platform registers, authentic for the first that also extends to its RTMR3, otherwise a mismatch with the first of the newest versions |
| TdxReport.TdxByHeader | proxy-router/internal/attestation/tdx_quote.go:27-65 | a quote text counts as TDX exactly when it is hexadecimal of bytes that start with version 4 and have TEE type 0x81 at offset 4 |
| WorkloadDispatch.VerifyWorkload | proxy-router/internal/attestation/workload_verifier.go:96-113 | the platform of the quote picks the registry; a missing one is reported |
| WorkloadDispatch.NotAvailableIff | proxy-router/internal/attestation/workload_verifier.go:96-113 | the registry is reported missing exactly when the one this platform needs is |
| ReportData.ChecksMeanLayout | proxy-router/internal/attestation/backend_verifier.go:459-491 | the TLS and the CPU-GPU check both pass exactly when the report data is one certificate digest followed by the whole, non-empty GPU nonce |
| ReportData.CompareRegisters | proxy-router/internal/attestation/verifier.go:455-506 | passes exactly when the golden register of the TEE type is unset or equal up to case |
| ReportData.KindMeans | proxy-router/internal/attestation/verifier.go:335-369 | the connection is bound to the key exactly when the report data starts with its digest, and to the certificate exactly when it starts with that digest only |
| ReportData.RegistersMatchMeans | proxy-router/internal/attestation/verifier.go:455-506 | only the register of the quote's own TEE type counts, unset or equal up to case |
| BackendVerifier.AttestIffAllChecks | proxy-router/internal/attestation/backend_verifier.go:157-309 | a run passes exactly when every check held, and the snapshot records that run |
| BackendVerifier.AttestReason | proxy-router/internal/attestation/backend_verifier.go:157-309 | a run that does not pass records the reason of the first check that fails, in the order they are made |
| BackendVerifier.NonceChain | proxy-router/internal/attestation/backend_verifier.go:233-261 | the nonce NVIDIA signed over is the tail of the CPU report data behind the digest |
| BackendVerifier.Verifier.StoreFailure | proxy-router/internal/attestation/backend_verifier.go:544-555 | replaces the snapshot of this model only |
| BackendVerifier.Verifier.AttestBackend | proxy-router/internal/attestation/backend_verifier.go:157-309 | every outcome writes exactly one snapshot, and nil is returned exactly when all checks held, for any workload verdict among the replies |
| AttestedWorkload.AttestBackend | proxy-router/internal/attestation/backend_verifier.go:195-214 | the same with the workload verdict computed from the quote, the compose text and the loaded registries |
| AttestedWorkload.JudgedReproduced | proxy-router/internal/attestation/backend_verifier.go:201-214 | an authentic verdict means a registered image that reproduces the quote with the compose text |
| AttestedWorkload.PassedWorkload | proxy-router/internal/attestation/backend_verifier.go:157-309 | over all interleavings a passed snapshot stems from a run in which all checks held and a registered image with that run's compose text reproduces its quote |
| AttestedWorkload.SameQuoteSameCompose | proxy-router/internal/attestation/backend_verifier.go:195-214 | two passed runs on one TDX quote had a reading in common or exhibit a collision |
| AttestedWorkload.SameSevQuoteSameCompose | proxy-router/internal/attestation/backend_verifier.go:195-214 | the same for one SEV quote, from registries whose entries show the compose hash |
| BackendVerifier.Verifier.FastVerifyBackend | proxy-router/internal/attestation/backend_verifier.go:340-381 | result and new cache for every cached state, live reply and re-attestation |
| BackendVerifier.Verifier.ReattestBackend | proxy-router/internal/attestation/backend_verifier.go:316-334 | re-attests at the cached or resolved URL, or leaves the cache alone |
| BackendVerifier.Verifier.PinnedBinding | proxy-router/internal/attestation/backend_verifier.go:418-427 | a binding is handed out exactly for a passed snapshot |
| BackendVerifier.DecisionIs | proxy-router/internal/attestation/backend_verifier.go:340-381 | from the snapshot and the live quote alone: refused without re-attesting exactly without a snapshot, or with a passed one and no live quote, or with an equal quote hash behind another certificate without an equal, non-empty key digest; accepted exactly with an equal quote hash and an equal certificate or key; re-attested otherwise |
| BackendVerifier.AttestWrites | proxy-router/internal/attestation/backend_verifier.go:157-309 | a run writes its own snapshot and no other model's |
| BackendVerifier.AloneFast | proxy-router/internal/attestation/backend_verifier.go:340-381 | the state machine of the interleavings, run alone, ends a fast verification as the class does |
| BackendVerifier.AloneAttest | proxy-router/internal/attestation/backend_verifier.go:157-309 | and an attestation |
| BackendVerifier.AloneReattest | proxy-router/internal/attestation/backend_verifier.go:316-334 | and a re-attestation |
| BackendVerifier.CacheSafety | proxy-router/internal/attestation/backend_verifier.go:157-381 | over all interleavings each passed snapshot stems from one run in which all checks held, and a call returns nil only with a live match of a snapshot it read or after its own full attestation, which is on record |
| BackendVerifier.PinnedPeer | proxy-router/internal/attestation/backend_verifier.go:418-454 | a peer a pinned client accepts has a digest that was live in such a run |
| ProviderVerifier.QuoteVerifier.VerifyProvider | proxy-router/internal/attestation/verifier.go:264-323 | caches the quote exactly when every check held |
| ProviderVerifier.QuoteVerifier.VerifyProviderQuick | proxy-router/internal/attestation/verifier.go:375-429 | result and cache for TEE and other sessions, cache hits, misses and rotated certificates |
| ProviderVerifier.QuoteVerifier.FullVerifyWithPing | proxy-router/internal/attestation/verifier.go:433-451 | needs a reported version and all checks |
| ProviderVerifier.QuickIs | proxy-router/internal/attestation/verifier.go:375-429 | from the cached entry and the live quote alone: refused, accepted or verified in full, each exactly when |
| ProviderVerifier.FullIs | proxy-router/internal/attestation/verifier.go:264-323 | a full verification returns nil and caches the live quote exactly when every check held |
| ProviderVerifier.AloneQuick | proxy-router/internal/attestation/verifier.go:375-429 | the state machine of the interleavings, run alone, ends a quick verification as the class does |
| ProviderVerifier.AloneFull | proxy-router/internal/attestation/verifier.go:433-451 | and a full one |
| ProviderVerifier.QuickCheckSafety | proxy-router/internal/attestation/verifier.go:264-451 | the consumer cache keeps the same rule over all interleavings |
| Stake.StakeIsFloor | proxy-router/internal/blockchainapi/service.go:1547-1563 | stake * budget <= supply * price * duration < (stake + 1) * budget, monotone in price and duration |
| Stake.AmountIff | proxy-router/internal/blockchainapi/service.go:1547-1563 | an amount is computed exactly when the price is there and, unless paid directly, supply and a budget other than zero |
| Stake.DirectAddsUp | proxy-router/internal/blockchainapi/service.go:1547-1563 | a direct payment is the price for one second and adds up over durations |
| Stake.SplitLoss | proxy-router/internal/blockchainapi/service.go:1547-1563 | splitting a duration into k blocks loses at most k - 1 units and gains none |
| Stake.AllowanceCovers | proxy-router/internal/blockchainapi/service.go:403-447 | the allowance covers the stake afterwards except exactly when adding would overflow while it does not cover yet; never for stakes up to 2^255, and it never leaves uint256 |
| Stake.AllowanceShort | proxy-router/internal/blockchainapi/service.go:409-420 | one above 2^255 the step can leave the allowance short |
| TxEscalator.SendWithEscalation | proxy-router/internal/lib/tx_escalator.go:145-286 | outcome and number of copies handed over for all replies of the node and whatever the chain executes; EscalationRounds says which round ends the call and how |
| TxEscalator.CheckSubmittedTxs | proxy-router/internal/lib/tx_escalator.go:278-286 | the first submitted copy with a visible receipt |
| TxEscalator.EscalatedSound | proxy-router/internal/lib/tx_escalator.go:145-286 | at most twenty copies are handed over, and a reported receipt is the true one of a copy of this call |
| TxEscalator.ReceiptAt | proxy-router/internal/lib/tx_escalator.go:278-286 | a copy has at most one execution, and its receipt is that of it |
| EscalationRounds.MinedInTime | proxy-router/internal/lib/tx_escalator.go:164-242 | once the call got past the earlier rounds, a copy that is accepted, waited for and executed ends it with its own receipt, and no further copy is handed over |
| EscalationRounds.MinedBefore | proxy-router/internal/lib/tx_escalator.go:190-256 | otherwise the check after a wait or a nonce conflict ends it with the first accepted copy whose receipt it sees |
| EscalationRounds.MinedAtLast | proxy-router/internal/lib/tx_escalator.go:262-266 | after five attempts the last check reports the first receipt it sees |
| EscalationRounds.AttemptsUsedUp | proxy-router/internal/lib/tx_escalator.go:262-273 | and a failure when it sees none |
| EscalationRounds.NotPrepared | proxy-router/internal/lib/tx_escalator.go:164-187 | a nonce, price limit or build error ends the call with that error |
| EscalationRounds.Refused | proxy-router/internal/lib/tx_escalator.go:189-219 | a rejection ends the call with its error when it is neither one of three nonce conflicts since the last accepted copy nor underpriced before the fifth attempt |
| EscalationRounds.FailedMeans | proxy-router/internal/lib/tx_escalator.go:145-274 | a call that fails missed no receipt: no accepted copy was seen while waited for, and no check made had one to see |
| ChainOpen.OneSession | smart-contracts/contracts/diamond/facets/SessionRouter.sol:83-145 | one approval opens one session at most, exactly when some executed copy passes the other checks |
| ChainOpen.Submit | proxy-router/internal/blockchainapi/service.go:449-486 | at most three submissions, repeated only after an error that speaks of a revert |
| ChainOpen.OpenSession | proxy-router/internal/blockchainapi/service.go:381-536 | result and copies handed over for all replies, from the allowance to the saved session; OpenProgress says when it succeeds |
| ChainOpen.AtMostOneSession | proxy-router/internal/blockchainapi/service.go:381-536 | however many of up to sixty copies the chain executes, at most one session is opened, exactly when one of them passes |
| ChainOpen.ReportExact | proxy-router/internal/blockchainapi/service.go:449-536 | success is reported if and only if a session was opened, the receipt that came back is that of the copy which opened it, and the later steps succeed |
| ChainOpen.SingleCopy | proxy-router/internal/blockchainapi/service.go:449-536 | with a single executed copy and a receipt, success is reported exactly when a session was opened |
| ChainOpen.SecondReceipt | proxy-router/internal/lib/tx_escalator.go:169-260 | two copies are executed, the first opens the session, and the receipt of the second makes the node report a failure |
| ChainOpen.RevertAfterLanding | proxy-router/internal/blockchainapi/service.go:449-490 | the first copy opens the session, building the next ones reverts, and the node submits again and reports a revert |
| ChainOpen.SubmittedCovered | proxy-router/internal/blockchainapi/service.go:403-474 | whenever the open transaction is submitted for a stake up to 2^255, the allowance on the chain covers it, however many increases were executed |
| OpenProgress.AllowanceDecides | proxy-router/internal/blockchainapi/service.go:381-447 | the open is submitted exactly when account and allowance are there and either three stakes are covered, or one more would leave uint256, or the increase is reported as mined and successful |
| OpenProgress.ApprovalGoesThrough | proxy-router/internal/blockchainapi/service.go:403-447 | an increase whose copy is executed, passes and is seen in time lets the open be submitted |
| OpenProgress.SubmissionDecides | proxy-router/internal/blockchainapi/service.go:449-486 | the first submission that does not end with a revert error decides, and there are three at most |
| OpenProgress.SeenOpenSucceeds | proxy-router/internal/blockchainapi/service.go:449-536 | an open whose copy is executed, passes first and is seen mined opens the one session, hands over no further copy and succeeds exactly when the later steps do |
| OpenProgress.SeenRevertFails | proxy-router/internal/blockchainapi/service.go:449-536 | a copy seen mined that did not pass, or came after one that did, makes the open fail |
| OpenProgress.OrdinaryOpen | proxy-router/internal/blockchainapi/service.go:381-536 | the ordinary run: allowance for three, first copy accepted, executed first, passing and seen: success, one session, one copy |
| HealthPolicy.ClassifyModelHealth | proxy-router/internal/blockchainapi/service.go:1688-1704 | the class of the first report on the model, unknown without one |
| HealthPolicy.ApplyHealthPolicy | proxy-router/internal/blockchainapi/service.go:1730-1756 | keep flags per candidate and whether preferred fell back |
| HealthPolicy.PolicyLattice | proxy-router/internal/blockchainapi/service.go:1730-1756 | strict keeps a subset of preferred, preferred of permissive, and preferred keeps nothing exactly when permissive keeps nothing |
| FailoverOrder.ClassMeans | proxy-router/internal/blockchainapi/service.go:1688-1704 | which report of a provider decides and which status text is which class |
| SessionOpening.PolicyRespected | proxy-router/internal/blockchainapi/service.go:1444-1476 | unless the policy gives way no attempt is made on a blocked or unreachable candidate, strict attempts only healthy ones, and preferred an unknown one only when none is serviceable |
| SessionOpening.Chain.Execute | smart-contracts/contracts/diamond/facets/SessionRouter.sol:83-145 | the contract runs all executed copies of one open: one session, if any passes |
| SessionOpening.Chain.TryOpenSession | proxy-router/internal/blockchainapi/service.go:1603-1660 | result, entry into the on-chain open and session opened for every combination of replies; FailoverOrder.AttemptMeans says which replies pass on |
| SessionOpening.HardFilter | proxy-router/internal/blockchainapi/service.go:1405-1443 | keeps the eligible bids in order and records the omitted and unaffordable ones |
| SessionOpening.PolicyFilter | proxy-router/internal/blockchainapi/service.go:1458-1476 | keeps the flagged candidates in order and records every other one once |
| SessionOpening.Failover | proxy-router/internal/blockchainapi/service.go:1478-1497 | stops at the first attempt that does not pass on and records all earlier ones |
| SessionOpening.OpenSessionByModelId | proxy-router/internal/blockchainapi/service.go:1405-1498 | the outcome and the entries into the chain of the whole request; on total failure each scored bid other than a non-omitted own bid is recorded exactly once; FailoverOrder.FailsOver says which attempt decides |
| SessionOpening.AtMostOneOpen | proxy-router/internal/blockchainapi/service.go:1405-1498 | for all replies of providers, node and chain the on-chain open is entered at most once and at most one session is opened, never for an own, omitted or unaffordable bid, with the amount of the bid, and a success is the first attempt that did not pass on |
| SessionOpening.OpenedBehindFailure | proxy-router/internal/blockchainapi/service.go:1478-1498 | a request fails although a session was opened exactly when its last attempt opened one the node did not learn of, and then it reports a failed open |
| SessionOpening.AttemptedEmbed | proxy-router/internal/blockchainapi/service.go:1412-1494 | filters and policy keep the order of the scored bids |
| FailoverOrder.CandidatesExact | proxy-router/internal/blockchainapi/service.go:1405-1443 | the candidates are exactly the scored bids of neither the omitted provider nor the user and within a readable balance, in order |
| FailoverOrder.AttemptedExact | proxy-router/internal/blockchainapi/service.go:1444-1476 | attempts are made on exactly the candidates a policy that applies wants, and on all when it is permissive, unset or left with one provider |
| FailoverOrder.AttemptMeans | proxy-router/internal/blockchainapi/service.go:1603-1660 | an attempt passes on exactly after a failed ping, a blocking report, a failed attestation or a refused initiation; it gives up without a provider record or price |
| FailoverOrder.ReasonMeans | proxy-router/internal/blockchainapi/service.go:1405-1660 | each failure names the first thing that went wrong |
| FailoverOrder.FailsOver | proxy-router/internal/blockchainapi/service.go:1478-1497 | the first attempt that does not pass on decides: it is the one entry into the chain and the request succeeds exactly when its open is reported; the attempts before it change nothing |
| FailoverOrder.NoneAcceptedIff | proxy-router/internal/blockchainapi/service.go:1478-1498 | nobody accepted exactly when every attempt passed on |
| FailoverOrder.ReportNamesAll | proxy-router/internal/blockchainapi/service.go:1405-1498 | the failure report names each provider as often as it bids, the user itself not at all |
| OpenByModel.OpenSession | proxy-router/internal/blockchainapi/service.go:1339-1498 | from the listed bids to the session in the contract: collect, rank, filter and try; nothing happens without bids or with a failed lookup |
| OpenByModel.ScoreOrder | proxy-router/internal/blockchainapi/service.go:1478-1494 | of two attempted bids the one with the higher score is tried first |
| OpenByModel.BestFirst | proxy-router/internal/blockchainapi/service.go:1339-1498 | a request opens at most one session, success or not, for exactly the computed amount, and on success every attempted bid with a higher score had failed before the chain |
| BidRating.GetAllBidsWithRating | proxy-router/internal/blockchainapi/service.go:1500-1543 | the loop terminates with every active bid once, in order, or fails with a failed lookup |
| BidRating.AllOfAligned | proxy-router/internal/blockchainapi/service.go:1500-1543 | entry i of ids, bids, stats and providers belongs to the i-th active bid |
| BidRating.RateBids | proxy-router/internal/blockchainapi/service.go:334-379 | sorted by falling score, one row for each scored bid and no other, every field and the score from the bid with that id and its own provider |
| BidRating.RankingMeans | proxy-router/internal/blockchainapi/service.go:334-379 | a row is in the ranking exactly when some listed bid has its id, provider, model and price and the scorer gives its score for that bid and its own provider |
| BidRating.RankingScoresAgree | proxy-router/internal/blockchainapi/service.go:334-379 | the best score does not depend on how ties are sorted |
| Pagination.PageIsWindow | proxy-router/internal/repositories/registries/pagination.go:16-52 | in either order a page is the requested window of the list as the caller sees it |
| Rehydration.GetUnclosedUserSessions | proxy-router/internal/blockchainapi/service.go:1226-1259 | the open sessions in order with their bids, and unclosed + closed = fetched |
| Rehydration.PageComplete | proxy-router/internal/blockchainapi/service.go:1226-1259 | a session of the page is returned exactly when it is open, with its own id and bid |
| Rehydration.RehydrateFromChain | proxy-router/internal/blockchainapi/session_expiry_handler.go:64-135 | terminates, writes exactly the open sessions of the scanned pages, and stops only at the end, at the offset of a failed read or after three all-closed pages |
| Rehydration.LossExact | proxy-router/internal/blockchainapi/session_expiry_handler.go:89-106 | an open session is not scanned if and only if three full consecutive pages without an open one lie before it |
| Rehydration.RehydrationLossBound | proxy-router/internal/blockchainapi/session_expiry_handler.go:64-135 | with successful reads and writes a session is missing from the cache exactly when it is closed or such a run lies before it |
| Rehydration.ClosedRunLength | proxy-router/internal/blockchainapi/session_expiry_handler.go:95-106 | such a run is 765 consecutive closed sessions |
| Rehydration.CachedOwn | proxy-router/internal/blockchainapi/session_expiry_handler.go:107-125 | a cached session is cached with its own user, provider, end and model |
| Rehydration.CachedExactly | proxy-router/internal/blockchainapi/session_expiry_handler.go:64-135 | in the chain's own order: a session with n newer ones is cached exactly when it is not closed and no 765 closed ones starting at a multiple of 255 are newer |
| ChatStorages.ChatStorage.FileMutex | proxy-router/internal/chatstorage/file_chat_storage.go:328-337 | one mutex a file, kept forever, none shared |
| ChatStorages.ChatStorage.StorePromptResponse | proxy-router/internal/chatstorage/file_chat_storage.go:40-168 | the file and reply of the sequential meaning of a store; no other file changes |
| ChatStorages.ChatStorage.UpdateChatSession | proxy-router/internal/chatstorage/file_chat_storage.go:256-301 | binds a session, creating the chat when missing; an empty id changes nothing |
| ChatStorages.ChatStorage.LoadChatFromFile | proxy-router/internal/chatstorage/file_chat_storage.go:303-320 | the content or a missing-file error |
| ChatStorages.ChatStorage.DeleteChat | proxy-router/internal/chatstorage/file_chat_storage.go:220-230 | removes the file or reports it missing |
| ChatStorages.ChatStorage.UpdateChatTitle | proxy-router/internal/chatstorage/file_chat_storage.go:232-254 | undisturbed, changes the title only |
| ChatStore.HistoryGrows | proxy-router/internal/chatstorage/file_chat_storage.go:136-158 | between deletes messages only grow by appends and a session binding never becomes empty |
| ChatStore.MessagesAreEntries | proxy-router/internal/chatstorage/file_chat_storage.go:40-168 | the messages are exactly the entries of the stores since the file was created, in order |
| ChatFields.SessionIsLast | proxy-router/internal/chatstorage/file_chat_storage.go:136-158 | over any run the chat is bound to the session of the last operation that carried one |
| ChatFields.SessionKept | proxy-router/internal/chatstorage/file_chat_storage.go:136-301 | operations without a session never change the binding |
| ChatFields.TitleIsFirst | proxy-router/internal/chatstorage/file_chat_storage.go:125-135 | title and kind are those of the prompt that stored the first message, also after a binding created the file |
| ChatFields.ModelIsLast | proxy-router/internal/chatstorage/file_chat_storage.go:125-301 | the model is the one named last, by the first prompt or by a binding |
| ChatFields.FileIff | proxy-router/internal/chatstorage/file_chat_storage.go:40-301 | there is a file exactly when one was there or created and no delete came after |
| ChatFields.RepliesMean | proxy-router/internal/chatstorage/file_chat_storage.go:40-320 | loading shows the file as it is, a missing file is reported, and only an unsupported prompt is refused |
| ChatStore.MutualExclusion | proxy-router/internal/chatstorage/file_chat_storage.go:328-337 | two calls in a critical section of one chat, or under one mutex, are the same call |
| ChatStore.InvKept | proxy-router/internal/chatstorage/file_chat_storage.go:40-337 | every step of every call keeps the invariant of the interleaved store |
| ChatStore.Linearises | proxy-router/internal/chatstorage/file_chat_storage.go:40-337 | every interleaving of stores, binds, loads, deletes and title updates gives each chat the file and the replies of one sequential order of critical sections, of which only a title update has two |
| ChatStore.RealTimeOrder | proxy-router/internal/chatstorage/file_chat_storage.go:40-337 | that order respects real time: a section that took effect before another call started stands before that call's |
| ChatStore.TraceGrows | proxy-router/internal/chatstorage/file_chat_storage.go:136-158 | in every interleaving, while a chat is neither deleted nor retitled, its messages only grow by appends and its session binding is never emptied |
| ChatTitles.TitleUpdateExact | proxy-router/internal/chatstorage/file_chat_storage.go:232-254 | whatever runs between the two sections, some place for the title update explains the file if and only if the file it overwrites is the loaded one up to its title |
| ChatTitles.TitleUpdateInTrace | proxy-router/internal/chatstorage/file_chat_storage.go:232-254 | the same for each write-back of every reachable state |
| ChatTitles.UpToTitleIff | proxy-router/internal/chatstorage/file_chat_storage.go:232-254 | without deletes in between this means: no prompt was stored, and the last binds carry the loaded session and model |
| ChatTitles.StoreLostInEveryOrder | proxy-router/internal/chatstorage/file_chat_storage.go:232-254 | a prompt stored in between is lost whatever order the operations are put in |
| ChatTitles.DeleteUndone | proxy-router/internal/chatstorage/file_chat_storage.go:220-254 | a delete in between is undone: the messages are back, and no place for the title update explains it |
| ChatTitles.CleanTraceLinearises | proxy-router/internal/chatstorage/file_chat_storage.go:40-337 | when the condition holds at every write-back, the interleaving is one of whole operations, title updates included |
| ChatTitles.LosingSchedule | proxy-router/internal/chatstorage/file_chat_storage.go:232-254 | a reachable state in which a prompt was stored with success and its message is gone |
| LogBuffer.Buffer.Write | proxy-router/internal/interfaces/logstorage.go:64-92 | slices and byte count after any write, from any state |
| LogBuffer.ShortWrite | proxy-router/internal/interfaces/logstorage.go:71-84 | a write shorter than the capacity leaves the longest suffix that fits and the exact byte count, below capacity |
| LogBuffer.FitSuffixFits | proxy-router/internal/interfaces/logstorage.go:71-84 | what is kept is a suffix of whole writes and stays below the capacity |
| LogBuffer.FitSuffixLongest | proxy-router/internal/interfaces/logstorage.go:71-84 | no longer suffix fits |
| LogBuffer.RunKeepsSuffix | proxy-router/internal/interfaces/logstorage.go:64-92 | over any run of short writes the buffer holds the longest suffix of the whole run that fits |
| LogBuffer.RunNoEmpty | proxy-router/internal/interfaces/logstorage.go:64-92 | a buffer with a capacity never holds an empty slice, whatever was written |
| LogBuffer.CountExactIff | proxy-router/internal/interfaces/logstorage.go:73-87 | the byte count stays exact if and only if the write is empty, shorter than the capacity, or the capacity is zero |
| LogBuffer.LongWriteOverfills | proxy-router/internal/interfaces/logstorage.go:73-87 | after a longer write the next short one leaves the buffer above its capacity |
| LogBuffer.LongWriteKeeps | proxy-router/internal/interfaces/logstorage.go:71-87 | a write of the capacity or more drives everything out and leaves its last bytes |
| LogBuffer.Reader.Read | proxy-router/internal/interfaces/logstorage.go:100-121 | on a quiet buffer delivers the next bytes, and EOF exactly when none are left |
| LogBuffer.ReadAll | proxy-router/internal/interfaces/logstorage.go:100-121 | reads of any positive sizes return exactly the retained bytes and then EOF |
| LogBuffer.AfterDrops | proxy-router/internal/interfaces/logstorage.go:64-92 | any run of writes drops slices from the front of old and new ones only |
| LogBuffer.ReaderSkips | proxy-router/internal/interfaces/logstorage.go:64-121 | a reader overtaken by evictions passes over exactly as many retained slices as were evicted, or all that are left; none exactly when nothing was evicted, it had taken nothing, or it had taken all that is retained |
| BoundStackMaps.BoundStackMap.Push | proxy-router/internal/lib/bstackmap.go:28-40 | the newest record replaces the oldest when full; key list and map stay consistent exactly when the key is not among the kept ones |
| BoundStackMaps.PushedIsLastN | proxy-router/internal/lib/bstackmap.go:28-40 | keeping the last `capacity` after every push keeps the last of the whole run |
| BoundStackMaps.PushAll | proxy-router/internal/lib/bstackmap.go:28-40 | pushing fresh keys, one after another, onto a new map leaves exactly the last `capacity` of them |
| BoundStackMaps.DistinctFresh | proxy-router/internal/lib/bstackmap.go:28-40 | distinct keys are always fresh |
| BoundStackMaps.BoundStackMap.Get | proxy-router/internal/lib/bstackmap.go:42-48 | finds a record exactly when the key is held, and that record |
| BoundStackMaps.BoundStackMap.At | proxy-router/internal/lib/bstackmap.go:50-63 | the record at a position, negative ones counted from the newest, nothing outside |
| BoundStackMaps.BoundStackMap.Clear | proxy-router/internal/lib/bstackmap.go:65-74 | empties the map from any state |
| BoundStackMaps.BoundStackMap.Filter | proxy-router/internal/lib/bstackmap.go:101-114 | key list and map stay consistent; the item after a removed one is kept untested |
| BoundStackMaps.SieveDropsNone | proxy-router/internal/lib/bstackmap.go:101-114 | no item that satisfies the predicate is dropped, and order is kept |
| BoundStackMaps.SieveIsExactIff | proxy-router/internal/lib/bstackmap.go:105-113 | exactly the failing items go if and only if no two failing ones are neighbours |
| FanIn.NoPanic | proxy-router/internal/lib/chan.go:5-22 | no send meets the closed output, the counter never goes below zero, nothing closes twice |
| FanIn.InvKept | proxy-router/internal/lib/chan.go:5-22 | of each input, received + in hand + waiting is what was sent, at every step |
| FanIn.InputOrderKept | proxy-router/internal/lib/chan.go:5-22 | at every moment the reader has a prefix of each input, in order |
| FanIn.ClosedMeansAllDelivered | proxy-router/internal/lib/chan.go:5-22 | the output closes at most once, and then all inputs are closed, each was delivered whole and in order, and every value came as often as it was sent |
| FanIn.WorkDecreases | proxy-router/internal/lib/chan.go:5-22 | every goroutine or closer step is one unit of a finite remaining work |
| FanIn.Progress | proxy-router/internal/lib/chan.go:5-22 | with all inputs closed some step is possible if and only if the output is not closed |
| FanIn.AlwaysCloses | proxy-router/internal/lib/chan.go:5-22 | however the goroutines are scheduled, the output is closed exactly when that much work is done |
| CutPlan.AddAllIff | smart-contracts/scripts/session-day-lock-cut-calldata.ts:122-132 | an Add goes through exactly for distinct selectors nobody serves, and then only routes those |
| CutPlan.RemoveAllIff | smart-contracts/scripts/session-day-lock-cut-calldata.ts:117-121 | a Remove goes through exactly for distinct selectors the facet serves, and then only drops those |
| CutPlan.CollisionCheck | smart-contracts/scripts/session-day-lock-cut-calldata.ts:86-91 | stops at the first selector an unrelated facet serves |
| CutPlan.Plan | smart-contracts/scripts/session-day-lock-cut-calldata.ts:59-133 | a plan exactly when no check fails, and the reason otherwise |
| CutPlan.AllowedMeans | smart-contracts/scripts/session-day-lock-cut-calldata.ts:92-97 | the allowlist text names exactly what its comma-separated parts show, trimmed and in lower case, and nothing empty |
| CutPlan.ClearMeans | smart-contracts/scripts/session-day-lock-cut-calldata.ts:59-112 | the condition of the plan spelled out over the table |
| CutPlan.PlanApplies | smart-contracts/scripts/session-day-lock-cut-calldata.ts:83-133 | a cleared plan goes through if and only if the interface selectors are distinct and the second interface is not empty; the resulting table |
| CutPlan.PlanSafe | smart-contracts/scripts/session-day-lock-cut-calldata.ts:76-133 | every interface selector is on the new facet and nothing else is, other facets keep theirs, the old facet is gone, and a selector is lost only when allowlisted |
| CutPlan.DuplicateReverts | smart-contracts/scripts/session-day-lock-cut-calldata.ts:86-107 | a selector in both interfaces passes every check and the transaction reverts |

## Left out

- Hash functions, X.509, TLS, quote signatures, NRAS and portal checks: their results are inputs.
- Decoding of base64, JSON, YAML and HTML: the decoded value, or its absence, is an input; GUIDs are given as bytes.
- Unicode: case folding and trimming are those of ASCII text.
- Log lines, error texts, timestamps (VerifiedAt), the docker-compose and version strings of snapshots beyond the workload result.
- Registry download and refresh, CSV and JSON registry parsing.
- RPC, gas prices, nonce values, signing, waiting times and context cancellation: one reply per call.
- TxEscalator.SendWithEscalation: the stop on a passed deadline is not modelled, as `waitForMining` turns that error into another one and the stop is never reached.
- ChainOpen.OneSession: the provider's approval is fresh, and no transaction but the copies of this open uses it.
- `GetTokenSupply` and `GetTodaysBudget` with their 55-second caches: supply and budget are inputs of one request.
- The rating formula: an arbitrary scorer; `EstimateOpenSessionStake` and `OpenSessionByBidId`.
- Agent allowances and agent transactions in `OpenSession`: one success flag.
- Solidity contracts, but for the single use of an approval and the sum of allowance increases. Applying a cut follows the Solarity diamond the contracts import; the library itself is not part of this model, and neither is the Replace action, which the planner never uses.
- SevWorkload.VerifySevWorkload: searches with the measurement function that SevDigest.CalcSevMeasurement is proved equal to, instead of calling the method.
- SevDigest.GctxUpdateNormalPages: takes data below 2^63 bytes, the longest slice Go has.
- AttestedWorkload.SameSevQuoteSameCompose: for registries whose entries show the compose hash; SevBinding.CmdlineShown says how much the others show.
- SevDigest.GctxUpdateZeroPages: for sizes above 2^63 - 4096 the Go offset wraps to a negative number and the loop does not end; the contract gives the finite list of pages. SevTwin.PyUpdateZeroPages has no such limit, as in Python.
- BackendVerifier.Verifier.AttestBackend: takes the workload verdict as a reply; AttestedWorkload.AttestBackend computes it.
- SevBinding.ComposeBound: for table offsets up to 4028, which leave the whole command-line hash inside the page; from 4029 to 4059 the page shows only the first bytes of it and from 4060 none (SevBinding.CmdlineShown).
- SessionOpening.Chain.TryOpenSession: a node without an attestation verifier is a TEE check that succeeds.
- BidRating.RateBids: bid ids are distinct, as keys of the contract's bid mapping are.
- BidRating.SortByScore: promises a permutation by falling score only; which of equal scores comes first is open, as in sort.Slice.
- Rehydration.RehydrateFromChain: the offset is unbounded, where the code has a uint64; the chain list does not change during the scan.
- Rehydration.GetUnclosedUserSessions: the closing time is the int64 the code compares.
- ChatStore.Linearises: orders critical sections; a title update is two of them, and ChatTitles.TitleUpdateExact says exactly when they act as one operation.
- ChatStore.TraceGrows: for stretches of a run in which the chat is not retitled, because a write-back can drop messages (ChatTitles.LosingSchedule).
- ChatTitles.TitleUpdateExact: keeps the other sections in the order they took effect; ChatTitles.StoreLostInEveryOrder covers every order for a lost prompt.
- ChatStorages.ChatStorage.StorePromptResponse: directory creation, unreadable or corrupt files and failed writes are not modelled, and the title and message of a prompt are inputs; a prompt without messages, which panics, is not modelled.
- `GetChats`: a loop of loads.
- LogBuffer.Reader.Read: describes a buffer that is not written to meanwhile; LogBuffer.ReaderSkips says what writes between reads make it miss.
- BoundStackMaps.BoundStackMap.Push: needs a capacity of at least one; with zero the code indexes an empty key list.
- `Range`, `Count` and `String` of the bounded map.
- FanIn.ClosedMeansAllDelivered: the input channels are distinct and not nil.
- CutPlan.PlanApplies: closeSession is in the session router interface, the zero address has no code, and the loupe lists exactly what the table holds; address parsing and the printed report are not modelled.
