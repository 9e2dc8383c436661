/** The SEV workload verification. Base64 decoding of the quote and HTML unescaping of the
    compose page are inputs. */
module SevWorkload {
  import opened ByteStrings
  import opened Hashing
  import opened SevLayout
  import opened SevDigest
  import opened SevBinding
  import opened SevEntries
  import opened SevSearch
  import opened Workload

  /** The closure of the search: rebuild the command line and measure. */
  function MeasureOf(h: Hashes): Trial
  {
    (e: SevEntry, n: int, composeHash: Bytes) => Measurement(h, e, n, BuildCmdline(e, composeHash))
  }

  function ComposeHashes(h: Hashes, variants: seq<Bytes>): (hs: seq<Bytes>)
    ensures |hs| == |variants|
  {
    seq(|variants|, i requires 0 <= i < |variants| => HexEncode(h.sha256(variants[i])))
  }

  // ---- map iteration order ----

  /** Some entry, two template counts and two compose hashes that the search tried
      exhibit a SHA-384 collision. */
  ghost predicate SearchCollision(h: Hashes, entries: seq<SevEntry>, hashes: seq<Bytes>)
  {
    exists e, t, c, t', c' :: TriedPairCollides(h, entries, hashes, e, t, c, t', c')
  }

  ghost predicate TriedPairCollides(h: Hashes, entries: seq<SevEntry>, hashes: seq<Bytes>,
                                    e: SevEntry, t: Bytes, c: Bytes, t': Bytes, c': Bytes)
  {
    && e in entries && c in hashes && c' in hashes
    && VcpuCount(t).Some? && VcpuCount(t').Some?
    && DigestCollision(h, e, VcpuCount(t).value, BuildCmdline(e, c), VcpuCount(t').value, BuildCmdline(e, c'))
  }

  /** An entry whose vCPU count shows in its digest: other processors start elsewhere, or some page is measured
      before them. */
  predicate CountsDistinguished(e: SevEntry)
  {
    e.resetEip != BSP_EIP || MeasuresAPage(e.sections)
  }

  /** Some entry without such a mark has a digest chain that comes back to its OVMF digest within the largest
      template count. */
  ghost predicate SearchReturn(h: Hashes, entries: seq<SevEntry>)
  {
    exists e, m :: Returning(h, entries, e, m)
  }

  ghost predicate Returning(h: Hashes, entries: seq<SevEntry>, e: SevEntry, m: nat)
  {
    e in entries && m < 16 && !CountsDistinguished(e) && ReturnsAfter(h, e, m)
  }

  lemma CountsDiffer(h: Hashes, e: SevEntry, n: int, c: Bytes, n': int, c': Bytes)
    requires n >= 1 && n' >= 1 && n != n' && CountsDistinguished(e)
    requires Measurement(h, e, n, c) == Measurement(h, e, n', c')
    ensures DigestCollision(h, e, n, c, n', c')
  {
    VcpuCountBound(h, e, n, c, n', c');
  }

  lemma CountsRepeat(h: Hashes, entries: seq<SevEntry>, e: SevEntry, n: int, c: Bytes, n': int, c': Bytes)
    requires e in entries && !CountsDistinguished(e) && 1 <= n <= 16 && 1 <= n' <= 16 && n != n'
    requires Measurement(h, e, n, c) == Measurement(h, e, n', c')
    ensures DigestCollision(h, e, n, c, n', c') || SearchReturn(h, entries)
  {
    if n < n' {
      RepeatsOnlyByReturn(h, e, n, c, n', c');
      assert ReturnsAfter(h, e, n' - n) ==> Returning(h, entries, e, n' - n);
    } else {
      RepeatsOnlyByReturn(h, e, n', c', n, c);
      assert ReturnsAfter(h, e, n - n') ==> Returning(h, entries, e, n - n');
      var ld := HexDecode(e.ovmfHash);
      CollisionSymmetric(h.sha384, Hashed(h.sha384, ld, Records(h, e, n', c')),
                         Hashed(h.sha384, ld, Records(h, e, n, c)));
    }
  }

  lemma CountsTell(h: Hashes, entries: seq<SevEntry>, e: SevEntry, n: int, c: Bytes, n': int, c': Bytes)
    requires e in entries && 1 <= n <= 16 && 1 <= n' <= 16 && n != n'
    requires Measurement(h, e, n, c) == Measurement(h, e, n', c')
    ensures DigestCollision(h, e, n, c, n', c') || SearchReturn(h, entries)
  {
    if CountsDistinguished(e) {
      CountsDiffer(h, e, n, c, n', c');
    } else {
      CountsRepeat(h, entries, e, n, c, n', c');
    }
  }

  lemma CountRange(t: Bytes)
    ensures VcpuCount(t).Some? ==> 1 <= VcpuCount(t).value <= 16
  {
  }

  lemma PairTells(h: Hashes, entries: seq<SevEntry>, hashes: seq<Bytes>, e: SevEntry, t: Bytes, n: nat, c: Bytes,
                  t': Bytes, n': nat, c': Bytes)
    requires e in entries && c in hashes && c' in hashes && VcpuCount(t) == Some(n) && VcpuCount(t') == Some(n')
    requires n != n' && Measurement(h, e, n, BuildCmdline(e, c)) == Measurement(h, e, n', BuildCmdline(e, c'))
    ensures SearchCollision(h, entries, hashes) || SearchReturn(h, entries)
  {
    CountRange(t);
    CountRange(t');
    CountsTell(h, entries, e, n, BuildCmdline(e, c), n', BuildCmdline(e, c'));
    if !SearchReturn(h, entries) {
      PairCollides(h, entries, hashes, e, t, c, t', c');
    }
  }

  lemma PairCollides(h: Hashes, entries: seq<SevEntry>, hashes: seq<Bytes>, e: SevEntry, t: Bytes, c: Bytes,
                     t': Bytes, c': Bytes)
    requires TriedPairCollides(h, entries, hashes, e, t, c, t', c')
    ensures SearchCollision(h, entries, hashes)
  {
  }

  lemma TemplateDetermined(h: Hashes, entries: seq<SevEntry>, hashes: seq<Bytes>, quoted: Bytes,
                           e: SevEntry, t: Bytes, t': Bytes)
    requires e in entries
    requires MatchesTemplate(MeasureOf(h), e, t, hashes, quoted) && MatchesTemplate(MeasureOf(h), e, t', hashes, quoted)
    ensures t == t' || SearchCollision(h, entries, hashes) || SearchReturn(h, entries)
  {
    var n, n' := VcpuCount(t).value, VcpuCount(t').value;
    if n == n' {
      VcpuCountInjective(t, t');
    } else {
      var c :| c in hashes && MeasureOf(h)(e, n, c) == quoted;
      var c' :| c' in hashes && MeasureOf(h)(e, n', c') == quoted;
      PairTells(h, entries, hashes, e, t, n, c, t', n', c');
    }
  }

  /** The brute-force verdict does not depend on the map iteration orders: any two results are equal, template
      name included, unless the search exhibits a SHA-384 collision or a digest chain that comes back to its
      OVMF digest. */
  lemma BruteForceDeterministic(h: Hashes, entries: seq<SevEntry>, hashes: seq<Bytes>, quoted: Bytes,
                                r: WorkloadResult, r': WorkloadResult)
    requires BruteForceSpec(MeasureOf(h), entries, hashes, quoted, r)
    requires BruteForceSpec(MeasureOf(h), entries, hashes, quoted, r')
    ensures r == r' || SearchCollision(h, entries, hashes) || SearchReturn(h, entries)
  {
    var m := MeasureOf(h);
    if e, t, t' :| e in entries && MatchesTemplate(m, e, t, hashes, quoted)
                   && MatchesTemplate(m, e, t', hashes, quoted) && t != t' {
      TemplateDetermined(h, entries, hashes, quoted, e, t, t');
    } else {
      BruteForceUnique(m, entries, hashes, quoted, r, r');
    }
  }

  // ---- the whole verification ----

  function QuotedMeasurement(raw: Bytes): Bytes
    requires |raw| >= 0xC0
  {
    HexEncode(raw[0x90..0xC0])
  }

  function ImageId(raw: Bytes): Bytes
    requires |raw| >= 0xC0
  {
    TrimRight(raw[0x20..0x30], FILL)
  }

  ghost predicate SevSpec(m: Trial, entries: seq<SevEntry>, quote: Option<Bytes>, hashes: seq<Bytes>, r: WorkloadResult)
  {
    if quote.None? || |quote.value| < 0xC0 then r == NOT_AUTHENTIC
    else
      var raw := quote.value;
      match ParseSevFamilyID(raw[0x10..0x20])
      case None => BruteForceSpec(m, entries, hashes, QuotedMeasurement(raw), r)
      case Some(f) => FamilySpec(m, entries, f, ImageId(raw), hashes, QuotedMeasurement(raw), r)
  }

  method HashVariants(h: Hashes, variants: seq<Bytes>) returns (hashes: seq<Bytes>)
    ensures hashes == ComposeHashes(h, variants)
  {
    hashes := [];
    var i := 0;
    while i < |variants|
      invariant 0 <= i <= |variants|
      invariant hashes == ComposeHashes(h, variants)[..i]
    {
      hashes := hashes + [HexEncode(h.sha256(variants[i]))];
      i := i + 1;
    }
  }

  /** `m` is the trial closure, `quote` the decoded quote, `orders` the map orders of this run. */
  method SearchQuote(m: Trial, entries: seq<SevEntry>, orders: seq<seq<Bytes>>, quote: Option<Bytes>,
                     hashes: seq<Bytes>)
    returns (r: WorkloadResult)
    requires |orders| == |entries| && forall i :: 0 <= i < |orders| ==> IsMapOrder(orders[i])
    ensures SevSpec(m, entries, quote, hashes, r)
  {
    if quote.None? {
      return NOT_AUTHENTIC;
    }
    var raw := quote.value;
    if |raw| < 0x090 + 48 {
      return NOT_AUTHENTIC;
    }
    var quoted := HexEncode(raw[0x090..0x090 + 48]);
    var familyId := raw[0x010..0x020];
    var imageId := TrimRight(raw[0x020..0x030], FILL);
    var family := ParseSevFamilyID(familyId);
    if family.None? {
      r := BruteForce(m, entries, orders, hashes, quoted);
    } else {
      r := SearchFamily(m, entries, family.value, imageId, hashes, quoted);
    }
  }

  /** `extracted` is what the HTML reading of the compose text gives. */
  method VerifySevWorkload(h: Hashes, entries: seq<SevEntry>, orders: seq<seq<Bytes>>, quote: Option<Bytes>,
                           compose: Bytes, extracted: Bytes) returns (r: WorkloadResult)
    requires |orders| == |entries| && forall i :: 0 <= i < |orders| ==> IsMapOrder(orders[i])
    ensures SevSpec(MeasureOf(h), entries, quote, ComposeHashes(h, ComposeCandidates(compose, extracted)), r)
  {
    var hashes := HashVariants(h, ComposeCandidates(compose, extracted));
    r := SearchQuote(MeasureOf(h), entries, orders, quote, hashes);
  }

  /** The staged search refines the flat one: authentic exactly when some registered entry (of the family's
      VM type and count, or of any type with any template count) and some compose hash reproduce the quote. */
  lemma AuthenticIffReproduced(m: Trial, entries: seq<SevEntry>, quote: Bytes, hashes: seq<Bytes>, r: WorkloadResult)
    requires |quote| >= 0xC0 && SevSpec(m, entries, Some(quote), hashes, r)
    ensures r.status.Authentic? <==>
            match ParseSevFamilyID(quote[0x10..0x20])
            case None => exists e, t, c :: Reproduces(m, entries, hashes, QuotedMeasurement(quote), e, t, c)
            case Some(f) => exists e: SevEntry, c ::
              e.vmType == f.vmType && Reproduces(m, entries, hashes, QuotedMeasurement(quote), e, f.templateName, c)
  {
    var q := QuotedMeasurement(quote);
    match ParseSevFamilyID(quote[0x10..0x20]) {
      case None => BruteForceIffReproduced(m, entries, hashes, q, r);
      case Some(f) =>
        ParsedFamilyText(quote[0x10..0x20], f);
        FamilyIffReproduced(m, entries, f, ImageId(quote), hashes, q, r);
    }
  }

  lemma {:induction false} TrialMeansMeasurement(h: Hashes, e: SevEntry, n: int, compose: Bytes)
    ensures MeasureOf(h)(e, n, HexEncode(h.sha256(compose))) == ComposeMeasurement(h, e, n, compose)
  {
  }

  lemma ReproducedVariant(h: Hashes, entries: seq<SevEntry>, variants: seq<Bytes>, quoted: Bytes, e: SevEntry,
                          t: Bytes, c: Bytes)
    returns (n: int, v: Bytes)
    requires Reproduces(MeasureOf(h), entries, ComposeHashes(h, variants), quoted, e, t, c)
    ensures v in variants && ComposeMeasurement(h, e, n, v) == quoted
  {
    n := VcpuCount(t).value;
    var i :| 0 <= i < |variants| && ComposeHashes(h, variants)[i] == c;
    v := variants[i];
    TrialMeansMeasurement(h, e, n, v);
  }

  lemma AuthenticQuote(m: Trial, entries: seq<SevEntry>, quote: Option<Bytes>, hashes: seq<Bytes>, r: WorkloadResult)
    requires SevSpec(m, entries, quote, hashes, r) && r.status.Authentic?
    ensures quote.Some? && |quote.value| >= 0xC0
  {
  }

  lemma AuthenticReproduced(m: Trial, entries: seq<SevEntry>, quote: Bytes, hashes: seq<Bytes>, r: WorkloadResult)
    returns (e: SevEntry, t: Bytes, c: Bytes)
    requires |quote| >= 0xC0 && SevSpec(m, entries, Some(quote), hashes, r) && r.status.Authentic?
    ensures Reproduces(m, entries, hashes, QuotedMeasurement(quote), e, t, c)
  {
    var q := QuotedMeasurement(quote);
    AuthenticIffReproduced(m, entries, quote, hashes, r);
    match ParseSevFamilyID(quote[0x10..0x20]) {
      case None =>
        e, t, c :| Reproduces(m, entries, hashes, q, e, t, c);
      case Some(f) =>
        t := f.templateName;
        e, c :| e.vmType == f.vmType && Reproduces(m, entries, hashes, q, e, t, c);
    }
  }

  lemma AuthenticMeasures(h: Hashes, entries: seq<SevEntry>, quote: Bytes, variants: seq<Bytes>, r: WorkloadResult)
    returns (e: SevEntry, n: int, v: Bytes)
    requires |quote| >= 0xC0 && SevSpec(MeasureOf(h), entries, Some(quote), ComposeHashes(h, variants), r)
    requires r.status.Authentic?
    ensures e in entries && v in variants && ComposeMeasurement(h, e, n, v) == QuotedMeasurement(quote)
  {
    var t, c;
    e, t, c := AuthenticReproduced(MeasureOf(h), entries, quote, ComposeHashes(h, variants), r);
    n, v := ReproducedVariant(h, entries, variants, QuotedMeasurement(quote), e, t, c);
  }

  /** Two readings of two registries measure to the quoted value although the entries cannot be compared. */
  ghost predicate Incomparable(h: Hashes, quoted: Bytes, e: SevEntry, n: int, v: Bytes, e': SevEntry, n': int,
                               v': Bytes)
  {
    !Comparable(e, e') && ComposeMeasurement(h, e, n, v) == quoted == ComposeMeasurement(h, e', n', v')
  }

  /** An accepted compose file is the only one that can be accepted: two authentic verdicts on one quote, from whatever
      registries, have a reading in common, or the runs of their readings exhibit a collision, or the entries behind
      the verdicts cannot be compared. */
  lemma AuthenticBindsCompose(h: Hashes, quote: Bytes,
                              entries: seq<SevEntry>, variants: seq<Bytes>, r: WorkloadResult,
                              entries': seq<SevEntry>, variants': seq<Bytes>, r': WorkloadResult)
    requires |quote| >= 0xC0
    requires SevSpec(MeasureOf(h), entries, Some(quote), ComposeHashes(h, variants), r) && r.status.Authentic?
    requires SevSpec(MeasureOf(h), entries', Some(quote), ComposeHashes(h, variants'), r') && r'.status.Authentic?
    ensures || (exists v :: v in variants && v in variants')
            || (exists e, n, v, e', n', v' ::
                  && e in entries && v in variants && e' in entries' && v' in variants'
                  && (EntriesCollide(h, e, n, v, e', n', v')
                      || Incomparable(h, QuotedMeasurement(quote), e, n, v, e', n', v')))
  {
    var e, n, v := AuthenticMeasures(h, entries, quote, variants, r);
    var e', n', v' := AuthenticMeasures(h, entries', quote, variants', r');
    if Comparable(e, e') {
      ComposeBoundAcross(h, e, n, v, e', n', v');
    } else {
      assert Incomparable(h, QuotedMeasurement(quote), e, n, v, e', n', v');
    }
  }

  /** Every entry shows the compose hash in its measurement and names its root file system without a space. */
  predicate ShowsCompose(entries: seq<SevEntry>)
  {
    forall e :: e in entries ==> HasHashesSection(e) && TableOffset(e) + 68 <= PAGE && SPACE !in e.rootfsHash
  }

  /** Then they can all be compared. */
  lemma ShownBindsCompose(h: Hashes, quote: Bytes,
                          entries: seq<SevEntry>, variants: seq<Bytes>, r: WorkloadResult,
                          entries': seq<SevEntry>, variants': seq<Bytes>, r': WorkloadResult)
    requires |quote| >= 0xC0 && ShowsCompose(entries) && ShowsCompose(entries')
    requires SevSpec(MeasureOf(h), entries, Some(quote), ComposeHashes(h, variants), r) && r.status.Authentic?
    requires SevSpec(MeasureOf(h), entries', Some(quote), ComposeHashes(h, variants'), r') && r'.status.Authentic?
    ensures || (exists v :: v in variants && v in variants')
            || (exists e, n, v, e', n', v' :: && e in entries && v in variants && e' in entries' && v' in variants'
                                              && EntriesCollide(h, e, n, v, e', n', v'))
  {
    AuthenticBindsCompose(h, quote, entries, variants, r, entries', variants', r');
  }
}
