/** The SEV verdict read off a laid-out attestation report: which of its fields decide, and how. */
module SevReport {
  import opened ByteStrings
  import opened Hashing
  import opened SevDigest
  import opened SevBinding
  import opened SevSearch
  import opened SevWorkload
  import opened Workload

  /** A report as consecutive fields. The report data is the guest's own; the measurement is the firmware's. */
  datatype Report = Report(head: Bytes, family: Bytes, image: Bytes, middle: Bytes, reportData: Bytes,
                           measurement: Bytes, rest: Bytes)
  {
    predicate Sized()
    {
      && |head| == 16 && |family| == 16 && |image| == 16 && |middle| == 32 && |reportData| == 64
      && |measurement| == 48
    }

    function Raw(): Bytes
    {
      head + family + image + middle + reportData + measurement + rest
    }
  }

  const NAMES: seq<string> := ["small", "medium", "large", "2xlarge", "4xlarge"]
  const COUNTS: seq<nat> := [1, 2, 4, 8, 16]

  /** The kernel command line a guest with this entry's image was started with. */
  function KernelLine(e: SevEntry, composeHash: Bytes): Bytes
  {
    (if e.cmdlineExtra == [] then Ascii("console=ttyS0 loglevel=7 docker_compose_hash=")
     else Ascii("console=ttyS0 loglevel=7 ") + e.cmdlineExtra + Ascii(" docker_compose_hash="))
    + composeHash + Ascii(" rootfs_hash=") + e.rootfsHash
  }

  /** Started with n vCPUs and some reading of the compose text, the entry's image measures to the digest. */
  ghost predicate Yields(h: Hashes, e: SevEntry, n: nat, variants: seq<Bytes>, digest: Bytes)
  {
    exists v :: v in variants && Measurement(h, e, n, KernelLine(e, HexEncode(h.sha256(v)))) == HexEncode(digest)
  }

  lemma AsciiJoin(s: string, t: string)
    ensures Ascii(s + t) == Ascii(s) + Ascii(t)
  {
  }

  lemma ShortPrefix()
    ensures Ascii("console=ttyS0 loglevel=7") + Ascii(" docker_compose_hash=")
         == Ascii("console=ttyS0 loglevel=7 docker_compose_hash=")
  {
    AsciiJoin("console=ttyS0 loglevel=7", " docker_compose_hash=");
  }

  lemma ShortLine(e: SevEntry, composeHash: Bytes)
    requires e.cmdlineExtra == []
    ensures BuildCmdline(e, composeHash) == KernelLine(e, composeHash)
  {
    ShortPrefix();
  }

  lemma LongLine(e: SevEntry, composeHash: Bytes)
    requires e.cmdlineExtra != []
    ensures BuildCmdline(e, composeHash) == KernelLine(e, composeHash)
  {
    AsciiJoin("console=ttyS0 loglevel=7", " ");
  }

  lemma LineText(e: SevEntry, composeHash: Bytes)
    ensures BuildCmdline(e, composeHash) == KernelLine(e, composeHash)
  {
    if e.cmdlineExtra == [] {
      ShortLine(e, composeHash);
    } else {
      LongLine(e, composeHash);
    }
  }

  lemma YieldsIff(h: Hashes, e: SevEntry, n: nat, variants: seq<Bytes>, digest: Bytes)
    ensures Matches(MeasureOf(h), e, n, ComposeHashes(h, variants), HexEncode(digest))
       <==> Yields(h, e, n, variants, digest)
  {
    var m, hashes := MeasureOf(h), ComposeHashes(h, variants);
    if c :| c in hashes && m(e, n, c) == HexEncode(digest) {
      var i :| 0 <= i < |hashes| && hashes[i] == c;
      LineText(e, c);
      assert variants[i] in variants;
    }
    if v :| v in variants && Measurement(h, e, n, KernelLine(e, HexEncode(h.sha256(v)))) == HexEncode(digest) {
      var i :| 0 <= i < |variants| && variants[i] == v;
      LineText(e, hashes[i]);
      assert hashes[i] in hashes && m(e, n, hashes[i]) == HexEncode(digest);
    }
  }

  lemma Count(k: nat)
    requires k < 5
    ensures VcpuCount(Ascii(NAMES[k])) == Some(COUNTS[k])
  {
    assert Ascii("small")[0] == 115 && Ascii("medium")[0] == 109 && Ascii("large")[0] == 108;
    assert Ascii("2xlarge")[0] == 50 && Ascii("4xlarge")[0] == 52;
    assert NAMES[k] == if k == 0 then "small" else if k == 1 then "medium" else if k == 2 then "large"
                       else if k == 3 then "2xlarge" else "4xlarge";
  }

  /** The templates and their vCPU counts. */
  lemma TemplateCounts(t: Bytes, n: nat)
    ensures VcpuCount(t) == Some(n) <==> exists k :: 0 <= k < 5 && t == Ascii(NAMES[k]) && n == COUNTS[k]
  {
    if VcpuCount(t) == Some(n) {
      var k := if n == 1 then 0 else if n == 2 then 1 else if n == 4 then 2 else if n == 8 then 3 else 4;
      Count(k);
      assert t == Ascii(NAMES[k]) && n == COUNTS[k];
    }
    if k :| 0 <= k < 5 && t == Ascii(NAMES[k]) && n == COUNTS[k] {
      Count(k);
    }
  }

  lemma Fields(p: Report)
    requires p.Sized()
    ensures var raw := p.Raw();
            && |raw| >= 0xC0 && raw[0x10..0x20] == p.family && raw[0x20..0x30] == p.image
            && raw[0x90..0xC0] == p.measurement
  {
    var a := p.head + p.family + p.image;
    var b := a + p.middle + p.reportData;
    assert p.Raw() == b + p.measurement + p.rest;
    assert b[..0x30] == a && a[0x10..0x20] == p.family && a[0x20..0x30] == p.image;
    assert p.Raw()[..0x30] == a;
  }

  // ---- a report with a family id ----

  /** The family field names VM type and template number k, filled up with NUL or #. */
  ghost predicate NamesFamily(family: Bytes, vm: Bytes, k: nat)
  {
    && k < 5 && '-' as int !in vm
    && exists pad :: (forall c :: c in pad ==> c == 0 || c == '#' as int)
                  && family == vm + Ascii("-") + Ascii(NAMES[k]) + Ascii("-sev") + pad
  }

  /** The image field is the version, filled up with NUL or #. */
  ghost predicate NamesVersion(image: Bytes, ver: Bytes)
  {
    && (ver != [] ==> ver[|ver| - 1] != 0 && ver[|ver| - 1] != '#' as int)
    && exists pad :: (forall c :: c in pad ==> c == 0 || c == '#' as int) && image == ver + pad
  }

  lemma FamilyNamed(family: Bytes, vm: Bytes, k: nat)
    requires |family| == 16 && NamesFamily(family, vm, k)
    ensures ParseSevFamilyID(family) == Some(Family(vm, Ascii(NAMES[k]), COUNTS[k]))
  {
    var pad :| (forall c :: c in pad ==> c == 0 || c == '#' as int)
               && family == vm + Ascii("-") + Ascii(NAMES[k]) + Ascii("-sev") + pad;
    var f := Family(vm, Ascii(NAMES[k]), COUNTS[k]);
    Count(k);
    assert Ascii("-") == [DASH];
    assert FamilyText(f) == vm + Ascii("-") + Ascii(NAMES[k]) + Ascii("-sev");
    FamilyParses(f, pad);
  }

  lemma VersionNamed(image: Bytes, ver: Bytes)
    requires NamesVersion(image, ver)
    ensures TrimRight(image, FILL) == ver
  {
    var pad :| (forall c :: c in pad ==> c == 0 || c == '#' as int) && image == ver + pad;
    TrimRightPad(ver, pad, FILL);
  }

  /** The entries of the VM type whose images yield the digest with n vCPUs. */
  ghost function Fitting(h: Hashes, vm: Bytes, n: nat, variants: seq<Bytes>, digest: Bytes): SevEntry -> bool
  {
    (e: SevEntry) => e.vmType == vm && Yields(h, e, n, variants, digest)
  }

  /** What the verdict says besides its status. */
  predicate Labelled(r: WorkloadResult, template: Bytes, vm: Bytes)
  {
    r.templateName == template && r.vmType == vm && r.env == vm
  }

  /** The version of an authentic verdict is that of an entry that fits: the image's own when one of those fits, and
      that of the first entry that fits otherwise. */
  ghost predicate VersionOf(entries: seq<SevEntry>, fits: SevEntry -> bool, ver: Bytes, chosen: Bytes, i: nat)
  {
    && i < |entries| && fits(entries[i]) && entries[i].artifactsVer == chosen
    && ((chosen == ver && ver != [])
        || forall j :: 0 <= j < |entries| && fits(entries[j]) ==>
             i <= j && !(ver != [] && entries[j].artifactsVer == ver))
  }

  /** The verdict for entries of VM type vm that fit, and an image of version ver. */
  ghost predicate Decided(entries: seq<SevEntry>, fits: SevEntry -> bool, vm: Bytes, template: Bytes, ver: Bytes,
                          r: WorkloadResult)
  {
    && (r.status.Authentic? <==> exists e :: e in entries && fits(e))
    && (r.status.AuthenticMismatch? <==>
          && !r.status.Authentic?
          && exists e :: e in entries && e.vmType == vm && ver != [] && e.artifactsVer == ver)
    && (r.status.Authentic? ==>
          Labelled(r, template, vm) && exists i :: VersionOf(entries, fits, ver, r.artifactsVer, i))
    && (r.status.AuthenticMismatch? ==> Labelled(r, template, vm) && r.artifactsVer == ver)
    && (!r.status.Authentic? && !r.status.AuthenticMismatch? ==> r == WorkloadResult(NotAuthentic, [], [], [], []))
  }

  /** A report that names a family: the verdict is authentic exactly when some entry of the VM type yields the
      measurement field with the template's vCPUs, a mismatch exactly when none does but the image's version is
      registered for the VM type, and says which template, VM type and version. */
  lemma FamilyVerdict(h: Hashes, entries: seq<SevEntry>, p: Report, vm: Bytes, k: nat, ver: Bytes,
                      variants: seq<Bytes>, r: WorkloadResult)
    requires p.Sized() && NamesFamily(p.family, vm, k) && NamesVersion(p.image, ver)
    requires SevSpec(MeasureOf(h), entries, Some(p.Raw()), ComposeHashes(h, variants), r)
    ensures Decided(entries, Fitting(h, vm, COUNTS[k], variants, p.measurement), vm, Ascii(NAMES[k]), ver, r)
  {
    var f := Family(vm, Ascii(NAMES[k]), COUNTS[k]);
    Fields(p);
    FamilyNamed(p.family, vm, k);
    VersionNamed(p.image, ver);
    var fits := Fitting(h, vm, COUNTS[k], variants, p.measurement);
    forall e ensures Hit(MeasureOf(h), e, f, ComposeHashes(h, variants), HexEncode(p.measurement)) <==> fits(e) {
      YieldsIff(h, e, COUNTS[k], variants, p.measurement);
    }
    SpecDecides(MeasureOf(h), entries, f, ver, ComposeHashes(h, variants), HexEncode(p.measurement), fits, r);
  }

  lemma SpecDecides(m: Trial, entries: seq<SevEntry>, f: Family, ver: Bytes, hashes: seq<Bytes>, q: Bytes,
                    fits: SevEntry -> bool, r: WorkloadResult)
    requires FamilySpec(m, entries, f, ver, hashes, q, r) && forall e :: Hit(m, e, f, hashes, q) <==> fits(e)
    ensures Decided(entries, fits, f.vmType, f.templateName, ver, r)
  {
    if r.status.Authentic? {
      if e :| e in entries && Hit(m, e, f, hashes, q) && IsPinned(e, f, ver) {
        var i :| 0 <= i < |entries| && entries[i] == e;
        assert VersionOf(entries, fits, ver, r.artifactsVer, i);
      } else {
        var i :| FirstHit(m, entries, f, hashes, q, i) && r == AuthenticAs(f, entries[i].artifactsVer);
        FirstVersion(m, entries, f, ver, hashes, q, fits, i);
        assert VersionOf(entries, fits, ver, r.artifactsVer, i);
      }
    }
  }

  lemma FirstVersion(m: Trial, entries: seq<SevEntry>, f: Family, ver: Bytes, hashes: seq<Bytes>, q: Bytes,
                     fits: SevEntry -> bool, i: nat)
    requires forall e :: Hit(m, e, f, hashes, q) <==> fits(e)
    requires FirstHit(m, entries, f, hashes, q, i)
    requires !exists e :: e in entries && Hit(m, e, f, hashes, q) && IsPinned(e, f, ver)
    ensures VersionOf(entries, fits, ver, entries[i].artifactsVer, i)
  {
    forall j | 0 <= j < |entries| && fits(entries[j])
      ensures i <= j && !(ver != [] && entries[j].artifactsVer == ver)
    {
      assert entries[j] in entries && Hit(m, entries[j], f, hashes, q);
    }
  }

  // ---- a report without one ----

  /** Whether the entry's image yields the digest with the vCPUs of template number k. */
  ghost function Yielding(h: Hashes, variants: seq<Bytes>, digest: Bytes): (SevEntry, nat) -> bool
  {
    (e: SevEntry, k: nat) => k < 5 && Yields(h, e, COUNTS[k], variants, digest)
  }

  /** Entry i is the first that meets some template, and t is one of those. */
  ghost predicate FirstYield(entries: seq<SevEntry>, meets: (SevEntry, nat) -> bool, i: nat, t: nat)
  {
    && i < |entries| && t < 5 && meets(entries[i], t)
    && forall j, u :: 0 <= j < i && 0 <= u < 5 ==> !meets(entries[j], u)
  }

  ghost predicate NamesYield(entries: seq<SevEntry>, meets: (SevEntry, nat) -> bool, r: WorkloadResult, i: nat, t: nat)
  {
    && FirstYield(entries, meets, i, t)
    && r == WorkloadResult(Authentic, Ascii(NAMES[t]), entries[i].vmType, entries[i].artifactsVer, entries[i].vmType)
  }

  /** Authentic exactly when some entry meets some template, and then for the first such entry and one of those. */
  ghost predicate BruteDecided(entries: seq<SevEntry>, meets: (SevEntry, nat) -> bool, r: WorkloadResult)
  {
    if exists e, t :: e in entries && 0 <= t < 5 && meets(e, t) then exists i, t :: NamesYield(entries, meets, r, i, t)
    else r == WorkloadResult(NotAuthentic, [], [], [], [])
  }

  lemma SomeTemplateIff(h: Hashes, e: SevEntry, t: Bytes, variants: seq<Bytes>, digest: Bytes)
    ensures MatchesTemplate(MeasureOf(h), e, t, ComposeHashes(h, variants), HexEncode(digest))
       <==> exists k :: 0 <= k < 5 && t == Ascii(NAMES[k]) && Yielding(h, variants, digest)(e, k)
  {
    if VcpuCount(t).Some? {
      var n := VcpuCount(t).value;
      TemplateCounts(t, n);
      YieldsIff(h, e, n, variants, digest);
    }
    if k :| 0 <= k < 5 && t == Ascii(NAMES[k]) && Yielding(h, variants, digest)(e, k) {
      Count(k);
      YieldsIff(h, e, COUNTS[k], variants, digest);
    }
  }

  /** A report that names no family: the verdict is authentic exactly when some entry yields the measurement field with
      the vCPUs of some template. */
  lemma BruteVerdict(h: Hashes, entries: seq<SevEntry>, p: Report, variants: seq<Bytes>, r: WorkloadResult)
    requires p.Sized() && forall vm, k :: !NamesFamily(p.family, vm, k)
    requires SevSpec(MeasureOf(h), entries, Some(p.Raw()), ComposeHashes(h, variants), r)
    ensures BruteDecided(entries, Yielding(h, variants, p.measurement), r)
  {
    Fields(p);
    Unnamed(p.family);
    var m, hashes, q := MeasureOf(h), ComposeHashes(h, variants), HexEncode(p.measurement);
    var meets := Yielding(h, variants, p.measurement);
    forall e, t ensures MatchesTemplate(m, e, t, hashes, q)
                   <==> exists k :: 0 <= k < 5 && t == Ascii(NAMES[k]) && meets(e, k) {
      SomeTemplateIff(h, e, t, variants, p.measurement);
    }
    BruteDecides(m, entries, hashes, q, meets, r);
  }

  lemma Unnamed(family: Bytes)
    requires |family| == 16 && forall vm, k :: !NamesFamily(family, vm, k)
    ensures ParseSevFamilyID(family).None?
  {
    if ParseSevFamilyID(family).Some? {
      var f := ParseSevFamilyID(family).value;
      ParsedFamilyText(family, f);
      TemplateCounts(f.templateName, f.vcpus);
      var k :| 0 <= k < 5 && f.templateName == Ascii(NAMES[k]);
      var pad := family[|FamilyText(f)|..];
      TrimmedTail(family);
      assert Ascii("-") == [DASH];
      assert family == f.vmType + Ascii("-") + Ascii(NAMES[k]) + Ascii("-sev") + pad;
      assert NamesFamily(family, f.vmType, k);
    }
  }

  lemma {:induction false} TrimmedTail(s: Bytes)
    ensures forall c :: c in s[|TrimRight(s, FILL)|..] ==> c == 0 || c == '#' as int
  {
    if s != [] && s[|s| - 1] in FILL {
      var before := s[..|s| - 1];
      TrimmedTail(before);
      assert s[|TrimRight(s, FILL)|..] == before[|TrimRight(before, FILL)|..] + [s[|s| - 1]];
    }
  }

  lemma BruteDecides(m: Trial, entries: seq<SevEntry>, hashes: seq<Bytes>, q: Bytes,
                     meets: (SevEntry, nat) -> bool, r: WorkloadResult)
    requires BruteForceSpec(m, entries, hashes, q, r)
    requires forall e, t :: MatchesTemplate(m, e, t, hashes, q) <==>
                              exists k :: 0 <= k < 5 && t == Ascii(NAMES[k]) && meets(e, k)
    ensures BruteDecided(entries, meets, r)
  {
    if e, k :| e in entries && 0 <= k < 5 && meets(e, k) {
      assert MatchesTemplate(m, e, Ascii(NAMES[k]), hashes, q);
      var j :| 0 <= j < |entries| && entries[j] == e;
      assert MatchesSomeTemplate(m, entries[j], hashes, q);
      var i :| FirstMatch(m, entries, hashes, q, i) && MatchesTemplate(m, entries[i], r.templateName, hashes, q)
               && r == WorkloadResult(Authentic, r.templateName, entries[i].vmType, entries[i].artifactsVer,
                                      entries[i].vmType);
      var t :| 0 <= t < 5 && r.templateName == Ascii(NAMES[t]) && meets(entries[i], t);
      forall j, u | 0 <= j < i && 0 <= u < 5 ensures !meets(entries[j], u) {
        assert !MatchesTemplate(m, entries[j], Ascii(NAMES[u]), hashes, q);
      }
      assert NamesYield(entries, meets, r, i, t);
    } else {
      forall j | 0 <= j < |entries| ensures !MatchesSomeTemplate(m, entries[j], hashes, q) {
        assert entries[j] in entries;
      }
    }
  }

  /** A quote that does not decode, or ends inside the measurement field, is not authentic. */
  lemma NoReport(h: Hashes, entries: seq<SevEntry>, quote: Option<Bytes>, variants: seq<Bytes>, r: WorkloadResult)
    requires SevSpec(MeasureOf(h), entries, quote, ComposeHashes(h, variants), r)
    requires quote.None? || |quote.value| < 192
    ensures r == WorkloadResult(NotAuthentic, [], [], [], [])
  {
  }
}
