/** The staged SEV registry search: brute force without a family id, version-first with one.
    As in the Go code the trial of one entry is a closure, here a function of the entry, the
    vCPU count and the compose hash, so the search is proved for every way to measure. */
module SevSearch {
  import opened ByteStrings
  import opened SevDigest
  import opened Workload

  type Trial = (SevEntry, int, Bytes) -> Bytes

  datatype Family = Family(vmType: Bytes, templateName: Bytes, vcpus: nat)

  // ---- family id ----

  /** VcpuMap: the vCPU count of a SecretVM template. */
  function VcpuCount(template: Bytes): (n: Option<nat>)
    ensures n.Some? ==> n.value >= 1
  {
    if template == Ascii("small") then Some(1)
    else if template == Ascii("medium") then Some(2)
    else if template == Ascii("large") then Some(4)
    else if template == Ascii("2xlarge") then Some(8)
    else if template == Ascii("4xlarge") then Some(16)
    else None
  }

  lemma VcpuCountInjective(t: Bytes, t': Bytes)
    requires VcpuCount(t).Some? && VcpuCount(t) == VcpuCount(t')
    ensures t == t'
  {
  }

  const DASH: byte := '-' as int
  const FILL: set<byte> := {0, '#' as int}
  const SUFFIX: string := "-sev"

  function ParseSevFamilyID(familyId: Bytes): Option<Family>
    requires |familyId| >= 16
  {
    var s := TrimRight(familyId[..16], FILL);
    if |s| < 4 || s[|s| - 4..] != Ascii(SUFFIX) then None
    else
      var core := s[..|s| - 4];
      var idx := IndexByte(core, DASH);
      if idx < 0 then None
      else match VcpuCount(core[idx + 1..])
           case None => None
           case Some(n) => Some(Family(core[..idx], core[idx + 1..], n))
  }

  function FamilyText(f: Family): Bytes
  {
    f.vmType + [DASH] + f.templateName + Ascii(SUFFIX)
  }

  lemma FirstDash(vm: Bytes, rest: Bytes)
    requires DASH !in vm
    ensures IndexByte(vm + [DASH] + rest, DASH) == |vm|
  {
    var s := vm + [DASH] + rest;
    var i := IndexByte(s, DASH);
    assert s[|vm|] == DASH && DASH in s;
    assert forall j :: 0 <= j < |vm| ==> s[j] == vm[j];
    assert forall j :: 0 <= j < i ==> s[j] in s[..i];
  }

  lemma FamilyTextParses(id: Bytes, f: Family)
    requires |id| == 16 && TrimRight(id, FILL) == FamilyText(f)
    requires VcpuCount(f.templateName) == Some(f.vcpus) && DASH !in f.vmType
    ensures ParseSevFamilyID(id) == Some(f)
  {
    assert id[..16] == id;
    var s := TrimRight(id, FILL);
    var core := f.vmType + [DASH] + f.templateName;
    assert s[|s| - 4..] == Ascii(SUFFIX) && s[..|s| - 4] == core;
    FirstDash(f.vmType, f.templateName);
    assert core[..|f.vmType|] == f.vmType && core[|f.vmType| + 1..] == f.templateName;
  }

  lemma ParsedFamilyText(id: Bytes, f: Family)
    requires |id| == 16 && ParseSevFamilyID(id) == Some(f)
    ensures VcpuCount(f.templateName) == Some(f.vcpus) && DASH !in f.vmType
    ensures TrimRight(id, FILL) == FamilyText(f)
  {
    assert id[..16] == id;
    var s := TrimRight(id, FILL);
    var core := s[..|s| - 4];
    var idx := IndexByte(core, DASH);
    assert core == core[..idx] + [DASH] + core[idx + 1..];
    assert s == core + s[|s| - 4..];
  }

  /** The parser accepts exactly the padded texts vm-template-sev of a known template and a VM type
      without a dash, and returns their parts. */
  lemma FamilyRoundTrip(id: Bytes, f: Family)
    requires |id| == 16
    ensures ParseSevFamilyID(id) == Some(f)
       <==> && VcpuCount(f.templateName) == Some(f.vcpus) && DASH !in f.vmType
            && TrimRight(id, FILL) == FamilyText(f)
  {
    if ParseSevFamilyID(id) == Some(f) {
      ParsedFamilyText(id, f);
    } else if VcpuCount(f.templateName) == Some(f.vcpus) && DASH !in f.vmType && TrimRight(id, FILL) == FamilyText(f) {
      FamilyTextParses(id, f);
    }
  }

  /** A family text of at most 16 bytes parses back from its padded form. */
  lemma FamilyParses(f: Family, pad: Bytes)
    requires VcpuCount(f.templateName) == Some(f.vcpus) && DASH !in f.vmType
    requires |FamilyText(f)| + |pad| == 16 && forall c :: c in pad ==> c in FILL
    ensures ParseSevFamilyID(FamilyText(f) + pad) == Some(f)
  {
    var t := FamilyText(f);
    assert t[|t| - 1] == Ascii(SUFFIX)[3];
    TrimRightPad(t, pad, FILL);
    FamilyTextParses(t + pad, f);
  }

  // ---- candidates ----

  /** Some compose hash reproduces the quoted measurement. */
  ghost predicate Matches(m: Trial, e: SevEntry, vcpus: int, hashes: seq<Bytes>, quoted: Bytes)
  {
    exists c :: c in hashes && m(e, vcpus, c) == quoted
  }

  ghost predicate MatchesTemplate(m: Trial, e: SevEntry, template: Bytes, hashes: seq<Bytes>, quoted: Bytes)
  {
    VcpuCount(template).Some? && Matches(m, e, VcpuCount(template).value, hashes, quoted)
  }

  ghost predicate MatchesSomeTemplate(m: Trial, e: SevEntry, hashes: seq<Bytes>, quoted: Bytes)
  {
    exists t :: MatchesTemplate(m, e, t, hashes, quoted)
  }

  method TryEntry(m: Trial, e: SevEntry, vcpus: int, hashes: seq<Bytes>, quoted: Bytes) returns (ok: bool)
    ensures ok == Matches(m, e, vcpus, hashes, quoted)
  {
    var i := 0;
    while i < |hashes|
      invariant 0 <= i <= |hashes|
      invariant forall j :: 0 <= j < i ==> m(e, vcpus, hashes[j]) != quoted
    {
      if m(e, vcpus, hashes[i]) == quoted {
        assert hashes[i] in hashes;
        return true;
      }
      i := i + 1;
    }
    ok := false;
  }

  // ---- brute force ----

  /** One traversal of VcpuMap, in the order the runtime happened to choose. */
  ghost predicate IsMapOrder(order: seq<Bytes>)
  {
    forall t :: t in order <==> VcpuCount(t).Some?
  }

  /** What the brute-force search promises whatever the map orders were. */
  ghost predicate BruteForceSpec(m: Trial, entries: seq<SevEntry>, hashes: seq<Bytes>, quoted: Bytes, r: WorkloadResult)
  {
    if exists i :: 0 <= i < |entries| && MatchesSomeTemplate(m, entries[i], hashes, quoted) then
      exists i :: FirstMatch(m, entries, hashes, quoted, i)
               && MatchesTemplate(m, entries[i], r.templateName, hashes, quoted)
               && r == WorkloadResult(Authentic, r.templateName, entries[i].vmType, entries[i].artifactsVer,
                                      entries[i].vmType)
    else r == NOT_AUTHENTIC
  }

  ghost predicate FirstMatch(m: Trial, entries: seq<SevEntry>, hashes: seq<Bytes>, quoted: Bytes, i: int)
  {
    && 0 <= i < |entries| && MatchesSomeTemplate(m, entries[i], hashes, quoted)
    && forall j :: 0 <= j < i ==> !MatchesSomeTemplate(m, entries[j], hashes, quoted)
  }

  method TryTemplates(m: Trial, e: SevEntry, order: seq<Bytes>, hashes: seq<Bytes>,
                      quoted: Bytes) returns (found: Option<Bytes>)
    requires IsMapOrder(order)
    ensures found.Some? ==> MatchesTemplate(m, e, found.value, hashes, quoted)
    ensures found.Some? <==> MatchesSomeTemplate(m, e, hashes, quoted)
  {
    var k := 0;
    while k < |order|
      invariant 0 <= k <= |order|
      invariant forall j :: 0 <= j < k ==> !MatchesTemplate(m, e, order[j], hashes, quoted)
    {
      var ok := TryEntry(m, e, VcpuCount(order[k]).value, hashes, quoted);
      if ok {
        assert MatchesTemplate(m, e, order[k], hashes, quoted);
        return Some(order[k]);
      }
      k := k + 1;
    }
    forall t | VcpuCount(t).Some? ensures !MatchesTemplate(m, e, t, hashes, quoted) {
      assert t in order;
    }
    found := None;
  }

  method BruteForce(m: Trial, entries: seq<SevEntry>, orders: seq<seq<Bytes>>, hashes: seq<Bytes>, quoted: Bytes)
    returns (r: WorkloadResult)
    requires |orders| == |entries| && forall i :: 0 <= i < |orders| ==> IsMapOrder(orders[i])
    ensures BruteForceSpec(m, entries, hashes, quoted, r)
  {
    var i := 0;
    while i < |entries|
      invariant 0 <= i <= |entries|
      invariant forall j :: 0 <= j < i ==> !MatchesSomeTemplate(m, entries[j], hashes, quoted)
    {
      var entry := entries[i];
      var template := TryTemplates(m, entry, orders[i], hashes, quoted);
      if template.Some? {
        assert FirstMatch(m, entries, hashes, quoted, i);
        return WorkloadResult(Authentic, template.value, entry.vmType, entry.artifactsVer, entry.vmType);
      }
      i := i + 1;
    }
    r := NOT_AUTHENTIC;
  }

  // ---- search within a family ----

  ghost predicate Hit(m: Trial, e: SevEntry, f: Family, hashes: seq<Bytes>, quoted: Bytes)
  {
    e.vmType == f.vmType && Matches(m, e, f.vcpus, hashes, quoted)
  }

  predicate IsPinned(e: SevEntry, f: Family, imageId: Bytes)
  {
    e.vmType == f.vmType && imageId != [] && e.artifactsVer == imageId
  }

  /** The first entry of the registry that hits. */
  ghost predicate FirstHit(m: Trial, entries: seq<SevEntry>, f: Family, hashes: seq<Bytes>, quoted: Bytes, i: int)
  {
    && 0 <= i < |entries| && Hit(m, entries[i], f, hashes, quoted)
    && forall j :: 0 <= j < i ==> !Hit(m, entries[j], f, hashes, quoted)
  }

  function AuthenticAs(f: Family, ver: Bytes): WorkloadResult
  {
    WorkloadResult(Authentic, f.templateName, f.vmType, ver, f.vmType)
  }

  /** The flat reading of the staged search: authentic exactly when some entry of the VM type hits, with
      the image's own version when one of its entries hits and else the first hit's version; otherwise a
      mismatch exactly when the image's version is registered for the VM type. */
  ghost predicate FamilySpec(m: Trial, entries: seq<SevEntry>, f: Family, imageId: Bytes, hashes: seq<Bytes>,
                             quoted: Bytes, r: WorkloadResult)
  {
    if exists e :: e in entries && Hit(m, e, f, hashes, quoted) && IsPinned(e, f, imageId) then
      r == AuthenticAs(f, imageId)
    else if exists e :: e in entries && Hit(m, e, f, hashes, quoted) then
      exists i :: FirstHit(m, entries, f, hashes, quoted, i) && r == AuthenticAs(f, entries[i].artifactsVer)
    else if exists e :: e in entries && IsPinned(e, f, imageId) then
      r == WorkloadResult(AuthenticMismatch, f.templateName, f.vmType, imageId, f.vmType)
    else r == NOT_AUTHENTIC
  }

  function OfType(vmType: Bytes): SevEntry -> bool
  {
    (e: SevEntry) => e.vmType == vmType
  }

  method FindByVMType(entries: seq<SevEntry>, vmType: Bytes) returns (matched: seq<SevEntry>)
    ensures matched == Select(entries, OfType(vmType))
  {
    matched := [];
    var i := 0;
    while i < |entries|
      invariant 0 <= i <= |entries|
      invariant matched == Select(entries[..i], OfType(vmType))
    {
      SelectSnoc(entries, i, OfType(vmType));
      if entries[i].vmType == vmType {
        matched := matched + [entries[i]];
      }
      i := i + 1;
    }
    assert entries[..i] == entries;
  }

  method PinnedEntries(candidates: seq<SevEntry>, imageId: Bytes) returns (pinned: seq<SevEntry>)
    ensures forall e :: e in pinned <==> e in candidates && imageId != [] && e.artifactsVer == imageId
  {
    pinned := [];
    if imageId != [] {
      var i := 0;
      while i < |candidates|
        invariant 0 <= i <= |candidates|
        invariant forall e :: e in pinned <==> e in candidates[..i] && e.artifactsVer == imageId
      {
        assert candidates[..i + 1] == candidates[..i] + [candidates[i]];
        if candidates[i].artifactsVer == imageId {
          pinned := pinned + [candidates[i]];
        }
        i := i + 1;
      }
      assert candidates[..i] == candidates;
    }
  }

  method TryPinned(m: Trial, pinned: seq<SevEntry>, f: Family, hashes: seq<Bytes>,
                   quoted: Bytes) returns (ok: bool)
    ensures ok <==> exists e :: e in pinned && Matches(m, e, f.vcpus, hashes, quoted)
  {
    var i := 0;
    while i < |pinned|
      invariant 0 <= i <= |pinned|
      invariant forall j :: 0 <= j < i ==> !Matches(m, pinned[j], f.vcpus, hashes, quoted)
    {
      ok := TryEntry(m, pinned[i], f.vcpus, hashes, quoted);
      if ok {
        assert pinned[i] in pinned;
        return;
      }
      i := i + 1;
    }
    ok := false;
  }

  /** The fallback loop over the candidates outside the image's version. */
  method TryOthers(m: Trial, candidates: seq<SevEntry>, f: Family, imageId: Bytes, hashes: seq<Bytes>, quoted: Bytes)
    returns (found: int)
    requires forall e :: e in candidates && imageId != [] && e.artifactsVer == imageId ==>
               !Matches(m, e, f.vcpus, hashes, quoted)
    ensures -1 <= found < |candidates|
    ensures found == -1 ==> forall e :: e in candidates ==> !Matches(m, e, f.vcpus, hashes, quoted)
    ensures found >= 0 ==> Matches(m, candidates[found], f.vcpus, hashes, quoted)
    ensures found >= 0 ==> forall j :: 0 <= j < found ==> !Matches(m, candidates[j], f.vcpus, hashes, quoted)
  {
    found := 0;
    while found < |candidates|
      invariant 0 <= found <= |candidates|
      invariant forall j :: 0 <= j < found ==> !Matches(m, candidates[j], f.vcpus, hashes, quoted)
    {
      if imageId != [] && candidates[found].artifactsVer == imageId {
        assert candidates[found] in candidates;
      } else {
        var ok := TryEntry(m, candidates[found], f.vcpus, hashes, quoted);
        if ok {
          return;
        }
      }
      found := found + 1;
    }
    found := -1;
  }

  /** The first match among the selected entries is the first hit of the registry. */
  lemma {:induction false} FirstSelected(m: Trial, entries: seq<SevEntry>, f: Family, hashes: seq<Bytes>,
                                         quoted: Bytes, k: nat)
    returns (i: nat)
    requires k < |Select(entries, OfType(f.vmType))|
    requires FirstTrial(m, Select(entries, OfType(f.vmType)), f.vcpus, hashes, quoted, k)
    ensures FirstHit(m, entries, f, hashes, quoted, i)
    ensures entries[i] == Select(entries, OfType(f.vmType))[k]
  {
    var before := entries[..|entries| - 1];
    var all, c := Select(entries, OfType(f.vmType)), Select(before, OfType(f.vmType));
    assert forall j :: 0 <= j < |c| ==> all[j] == c[j];
    SelectMembers(before, OfType(f.vmType));
    if k < |c| {
      i := FirstSelected(m, before, f, hashes, quoted, k);
      assert forall j :: 0 <= j < |before| ==> entries[j] == before[j];
    } else {
      i := |entries| - 1;
      forall j | 0 <= j < i ensures !Hit(m, entries[j], f, hashes, quoted) {
        if entries[j].vmType == f.vmType {
          assert entries[j] == before[j] && before[j] in c;
          var x :| 0 <= x < |c| && c[x] == before[j];
          assert !Matches(m, all[x], f.vcpus, hashes, quoted);
        }
      }
    }
  }

  ghost predicate FirstTrial(m: Trial, c: seq<SevEntry>, vcpus: nat, hashes: seq<Bytes>, quoted: Bytes, k: nat)
    requires k < |c|
  {
    Matches(m, c[k], vcpus, hashes, quoted) && forall j :: 0 <= j < k ==> !Matches(m, c[j], vcpus, hashes, quoted)
  }

  method SearchFamily(m: Trial, entries: seq<SevEntry>, f: Family, imageId: Bytes, hashes: seq<Bytes>,
                      quoted: Bytes) returns (r: WorkloadResult)
    ensures FamilySpec(m, entries, f, imageId, hashes, quoted, r)
  {
    var candidates := FindByVMType(entries, f.vmType);
    SelectMembers(entries, OfType(f.vmType));
    var pinned := PinnedEntries(candidates, imageId);
    assert forall e :: e in pinned <==> e in entries && IsPinned(e, f, imageId);
    var ok := TryPinned(m, pinned, f, hashes, quoted);
    if ok {
      return AuthenticAs(f, imageId);
    }
    var found := TryOthers(m, candidates, f, imageId, hashes, quoted);
    if found >= 0 {
      ghost var i := FirstSelected(m, entries, f, hashes, quoted, found);
      assert entries[i] in entries;
      return AuthenticAs(f, candidates[found].artifactsVer);
    }
    if |pinned| > 0 {
      assert pinned[0] in pinned;
      return WorkloadResult(AuthenticMismatch, f.templateName, f.vmType, imageId, f.vmType);
    }
    r := NOT_AUTHENTIC;
  }

  /** When every entry matches one template at most, the brute-force result is unique. */
  lemma BruteForceUnique(m: Trial, entries: seq<SevEntry>, hashes: seq<Bytes>, quoted: Bytes, r: WorkloadResult,
                         r': WorkloadResult)
    requires forall e, t, t' :: (e in entries && MatchesTemplate(m, e, t, hashes, quoted)
                                 && MatchesTemplate(m, e, t', hashes, quoted)) ==> t == t'
    requires BruteForceSpec(m, entries, hashes, quoted, r) && BruteForceSpec(m, entries, hashes, quoted, r')
    ensures r == r'
  {
    if exists i :: 0 <= i < |entries| && MatchesSomeTemplate(m, entries[i], hashes, quoted) {
      var i :| FirstMatch(m, entries, hashes, quoted, i)
               && MatchesTemplate(m, entries[i], r.templateName, hashes, quoted)
               && r == WorkloadResult(Authentic, r.templateName, entries[i].vmType, entries[i].artifactsVer,
                                      entries[i].vmType);
      var j :| FirstMatch(m, entries, hashes, quoted, j)
               && MatchesTemplate(m, entries[j], r'.templateName, hashes, quoted)
               && r' == WorkloadResult(Authentic, r'.templateName, entries[j].vmType, entries[j].artifactsVer,
                                       entries[j].vmType);
      assert i == j && entries[i] in entries;
    }
  }

  /** A registered entry, a known template and a compose hash that reproduce the quote. */
  ghost predicate Reproduces(m: Trial, entries: seq<SevEntry>, hashes: seq<Bytes>, quoted: Bytes,
                             e: SevEntry, template: Bytes, c: Bytes)
  {
    && e in entries && c in hashes && VcpuCount(template).Some?
    && m(e, VcpuCount(template).value, c) == quoted
  }

  lemma BruteForceIffReproduced(m: Trial, entries: seq<SevEntry>, hashes: seq<Bytes>, quoted: Bytes, r: WorkloadResult)
    requires BruteForceSpec(m, entries, hashes, quoted, r)
    ensures r.status.Authentic? <==> exists e, t, c :: Reproduces(m, entries, hashes, quoted, e, t, c)
  {
    if r.status.Authentic? {
      var i :| 0 <= i < |entries| && MatchesSomeTemplate(m, entries[i], hashes, quoted);
      var t :| MatchesTemplate(m, entries[i], t, hashes, quoted);
      var c :| c in hashes && m(entries[i], VcpuCount(t).value, c) == quoted;
      assert Reproduces(m, entries, hashes, quoted, entries[i], t, c);
    }
    if e, t, c :| Reproduces(m, entries, hashes, quoted, e, t, c) {
      var i :| 0 <= i < |entries| && entries[i] == e;
      assert MatchesTemplate(m, entries[i], t, hashes, quoted);
    }
  }

  lemma FamilyIffReproduced(m: Trial, entries: seq<SevEntry>, f: Family, imageId: Bytes, hashes: seq<Bytes>,
                            quoted: Bytes, r: WorkloadResult)
    requires VcpuCount(f.templateName) == Some(f.vcpus)
    requires FamilySpec(m, entries, f, imageId, hashes, quoted, r)
    ensures r.status.Authentic? <==>
            exists e: SevEntry, c ::
              e.vmType == f.vmType && Reproduces(m, entries, hashes, quoted, e, f.templateName, c)
    ensures r.status.AuthenticMismatch? <==> !r.status.Authentic? && exists e :: e in entries && IsPinned(e, f, imageId)
  {
    if r.status.Authentic? {
      var e :| e in entries && Hit(m, e, f, hashes, quoted);
      var c :| c in hashes && m(e, f.vcpus, c) == quoted;
      assert Reproduces(m, entries, hashes, quoted, e, f.templateName, c);
    }
    if e: SevEntry, c :| e.vmType == f.vmType && Reproduces(m, entries, hashes, quoted, e, f.templateName, c) {
      assert Hit(m, e, f, hashes, quoted);
    }
  }
}
