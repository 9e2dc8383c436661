/** What a launch digest binds: two runs with the same digest measured the same pages, or
    two inputs that these runs hashed collide. */
module SevBinding {
  import opened ByteStrings
  import opened Hashing
  import opened SevLayout
  import opened SevDigest

  // ---- the inputs a run hashes with SHA-384 ----

  function InfoOf(sha384: Sha384, ld: Bytes, r: PageRecord): Bytes
  {
    PageInfo(ld, r.Contents(sha384), r.ptype, r.gpa)
  }

  function PageOf(r: PageRecord): set<Bytes>
  {
    if r.page.Some? then {r.page.value} else {}
  }

  /** Every PAGE_INFO and every page content of the fold. */
  function Hashed(sha384: Sha384, ld: Bytes, rs: seq<PageRecord>): set<Bytes>
  {
    if rs == [] then {}
    else
      var before := rs[..|rs| - 1];
      Hashed(sha384, ld, before) + {InfoOf(sha384, Fold(sha384, ld, before), rs[|rs| - 1])} + PageOf(rs[|rs| - 1])
  }

  ghost predicate Collides(sha384: Sha384, ld: Bytes, rs: seq<PageRecord>, ld': Bytes, rs': seq<PageRecord>)
  {
    CollisionBetween(sha384, Hashed(sha384, ld, rs), Hashed(sha384, ld', rs'))
  }

  // ---- unwinding ----

  /** One page update back: equal results come from the same record and the same running digest. */
  lemma StepBinds(sha384: Sha384, ld: Bytes, r: PageRecord, ld': Bytes, r': PageRecord)
    requires r.WellFormed() && r'.WellFormed()
    requires Step(sha384, ld, r) == Step(sha384, ld', r')
    ensures || CollisionBetween(sha384, {InfoOf(sha384, ld, r)} + PageOf(r), {InfoOf(sha384, ld', r')} + PageOf(r'))
            || (r == r' && Pad(ld, 48) == Pad(ld', 48))
  {
    var c, c' := r.Contents(sha384), r'.Contents(sha384);
    if InfoOf(sha384, ld, r) == InfoOf(sha384, ld', r') {
      PageInfoInjective(ld, c, r.ptype, r.gpa, ld', c', r'.ptype, r'.gpa);
      assert c == c';
      if r.page.Some? && r.page != r'.page {
        assert sha384(r.page.value) == sha384(r'.page.value);
      }
    }
  }

  ghost predicate AllWellFormed(rs: seq<PageRecord>)
  {
    forall r :: r in rs ==> r.WellFormed()
  }

  /** Unwinding the last update of both runs. */
  lemma LastBinds(sha384: Sha384, ld: Bytes, rs: seq<PageRecord>, ld': Bytes, rs': seq<PageRecord>)
    requires rs != [] && rs' != []
    requires rs[|rs| - 1].WellFormed() && rs'[|rs'| - 1].WellFormed()
    requires SameDigest48(Fold(sha384, ld, rs), Fold(sha384, ld', rs'))
    ensures || Collides(sha384, ld, rs, ld', rs')
            || (&& rs[|rs| - 1] == rs'[|rs'| - 1]
                && SameDigest48(Fold(sha384, ld, rs[..|rs| - 1]), Fold(sha384, ld', rs'[..|rs'| - 1])))
  {
    var r, r' := rs[|rs| - 1], rs'[|rs'| - 1];
    var d, d' := Fold(sha384, ld, rs[..|rs| - 1]), Fold(sha384, ld', rs'[..|rs'| - 1]);
    StepBinds(sha384, d, r, d', r');
    CollisionMonotone(sha384, {InfoOf(sha384, d, r)} + PageOf(r), {InfoOf(sha384, d', r')} + PageOf(r'),
                      Hashed(sha384, ld, rs), Hashed(sha384, ld', rs'));
  }

  lemma PrefixCollides(sha384: Sha384, ld: Bytes, rs: seq<PageRecord>, ld': Bytes, rs': seq<PageRecord>)
    requires rs != [] && rs' != []
    requires Collides(sha384, ld, rs[..|rs| - 1], ld', rs'[..|rs'| - 1])
    ensures Collides(sha384, ld, rs, ld', rs')
  {
    CollisionMonotone(sha384, Hashed(sha384, ld, rs[..|rs| - 1]), Hashed(sha384, ld', rs'[..|rs'| - 1]),
                      Hashed(sha384, ld, rs), Hashed(sha384, ld', rs'));
  }

  function FromEnd(rs: seq<PageRecord>, j: nat): PageRecord
    requires 1 <= j <= |rs|
  {
    rs[|rs| - j]
  }

  ghost predicate SameTail(rs: seq<PageRecord>, rs': seq<PageRecord>, k: nat)
    requires k <= |rs| && k <= |rs'|
  {
    forall j :: 1 <= j <= k ==> FromEnd(rs, j) == FromEnd(rs', j)
  }

  lemma SameTailStep(rs: seq<PageRecord>, rs': seq<PageRecord>, k: nat)
    requires 1 <= k <= |rs| && k <= |rs'|
    requires rs[|rs| - 1] == rs'[|rs'| - 1]
    requires SameTail(rs[..|rs| - 1], rs'[..|rs'| - 1], k - 1)
    ensures SameTail(rs, rs', k)
  {
    forall j | 1 <= j <= k ensures FromEnd(rs, j) == FromEnd(rs', j) {
      if j > 1 { assert FromEnd(rs[..|rs| - 1], j - 1) == FromEnd(rs'[..|rs'| - 1], j - 1); }
    }
  }

  /** Two running digests that PAGE_INFO cannot tell apart. */
  ghost predicate SameDigest48(d: Bytes, d': Bytes)
  {
    Pad(d, 48) == Pad(d', 48)
  }

  /** The last k records of both runs agree, and so do the digests before them. */
  ghost predicate Unwound(sha384: Sha384, ld: Bytes, rs: seq<PageRecord>, ld': Bytes, rs': seq<PageRecord>, k: nat)
    requires k <= |rs| && k <= |rs'|
  {
    SameTail(rs, rs', k) && SameDigest48(Fold(sha384, ld, rs[..|rs| - k]), Fold(sha384, ld', rs'[..|rs'| - k]))
  }

  lemma DropTwice(rs: seq<PageRecord>, k: nat)
    requires 1 <= k <= |rs|
    ensures |rs[..|rs| - 1]| - (k - 1) == |rs| - k && rs[..|rs| - 1][..|rs| - k] == rs[..|rs| - k]
  {
  }

  lemma UnwoundNone(sha384: Sha384, ld: Bytes, rs: seq<PageRecord>, ld': Bytes, rs': seq<PageRecord>)
    requires SameDigest48(Fold(sha384, ld, rs), Fold(sha384, ld', rs'))
    ensures Unwound(sha384, ld, rs, ld', rs', 0)
  {
    assert rs[..|rs|] == rs && rs'[..|rs'|] == rs';
  }

  lemma UnwoundStep(sha384: Sha384, ld: Bytes, rs: seq<PageRecord>, ld': Bytes, rs': seq<PageRecord>, k: nat)
    requires 1 <= k <= |rs| && k <= |rs'| && rs[|rs| - 1] == rs'[|rs'| - 1]
    requires Unwound(sha384, ld, rs[..|rs| - 1], ld', rs'[..|rs'| - 1], k - 1)
    ensures Unwound(sha384, ld, rs, ld', rs', k)
  {
    SameTailStep(rs, rs', k);
    DropTwice(rs, k);
    DropTwice(rs', k);
  }

  lemma InitWellFormed(rs: seq<PageRecord>)
    requires rs != [] && AllWellFormed(rs)
    ensures rs[|rs| - 1].WellFormed() && AllWellFormed(rs[..|rs| - 1])
  {
  }

  /** Equal digests unwind k updates. */
  lemma {:induction false} FoldBinds(sha384: Sha384, ld: Bytes, rs: seq<PageRecord>,
                                     ld': Bytes, rs': seq<PageRecord>, k: nat)
    requires k <= |rs| && k <= |rs'|
    requires AllWellFormed(rs) && AllWellFormed(rs')
    requires SameDigest48(Fold(sha384, ld, rs), Fold(sha384, ld', rs'))
    ensures Collides(sha384, ld, rs, ld', rs') || Unwound(sha384, ld, rs, ld', rs', k)
    decreases k
  {
    if k == 0 {
      UnwoundNone(sha384, ld, rs, ld', rs');
    } else {
      InitWellFormed(rs);
      InitWellFormed(rs');
      LastBinds(sha384, ld, rs, ld', rs');
      if !Collides(sha384, ld, rs, ld', rs') {
        FoldBinds(sha384, ld, rs[..|rs| - 1], ld', rs'[..|rs'| - 1], k - 1);
        if Collides(sha384, ld, rs[..|rs| - 1], ld', rs'[..|rs'| - 1]) {
          PrefixCollides(sha384, ld, rs, ld', rs');
        } else {
          UnwoundStep(sha384, ld, rs, ld', rs', k);
        }
      }
    }
  }

  // ---- the vCPU count ----

  ghost predicate DigestCollision(h: Hashes, e: SevEntry, n: int, c: Bytes, n': int, c': Bytes)
  {
    Collides(h.sha384, HexDecode(e.ovmfHash), Records(h, e, n, c), HexDecode(e.ovmfHash), Records(h, e, n', c'))
  }

  lemma SameDigest(h: Hashes, e: SevEntry, n: int, c: Bytes, n': int, c': Bytes)
    requires Measurement(h, e, n, c) == Measurement(h, e, n', c')
    ensures LaunchDigest(h, e, n, c) == LaunchDigest(h, e, n', c')
  {
    HexInjective(LaunchDigest(h, e, n, c), LaunchDigest(h, e, n', c'));
  }

  /** The number of page records of a section does not depend on the command line. */
  lemma {:induction false} SectionCountFixed(ss: seq<SevSection>, p: Bytes, p': Bytes)
    requires |p| == |p'|
    ensures |AllSectionPages(ss, p)| == |AllSectionPages(ss, p')|
  {
    if ss != [] {
      SectionCountFixed(ss[..|ss| - 1], p, p');
    }
  }

  /** Equal measurements of one entry agree on any common tail of page records. */
  lemma MeasurementTail(h: Hashes, e: SevEntry, n: int, c: Bytes, n': int, c': Bytes, k: nat)
    requires k <= |Records(h, e, n, c)| && k <= |Records(h, e, n', c')|
    requires Measurement(h, e, n, c) == Measurement(h, e, n', c')
    ensures DigestCollision(h, e, n, c, n', c') || SameTail(Records(h, e, n, c), Records(h, e, n', c'), k)
  {
    SameDigest(h, e, n, c, n', c');
    RecordsWellFormed(h, e, n, c);
    RecordsWellFormed(h, e, n', c');
    FoldBinds(h.sha384, HexDecode(e.ovmfHash), Records(h, e, n, c), HexDecode(e.ovmfHash), Records(h, e, n', c'), k);
  }

  /** Counted from the end, the first n records are the VMSA pages, the BSP's last. */
  lemma VmsaTail(h: Hashes, e: SevEntry, n: nat, c: Bytes, j: nat)
    requires 1 <= j <= n
    ensures var rs := Records(h, e, n, c); j <= |rs| && FromEnd(rs, j) == VmsaRecord(e.resetEip, n - j)
  {
    var vs := VmsaPages(e.resetEip, n);
    assert vs[n - j] == VmsaRecord(e.resetEip, n - j);
  }

  lemma VmsaRecordsDiffer(resetEip: u32, i: nat)
    requires i >= 1 && resetEip != BSP_EIP
    ensures VmsaRecord(resetEip, 0) != VmsaRecord(resetEip, i)
  {
    if VmsaRecord(resetEip, 0) == VmsaRecord(resetEip, i) {
      VmsaPageInjective(BSP_EIP, resetEip, VCPU_SIG_EPYC, GUEST_FEATURES);
    }
  }

  /** With different reset vectors a larger vCPU count shows at the BSP's record. */
  lemma FewerVcpusByEip(h: Hashes, e: SevEntry, n: nat, c: Bytes, n': nat, c': Bytes)
    requires 1 <= n < n' && e.resetEip != BSP_EIP
    requires Measurement(h, e, n, c) == Measurement(h, e, n', c')
    ensures DigestCollision(h, e, n, c, n', c')
  {
    var rs, rs' := Records(h, e, n, c), Records(h, e, n', c');
    MeasurementTail(h, e, n, c, n', c', n);
    VmsaTail(h, e, n, c, n);
    VmsaTail(h, e, n', c', n);
    if SameTail(rs, rs', n) {
      assert FromEnd(rs, n) == FromEnd(rs', n);
      VmsaRecordsDiffer(e.resetEip, n' - n);
    }
  }

  lemma LastSectionRecord(h: Hashes, e: SevEntry, n: nat, c: Bytes)
    requires SectionRecords(h, e, c) != []
    ensures n + 1 <= |Records(h, e, n, c)| && FromEnd(Records(h, e, n, c), n + 1).ptype != 2
  {
    var s := SectionRecords(h, e, c);
    RecordsWellFormed(h, e, n, c);
    assert s[|s| - 1] in s;
  }

  /** With a measured section it shows at the last section's record. */
  lemma FewerVcpusBySection(h: Hashes, e: SevEntry, n: nat, c: Bytes, n': nat, c': Bytes)
    requires n < n' && SectionRecords(h, e, c) != []
    requires Measurement(h, e, n, c) == Measurement(h, e, n', c')
    ensures DigestCollision(h, e, n, c, n', c')
  {
    var rs, rs' := Records(h, e, n, c), Records(h, e, n', c');
    LastSectionRecord(h, e, n, c);
    VmsaTail(h, e, n', c', n + 1);
    MeasurementTail(h, e, n, c, n', c', n + 1);
    if SameTail(rs, rs', n + 1) {
      assert FromEnd(rs, n + 1) == FromEnd(rs', n + 1);
    }
  }

  lemma FewerVcpusBind(h: Hashes, e: SevEntry, n: nat, c: Bytes, n': nat, c': Bytes)
    requires n < n'
    requires (n >= 1 && e.resetEip != BSP_EIP) || SectionRecords(h, e, c) != []
    requires Measurement(h, e, n, c) == Measurement(h, e, n', c')
    ensures DigestCollision(h, e, n, c, n', c')
  {
    if n >= 1 && e.resetEip != BSP_EIP {
      FewerVcpusByEip(h, e, n, c, n', c');
    } else {
      FewerVcpusBySection(h, e, n, c, n', c');
    }
  }

  lemma CollisionSymmetric<D>(h: Bytes -> D, a: set<Bytes>, b: set<Bytes>)
    ensures CollisionBetween(h, a, b) ==> CollisionBetween(h, b, a)
  {
    if CollisionBetween(h, a, b) {
      var x, y :| x in a && y in b && x != y && h(x) == h(y);
      assert y in b && x in a && y != x && h(y) == h(x);
    }
  }

  /** Two vCPU counts of at least one with the same measurement are equal, whatever the
      command lines, or the two runs exhibit a SHA-384 collision. */
  lemma VcpuCountBound(h: Hashes, e: SevEntry, n: int, c: Bytes, n': int, c': Bytes)
    requires n >= 1 && n' >= 1
    requires e.resetEip != BSP_EIP || MeasuresAPage(e.sections)
    requires Measurement(h, e, n, c) == Measurement(h, e, n', c')
    ensures n == n' || DigestCollision(h, e, n, c, n', c')
  {
    MeasuresAPageIff(e.sections, EntryHashesPage(h, e, c));
    MeasuresAPageIff(e.sections, EntryHashesPage(h, e, c'));
    if n < n' {
      FewerVcpusBind(h, e, n, c, n', c');
    } else if n' < n {
      FewerVcpusBind(h, e, n', c', n, c);
      var ld := HexDecode(e.ovmfHash);
      CollisionSymmetric(h.sha384, Hashed(h.sha384, ld, Records(h, e, n', c')),
                         Hashed(h.sha384, ld, Records(h, e, n, c)));
    }
  }

  /** Some page is measured before the vCPUs: a secrets, CPUID or kernel-hashes page, or a zero region. */
  predicate MeasuresAPage(ss: seq<SevSection>)
  {
    exists i :: 0 <= i < |ss| && MeasuredSection(ss[i])
  }

  predicate MeasuredSection(s: SevSection)
  {
    s.kind == 2 || s.kind == 3 || s.kind == 0x10 || ((s.kind == 1 || s.kind == 4) && s.size > 0)
  }

  lemma MeasuredSectionPages(s: SevSection, p: Bytes)
    requires |p| == PAGE
    ensures SectionPages(s, p) != [] <==> MeasuredSection(s)
  {
    PageCountBound(s.size, 0);
    PageCountBound(PAGE, 0);
  }

  lemma {:induction false} MeasuresAPageIff(ss: seq<SevSection>, p: Bytes)
    requires |p| == PAGE
    ensures AllSectionPages(ss, p) != [] <==> MeasuresAPage(ss)
  {
    if ss != [] {
      var before, last := ss[..|ss| - 1], ss[|ss| - 1];
      MeasuresAPageIff(before, p);
      MeasuredSectionPages(last, p);
      assert MeasuresAPage(ss) <==> MeasuresAPage(before) || MeasuredSection(last) by {
        assert forall i :: 0 <= i < |before| ==> ss[i] == before[i];
      }
    }
  }

  /** The digest chain of the vCPUs comes back to the OVMF digest after m of them. */
  ghost predicate ReturnsAfter(h: Hashes, e: SevEntry, m: nat)
  {
    m >= 1 && SameDigest48(HexDecode(e.ovmfHash), LaunchDigest(h, e, m, []))
  }

  lemma NoPagesRecords(h: Hashes, e: SevEntry, n: int, c: Bytes)
    requires !MeasuresAPage(e.sections)
    ensures Records(h, e, n, c) == VmsaPages(e.resetEip, n)
  {
    MeasuresAPageIff(e.sections, EntryHashesPage(h, e, c));
    assert SectionRecords(h, e, c) == [];
    assert [] + VmsaPages(e.resetEip, n) == VmsaPages(e.resetEip, n);
  }

  lemma VmsaPagesFormed(eip: u32, n: nat)
    ensures AllWellFormed(VmsaPages(eip, n))
  {
  }

  lemma VmsaPrefix(eip: u32, n: nat, m: nat)
    requires m <= n
    ensures VmsaPages(eip, n)[..m] == VmsaPages(eip, m)
  {
  }

  /** Unwinding the whole shorter run. */
  lemma FoldReturn(sha384: Sha384, ld: Bytes, rs: seq<PageRecord>, rs': seq<PageRecord>)
    requires |rs| <= |rs'| && AllWellFormed(rs) && AllWellFormed(rs')
    requires Fold(sha384, ld, rs) == Fold(sha384, ld, rs')
    ensures Collides(sha384, ld, rs, ld, rs') || SameDigest48(ld, Fold(sha384, ld, rs'[..|rs'| - |rs|]))
  {
    FoldBinds(sha384, ld, rs, ld, rs', |rs|);
    assert rs[..|rs| - |rs|] == [];
  }

  lemma VmsaReturn(sha384: Sha384, ld: Bytes, eip: u32, n: nat, n': nat)
    requires n <= n' && Fold(sha384, ld, VmsaPages(eip, n)) == Fold(sha384, ld, VmsaPages(eip, n'))
    ensures || Collides(sha384, ld, VmsaPages(eip, n), ld, VmsaPages(eip, n'))
            || SameDigest48(ld, Fold(sha384, ld, VmsaPages(eip, n' - n)))
  {
    VmsaPagesFormed(eip, n);
    VmsaPagesFormed(eip, n');
    FoldReturn(sha384, ld, VmsaPages(eip, n), VmsaPages(eip, n'));
    VmsaPrefix(eip, n', n' - n);
  }

  /** Where nothing tells the counts apart they can only repeat through such a return. */
  lemma RepeatsOnlyByReturn(h: Hashes, e: SevEntry, n: nat, c: Bytes, n': nat, c': Bytes)
    requires n < n' && !MeasuresAPage(e.sections)
    requires Measurement(h, e, n, c) == Measurement(h, e, n', c')
    ensures DigestCollision(h, e, n, c, n', c') || ReturnsAfter(h, e, n' - n)
  {
    NoPagesRecords(h, e, n, c);
    NoPagesRecords(h, e, n', c');
    NoPagesRecords(h, e, n' - n, []);
    SameDigest(h, e, n, c, n', c');
    VmsaReturn(h.sha384, HexDecode(e.ovmfHash), e.resetEip, n, n');
  }

  // ---- the kernel command line ----

  predicate HasHashesSection(e: SevEntry)
  {
    exists i :: 0 <= i < |e.sections| && e.sections[i].kind == 0x10
  }

  lemma {:induction false} HashesPageMeasured(ss: seq<SevSection>, p: Bytes, p': Bytes, i: nat)
    requires |p| == |p'| == PAGE
    requires i < |ss| && ss[i].kind == 0x10
    requires AllSectionPages(ss, p) == AllSectionPages(ss, p')
    ensures p == p'
  {
    var before, s := ss[..|ss| - 1], ss[|ss| - 1];
    var a, a' := AllSectionPages(before, p), AllSectionPages(before, p');
    SectionCountFixed(before, p, p');
    assert AllSectionPages(ss, p)[..|a|] == a && AllSectionPages(ss, p')[..|a|] == a';
    if i == |ss| - 1 {
      var q, q' := SectionPages(s, p), SectionPages(s, p');
      assert AllSectionPages(ss, p)[|a|..] == q && AllSectionPages(ss, p')[|a|..] == q';
      assert q[0] == NormalPage(s.gpa, p, 0) && q'[0] == NormalPage(s.gpa, p', 0);
      assert Chunk(p, 0) == p && Chunk(p', 0) == p';
    } else {
      HashesPageMeasured(before, p, p', i);
    }
  }

  lemma SameTailAll(rs: seq<PageRecord>, rs': seq<PageRecord>)
    requires |rs| == |rs'| && SameTail(rs, rs', |rs|)
    ensures rs == rs'
  {
    forall i | 0 <= i < |rs| ensures rs[i] == rs'[i] {
      assert FromEnd(rs, |rs| - i) == FromEnd(rs', |rs| - i);
    }
  }

  ghost predicate CmdlineCollision(h: Hashes, c: Bytes, c': Bytes)
  {
    CollisionBetween(h.sha256, {CmdlineBytes(c)}, {CmdlineBytes(c')})
  }

  /** The measurement binds the vCPU count and the kernel-hashes page together. */
  lemma PageBound(h: Hashes, e: SevEntry, n: int, c: Bytes, n': int, c': Bytes)
    requires n >= 1 && n' >= 1 && HasHashesSection(e)
    requires Measurement(h, e, n, c) == Measurement(h, e, n', c')
    ensures (n == n' && EntryHashesPage(h, e, c) == EntryHashesPage(h, e, c')) || DigestCollision(h, e, n, c, n', c')
  {
    var i :| 0 <= i < |e.sections| && e.sections[i].kind == 0x10;
    var p, p' := EntryHashesPage(h, e, c), EntryHashesPage(h, e, c');
    assert MeasuredSection(e.sections[i]);
    VcpuCountBound(h, e, n, c, n', c');
    if n == n' && !DigestCollision(h, e, n, c, n', c') {
      var rs, rs' := Records(h, e, n, c), Records(h, e, n', c');
      SectionCountFixed(e.sections, p, p');
      MeasurementTail(h, e, n, c, n', c', |rs|);
      SameTailAll(rs, rs');
      var s, s' := SectionRecords(h, e, c), SectionRecords(h, e, c');
      assert s == rs[..|s|] && s' == rs'[..|s|];
      HashesPageMeasured(e.sections, p, p', i);
    }
  }

  /** What the measurement shows of the command line of an entry with a kernel-hashes section, wherever the table
      starts: exactly the bytes of its hash that lie inside the page, and the vCPU count, up to a collision. */
  lemma CmdlineShown(h: Hashes, e: SevEntry, n: int, c: Bytes, n': int, c': Bytes)
    requires n >= 1 && n' >= 1 && HasHashesSection(e)
    ensures var m := ShownBytes(TableOffset(e));
            var same := n == n' && h.sha256(CmdlineBytes(c))[..m] == h.sha256(CmdlineBytes(c'))[..m];
            && (same ==> Measurement(h, e, n, c) == Measurement(h, e, n', c'))
            && (Measurement(h, e, n, c) == Measurement(h, e, n', c') ==> same || DigestCollision(h, e, n, c, n', c'))
  {
    HashesPageShows(h.sha256(CmdlineBytes(c)), h.sha256(CmdlineBytes(c')), InitrdHash(h, e.initrdHash),
                    HexDecode(e.kernelHash), TableOffset(e));
    if Measurement(h, e, n, c) == Measurement(h, e, n', c') {
      PageBound(h, e, n, c, n', c');
    }
  }

  /** For a fixed entry the measurement binds the vCPU count and the kernel command line together. */
  lemma MeasurementBinds(h: Hashes, e: SevEntry, n: int, c: Bytes, n': int, c': Bytes)
    requires n >= 1 && n' >= 1
    requires HasHashesSection(e) && TableOffset(e) + 68 <= PAGE
    requires Measurement(h, e, n, c) == Measurement(h, e, n', c')
    ensures (n == n' && c == c') || DigestCollision(h, e, n, c, n', c') || CmdlineCollision(h, c, c')
  {
    CmdlineShown(h, e, n, c, n', c');
    var d, d' := h.sha256(CmdlineBytes(c)), h.sha256(CmdlineBytes(c'));
    assert d[..32] == d && d'[..32] == d';
    if c != c' {
      assert CmdlineBytes(c)[..|c|] == c && CmdlineBytes(c')[..|c'|] == c';
      assert CmdlineBytes(c) in {CmdlineBytes(c)} && CmdlineBytes(c') in {CmdlineBytes(c')};
    }
  }

  lemma {:induction false} PagesWithoutHashes(ss: seq<SevSection>, p: Bytes, p': Bytes)
    requires forall i :: 0 <= i < |ss| ==> ss[i].kind != 0x10
    ensures AllSectionPages(ss, p) == AllSectionPages(ss, p')
  {
    if ss != [] {
      PagesWithoutHashes(ss[..|ss| - 1], p, p');
    }
  }

  lemma SameSectionsSameMeasurement(h: Hashes, e: SevEntry, n: int, c: Bytes, c': Bytes)
    requires SectionRecords(h, e, c) == SectionRecords(h, e, c')
    ensures Measurement(h, e, n, c) == Measurement(h, e, n, c')
  {
  }

  lemma PageUnshown(h: Hashes, e: SevEntry, c: Bytes, c': Bytes)
    requires TableOffset(e) + 36 >= PAGE
    ensures EntryHashesPage(h, e, c) == EntryHashesPage(h, e, c')
  {
    HashesPageShows(h.sha256(CmdlineBytes(c)), h.sha256(CmdlineBytes(c')), InitrdHash(h, e.initrdHash),
                    HexDecode(e.kernelHash), TableOffset(e));
  }

  /** Without a kernel-hashes section, or with one whose page ends before the hash of the command line, the
      measurement does not depend on the command line at all. */
  lemma CmdlineUnmeasured(h: Hashes, e: SevEntry, n: int, c: Bytes, c': Bytes)
    requires !HasHashesSection(e) || TableOffset(e) + 36 >= PAGE
    ensures Measurement(h, e, n, c) == Measurement(h, e, n, c')
  {
    if HasHashesSection(e) {
      PageUnshown(h, e, c, c');
    } else {
      PagesWithoutHashes(e.sections, EntryHashesPage(h, e, c), EntryHashesPage(h, e, c'));
    }
    SameSectionsSameMeasurement(h, e, n, c, c');
  }

  // ---- the compose file ----

  function CmdlinePrefix(e: SevEntry): Bytes
  {
    var fixed := Ascii("console=ttyS0 loglevel=7");
    if e.cmdlineExtra != [] then fixed + Ascii(" ") + e.cmdlineExtra else fixed
  }

  /** The kernel command line the verifier rebuilds for one registry entry and one compose hash. */
  function BuildCmdline(e: SevEntry, composeHash: Bytes): Bytes
  {
    var prefix := CmdlinePrefix(e);
    prefix + Ascii(" docker_compose_hash=") + composeHash + Ascii(" rootfs_hash=") + e.rootfsHash
  }

  function ComposeCmdline(h: Hashes, e: SevEntry, compose: Bytes): Bytes
  {
    BuildCmdline(e, HexEncode(h.sha256(compose)))
  }

  lemma BuildCmdlineInjective(e: SevEntry, a: Bytes, b: Bytes)
    requires |a| == |b| && BuildCmdline(e, a) == BuildCmdline(e, b)
    ensures a == b
  {
    var prefix := CmdlinePrefix(e);
    var lead := prefix + Ascii(" docker_compose_hash=");
    assert BuildCmdline(e, a)[|lead|..|lead| + |a|] == a;
    assert BuildCmdline(e, b)[|lead|..|lead| + |b|] == b;
  }

  function ComposeMeasurement(h: Hashes, e: SevEntry, n: int, compose: Bytes): Bytes
  {
    Measurement(h, e, n, ComposeCmdline(h, e, compose))
  }

  /** Some input of the first run collides with some input of the second: a PAGE_INFO or page under
      SHA-384, or the command line or the compose file under SHA-256. */
  ghost predicate RunsCollide(h: Hashes, e: SevEntry, n: int, compose: Bytes, n': int, compose': Bytes)
  {
    var c, c' := ComposeCmdline(h, e, compose), ComposeCmdline(h, e, compose');
    || DigestCollision(h, e, n, c, n', c')
    || CollisionBetween(h.sha256, {compose, CmdlineBytes(c)}, {compose', CmdlineBytes(c')})
  }

  /** For a fixed entry the measurement binds the vCPU count and the compose file. */
  lemma ComposeBound(h: Hashes, e: SevEntry, n: int, compose: Bytes, n': int, compose': Bytes)
    requires n >= 1 && n' >= 1
    requires HasHashesSection(e) && TableOffset(e) + 68 <= PAGE
    requires ComposeMeasurement(h, e, n, compose) == ComposeMeasurement(h, e, n', compose')
    ensures (n == n' && compose == compose') || RunsCollide(h, e, n, compose, n', compose')
  {
    var c, c' := ComposeCmdline(h, e, compose), ComposeCmdline(h, e, compose');
    MeasurementBinds(h, e, n, c, n', c');
    CollisionMonotone(h.sha256, {CmdlineBytes(c)}, {CmdlineBytes(c')}, {compose, CmdlineBytes(c)},
                      {compose', CmdlineBytes(c')});
    if c == c' {
      var d, d' := h.sha256(compose), h.sha256(compose');
      BuildCmdlineInjective(e, HexEncode(d), HexEncode(d'));
      HexInjective(d, d');
      var a, b := {compose, CmdlineBytes(c)}, {compose', CmdlineBytes(c')};
      if compose != compose' {
        assert compose in a && compose' in b && h.sha256(compose) == h.sha256(compose');
      }
    }
  }
}
