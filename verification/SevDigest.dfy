/** The SEV-SNP launch digest as Go computes it: one SHA-384 page update per page of the
    OVMF sections, then one per vCPU. The loops are proved to be one fold over the flat
    list of page records. */
module SevDigest {
  import opened ByteStrings
  import opened Hashing
  import opened SevLayout

  const VMSA_GPA: u64 := 0xFFFFFFFFF000
  const VCPU_SIG_EPYC: u32 := 0x00800f12
  const GUEST_FEATURES: u64 := 1

  /** The sum of two uint64 values wraps once at most. */
  function AddWrap(gpa: u64, off: nat): nat
  {
    if gpa + off < 0x1_0000_0000_0000_0000 then gpa + off else gpa + off - 0x1_0000_0000_0000_0000
  }

  datatype SevSection = SevSection(gpa: u64, size: i64, kind: int)

  datatype SevEntry = SevEntry(
    vmType: Bytes, artifactsVer: Bytes, kernelHash: Bytes, initrdHash: Bytes, rootfsHash: Bytes,
    ovmfHash: Bytes, hashesTableGpa: u64, resetEip: u32, sections: seq<SevSection>, cmdlineExtra: Bytes)

  /** One page update. A page without content is measured as 48 zero bytes. */
  datatype PageRecord = PageRecord(ptype: byte, gpa: nat, page: Option<Bytes>)
  {
    function Contents(sha384: Sha384): Bytes
    {
      match page case None => Zeros(48) case Some(p) => sha384(p)
    }

    /** Only normal and VMSA pages carry content. */
    predicate WellFormed()
    {
      (page.Some? <==> ptype == 1 || ptype == 2) && gpa < 0x1_0000_0000_0000_0000
    }
  }

  function Step(sha384: Sha384, ld: Bytes, r: PageRecord): (d: Bytes)
    ensures |d| == 48
  {
    sha384(PageInfo(ld, r.Contents(sha384), r.ptype, r.gpa))
  }

  function Fold(sha384: Sha384, ld: Bytes, rs: seq<PageRecord>): (d: Bytes)
    ensures rs != [] ==> |d| == 48
  {
    if rs == [] then ld else Step(sha384, Fold(sha384, ld, rs[..|rs| - 1]), rs[|rs| - 1])
  }

  lemma FoldSnoc(sha384: Sha384, ld: Bytes, rs: seq<PageRecord>, r: PageRecord)
    ensures Fold(sha384, ld, rs + [r]) == Step(sha384, Fold(sha384, ld, rs), r)
  {
    assert (rs + [r])[..|rs|] == rs;
  }

  lemma {:induction false} FoldConcat(sha384: Sha384, ld: Bytes, a: seq<PageRecord>, b: seq<PageRecord>)
    ensures Fold(sha384, ld, a + b) == Fold(sha384, Fold(sha384, ld, a), b)
  {
    if b == [] {
      assert a + b == a;
    } else {
      var b' := b[..|b| - 1];
      assert (a + b)[..|a + b| - 1] == a + b';
      FoldConcat(sha384, ld, a, b');
    }
  }

  // ---- the flat list of page records ----

  /** How often a loop from 0 below `size` in steps of 4096 runs. */
  function PageCount(size: int): nat
    decreases size
  {
    if size <= 0 then 0 else 1 + PageCount(size - 4096)
  }

  lemma {:induction false} PageCountBound(size: int, k: nat)
    ensures 4096 * k < size <==> k < PageCount(size)
    decreases size
  {
    if size > 0 && k > 0 {
      PageCountBound(size - 4096, k - 1);
    }
  }

  function ZeroPage(gpa: u64, k: nat): PageRecord
  {
    PageRecord(3, AddWrap(gpa, 4096 * k), None)
  }

  /** The first n pages of a zero region. */
  function ZeroPages(gpa: u64, n: nat): (rs: seq<PageRecord>)
    ensures |rs| == n
  {
    seq(n, k requires 0 <= k => ZeroPage(gpa, k))
  }

  function Chunk(data: Bytes, off: nat): Bytes
    requires off < |data|
  {
    if off + 4096 > |data| then data[off..] else data[off..off + 4096]
  }

  function NormalPage(gpa: u64, data: Bytes, k: nat): PageRecord
    requires 4096 * k < |data|
  {
    PageRecord(1, AddWrap(gpa, 4096 * k), Some(Chunk(data, 4096 * k)))
  }

  /** The first n pages of a data region. */
  function NormalPages(gpa: u64, data: Bytes, n: nat): (rs: seq<PageRecord>)
    requires n <= PageCount(|data|)
    ensures |rs| == n
  {
    seq(n, k requires 0 <= k < n => PageCountBound(|data|, k); NormalPage(gpa, data, k))
  }

  function SectionPages(s: SevSection, hashesPage: Bytes): seq<PageRecord>
  {
    match s.kind
    case 1 => ZeroPages(s.gpa, PageCount(s.size))
    case 2 => [PageRecord(5, s.gpa, None)]
    case 3 => [PageRecord(6, s.gpa, None)]
    case 4 => ZeroPages(s.gpa, PageCount(s.size))
    case 0x10 => NormalPages(s.gpa, hashesPage, PageCount(|hashesPage|))
    case _ => []
  }

  function AllSectionPages(ss: seq<SevSection>, hashesPage: Bytes): seq<PageRecord>
  {
    if ss == [] then []
    else AllSectionPages(ss[..|ss| - 1], hashesPage) + SectionPages(ss[|ss| - 1], hashesPage)
  }

  function VcpuEip(resetEip: u32, i: nat): u32
  {
    if i == 0 then BSP_EIP else resetEip
  }

  function VmsaRecordFor(eip: u32): PageRecord
  {
    PageRecord(2, VMSA_GPA, Some(VmsaPage(eip, VCPU_SIG_EPYC, GUEST_FEATURES)))
  }

  function VmsaRecord(resetEip: u32, i: nat): PageRecord
  {
    VmsaRecordFor(VcpuEip(resetEip, i))
  }

  function VmsaPages(resetEip: u32, vcpus: int): (rs: seq<PageRecord>)
    ensures |rs| == if vcpus < 0 then 0 else vcpus
  {
    seq(if vcpus < 0 then 0 else vcpus, i requires 0 <= i => VmsaRecord(resetEip, i))
  }

  function TableOffset(e: SevEntry): (off: nat)
    ensures off < PAGE
  {
    e.hashesTableGpa % 4096
  }

  function EntryHashesPage(h: Hashes, e: SevEntry, cmdline: Bytes): (p: Bytes)
    ensures |p| == PAGE
  {
    HashesPage(GoHashTable(h, e.kernelHash, e.initrdHash, cmdline), TableOffset(e))
  }

  function SectionRecords(h: Hashes, e: SevEntry, cmdline: Bytes): seq<PageRecord>
  {
    AllSectionPages(e.sections, EntryHashesPage(h, e, cmdline))
  }

  function Records(h: Hashes, e: SevEntry, vcpus: int, cmdline: Bytes): seq<PageRecord>
  {
    SectionRecords(h, e, cmdline) + VmsaPages(e.resetEip, vcpus)
  }

  function LaunchDigest(h: Hashes, e: SevEntry, vcpus: int, cmdline: Bytes): Bytes
  {
    Fold(h.sha384, HexDecode(e.ovmfHash), Records(h, e, vcpus, cmdline))
  }

  function Measurement(h: Hashes, e: SevEntry, vcpus: int, cmdline: Bytes): Bytes
  {
    HexEncode(LaunchDigest(h, e, vcpus, cmdline))
  }

  // ---- the Go loops ----

  /** One page update, as the step of the fold it is. */
  method UpdatePage(sha384: Sha384, ld: Bytes, ptype: byte, gpa: u64, page: Bytes) returns (d: Bytes48)
    ensures d == Step(sha384, ld, PageRecord(ptype, gpa, Some(page)))
  {
    d := GctxUpdate(sha384, ld, ptype, gpa, sha384(page));
  }

  method UpdateEmptyPage(sha384: Sha384, ld: Bytes, ptype: byte, gpa: u64) returns (d: Bytes48)
    ensures d == Step(sha384, ld, PageRecord(ptype, gpa, None))
  {
    d := GctxUpdate(sha384, ld, ptype, gpa, Zeros(48));
  }

  lemma NormalPageNext(sha384: Sha384, ld0: Bytes, gpa: u64, data: Bytes, k: nat)
    requires 4096 * k < |data|
    ensures k < PageCount(|data|)
    ensures Fold(sha384, ld0, NormalPages(gpa, data, k + 1))
         == Step(sha384, Fold(sha384, ld0, NormalPages(gpa, data, k)), NormalPage(gpa, data, k))
  {
    PageCountBound(|data|, k);
    assert NormalPages(gpa, data, k + 1) == NormalPages(gpa, data, k) + [NormalPage(gpa, data, k)];
    FoldSnoc(sha384, ld0, NormalPages(gpa, data, k), NormalPage(gpa, data, k));
  }

  method PageAt(data: Bytes, offset: nat) returns (page: Bytes)
    requires offset < |data|
    ensures page == Chunk(data, offset)
  {
    var end := offset + 4096;
    if end > |data| {
      end := |data|;
    }
    page := data[offset..end];
  }

  method GctxUpdateNormalPages(sha384: Sha384, ld0: Bytes, startGpa: u64, data: Bytes) returns (ld: Bytes)
    requires |data| < 0x8000_0000_0000_0000
    ensures ld == Fold(sha384, ld0, NormalPages(startGpa, data, PageCount(|data|)))
  {
    ld := ld0;
    var offset := 0;
    ghost var k := 0;
    while offset < |data|
      invariant 0 <= k <= PageCount(|data|) && offset == 4096 * k
      invariant ld == Fold(sha384, ld0, NormalPages(startGpa, data, k))
    {
      var page := PageAt(data, offset);
      NormalPageNext(sha384, ld0, startGpa, data, k);
      ld := UpdatePage(sha384, ld, 1, AddWrap(startGpa, offset), page);
      offset := offset + 4096;
      k := k + 1;
    }
    PageCountBound(|data|, k);
  }

  lemma ZeroPageNext(sha384: Sha384, ld0: Bytes, gpa: u64, k: nat)
    ensures Fold(sha384, ld0, ZeroPages(gpa, k + 1))
         == Step(sha384, Fold(sha384, ld0, ZeroPages(gpa, k)), ZeroPage(gpa, k))
  {
    assert ZeroPages(gpa, k + 1) == ZeroPages(gpa, k) + [ZeroPage(gpa, k)];
    FoldSnoc(sha384, ld0, ZeroPages(gpa, k), ZeroPage(gpa, k));
  }

  method GctxUpdateZeroPages(sha384: Sha384, ld0: Bytes, gpa: u64, size: i64) returns (ld: Bytes)
    ensures ld == Fold(sha384, ld0, ZeroPages(gpa, PageCount(size)))
  {
    ld := ld0;
    var offset := 0;
    ghost var k := 0;
    while offset < size
      invariant 0 <= k <= PageCount(size) && offset == 4096 * k
      invariant ld == Fold(sha384, ld0, ZeroPages(gpa, k))
    {
      PageCountBound(size, k);
      ZeroPageNext(sha384, ld0, gpa, k);
      ld := UpdateEmptyPage(sha384, ld, 3, AddWrap(gpa, offset));
      offset := offset + 4096;
      k := k + 1;
    }
    PageCountBound(size, k);
  }

  method MeasureSection(sha384: Sha384, ld0: Bytes, sec: SevSection, hashesPage: Bytes) returns (ld: Bytes)
    requires |hashesPage| == PAGE
    ensures ld == Fold(sha384, ld0, SectionPages(sec, hashesPage))
  {
    ld := ld0;
    match sec.kind {
      case 1 => ld := GctxUpdateZeroPages(sha384, ld, sec.gpa, sec.size);
      case 2 =>
        ld := UpdateEmptyPage(sha384, ld, 5, sec.gpa);
        FoldSnoc(sha384, ld0, [], PageRecord(5, sec.gpa, None));
      case 3 =>
        ld := UpdateEmptyPage(sha384, ld, 6, sec.gpa);
        FoldSnoc(sha384, ld0, [], PageRecord(6, sec.gpa, None));
      case 4 => ld := GctxUpdateZeroPages(sha384, ld, sec.gpa, sec.size);
      case 0x10 => ld := GctxUpdateNormalPages(sha384, ld, sec.gpa, hashesPage);
      case _ =>
    }
  }

  method MeasureSections(sha384: Sha384, ld0: Bytes, sections: seq<SevSection>, hashesPage: Bytes) returns (ld: Bytes)
    requires |hashesPage| == PAGE
    ensures ld == Fold(sha384, ld0, AllSectionPages(sections, hashesPage))
  {
    ld := ld0;
    var k := 0;
    while k < |sections|
      invariant 0 <= k <= |sections|
      invariant ld == Fold(sha384, ld0, AllSectionPages(sections[..k], hashesPage))
    {
      ld := MeasureSection(sha384, ld, sections[k], hashesPage);
      assert sections[..k + 1][..k] == sections[..k];
      FoldConcat(sha384, ld0, AllSectionPages(sections[..k], hashesPage), SectionPages(sections[k], hashesPage));
      k := k + 1;
    }
    assert sections[..k] == sections;
  }

  lemma VmsaPageNext(sha384: Sha384, ld0: Bytes, resetEip: u32, i: nat)
    ensures Fold(sha384, ld0, VmsaPages(resetEip, i + 1))
         == Step(sha384, Fold(sha384, ld0, VmsaPages(resetEip, i)), VmsaRecord(resetEip, i))
  {
    assert VmsaPages(resetEip, i + 1) == VmsaPages(resetEip, i) + [VmsaRecord(resetEip, i)];
    FoldSnoc(sha384, ld0, VmsaPages(resetEip, i), VmsaRecord(resetEip, i));
  }

  method UpdateVmsaPage(sha384: Sha384, ld: Bytes, eip: u32) returns (d: Bytes48)
    ensures d == Step(sha384, ld, VmsaRecordFor(eip))
  {
    var vmsa := BuildVmsaPage(eip, VCPU_SIG_EPYC, GUEST_FEATURES);
    d := UpdatePage(sha384, ld, 2, VMSA_GPA, vmsa);
  }

  /** The update for vCPU number i. */
  method MeasureVcpu(sha384: Sha384, ghost ld0: Bytes, ld: Bytes, resetEip: u32, i: nat) returns (d: Bytes)
    requires ld == Fold(sha384, ld0, VmsaPages(resetEip, i))
    ensures d == Fold(sha384, ld0, VmsaPages(resetEip, i + 1))
  {
    var eip := BSP_EIP;
    if i != 0 {
      eip := resetEip;
    }
    VmsaPageNext(sha384, ld0, resetEip, i);
    d := UpdateVmsaPage(sha384, ld, eip);
  }

  method MeasureVcpus(sha384: Sha384, ld0: Bytes, resetEip: u32, vcpus: int) returns (ld: Bytes)
    ensures ld == Fold(sha384, ld0, VmsaPages(resetEip, vcpus))
  {
    ld := ld0;
    var i := 0;
    while i < vcpus
      invariant 0 <= i && (i <= vcpus || i == 0)
      invariant ld == Fold(sha384, ld0, VmsaPages(resetEip, i))
    {
      ld := MeasureVcpu(sha384, ld0, ld, resetEip, i);
      i := i + 1;
    }
    assert VmsaPages(resetEip, i) == VmsaPages(resetEip, vcpus);
  }

  method CalcSevMeasurement(h: Hashes, entry: SevEntry, vcpus: int, cmdline: Bytes) returns (r: Bytes)
    ensures r == Measurement(h, entry, vcpus, cmdline)
  {
    var ld := HexDecode(entry.ovmfHash);
    var offsetInPage := entry.hashesTableGpa % 4096;
    var hashesPage := BuildHashesPage(h, entry.kernelHash, entry.initrdHash, cmdline, offsetInPage);
    FoldConcat(h.sha384, ld, SectionRecords(h, entry, cmdline), VmsaPages(entry.resetEip, vcpus));
    ld := MeasureSections(h.sha384, ld, entry.sections, hashesPage);
    ld := MeasureVcpus(h.sha384, ld, entry.resetEip, vcpus);
    r := HexEncode(ld);
  }

  // ---- shape of the record list ----

  lemma OneSectionWellFormed(s: SevSection, page: Bytes)
    requires |page| < 0x8000_0000_0000_0000
    ensures forall r :: r in SectionPages(s, page) ==> r.WellFormed() && r.ptype != 2
  {
    forall k | 0 <= k < PageCount(s.size) ensures ZeroPage(s.gpa, k).WellFormed() {
      PageCountBound(s.size, k);
    }
    forall k | 0 <= k < PageCount(|page|)
      ensures 4096 * k < |page| && NormalPage(s.gpa, page, k).WellFormed()
    {
      PageCountBound(|page|, k);
    }
  }

  lemma {:induction false} SectionPagesWellFormed(ss: seq<SevSection>, page: Bytes)
    requires |page| < 0x8000_0000_0000_0000
    ensures forall r :: r in AllSectionPages(ss, page) ==> r.WellFormed() && r.ptype != 2
  {
    if ss != [] {
      SectionPagesWellFormed(ss[..|ss| - 1], page);
      OneSectionWellFormed(ss[|ss| - 1], page);
    }
  }

  lemma RecordsWellFormed(h: Hashes, e: SevEntry, vcpus: int, cmdline: Bytes)
    ensures forall r :: r in Records(h, e, vcpus, cmdline) ==> r.WellFormed()
    ensures forall r :: r in SectionRecords(h, e, cmdline) ==> r.ptype != 2
  {
    SectionPagesWellFormed(e.sections, EntryHashesPage(h, e, cmdline));
    forall r | r in VmsaPages(e.resetEip, vcpus) ensures r.WellFormed() {
    }
  }
}
