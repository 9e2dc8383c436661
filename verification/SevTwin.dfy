/** The Python tool that recomputes launch digests for CI, and when it agrees with the Go
    verifier. Python raises where Go truncates, pads or wraps; None is an exception here. */
module SevTwin {
  import opened ByteStrings
  import opened Hashing
  import opened SevLayout
  import opened SevDigest
  import opened SevBinding

  /** buf[lo:hi] = b on a bytearray, which may grow it. */
  function SliceAssign(buf: Bytes, lo: nat, hi: nat, b: Bytes): Bytes
    requires lo <= hi
  {
    (if lo <= |buf| then buf[..lo] else buf) + b + (if hi <= |buf| then buf[hi..] else [])
  }

  /** A slice assignment behind the finished prefix of a zeroed bytearray. */
  method PyPut(page: Bytes, ghost prefix: Bytes, off: nat, b: Bytes) returns (r: Bytes, ghost next: Bytes)
    requires |prefix| <= off && off + |b| <= |page|
    requires page == prefix + Zeros(|page| - |prefix|)
    ensures next == prefix + Zeros(off - |prefix|) + b
    ensures off == |prefix| ==> next == prefix + b
    ensures |next| == off + |b| && |r| == |page|
    ensures r == next + Zeros(|r| - |next|)
  {
    r := SliceAssign(page, off, off + |b|, b);
    next := prefix + Zeros(off - |prefix|) + b;
    assert r == Overwrite(page, off, b);
    OverwriteExtends(prefix, |page| - |prefix|, off, b);
  }

  method PyPutNext(page: Bytes, ghost prefix: Bytes, off: nat, b: Bytes) returns (r: Bytes, ghost next: Bytes)
    requires |prefix| == off && off + |b| <= |page|
    requires page == prefix + Zeros(|page| - |prefix|)
    ensures next == prefix + b && |r| == |page|
    ensures r == next + Zeros(|r| - |next|)
  {
    r, next := PyPut(page, prefix, off, b);
  }

  // ---- page updates ----

  function PyStep(sha384: Sha384, ld: Bytes, r: PageRecord): Option<Bytes>
  {
    if |ld| == 48 && r.gpa < 0x1_0000_0000_0000_0000 then Some(Step(sha384, ld, r)) else None
  }

  function PyFold(sha384: Sha384, ld: Bytes, rs: seq<PageRecord>): Option<Bytes>
  {
    if rs == [] then Some(ld)
    else match PyFold(sha384, ld, rs[..|rs| - 1])
         case None => None
         case Some(d) => PyStep(sha384, d, rs[|rs| - 1])
  }

  predicate Fits(rs: seq<PageRecord>)
  {
    forall i :: 0 <= i < |rs| ==> rs[i].gpa < 0x1_0000_0000_0000_0000
  }

  lemma FitsSnoc(rs: seq<PageRecord>)
    requires rs != []
    ensures Fits(rs) <==> Fits(rs[..|rs| - 1]) && rs[|rs| - 1].gpa < 0x1_0000_0000_0000_0000
  {
    var before := rs[..|rs| - 1];
    assert forall i :: 0 <= i < |before| ==> rs[i] == before[i];
    if Fits(before) && rs[|rs| - 1].gpa < 0x1_0000_0000_0000_0000 {
      forall i | 0 <= i < |rs| ensures rs[i].gpa < 0x1_0000_0000_0000_0000 {
        if i < |before| { assert before[i].gpa < 0x1_0000_0000_0000_0000; }
      }
    }
  }

  lemma {:induction false} PyFoldMeaning(sha384: Sha384, ld: Bytes, rs: seq<PageRecord>)
    requires |ld| == 48
    ensures PyFold(sha384, ld, rs) == if Fits(rs) then Some(Fold(sha384, ld, rs)) else None
  {
    if rs != [] {
      PyFoldMeaning(sha384, ld, rs[..|rs| - 1]);
      FitsSnoc(rs);
    }
  }

  lemma PyFoldSnoc(sha384: Sha384, ld: Bytes, rs: seq<PageRecord>, r: PageRecord)
    ensures PyFold(sha384, ld, rs + [r])
         == match PyFold(sha384, ld, rs) case None => None case Some(d) => PyStep(sha384, d, r)
  {
    assert (rs + [r])[..|rs|] == rs;
  }

  lemma {:induction false} PyFoldConcat(sha384: Sha384, ld: Bytes, a: seq<PageRecord>, b: seq<PageRecord>)
    ensures PyFold(sha384, ld, a + b)
         == match PyFold(sha384, ld, a) case None => None case Some(d) => PyFold(sha384, d, b)
  {
    if b == [] {
      assert a + b == a;
    } else {
      assert (a + b)[..|a + b| - 1] == a + b[..|b| - 1];
      PyFoldConcat(sha384, ld, a, b[..|b| - 1]);
    }
  }

  method PyGctxUpdate(sha384: Sha384, ld: Bytes, ptype: byte, gpa: nat, page: Option<Bytes>) returns (r: Option<Bytes>)
    ensures r == PyStep(sha384, ld, PageRecord(ptype, gpa, page))
  {
    var contents := PageRecord(ptype, gpa, page).Contents(sha384);
    if |ld| != 48 || |contents| != 48 || gpa >= 0x1_0000_0000_0000_0000 {
      return None;
    }
    var buf := Zeros(0x70);
    ghost var p;
    assert buf == [] + Zeros(0x70);
    buf, p := PyPutNext(buf, [], 0, ld);
    buf, p := PyPutNext(buf, p, 48, contents);
    buf, p := PyPutNext(buf, p, 96, LE(0x70, 2));
    buf, p := PyPutNext(buf, p, 98, [ptype]);
    buf, p := PyPut(buf, p, 104, LE(gpa, 8));
    assert buf == PageInfo(ld, contents, ptype, gpa);
    r := Some(sha384(buf));
  }

  // ---- pages ----

  function PyZeroPages(gpa: nat, n: nat): (rs: seq<PageRecord>)
    ensures |rs| == n
  {
    seq(n, k requires 0 <= k => PageRecord(3, gpa + 4096 * k, None))
  }

  function PyNormalPage(gpa: nat, data: Bytes, k: nat): PageRecord
    requires 4096 * k < |data|
  {
    PageRecord(1, gpa + 4096 * k, Some(Chunk(data, 4096 * k)))
  }

  function PyNormalPages(gpa: nat, data: Bytes, n: nat): (rs: seq<PageRecord>)
    requires n <= PageCount(|data|)
    ensures |rs| == n
  {
    seq(n, k requires 0 <= k < n => PageCountBound(|data|, k); PyNormalPage(gpa, data, k))
  }

  function PySectionPages(s: SevSection, page: Bytes): seq<PageRecord>
  {
    match s.kind
    case 1 => PyZeroPages(s.gpa, PageCount(s.size))
    case 2 => [PageRecord(5, s.gpa, None)]
    case 3 => [PageRecord(6, s.gpa, None)]
    case 4 => PyZeroPages(s.gpa, PageCount(s.size))
    case 0x10 => PyNormalPages(s.gpa, page, PageCount(|page|))
    case _ => []
  }

  function PyAllSectionPages(ss: seq<SevSection>, page: Bytes): seq<PageRecord>
  {
    if ss == [] then []
    else PyAllSectionPages(ss[..|ss| - 1], page) + PySectionPages(ss[|ss| - 1], page)
  }

  /** The page the tool hashes: past offset 3920 the bytearray grows beyond 4096 bytes. */
  function PyHashesPage(table: Bytes, off: nat): (b: Bytes)
    requires |table| == 168 && off < PAGE
    ensures |b| == if off <= 3920 then PAGE else off + 176
  {
    Zeros(off) + table + Zeros(8) + Zeros(if off <= 3920 then 3920 - off else 0)
  }

  lemma PyHashesPageAgrees(table: Bytes, off: nat)
    requires |table| == 168 && off <= 3920
    ensures PyHashesPage(table, off) == HashesPage(table, off)
  {
  }

  function PyHashTable(h: Hashes, e: SevEntry, cmdline: Bytes): (t: Option<Bytes>)
    ensures t.Some? ==> |t.value| == 168
  {
    match PyFromHex(e.kernelHash)
    case None => None
    case Some(kernel) =>
      match (if e.initrdHash != [] then PyFromHex(e.initrdHash) else Some(h.sha256([])))
      case None => None
      case Some(initrd) =>
        if |initrd| != 32 || |kernel| != 32 then None
        else Some(HashTable(h.sha256(CmdlineBytes(cmdline)), initrd, kernel))
  }

  function PyRecords(e: SevEntry, page: Bytes, vcpus: int): seq<PageRecord>
  {
    PyAllSectionPages(e.sections, page) + VmsaPages(e.resetEip, vcpus)
  }

  function PyMeasurement(h: Hashes, e: SevEntry, vcpus: int, cmdline: Bytes): Option<Bytes>
  {
    match PyFromHex(e.ovmfHash)
    case None => None
    case Some(ld) =>
      if |ld| != 48 then None
      else match PyHashTable(h, e, cmdline)
           case None => None
           case Some(t) =>
             match PyFold(h.sha384, ld, PyRecords(e, PyHashesPage(t, TableOffset(e)), vcpus))
             case None => None
             case Some(d) => Some(HexEncode(d))
  }

  // ---- the Python loops ----

  method PySeg(page: Bytes, ghost prefix: Bytes, off: nat, sel: nat, attr: nat, lim: nat, base: nat)
    returns (r: Bytes, ghost next: Bytes)
    requires |prefix| == off && off + 16 <= |page|
    requires page == prefix + Zeros(|page| - |prefix|)
    ensures next == Segment(prefix, sel, attr, lim, base)
    ensures |r| == |page| && r == next + Zeros(|r| - |next|)
  {
    r, next := PyPutNext(page, prefix, off, LE(sel, 2));
    r, next := PyPutNext(r, next, off + 2, LE(attr, 2));
    r, next := PyPutNext(r, next, off + 4, LE(lim, 4));
    r, next := PyPutNext(r, next, off + 8, LE(base, 8));
  }

  method PySegments(csBase: u32) returns (page: Bytes, ghost p: Bytes)
    ensures p == SystemSegments(DataSegments(CodeSegments(csBase)))
    ensures |page| == PAGE && page == p + Zeros(PAGE - |p|)
  {
    page := Zeros(PAGE);
    assert page == [] + Zeros(PAGE);
    page, p := PySeg(page, [], 0x000, 0, 0x0093, 0xFFFF, 0);
    page, p := PySeg(page, p, 0x010, 0xF000, 0x009B, 0xFFFF, csBase);
    page, p := PySeg(page, p, 0x020, 0, 0x0093, 0xFFFF, 0);
    page, p := PySeg(page, p, 0x030, 0, 0x0093, 0xFFFF, 0);
    page, p := PySeg(page, p, 0x040, 0, 0x0093, 0xFFFF, 0);
    page, p := PySeg(page, p, 0x050, 0, 0x0093, 0xFFFF, 0);
    page, p := PySeg(page, p, 0x060, 0, 0x0000, 0xFFFF, 0);
    page, p := PySeg(page, p, 0x070, 0, 0x0082, 0xFFFF, 0);
    page, p := PySeg(page, p, 0x080, 0, 0x0000, 0xFFFF, 0);
    page, p := PySeg(page, p, 0x090, 0, 0x008B, 0xFFFF, 0);
  }

  method PyControlRegisters(page: Bytes, ghost prefix: Bytes) returns (r: Bytes, ghost p: Bytes)
    requires |page| == PAGE && |prefix| == 0xa0 && page == prefix + Zeros(PAGE - |prefix|)
    ensures p == ControlRegisters(prefix)
    ensures |r| == PAGE && r == p + Zeros(PAGE - |p|)
  {
    r, p := PyPut(page, prefix, 0x0D0, LE(0x1000, 8));
    r, p := PyPut(r, p, 0x148, LE(0x40, 8));
    r, p := PyPut(r, p, 0x158, LE(0x10, 8));
    r, p := PyPut(r, p, 0x160, LE(0x400, 8));
    r, p := PyPut(r, p, 0x168, LE(0xFFFF0FF0, 8));
    r, p := PyPut(r, p, 0x170, LE(0x2, 8));
  }

  method PyLateRegisters(page: Bytes, ghost prefix: Bytes, sig: u32, feat: u64) returns (r: Bytes, ghost p: Bytes)
    requires |page| == PAGE && |prefix| == 0x180 && page == prefix + Zeros(PAGE - |prefix|)
    ensures p == FloatRegisters(FeatureRegisters(prefix, sig, feat))
    ensures |r| == PAGE && r == p + Zeros(PAGE - |p|)
  {
    r, p := PyPut(page, prefix, 0x268, LE(0x0007040600070406, 8));
    r, p := PyPut(r, p, 0x310, LE(sig, 8));
    r, p := PyPut(r, p, 0x3B0, LE(feat, 8));
    r, p := PyPut(r, p, 0x3E8, LE(0x1, 8));
    r, p := PyPut(r, p, 0x408, LE(0x1F80, 4));
    r, p := PyPut(r, p, 0x410, LE(0x037F, 2));
  }

  method PyBuildVmsaPage(eip: u32, sig: u32, feat: u64) returns (page: Bytes)
    ensures page == VmsaPage(eip, sig, feat)
  {
    ghost var p;
    page, p := PySegments(CsBase(eip));
    page, p := PyControlRegisters(page, p);
    page, p := PyPut(page, p, 0x178, LE(Rip(eip), 8));
    page, p := PyLateRegisters(page, p, sig, feat);
  }

  lemma PyZeroNext(sha384: Sha384, ld0: Bytes, gpa: nat, k: nat)
    ensures PyFold(sha384, ld0, PyZeroPages(gpa, k + 1))
         == match PyFold(sha384, ld0, PyZeroPages(gpa, k))
            case None => None case Some(d) => PyStep(sha384, d, PageRecord(3, gpa + 4096 * k, None))
  {
    assert PyZeroPages(gpa, k + 1) == PyZeroPages(gpa, k) + [PageRecord(3, gpa + 4096 * k, None)];
    PyFoldSnoc(sha384, ld0, PyZeroPages(gpa, k), PageRecord(3, gpa + 4096 * k, None));
  }

  /** An exception in any update is an exception of the whole fold. */
  lemma {:induction false} PyFoldFails(sha384: Sha384, ld: Bytes, rs: seq<PageRecord>, k: nat)
    requires k <= |rs| && PyFold(sha384, ld, rs[..k]) == None
    ensures PyFold(sha384, ld, rs) == None
    decreases |rs|
  {
    if k < |rs| {
      assert rs[..|rs| - 1][..k] == rs[..k];
      PyFoldFails(sha384, ld, rs[..|rs| - 1], k);
    } else {
      assert rs[..k] == rs;
    }
  }

  lemma PyZeroFails(sha384: Sha384, ld0: Bytes, gpa: nat, n: nat, k: nat)
    requires k <= n && PyFold(sha384, ld0, PyZeroPages(gpa, k)) == None
    ensures PyFold(sha384, ld0, PyZeroPages(gpa, n)) == None
  {
    assert PyZeroPages(gpa, n)[..k] == PyZeroPages(gpa, k);
    PyFoldFails(sha384, ld0, PyZeroPages(gpa, n), k);
  }

  method PyUpdateZeroPages(sha384: Sha384, ld0: Bytes, gpa: nat, size: i64) returns (ld: Option<Bytes>)
    ensures ld == PyFold(sha384, ld0, PyZeroPages(gpa, PageCount(size)))
  {
    ld := Some(ld0);
    var offset := 0;
    ghost var k := 0;
    while offset < size
      invariant 0 <= k <= PageCount(size) && offset == 4096 * k
      invariant ld.Some? && ld == PyFold(sha384, ld0, PyZeroPages(gpa, k))
    {
      PageCountBound(size, k);
      PyZeroNext(sha384, ld0, gpa, k);
      ld := PyGctxUpdate(sha384, ld.value, 3, gpa + offset, None);
      if ld.None? {
        PyZeroFails(sha384, ld0, gpa, PageCount(size), k + 1);
        return;
      }
      offset := offset + 4096;
      k := k + 1;
    }
    PageCountBound(size, k);
  }

  lemma PyNormalNext(sha384: Sha384, ld0: Bytes, gpa: nat, data: Bytes, k: nat)
    requires 4096 * k < |data|
    ensures k < PageCount(|data|)
    ensures PyFold(sha384, ld0, PyNormalPages(gpa, data, k + 1))
         == match PyFold(sha384, ld0, PyNormalPages(gpa, data, k))
            case None => None case Some(d) => PyStep(sha384, d, PyNormalPage(gpa, data, k))
  {
    PageCountBound(|data|, k);
    assert PyNormalPages(gpa, data, k + 1) == PyNormalPages(gpa, data, k) + [PyNormalPage(gpa, data, k)];
    PyFoldSnoc(sha384, ld0, PyNormalPages(gpa, data, k), PyNormalPage(gpa, data, k));
  }

  lemma PyNormalFails(sha384: Sha384, ld0: Bytes, gpa: nat, data: Bytes, k: nat)
    requires k <= PageCount(|data|) && PyFold(sha384, ld0, PyNormalPages(gpa, data, k)) == None
    ensures PyFold(sha384, ld0, PyNormalPages(gpa, data, PageCount(|data|))) == None
  {
    assert PyNormalPages(gpa, data, PageCount(|data|))[..k] == PyNormalPages(gpa, data, k);
    PyFoldFails(sha384, ld0, PyNormalPages(gpa, data, PageCount(|data|)), k);
  }

  /** The loop body: the page at the offset, shorter when the data ends inside it. */
  method PyUpdateNormalPage(sha384: Sha384, ld: Bytes, gpa: nat, data: Bytes, offset: nat, ghost k: nat)
    returns (r: Option<Bytes>)
    requires offset == 4096 * k < |data|
    ensures r == PyStep(sha384, ld, PyNormalPage(gpa, data, k))
  {
    var page := if offset + 4096 <= |data| then data[offset..offset + 4096] else data[offset..];
    assert page == Chunk(data, offset);
    r := PyGctxUpdate(sha384, ld, 1, gpa + offset, Some(page));
  }

  method PyUpdateNormalPages(sha384: Sha384, ld0: Bytes, gpa: nat, data: Bytes) returns (ld: Option<Bytes>)
    ensures ld == PyFold(sha384, ld0, PyNormalPages(gpa, data, PageCount(|data|)))
  {
    ld := Some(ld0);
    var offset := 0;
    ghost var k := 0;
    while offset < |data|
      invariant 0 <= k <= PageCount(|data|) && offset == 4096 * k
      invariant ld.Some? && ld == PyFold(sha384, ld0, PyNormalPages(gpa, data, k))
    {
      PyNormalNext(sha384, ld0, gpa, data, k);
      ld := PyUpdateNormalPage(sha384, ld.value, gpa, data, offset, k);
      if ld.None? {
        PyNormalFails(sha384, ld0, gpa, data, k + 1);
        return;
      }
      offset := offset + 4096;
      k := k + 1;
    }
    PageCountBound(|data|, k);
  }

  method PyMeasureSection(sha384: Sha384, ld0: Bytes, sec: SevSection, page: Bytes) returns (ld: Option<Bytes>)
    ensures ld == PyFold(sha384, ld0, PySectionPages(sec, page))
  {
    ld := Some(ld0);
    if sec.kind == 1 {
      ld := PyUpdateZeroPages(sha384, ld0, sec.gpa, sec.size);
    } else if sec.kind == 2 {
      ld := PyGctxUpdate(sha384, ld0, 5, sec.gpa, None);
      PyFoldSnoc(sha384, ld0, [], PageRecord(5, sec.gpa, None));
    } else if sec.kind == 3 {
      ld := PyGctxUpdate(sha384, ld0, 6, sec.gpa, None);
      PyFoldSnoc(sha384, ld0, [], PageRecord(6, sec.gpa, None));
    } else if sec.kind == 4 {
      ld := PyUpdateZeroPages(sha384, ld0, sec.gpa, sec.size);
    } else if sec.kind == 0x10 {
      ld := PyUpdateNormalPages(sha384, ld0, sec.gpa, page);
    }
  }

  lemma {:induction false} PySectionsFail(sha384: Sha384, ld0: Bytes, ss: seq<SevSection>, page: Bytes, k: nat)
    requires k <= |ss| && PyFold(sha384, ld0, PyAllSectionPages(ss[..k], page)) == None
    ensures PyFold(sha384, ld0, PyAllSectionPages(ss, page)) == None
    decreases |ss|
  {
    if k < |ss| {
      assert ss[..|ss| - 1][..k] == ss[..k];
      PySectionsFail(sha384, ld0, ss[..|ss| - 1], page, k);
      PyFoldConcat(sha384, ld0, PyAllSectionPages(ss[..|ss| - 1], page), PySectionPages(ss[|ss| - 1], page));
    } else {
      assert ss[..k] == ss;
    }
  }

  method PyMeasureSections(sha384: Sha384, ld0: Bytes, ss: seq<SevSection>, page: Bytes) returns (ld: Option<Bytes>)
    ensures ld == PyFold(sha384, ld0, PyAllSectionPages(ss, page))
  {
    ld := Some(ld0);
    var k := 0;
    while k < |ss|
      invariant 0 <= k <= |ss|
      invariant ld.Some? && ld == PyFold(sha384, ld0, PyAllSectionPages(ss[..k], page))
    {
      ld := PyMeasureSection(sha384, ld.value, ss[k], page);
      assert ss[..k + 1][..k] == ss[..k];
      PyFoldConcat(sha384, ld0, PyAllSectionPages(ss[..k], page), PySectionPages(ss[k], page));
      k := k + 1;
      if ld.None? {
        PySectionsFail(sha384, ld0, ss, page, k);
        return;
      }
    }
    assert ss[..k] == ss;
  }

  lemma PyVmsaNext(sha384: Sha384, ld0: Bytes, resetEip: u32, i: nat)
    ensures PyFold(sha384, ld0, VmsaPages(resetEip, i + 1))
         == match PyFold(sha384, ld0, VmsaPages(resetEip, i))
            case None => None case Some(d) => PyStep(sha384, d, VmsaRecord(resetEip, i))
  {
    assert VmsaPages(resetEip, i + 1) == VmsaPages(resetEip, i) + [VmsaRecord(resetEip, i)];
    PyFoldSnoc(sha384, ld0, VmsaPages(resetEip, i), VmsaRecord(resetEip, i));
  }

  method PyUpdateVmsaPage(sha384: Sha384, ld: Bytes, eip: u32) returns (r: Option<Bytes>)
    ensures r == PyStep(sha384, ld, VmsaRecordFor(eip))
  {
    var vmsa := PyBuildVmsaPage(eip, VCPU_SIG_EPYC, GUEST_FEATURES);
    r := PyGctxUpdate(sha384, ld, 2, VMSA_GPA, Some(vmsa));
  }

  method PyMeasureVcpus(sha384: Sha384, ld0: Bytes, resetEip: u32, vcpus: int) returns (ld: Option<Bytes>)
    requires |ld0| == 48
    ensures ld == PyFold(sha384, ld0, VmsaPages(resetEip, vcpus))
  {
    ld := Some(ld0);
    var i := 0;
    while i < vcpus
      invariant 0 <= i && (i <= vcpus || i == 0)
      invariant ld.Some? && |ld.value| == 48 && ld == PyFold(sha384, ld0, VmsaPages(resetEip, i))
    {
      var eip := if i == 0 then BSP_EIP else resetEip;
      PyVmsaNext(sha384, ld0, resetEip, i);
      ld := PyUpdateVmsaPage(sha384, ld.value, eip);
      i := i + 1;
    }
    assert VmsaPages(resetEip, i) == VmsaPages(resetEip, vcpus);
  }

  method PyHashEntry(guid: Bytes, hash: Bytes) returns (entry: Bytes)
    requires |guid| == 16 && |hash| == 32
    ensures entry == HashEntry(guid, hash)
  {
    entry := Zeros(50);
    ghost var p;
    assert entry == [] + Zeros(50);
    entry, p := PyPutNext(entry, [], 0, UuidToLE(guid));
    entry, p := PyPutNext(entry, p, 16, LE(50, 2));
    entry, p := PyPutNext(entry, p, 18, hash);
  }

  method PyFillTable(guid: Bytes, cmdline: Bytes, initrd: Bytes, kernel: Bytes) returns (ht: Bytes)
    requires |guid| == 16 && |cmdline| == |initrd| == |kernel| == 50
    ensures ht == guid + LE(168, 2) + cmdline + initrd + kernel
  {
    ht := Zeros(168);
    ghost var p;
    assert ht == [] + Zeros(168);
    ht, p := PyPutNext(ht, [], 0, guid);
    ht, p := PyPutNext(ht, p, 16, LE(168, 2));
    ht, p := PyPutNext(ht, p, 18, cmdline);
    ht, p := PyPutNext(ht, p, 68, initrd);
    ht, p := PyPutNext(ht, p, 118, kernel);
    assert ht == p;
  }

  method PyBuildHashTable(cmdline: Bytes, initrd: Bytes, kernel: Bytes) returns (ht: Bytes)
    requires |cmdline| == |initrd| == |kernel| == 32
    ensures ht == HashTable(cmdline, initrd, kernel)
  {
    var c := PyHashEntry(CMDLINE_GUID, cmdline);
    var i := PyHashEntry(INITRD_GUID, initrd);
    var k := PyHashEntry(KERNEL_GUID, kernel);
    ht := PyFillTable(UuidToLE(HEADER_GUID), c, i, k);
  }

  /** Growing the bytearray past the page end when the table does not fit. */
  method PyPlaceTable(ht: Bytes, off: nat) returns (page: Bytes)
    requires |ht| == 168 && off < PAGE
    ensures page == PyHashesPage(ht, off)
  {
    var padded := SliceAssign(Zeros(176), 0, 168, ht);
    assert padded == ht + Zeros(8);
    page := SliceAssign(Zeros(PAGE), off, off + |padded|, padded);
    assert Zeros(PAGE)[..off] == Zeros(off);
    if off + 176 <= PAGE {
      assert Zeros(PAGE)[off + 176..] == Zeros(3920 - off);
    }
  }

  method PyBuildHashesPage(h: Hashes, e: SevEntry, cmdline: Bytes) returns (r: Option<Bytes>)
    ensures r == match PyHashTable(h, e, cmdline)
                 case None => None case Some(t) => Some(PyHashesPage(t, TableOffset(e)))
  {
    var kernel := PyFromHex(e.kernelHash);
    if kernel.None? {
      return None;
    }
    var initrd := if e.initrdHash != [] then PyFromHex(e.initrdHash) else Some(h.sha256([]));
    if initrd.None? {
      return None;
    }
    if |initrd.value| != 32 || |kernel.value| != 32 {
      return None;
    }
    assert cmdline == [] ==> cmdline + [0] == [0];
    var cmdlineHash := h.sha256(if cmdline != [] then cmdline + [0] else [0]);
    var ht := PyBuildHashTable(cmdlineHash, initrd.value, kernel.value);
    var page := PyPlaceTable(ht, TableOffset(e));
    r := Some(page);
  }

  method PyCalcSevMeasurement(h: Hashes, e: SevEntry, vcpus: int, cmdline: Bytes) returns (r: Option<Bytes>)
    ensures r == PyMeasurement(h, e, vcpus, cmdline)
  {
    var ld := PyFromHex(e.ovmfHash);
    if ld.None? || |ld.value| != 48 {
      return None;
    }
    var page := PyBuildHashesPage(h, e, cmdline);
    if page.None? {
      return None;
    }
    PyFoldConcat(h.sha384, ld.value, PyAllSectionPages(e.sections, page.value), VmsaPages(e.resetEip, vcpus));
    PyFoldMeaning(h.sha384, ld.value, PyAllSectionPages(e.sections, page.value));
    ld := PyMeasureSections(h.sha384, ld.value, e.sections, page.value);
    if ld.None? {
      return None;
    }
    ld := PyMeasureVcpus(h.sha384, ld.value, e.resetEip, vcpus);
    if ld.None? {
      return None;
    }
    r := Some(HexEncode(ld.value));
  }

  // ---- agreement ----

  /** No page address of the entry passes 2^64. */
  predicate NoWrap(ss: seq<SevSection>)
  {
    forall i :: 0 <= i < |ss| && (ss[i].kind == 1 || ss[i].kind == 4) && ss[i].size > 0 ==>
      ss[i].gpa + 4096 * (PageCount(ss[i].size) - 1) < 0x1_0000_0000_0000_0000
  }

  /** One section: both tools list the same records unless an address passes 2^64. */
  lemma SectionTwin(s: SevSection, page: Bytes)
    requires |page| == PAGE
    ensures NoWrap([s]) ==> PySectionPages(s, page) == SectionPages(s, page) && Fits(PySectionPages(s, page))
    ensures !NoWrap([s]) ==> !Fits(PySectionPages(s, page))
  {
    var n := PageCount(s.size);
    var rs := PySectionPages(s, page);
    if s.kind == 1 || s.kind == 4 {
      PageCountBound(s.size, 0);
      assert rs == PyZeroPages(s.gpa, n);
      if n > 0 {
        assert [s][0] == s;
        assert rs[n - 1].gpa == s.gpa + 4096 * (n - 1);
      }
    } else if s.kind == 0x10 {
      PageCountBound(PAGE, 0);
      PageCountBound(PAGE, 1);
      assert PageCount(PAGE) == 1;
    }
  }

  lemma {:induction false} SectionsTwin(ss: seq<SevSection>, page: Bytes)
    requires |page| == PAGE
    ensures NoWrap(ss) ==> PyAllSectionPages(ss, page) == AllSectionPages(ss, page) && Fits(PyAllSectionPages(ss, page))
    ensures !NoWrap(ss) ==> !Fits(PyAllSectionPages(ss, page))
  {
    if ss != [] {
      var before, s := ss[..|ss| - 1], ss[|ss| - 1];
      SectionsTwin(before, page);
      SectionTwin(s, page);
      NoWrapSplit(ss);
      FitsConcat(PyAllSectionPages(before, page), PySectionPages(s, page));
    }
  }

  lemma NoWrapSplit(ss: seq<SevSection>)
    requires ss != []
    ensures NoWrap(ss) <==> NoWrap(ss[..|ss| - 1]) && NoWrap([ss[|ss| - 1]])
  {
    var before, s := ss[..|ss| - 1], [ss[|ss| - 1]];
    assert ss == before + s;
    if NoWrap(ss) {
      assert forall i :: 0 <= i < |before| ==> before[i] == ss[i];
      assert s[0] == ss[|ss| - 1];
    }
    if NoWrap(before) && NoWrap(s) {
      forall i | 0 <= i < |ss| ensures ss[i] == if i < |before| then before[i] else s[0] {
      }
    }
  }

  lemma FitsConcat(a: seq<PageRecord>, b: seq<PageRecord>)
    ensures Fits(a + b) <==> Fits(a) && Fits(b)
  {
    if Fits(a + b) {
      forall i | 0 <= i < |a| ensures a[i].gpa < 0x1_0000_0000_0000_0000 { assert (a + b)[i] == a[i]; }
      forall i | 0 <= i < |b| ensures b[i].gpa < 0x1_0000_0000_0000_0000 { assert (a + b)[|a| + i] == b[i]; }
    }
  }

  /** What a well-formed registry entry looks like to both tools. */
  predicate StrictHex(e: SevEntry)
  {
    HexValid(e.ovmfHash) && HexValid(e.kernelHash) && HexValid(e.initrdHash)
  }

  predicate HashSizes(e: SevEntry)
  {
    |e.ovmfHash| == 96 && |e.kernelHash| == 64 && (e.initrdHash == [] || |e.initrdHash| == 64)
  }

  lemma PyHashTableAgrees(h: Hashes, e: SevEntry, cmdline: Bytes)
    requires StrictHex(e)
    ensures |e.kernelHash| == 64 && (e.initrdHash == [] || |e.initrdHash| == 64) ==>
              PyHashTable(h, e, cmdline) == Some(GoHashTable(h, e.kernelHash, e.initrdHash, cmdline))
    ensures !(|e.kernelHash| == 64 && (e.initrdHash == [] || |e.initrdHash| == 64)) ==> PyHashTable(h, e, cmdline).None?
  {
    PyFromHexAgrees(e.kernelHash);
    PyFromHexAgrees(e.initrdHash);
    HexDecodeLength(e.kernelHash);
    HexDecodeLength(e.initrdHash);
  }

  /** For entries with valid hexadecimal hashes and a table inside the page the Python tool raises
      exactly when a hash has the wrong size or an address passes 2^64, and otherwise returns the
      measurement of the Go verifier, for every vCPU count and command line. */
  lemma TwinAgrees(h: Hashes, e: SevEntry, vcpus: int, cmdline: Bytes)
    requires StrictHex(e) && TableOffset(e) <= 3920
    ensures PyMeasurement(h, e, vcpus, cmdline)
         == if HashSizes(e) && NoWrap(e.sections) then Some(Measurement(h, e, vcpus, cmdline)) else None
  {
    PyFromHexAgrees(e.ovmfHash);
    HexDecodeLength(e.ovmfHash);
    PyHashTableAgrees(h, e, cmdline);
    if HashSizes(e) {
      var t := GoHashTable(h, e.kernelHash, e.initrdHash, cmdline);
      PyHashesPageAgrees(t, TableOffset(e));
      RecordsTwin(h.sha384, HexDecode(e.ovmfHash), e, HashesPage(t, TableOffset(e)), vcpus);
    }
  }

  lemma VmsaPagesFit(eip: u32, vcpus: int)
    ensures Fits(VmsaPages(eip, vcpus))
  {
  }

  lemma JoinFolds(sha384: Sha384, ld: Bytes, go: seq<PageRecord>, py: seq<PageRecord>, vs: seq<PageRecord>, ok: bool)
    requires |ld| == 48 && Fits(vs) && (ok ==> py == go) && (ok <==> Fits(py))
    ensures PyFold(sha384, ld, py + vs) == if ok then Some(Fold(sha384, ld, go + vs)) else None
  {
    FitsConcat(py, vs);
    PyFoldMeaning(sha384, ld, py + vs);
  }

  lemma RecordsTwin(sha384: Sha384, ld: Bytes, e: SevEntry, page: Bytes, vcpus: int)
    requires |ld| == 48 && |page| == PAGE
    ensures PyFold(sha384, ld, PyRecords(e, page, vcpus))
         == if NoWrap(e.sections)
            then Some(Fold(sha384, ld, AllSectionPages(e.sections, page) + VmsaPages(e.resetEip, vcpus)))
            else None
  {
    SectionsTwin(e.sections, page);
    VmsaPagesFit(e.resetEip, vcpus);
    JoinFolds(sha384, ld, AllSectionPages(e.sections, page), PyAllSectionPages(e.sections, page),
              VmsaPages(e.resetEip, vcpus), NoWrap(e.sections));
  }

  // ---- disagreement ----

  ghost predicate DifferFromEnd(a: seq<PageRecord>, b: seq<PageRecord>, j: nat)
  {
    1 <= j <= |a| && j <= |b| && FromEnd(a, j) != FromEnd(b, j)
  }

  lemma DifferAppend(a: seq<PageRecord>, b: seq<PageRecord>, c: seq<PageRecord>, j: nat)
    requires DifferFromEnd(a, b, j)
    ensures DifferFromEnd(a + c, b + c, j + |c|)
  {
    assert FromEnd(a + c, j + |c|) == FromEnd(a, j) && FromEnd(b + c, j + |c|) == FromEnd(b, j);
  }

  lemma GrownSectionDiffers(s: SevSection, page: Bytes, grown: Bytes)
    requires |page| == PAGE < |grown| <= 2 * PAGE && s.kind == 0x10
    ensures var a, b := SectionPages(s, page), PySectionPages(s, grown);
            |a| == 1 && |b| == 2 && a[0].gpa == s.gpa && b[1].gpa == s.gpa + 4096
  {
    PageCountBound(PAGE, 0);
    PageCountBound(PAGE, 1);
    PageCountBound(|grown|, 1);
    PageCountBound(|grown|, 2);
  }

  lemma GrownLast(a: seq<PageRecord>, b: seq<PageRecord>, s: SevSection, page: Bytes, grown: Bytes)
    requires |page| == PAGE < |grown| <= 2 * PAGE && s.kind == 0x10
    ensures DifferFromEnd(a + SectionPages(s, page), b + PySectionPages(s, grown), 1)
  {
    GrownSectionDiffers(s, page, grown);
    LastOf(a, SectionPages(s, page));
    LastOf(b, PySectionPages(s, grown));
  }

  lemma LastOf(a: seq<PageRecord>, b: seq<PageRecord>)
    requires b != []
    ensures FromEnd(a + b, 1) == b[|b| - 1]
  {
  }

  lemma GrownAtLast(ss: seq<SevSection>, page: Bytes, grown: Bytes)
    requires |page| == PAGE < |grown| <= 2 * PAGE && ss != [] && ss[|ss| - 1].kind == 0x10
    ensures DifferFromEnd(AllSectionPages(ss, page), PyAllSectionPages(ss, grown), 1)
  {
    var before, s := ss[..|ss| - 1], ss[|ss| - 1];
    GrownLast(AllSectionPages(before, page), PyAllSectionPages(before, grown), s, page, grown);
  }

  lemma {:induction false} LastHashes(ss: seq<SevSection>, i: nat) returns (k: nat)
    requires i < |ss| && ss[i].kind == 0x10
    ensures k < |ss| && ss[k].kind == 0x10 && forall j :: k < j < |ss| ==> ss[j].kind != 0x10
    decreases |ss|
  {
    k := |ss| - 1;
    if ss[k].kind != 0x10 {
      k := LastHashes(ss[..k], i);
    }
  }

  lemma RegroupRecords(x: seq<PageRecord>, y: seq<PageRecord>, z: seq<PageRecord>)
    ensures x + (y + z) == (x + y) + z
  {
  }

  lemma {:induction false} GoPagesConcat(a: seq<SevSection>, b: seq<SevSection>, page: Bytes)
    ensures AllSectionPages(a + b, page) == AllSectionPages(a, page) + AllSectionPages(b, page)
    decreases |b|
  {
    if b == [] {
      assert a + b == a;
    } else {
      var init, last := b[..|b| - 1], b[|b| - 1];
      GoPagesConcat(a, init, page);
      assert (a + b)[..|a + b| - 1] == a + init && (a + b)[|a + b| - 1] == last;
      RegroupRecords(AllSectionPages(a, page), AllSectionPages(init, page), SectionPages(last, page));
    }
  }

  lemma {:induction false} PyPagesConcat(a: seq<SevSection>, b: seq<SevSection>, page: Bytes)
    ensures PyAllSectionPages(a + b, page) == PyAllSectionPages(a, page) + PyAllSectionPages(b, page)
    decreases |b|
  {
    if b == [] {
      assert a + b == a;
    } else {
      var init, last := b[..|b| - 1], b[|b| - 1];
      PyPagesConcat(a, init, page);
      assert (a + b)[..|a + b| - 1] == a + init && (a + b)[|a + b| - 1] == last;
      RegroupRecords(PyAllSectionPages(a, page), PyAllSectionPages(init, page), PySectionPages(last, page));
    }
  }

  lemma TailFits(head: seq<SevSection>, tail: seq<SevSection>, grown: Bytes)
    requires Fits(PyAllSectionPages(head + tail, grown))
    ensures Fits(PyAllSectionPages(tail, grown))
  {
    PyPagesConcat(head, tail, grown);
    FitsConcat(PyAllSectionPages(head, grown), PyAllSectionPages(tail, grown));
  }

  /** Sections that do not hold the page give the same records. */
  lemma TailAgrees(tail: seq<SevSection>, page: Bytes, grown: Bytes)
    requires |page| == PAGE && Fits(PyAllSectionPages(tail, grown))
    requires forall j :: 0 <= j < |tail| ==> tail[j].kind != 0x10
    ensures PyAllSectionPages(tail, grown) == AllSectionPages(tail, page)
  {
    PyPagesWithoutHashes(tail, grown, page);
    SectionsTwin(tail, page);
  }

  lemma DifferJoined(a: seq<PageRecord>, b: seq<PageRecord>, c: seq<PageRecord>, k: nat, a': seq<PageRecord>,
                     b': seq<PageRecord>)
    requires DifferFromEnd(a, b, k) && a' == a + c && b' == b + c
    ensures DifferFromEnd(a', b', k + |c|)
  {
    DifferAppend(a, b, c, k);
  }

  lemma DifferBefore(head: seq<SevSection>, tail: seq<SevSection>, page: Bytes, grown: Bytes, k: nat)
    requires DifferFromEnd(AllSectionPages(head, page), PyAllSectionPages(head, grown), k)
    requires PyAllSectionPages(tail, grown) == AllSectionPages(tail, page)
    ensures DifferFromEnd(AllSectionPages(head + tail, page), PyAllSectionPages(head + tail, grown),
                          k + |AllSectionPages(tail, page)|)
  {
    GoPagesConcat(head, tail, page);
    PyPagesConcat(head, tail, grown);
    DifferJoined(AllSectionPages(head, page), PyAllSectionPages(head, grown), AllSectionPages(tail, page), k,
                 AllSectionPages(head + tail, page), PyAllSectionPages(head + tail, grown));
  }

  /** When the grown page needs a second update, the last kernel-hashes section tells the lists apart. */
  lemma GrownPageDiffers(ss: seq<SevSection>, page: Bytes, grown: Bytes, i: nat) returns (j: nat)
    requires |page| == PAGE < |grown| <= 2 * PAGE
    requires i < |ss| && ss[i].kind == 0x10
    requires Fits(PyAllSectionPages(ss, grown))
    ensures DifferFromEnd(AllSectionPages(ss, page), PyAllSectionPages(ss, grown), j)
  {
    var k := LastHashes(ss, i);
    var head, tail := ss[..k + 1], ss[k + 1..];
    assert ss == head + tail;
    j := 1 + |AllSectionPages(tail, page)|;
    assert PyAllSectionPages(tail, grown) == AllSectionPages(tail, page) by {
      TailFits(head, tail, grown);
      TailAgrees(tail, page, grown);
    }
    assert DifferFromEnd(AllSectionPages(head, page), PyAllSectionPages(head, grown), 1) by {
      GrownAtLast(head, page, grown);
    }
    DifferBefore(head, tail, page, grown, 1);
  }

  lemma {:induction false} PyRecordsWellFormed(ss: seq<SevSection>, page: Bytes)
    requires Fits(PyAllSectionPages(ss, page))
    ensures AllWellFormed(PyAllSectionPages(ss, page))
  {
    if ss != [] {
      var before, s := ss[..|ss| - 1], ss[|ss| - 1];
      FitsConcat(PyAllSectionPages(before, page), PySectionPages(s, page));
      PyRecordsWellFormed(before, page);
      forall r | r in PySectionPages(s, page) ensures r.WellFormed() {
        var i :| 0 <= i < |PySectionPages(s, page)| && PySectionPages(s, page)[i] == r;
      }
    }
  }

  /** Where an entry measures a kernel-hashes page whose table starts past offset 3920 the tools disagree: whenever
      the Python tool returns the Go measurement there, the two runs exhibit a SHA-384 collision. */
  lemma TwinDiverges(h: Hashes, e: SevEntry, vcpus: int, cmdline: Bytes)
    requires StrictHex(e) && TableOffset(e) > 3920 && HasHashesSection(e)
    requires PyMeasurement(h, e, vcpus, cmdline) == Some(Measurement(h, e, vcpus, cmdline))
    ensures TwinsCollide(h, e, vcpus, cmdline)
  {
    PyFromHexAgrees(e.ovmfHash);
    PyHashTableAgrees(h, e, cmdline);
    var ld := HexDecode(e.ovmfHash);
    var t := PyHashTable(h, e, cmdline).value;
    var page, grown := EntryHashesPage(h, e, cmdline), PyHashesPage(t, TableOffset(e));
    var vs := VmsaPages(e.resetEip, vcpus);
    var rs, rs' := Records(h, e, vcpus, cmdline), PyRecords(e, grown, vcpus);
    PyFoldMeaning(h.sha384, ld, rs');
    FitsConcat(PyAllSectionPages(e.sections, grown), vs);
    HexInjective(Fold(h.sha384, ld, rs), Fold(h.sha384, ld, rs'));
    var i :| 0 <= i < |e.sections| && e.sections[i].kind == 0x10;
    var j := GrownPageDiffers(e.sections, page, grown, i);
    DifferAppend(AllSectionPages(e.sections, page), PyAllSectionPages(e.sections, grown), vs, j);
    RecordsWellFormed(h, e, vcpus, cmdline);
    PyRecordsWellFormed(e.sections, grown);
    assert AllWellFormed(rs') by {
      forall r | r in vs ensures r.WellFormed() {
      }
    }
    FoldBinds(h.sha384, ld, rs, ld, rs', j + |vs|);
  }

  /** Inputs of the Go and of the Python run collide under SHA-384. */
  ghost predicate TwinsCollide(h: Hashes, e: SevEntry, vcpus: int, cmdline: Bytes)
  {
    match PyHashTable(h, e, cmdline)
    case None => false
    case Some(t) =>
      Collides(h.sha384, HexDecode(e.ovmfHash), Records(h, e, vcpus, cmdline), HexDecode(e.ovmfHash),
               PyRecords(e, PyHashesPage(t, TableOffset(e)), vcpus))
  }

  // ---- entries without a kernel-hashes section, and all entries ----

  lemma {:induction false} PyPagesWithoutHashes(ss: seq<SevSection>, p: Bytes, p': Bytes)
    requires forall i :: 0 <= i < |ss| ==> ss[i].kind != 0x10
    ensures PyAllSectionPages(ss, p) == PyAllSectionPages(ss, p')
  {
    if ss != [] {
      PyPagesWithoutHashes(ss[..|ss| - 1], p, p');
    }
  }

  /** The page the tools differ in is not measured. */
  lemma TwinAgreesWithoutHashes(h: Hashes, e: SevEntry, vcpus: int, cmdline: Bytes)
    requires StrictHex(e) && !HasHashesSection(e)
    ensures PyMeasurement(h, e, vcpus, cmdline)
         == if HashSizes(e) && NoWrap(e.sections) then Some(Measurement(h, e, vcpus, cmdline)) else None
  {
    PyFromHexAgrees(e.ovmfHash);
    HexDecodeLength(e.ovmfHash);
    PyHashTableAgrees(h, e, cmdline);
    if HashSizes(e) {
      var t := GoHashTable(h, e.kernelHash, e.initrdHash, cmdline);
      var page := HashesPage(t, TableOffset(e));
      PyPagesWithoutHashes(e.sections, PyHashesPage(t, TableOffset(e)), page);
      RecordsTwin(h.sha384, HexDecode(e.ovmfHash), e, page, vcpus);
    }
  }

  // ---- when the Python tool raises on a grown page ----

  /** No second update of a grown kernel-hashes page passes 2^64. */
  predicate GrownFits(ss: seq<SevSection>)
  {
    forall i :: 0 <= i < |ss| && ss[i].kind == 0x10 ==> ss[i].gpa + 4096 < 0x1_0000_0000_0000_0000
  }

  lemma GrownFitsSplit(ss: seq<SevSection>)
    requires ss != []
    ensures GrownFits(ss) <==> GrownFits(ss[..|ss| - 1]) && GrownFits([ss[|ss| - 1]])
  {
    var before, s := ss[..|ss| - 1], [ss[|ss| - 1]];
    assert ss == before + s;
    if GrownFits(ss) {
      assert forall i :: 0 <= i < |before| ==> before[i] == ss[i];
      assert s[0] == ss[|ss| - 1];
    }
    if GrownFits(before) && GrownFits(s) {
      forall i | 0 <= i < |ss| ensures ss[i] == if i < |before| then before[i] else s[0] {
      }
    }
  }

  lemma GrownSectionFits(s: SevSection, grown: Bytes)
    requires PAGE < |grown| <= 2 * PAGE
    ensures Fits(PySectionPages(s, grown)) <==> NoWrap([s]) && GrownFits([s])
  {
    var rs := PySectionPages(s, grown);
    assert [s][0] == s;
    if s.kind == 0x10 {
      PageCountBound(|grown|, 1);
      PageCountBound(|grown|, 2);
      assert |rs| == 2 && rs[0].gpa == s.gpa && rs[1].gpa == s.gpa + 4096;
    } else {
      SectionTwin(s, Zeros(PAGE));
      assert rs == PySectionPages(s, Zeros(PAGE));
    }
  }

  lemma {:induction false} GrownAllFit(ss: seq<SevSection>, grown: Bytes)
    requires PAGE < |grown| <= 2 * PAGE
    ensures Fits(PyAllSectionPages(ss, grown)) <==> NoWrap(ss) && GrownFits(ss)
  {
    if ss != [] {
      var before, s := ss[..|ss| - 1], ss[|ss| - 1];
      GrownAllFit(before, grown);
      GrownSectionFits(s, grown);
      NoWrapSplit(ss);
      GrownFitsSplit(ss);
      FitsConcat(PyAllSectionPages(before, grown), PySectionPages(s, grown));
    }
  }

  lemma GrownReturns(h: Hashes, e: SevEntry, vcpus: int, cmdline: Bytes)
    requires StrictHex(e) && TableOffset(e) > 3920
    ensures PyMeasurement(h, e, vcpus, cmdline).Some?
       <==> HashSizes(e) && NoWrap(e.sections) && GrownFits(e.sections)
  {
    PyFromHexAgrees(e.ovmfHash);
    HexDecodeLength(e.ovmfHash);
    PyHashTableAgrees(h, e, cmdline);
    if HashSizes(e) {
      var grown := PyHashesPage(GoHashTable(h, e.kernelHash, e.initrdHash, cmdline), TableOffset(e));
      var vs := VmsaPages(e.resetEip, vcpus);
      GrownAllFit(e.sections, grown);
      VmsaPagesFit(e.resetEip, vcpus);
      FitsConcat(PyAllSectionPages(e.sections, grown), vs);
      PyFoldMeaning(h.sha384, HexDecode(e.ovmfHash), PyRecords(e, grown, vcpus));
    }
  }

  /** The tools measure the same pages. */
  predicate SamePages(e: SevEntry)
  {
    TableOffset(e) <= 3920 || !HasHashesSection(e)
  }

  /** For every entry with valid hexadecimal hashes, every vCPU count and command line: where both tools measure
      the same pages, the Python tool raises exactly for a hash of the wrong size or an address past 2^64 and
      otherwise returns the Go measurement; elsewhere it also raises for the address of a second hashes page, and
      returns the Go measurement only with a SHA-384 collision. */
  lemma TwinExact(h: Hashes, e: SevEntry, vcpus: int, cmdline: Bytes)
    requires StrictHex(e)
    ensures var py, go := PyMeasurement(h, e, vcpus, cmdline), Measurement(h, e, vcpus, cmdline);
            && (SamePages(e) ==> py == if HashSizes(e) && NoWrap(e.sections) then Some(go) else None)
            && (!SamePages(e) ==>
                  && (py.Some? <==> HashSizes(e) && NoWrap(e.sections) && GrownFits(e.sections))
                  && (py == Some(go) ==> TwinsCollide(h, e, vcpus, cmdline)))
  {
    if !HasHashesSection(e) {
      TwinAgreesWithoutHashes(h, e, vcpus, cmdline);
    } else if TableOffset(e) <= 3920 {
      TwinAgrees(h, e, vcpus, cmdline);
    } else {
      GrownReturns(h, e, vcpus, cmdline);
      if PyMeasurement(h, e, vcpus, cmdline) == Some(Measurement(h, e, vcpus, cmdline)) {
        TwinDiverges(h, e, vcpus, cmdline);
      }
    }
  }
}
