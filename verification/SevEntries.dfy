/** Compose binding across registry entries: equal measurements bind the compose text although OVMF digest,
    sections, vCPU count and kernel may differ. */
module SevEntries {
  import opened ByteStrings
  import opened Hashing
  import opened SevLayout
  import opened SevDigest
  import opened SevBinding

  // ---- the kernel-hashes pages of two runs meet ----

  /** Only kernel-hashes sections are measured as normal pages. */
  lemma {:induction false} NormalRecordsHoldPage(ss: seq<SevSection>, page: Bytes)
    requires |page| == PAGE
    ensures forall r :: r in AllSectionPages(ss, page) && r.ptype == 1 ==> r.page == Some(page)
  {
    if ss != [] {
      NormalRecordsHoldPage(ss[..|ss| - 1], page);
      SectionHoldsPage(ss[|ss| - 1], page);
    }
  }

  lemma SectionHoldsPage(s: SevSection, page: Bytes)
    requires |page| == PAGE
    ensures forall r :: r in SectionPages(s, page) && r.ptype == 1 ==> r.page == Some(page)
    ensures s.kind == 0x10 ==> |SectionPages(s, page)| == 1 && SectionPages(s, page)[0].ptype == 1
  {
    PageCountBound(PAGE, 0);
    PageCountBound(PAGE, 1);
    assert Chunk(page, 0) == page;
  }

  /** How far from the end a normal page stands. */
  lemma {:induction false} HashesRecord(ss: seq<SevSection>, page: Bytes, i: nat) returns (j: nat)
    requires |page| == PAGE && i < |ss| && ss[i].kind == 0x10
    ensures 1 <= j <= |AllSectionPages(ss, page)| && FromEnd(AllSectionPages(ss, page), j).ptype == 1
  {
    var before, last := ss[..|ss| - 1], ss[|ss| - 1];
    SectionHoldsPage(last, page);
    if i == |ss| - 1 {
      j := 1;
    } else {
      var k := HashesRecord(before, page, i);
      j := k + |SectionPages(last, page)|;
      FromEndAppend(AllSectionPages(before, page), SectionPages(last, page), k);
    }
  }

  lemma FromEndAppend(a: seq<PageRecord>, b: seq<PageRecord>, k: nat)
    requires 1 <= k <= |a|
    ensures k + |b| <= |a + b| && FromEnd(a + b, k + |b|) == FromEnd(a, k)
  {
  }

  /** Records of a whole run: a normal page stands somewhere, and every normal page is the kernel-hashes page. */
  ghost predicate HoldsPage(rs: seq<PageRecord>, page: Bytes, j: nat)
  {
    && 1 <= j <= |rs| && FromEnd(rs, j).ptype == 1
    && forall r :: r in rs && r.ptype == 1 ==> r.page == Some(page)
  }

  lemma JoinHoldsPage(a: seq<PageRecord>, vs: seq<PageRecord>, page: Bytes, k: nat)
    requires 1 <= k <= |a| && FromEnd(a, k).ptype == 1
    requires forall r :: r in a && r.ptype == 1 ==> r.page == Some(page)
    requires forall r :: r in vs ==> r.ptype == 2
    ensures HoldsPage(a + vs, page, k + |vs|)
  {
    FromEndAppend(a, vs, k);
  }

  lemma VmsaTypes(eip: u32, n: int)
    ensures forall r :: r in VmsaPages(eip, n) ==> r.ptype == 2
  {
  }

  lemma SectionsHoldPage(ss: seq<SevSection>, page: Bytes, eip: u32, n: int, i: nat) returns (j: nat)
    requires |page| == PAGE && i < |ss| && ss[i].kind == 0x10
    ensures HoldsPage(AllSectionPages(ss, page) + VmsaPages(eip, n), page, j)
  {
    var k := HashesRecord(ss, page, i);
    NormalRecordsHoldPage(ss, page);
    VmsaTypes(eip, n);
    JoinHoldsPage(AllSectionPages(ss, page), VmsaPages(eip, n), page, k);
    j := k + |VmsaPages(eip, n)|;
  }

  lemma RunHoldsPage(h: Hashes, e: SevEntry, n: int, c: Bytes) returns (j: nat)
    requires HasHashesSection(e)
    ensures HoldsPage(Records(h, e, n, c), EntryHashesPage(h, e, c), j)
  {
    var i :| 0 <= i < |e.sections| && e.sections[i].kind == 0x10;
    j := SectionsHoldPage(e.sections, EntryHashesPage(h, e, c), e.resetEip, n, i);
  }

  lemma PagesMeet(rs: seq<PageRecord>, p: Bytes, j: nat, rs': seq<PageRecord>, p': Bytes, j': nat, k: nat)
    requires HoldsPage(rs, p, j) && HoldsPage(rs', p', j') && k == (if j < j' then j else j') && SameTail(rs, rs', k)
    ensures p == p'
  {
    var r := FromEnd(rs, k);
    assert r == FromEnd(rs', k);
    assert r in rs && r in rs' && r.ptype == 1;
  }

  /** Some input that one run hashed collides with one of the other: a PAGE_INFO or page under SHA-384, or the
      command line or the compose text under SHA-256. */
  ghost predicate EntriesCollide(h: Hashes, e: SevEntry, n: int, compose: Bytes, e': SevEntry, n': int, compose': Bytes)
  {
    var c, c' := ComposeCmdline(h, e, compose), ComposeCmdline(h, e', compose');
    || Collides(h.sha384, HexDecode(e.ovmfHash), Records(h, e, n, c), HexDecode(e'.ovmfHash), Records(h, e', n', c'))
    || CollisionBetween(h.sha256, {compose, CmdlineBytes(c)}, {compose', CmdlineBytes(c')})
  }

  lemma SamePages(h: Hashes, e: SevEntry, n: int, c: Bytes, e': SevEntry, n': int, c': Bytes)
    requires HasHashesSection(e) && HasHashesSection(e') && Measurement(h, e, n, c) == Measurement(h, e', n', c')
    ensures || Collides(h.sha384, HexDecode(e.ovmfHash), Records(h, e, n, c), HexDecode(e'.ovmfHash),
                        Records(h, e', n', c'))
            || EntryHashesPage(h, e, c) == EntryHashesPage(h, e', c')
  {
    var rs, rs' := Records(h, e, n, c), Records(h, e', n', c');
    var j := RunHoldsPage(h, e, n, c);
    var j' := RunHoldsPage(h, e', n', c');
    var k := if j < j' then j else j';
    HexInjective(LaunchDigest(h, e, n, c), LaunchDigest(h, e', n', c'));
    RecordsWellFormed(h, e, n, c);
    RecordsWellFormed(h, e', n', c');
    FoldBinds(h.sha384, HexDecode(e.ovmfHash), rs, HexDecode(e'.ovmfHash), rs', k);
    if SameTail(rs, rs', k) {
      PagesMeet(rs, EntryHashesPage(h, e, c), j, rs', EntryHashesPage(h, e', c'), j', k);
    }
  }

  // ---- from the page to the compose text ----

  lemma PageBindsCmdline(h: Hashes, e: SevEntry, c: Bytes, e': SevEntry, c': Bytes)
    requires TableOffset(e) + 68 <= PAGE && EntryHashesPage(h, e, c) == EntryHashesPage(h, e', c')
    ensures c == c' || CollisionBetween(h.sha256, {CmdlineBytes(c)}, {CmdlineBytes(c')})
  {
    var t, t' := GoHashTable(h, e.kernelHash, e.initrdHash, c), GoHashTable(h, e'.kernelHash, e'.initrdHash, c');
    TableStarts(h.sha256(CmdlineBytes(c)), InitrdHash(h, e.initrdHash), HexDecode(e.kernelHash));
    TableStarts(h.sha256(CmdlineBytes(c')), InitrdHash(h, e'.initrdHash), HexDecode(e'.kernelHash));
    HashesPageOffset(t, TableOffset(e), t', TableOffset(e'));
    HashesPageBindsCmdline(t, t', TableOffset(e));
    assert h.sha256(CmdlineBytes(c)) == h.sha256(CmdlineBytes(c'));
    if c != c' {
      assert CmdlineBytes(c)[..|c|] == c && CmdlineBytes(c')[..|c'|] == c';
      assert CmdlineBytes(c) in {CmdlineBytes(c)} && CmdlineBytes(c') in {CmdlineBytes(c')};
    }
  }

  /** The command line, read from its end. */
  lemma CmdlineEnd(e: SevEntry, a: Bytes)
    ensures var c, tail := BuildCmdline(e, a), |Ascii(" rootfs_hash=")| + |e.rootfsHash|;
            && |c| >= tail + |a| && c[|c| - |e.rootfsHash|..] == e.rootfsHash
            && c[|c| - tail - |a|..|c| - tail] == a
  {
    var mid := Ascii(" rootfs_hash=");
    var c := BuildCmdline(e, a);
    var lead := |c| - |mid| - |e.rootfsHash| - |a|;
    assert c == c[..lead] + a + mid + e.rootfsHash;
  }

  const SPACE: byte := ' ' as int

  /** The root file system texts have one length or, like all hash texts, no space; then the last field of a command
      line shows where it starts. */
  predicate RootfsAlike(e: SevEntry, e': SevEntry)
  {
    |e.rootfsHash| == |e'.rootfsHash| || (SPACE !in e.rootfsHash && SPACE !in e'.rootfsHash)
  }

  /** The last space of a command line is that before the last field. */
  lemma LastSpace(e: SevEntry, a: Bytes, k: nat)
    requires SPACE !in e.rootfsHash
    ensures var c, start := BuildCmdline(e, a), |BuildCmdline(e, a)| - |e.rootfsHash| - |Ascii(" rootfs_hash=")|;
            && 0 <= start < |c| && c[start] == SPACE && (start < k < |c| ==> c[k] != SPACE)
  {
    var mid := Ascii(" rootfs_hash=");
    var c := BuildCmdline(e, a);
    var start := |c| - |e.rootfsHash| - |mid|;
    assert |mid| == 13 && mid[0] == SPACE && forall i :: 0 < i < 13 ==> mid[i] != SPACE;
    assert c == c[..start] + mid + e.rootfsHash;
    if start < k < |c| {
      if k < start + 13 {
        assert c[k] == mid[k - start];
      } else {
        assert c[k] == e.rootfsHash[k - start - 13];
      }
    }
  }

  lemma RootfsLengths(e: SevEntry, a: Bytes, e': SevEntry, a': Bytes)
    requires RootfsAlike(e, e') && BuildCmdline(e, a) == BuildCmdline(e', a')
    ensures |e.rootfsHash| == |e'.rootfsHash|
  {
    if |e.rootfsHash| != |e'.rootfsHash| {
      var n, tail := |BuildCmdline(e, a)|, |Ascii(" rootfs_hash=")|;
      LastSpace(e, a, n - |e'.rootfsHash| - tail);
      LastSpace(e', a', n - |e.rootfsHash| - tail);
    }
  }

  lemma CmdlineBindsBoth(e: SevEntry, a: Bytes, e': SevEntry, a': Bytes)
    requires |a| == |a'| && RootfsAlike(e, e') && BuildCmdline(e, a) == BuildCmdline(e', a')
    ensures a == a' && e.rootfsHash == e'.rootfsHash
  {
    RootfsLengths(e, a, e', a');
    CmdlineEnd(e, a);
    CmdlineEnd(e', a');
  }

  /** The measurements of two entries can be compared: both show the kernel-hashes page, one shows the whole hash of the
      command line, and the root file system texts are alike. */
  predicate Comparable(e: SevEntry, e': SevEntry)
  {
    && HasHashesSection(e) && HasHashesSection(e') && TableOffset(e) + 68 <= PAGE
    && RootfsAlike(e, e')
  }

  /** Across entries and vCPU counts: equal measurements mean the same compose text and root file system, or a
      collision. */
  lemma ComposeBoundAcross(h: Hashes, e: SevEntry, n: int, compose: Bytes, e': SevEntry, n': int, compose': Bytes)
    requires Comparable(e, e')
    requires ComposeMeasurement(h, e, n, compose) == ComposeMeasurement(h, e', n', compose')
    ensures (compose == compose' && e.rootfsHash == e'.rootfsHash) || EntriesCollide(h, e, n, compose, e', n', compose')
  {
    var c, c' := ComposeCmdline(h, e, compose), ComposeCmdline(h, e', compose');
    SamePages(h, e, n, c, e', n', c');
    if !EntriesCollide(h, e, n, compose, e', n', compose') {
      PageBindsCmdline(h, e, c, e', c');
      var a, b := {compose, CmdlineBytes(c)}, {compose', CmdlineBytes(c')};
      CollisionMonotone(h.sha256, {CmdlineBytes(c)}, {CmdlineBytes(c')}, a, b);
      var d, d' := h.sha256(compose), h.sha256(compose');
      CmdlineBindsBoth(e, HexEncode(d), e', HexEncode(d'));
      HexInjective(d, d');
      assert compose in a && compose' in b;
    }
  }
}
