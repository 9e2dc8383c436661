/** Byte layouts of the SEV-SNP launch measurement: PAGE_INFO (Table 67, section 8.17.2
    of the AMD SEV-SNP firmware ABI specification), the VMSA page and the QEMU
    kernel-hashes page. Each layout has a reference definition as consecutive fields and
    a method that fills a zeroed buffer in place at absolute offsets, as the Go code does. */
module SevLayout {
  import opened ByteStrings
  import opened Hashing

  const PAGE: nat := 4096
  const BSP_EIP: u32 := 0xfffffff0

  // ---- PAGE_INFO ----

  function PageInfo(ld: Bytes, contents: Bytes, ptype: byte, gpa: nat): (b: Bytes)
    ensures |b| == 0x70
  {
    Pad(ld, 48) + Pad(contents, 48) + LE(0x70, 2) + [ptype] + Zeros(5) + LE(gpa, 8)
  }

  lemma PageInfoFields(ld: Bytes, contents: Bytes, ptype: byte, gpa: nat)
    ensures var b := PageInfo(ld, contents, ptype, gpa);
            b[..48] == Pad(ld, 48) && b[48..96] == Pad(contents, 48) && b[98] == ptype && b[104..] == LE(gpa, 8)
  {
  }

  /** PAGE_INFO determines its digest, contents, page type and guest address. */
  lemma PageInfoInjective(ld: Bytes, c: Bytes, t: byte, g: u64, ld': Bytes, c': Bytes, t': byte, g': u64)
    requires PageInfo(ld, c, t, g) == PageInfo(ld', c', t', g')
    ensures Pad(ld, 48) == Pad(ld', 48) && Pad(c, 48) == Pad(c', 48) && t == t' && g == g'
  {
    PageInfoFields(ld, c, t, g);
    PageInfoFields(ld', c', t', g');
    LEInjective8(g, g');
  }

  /** Puts one field behind the finished prefix of a zeroed buffer. */
  method PutField(buf: array<byte>, ghost prefix: Bytes, off: nat, b: Bytes) returns (ghost next: Bytes)
    requires |prefix| <= off && off + |b| <= buf.Length
    requires buf[..] == prefix + Zeros(buf.Length - |prefix|)
    modifies buf
    ensures next == prefix + Zeros(off - |prefix|) + b
    ensures off == |prefix| ==> next == prefix + b
    ensures |next| == off + |b|
    ensures buf[..] == next + Zeros(buf.Length - |next|)
  {
    CopyWindow(buf, off, off + |b|, b);
    next := prefix + Zeros(off - |prefix|) + b;
    OverwriteExtends(prefix, buf.Length - |prefix|, off, b);
  }

  /** Puts one field directly behind the finished prefix. */
  method PutNext(buf: array<byte>, ghost prefix: Bytes, off: nat, b: Bytes) returns (ghost next: Bytes)
    requires |prefix| == off && off + |b| <= buf.Length
    requires buf[..] == prefix + Zeros(buf.Length - |prefix|)
    modifies buf
    ensures next == prefix + b && buf[..] == next + Zeros(buf.Length - |next|)
  {
    next := PutField(buf, prefix, off, b);
  }

  /** Puts a field of n bytes directly behind the prefix; a shorter source leaves zeros, a longer one is cut. */
  method PutPadded(buf: array<byte>, ghost prefix: Bytes, off: nat, src: Bytes, n: nat) returns (ghost next: Bytes)
    requires |prefix| == off && off + n <= buf.Length
    requires buf[..] == prefix + Zeros(buf.Length - |prefix|)
    modifies buf
    ensures next == prefix + Pad(src, n) && buf[..] == next + Zeros(buf.Length - |next|)
  {
    ghost var put := PutNext(buf, prefix, off, Fit(src, n));
    PaddedPrefix(prefix, src, n, buf.Length - off - n);
    next := prefix + Pad(src, n);
  }

  lemma PaddedPrefix(prefix: Bytes, src: Bytes, n: nat, rest: nat)
    ensures (prefix + Fit(src, n)) + Zeros(n - |Fit(src, n)| + rest) == (prefix + Pad(src, n)) + Zeros(rest)
  {
  }

  method GctxUpdate(sha384: Sha384, ld: Bytes, ptype: byte, gpa: u64, contents: Bytes) returns (digest: Bytes48)
    ensures digest == sha384(PageInfo(ld, contents, ptype, gpa))
  {
    var buf := new byte[0x70](_ => 0);
    assert buf[..] == [] + Zeros(0x70);
    ghost var p := PutPadded(buf, [], 0, ld, 48);
    p := PutPadded(buf, p, 48, contents, 48);
    p := PutNext(buf, p, 96, LE(0x70, 2));
    p := PutNext(buf, p, 98, [ptype]);
    p := PutField(buf, p, 104, LE(gpa, 8));
    assert p == PageInfo(ld, contents, ptype, gpa) && buf[..] == p;
    digest := sha384(buf[..]);
  }

  // ---- VMSA page ----
  // Each part takes the bytes before it, so the page reads as one run of fields and gaps.

  function Segment(prefix: Bytes, sel: nat, attr: nat, lim: nat, base: nat): (b: Bytes)
    ensures |b| == |prefix| + 16 && prefix <= b
    ensures b[|prefix| + 8..] == LE(base, 8)
  {
    prefix + LE(sel, 2) + LE(attr, 2) + LE(lim, 4) + LE(base, 8)
  }

  /** es and cs. */
  function CodeSegments(csBase: nat): (b: Bytes)
    ensures |b| == 32 && b[24..] == LE(csBase, 8)
  {
    Segment(Segment([], 0, 0x93, 0xffff, 0), 0xf000, 0x9b, 0xffff, csBase)
  }

  /** ss, ds, fs and gs. */
  function DataSegments(prefix: Bytes): (b: Bytes)
    ensures |b| == |prefix| + 64 && prefix <= b
  {
    Segment(Segment(Segment(Segment(prefix, 0, 0x93, 0xffff, 0), 0, 0x93, 0xffff, 0), 0, 0x93, 0xffff, 0),
            0, 0x93, 0xffff, 0)
  }

  /** gdtr, ldtr, idtr and tr. */
  function SystemSegments(prefix: Bytes): (b: Bytes)
    ensures |b| == |prefix| + 64 && prefix <= b
  {
    Segment(Segment(Segment(Segment(prefix, 0, 0, 0xffff, 0), 0, 0x82, 0xffff, 0), 0, 0, 0xffff, 0),
            0, 0x8b, 0xffff, 0)
  }

  /** efer, cr4, cr0, dr7, dr6 and rflags. */
  function ControlRegisters(prefix: Bytes): (b: Bytes)
    ensures |b| == |prefix| + 0xd8 && prefix <= b
  {
    prefix + Zeros(0x30) + LE(0x1000, 8) + Zeros(0x70) + LE(0x40, 8) + Zeros(8) + LE(0x10, 8)
    + LE(0x400, 8) + LE(0xffff0ff0, 8) + LE(2, 8)
  }

  /** g_pat, rdx and sev_features. */
  function FeatureRegisters(prefix: Bytes, sig: nat, feat: nat): (b: Bytes)
    ensures |b| == |prefix| + 0x238 && prefix <= b
  {
    prefix + Zeros(0xe8) + LE(0x0007040600070406, 8) + Zeros(0xa0) + LE(sig, 8) + Zeros(0x98) + LE(feat, 8)
  }

  /** xcr0, mxcsr and x87_fcw. */
  function FloatRegisters(prefix: Bytes): (b: Bytes)
    ensures |b| == |prefix| + 0x5a && prefix <= b
  {
    prefix + Zeros(0x30) + LE(1, 8) + Zeros(0x18) + LE(0x1f80, 4) + Zeros(4) + LE(0x037f, 2)
  }

  function CsBase(eip: u32): u32 { eip - eip % 0x1_0000 }
  function Rip(eip: u32): u32 { eip % 0x1_0000 }

  function UpToRip(eip: u32): (b: Bytes)
    ensures |b| == 0x180
    ensures b[..32] == CodeSegments(CsBase(eip)) && b[0x178..] == LE(Rip(eip), 8)
  {
    ControlRegisters(SystemSegments(DataSegments(CodeSegments(CsBase(eip))))) + LE(Rip(eip), 8)
  }

  function VmsaPage(eip: u32, sig: u32, feat: u64): (b: Bytes)
    ensures |b| == PAGE && UpToRip(eip) <= b
  {
    FloatRegisters(FeatureRegisters(UpToRip(eip), sig, feat)) + Zeros(PAGE - 0x412)
  }

  /** Different reset vectors give different VMSA pages. */
  lemma VmsaPageInjective(eip: u32, eip': u32, sig: u32, feat: u64)
    requires VmsaPage(eip, sig, feat) == VmsaPage(eip', sig, feat)
    ensures eip == eip'
  {
    var u, u' := UpToRip(eip), UpToRip(eip');
    assert u == VmsaPage(eip, sig, feat)[..0x180] && u' == VmsaPage(eip', sig, feat)[..0x180];
    assert u[..32][24..] == LE(CsBase(eip), 8) && u'[..32][24..] == LE(CsBase(eip'), 8);
    LEInjective8(CsBase(eip), CsBase(eip'));
    LEInjective8(Rip(eip), Rip(eip'));
  }

  method VmcbSeg(page: array<byte>, ghost prefix: Bytes, off: nat, sel: nat, attr: nat, lim: nat, base: nat)
    returns (ghost next: Bytes)
    requires |prefix| == off && off + 16 <= page.Length
    requires page[..] == prefix + Zeros(page.Length - |prefix|)
    modifies page
    ensures next == Segment(prefix, sel, attr, lim, base)
    ensures page[..] == next + Zeros(page.Length - |next|)
  {
    next := PutNext(page, prefix, off, LE(sel, 2));
    next := PutNext(page, next, off + 2, LE(attr, 2));
    next := PutNext(page, next, off + 4, LE(lim, 4));
    next := PutNext(page, next, off + 8, LE(base, 8));
  }

  method PutSegments(page: array<byte>, csBase: u32) returns (ghost p: Bytes)
    requires page.Length == PAGE && page[..] == Zeros(PAGE)
    modifies page
    ensures p == SystemSegments(DataSegments(CodeSegments(csBase)))
    ensures page[..] == p + Zeros(PAGE - |p|)
  {
    assert page[..] == [] + Zeros(PAGE);
    p := VmcbSeg(page, [], 0x000, 0, 0x0093, 0xffff, 0);
    p := VmcbSeg(page, p, 0x010, 0xf000, 0x009b, 0xffff, csBase);
    p := VmcbSeg(page, p, 0x020, 0, 0x0093, 0xffff, 0);
    p := VmcbSeg(page, p, 0x030, 0, 0x0093, 0xffff, 0);
    p := VmcbSeg(page, p, 0x040, 0, 0x0093, 0xffff, 0);
    p := VmcbSeg(page, p, 0x050, 0, 0x0093, 0xffff, 0);
    p := VmcbSeg(page, p, 0x060, 0, 0x0000, 0xffff, 0);
    p := VmcbSeg(page, p, 0x070, 0, 0x0082, 0xffff, 0);
    p := VmcbSeg(page, p, 0x080, 0, 0x0000, 0xffff, 0);
    p := VmcbSeg(page, p, 0x090, 0, 0x008b, 0xffff, 0);
  }

  method PutControlRegisters(page: array<byte>, ghost prefix: Bytes) returns (ghost p: Bytes)
    requires page.Length == PAGE && |prefix| == 0xa0
    requires page[..] == prefix + Zeros(PAGE - |prefix|)
    modifies page
    ensures p == ControlRegisters(prefix)
    ensures page[..] == p + Zeros(PAGE - |p|)
  {
    p := PutField(page, prefix, 0x0d0, LE(0x1000, 8));
    p := PutField(page, p, 0x148, LE(0x40, 8));
    p := PutField(page, p, 0x158, LE(0x10, 8));
    p := PutField(page, p, 0x160, LE(0x400, 8));
    p := PutField(page, p, 0x168, LE(0xffff0ff0, 8));
    p := PutField(page, p, 0x170, LE(0x2, 8));
  }

  method PutLateRegisters(page: array<byte>, ghost prefix: Bytes, sig: u32, feat: u64) returns (ghost p: Bytes)
    requires page.Length == PAGE && |prefix| == 0x180
    requires page[..] == prefix + Zeros(PAGE - |prefix|)
    modifies page
    ensures p == FloatRegisters(FeatureRegisters(prefix, sig, feat))
    ensures page[..] == p + Zeros(PAGE - |p|)
  {
    p := PutField(page, prefix, 0x268, LE(0x0007040600070406, 8));
    p := PutField(page, p, 0x310, LE(sig, 8));
    p := PutField(page, p, 0x3b0, LE(feat, 8));
    p := PutField(page, p, 0x3e8, LE(0x1, 8));
    p := PutField(page, p, 0x408, LE(0x1f80, 4));
    p := PutField(page, p, 0x410, LE(0x037f, 2));
  }

  method BuildVmsaPage(eip: u32, sig: u32, feat: u64) returns (r: Bytes)
    ensures r == VmsaPage(eip, sig, feat)
  {
    var page := new byte[PAGE](_ => 0);
    assert page[..] == Zeros(PAGE);
    ghost var p := PutSegments(page, CsBase(eip));
    p := PutControlRegisters(page, p);
    p := PutField(page, p, 0x178, LE(Rip(eip), 8));
    p := PutLateRegisters(page, p, sig, feat);
    r := page[..];
  }

  // ---- kernel hashes page ----

  const HEADER_GUID: Bytes := [0x94, 0x38, 0xd6, 0x06, 0x4f, 0x22, 0x4c, 0xc9, 0xb4, 0x79, 0xa7, 0x93, 0xd4, 0x11,
                               0xfd, 0x21]
  const KERNEL_GUID: Bytes := [0x4d, 0xe7, 0x94, 0x37, 0xab, 0xd2, 0x42, 0x7f, 0xb8, 0x35, 0xd5, 0xb1, 0x72, 0xd2,
                               0x04, 0x5b]
  const INITRD_GUID: Bytes := [0x44, 0xba, 0xf7, 0x31, 0x3a, 0x2f, 0x4b, 0xd7, 0x9a, 0xf1, 0x41, 0xe2, 0x91, 0x69,
                               0x78, 0x1d]
  const CMDLINE_GUID: Bytes := [0x97, 0xd0, 0x2d, 0xd8, 0xbd, 0x20, 0x4c, 0x94, 0xaa, 0x78, 0xe7, 0x71, 0x4d, 0x36,
                                0xab, 0x2a]

  /** The RFC 4122 mixed byte order: the first three groups of a GUID reversed. */
  function UuidToLE(b: Bytes): (le: Bytes)
    requires |b| >= 8
    ensures |le| == |b|
  {
    [b[3], b[2], b[1], b[0], b[5], b[4], b[7], b[6]] + b[8..]
  }

  function Reversed(s: Bytes): (r: Bytes)
  {
    seq(|s|, i requires 0 <= i < |s| => s[|s| - 1 - i])
  }

  /** Groups of four, two and two bytes are turned round each, the rest stays; so the conversion undoes itself. */
  lemma UuidToLEGroups(b: Bytes)
    requires |b| == 16
    ensures UuidToLE(b) == Reversed(b[..4]) + Reversed(b[4..6]) + Reversed(b[6..8]) + b[8..]
    ensures UuidToLE(UuidToLE(b)) == b
  {
    var le := UuidToLE(b);
    assert le[8..] == b[8..];
  }

  /** One 50-byte table entry: GUID, length and the hash in 32 bytes. */
  function HashEntry(guid: Bytes, hash: Bytes): (b: Bytes)
    requires |guid| == 16
    ensures |b| == 50
  {
    UuidToLE(guid) + LE(50, 2) + Pad(hash, 32)
  }

  function HashTable(cmdline: Bytes, initrd: Bytes, kernel: Bytes): (b: Bytes)
    ensures |b| == 168
    ensures b[36..68] == Pad(cmdline, 32)
  {
    UuidToLE(HEADER_GUID) + LE(168, 2) + HashEntry(CMDLINE_GUID, cmdline) + HashEntry(INITRD_GUID, initrd)
    + HashEntry(KERNEL_GUID, kernel)
  }

  /** A zero page holding as much of the table as fits behind `off`. */
  function HashesPage(table: Bytes, off: nat): (b: Bytes)
    requires |table| == 168 && off < PAGE
    ensures |b| == PAGE
  {
    (Zeros(off) + table + Zeros(PAGE))[..PAGE]
  }

  /** The NUL-terminated command line. */
  function CmdlineBytes(cmdline: Bytes): Bytes { cmdline + [0] }

  function InitrdHash(h: Hashes, initrdHex: Bytes): Bytes
  {
    if initrdHex != [] then HexDecode(initrdHex) else h.sha256([])
  }

  function GoHashTable(h: Hashes, kernelHex: Bytes, initrdHex: Bytes, cmdline: Bytes): (b: Bytes)
    ensures |b| == 168
  {
    HashTable(h.sha256(CmdlineBytes(cmdline)), InitrdHash(h, initrdHex), HexDecode(kernelHex))
  }

  method SevHashTableEntry(guid: Bytes, hash: Bytes) returns (r: Bytes)
    requires |guid| == 16
    ensures r == HashEntry(guid, hash)
  {
    var entry := new byte[50](_ => 0);
    assert entry[..] == [] + Zeros(50);
    ghost var p := PutNext(entry, [], 0, UuidToLE(guid));
    p := PutNext(entry, p, 16, LE(50, 2));
    p := PutNext(entry, p, 18, Fit(hash, 32));
    r := entry[..];
    assert r == HashEntry(guid, hash);
  }

  method FillHashTable(guid: Bytes, cmdline: Bytes, initrd: Bytes, kernel: Bytes) returns (r: Bytes)
    requires |guid| == 16 && |cmdline| == |initrd| == |kernel| == 50
    ensures r == guid + LE(168, 2) + cmdline + initrd + kernel
  {
    var ht := new byte[168](_ => 0);
    assert ht[..] == [] + Zeros(168);
    ghost var p := PutNext(ht, [], 0, guid);
    p := PutNext(ht, p, 16, LE(168, 2));
    p := PutNext(ht, p, 18, cmdline);
    p := PutNext(ht, p, 68, initrd);
    p := PutNext(ht, p, 118, kernel);
    r := ht[..];
    assert r == p;
  }

  method BuildHashTable(cmdline: Bytes, initrd: Bytes, kernel: Bytes) returns (r: Bytes)
    ensures r == HashTable(cmdline, initrd, kernel)
  {
    var c := SevHashTableEntry(CMDLINE_GUID, cmdline);
    var i := SevHashTableEntry(INITRD_GUID, initrd);
    var k := SevHashTableEntry(KERNEL_GUID, kernel);
    r := FillHashTable(UuidToLE(HEADER_GUID), c, i, k);
  }

  method BuildHashesPage(h: Hashes, kernelHex: Bytes, initrdHex: Bytes, cmdline: Bytes, off: nat) returns (r: Bytes)
    requires off < PAGE
    ensures r == HashesPage(GoHashTable(h, kernelHex, initrdHex, cmdline), off)
  {
    var kernelHash := HexDecode(kernelHex);
    var initrdHash: Bytes;
    if initrdHex != [] {
      initrdHash := HexDecode(initrdHex);
    } else {
      initrdHash := h.sha256([]);
    }
    var cmdlineHash := h.sha256(if cmdline != [] then cmdline + [0] else [0]);
    assert cmdline == [] ==> cmdline + [0] == [0];
    var ht := BuildHashTable(cmdlineHash, initrdHash, kernelHash);
    r := PlaceTable(ht, off);
  }

  method PlaceTable(ht: Bytes, off: nat) returns (r: Bytes)
    requires |ht| == 168 && off < PAGE
    ensures r == HashesPage(ht, off)
  {
    var padded := new byte[176](_ => 0);
    assert padded[..] == Zeros(176);
    CopyWindow(padded, 0, 176, ht);
    assert padded[..] == ht + Zeros(8);
    var page := new byte[PAGE](_ => 0);
    assert page[..] == Zeros(PAGE);
    CopyWindow(page, off, PAGE, padded[..]);
    r := page[..];
    PaddingInvisible(ht, off);
  }

  /** The eight padding bytes behind the table are zeros of the page anyway. */
  lemma PaddingInvisible(table: Bytes, off: nat)
    requires |table| == 168 && off < PAGE
    ensures Overwrite(Zeros(PAGE), off, Fit(table + Zeros(8), PAGE - off)) == HashesPage(table, off)
  {
  }

  lemma HashesPageShowsCmdline(t: Bytes, off: nat)
    requires |t| == 168 && off + 68 <= PAGE
    ensures HashesPage(t, off)[off + 36..off + 68] == t[36..68]
  {
    var p := HashesPage(t, off);
    forall i | 36 <= i < 68 ensures p[off + i] == t[i] {
    }
  }

  /** Equal hashes pages whose table keeps its command-line entry have equal command-line hashes. */
  lemma HashesPageBindsCmdline(t: Bytes, t': Bytes, off: nat)
    requires |t| == |t'| == 168 && off + 68 <= PAGE
    requires HashesPage(t, off) == HashesPage(t', off)
    ensures t[36..68] == t'[36..68]
  {
    HashesPageShowsCmdline(t, off);
    HashesPageShowsCmdline(t', off);
  }

  /** How many bytes of the command-line hash lie inside the page. */
  function ShownBytes(off: nat): (m: nat)
    requires off < PAGE
    ensures m <= 32
  {
    if off + 68 <= PAGE then 32 else if off + 36 <= PAGE then PAGE - off - 36 else 0
  }

  lemma TableParts(initrd: Bytes, kernel: Bytes) returns (head: Bytes, tail: Bytes)
    ensures |head| == 36 && |tail| == 100
    ensures forall c: Bytes :: |c| == 32 ==> HashTable(c, initrd, kernel) == head + c + tail
  {
    head := UuidToLE(HEADER_GUID) + LE(168, 2) + (UuidToLE(CMDLINE_GUID) + LE(50, 2));
    tail := HashEntry(INITRD_GUID, initrd) + HashEntry(KERNEL_GUID, kernel);
    forall c: Bytes | |c| == 32 ensures HashTable(c, initrd, kernel) == head + c + tail {
      assert Pad(c, 32) == c;
    }
  }

  lemma PageAt(t: Bytes, off: nat, i: nat)
    requires |t| == 168 && off < PAGE && i < PAGE
    ensures HashesPage(t, off)[i] == if off <= i < off + 168 then t[i - off] else 0
  {
  }

  lemma CutTable(t: Bytes, t': Bytes, off: nat)
    requires |t| == |t'| == 168 && off < PAGE
    requires forall j :: 0 <= j < 168 && off + j < PAGE ==> t[j] == t'[j]
    ensures HashesPage(t, off) == HashesPage(t', off)
  {
    forall i | 0 <= i < PAGE ensures HashesPage(t, off)[i] == HashesPage(t', off)[i] {
      PageAt(t, off, i);
      PageAt(t', off, i);
    }
  }

  /** Of the command line the page shows exactly those bytes of its hash. */
  lemma HashesPageShows(c: Bytes, c': Bytes, initrd: Bytes, kernel: Bytes, off: nat)
    requires |c| == |c'| == 32 && off < PAGE
    ensures var p, p' := HashesPage(HashTable(c, initrd, kernel), off), HashesPage(HashTable(c', initrd, kernel), off);
            p == p' <==> c[..ShownBytes(off)] == c'[..ShownBytes(off)]
  {
    var t, t', m := HashTable(c, initrd, kernel), HashTable(c', initrd, kernel), ShownBytes(off);
    var head, tail := TableParts(initrd, kernel);
    if c[..m] == c'[..m] {
      forall j | 0 <= j < 168 && off + j < PAGE ensures t[j] == t'[j] {
        if 36 <= j < 68 { assert c[..m][j - 36] == c'[..m][j - 36]; }
      }
      CutTable(t, t', off);
    }
    if HashesPage(t, off) == HashesPage(t', off) {
      forall j | 0 <= j < m ensures c[..m][j] == c'[..m][j] {
        PageAt(t, off, off + 36 + j);
        PageAt(t', off, off + 36 + j);
        assert t[36 + j] == c[j] && t'[36 + j] == c'[j];
      }
    }
  }

  /** The page shows where its table starts: the first byte of the header GUID is not zero. */
  lemma HashesPageOffset(t: Bytes, off: nat, t': Bytes, off': nat)
    requires |t| == |t'| == 168 && off < PAGE && off' < PAGE && t[0] != 0 && t'[0] != 0
    requires HashesPage(t, off) == HashesPage(t', off')
    ensures off == off'
  {
    var p := HashesPage(t, off);
    assert p[off] == t[0] && p[off'] == t'[0];
  }

  lemma TableStarts(cmdline: Bytes, initrd: Bytes, kernel: Bytes)
    ensures HashTable(cmdline, initrd, kernel)[0] == 6
  {
    assert UuidToLE(HEADER_GUID)[0] == 6;
  }
}
