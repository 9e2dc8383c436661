/** The launch measurement read off the bytes that are hashed: what every window of every hashed page holds, and how
    the measurement of an entry follows from that of a smaller one. */
module SevPages {
  import opened ByteStrings
  import opened ByteWindows
  import opened Hashing
  import opened SevLayout
  import opened SevDigest
  import opened SevBinding

  // ---- numbers in windows ----

  lemma Read2(v: nat)
    requires v < 0x1_0000
    ensures FromLE(LE(v, 2)) == v
  {
    assert Pow256(2) == 0x1_0000;
    LERoundTrip(v, 2);
  }

  lemma Read4(v: nat)
    requires v < 0x1_0000_0000
    ensures FromLE(LE(v, 4)) == v
  {
    Pow256Values();
    LERoundTrip(v, 4);
  }

  lemma Read8(v: nat)
    requires v < 0x1_0000_0000_0000_0000
    ensures FromLE(LE(v, 8)) == v
  {
    Pow256Values();
    LERoundTrip(v, 8);
  }

  // ---- PAGE_INFO ----

  /** PAGE_INFO by offsets: digest so far, contents, length 0x70, page type, five zero bytes, guest address. */
  predicate IsPageInfo(info: Bytes, ld: Bytes, contents: Bytes, ptype: byte, gpa: nat)
  {
    && |info| == 112 && |contents| == 48 && info[48..96] == contents
    && Padded(info[..48], ld)
    && Holds(info, 96, 2, 0x70) && info[98] == ptype && Blank(info, 99, 104) && Holds(info, 104, 8, gpa)
  }

  lemma PageInfoBytes(ld: Bytes, contents: Bytes, ptype: byte, gpa: u64)
    requires |contents| == 48
    ensures IsPageInfo(PageInfo(ld, contents, ptype, gpa), ld, contents, ptype, gpa)
  {
    var b := PageInfo(ld, contents, ptype, gpa);
    assert b[..48] == Pad(ld, 48) && b[48..96] == contents && b[96..98] == LE(0x70, 2) && b[99..104] == Zeros(5);
    assert b[104..112] == LE(gpa, 8);
    assert forall i :: 99 <= i < 104 ==> b[i] == b[99..104][i - 99];
    Read2(0x70);
    Read8(gpa);
  }

  // ---- the VMSA page ----

  /** A segment register: selector, attributes, limit, base. */
  predicate HoldsSegment(p: Bytes, off: nat, sel: nat, attr: nat, lim: nat, base: nat)
  {
    Holds(p, off, 2, sel) && Holds(p, off + 2, 2, attr) && Holds(p, off + 4, 4, lim) && Holds(p, off + 8, 8, base)
  }

  /** es and cs, which starts at the upper half of the reset vector. */
  predicate HoldsCode(p: Bytes, eip: nat)
  {
    && HoldsSegment(p, 0x00, 0, 0x93, 0xffff, 0)
    && HoldsSegment(p, 0x10, 0xf000, 0x9b, 0xffff, eip / 0x1_0000 * 0x1_0000)
  }

  /** ss, ds, fs and gs. */
  predicate HoldsData(p: Bytes)
  {
    && HoldsSegment(p, 0x20, 0, 0x93, 0xffff, 0) && HoldsSegment(p, 0x30, 0, 0x93, 0xffff, 0)
    && HoldsSegment(p, 0x40, 0, 0x93, 0xffff, 0) && HoldsSegment(p, 0x50, 0, 0x93, 0xffff, 0)
  }

  /** gdtr, ldtr, idtr and tr. */
  predicate HoldsSystem(p: Bytes)
  {
    && HoldsSegment(p, 0x60, 0, 0, 0xffff, 0) && HoldsSegment(p, 0x70, 0, 0x82, 0xffff, 0)
    && HoldsSegment(p, 0x80, 0, 0, 0xffff, 0) && HoldsSegment(p, 0x90, 0, 0x8b, 0xffff, 0)
  }

  /** efer, cr4, cr0, dr7, dr6, rflags and rip, with zeros between. */
  predicate HoldsControls(p: Bytes, eip: nat)
  {
    && Blank(p, 0xa0, 0xd0) && Holds(p, 0xd0, 8, 0x1000)
    && Blank(p, 0xd8, 0x148) && Holds(p, 0x148, 8, 0x40)
    && Blank(p, 0x150, 0x158) && Holds(p, 0x158, 8, 0x10) && Holds(p, 0x160, 8, 0x400)
    && Holds(p, 0x168, 8, 0xffff_0ff0) && Holds(p, 0x170, 8, 2) && Holds(p, 0x178, 8, eip % 0x1_0000)
  }

  /** The CPUID signature of an AMD processor: extended family, extended model, base family 15, model, stepping. */
  function CpuidSignature(family: nat, model: nat, stepping: nat): nat
    requires family >= 15
  {
    (family - 15) * 0x10_0000 + model / 16 * 0x1_0000 + 15 * 0x100 + model % 16 * 0x10 + stepping
  }

  /** g_pat, rdx with the signature of family 0x17, model 1, stepping 2, and sev_features with SNP active. */
  predicate HoldsFeatures(p: Bytes)
  {
    && Blank(p, 0x180, 0x268) && Holds(p, 0x268, 8, 0x0007_0406_0007_0406)
    && Blank(p, 0x270, 0x310) && Holds(p, 0x310, 8, CpuidSignature(0x17, 1, 2))
    && Blank(p, 0x318, 0x3b0) && Holds(p, 0x3b0, 8, 1)
  }

  /** xcr0, mxcsr and x87_fcw, and zeros up to the end of the page. */
  predicate HoldsFloats(p: Bytes)
  {
    && Blank(p, 0x3b8, 0x3e8) && Holds(p, 0x3e8, 8, 1)
    && Blank(p, 0x3f0, 0x408) && Holds(p, 0x408, 4, 0x1f80)
    && Blank(p, 0x40c, 0x410) && Holds(p, 0x410, 2, 0x037f) && Blank(p, 0x412, 4096)
  }

  predicate IsVmsa(p: Bytes, eip: nat)
  {
    && |p| == 4096 && HoldsCode(p, eip) && HoldsData(p) && HoldsSystem(p) && HoldsControls(p, eip)
    && HoldsFeatures(p) && HoldsFloats(p)
  }

  /** A field that stands in a beginning of the page stands in the page. */
  lemma FieldOnPage(prefix: Bytes, field: Bytes, p: Bytes)
    requires prefix + field <= p
    ensures p[|prefix|..|prefix| + |field|] == field
  {
    assert p[|prefix|..|prefix| + |field|] == (prefix + field)[|prefix|..];
  }

  lemma SegmentOnPage(prefix: Bytes, sel: nat, attr: nat, lim: nat, base: nat, p: Bytes)
    requires sel < 0x1_0000 && attr < 0x1_0000 && lim < 0x1_0000_0000 && base < 0x1_0000_0000
    requires Segment(prefix, sel, attr, lim, base) <= p
    ensures HoldsSegment(p, |prefix|, sel, attr, lim, base)
  {
    var a := prefix + LE(sel, 2);
    var b := a + LE(attr, 2);
    var c := b + LE(lim, 4);
    assert Segment(prefix, sel, attr, lim, base) == c + LE(base, 8);
    FieldOnPage(prefix, LE(sel, 2), p);
    FieldOnPage(a, LE(attr, 2), p);
    FieldOnPage(b, LE(lim, 4), p);
    FieldOnPage(c, LE(base, 8), p);
    Read2(sel);
    Read2(attr);
    Read4(lim);
    Read8(base);
  }

  lemma Longer(a: Bytes, b: Bytes, p: Bytes)
    requires a <= b <= p
    ensures a <= p
  {
  }

  /** The last segment of a beginning of the page, and the beginning before it. */
  lemma LastSegment(prefix: Bytes, sel: nat, attr: nat, lim: nat, base: nat, p: Bytes)
    requires sel < 0x1_0000 && attr < 0x1_0000 && lim < 0x1_0000_0000 && base < 0x1_0000_0000
    requires Segment(prefix, sel, attr, lim, base) <= p
    ensures HoldsSegment(p, |prefix|, sel, attr, lim, base) && prefix <= p
  {
    SegmentOnPage(prefix, sel, attr, lim, base, p);
    Longer(prefix, Segment(prefix, sel, attr, lim, base), p);
  }

  lemma SystemOnPage(prefix: Bytes, p: Bytes)
    requires |prefix| == 0x60 && SystemSegments(prefix) <= p
    ensures prefix <= p && HoldsSystem(p)
  {
    var gdtr := Segment(prefix, 0, 0, 0xffff, 0);
    var ldtr := Segment(gdtr, 0, 0x82, 0xffff, 0);
    var idtr := Segment(ldtr, 0, 0, 0xffff, 0);
    LastSegment(idtr, 0, 0x8b, 0xffff, 0, p);
    LastSegment(ldtr, 0, 0, 0xffff, 0, p);
    LastSegment(gdtr, 0, 0x82, 0xffff, 0, p);
    LastSegment(prefix, 0, 0, 0xffff, 0, p);
  }

  lemma DataOnPage(prefix: Bytes, p: Bytes)
    requires |prefix| == 0x20 && DataSegments(prefix) <= p
    ensures prefix <= p && HoldsData(p)
  {
    var ss := Segment(prefix, 0, 0x93, 0xffff, 0);
    var ds := Segment(ss, 0, 0x93, 0xffff, 0);
    var fs := Segment(ds, 0, 0x93, 0xffff, 0);
    LastSegment(fs, 0, 0x93, 0xffff, 0, p);
    LastSegment(ds, 0, 0x93, 0xffff, 0, p);
    LastSegment(ss, 0, 0x93, 0xffff, 0, p);
    LastSegment(prefix, 0, 0x93, 0xffff, 0, p);
  }

  lemma CodeOnPage(eip: u32, p: Bytes)
    requires CodeSegments(CsBase(eip)) <= p
    ensures HoldsCode(p, eip)
  {
    LastSegment(Segment([], 0, 0x93, 0xffff, 0), 0xf000, 0x9b, 0xffff, CsBase(eip), p);
    LastSegment([], 0, 0x93, 0xffff, 0, p);
  }

  lemma SegmentsOnPage(eip: u32, p: Bytes)
    requires SystemSegments(DataSegments(CodeSegments(CsBase(eip)))) <= p
    ensures HoldsCode(p, eip) && HoldsData(p) && HoldsSystem(p)
  {
    SystemOnPage(DataSegments(CodeSegments(CsBase(eip))), p);
    DataOnPage(CodeSegments(CsBase(eip)), p);
    CodeOnPage(eip, p);
  }

  lemma Gap(prefix: Bytes, n: nat, p: Bytes)
    requires prefix + Zeros(n) <= p
    ensures Blank(p, |prefix|, |prefix| + n)
  {
  }

  lemma Number8(prefix: Bytes, v: nat, p: Bytes)
    requires prefix + LE(v, 8) <= p && v < 0x1_0000_0000_0000_0000
    ensures Holds(p, |prefix|, 8, v)
  {
    FieldOnPage(prefix, LE(v, 8), p);
    Read8(v);
  }

  /** A gap of n zeros and then an eight-byte number. */
  lemma GapNumber(prefix: Bytes, n: nat, v: nat, p: Bytes)
    requires prefix + Zeros(n) + LE(v, 8) <= p && v < 0x1_0000_0000_0000_0000
    ensures Blank(p, |prefix|, |prefix| + n) && Holds(p, |prefix| + n, 8, v)
    ensures |prefix + Zeros(n) + LE(v, 8)| == |prefix| + n + 8
  {
    Longer(prefix + Zeros(n), prefix + Zeros(n) + LE(v, 8), p);
    Gap(prefix, n, p);
    Number8(prefix + Zeros(n), v, p);
  }

  lemma ControlsOnPage(prefix: Bytes, eip: u32, p: Bytes)
    requires |prefix| == 0xa0 && ControlRegisters(prefix) + LE(Rip(eip), 8) <= p
    ensures HoldsControls(p, eip)
  {
    var efer := prefix + Zeros(0x30) + LE(0x1000, 8);
    var cr4 := efer + Zeros(0x70) + LE(0x40, 8);
    var cr0 := cr4 + Zeros(8) + LE(0x10, 8);
    var dr7 := cr0 + LE(0x400, 8);
    var dr6 := dr7 + LE(0xffff0ff0, 8);
    var rflags := dr6 + LE(2, 8);
    assert rflags == ControlRegisters(prefix);
    Number8(rflags, Rip(eip), p);
    Longer(rflags, rflags + LE(Rip(eip), 8), p);
    Number8(dr6, 2, p);
    Longer(dr6, rflags, p);
    Number8(dr7, 0xffff0ff0, p);
    Longer(dr7, dr6, p);
    Number8(cr0, 0x400, p);
    Longer(cr0, dr7, p);
    GapNumber(cr4, 8, 0x10, p);
    Longer(cr4, cr0, p);
    GapNumber(efer, 0x70, 0x40, p);
    Longer(efer, cr4, p);
    GapNumber(prefix, 0x30, 0x1000, p);
  }

  lemma FeaturesOnPage(prefix: Bytes, p: Bytes)
    requires |prefix| == 0x180 && FeatureRegisters(prefix, VCPU_SIG_EPYC, GUEST_FEATURES) <= p
    ensures HoldsFeatures(p)
  {
    var pat := prefix + Zeros(0xe8) + LE(0x0007040600070406, 8);
    var rdx := pat + Zeros(0xa0) + LE(VCPU_SIG_EPYC, 8);
    assert FeatureRegisters(prefix, VCPU_SIG_EPYC, GUEST_FEATURES) == rdx + Zeros(0x98) + LE(GUEST_FEATURES, 8);
    GapNumber(rdx, 0x98, GUEST_FEATURES, p);
    Longer(rdx, rdx + Zeros(0x98) + LE(GUEST_FEATURES, 8), p);
    GapNumber(pat, 0xa0, VCPU_SIG_EPYC, p);
    Longer(pat, rdx, p);
    GapNumber(prefix, 0xe8, 0x0007040600070406, p);
  }

  lemma FloatsOnPage(prefix: Bytes, p: Bytes)
    requires |prefix| == 0x3b8 && p == FloatRegisters(prefix) + Zeros(PAGE - 0x412)
    ensures HoldsFloats(p)
  {
    var xcr0 := prefix + Zeros(0x30) + LE(1, 8);
    var mxcsr := xcr0 + Zeros(0x18) + LE(0x1f80, 4);
    var fcw := mxcsr + Zeros(4) + LE(0x037f, 2);
    assert fcw == FloatRegisters(prefix);
    Gap(fcw, PAGE - 0x412, p);
    FieldOnPage(mxcsr + Zeros(4), LE(0x037f, 2), p);
    Read2(0x037f);
    Longer(mxcsr + Zeros(4), fcw, p);
    Gap(mxcsr, 4, p);
    Longer(mxcsr, mxcsr + Zeros(4), p);
    FieldOnPage(xcr0 + Zeros(0x18), LE(0x1f80, 4), p);
    Read4(0x1f80);
    Longer(xcr0 + Zeros(0x18), mxcsr, p);
    Gap(xcr0, 0x18, p);
    Longer(xcr0, xcr0 + Zeros(0x18), p);
    GapNumber(prefix, 0x30, 1, p);
  }

  lemma VmsaBytes(eip: u32)
    ensures IsVmsa(VmsaPage(eip, VCPU_SIG_EPYC, GUEST_FEATURES), eip)
  {
    var p := VmsaPage(eip, VCPU_SIG_EPYC, GUEST_FEATURES);
    var segments := SystemSegments(DataSegments(CodeSegments(CsBase(eip))));
    assert UpToRip(eip) == ControlRegisters(segments) + LE(Rip(eip), 8);
    ControlsOnPage(segments, eip, p);
    Longer(segments, ControlRegisters(segments), UpToRip(eip));
    Longer(segments, UpToRip(eip), p);
    SegmentsOnPage(eip, p);
    var features := FeatureRegisters(UpToRip(eip), VCPU_SIG_EPYC, GUEST_FEATURES);
    Longer(features, FloatRegisters(features), p);
    FeaturesOnPage(UpToRip(eip), p);
    FloatsOnPage(features, p);
  }

  // ---- the kernel-hashes page ----

  /** A GUID in its mixed byte order: three little-endian numbers and eight bytes. */
  predicate HoldsGuid(b: Bytes, off: nat, g1: nat, g2: nat, g3: nat, tail: Bytes)
  {
    && off + 16 <= |b| && |tail| == 8
    && Holds(b, off, 4, g1) && Holds(b, off + 4, 2, g2) && Holds(b, off + 6, 2, g3) && b[off + 8..off + 16] == tail
  }

  /** A table entry: GUID, length 50 and a hash in 32 bytes. */
  predicate HoldsEntry(t: Bytes, off: nat, g1: nat, g2: nat, g3: nat, tail: Bytes, hash: Bytes)
  {
    && off + 50 <= |t| && HoldsGuid(t, off, g1, g2, g3, tail) && Holds(t, off + 16, 2, 50)
    && Padded(t[off + 18..off + 50], hash)
  }

  /** The table: GUID 9438d606-4f22-4cc9-b479-a793d411fd21 and length 168, then the entries of command line
      (97d02dd8-bd20-4c94-aa78-e7714d36ab2a), initrd (44baf731-3a2f-4bd7-9af1-41e29169781d) and kernel
      (4de79437-abd2-427f-b835-d5b172d2045b). */
  predicate IsTable(t: Bytes, cmdline: Bytes, initrd: Bytes, kernel: Bytes)
  {
    && |t| == 168
    && HoldsGuid(t, 0, 0x9438d606, 0x4f22, 0x4cc9, [0xb4, 0x79, 0xa7, 0x93, 0xd4, 0x11, 0xfd, 0x21])
    && Holds(t, 16, 2, 168)
    && HoldsEntry(t, 18, 0x97d02dd8, 0xbd20, 0x4c94, [0xaa, 0x78, 0xe7, 0x71, 0x4d, 0x36, 0xab, 0x2a], cmdline)
    && HoldsEntry(t, 68, 0x44baf731, 0x3a2f, 0x4bd7, [0x9a, 0xf1, 0x41, 0xe2, 0x91, 0x69, 0x78, 0x1d], initrd)
    && HoldsEntry(t, 118, 0x4de79437, 0xabd2, 0x427f, [0xb8, 0x35, 0xd5, 0xb1, 0x72, 0xd2, 0x04, 0x5b], kernel)
  }

  /** The page shows the table from off on, as far as it fits, and zeros elsewhere. */
  predicate ShowsTable(p: Bytes, off: nat, t: Bytes)
  {
    && |p| == 4096 && |t| == 168
    && forall i :: 0 <= i < 4096 ==> p[i] == if off <= i < off + 168 then t[i - off] else 0
  }

  function Big2(a: nat, b: nat): nat { b + 256 * a }

  function Big4(a: nat, b: nat, c: nat, d: nat): nat { Big2(c, d) + 0x1_0000 * Big2(a, b) }

  lemma Number2(a: byte, b: byte)
    ensures FromLE([a, b]) == Big2(b, a)
  {
    assert [a, b][1..] == [b] && [b][1..] == [];
    assert FromLE([b]) == b + 256 * FromLE([]);
  }

  lemma Number4(a: byte, b: byte, c: byte, d: byte)
    ensures FromLE([a, b, c, d]) == Big4(d, c, b, a)
  {
    assert [a, b, c, d][1..] == [b, c, d] && [b, c, d][1..] == [c, d];
    Number2(c, d);
  }

  lemma SliceOf(t: Bytes, off: nat, n: nat, i: nat, j: nat)
    requires off + n <= |t| && i <= j <= n
    ensures t[off..off + n][i..j] == t[off + i..off + j]
  {
    var a, b := t[off..off + n][i..j], t[off + i..off + j];
    forall k | 0 <= k < j - i ensures a[k] == b[k] {
      assert t[off..off + n][i + k] == t[off + i + k];
    }
  }

  lemma GuidWindows(g: Bytes, t: Bytes, off: nat)
    requires |g| == 16 && off + 16 <= |t| && t[off..off + 16] == UuidToLE(g)
    ensures HoldsGuid(t, off, Big4(g[0], g[1], g[2], g[3]), Big2(g[4], g[5]), Big2(g[6], g[7]), g[8..])
  {
    var w := t[off..off + 16];
    SliceOf(t, off, 16, 0, 4);
    SliceOf(t, off, 16, 4, 6);
    SliceOf(t, off, 16, 6, 8);
    SliceOf(t, off, 16, 8, 16);
    assert w[..4] == [g[3], g[2], g[1], g[0]] && w[4..6] == [g[5], g[4]] && w[6..8] == [g[7], g[6]];
    assert w[8..16] == g[8..];
    Number4(g[3], g[2], g[1], g[0]);
    Number2(g[5], g[4]);
    Number2(g[7], g[6]);
  }

  lemma PadMeans(src: Bytes)
    ensures Padded(Pad(src, 32), src)
  {
  }

  lemma EntryWindows(g: Bytes, hash: Bytes, t: Bytes, off: nat)
    requires |g| == 16 && off + 50 <= |t| && t[off..off + 50] == HashEntry(g, hash)
    ensures HoldsEntry(t, off, Big4(g[0], g[1], g[2], g[3]), Big2(g[4], g[5]), Big2(g[6], g[7]), g[8..], hash)
  {
    var w := t[off..off + 50];
    SliceOf(t, off, 50, 0, 16);
    SliceOf(t, off, 50, 16, 18);
    SliceOf(t, off, 50, 18, 50);
    assert w[0..16] == UuidToLE(g) && w[16..18] == LE(50, 2) && w[18..50] == Pad(hash, 32);
    GuidWindows(g, t, off);
    Read2(50);
    PadMeans(hash);
  }

  lemma FiveParts(a: Bytes, b: Bytes, c: Bytes, d: Bytes, e: Bytes)
    requires |a| == 16 && |b| == 2 && |c| == |d| == |e| == 50
    ensures var t := a + b + c + d + e;
            t[0..16] == a && t[16..18] == b && t[18..68] == c && t[68..118] == d && t[118..168] == e
  {
  }

  lemma TableSlices(cmdline: Bytes, initrd: Bytes, kernel: Bytes)
    ensures var t := HashTable(cmdline, initrd, kernel);
            && t[0..16] == UuidToLE(HEADER_GUID) && t[16..18] == LE(168, 2)
            && t[18..68] == HashEntry(CMDLINE_GUID, cmdline) && t[68..118] == HashEntry(INITRD_GUID, initrd)
            && t[118..168] == HashEntry(KERNEL_GUID, kernel)
  {
    FiveParts(UuidToLE(HEADER_GUID), LE(168, 2), HashEntry(CMDLINE_GUID, cmdline), HashEntry(INITRD_GUID, initrd),
              HashEntry(KERNEL_GUID, kernel));
  }

  lemma HeaderBytes(t: Bytes)
    requires |t| == 168 && t[0..16] == UuidToLE(HEADER_GUID) && t[16..18] == LE(168, 2)
    ensures HoldsGuid(t, 0, 0x9438d606, 0x4f22, 0x4cc9, [0xb4, 0x79, 0xa7, 0x93, 0xd4, 0x11, 0xfd, 0x21])
    ensures Holds(t, 16, 2, 168)
  {
    GuidWindows(HEADER_GUID, t, 0);
    assert HEADER_GUID[8..] == [0xb4, 0x79, 0xa7, 0x93, 0xd4, 0x11, 0xfd, 0x21];
    Read2(168);
  }

  lemma CmdlineBytesAt(t: Bytes, hash: Bytes)
    requires |t| == 168 && t[18..68] == HashEntry(CMDLINE_GUID, hash)
    ensures HoldsEntry(t, 18, 0x97d02dd8, 0xbd20, 0x4c94, [0xaa, 0x78, 0xe7, 0x71, 0x4d, 0x36, 0xab, 0x2a], hash)
  {
    EntryWindows(CMDLINE_GUID, hash, t, 18);
    assert CMDLINE_GUID[8..] == [0xaa, 0x78, 0xe7, 0x71, 0x4d, 0x36, 0xab, 0x2a];
  }

  lemma InitrdBytesAt(t: Bytes, hash: Bytes)
    requires |t| == 168 && t[68..118] == HashEntry(INITRD_GUID, hash)
    ensures HoldsEntry(t, 68, 0x44baf731, 0x3a2f, 0x4bd7, [0x9a, 0xf1, 0x41, 0xe2, 0x91, 0x69, 0x78, 0x1d], hash)
  {
    EntryWindows(INITRD_GUID, hash, t, 68);
    assert INITRD_GUID[8..] == [0x9a, 0xf1, 0x41, 0xe2, 0x91, 0x69, 0x78, 0x1d];
  }

  lemma KernelBytesAt(t: Bytes, hash: Bytes)
    requires |t| == 168 && t[118..168] == HashEntry(KERNEL_GUID, hash)
    ensures HoldsEntry(t, 118, 0x4de79437, 0xabd2, 0x427f, [0xb8, 0x35, 0xd5, 0xb1, 0x72, 0xd2, 0x04, 0x5b], hash)
  {
    EntryWindows(KERNEL_GUID, hash, t, 118);
    assert KERNEL_GUID[8..] == [0xb8, 0x35, 0xd5, 0xb1, 0x72, 0xd2, 0x04, 0x5b];
  }

  lemma TableBytes(cmdline: Bytes, initrd: Bytes, kernel: Bytes)
    ensures IsTable(HashTable(cmdline, initrd, kernel), cmdline, initrd, kernel)
  {
    var t := HashTable(cmdline, initrd, kernel);
    TableSlices(cmdline, initrd, kernel);
    HeaderBytes(t);
    CmdlineBytesAt(t, cmdline);
    InitrdBytesAt(t, initrd);
    KernelBytesAt(t, kernel);
  }

  lemma PageShows(table: Bytes, off: nat)
    requires |table| == 168 && off < PAGE
    ensures ShowsTable(HashesPage(table, off), off, table)
  {
    forall i | 0 <= i < 4096
      ensures HashesPage(table, off)[i] == if off <= i < off + 168 then table[i - off] else 0
    {
      SevLayout.PageAt(table, off, i);
    }
  }

  /** The kernel-hashes page of an entry: its table at the low 12 bits of the table address, with the hashes of the
      NUL-terminated command line, of the initrd (of nothing when there is none) and of the kernel. */
  ghost predicate IsHashesPage(h: Hashes, e: SevEntry, cmdline: Bytes, p: Bytes)
  {
    exists t :: && ShowsTable(p, e.hashesTableGpa % 4096, t)
                && IsTable(t, h.sha256(cmdline + [0]),
                           if e.initrdHash == [] then h.sha256([]) else HexDecode(e.initrdHash),
                           HexDecode(e.kernelHash))
  }

  lemma HashesPageBytes(h: Hashes, e: SevEntry, cmdline: Bytes)
    ensures IsHashesPage(h, e, cmdline, EntryHashesPage(h, e, cmdline))
  {
    TableBytes(h.sha256(cmdline + [0]), InitrdHash(h, e.initrdHash), HexDecode(e.kernelHash));
    PageShows(GoHashTable(h, e.kernelHash, e.initrdHash, cmdline), TableOffset(e));
  }

  // ---- the measurement, one update at a time ----

  /** m' is what measurement m becomes by one more update with this page type, address and contents. */
  ghost predicate Updated(h: Hashes, m: Bytes, m': Bytes, ptype: byte, gpa: nat, contents: Bytes)
  {
    exists info :: IsPageInfo(info, HexDecode(m), contents, ptype, gpa) && m' == HexEncode(h.sha384(info))
  }

  lemma StepUpdates(h: Hashes, ld: Bytes, r: PageRecord)
    requires r.gpa < 0x1_0000_0000_0000_0000
    ensures Updated(h, HexEncode(ld), HexEncode(Step(h.sha384, ld, r)), r.ptype, r.gpa, r.Contents(h.sha384))
  {
    HexRoundTrip(ld);
    PageInfoBytes(ld, r.Contents(h.sha384), r.ptype, r.gpa);
  }

  /** Without sections and vCPUs the measurement is the OVMF hash. */
  lemma MeasuresNothing(h: Hashes, e: SevEntry, vcpus: int, cmdline: Bytes)
    requires e.sections == [] && vcpus <= 0
    ensures Measurement(h, e, vcpus, cmdline) == HexEncode(HexDecode(e.ovmfHash))
  {
    assert Records(h, e, vcpus, cmdline) == [];
  }

  lemma MoreVcpus(resetEip: u32, n: nat)
    ensures VmsaPages(resetEip, n + 1) == VmsaPages(resetEip, n) + [VmsaRecord(resetEip, n)]
  {
  }

  lemma NextVcpu(h: Hashes, e: SevEntry, n: nat, cmdline: Bytes)
    ensures LaunchDigest(h, e, n + 1, cmdline)
         == Step(h.sha384, LaunchDigest(h, e, n, cmdline), VmsaRecord(e.resetEip, n))
  {
    var a, vs, r := SectionRecords(h, e, cmdline), VmsaPages(e.resetEip, n), VmsaRecord(e.resetEip, n);
    MoreVcpus(e.resetEip, n);
    assert a + (vs + [r]) == (a + vs) + [r];
    FoldSnoc(h.sha384, HexDecode(e.ovmfHash), a + vs, r);
  }

  /** One more vCPU is one more update of type 2 at 0xFFFFFFFFF000, with a VMSA page that starts the first processor at
      0xfffffff0 and every other one at the entry's vector. */
  lemma MeasuresVcpu(h: Hashes, e: SevEntry, n: nat, cmdline: Bytes) returns (page: Bytes)
    ensures IsVmsa(page, if n == 0 then 0xffff_fff0 else e.resetEip)
    ensures Updated(h, Measurement(h, e, n, cmdline), Measurement(h, e, n + 1, cmdline), 2, 0xFFFF_FFFF_F000,
                    h.sha384(page))
  {
    NextVcpu(h, e, n, cmdline);
    page := VcpuPage(h, e, n, LaunchDigest(h, e, n, cmdline));
  }

  lemma VcpuPage(h: Hashes, e: SevEntry, n: nat, ld: Bytes) returns (page: Bytes)
    ensures IsVmsa(page, if n == 0 then 0xffff_fff0 else e.resetEip)
    ensures Updated(h, HexEncode(ld), HexEncode(Step(h.sha384, ld, VmsaRecord(e.resetEip, n))), 2, 0xFFFF_FFFF_F000,
                    h.sha384(page))
  {
    page := VmsaPage(VcpuEip(e.resetEip, n), VCPU_SIG_EPYC, GUEST_FEATURES);
    VmsaBytes(VcpuEip(e.resetEip, n));
    StepUpdates(h, ld, VmsaRecord(e.resetEip, n));
  }

  lemma MeasuresFirstVcpu(h: Hashes, e: SevEntry, n: nat, cmdline: Bytes) returns (page: Bytes, info: Bytes)
    requires e.sections == [] && n == 0
    ensures IsVmsa(page, 0xffff_fff0) && Measurement(h, e, n + 1, cmdline) == HexEncode(h.sha384(info))
    ensures IsPageInfo(info, HexDecode(e.ovmfHash), h.sha384(page), 2, 0xFFFF_FFFF_F000)
  {
    MeasuresNothing(h, e, n, cmdline);
    HexRoundTrip(HexDecode(e.ovmfHash));
    page := MeasuresVcpu(h, e, n, cmdline);
    info := UpdateInfo(h, Measurement(h, e, n, cmdline), Measurement(h, e, n + 1, cmdline), 2, 0xFFFF_FFFF_F000,
                       h.sha384(page));
  }

  /** An entry without sections and one vCPU: the measurement is the hexadecimal SHA-384 of one PAGE_INFO. */
  lemma MeasuresOneVcpu(h: Hashes, e: SevEntry, cmdline: Bytes) returns (page: Bytes, info: Bytes)
    requires e.sections == []
    ensures IsVmsa(page, 0xffff_fff0) && Measurement(h, e, 1, cmdline) == HexEncode(h.sha384(info))
    ensures IsPageInfo(info, HexDecode(e.ovmfHash), h.sha384(page), 2, 0xFFFF_FFFF_F000)
  {
    page, info := MeasuresFirstVcpu(h, e, 0, cmdline);
  }

  lemma UpdateInfo(h: Hashes, m: Bytes, m': Bytes, ptype: byte, gpa: nat, contents: Bytes) returns (info: Bytes)
    requires Updated(h, m, m', ptype, gpa, contents)
    ensures IsPageInfo(info, HexDecode(m), contents, ptype, gpa) && m' == HexEncode(h.sha384(info))
  {
    info :| IsPageInfo(info, HexDecode(m), contents, ptype, gpa) && m' == HexEncode(h.sha384(info));
  }

  // ---- sections ----

  lemma NextSection(h: Hashes, e: SevEntry, s: SevSection, cmdline: Bytes)
    ensures LaunchDigest(h, e.(sections := e.sections + [s]), 0, cmdline)
         == Fold(h.sha384, LaunchDigest(h, e, 0, cmdline), SectionPages(s, EntryHashesPage(h, e, cmdline)))
  {
    var e', page := e.(sections := e.sections + [s]), EntryHashesPage(h, e, cmdline);
    assert EntryHashesPage(h, e', cmdline) == page;
    assert e'.sections[..|e.sections|] == e.sections;
    assert Records(h, e', 0, cmdline) == Records(h, e, 0, cmdline) + SectionPages(s, page);
    FoldConcat(h.sha384, HexDecode(e.ovmfHash), Records(h, e, 0, cmdline), SectionPages(s, page));
  }

  lemma FoldOne(sha384: Sha384, ld: Bytes, r: PageRecord)
    ensures Fold(sha384, ld, [r]) == Step(sha384, ld, r)
  {
    assert [r][..0] == [];
    assert Fold(sha384, ld, []) == ld;
  }

  lemma OneUpdate(h: Hashes, e: SevEntry, s: SevSection, cmdline: Bytes, r: PageRecord)
    requires SectionPages(s, EntryHashesPage(h, e, cmdline)) == [r] && r.gpa < 0x1_0000_0000_0000_0000
    ensures Updated(h, Measurement(h, e, 0, cmdline), Measurement(h, e.(sections := e.sections + [s]), 0, cmdline),
                    r.ptype, r.gpa, r.Contents(h.sha384))
  {
    NextSection(h, e, s, cmdline);
    FoldOne(h.sha384, LaunchDigest(h, e, 0, cmdline), r);
    StepUpdates(h, LaunchDigest(h, e, 0, cmdline), r);
  }

  /** A secrets section is one update of type 5, a CPUID section one of type 6, both with 48 zero bytes. */
  lemma MeasuresMarker(h: Hashes, e: SevEntry, s: SevSection, cmdline: Bytes)
    requires s.kind == 2 || s.kind == 3
    ensures Updated(h, Measurement(h, e, 0, cmdline),
                    Measurement(h, e.(sections := e.sections + [s]), 0, cmdline), s.kind + 3, s.gpa, Zeros(48))
  {
    OneUpdate(h, e, s, cmdline, PageRecord(s.kind + 3, s.gpa, None));
  }

  lemma OneNormalPage(s: SevSection, page: Bytes)
    requires s.kind == 0x10 && |page| == PAGE
    ensures SectionPages(s, page) == [PageRecord(1, s.gpa, Some(page))]
  {
    CountIs(PAGE, 1);
    assert Chunk(page, 0) == page;
    assert NormalPages(s.gpa, page, 1)[0] == NormalPage(s.gpa, page, 0);
  }

  /** A kernel-hashes section is one update of type 1 with the SHA-384 of the kernel-hashes page. */
  lemma MeasuresHashes(h: Hashes, e: SevEntry, s: SevSection, cmdline: Bytes) returns (page: Bytes)
    requires s.kind == 0x10
    ensures IsHashesPage(h, e, cmdline, page)
    ensures Updated(h, Measurement(h, e, 0, cmdline),
                    Measurement(h, e.(sections := e.sections + [s]), 0, cmdline), 1, s.gpa, h.sha384(page))
  {
    page := EntryHashesPage(h, e, cmdline);
    HashesPageBytes(h, e, cmdline);
    OneNormalPage(s, page);
    OneUpdate(h, e, s, cmdline, PageRecord(1, s.gpa, Some(page)));
  }

  /** Sections of any other kind, and zero regions without a size, change nothing. */
  lemma MeasuresNone(h: Hashes, e: SevEntry, s: SevSection, cmdline: Bytes)
    requires s.kind !in {1, 2, 3, 4, 0x10} || (s.kind in {1, 4} && s.size <= 0)
    ensures Measurement(h, e.(sections := e.sections + [s]), 0, cmdline) == Measurement(h, e, 0, cmdline)
  {
    NextSection(h, e, s, cmdline);
    assert SectionPages(s, EntryHashesPage(h, e, cmdline)) == [];
  }

  lemma MoreZeros(s: SevSection, n: nat, page: Bytes)
    requires (s.kind == 1 || s.kind == 4) && 4096 * n < s.size <= 4096 * (n + 1)
    ensures SectionPages(s.(size := 4096 * n), page) == ZeroPages(s.gpa, n)
    ensures SectionPages(s, page) == ZeroPages(s.gpa, n) + [ZeroPage(s.gpa, n)]
  {
    CountIs(s.size, n + 1);
    CountIs(4096 * n, n);
    assert ZeroPages(s.gpa, n + 1) == ZeroPages(s.gpa, n) + [ZeroPage(s.gpa, n)];
  }

  /** A zero region that reaches past n whole pages, and no further than the next, measures as its first n pages and
      then one more update of type 3 with 48 zero bytes; addresses wrap at 2^64. */
  lemma MeasuresZeros(h: Hashes, e: SevEntry, s: SevSection, n: nat, cmdline: Bytes) returns (gpa: u64)
    requires (s.kind == 1 || s.kind == 4) && 4096 * n < s.size <= 4096 * (n + 1)
    ensures gpa == s.gpa + 4096 * n || gpa == s.gpa + 4096 * n - 0x1_0000_0000_0000_0000
    ensures Updated(h, Measurement(h, e.(sections := e.sections + [s.(size := 4096 * n)]), 0, cmdline),
                    Measurement(h, e.(sections := e.sections + [s]), 0, cmdline), 3, gpa, Zeros(48))
  {
    gpa := AddWrap(s.gpa, 4096 * n);
    var ld, rs := LaunchDigest(h, e, 0, cmdline), ZeroPages(s.gpa, n);
    MoreZeros(s, n, EntryHashesPage(h, e, cmdline));
    assert LaunchDigest(h, e.(sections := e.sections + [s.(size := 4096 * n)]), 0, cmdline)
        == Fold(h.sha384, ld, rs) by {
      NextSection(h, e, s.(size := 4096 * n), cmdline);
    }
    assert LaunchDigest(h, e.(sections := e.sections + [s]), 0, cmdline)
        == Step(h.sha384, Fold(h.sha384, ld, rs), ZeroPage(s.gpa, n)) by {
      NextSection(h, e, s, cmdline);
      FoldSnoc(h.sha384, ld, rs, ZeroPage(s.gpa, n));
    }
    StepUpdates(h, Fold(h.sha384, ld, rs), ZeroPage(s.gpa, n));
  }

  lemma CountIs(size: int, n: nat)
    requires 4096 * (n - 1) < size <= 4096 * n
    ensures PageCount(size) == n
  {
    PageCountBound(size, n);
    if n > 0 { PageCountBound(size, n - 1); }
  }
}
