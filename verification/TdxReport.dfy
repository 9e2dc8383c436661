/** The TDX verdict read off a laid-out quote: which of its registers decide, and how. */
module TdxReport {
  import opened ByteStrings
  import opened ByteWindows
  import opened Hashing
  import opened Rtmr
  import opened Semver
  import opened TdxWorkload
  import opened Workload

  // ---- the replayed register ----

  /** The digits of a registry text, whose 0x is optional. */
  predicate Bare(text: Bytes, digits: Bytes)
  {
    text == Ascii("0x") + digits || (text == digits && !(Ascii("0x") <= digits))
  }

  /** Extending 48 zero bytes with the SHA-256 of the compose text and then with the root file system digest, each
      filled up to 48 bytes, gives the register. */
  ghost predicate ExtendsTo(h: Hashes, compose: Bytes, rootfs: Bytes, register: Bytes)
  {
    exists digits, content ::
      && Bare(rootfs, digits) && |content| == 48 && Padded(content, HexDecode(digits))
      && register == h.sha384(h.sha384(Zeros(48) + (h.sha256(compose) + Zeros(16))) + content)
  }

  lemma {:induction false} LowerDecodes(s: Bytes)
    ensures HexDecode(Lower(s)) == HexDecode(s)
    decreases |s|
  {
    if |s| >= 2 {
      assert Lower(s)[2..] == Lower(s[2..]);
      LowerDecodes(s[2..]);
    }
  }

  lemma PaddedUnique(a: Bytes, b: Bytes, src: Bytes)
    requires |a| == |b| && Padded(a, src) && Padded(b, src)
    ensures a == b
  {
    forall i | 0 <= i < |a| ensures a[i] == b[i] {
      if i < |src| { assert a[i] == a[..if |src| < |a| then |src| else |a|][i]; }
    }
  }

  lemma ReplayValue(h: Hashes, compose: Bytes, rootfs: Bytes, digits: Bytes)
    requires Bare(rootfs, digits)
    ensures Rtmr3(h, compose, rootfs)
         == HexEncode(h.sha384(h.sha384(Zeros(48) + (h.sha256(compose) + Zeros(16))) + Pad(HexDecode(digits), 48)))
  {
    var log := Rtmr3Log(h, compose, rootfs);
    assert TrimPrefix(rootfs, Ascii("0x")) == digits;
    LowerDecodes(digits);
    HexRoundTrip(h.sha256(compose));
    var a, b := h.sha256(compose) + Zeros(16), Pad(HexDecode(digits), 48);
    assert GoContents(log) == [a, b];
    ChainNext(h.sha384, [a], b);
    ChainNext(h.sha384, [], a);
    assert [] + [a] == [a] && [a] + [b] == [a, b];
  }

  lemma ReplayIff(h: Hashes, compose: Bytes, rootfs: Bytes, register: Bytes48)
    ensures Rtmr3(h, compose, rootfs) == HexEncode(register) <==> ExtendsTo(h, compose, rootfs, register)
  {
    var mid: Bytes := h.sha384(Zeros(48) + (h.sha256(compose) + Zeros(16)));
    var bare := TrimPrefix(rootfs, Ascii("0x"));
    if Rtmr3(h, compose, rootfs) == HexEncode(register) {
      var digits := if Ascii("0x") <= rootfs then bare else rootfs;
      assert Bare(rootfs, digits);
      ReplayValue(h, compose, rootfs, digits);
      HexInjective(register, h.sha384(mid + Pad(HexDecode(digits), 48)));
      assert Padded(Pad(HexDecode(digits), 48), HexDecode(digits));
    }
    if digits, content :| && Bare(rootfs, digits) && |content| == 48 && Padded(content, HexDecode(digits))
                          && register == h.sha384(mid + content) {
      ReplayValue(h, compose, rootfs, digits);
      PaddedUnique(content, Pad(HexDecode(digits), 48), HexDecode(digits));
    }
  }

  // ---- the verdict ----

  /** The entry was recorded with the four platform registers of the quote. */
  predicate Boots(e: TdxEntry, p: Layout)
    requires |p.rtmrs| == 4
  {
    && e.mrtd == HexEncode(p.mrtd) && e.rtmr0 == HexEncode(p.rtmrs[0]) && e.rtmr1 == HexEncode(p.rtmrs[1])
    && e.rtmr2 == HexEncode(p.rtmrs[2])
  }

  ghost predicate Runs(h: Hashes, e: TdxEntry, p: Layout, variants: seq<Bytes>)
    requires |p.rtmrs| == 4
  {
    exists v :: v in variants && ExtendsTo(h, v, e.rootfsData, p.rtmrs[3])
  }

  function Labelled(status: WorkloadStatus, e: TdxEntry): WorkloadResult
  {
    WorkloadResult(status, e.templateName, e.vmType, e.artifactsVer, e.vmType)
  }

  ghost predicate FirstRuns(entries: seq<TdxEntry>, boots: TdxEntry -> bool, runs: TdxEntry -> bool, i: nat)
  {
    && i < |entries| && boots(entries[i]) && runs(entries[i])
    && forall j :: 0 <= j < i ==> !(boots(entries[j]) && runs(entries[j]))
  }

  /** The first of the newest versions among the entries that boot. */
  ghost predicate NewestBoots(entries: seq<TdxEntry>, boots: TdxEntry -> bool, i: nat)
  {
    && i < |entries| && boots(entries[i])
    && forall j :: 0 <= j < |entries| && boots(entries[j]) ==>
         var c := CompareSemver(entries[j].artifactsVer, entries[i].artifactsVer);
         c <= 0 && (j < i ==> c < 0)
  }

  /** Not authentic when no entry boots, authentic for the first that boots and runs, otherwise a mismatch reported with
      the newest that boots. */
  ghost predicate Decided(entries: seq<TdxEntry>, boots: TdxEntry -> bool, runs: TdxEntry -> bool, r: WorkloadResult)
  {
    if !exists e :: e in entries && boots(e) then r == WorkloadResult(NotAuthentic, [], [], [], [])
    else if exists e :: e in entries && boots(e) && runs(e) then
      exists i: nat :: FirstRuns(entries, boots, runs, i) && r == Labelled(Authentic, entries[i])
    else exists i: nat :: NewestBoots(entries, boots, i) && r == Labelled(AuthenticMismatch, entries[i])
  }

  /** The place in s of the first selected element that satisfies q. */
  lemma {:induction false} FirstSelected<T>(s: seq<T>, p: T -> bool, q: T -> bool, k: nat) returns (i: nat)
    requires k < |Select(s, p)| && q(Select(s, p)[k]) && forall j :: 0 <= j < k ==> !q(Select(s, p)[j])
    ensures i < |s| && s[i] == Select(s, p)[k] && p(s[i]) && forall j :: 0 <= j < i ==> !(p(s[j]) && q(s[j]))
    decreases |s|
  {
    var before, all := s[..|s| - 1], Select(s, p);
    var c := Select(before, p);
    assert forall j :: 0 <= j < |c| ==> all[j] == c[j];
    if k < |c| {
      i := FirstSelected(before, p, q, k);
      assert forall j :: 0 <= j < |before| ==> s[j] == before[j];
    } else {
      i := |s| - 1;
      forall j | 0 <= j < i && p(s[j]) ensures !q(s[j]) {
        var x := SelectedPlace(before, p, j);
        assert all[x] == s[j];
      }
    }
  }

  lemma {:induction false} SelectedPlace<T>(s: seq<T>, p: T -> bool, j: nat) returns (x: nat)
    requires j < |s| && p(s[j])
    ensures x < |Select(s, p)| && Select(s, p)[x] == s[j]
    decreases |s|
  {
    if j == |s| - 1 {
      x := |Select(s, p)| - 1;
    } else {
      x := SelectedPlace(s[..|s| - 1], p, j);
    }
  }

  lemma RunsCase(rtmr3: Replayer, entries: seq<TdxEntry>, boots: TdxEntry -> bool, runs: TdxEntry -> bool,
                 variants: seq<Bytes>, quoted: Bytes, k: nat) returns (i: nat)
    requires k < |Select(entries, boots)| && FirstReplay(rtmr3, Select(entries, boots), variants, quoted, k)
    requires forall e :: Replays(rtmr3, e, variants, quoted) <==> runs(e)
    ensures FirstRuns(entries, boots, runs, i) && entries[i] == Select(entries, boots)[k]
  {
    i := FirstSelected(entries, boots, runs, k);
  }

  lemma DecidedNone(entries: seq<TdxEntry>, boots: TdxEntry -> bool, runs: TdxEntry -> bool)
    requires Select(entries, boots) == []
    ensures Decided(entries, boots, runs, WorkloadResult(NotAuthentic, [], [], [], []))
  {
    SelectMembers(entries, boots);
  }

  lemma DecidedAuthentic(entries: seq<TdxEntry>, boots: TdxEntry -> bool, runs: TdxEntry -> bool, i: nat)
    requires FirstRuns(entries, boots, runs, i)
    ensures Decided(entries, boots, runs, Labelled(Authentic, entries[i]))
  {
    assert entries[i] in entries;
  }

  lemma DecidedMismatch(entries: seq<TdxEntry>, boots: TdxEntry -> bool, runs: TdxEntry -> bool, i: nat)
    requires NewestBoots(entries, boots, i) && !exists e :: e in entries && boots(e) && runs(e)
    ensures Decided(entries, boots, runs, Labelled(AuthenticMismatch, entries[i]))
  {
    assert entries[i] in entries;
  }

  lemma NoneRuns(rtmr3: Replayer, entries: seq<TdxEntry>, boots: TdxEntry -> bool, runs: TdxEntry -> bool,
                 variants: seq<Bytes>, quoted: Bytes)
    requires forall e :: Replays(rtmr3, e, variants, quoted) <==> runs(e)
    requires !exists e :: e in Select(entries, boots) && Replays(rtmr3, e, variants, quoted)
    ensures !exists e :: e in entries && boots(e) && runs(e)
  {
    SelectMembers(entries, boots);
  }

  lemma SpecDecides(rtmr3: Replayer, entries: seq<TdxEntry>, boots: TdxEntry -> bool, runs: TdxEntry -> bool,
                    variants: seq<Bytes>, quoted: Bytes, r: WorkloadResult)
    requires CandidatesSpec(rtmr3, Select(entries, boots), variants, quoted, r)
    requires forall e :: Replays(rtmr3, e, variants, quoted) <==> runs(e)
    ensures Decided(entries, boots, runs, r)
  {
    var c := Select(entries, boots);
    if c == [] {
      DecidedNone(entries, boots, runs);
    } else if exists e :: e in c && Replays(rtmr3, e, variants, quoted) {
      var k :| FirstReplay(rtmr3, c, variants, quoted, k) && r == VerdictOf(Authentic, c[k]);
      var i := RunsCase(rtmr3, entries, boots, runs, variants, quoted, k);
      DecidedAuthentic(entries, boots, runs, i);
    } else {
      NoneRuns(rtmr3, entries, boots, runs, variants, quoted);
      var k :| 0 <= k < |c| && FirstMaximum(Parsed(VersionsOf(c)), |c|, k) && r == VerdictOf(AuthenticMismatch, c[k]);
      var i := NewestSelected(entries, boots, k);
      DecidedMismatch(entries, boots, runs, i);
    }
  }

  lemma NewestSelected(entries: seq<TdxEntry>, boots: TdxEntry -> bool, k: nat) returns (i: nat)
    requires var c := Select(entries, boots); k < |c| && FirstMaximum(Parsed(VersionsOf(c)), |c|, k)
    ensures NewestBoots(entries, boots, i) && entries[i] == Select(entries, boots)[k]
  {
    var c := Select(entries, boots);
    var best := c[k].artifactsVer;
    var newest := (e: TdxEntry) => CompareSemver(e.artifactsVer, best) >= 0;
    CompareSemverPreorder(best, best, best);
    forall j | 0 <= j < |c| ensures CompareSemver(c[j].artifactsVer, best) <= 0 && (j < k ==> !newest(c[j])) {
      assert Parsed(VersionsOf(c))[j] == ParseSemver(c[j].artifactsVer);
    }
    i := FirstSelected(entries, boots, newest, k);
    forall j | 0 <= j < |entries| && boots(entries[j])
      ensures CompareSemver(entries[j].artifactsVer, best) <= 0
    {
      var x := SelectedPlace(entries, boots, j);
    }
  }

  /** A laid-out quote, in hexadecimal with any white space around it: the four platform registers select the entries
      and the fourth runtime register decides among them. */
  lemma QuoteVerdict(h: Hashes, entries: seq<TdxEntry>, p: Layout, raw: Bytes, before: Bytes, after: Bytes,
                     variants: seq<Bytes>, r: WorkloadResult)
    requires LaidOut(p, raw) && forall c :: c in before || c in after ==> c == 32 || 9 <= c <= 13
    requires TdxSpec(ReplayerOf(h), entries, before + HexEncode(raw) + after, variants, r)
    ensures Decided(entries, (e: TdxEntry) => Boots(e, p), (e: TdxEntry) => Runs(h, e, p, variants), r)
  {
    var f := QuoteFields(p, raw, before, after);
    var boots := (e: TdxEntry) => Boots(e, p);
    var runs := (e: TdxEntry) => Runs(h, e, p, variants);
    SelectSame(entries, Platform(f), boots);
    forall e ensures Replays(ReplayerOf(h), e, variants, f.rtmr3) <==> runs(e) {
      RunsIff(h, e, p, variants);
    }
    SpecDecides(ReplayerOf(h), entries, boots, runs, variants, f.rtmr3, r);
  }

  lemma RunsIff(h: Hashes, e: TdxEntry, p: Layout, variants: seq<Bytes>)
    requires |p.rtmrs| == 4
    ensures Replays(ReplayerOf(h), e, variants, HexEncode(p.rtmrs[3])) <==> Runs(h, e, p, variants)
  {
    forall v | v in variants
      ensures ReplayerOf(h)(v, e.rootfsData) == HexEncode(p.rtmrs[3]) <==> ExtendsTo(h, v, e.rootfsData, p.rtmrs[3])
    {
      ReplayIff(h, v, e.rootfsData, p.rtmrs[3]);
    }
  }

  lemma {:induction false} SelectSame<T(!new)>(s: seq<T>, p: T -> bool, q: T -> bool)
    requires forall x :: p(x) <==> q(x)
    ensures Select(s, p) == Select(s, q)
  {
    if s != [] {
      SelectSame(s[..|s| - 1], p, q);
    }
  }

  lemma QuoteFields(p: Layout, raw: Bytes, before: Bytes, after: Bytes) returns (f: TdxFields)
    requires LaidOut(p, raw) && forall c :: c in before || c in after ==> c == 32 || 9 <= c <= 13
    ensures ParseTdxQuoteFields(before + HexEncode(raw) + after) == Some(f)
    ensures f.mrtd == HexEncode(p.mrtd) && f.rtmr0 == HexEncode(p.rtmrs[0]) && f.rtmr1 == HexEncode(p.rtmrs[1])
    ensures f.rtmr2 == HexEncode(p.rtmrs[2]) && f.rtmr3 == HexEncode(p.rtmrs[3])
  {
    var s := HexEncode(raw);
    DecodesAs(raw, before, after);
    HexRoundTrip(raw);
    HexTextDecodes(raw);
    QuoteRoundTrip(p.a, p.b, p.mrtd, p.c, p.rtmrs, p.reportData, p.rest);
    f := ParseTdxQuoteFields(s).value;
  }

  // ---- which platform ----

  lemma FromLE1(a: byte)
    ensures FromLE([a]) == a
  {
    assert [a][1..] == [];
  }

  lemma FromLE2(a: byte, b: byte)
    ensures FromLE([a, b]) == a + 256 * b
  {
    assert [a, b][1..] == [b];
    FromLE1(b);
  }

  lemma FromLE4(a: byte, b: byte, c: byte, d: byte)
    ensures FromLE([a, b, c, d]) == a + 256 * (b + 256 * (c + 256 * d))
  {
    assert [a, b, c, d][1..] == [b, c, d] && [b, c, d][1..] == [c, d];
    FromLE2(c, d);
  }

  lemma Is4(b: Bytes)
    requires |b| == 2
    ensures FromLE(b) == 4 <==> b[0] == 4 && b[1] == 0
  {
    FromLE2(b[0], b[1]);
    assert b == [b[0], b[1]];
  }

  lemma Is129(b: Bytes)
    requires |b| == 4
    ensures FromLE(b) == 0x81 <==> b[0] == 0x81 && b[1] == 0 && b[2] == 0 && b[3] == 0
  {
    FromLE4(b[0], b[1], b[2], b[3]);
    assert b == [b[0], b[1], b[2], b[3]];
  }

  lemma HeaderDecides(raw: Bytes, text: Bytes)
    requires DecodeQuote(text) == Some(raw)
    ensures IsTdxQuote(text) <==>
              && |raw| >= 8 && raw[0] == 4 && raw[1] == 0
              && raw[4] == 0x81 && raw[5] == 0 && raw[6] == 0 && raw[7] == 0
  {
    if |raw| >= 8 {
      Is4(raw[0..2]);
      Is129(raw[4..8]);
    }
  }

  /** A quote text is taken for TDX exactly when it is hexadecimal of bytes that start with version 4 and, behind the
      key type, TEE type 0x81; everything else goes to SEV. */
  lemma TdxByHeader(raw: Bytes, before: Bytes, after: Bytes)
    requires forall c :: c in before || c in after ==> c == 32 || 9 <= c <= 13
    ensures IsTdxQuote(before + HexEncode(raw) + after) <==>
              && |raw| >= 8 && raw[0] == 4 && raw[1] == 0
              && raw[4] == 0x81 && raw[5] == 0 && raw[6] == 0 && raw[7] == 0
  {
    DecodesAs(raw, before, after);
    HeaderDecides(raw, before + HexEncode(raw) + after);
  }

  lemma DecodesAs(raw: Bytes, before: Bytes, after: Bytes)
    requires forall c :: c in before || c in after ==> c == 32 || 9 <= c <= 13
    ensures DecodeQuote(before + HexEncode(raw) + after) == Some(raw)
  {
    var s := HexEncode(raw);
    HexRoundTrip(raw);
    if s != [] {
      DigitNoSpace(s[0]);
      DigitNoSpace(s[|s| - 1]);
    }
    TrimSpacePad(before, s, after);
    HexTextDecodes(raw);
  }
}
