/** Intel TDX quotes, the registry lookup and the workload verdict. */
module TdxWorkload {
  import opened ByteStrings
  import opened Hashing
  import opened Rtmr
  import opened Semver
  import opened Workload

  // ---- quotes ----

  datatype TdxFields = TdxFields(mrtd: Bytes, rtmr0: Bytes, rtmr1: Bytes, rtmr2: Bytes, rtmr3: Bytes, reportData: Bytes)

  function DecodeQuote(quoteHex: Bytes): Option<Bytes>
  {
    var s := TrimSpace(quoteHex);
    if HexValid(s) then Some(HexDecode(s)) else None
  }

  function ParseRawQuote(raw: Bytes): Option<TdxFields>
  {
    if |raw| < 632 then None
    else if FromLE(raw[0..2]) != 4 then None
    else if FromLE(raw[4..8]) != 0x81 then None
    else Some(TdxFields(HexEncode(raw[184..232]), HexEncode(raw[376..424]), HexEncode(raw[424..472]),
                        HexEncode(raw[472..520]), HexEncode(raw[520..568]), HexEncode(raw[568..632])))
  }

  function ParseTdxQuoteFields(quoteHex: Bytes): Option<TdxFields>
  {
    match DecodeQuote(quoteHex) case None => None case Some(raw) => ParseRawQuote(raw)
  }

  predicate IsTdxQuote(quoteHex: Bytes)
  {
    match DecodeQuote(quoteHex)
    case None => false
    case Some(raw) => |raw| >= 8 && FromLE(raw[0..2]) == 4 && FromLE(raw[4..8]) == 0x81
  }

  /** A version 4 TDX quote as consecutive fields: header and TD report body up to the registers, ... */
  function QuoteHead(a: Bytes, b: Bytes, mrtd: Bytes48, c: Bytes): Bytes
  {
    LE(4, 2) + a + LE(0x81, 4) + b + mrtd + c
  }

  /** ... the registers, the report data, and anything behind. */
  function QuoteTail(rtmrs: seq<Bytes48>, reportData: Bytes, rest: Bytes): Bytes
    requires |rtmrs| == 4
  {
    var r: seq<Bytes> := rtmrs;
    r[0] + r[1] + r[2] + r[3] + reportData + rest
  }

  function QuoteBytes(a: Bytes, b: Bytes, mrtd: Bytes48, c: Bytes, rtmrs: seq<Bytes48>, reportData: Bytes,
                      rest: Bytes): Bytes
    requires |a| == 2 && |b| == 176 && |c| == 144 && |rtmrs| == 4 && |reportData| == 64
  {
    QuoteHead(a, b, mrtd, c) + QuoteTail(rtmrs, reportData, rest)
  }

  lemma HeadOffsets(a: Bytes, b: Bytes, mrtd: Bytes48, c: Bytes)
    requires |a| == 2 && |b| == 176 && |c| == 144
    ensures var head := QuoteHead(a, b, mrtd, c);
            |head| == 376 && head[0..2] == LE(4, 2) && head[4..8] == LE(0x81, 4) && head[184..232] == mrtd
  {
  }

  lemma TailOffsets(rtmrs: seq<Bytes48>, reportData: Bytes, rest: Bytes)
    requires |rtmrs| == 4 && |reportData| == 64
    ensures var tail := QuoteTail(rtmrs, reportData, rest);
            && |tail| >= 256 && tail[0..48] == rtmrs[0] && tail[48..96] == rtmrs[1]
            && tail[96..144] == rtmrs[2] && tail[144..192] == rtmrs[3] && tail[192..256] == reportData
  {
  }

  lemma Windows(head: Bytes, tail: Bytes, i: nat, j: nat)
    requires i <= j
    ensures j <= |head| ==> (head + tail)[i..j] == head[i..j]
    ensures j <= |tail| ==> (head + tail)[|head| + i..|head| + j] == tail[i..j]
  {
  }

  lemma QuoteOffsets(a: Bytes, b: Bytes, mrtd: Bytes48, c: Bytes, rtmrs: seq<Bytes48>, reportData: Bytes, rest: Bytes)
    requires |a| == 2 && |b| == 176 && |c| == 144 && |rtmrs| == 4 && |reportData| == 64
    ensures var raw := QuoteBytes(a, b, mrtd, c, rtmrs, reportData, rest);
            && |raw| >= 632 && raw[0..2] == LE(4, 2) && raw[4..8] == LE(0x81, 4)
            && raw[184..232] == mrtd && raw[376..424] == rtmrs[0] && raw[424..472] == rtmrs[1]
            && raw[472..520] == rtmrs[2] && raw[520..568] == rtmrs[3] && raw[568..632] == reportData
  {
    var head, tail := QuoteHead(a, b, mrtd, c), QuoteTail(rtmrs, reportData, rest);
    HeadOffsets(a, b, mrtd, c);
    TailOffsets(rtmrs, reportData, rest);
    Windows(head, tail, 0, 2);
    Windows(head, tail, 4, 8);
    Windows(head, tail, 184, 232);
    Windows(head, tail, 0, 48);
    Windows(head, tail, 48, 96);
    Windows(head, tail, 96, 144);
    Windows(head, tail, 144, 192);
    Windows(head, tail, 192, 256);
  }

  lemma DigitNoSpace(c: byte)
    requires HexValue(c) != 255
    ensures !IsSpace(c) && c !in SPACES
  {
  }

  lemma HexTextTrimmed(b: Bytes)
    ensures TrimSpace(HexEncode(b)) == HexEncode(b)
  {
    HexRoundTrip(b);
    var s := HexEncode(b);
    if s != [] {
      DigitNoSpace(s[0]);
      DigitNoSpace(s[|s| - 1]);
      assert TrimLeft(s) == s && TrimRight(s, SPACES) == s;
    }
  }

  lemma HexTextDecodes(raw: Bytes)
    ensures DecodeQuote(HexEncode(raw)) == Some(raw)
  {
    HexTextTrimmed(raw);
    HexRoundTrip(raw);
  }

  lemma HeaderNumbers()
    ensures FromLE(LE(4, 2)) == 4 && FromLE(LE(0x81, 4)) == 0x81
  {
    Pow256Values();
    assert Pow256(2) == 0x1_0000;
    LERoundTrip(4, 2);
    LERoundTrip(0x81, 4);
  }

  /** Parsing reads back exactly the registers the quote was laid out with. */
  lemma QuoteRoundTrip(a: Bytes, b: Bytes, mrtd: Bytes48, c: Bytes, rtmrs: seq<Bytes48>, reportData: Bytes, rest: Bytes)
    requires |a| == 2 && |b| == 176 && |c| == 144 && |rtmrs| == 4 && |reportData| == 64
    ensures ParseTdxQuoteFields(HexEncode(QuoteBytes(a, b, mrtd, c, rtmrs, reportData, rest)))
         == Some(TdxFields(HexEncode(mrtd), HexEncode(rtmrs[0]), HexEncode(rtmrs[1]), HexEncode(rtmrs[2]),
                           HexEncode(rtmrs[3]), HexEncode(reportData)))
  {
    HexTextDecodes(QuoteBytes(a, b, mrtd, c, rtmrs, reportData, rest));
    QuoteOffsets(a, b, mrtd, c, rtmrs, reportData, rest);
    HeaderNumbers();
  }

  /** The fields of a quote, in their order. */
  datatype Layout = Layout(a: Bytes, b: Bytes, mrtd: Bytes48, c: Bytes, rtmrs: seq<Bytes48>, reportData: Bytes,
                           rest: Bytes)

  predicate LaidOut(p: Layout, raw: Bytes)
  {
    && |p.a| == 2 && |p.b| == 176 && |p.c| == 144 && |p.rtmrs| == 4 && |p.reportData| == 64
    && raw == QuoteBytes(p.a, p.b, p.mrtd, p.c, p.rtmrs, p.reportData, p.rest)
  }

  lemma {:induction false} FromLEInjective(a: Bytes, b: Bytes)
    requires |a| == |b| && FromLE(a) == FromLE(b)
    ensures a == b
  {
    if a != [] {
      FromLEInjective(a[1..], b[1..]);
      assert a == [a[0]] + a[1..] && b == [b[0]] + b[1..];
    }
  }

  lemma HeadOf(raw: Bytes)
    requires |raw| >= 376 && raw[0..2] == LE(4, 2) && raw[4..8] == LE(0x81, 4)
    ensures raw[..376] == QuoteHead(raw[2..4], raw[8..184], raw[184..232], raw[232..376])
  {
    assert raw[..376] == raw[0..2] + raw[2..4] + raw[4..8] + raw[8..184] + raw[184..232] + raw[232..376];
  }

  lemma TailOf(raw: Bytes)
    requires |raw| >= 632
    ensures raw[376..]
         == QuoteTail([raw[376..424], raw[424..472], raw[472..520], raw[520..568]], raw[568..632], raw[632..])
  {
    assert raw[376..] == raw[376..424] + raw[424..472] + raw[472..520] + raw[520..568] + raw[568..632] + raw[632..];
  }

  lemma ParsedIsLaidOut(raw: Bytes) returns (p: Layout)
    requires ParseRawQuote(raw).Some?
    ensures LaidOut(p, raw)
  {
    HeaderNumbers();
    FromLEInjective(raw[0..2], LE(4, 2));
    FromLEInjective(raw[4..8], LE(0x81, 4));
    HeadOf(raw);
    TailOf(raw);
    p := Layout(raw[2..4], raw[8..184], raw[184..232], raw[232..376],
                [raw[376..424], raw[424..472], raw[472..520], raw[520..568]], raw[568..632], raw[632..]);
    assert raw == raw[..376] + raw[376..];
  }

  lemma LaidOutParses(p: Layout, raw: Bytes)
    requires LaidOut(p, raw)
    ensures ParseRawQuote(raw).Some?
  {
    HeaderNumbers();
    QuoteOffsets(p.a, p.b, p.mrtd, p.c, p.rtmrs, p.reportData, p.rest);
  }

  /** A quote text parses exactly when it is the hexadecimal of some laid-out quote, in either case and with spaces
      around it. */
  lemma ParsesIffLaidOut(quoteHex: Bytes)
    ensures ParseTdxQuoteFields(quoteHex).Some?
       <==> DecodeQuote(quoteHex).Some? && exists p :: LaidOut(p, DecodeQuote(quoteHex).value)
  {
    if DecodeQuote(quoteHex).Some? {
      var raw := DecodeQuote(quoteHex).value;
      if ParseRawQuote(raw).Some? {
        var p := ParsedIsLaidOut(raw);
      }
      if p :| LaidOut(p, raw) {
        LaidOutParses(p, raw);
      }
    }
  }

  // ---- registry ----

  datatype TdxEntry = TdxEntry(
    templateName: Bytes, vmType: Bytes, artifactsVer: Bytes,
    mrtd: Bytes, rtmr0: Bytes, rtmr1: Bytes, rtmr2: Bytes, rootfsData: Bytes)

  function NormalizeHex(s: Bytes): Bytes
  {
    TrimPrefix(Lower(TrimSpace(s)), Ascii("0x"))
  }

  /** Encoded registers are already normal, so the comparison with the registry is exact. */
  lemma {:induction false} EncodedIsLower(b: Bytes)
    ensures Lower(HexEncode(b)) == HexEncode(b)
  {
    if b != [] {
      EncodedIsLower(b[1..]);
      var s := HexEncode(b);
      assert s[2..] == HexEncode(b[1..]) && Lower(s)[2..] == Lower(s[2..]);
      assert s == s[..2] + s[2..] && Lower(s) == Lower(s)[..2] + Lower(s)[2..];
    }
  }

  lemma NoHexPrefix(b: Bytes)
    ensures !(Ascii("0x") <= HexEncode(b))
  {
    var p, s := Ascii("0x"), HexEncode(b);
    assert p[1] == 120;
    if b != [] {
      assert s[1] == HexDigit(b[0] % 16);
      assert HexValue(s[1]) != HexValue(120);
    }
  }

  lemma EncodedIsNormal(b: Bytes)
    ensures NormalizeHex(HexEncode(b)) == HexEncode(b)
  {
    HexTextTrimmed(b);
    EncodedIsLower(b);
    NoHexPrefix(b);
  }

  predicate SameRegisters(e: TdxEntry, mrtd: Bytes, r0: Bytes, r1: Bytes, r2: Bytes)
  {
    e.mrtd == mrtd && e.rtmr0 == r0 && e.rtmr1 == r1 && e.rtmr2 == r2
  }

  function Platform(f: TdxFields): TdxEntry -> bool
  {
    (e: TdxEntry) => SameRegisters(e, f.mrtd, f.rtmr0, f.rtmr1, f.rtmr2)
  }

  /** The platform registers in the form the registry is compared in. */
  function NormalRegisters(f: TdxFields): TdxFields
  {
    f.(mrtd := NormalizeHex(f.mrtd), rtmr0 := NormalizeHex(f.rtmr0), rtmr1 := NormalizeHex(f.rtmr1),
       rtmr2 := NormalizeHex(f.rtmr2))
  }

  lemma ParsedFieldsNormal(quoteHex: Bytes)
    requires ParseTdxQuoteFields(quoteHex).Some?
    ensures NormalRegisters(ParseTdxQuoteFields(quoteHex).value) == ParseTdxQuoteFields(quoteHex).value
  {
    var raw := DecodeQuote(quoteHex).value;
    EncodedIsNormal(raw[184..232]);
    EncodedIsNormal(raw[376..424]);
    EncodedIsNormal(raw[424..472]);
    EncodedIsNormal(raw[472..520]);
  }

  /** The registry loop, for the comparison p of one entry. */
  method SelectEntries(entries: seq<TdxEntry>, p: TdxEntry -> bool) returns (matched: seq<TdxEntry>)
    ensures matched == Select(entries, p)
  {
    matched := [];
    var i := 0;
    while i < |entries|
      invariant 0 <= i <= |entries|
      invariant matched == Select(entries[..i], p)
    {
      SelectSnoc(entries, i, p);
      if p(entries[i]) {
        matched := matched + [entries[i]];
      }
      i := i + 1;
    }
    assert entries[..i] == entries;
  }

  method FindMatchingArtifacts(entries: seq<TdxEntry>, f: TdxFields) returns (matched: seq<TdxEntry>)
    ensures matched == Select(entries, Platform(NormalRegisters(f)))
  {
    var mrtd := NormalizeHex(f.mrtd);
    var rtmr0 := NormalizeHex(f.rtmr0);
    var rtmr1 := NormalizeHex(f.rtmr1);
    var rtmr2 := NormalizeHex(f.rtmr2);
    matched := SelectEntries(entries, Platform(f.(mrtd := mrtd, rtmr0 := rtmr0, rtmr1 := rtmr1, rtmr2 := rtmr2)));
  }

  // ---- verdict ----

  /** CalculateRTMR3 of a compose reading and a registry root file system digest. */
  type Replayer = (Bytes, Bytes) -> Bytes

  function ReplayerOf(h: Hashes): Replayer
  {
    (compose: Bytes, rootfs: Bytes) => Rtmr3(h, compose, rootfs)
  }

  ghost predicate Replays(rtmr3: Replayer, e: TdxEntry, variants: seq<Bytes>, quoted: Bytes)
  {
    exists v :: v in variants && rtmr3(v, e.rootfsData) == quoted
  }

  function VerdictOf(status: WorkloadStatus, e: TdxEntry): WorkloadResult
  {
    WorkloadResult(status, e.templateName, e.vmType, e.artifactsVer, e.vmType)
  }

  function VersionsOf(c: seq<TdxEntry>): (vs: seq<Bytes>)
    ensures |vs| == |c|
  {
    seq(|c|, i requires 0 <= i < |c| => c[i].artifactsVer)
  }

  ghost predicate FirstReplay(rtmr3: Replayer, c: seq<TdxEntry>, variants: seq<Bytes>, quoted: Bytes, i: int)
  {
    && 0 <= i < |c| && Replays(rtmr3, c[i], variants, quoted)
    && forall j :: 0 <= j < i ==> !Replays(rtmr3, c[j], variants, quoted)
  }

  /** The verdict over the entries with the quote's four platform registers: none is not authentic; the first
      that replays to RTMR3 is authentic; else a mismatch reported with the newest version. */
  ghost predicate CandidatesSpec(rtmr3: Replayer, c: seq<TdxEntry>, variants: seq<Bytes>, quoted: Bytes,
                                 r: WorkloadResult)
  {
    if c == [] then r == NOT_AUTHENTIC
    else if exists e :: e in c && Replays(rtmr3, e, variants, quoted) then
      exists i :: FirstReplay(rtmr3, c, variants, quoted, i) && r == VerdictOf(Authentic, c[i])
    else
      exists i :: 0 <= i < |c| && FirstMaximum(Parsed(VersionsOf(c)), |c|, i) && r == VerdictOf(AuthenticMismatch, c[i])
  }

  ghost predicate TdxSpec(rtmr3: Replayer, entries: seq<TdxEntry>, quoteHex: Bytes, variants: seq<Bytes>,
                          r: WorkloadResult)
  {
    match ParseTdxQuoteFields(quoteHex)
    case None => r == NOT_AUTHENTIC
    case Some(f) => CandidatesSpec(rtmr3, Select(entries, Platform(f)), variants, f.rtmr3, r)
  }

  method ReplayCandidates(rtmr3: Replayer, c: seq<TdxEntry>, variants: seq<Bytes>, quoted: Bytes) returns (found: int)
    ensures -1 <= found < |c|
    ensures found >= 0 ==> FirstReplay(rtmr3, c, variants, quoted, found)
    ensures found == -1 ==> forall j :: 0 <= j < |c| ==> !Replays(rtmr3, c[j], variants, quoted)
  {
    found := 0;
    while found < |c|
      invariant 0 <= found <= |c|
      invariant forall j :: 0 <= j < found ==> !Replays(rtmr3, c[j], variants, quoted)
    {
      var k := 0;
      while k < |variants|
        invariant 0 <= k <= |variants|
        invariant forall j :: 0 <= j < k ==> rtmr3(variants[j], c[found].rootfsData) != quoted
      {
        if rtmr3(variants[k], c[found].rootfsData) == quoted {
          assert variants[k] in variants;
          return;
        }
        k := k + 1;
      }
      found := found + 1;
    }
    found := -1;
  }

  method VerifyTdxWorkload(rtmr3: Replayer, entries: seq<TdxEntry>, quoteHex: Bytes, compose: Bytes, extracted: Bytes)
    returns (r: WorkloadResult)
    ensures TdxSpec(rtmr3, entries, quoteHex, ComposeCandidates(compose, extracted), r)
  {
    var fields := ParseTdxQuoteFields(quoteHex);
    if fields.None? {
      return NOT_AUTHENTIC;
    }
    ParsedFieldsNormal(quoteHex);
    var candidates := FindMatchingArtifacts(entries, fields.value);
    if |candidates| == 0 {
      return NOT_AUTHENTIC;
    }
    var best := PickNewestVersion(VersionsOf(candidates));
    var variants := ComposeCandidates(compose, extracted);
    var found := ReplayCandidates(rtmr3, candidates, variants, fields.value.rtmr3);
    if found >= 0 {
      assert candidates[found] in candidates;
      return VerdictOf(Authentic, candidates[found]);
    }
    r := VerdictOf(AuthenticMismatch, candidates[best.value]);
  }

  lemma SpecStatus(rtmr3: Replayer, c: seq<TdxEntry>, variants: seq<Bytes>, quoted: Bytes, r: WorkloadResult)
    requires CandidatesSpec(rtmr3, c, variants, quoted, r)
    ensures r.status == if c == [] then NotAuthentic
                        else if exists e :: e in c && Replays(rtmr3, e, variants, quoted) then Authentic
                        else AuthenticMismatch
  {
  }

  /** Exactly one verdict, decided by a platform match and a replay among the platform matches. */
  lemma VerdictTrichotomy(rtmr3: Replayer, entries: seq<TdxEntry>, quoteHex: Bytes, variants: seq<Bytes>,
                          r: WorkloadResult)
    requires ParseTdxQuoteFields(quoteHex).Some? && TdxSpec(rtmr3, entries, quoteHex, variants, r)
    ensures var f := ParseTdxQuoteFields(quoteHex).value;
            && (r.status.NotAuthentic? <==> !exists e :: e in entries && Platform(f)(e))
            && (r.status.Authentic? <==>
                  exists e :: e in entries && Platform(f)(e) && Replays(rtmr3, e, variants, f.rtmr3))
            && (r.status.AuthenticMismatch? <==>
                  && (exists e :: e in entries && Platform(f)(e))
                  && !exists e :: e in entries && Platform(f)(e) && Replays(rtmr3, e, variants, f.rtmr3))
  {
    var f := ParseTdxQuoteFields(quoteHex).value;
    var c := Select(entries, Platform(f));
    SpecStatus(rtmr3, c, variants, f.rtmr3, r);
    SelectMembers(entries, Platform(f));
    if c != [] { assert c[0] in c; }
  }

  /** Two compose texts replay to one RTMR3, with whatever registry entries: they are equal or collide. */
  lemma ReplayBindsCompose(h: Hashes, e: TdxEntry, c: Bytes, e': TdxEntry, c': Bytes)
    requires ReplayerOf(h)(c, e.rootfsData) == ReplayerOf(h)(c', e'.rootfsData)
    ensures c == c' || ReplaysCollide(h, e, c, e', c')
  {
    var a, b := Rtmr3Log(h, c, e.rootfsData), Rtmr3Log(h, c', e'.rootfsData);
    HexInjective(Chain(h.sha384, GoContents(a)), Chain(h.sha384, GoContents(b)));
    ChainBinds(h.sha384, GoContents(a), GoContents(b));
    if GoContents(a) == GoContents(b) {
      HexRoundTrip(h.sha256(c));
      HexRoundTrip(h.sha256(c'));
      assert GoContents(a)[0][..32] == h.sha256(c) && GoContents(b)[0][..32] == h.sha256(c');
      assert c in {c} && c' in {c'};
    }
  }

  /** The two compose texts collide under SHA-256, or inputs of the two replays under SHA-384. */
  ghost predicate ReplaysCollide(h: Hashes, e: TdxEntry, c: Bytes, e': TdxEntry, c': Bytes)
  {
    || CollisionBetween(h.sha256, {c}, {c'})
    || ChainsCollide(h.sha384, GoContents(Rtmr3Log(h, c, e.rootfsData)), GoContents(Rtmr3Log(h, c', e'.rootfsData)))
  }

  lemma AuthenticReplays(h: Hashes, entries: seq<TdxEntry>, quoteHex: Bytes, variants: seq<Bytes>, r: WorkloadResult)
    returns (e: TdxEntry, v: Bytes)
    requires TdxSpec(ReplayerOf(h), entries, quoteHex, variants, r) && r.status.Authentic?
    ensures ParseTdxQuoteFields(quoteHex).Some?
    ensures e in entries && v in variants && Platform(ParseTdxQuoteFields(quoteHex).value)(e)
    ensures ReplayerOf(h)(v, e.rootfsData) == ParseTdxQuoteFields(quoteHex).value.rtmr3
  {
    var f := ParseTdxQuoteFields(quoteHex).value;
    var c := Select(entries, Platform(f));
    SpecStatus(ReplayerOf(h), c, variants, f.rtmr3, r);
    e :| e in c && Replays(ReplayerOf(h), e, variants, f.rtmr3);
    v :| v in variants && ReplayerOf(h)(v, e.rootfsData) == f.rtmr3;
    SelectMembers(entries, Platform(f));
  }

  /** An accepted compose file is the only one that can be accepted: two authentic verdicts on one quote, from
      whatever registries, have a reading in common, or their readings exhibit a collision. */
  lemma AuthenticBindsCompose(h: Hashes, quoteHex: Bytes, entries: seq<TdxEntry>, variants: seq<Bytes>,
                              r: WorkloadResult,
                              entries': seq<TdxEntry>, variants': seq<Bytes>, r': WorkloadResult)
    requires TdxSpec(ReplayerOf(h), entries, quoteHex, variants, r) && r.status.Authentic?
    requires TdxSpec(ReplayerOf(h), entries', quoteHex, variants', r') && r'.status.Authentic?
    ensures || (exists v :: v in variants && v in variants')
            || (exists e, v, e', v' :: && e in entries && v in variants && e' in entries' && v' in variants'
                                       && ReplaysCollide(h, e, v, e', v'))
  {
    var e, v := AuthenticReplays(h, entries, quoteHex, variants, r);
    var e', v' := AuthenticReplays(h, entries', quoteHex, variants', r');
    ReplayBindsCompose(h, e, v, e', v');
  }
}
