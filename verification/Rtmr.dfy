/** Replay of an Intel TDX runtime measurement register, in Go and in the Python CI tool. */
module Rtmr {
  import opened ByteStrings
  import opened Hashing

  // ---- the extend chain ----

  function Extend(sha384: Sha384, mr: Bytes, content: Bytes): Bytes48
  {
    sha384(mr + content)
  }

  /** The register after extending 48 zero bytes with each content in turn. */
  function Chain(sha384: Sha384, contents: seq<Bytes>): (mr: Bytes)
    ensures |mr| == 48
  {
    if contents == [] then Zeros(48)
    else Extend(sha384, Chain(sha384, contents[..|contents| - 1]), contents[|contents| - 1])
  }

  /** The inputs the chain hashes. */
  function ChainInputs(sha384: Sha384, contents: seq<Bytes>): set<Bytes>
  {
    if contents == [] then {}
    else
      var before := contents[..|contents| - 1];
      ChainInputs(sha384, before) + {Chain(sha384, before) + contents[|contents| - 1]}
  }

  ghost predicate ChainsCollide(sha384: Sha384, a: seq<Bytes>, b: seq<Bytes>)
  {
    CollisionBetween(sha384, ChainInputs(sha384, a), ChainInputs(sha384, b))
  }

  /** Chains of the same length that end in the same register extended the same contents,
      whatever their sizes, or exhibit a SHA-384 collision. */
  lemma {:induction false} ChainBinds(sha384: Sha384, a: seq<Bytes>, b: seq<Bytes>)
    requires |a| == |b| && Chain(sha384, a) == Chain(sha384, b)
    ensures a == b || ChainsCollide(sha384, a, b)
  {
    if a != [] {
      var a', b' := a[..|a| - 1], b[..|b| - 1];
      var x, y := Chain(sha384, a') + a[|a| - 1], Chain(sha384, b') + b[|b| - 1];
      assert x in ChainInputs(sha384, a) && y in ChainInputs(sha384, b);
      if x == y {
        assert x[..48] == Chain(sha384, a') && y[..48] == Chain(sha384, b');
        assert x[48..] == a[|a| - 1] && y[48..] == b[|b| - 1];
        ChainBinds(sha384, a', b');
        CollisionMonotone(sha384, ChainInputs(sha384, a'), ChainInputs(sha384, b'),
                          ChainInputs(sha384, a), ChainInputs(sha384, b));
        assert a == a' + [a[|a| - 1]] && b == b' + [b[|b| - 1]];
      }
    }
  }

  // ---- Go ----

  /** What Go extends for each hexadecimal log entry: 48 bytes, cut or zero-padded. */
  function GoContents(log: seq<Bytes>): (cs: seq<Bytes>)
    ensures |cs| == |log|
  {
    seq(|log|, i requires 0 <= i < |log| => Pad(HexDecode(log[i]), 48))
  }

  function Replay(sha384: Sha384, log: seq<Bytes>): Bytes
  {
    HexEncode(Chain(sha384, GoContents(log)))
  }

  /** A copy into a zeroed buffer of n bytes. */
  method PaddedCopy(src: Bytes, n: nat) returns (r: Bytes)
    ensures r == Pad(src, n)
  {
    var padded := new byte[n](_ => 0);
    assert padded[..] == Zeros(n);
    CopyWindow(padded, 0, n, src);
    r := padded[..];
  }

  /** Two 48-byte halves copied into one buffer. */
  method SideBySide(a: Bytes, b: Bytes) returns (r: Bytes)
    requires |a| == |b| == 48
    ensures r == a + b
  {
    var buf := new byte[96](_ => 0);
    CopyWindow(buf, 0, 48, a);
    CopyWindow(buf, 48, 96, b);
    r := buf[..];
  }

  method ExtendInPlace(sha384: Sha384, mr: array<byte>, entry: Bytes)
    requires mr.Length == 48
    modifies mr
    ensures mr[..] == Extend(sha384, old(mr[..]), Pad(HexDecode(entry), 48))
  {
    var padded := PaddedCopy(HexDecode(entry), 48);
    var buf := SideBySide(mr[..], padded);
    var digest := sha384(buf);
    CopyWindow(mr, 0, 48, digest);
  }

  method ReplayRtmr(sha384: Sha384, log: seq<Bytes>) returns (r: Bytes)
    ensures r == Replay(sha384, log)
  {
    var mr := new byte[48](_ => 0);
    assert mr[..] == Zeros(48);
    var i := 0;
    while i < |log|
      invariant 0 <= i <= |log|
      invariant mr[..] == Chain(sha384, GoContents(log)[..i])
    {
      ExtendInPlace(sha384, mr, log[i]);
      assert GoContents(log)[..i + 1][..i] == GoContents(log)[..i];
      i := i + 1;
    }
    assert GoContents(log)[..i] == GoContents(log);
    r := HexEncode(mr[..]);
  }

  // ---- Python ----

  /** Short entries are padded, long ones are hashed whole. */
  function PyContent(b: Bytes): Bytes
  {
    if |b| < 48 then b + Zeros(48 - |b|) else b
  }

  function PyContents(log: seq<Bytes>): Option<seq<Bytes>>
  {
    if log == [] then Some([])
    else match PyContents(log[..|log| - 1])
         case None => None
         case Some(cs) =>
           match PyFromHex(log[|log| - 1])
           case None => None
           case Some(b) => Some(cs + [PyContent(b)])
  }

  function PyReplay(sha384: Sha384, log: seq<Bytes>): Option<Bytes>
  {
    match PyContents(log) case None => None case Some(cs) => Some(HexEncode(Chain(sha384, cs)))
  }

  lemma {:induction false} PyContentsFail(log: seq<Bytes>, k: nat)
    requires k <= |log| && PyContents(log[..k]).None?
    ensures PyContents(log).None?
    decreases |log|
  {
    if k == |log| {
      assert log[..k] == log;
    } else {
      assert log[..|log| - 1][..k] == log[..k];
      PyContentsFail(log[..|log| - 1], k);
    }
  }

  lemma PyContentsNext(log: seq<Bytes>, i: nat, cs: seq<Bytes>)
    requires i < |log| && PyContents(log[..i]) == Some(cs)
    ensures PyContents(log[..i + 1])
         == match PyFromHex(log[i]) case None => None case Some(b) => Some(cs + [PyContent(b)])
  {
    assert log[..i + 1][..i] == log[..i];
  }

  lemma ChainNext(sha384: Sha384, cs: seq<Bytes>, c: Bytes)
    ensures Chain(sha384, cs + [c]) == Extend(sha384, Chain(sha384, cs), c)
  {
    assert (cs + [c])[..|cs|] == cs;
  }

  method PyReplayRtmr(sha384: Sha384, log: seq<Bytes>) returns (r: Option<Bytes>)
    ensures r == PyReplay(sha384, log)
  {
    var mr := Zeros(48);
    ghost var cs := [];
    var i := 0;
    while i < |log|
      invariant 0 <= i <= |log|
      invariant PyContents(log[..i]) == Some(cs) && mr == Chain(sha384, cs)
    {
      PyContentsNext(log, i, cs);
      var content := PyFromHex(log[i]);
      if content.None? {
        PyContentsFail(log, i + 1);
        return None;
      }
      var c := content.value;
      if |c| < 48 {
        c := c + Zeros(48 - |c|);
      }
      ChainNext(sha384, cs, c);
      mr := sha384(mr + c);
      cs := cs + [c];
      i := i + 1;
    }
    assert log[..i] == log;
    r := Some(HexEncode(mr));
  }

  predicate AllHexValid(log: seq<Bytes>)
  {
    forall i :: 0 <= i < |log| ==> HexValid(log[i])
  }

  lemma {:induction false} PyContentsMeaning(log: seq<Bytes>)
    requires AllHexValid(log)
    ensures PyContents(log).Some? && |PyContents(log).value| == |log|
    ensures forall i :: 0 <= i < |log| ==> PyContents(log).value[i] == PyContent(HexDecode(log[i]))
  {
    if log != [] {
      PyContentsMeaning(log[..|log| - 1]);
      PyFromHexAgrees(log[|log| - 1]);
    }
  }

  predicate AllShort(log: seq<Bytes>)
  {
    forall i :: 0 <= i < |log| ==> |log[i]| <= 96
  }

  lemma ContentsAgree(log: seq<Bytes>)
    requires AllHexValid(log)
    ensures PyContents(log).Some? && |PyContents(log).value| == |log|
    ensures PyContents(log).value == GoContents(log) <==> AllShort(log)
  {
    PyContentsMeaning(log);
    var py, go := PyContents(log).value, GoContents(log);
    forall i | 0 <= i < |log| ensures |log[i]| <= 96 <==> py[i] == go[i] {
      HexDecodeLength(log[i]);
      OneContentAgrees(HexDecode(log[i]));
    }
  }

  lemma OneContentAgrees(b: Bytes)
    ensures PyContent(b) == Pad(b, 48) <==> |b| <= 48
  {
  }

  /** On valid hexadecimal logs the Python tool never raises; it returns the Go register when every entry
      fits 48 bytes, and only then unless the two replays exhibit a SHA-384 collision. */
  lemma ReplayTwin(sha384: Sha384, log: seq<Bytes>)
    requires AllHexValid(log)
    ensures PyReplay(sha384, log).Some?
    ensures AllShort(log) ==> PyReplay(sha384, log) == Some(Replay(sha384, log))
    ensures PyReplay(sha384, log) == Some(Replay(sha384, log)) ==>
              AllShort(log) || ChainsCollide(sha384, PyContents(log).value, GoContents(log))
  {
    ContentsAgree(log);
    var py, go := PyContents(log).value, GoContents(log);
    HexInjective(Chain(sha384, py), Chain(sha384, go));
    if Chain(sha384, py) == Chain(sha384, go) {
      ChainBinds(sha384, py, go);
    }
  }

  // ---- RTMR3 ----

  function Rtmr3Log(h: Hashes, compose: Bytes, rootfsHex: Bytes): seq<Bytes>
  {
    [HexEncode(h.sha256(compose)), Lower(TrimPrefix(rootfsHex, Ascii("0x")))]
  }

  function Rtmr3(h: Hashes, compose: Bytes, rootfsHex: Bytes): Bytes
  {
    Replay(h.sha384, Rtmr3Log(h, compose, rootfsHex))
  }

  method CalculateRTMR3(h: Hashes, compose: Bytes, rootfsHex: Bytes) returns (r: Bytes)
    ensures r == Rtmr3(h, compose, rootfsHex)
  {
    var composeHash := h.sha256(compose);
    r := ReplayRtmr(h.sha384, [HexEncode(composeHash), Lower(TrimPrefix(rootfsHex, Ascii("0x")))]);
  }

  /** Logs of the same length whose entries decode to 32 bytes and replay to the same register
      decode to the same entries, or the replays exhibit a collision. */
  lemma ReplayBinds(sha384: Sha384, a: seq<Bytes>, b: seq<Bytes>)
    requires |a| == |b| && Replay(sha384, a) == Replay(sha384, b)
    requires forall i :: 0 <= i < |a| ==> |HexDecode(a[i])| == 32 && |HexDecode(b[i])| == 32
    ensures || (forall i :: 0 <= i < |a| ==> HexDecode(a[i]) == HexDecode(b[i]))
            || ChainsCollide(sha384, GoContents(a), GoContents(b))
  {
    HexInjective(Chain(sha384, GoContents(a)), Chain(sha384, GoContents(b)));
    ChainBinds(sha384, GoContents(a), GoContents(b));
    if GoContents(a) == GoContents(b) {
      forall i | 0 <= i < |a| ensures HexDecode(a[i]) == HexDecode(b[i]) {
        assert GoContents(a)[i][..32] == HexDecode(a[i]) && GoContents(b)[i][..32] == HexDecode(b[i]);
      }
    }
  }

  /** RTMR3 binds the compose file and the root file system digest. */
  lemma Rtmr3Binds(h: Hashes, c: Bytes, rootfs: Bytes, c': Bytes, rootfs': Bytes)
    requires Rtmr3(h, c, rootfs) == Rtmr3(h, c', rootfs')
    requires |HexDecode(Rtmr3Log(h, c, rootfs)[1])| == 32 && |HexDecode(Rtmr3Log(h, c', rootfs')[1])| == 32
    ensures || (c == c' && HexDecode(Rtmr3Log(h, c, rootfs)[1]) == HexDecode(Rtmr3Log(h, c', rootfs')[1]))
            || CollisionBetween(h.sha256, {c}, {c'})
            || ChainsCollide(h.sha384, GoContents(Rtmr3Log(h, c, rootfs)), GoContents(Rtmr3Log(h, c', rootfs')))
  {
    var a, b := Rtmr3Log(h, c, rootfs), Rtmr3Log(h, c', rootfs');
    HexRoundTrip(h.sha256(c));
    HexRoundTrip(h.sha256(c'));
    ReplayBinds(h.sha384, a, b);
    if HexDecode(a[0]) == HexDecode(b[0]) && c != c' {
      assert c in {c} && c' in {c'} && h.sha256(c) == h.sha256(c');
    }
  }
}
