/** Byte strings: Go's `string` and `[]byte` are both sequences of bytes here.
    Holds the little-endian, hexadecimal and buffer-copy operations that the
    attestation code takes from the Go standard library. */
module ByteStrings {

  type byte = x: int | 0 <= x < 256
  type Bytes = seq<byte>
  type Bytes32 = b: Bytes | |b| == 32 witness seq(32, _ => 0)
  type Bytes48 = b: Bytes | |b| == 48 witness seq(48, _ => 0)
  type u64 = x: int | 0 <= x < 0x1_0000_0000_0000_0000
  type i64 = x: int | -0x8000_0000_0000_0000 <= x < 0x8000_0000_0000_0000
  type u32 = x: int | 0 <= x < 0x1_0000_0000

  datatype Option<+T> = None | Some(value: T)

  /** The bytes of an ASCII literal. */
  function Ascii(s: string): (b: Bytes)
    ensures |b| == |s|
  {
    seq(|s|, i requires 0 <= i < |s| => s[i] as int % 256)
  }

  function Zeros(n: nat): (b: Bytes)
    ensures |b| == n
    ensures forall i :: 0 <= i < n ==> b[i] == 0
  {
    seq(n, _ => 0)
  }

  // ---- Go's copy into a window of a buffer ----

  /** As much of `src` as a window of `n` bytes takes. */
  function Fit(src: Bytes, n: nat): (b: Bytes)
    ensures |b| <= n && b <= src
  {
    if |src| <= n then src else src[..n]
  }

  /** `src` cut or zero-padded on the right to exactly `n` bytes. */
  function Pad(src: Bytes, n: nat): (b: Bytes)
    ensures |b| == n
    ensures |src| == n ==> b == src
  {
    Fit(src, n) + Zeros(n - |Fit(src, n)|)
  }

  function Overwrite(buf: Bytes, off: nat, b: Bytes): (r: Bytes)
    requires off + |b| <= |buf|
    ensures |r| == |buf|
  {
    buf[..off] + b + buf[off + |b|..]
  }

  /** Go's copy(dst[lo:hi], src). */
  method CopyWindow(dst: array<byte>, lo: nat, hi: nat, src: Bytes)
    requires lo <= hi <= dst.Length
    modifies dst
    ensures dst[..] == Overwrite(old(dst[..]), lo, Fit(src, hi - lo))
  {
    var b := Fit(src, hi - lo);
    forall i | 0 <= i < |b| {
      dst[lo + i] := b[i];
    }
  }

  /** Writing the next field behind a finished prefix of a zeroed buffer extends the prefix. */
  lemma OverwriteExtends(prefix: Bytes, n: nat, off: nat, b: Bytes)
    requires |prefix| <= off && off + |b| <= |prefix| + n
    ensures Overwrite(prefix + Zeros(n), off, b)
         == (prefix + Zeros(off - |prefix|) + b) + Zeros(n - (off - |prefix|) - |b|)
  {
  }

  // ---- little-endian integers ----

  function Pow256(n: nat): (p: nat)
    ensures p >= 1
  {
    if n == 0 then 1 else 256 * Pow256(n - 1)
  }

  /** The n low bytes of v, least significant first. */
  function LE(v: nat, n: nat): (b: Bytes)
    ensures |b| == n
  {
    seq(n, i requires 0 <= i < n => v / Pow256(i) % 256)
  }

  function FromLE(b: Bytes): (v: nat)
  {
    if b == [] then 0 else b[0] + 256 * FromLE(b[1..])
  }

  lemma Scaled(m: nat, k: int)
    requires m >= 1
    ensures k >= 1 ==> m * k >= m
    ensures k <= -1 ==> m * k <= 0 - m
  {
  }

  lemma QuotientUnique(v: nat, m: nat, q: nat, r: nat)
    requires m >= 1 && r < m && v == m * q + r
    ensures v / m == q
  {
    var k := q - v / m;
    assert v == m * (v / m) + v % m;
    assert m * k == m * q - m * (v / m);
    Scaled(m, k);
  }

  lemma DivideTwice(v: nat, p: nat)
    requires p >= 1
    ensures (v / 256) / p == v / (256 * p)
  {
    var w := v / 256;
    var q, r := w / p, w % p;
    assert w == p * q + r;
    assert (256 * p) * q == 256 * (p * q);
    QuotientUnique(v, 256 * p, q, 256 * r + v % 256);
  }

  lemma LESplit(v: nat, n: nat)
    requires n > 0
    ensures LE(v, n)[0] == v % 256 && LE(v, n)[1..] == LE(v / 256, n - 1)
  {
    assert v / 1 == v;
    forall i | 0 <= i < n - 1 ensures LE(v, n)[1..][i] == LE(v / 256, n - 1)[i] {
      DivideTwice(v, Pow256(i));
      assert Pow256(i + 1) == 256 * Pow256(i);
    }
  }

  lemma {:induction false} LERoundTrip(v: nat, n: nat)
    requires v < Pow256(n)
    ensures FromLE(LE(v, n)) == v
  {
    if n > 0 {
      LESplit(v, n);
      LERoundTrip(v / 256, n - 1);
    }
  }

  lemma Pow256Values()
    ensures Pow256(4) == 0x1_0000_0000
    ensures Pow256(8) == 0x1_0000_0000_0000_0000
  {
    assert Pow256(2) == 0x1_0000;
    assert Pow256(4) == 256 * (256 * Pow256(2));
    assert Pow256(6) == 256 * (256 * Pow256(4));
    assert Pow256(8) == 256 * (256 * Pow256(6));
  }

  lemma LEInjective8(v: u64, w: u64)
    ensures LE(v, 8) == LE(w, 8) <==> v == w
  {
    Pow256Values();
    LERoundTrip(v, 8);
    LERoundTrip(w, 8);
  }

  // ---- hexadecimal ----

  function HexDigit(v: byte): (c: byte)
    requires v < 16
    ensures HexValue(c) == v
  {
    if v < 10 then v + '0' as int else v - 10 + 'a' as int
  }

  /** The value of a hexadecimal digit of either case, or 255 when it is none. */
  function HexValue(c: byte): (v: byte)
    ensures v < 16 || v == 255
  {
    if '0' as int <= c <= '9' as int then c - '0' as int
    else if 'a' as int <= c <= 'f' as int then c - 'a' as int + 10
    else if 'A' as int <= c <= 'F' as int then c - 'A' as int + 10
    else 255
  }

  /** hex.EncodeToString: two lower-case digits a byte. */
  function HexEncode(b: Bytes): (s: Bytes)
    ensures |s| == 2 * |b|
  {
    if b == [] then [] else [HexDigit(b[0] / 16), HexDigit(b[0] % 16)] + HexEncode(b[1..])
  }

  /** The bytes hex.DecodeString returns even when it also returns an error:
      the longest run of digit pairs the input starts with. */
  function HexDecode(s: Bytes): (b: Bytes)
    ensures 2 * |b| <= |s|
  {
    if |s| < 2 || HexValue(s[0]) == 255 || HexValue(s[1]) == 255 then []
    else [HexValue(s[0]) * 16 + HexValue(s[1])] + HexDecode(s[2..])
  }

  /** hex.DecodeString returns no error. */
  predicate HexValid(s: Bytes)
  {
    |s| % 2 == 0 && forall i :: 0 <= i < |s| ==> HexValue(s[i]) != 255
  }

  lemma {:induction false} HexRoundTrip(b: Bytes)
    ensures HexDecode(HexEncode(b)) == b && HexValid(HexEncode(b))
  {
    if b != [] {
      HexRoundTrip(b[1..]);
      var s := HexEncode(b);
      assert s[2..] == HexEncode(b[1..]);
      forall i | 0 <= i < |s| ensures HexValue(s[i]) != 255 {
        if i >= 2 { assert s[i] == s[2..][i - 2]; }
      }
    }
  }

  /** Each byte is two digits, the high half first, out of 0123456789abcdef. */
  lemma {:induction false} HexText(b: Bytes, i: nat)
    requires i < |b|
    ensures HexEncode(b)[2 * i] == Ascii("0123456789abcdef")[b[i] / 16]
    ensures HexEncode(b)[2 * i + 1] == Ascii("0123456789abcdef")[b[i] % 16]
  {
    if i > 0 {
      HexText(b[1..], i - 1);
      assert HexEncode(b)[2..] == HexEncode(b[1..]);
    } else {
      DigitText(b[0] / 16);
      DigitText(b[0] % 16);
    }
  }

  lemma DigitText(v: byte)
    requires v < 16
    ensures HexDigit(v) == Ascii("0123456789abcdef")[v]
  {
    var s := "0123456789abcdef";
    if v < 10 {
      assert s[v] as int == v + 48;
    } else {
      assert s[v] as int == v - 10 + 97;
    }
  }

  lemma HexInjective(a: Bytes, b: Bytes)
    ensures HexEncode(a) == HexEncode(b) <==> a == b
  {
    HexRoundTrip(a);
    HexRoundTrip(b);
  }

  lemma {:induction false} HexDecodeLength(s: Bytes)
    requires HexValid(s)
    ensures 2 * |HexDecode(s)| == |s|
  {
    if |s| >= 2 {
      assert forall i :: 0 <= i < |s[2..]| ==> s[2..][i] == s[i + 2];
      HexDecodeLength(s[2..]);
    }
  }

  // ---- text ----

  function LowerByte(c: byte): (r: byte)
  {
    if 'A' as int <= c <= 'Z' as int then c + 32 else c
  }

  /** strings.ToLower on ASCII text. */
  function Lower(s: Bytes): (r: Bytes)
    ensures |r| == |s|
  {
    seq(|s|, i requires 0 <= i < |s| => LowerByte(s[i]))
  }

  /** strings.EqualFold on ASCII text. */
  predicate EqualFold(a: Bytes, b: Bytes)
  {
    Lower(a) == Lower(b)
  }

  predicate IsSpace(c: byte)
  {
    c == ' ' as int || 9 <= c <= 13
  }

  function TrimLeft(s: Bytes): (r: Bytes)
    ensures r != [] ==> !IsSpace(r[0])
    ensures |r| <= |s| && r == s[|s| - |r|..]
  {
    if s != [] && IsSpace(s[0]) then TrimLeft(s[1..]) else s
  }

  /** s without the longest suffix of bytes in `cut`. */
  function TrimRight(s: Bytes, cut: set<byte>): (r: Bytes)
    ensures r <= s
    ensures r != [] ==> r[|r| - 1] !in cut
  {
    if s != [] && s[|s| - 1] in cut then TrimRight(s[..|s| - 1], cut) else s
  }

  const SPACES: set<byte> := {9, 10, 11, 12, 13, 32}

  /** strings.TrimSpace on ASCII text. */
  function TrimSpace(s: Bytes): (r: Bytes)
    ensures |r| <= |s|
  {
    TrimRight(TrimLeft(s), SPACES)
  }

  lemma {:induction false} TrimLeftPad(pad: Bytes, s: Bytes)
    requires s == [] || !IsSpace(s[0])
    requires forall c :: c in pad ==> IsSpace(c)
    ensures TrimLeft(pad + s) == s
  {
    if pad == [] {
      assert pad + s == s;
    } else {
      assert (pad + s)[1..] == pad[1..] + s && pad[0] in pad;
      TrimLeftPad(pad[1..], s);
    }
  }

  lemma {:induction false} TrimRightPad(s: Bytes, pad: Bytes, cut: set<byte>)
    requires s == [] || s[|s| - 1] !in cut
    requires forall c :: c in pad ==> c in cut
    ensures TrimRight(s + pad, cut) == s
  {
    if pad == [] {
      assert s + pad == s;
    } else {
      assert (s + pad)[..|s + pad| - 1] == s + pad[..|pad| - 1];
      assert pad[|pad| - 1] in pad;
      TrimRightPad(s, pad[..|pad| - 1], cut);
    }
  }

  /** White space around a text is dropped, and nothing else. */
  lemma TrimSpacePad(before: Bytes, s: Bytes, after: Bytes)
    requires s != [] ==> !IsSpace(s[0]) && !IsSpace(s[|s| - 1])
    requires forall c :: c in before || c in after ==> c == 32 || 9 <= c <= 13
    ensures TrimSpace(before + s + after) == s
  {
    if s == [] {
      assert before + s + after == (before + after) + [];
      TrimLeftPad(before + after, []);
    } else {
      assert before + s + after == before + (s + after);
      TrimLeftPad(before, s + after);
      TrimRightPad(s, after, SPACES);
    }
  }

  function DropSpaces(s: Bytes): (r: Bytes)
    ensures |r| <= |s|
    ensures ' ' as int !in r
  {
    if s == [] then []
    else if s[0] == ' ' as int then DropSpaces(s[1..])
    else [s[0]] + DropSpaces(s[1..])
  }

  function TrimPrefix(s: Bytes, p: Bytes): (r: Bytes)
    ensures |r| <= |s|
  {
    if p <= s then s[|p|..] else s
  }

  function IndexByte(s: Bytes, c: byte): (i: int)
    ensures -1 <= i < |s|
    ensures i >= 0 ==> s[i] == c && c !in s[..i]
    ensures i == -1 ==> c !in s
  {
    if s == [] then -1
    else if s[0] == c then 0
    else
      var i := IndexByte(s[1..], c);
      assert i >= 0 ==> s[..i + 1] == [s[0]] + s[1..][..i];
      if i < 0 then -1 else i + 1
  }

  // ---- Python's bytes.fromhex ----

  /** White space between the pairs is skipped, anything else raises (None). */
  function PyFromHex(s: Bytes): Option<Bytes>
  {
    if s == [] then Some([])
    else if IsSpace(s[0]) then PyFromHex(s[1..])
    else if |s| < 2 || HexValue(s[0]) == 255 || HexValue(s[1]) == 255 then None
    else match PyFromHex(s[2..])
         case None => None
         case Some(rest) => Some([HexValue(s[0]) * 16 + HexValue(s[1])] + rest)
  }

  /** On text that Go decodes without an error both decoders agree. */
  lemma {:induction false} PyFromHexAgrees(s: Bytes)
    requires HexValid(s)
    ensures PyFromHex(s) == Some(HexDecode(s))
  {
    if s != [] {
      assert forall i :: 0 <= i < |s[2..]| ==> s[2..][i] == s[i + 2];
      PyFromHexAgrees(s[2..]);
    }
  }

  // ---- filtering ----

  /** The elements that satisfy p, in order. */
  function Select<T>(s: seq<T>, p: T -> bool): seq<T>
  {
    if s == [] then []
    else
      var before := Select(s[..|s| - 1], p);
      if p(s[|s| - 1]) then before + [s[|s| - 1]] else before
  }

  lemma SelectSnoc<T>(s: seq<T>, k: nat, p: T -> bool)
    requires k < |s|
    ensures Select(s[..k + 1], p) == if p(s[k]) then Select(s[..k], p) + [s[k]] else Select(s[..k], p)
  {
    assert s[..k + 1][..k] == s[..k];
  }

  lemma {:induction false} SelectMembers<T(!new)>(s: seq<T>, p: T -> bool)
    ensures forall x :: x in Select(s, p) <==> x in s && p(x)
  {
    if s != [] {
      var before, last := s[..|s| - 1], s[|s| - 1];
      SelectMembers(before, p);
      assert s == before + [last];
    }
  }
}
