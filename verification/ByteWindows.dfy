/** How the layouts of reports and pages are described: by what stands in which window. */
module ByteWindows {
  import opened ByteStrings

  /** The n bytes at off are the little-endian number v. */
  predicate Holds(b: Bytes, off: nat, n: nat, v: nat)
  {
    off + n <= |b| && FromLE(b[off..off + n]) == v
  }

  predicate Blank(b: Bytes, lo: nat, hi: nat)
  {
    lo <= hi <= |b| && forall i :: lo <= i < hi ==> b[i] == 0
  }

  /** b is src, cut or filled up with zeros. */
  predicate Padded(b: Bytes, src: Bytes)
  {
    if |src| >= |b| then b == src[..|b|] else b[..|src|] == src && Blank(b, |src|, |b|)
  }
}
