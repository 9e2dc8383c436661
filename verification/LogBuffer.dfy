/** The bounded in-memory log: a list of whole writes with a byte budget, and its reader. */
module LogBuffer {
  import opened ByteStrings

  function Total(data: seq<Bytes>): nat
  {
    if data == [] then 0 else |data[0]| + Total(data[1..])
  }

  function Concat(data: seq<Bytes>): Bytes
  {
    if data == [] then [] else data[0] + Concat(data[1..])
  }

  lemma {:induction false} TotalSnoc(data: seq<Bytes>, p: Bytes)
    ensures Total(data + [p]) == Total(data) + |p|
  {
    if data == [] {
      assert data + [p] == [p];
    } else {
      assert (data + [p])[1..] == data[1..] + [p];
      TotalSnoc(data[1..], p);
    }
  }

  /** The longest suffix of whole writes whose bytes stay below the capacity. */
  function FitSuffix(writes: seq<Bytes>, cap: nat): seq<Bytes>
  {
    if writes == [] || Total(writes) < cap then writes else FitSuffix(writes[1..], cap)
  }

  /** It is a suffix of whole writes, and one that fits. */
  lemma {:induction false} FitSuffixFits(writes: seq<Bytes>, cap: nat) returns (k: nat)
    ensures k <= |writes| && FitSuffix(writes, cap) == writes[k..]
    ensures FitSuffix(writes, cap) == [] || Total(FitSuffix(writes, cap)) < cap
  {
    if writes == [] || Total(writes) < cap {
      k := 0;
    } else {
      var j := FitSuffixFits(writes[1..], cap);
      k := j + 1;
      assert writes[1..][j..] == writes[k..];
    }
  }

  /** No longer suffix fits. */
  lemma {:induction false} FitSuffixLongest(writes: seq<Bytes>, cap: nat, k: nat)
    requires k <= |writes| && Total(writes[k..]) < cap
    ensures |writes| - k <= |FitSuffix(writes, cap)|
  {
    if Total(writes) >= cap && writes != [] {
      assert k > 0 by { assert writes[0..] == writes; }
      assert writes[k..] == writes[1..][k - 1..];
      FitSuffixLongest(writes[1..], cap, k - 1);
    }
  }

  lemma FitSuffixDrop(writes: seq<Bytes>, p: Bytes, cap: nat)
    requires writes != [] && Total(writes) + |p| >= cap
    ensures FitSuffix(writes + [p], cap) == FitSuffix(writes[1..] + [p], cap)
  {
    TotalSnoc(writes, p);
    assert (writes + [p])[1..] == writes[1..] + [p];
  }

  /** Trimming early or late makes no difference. */
  lemma {:induction false} FitSuffixAgain(writes: seq<Bytes>, p: Bytes, cap: nat)
    ensures FitSuffix(FitSuffix(writes, cap) + [p], cap) == FitSuffix(writes + [p], cap)
  {
    if writes != [] && Total(writes) >= cap {
      FitSuffixAgain(writes[1..], p, cap);
      FitSuffixDrop(writes, p, cap);
    }
  }

  // ---- the write ----

  const TWO64: nat := 0x1_0000_0000_0000_0000
  const MAX_INT: nat := 0x7fff_ffff_ffff_ffff

  /** uint64 arithmetic on a sum or difference of two uint64 values. */
  function Wrap(x: int): int
  {
    if x < 0 then x + TWO64 else if x >= TWO64 then x - TWO64 else x
  }

  /** The eviction loop: oldest writes go until the counted bytes and n more stay below the capacity. */
  function Evict(data: seq<Bytes>, len: int, n: nat, cap: nat): (seq<Bytes>, int)
  {
    if Wrap(len + n) < cap then (data, Wrap(len + n))
    else if data == [] then (data, len)
    else Evict(data[1..], Wrap(len - |data[0]|), n, cap)
  }

  /** A write longer than the capacity is cut to its last bytes. */
  function Stored(p: Bytes, cap: nat): Bytes
  {
    if |p| > cap then p[|p| - cap..] else p
  }

  function Written(data: seq<Bytes>, len: int, p: Bytes, cap: nat): (seq<Bytes>, int)
  {
    if p == [] then (data, len)
    else
      var kept := Evict(data, len, |p|, cap);
      (kept.0 + [Stored(p, cap)], kept.1)
  }

  lemma {:induction false} EvictFits(data: seq<Bytes>, p: Bytes, cap: nat)
    requires |p| < cap && Total(data) + |p| < TWO64
    ensures Evict(data, Total(data), |p|, cap).0 + [p] == FitSuffix(data + [p], cap)
    ensures Evict(data, Total(data), |p|, cap).1 == Total(FitSuffix(data + [p], cap)) < cap
  {
    TotalSnoc(data, p);
    if Total(data) + |p| >= cap && data != [] {
      FitSuffixDrop(data, p, cap);
      EvictFits(data[1..], p, cap);
    }
  }

  /** A write shorter than the capacity leaves the longest suffix that fits, and the exact byte count. */
  lemma ShortWrite(data: seq<Bytes>, p: Bytes, cap: nat)
    requires 0 < |p| < cap <= MAX_INT && Total(data) <= MAX_INT
    ensures Written(data, Total(data), p, cap) == (FitSuffix(data + [p], cap), Total(FitSuffix(data + [p], cap)))
    ensures Written(data, Total(data), p, cap).1 < cap
  {
    EvictFits(data, p, cap);
  }

  lemma {:induction false} EvictDrains(data: seq<Bytes>, n: nat, cap: nat)
    requires cap <= n <= MAX_INT && Total(data) <= MAX_INT
    ensures Evict(data, Total(data), n, cap) == ([], 0)
  {
    if data != [] {
      EvictDrains(data[1..], n, cap);
    }
  }

  /** The byte count stays exact for empty writes, writes shorter than the capacity and a buffer without
      capacity, and for no others. */
  lemma CountExactIff(data: seq<Bytes>, p: Bytes, cap: nat)
    requires cap <= MAX_INT && |p| <= MAX_INT && Total(data) <= MAX_INT
    ensures var after := Written(data, Total(data), p, cap);
            after.1 == Total(after.0) <==> p == [] || |p| < cap || cap == 0
  {
    if p != [] {
      if |p| < cap {
        ShortWrite(data, p, cap);
      } else {
        EvictDrains(data, |p|, cap);
        assert Total([Stored(p, cap)]) == |Stored(p, cap)| + Total([]);
      }
    }
  }

  /** A write of the capacity or more drives everything out, and of it the last bytes stay, as many as the capacity. */
  lemma LongWriteKeeps(data: seq<Bytes>, p: Bytes, cap: nat)
    requires 0 < cap <= |p| <= MAX_INT && Total(data) <= MAX_INT
    ensures Written(data, Total(data), p, cap).0 == [p[|p| - cap..]]
  {
    EvictDrains(data, |p|, cap);
    if |p| == cap { assert p[0..] == p; }
  }

  /** After a write of the capacity or more, the next short one leaves the buffer above its capacity. */
  lemma LongWriteOverfills(data: seq<Bytes>, p: Bytes, q: Bytes, cap: nat)
    requires 0 < cap <= |p| <= MAX_INT && 0 < |q| < cap && Total(data) <= MAX_INT
    ensures var long := Written(data, Total(data), p, cap);
            var after := Written(long.0, long.1, q, cap);
            after.0 == [Stored(p, cap), q] && Total(after.0) == cap + |q| && after.1 == |q|
  {
    EvictDrains(data, |p|, cap);
    TotalSnoc([Stored(p, cap)], q);
    TotalSnoc([], Stored(p, cap));
    assert [] + [Stored(p, cap)] == [Stored(p, cap)];
  }

  // ---- whole runs ----

  /** The state after a run of writes to a new buffer. */
  function Run(writes: seq<Bytes>, cap: nat): (seq<Bytes>, int)
  {
    if writes == [] then ([], 0)
    else
      var s := Run(writes[..|writes| - 1], cap);
      Written(s.0, s.1, writes[|writes| - 1], cap)
  }

  predicate Short(writes: seq<Bytes>, cap: nat)
  {
    forall i :: 0 <= i < |writes| ==> 0 < |writes[i]| < cap
  }

  /** Over any run of short writes the buffer holds the longest suffix of the whole run that fits. */
  lemma {:induction false} RunKeepsSuffix(writes: seq<Bytes>, cap: nat)
    requires 0 < cap <= MAX_INT && Short(writes, cap)
    ensures Run(writes, cap) == (FitSuffix(writes, cap), Total(FitSuffix(writes, cap)))
    ensures Run(writes, cap).1 < cap
  {
    if writes != [] {
      var before, p := writes[..|writes| - 1], writes[|writes| - 1];
      RunKeepsSuffix(before, cap);
      ShortWrite(FitSuffix(before, cap), p, cap);
      FitSuffixAgain(before, p, cap);
      assert before + [p] == writes;
    }
  }

  // ---- the buffer ----

  class Buffer {
    const cap: nat
    var data: seq<Bytes>
    var len: int

    constructor (cap: nat)
      ensures this.cap == cap && data == [] && len == 0
    {
      this.cap := cap;
      data := [];
      len := 0;
    }

    method Write(p: Bytes) returns (n: nat)
      modifies this
      ensures n == |p|
      ensures (data, len) == Written(old(data), old(len), p, cap)
    {
      if |p| == 0 {
        return 0;
      }
      var p2 := p;
      while true
        invariant Evict(data, len, |p|, cap) == Evict(old(data), old(len), |p|, cap)
        decreases |data|
      {
        var newLen := Wrap(len + |p2|);
        if newLen >= cap {
          if |data| == 0 {
            break;
          }
          len := Wrap(len - |data[0]|);
          data := data[1..];
        } else {
          len := newLen;
          break;
        }
      }
      if |p2| > cap {
        p2 := p2[|p2| - cap..];
      }
      data := data + [p2];
      n := |p|;
    }
  }

  // ---- the reader ----

  predicate NoEmpty(data: seq<Bytes>)
  {
    forall i :: 0 <= i < |data| ==> data[i] != []
  }

  lemma {:induction false} EvictNoEmpty(data: seq<Bytes>, len: int, n: nat, cap: nat)
    requires NoEmpty(data)
    ensures NoEmpty(Evict(data, len, n, cap).0)
  {
    if data != [] {
      EvictNoEmpty(data[1..], Wrap(len - |data[0]|), n, cap);
    }
  }

  /** A buffer with a capacity never holds an empty slice, whatever was written to it. */
  lemma {:induction false} RunNoEmpty(writes: seq<Bytes>, cap: nat)
    requires cap > 0
    ensures NoEmpty(Run(writes, cap).0)
  {
    if writes != [] {
      var s, p := Run(writes[..|writes| - 1], cap), writes[|writes| - 1];
      RunNoEmpty(writes[..|writes| - 1], cap);
      EvictNoEmpty(s.0, s.1, |p|, cap);
    }
  }

  /** What a reader at slice i with `current` in hand still has to deliver. */
  function Rest(current: Bytes, data: seq<Bytes>, i: nat): Bytes
  {
    current + if i <= |data| then Concat(data[i..]) else []
  }

  lemma RestNext(data: seq<Bytes>, i: nat)
    requires i < |data|
    ensures Rest([], data, i) == Rest(data[i], data, i + 1)
  {
    assert data[i..][0] == data[i] && data[i..][1..] == data[i + 1..];
  }

  lemma RestAdvance(current: Bytes, data: seq<Bytes>, i: nat, n: nat)
    requires n <= |current|
    ensures |Rest(current, data, i)| >= |current|
    ensures Rest(current, data, i)[..n] == current[..n]
    ensures Rest(current, data, i)[n..] == Rest(current[n..], data, i)
  {
  }

  // ---- a reader that is overtaken ----

  /** The state after more writes. */
  function After(data: seq<Bytes>, len: int, writes: seq<Bytes>, cap: nat): (seq<Bytes>, int)
  {
    if writes == [] then (data, len)
    else
      var s := After(data, len, writes[..|writes| - 1], cap);
      Written(s.0, s.1, writes[|writes| - 1], cap)
  }

  /** All slices those writes add. */
  function Added(writes: seq<Bytes>, cap: nat): seq<Bytes>
  {
    if writes == [] then []
    else
      var before := Added(writes[..|writes| - 1], cap);
      if writes[|writes| - 1] == [] then before else before + [Stored(writes[|writes| - 1], cap)]
  }

  lemma {:induction false} EvictDrops(data: seq<Bytes>, len: int, n: nat, cap: nat) returns (k: nat)
    ensures k <= |data| && Evict(data, len, n, cap).0 == data[k..]
  {
    k := 0;
    if Wrap(len + n) >= cap && data != [] {
      var j := EvictDrops(data[1..], Wrap(len - |data[0]|), n, cap);
      k := j + 1;
      assert data[1..][j..] == data[k..];
    }
  }

  lemma DropThenAdd(all: seq<Bytes>, j: nat, k: nat, x: Bytes)
    requires j <= |all| && k <= |all[j..]|
    ensures all[j..][k..] + [x] == (all + [x])[j + k..]
  {
  }

  lemma WriteDrops(all: seq<Bytes>, j: nat, data: seq<Bytes>, len: int, p: Bytes, cap: nat) returns (evicted: nat)
    requires j <= |all| && data == all[j..] && p != []
    ensures evicted <= |all| && Written(data, len, p, cap).0 == (all + [Stored(p, cap)])[evicted..]
  {
    var k := EvictDrops(data, len, |p|, cap);
    DropThenAdd(all, j, k, Stored(p, cap));
    evicted := j + k;
  }

  /** Writes evict from the front only: what is left is all but the first `evicted` of the old and added slices. */
  lemma {:induction false} AfterDrops(data: seq<Bytes>, len: int, writes: seq<Bytes>, cap: nat) returns (evicted: nat)
    ensures var all := data + Added(writes, cap);
            evicted <= |all| && After(data, len, writes, cap).0 == all[evicted..]
  {
    evicted := 0;
    if writes == [] {
      assert data + [] == data;
    } else {
      var before, p := writes[..|writes| - 1], writes[|writes| - 1];
      evicted := AfterDrops(data, len, before, cap);
      if p != [] {
        var s, all := After(data, len, before, cap), data + Added(before, cap);
        evicted := WriteDrops(all, evicted, s.0, s.1, p, cap);
        assert data + Added(writes, cap) == all + [Stored(p, cap)];
      }
    }
  }

  function Min(a: nat, b: nat): nat { if a < b then a else b }

  function Max(a: nat, b: nat): nat { if a < b then b else a }

  lemma Regroup(x: Bytes, y: Bytes, z: Bytes)
    ensures x + (y + z) == (x + y) + z
  {
  }

  lemma {:induction false} ConcatJoin(a: seq<Bytes>, b: seq<Bytes>)
    ensures Concat(a + b) == Concat(a) + Concat(b)
    decreases |a|
  {
    if a == [] {
      assert a + b == b;
    } else {
      ConcatJoin(a[1..], b);
      assert (a + b)[0] == a[0] && (a + b)[1..] == a[1..] + b;
      Regroup(a[0], Concat(a[1..]), Concat(b));
    }
  }

  /** The slices a reader at slice i never sees although they are retained, when k slices were evicted meanwhile. */
  function Missed(all: seq<Bytes>, i: nat, k: nat): (m: seq<Bytes>)
    requires i <= |all| && k <= |all|
    ensures |m| == Min(i + k, |all|) - Max(i, k)
  {
    all[Max(i, k)..Min(i + k, |all|)]
  }

  lemma MissedThenRest(all: seq<Bytes>, i: nat, k: nat)
    requires i <= |all| && k <= |all|
    ensures Concat(all[Max(i, k)..]) == Concat(Missed(all, i, k)) + Rest([], all[k..], i)
  {
    var lo, hi, now := Max(i, k), Min(i + k, |all|), all[k..];
    assert all[lo..] == all[lo..hi] + all[hi..];
    ConcatJoin(all[lo..hi], all[hi..]);
    if i <= |now| {
      assert now[i..] == all[hi..];
    } else {
      assert all[hi..] == [];
    }
  }

  lemma MissedNone(all: seq<Bytes>, i: nat, k: nat)
    requires i <= |all| && k <= |all|
    ensures Missed(all, i, k) == [] <==> k == 0 || i == 0 || Max(i, k) == |all|
  {
    assert |Missed(all, i, k)| == Min(i + k, |all|) - Max(i, k);
  }

  lemma Skips(all: seq<Bytes>, current: Bytes, i: nat, k: nat)
    requires i <= |all| && k <= |all|
    ensures Concat(all[Max(i, k)..]) == Concat(Missed(all, i, k)) + Rest([], all[k..], i)
    ensures Rest(current, all[k..], i) == current + Rest([], all[k..], i)
    ensures Missed(all, i, k) == [] <==> k == 0 || i == 0 || Max(i, k) == |all|
  {
    MissedThenRest(all, i, k);
    MissedNone(all, i, k);
  }

  /** A reader keeps its index while the buffer shifts. After any writes, of the retained slices it has not taken yet it
      passes over exactly the first `evicted`, or as many as there are; nothing is missed exactly when nothing was
      evicted, when the reader had taken nothing, or when it has taken all that is retained. */
  lemma ReaderSkips(data: seq<Bytes>, len: int, writes: seq<Bytes>, cap: nat, current: Bytes, i: nat)
    returns (evicted: nat)
    requires i <= |data|
    ensures var all := data + Added(writes, cap);
            var now := After(data, len, writes, cap).0;
            && evicted <= |all| && now == all[evicted..]
            && Concat(all[Max(i, evicted)..]) == Concat(Missed(all, i, evicted)) + Rest([], now, i)
            && Rest(current, now, i) == current + Rest([], now, i)
            && (Missed(all, i, evicted) == [] <==> evicted == 0 || i == 0 || Max(i, evicted) == |all|)
  {
    evicted := AfterDrops(data, len, writes, cap);
    Skips(data + Added(writes, cap), current, i, evicted);
  }

  class Reader {
    const mb: Buffer
    var i: nat
    var data: Bytes

    constructor (mb: Buffer)
      ensures this.mb == mb && i == 0 && data == []
    {
      this.mb := mb;
      i := 0;
      data := [];
    }

    /** Takes the next slice when none is in hand. */
    method Refill()
      requires NoEmpty(mb.data)
      modifies this
      ensures Rest(data, mb.data, i) == old(Rest(data, mb.data, i))
      ensures data == [] <==> old(Rest(data, mb.data, i)) == []
    {
      if |data| == 0 {
        if i < |mb.data| {
          RestNext(mb.data, i);
          data := mb.data[i];
          i := i + 1;
        }
      }
    }

    /** On a quiet buffer a read delivers the next bytes, and EOF exactly when none are left. */
    method Read(p: array<byte>) returns (n: nat, eof: bool)
      requires NoEmpty(mb.data)
      modifies this, p
      ensures n <= p.Length && p[n..] == old(p[n..])
      ensures eof <==> p.Length > 0 && old(Rest(data, mb.data, i)) == []
      ensures n == 0 <==> p.Length == 0 || old(Rest(data, mb.data, i)) == []
      ensures p[..n] + Rest(data, mb.data, i) == old(Rest(data, mb.data, i))
    {
      eof := false;
      if p.Length == 0 {
        return 0, false;
      }
      Refill();
      if |data| == 0 {
        return 0, true;
      }
      n := if |data| <= p.Length then |data| else p.Length;
      CopyWindow(p, 0, p.Length, data);
      RestAdvance(data, mb.data, i, n);
      data := data[n..];
    }
  }

  /** Draining a quiet buffer with reads of any positive sizes delivers exactly the retained bytes, then EOF. */
  method ReadAll(mb: Buffer, sizes: nat -> nat) returns (out: Bytes)
    requires NoEmpty(mb.data)
    requires forall k :: sizes(k) > 0
    ensures mb.data == old(mb.data) && out == Concat(mb.data)
  {
    var r := new Reader(mb);
    ghost var all := Concat(mb.data);
    out := [];
    assert mb.data[0..] == mb.data;
    var k := 0;
    var eof := false;
    while !eof
      invariant fresh(r) && r.mb == mb && mb.data == old(mb.data)
      invariant out + Rest(r.data, mb.data, r.i) == all
      invariant eof ==> Rest(r.data, mb.data, r.i) == []
      decreases |all| - |out|, !eof
    {
      var p := new byte[sizes(k)](_ => 0);
      var n;
      n, eof := r.Read(p);
      out := out + p[..n];
      k := k + 1;
    }
  }
}
