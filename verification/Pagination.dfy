/** Paging of the on-chain lists: the registry adjusts offset and limit, reads a slice in chain
    order and reverses it for the descending order. */
module Pagination {
  import opened ByteStrings

  function Reverse<T>(s: seq<T>): (r: seq<T>)
    ensures |r| == |s|
    ensures forall i :: 0 <= i < |s| ==> r[i] == s[|s| - 1 - i]
  {
    seq(|s|, i requires 0 <= i < |s| => s[|s| - 1 - i])
  }

  /** The list as the caller sees it: oldest first, or newest first. */
  function Ordered<T>(chain: seq<T>, desc: bool): (r: seq<T>)
    ensures |r| == |chain|
  {
    if desc then Reverse(chain) else chain
  }

  function AdjustPagination(desc: bool, length: nat, offset: nat, limit: nat): (p: (nat, nat))
    ensures p.0 + p.1 <= length
  {
    if offset >= length then (0, 0)
    else
      var remaining := length - (offset + limit);
      var newLimit := if remaining < 0 then limit + remaining else limit;
      var newOffset := if desc then (if remaining > 0 then remaining else 0) else offset;
      (newOffset, newLimit)
  }

  /** One page: the adjusted slice of the chain list, reversed in the descending order. */
  function Page<T>(chain: seq<T>, desc: bool, offset: nat, limit: nat): seq<T>
  {
    var (o, l) := AdjustPagination(desc, |chain|, offset, limit);
    Ordered(chain[o..o + l], desc)
  }

  /** Whatever the order, a page is the requested window of the list as the caller sees it. */
  lemma PageIsWindow<T>(chain: seq<T>, desc: bool, offset: nat, limit: nat)
    ensures Page(chain, desc, offset, limit)
         == if offset >= |chain| then []
            else Ordered(chain, desc)[offset..if offset + limit < |chain| then offset + limit else |chain|]
  {
    var n := |chain|;
    var (o, l) := AdjustPagination(desc, n, offset, limit);
    if offset >= n {
      assert Page(chain, desc, offset, limit) == [];
    } else if desc {
      var end := if offset + limit < n then offset + limit else n;
      assert o + l == n - offset && o == n - end;
      ReverseWindow(chain, o, l);
    }
  }

  lemma ReverseWindow<T>(s: seq<T>, o: nat, l: nat)
    requires o + l <= |s|
    ensures Reverse(s[o..o + l]) == Reverse(s)[|s| - (o + l)..|s| - o]
  {
    var a, b := Reverse(s[o..o + l]), Reverse(s)[|s| - (o + l)..|s| - o];
    forall i | 0 <= i < l ensures a[i] == b[i] {
      assert a[i] == s[o..o + l][l - 1 - i] == s[o + l - 1 - i];
    }
  }
}
