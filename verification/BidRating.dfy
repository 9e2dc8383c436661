/** Collecting every active bid of a model page by page, and ranking them by score. */
module BidRating {
  import opened Bids
  import opened ByteStrings
  import opened Pagination

  const BATCH: nat := 255

  /** A bid as the contract stores it, under its id. */
  datatype ChainBid = ChainBid(provider: Address, modelId: Bytes, price: int)
  datatype Listed = Listed(id: Bytes, bid: ChainBid)

  // ---- collection ----

  /** All bids of the chain list with the lookups of their providers, aligned by index. */
  datatype Collected<S, P> = Collected(ids: seq<Bytes>, bids: seq<ChainBid>, stats: seq<S>, providers: seq<P>)

  function AllOf<S, P>(list: seq<Listed>, statOf: Bytes -> Option<S>,
                       providerOf: Bytes -> Option<P>): Option<Collected<S, P>>
  {
    if list == [] then Some(Collected([], [], [], []))
    else
      var last := list[|list| - 1];
      match AllOf(list[..|list| - 1], statOf, providerOf)
      case None => None
      case Some(c) =>
        if statOf(last.bid.provider).None? || providerOf(last.bid.provider).None? then None
        else Some(Collected(c.ids + [last.id], c.bids + [last.bid], c.stats + [statOf(last.bid.provider).value],
                            c.providers + [providerOf(last.bid.provider).value]))
  }

  predicate Resolvable<S, P>(l: Listed, statOf: Bytes -> Option<S>, providerOf: Bytes -> Option<P>)
  {
    statOf(l.bid.provider).Some? && providerOf(l.bid.provider).Some?
  }

  /** The collection fails exactly when a provider lookup does; otherwise entry i of all four lists
      belongs to the i-th active bid. */
  lemma {:induction false} AllOfAligned<S, P>(list: seq<Listed>, statOf: Bytes -> Option<S>,
                                              providerOf: Bytes -> Option<P>)
    ensures AllOf(list, statOf, providerOf).Some? <==>
              forall i :: 0 <= i < |list| ==> Resolvable(list[i], statOf, providerOf)
    ensures AllOf(list, statOf, providerOf).Some? ==>
              var c := AllOf(list, statOf, providerOf).value;
              && |c.ids| == |c.bids| == |c.stats| == |c.providers| == |list|
              && forall i :: 0 <= i < |list| ==>
                   && c.ids[i] == list[i].id && c.bids[i] == list[i].bid
                   && Some(c.stats[i]) == statOf(list[i].bid.provider)
                   && Some(c.providers[i]) == providerOf(list[i].bid.provider)
  {
    if list != [] {
      var before := list[..|list| - 1];
      AllOfAligned(before, statOf, providerOf);
      assert forall i :: 0 <= i < |before| ==> list[i] == before[i];
    }
  }

  lemma AllOfSnoc<S, P>(list: seq<Listed>, k: nat, statOf: Bytes -> Option<S>, providerOf: Bytes -> Option<P>)
    requires k < |list|
    ensures AllOf(list[..k + 1], statOf, providerOf) ==
            match AllOf(list[..k], statOf, providerOf)
            case None => None
            case Some(c) =>
              if !Resolvable(list[k], statOf, providerOf) then None
              else Some(Collected(c.ids + [list[k].id], c.bids + [list[k].bid],
                                  c.stats + [statOf(list[k].bid.provider).value],
                                  c.providers + [providerOf(list[k].bid.provider).value]))
  {
    assert list[..k + 1][..k] == list[..k];
  }

  lemma {:induction false} AllOfFails<S, P>(list: seq<Listed>, k: nat, statOf: Bytes -> Option<S>,
                                            providerOf: Bytes -> Option<P>)
    requires k <= |list| && AllOf(list[..k], statOf, providerOf).None?
    ensures AllOf(list, statOf, providerOf).None?
    decreases |list|
  {
    if k == |list| {
      assert list[..k] == list;
    } else {
      assert list[..|list| - 1][..k] == list[..k];
      AllOfFails(list[..|list| - 1], k, statOf, providerOf);
    }
  }

  function AddAll<S, P>(c: Collected<S, P>, ids: seq<Bytes>, bids: seq<ChainBid>, stats: seq<S>,
                        providers: seq<P>): Collected<S, P>
  {
    Collected(c.ids + ids, c.bids + bids, c.stats + stats, c.providers + providers)
  }

  /** The lookups of one listed bid, appended to what was collected before. */
  method CollectOne<S, P>(ghost before: seq<Listed>, c: Collected<S, P>, l: Listed,
                          statOf: Bytes -> Option<S>, providerOf: Bytes -> Option<P>)
    returns (r: Option<Collected<S, P>>)
    requires AllOf(before, statOf, providerOf) == Some(c)
    ensures r == AllOf(before + [l], statOf, providerOf)
  {
    assert (before + [l])[..|before|] == before;
    AllOfSnoc(before + [l], |before|, statOf, providerOf);
    assert (before + [l])[..|before| + 1] == before + [l];
    var stat := statOf(l.bid.provider);
    var provider := providerOf(l.bid.provider);
    if stat.None? || provider.None? {
      return None;
    }
    r := Some(AddAll(c, [l.id], [l.bid], [stat.value], [provider.value]));
  }

  lemma BatchNext(before: seq<Listed>, batch: seq<Listed>, i: nat)
    requires i < |batch|
    ensures (before + batch[..i]) + [batch[i]] == before + batch[..i + 1]
  {
  }

  lemma BatchFails<S, P>(before: seq<Listed>, batch: seq<Listed>, i: nat, statOf: Bytes -> Option<S>,
                         providerOf: Bytes -> Option<P>)
    requires i <= |batch| && AllOf(before + batch[..i], statOf, providerOf).None?
    ensures AllOf(before + batch, statOf, providerOf).None?
  {
    assert (before + batch)[..|before| + i] == before + batch[..i];
    AllOfFails(before + batch, |before| + i, statOf, providerOf);
  }

  /** The lookups of one batch; `before` are the bids of the earlier batches. */
  method CollectBatch<S, P>(ghost before: seq<Listed>, c0: Collected<S, P>, batch: seq<Listed>,
                            statOf: Bytes -> Option<S>, providerOf: Bytes -> Option<P>)
    returns (r: Option<Collected<S, P>>)
    requires AllOf(before, statOf, providerOf) == Some(c0)
    ensures r == AllOf(before + batch, statOf, providerOf)
  {
    var c := c0;
    var i := 0;
    ghost var seen := before;
    assert before + batch[..0] == before;
    while i < |batch|
      invariant 0 <= i <= |batch| && seen == before + batch[..i]
      invariant AllOf(seen, statOf, providerOf) == Some(c)
    {
      BatchNext(before, batch, i);
      r := CollectOne(seen, c, batch[i], statOf, providerOf);
      seen := seen + [batch[i]];
      i := i + 1;
      if r.None? {
        BatchFails(before, batch, i, statOf, providerOf);
        return;
      }
      c := r.value;
    }
    assert batch[..i] == batch;
    r := Some(c);
  }

  /** One registry read: a full page continues the list and a short one ends it. */
  method GetActiveBids(chain: seq<Listed>, offset: nat) returns (batch: seq<Listed>)
    requires offset <= |chain|
    ensures offset + |batch| <= |chain| && chain[..offset] + batch == chain[..offset + |batch|]
    ensures |batch| <= BATCH && (|batch| < BATCH ==> offset + |batch| == |chain|)
  {
    PageIsWindow(chain, false, offset, BATCH);
    batch := Page(chain, false, offset, BATCH);
  }

  /** Against a fixed chain list and successful list reads the loop terminates with every active bid once, in order. */
  method GetAllBidsWithRating<S, P>(chain: seq<Listed>, statOf: Bytes -> Option<S>, providerOf: Bytes -> Option<P>)
    returns (r: Option<Collected<S, P>>)
    ensures r == AllOf(chain, statOf, providerOf)
  {
    var c: Collected<S, P> := Collected([], [], [], []);
    var offset := 0;
    ghost var seen: seq<Listed> := [];
    while true
      invariant offset <= |chain| && seen == chain[..offset]
      invariant AllOf(seen, statOf, providerOf) == Some(c)
      decreases |chain| - offset
    {
      var batch := GetActiveBids(chain, offset);
      r := CollectBatch(seen, c, batch, statOf, providerOf);
      seen := seen + batch;
      if r.None? {
        AllOfFails(chain, offset + |batch|, statOf, providerOf);
        return;
      }
      c := r.value;
      if |batch| < BATCH {
        assert seen == chain;
        return;
      }
      offset := offset + BATCH;
    }
  }

  // ---- ranking ----

  predicate Descending(rows: seq<Scored>)
  {
    forall i, j :: 0 <= i < j < |rows| ==> rows[i].score >= rows[j].score
  }

  predicate DistinctRows(rows: seq<Scored>)
  {
    forall i, j :: 0 <= i < j < |rows| ==> rows[i].bid.id != rows[j].bid.id
  }

  predicate DistinctIds(ids: seq<Bytes>)
  {
    forall i, j :: 0 <= i < j < |ids| ==> ids[i] != ids[j]
  }

  /** Some order of the same rows with falling scores; which of several equal scores comes first is open. */
  ghost predicate SortedCopy(rows: seq<Scored>, r: seq<Scored>)
  {
    && Descending(r) && |r| == |rows|
    && (forall x :: x in r <==> x in rows)
    && (DistinctRows(rows) ==> DistinctRows(r))
  }

  function Insert(r: seq<Scored>, k: nat, x: Scored): (s: seq<Scored>)
    requires k <= |r|
    ensures |s| == |r| + 1
    ensures forall i :: 0 <= i < |s| ==> s[i] == if i < k then r[i] else if i == k then x else r[i - 1]
  {
    r[..k] + [x] + r[k..]
  }

  lemma InsertDescending(r: seq<Scored>, k: nat, x: Scored)
    requires k <= |r| && Descending(r)
    requires forall i :: 0 <= i < k ==> r[i].score >= x.score
    requires k < |r| ==> x.score >= r[k].score
    ensures Descending(Insert(r, k, x))
  {
    var s := Insert(r, k, x);
    forall i, j | 0 <= i < j < |s| ensures s[i].score >= s[j].score {
      if i == k && j - 1 > k { assert r[k].score >= r[j - 1].score; }
    }
  }

  lemma InsertMembers(r: seq<Scored>, k: nat, x: Scored, y: Scored)
    requires k <= |r|
    ensures y in Insert(r, k, x) <==> y in r || y == x
  {
    var s := Insert(r, k, x);
    if y in r {
      var i :| 0 <= i < |r| && r[i] == y;
      assert s[if i < k then i else i + 1] == y;
    }
    assert s[k] == x;
  }

  lemma InsertDistinct(r: seq<Scored>, k: nat, x: Scored)
    requires k <= |r| && DistinctRows(r) && forall y :: y in r ==> y.bid.id != x.bid.id
    ensures DistinctRows(Insert(r, k, x))
  {
  }

  lemma SortedCopySnoc(rows: seq<Scored>, i: nat, r: seq<Scored>, k: nat)
    requires i < |rows| && SortedCopy(rows[..i], r) && k <= |r|
    requires forall j :: 0 <= j < k ==> r[j].score >= rows[i].score
    requires k < |r| ==> rows[i].score >= r[k].score
    ensures SortedCopy(rows[..i + 1], Insert(r, k, rows[i]))
  {
    var x := rows[i];
    InsertDescending(r, k, x);
    assert rows[..i + 1] == rows[..i] + [x];
    forall y ensures y in Insert(r, k, x) <==> y in rows[..i + 1] {
      InsertMembers(r, k, x, y);
    }
    if DistinctRows(rows[..i + 1]) {
      DistinctPrefix(rows, i);
      InsertDistinct(r, k, x);
    }
  }

  lemma DistinctPrefix(rows: seq<Scored>, i: nat)
    requires i < |rows| && DistinctRows(rows[..i + 1])
    ensures DistinctRows(rows[..i]) && forall y :: y in rows[..i] ==> y.bid.id != rows[i].bid.id
  {
    var all := rows[..i + 1];
    assert forall a :: 0 <= a < i ==> rows[..i][a] == all[a];
    assert all[i] == rows[i];
  }

  /** sort.Slice by descending score; only SortedCopy is promised. */
  method SortByScore(rows: seq<Scored>) returns (r: seq<Scored>)
    ensures SortedCopy(rows, r)
  {
    r := [];
    var i := 0;
    while i < |rows|
      invariant 0 <= i <= |rows| && SortedCopy(rows[..i], r)
    {
      var x := rows[i];
      var k := 0;
      while k < |r| && r[k].score >= x.score
        invariant 0 <= k <= |r|
        invariant forall j :: 0 <= j < k ==> r[j].score >= x.score
      {
        k := k + 1;
      }
      SortedCopySnoc(rows, i, r, k);
      r := Insert(r, k, x);
      i := i + 1;
    }
    assert rows[..i] == rows;
  }

  /** The scorer's answers, from a bid and its provider's statistics and record: None for a provider that is
      filtered out or a score that is not finite. */
  type Rater<!S, !P> = (ChainBid, S, P) -> Option<real>

  predicate Aligned<S, P>(c: Collected<S, P>)
  {
    |c.ids| == |c.bids| == |c.stats| == |c.providers|
  }

  function RateAt<S, P>(c: Collected<S, P>, rate: Rater<S, P>, i: nat): Option<real>
    requires Aligned(c) && i < |c.ids|
  {
    rate(c.bids[i], c.stats[i], c.providers[i])
  }

  function BidAt<S, P>(c: Collected<S, P>, i: nat): Bid
    requires Aligned(c) && i < |c.ids|
  {
    Bid(c.ids[i], c.bids[i].provider, c.bids[i].modelId, Some(c.bids[i].price))
  }

  /** Row x is that of the i-th bid. */
  ghost predicate IsRowAt<S, P>(c: Collected<S, P>, rate: Rater<S, P>, x: Scored, i: nat)
    requires Aligned(c)
  {
    i < |c.ids| && x.bid == BidAt(c, i) && RateAt(c, rate, i) == Some(x.score)
  }

  ghost predicate IsRow<S, P>(c: Collected<S, P>, rate: Rater<S, P>, x: Scored)
    requires Aligned(c)
  {
    exists i :: IsRowAt(c, rate, x, i)
  }

  /** The rows of a ranking: one for each bid the rater scores, all of its fields from that bid, best first. */
  ghost predicate Ranking<S, P>(c: Collected<S, P>, rate: Rater<S, P>, r: seq<Scored>)
    requires Aligned(c)
  {
    && Descending(r) && DistinctRows(r)
    && forall x :: x in r <==> IsRow(c, rate, x)
  }

  datatype Rated = Rated(id: Bytes, score: real)

  /** rating.RateBids without its sorting: the scored ids in input order. */
  method RateInputs<S, P>(c: Collected<S, P>, rate: Rater<S, P>) returns (res: seq<Rated>, ghost at: seq<nat>)
    requires Aligned(c)
    ensures |at| == |res| && forall j :: 0 <= j < |res| ==> IsRated(c, rate, res[j], at[j])
    ensures forall j, k :: 0 <= j < k < |at| ==> at[j] < at[k]
    ensures forall i :: 0 <= i < |c.ids| && RateAt(c, rate, i).Some? ==> i in at
  {
    res, at := [], [];
    var i := 0;
    while i < |c.ids|
      invariant 0 <= i <= |c.ids| && |at| == |res|
      invariant forall j :: 0 <= j < |res| ==> IsRated(c, rate, res[j], at[j]) && at[j] < i
      invariant forall j, k :: 0 <= j < k < |at| ==> at[j] < at[k]
      invariant forall j :: 0 <= j < i && RateAt(c, rate, j).Some? ==> j in at
    {
      var score := rate(c.bids[i], c.stats[i], c.providers[i]);
      if score.Some? {
        res, at := res + [Rated(c.ids[i], score.value)], at + [i];
      }
      i := i + 1;
    }
  }

  predicate IsRated<S, P>(c: Collected<S, P>, rate: Rater<S, P>, x: Rated, i: nat)
    requires Aligned(c)
  {
    i < |c.ids| && x.id == c.ids[i] && RateAt(c, rate, i) == Some(x.score)
  }

  /** Later ids win, as when filling a Go map in a loop. */
  method IndexById(ids: seq<Bytes>) returns (index: map<Bytes, nat>)
    requires DistinctIds(ids)
    ensures forall i :: 0 <= i < |ids| ==> ids[i] in index && index[ids[i]] == i
  {
    index := map[];
    var i := 0;
    while i < |ids|
      invariant 0 <= i <= |ids|
      invariant forall j :: 0 <= j < i ==> ids[j] in index && index[ids[j]] == j
    {
      index := index[ids[i] := i];
      i := i + 1;
    }
  }

  /** The rows of the scored ids, each looked up by its id. */
  method RowsById<S, P>(c: Collected<S, P>, rate: Rater<S, P>, result: seq<Rated>, ghost at: seq<nat>)
    returns (rows: seq<Scored>)
    requires Aligned(c) && DistinctIds(c.ids)
    requires |at| == |result| && forall j :: 0 <= j < |result| ==> IsRated(c, rate, result[j], at[j])
    ensures |rows| == |at| && forall j :: 0 <= j < |rows| ==> IsRowAt(c, rate, rows[j], at[j])
  {
    var index := IndexById(c.ids);
    rows := [];
    var i := 0;
    while i < |result|
      invariant 0 <= i <= |result| && |rows| == i
      invariant forall j :: 0 <= j < i ==> IsRowAt(c, rate, rows[j], at[j])
    {
      assert IsRated(c, rate, result[i], at[i]);
      var k := index[result[i].id];
      rows := rows + [Scored(BidAt(c, k), result[i].score)];
      i := i + 1;
    }
  }

  /** Rows in input order, one for each scored bid, are the rows of a ranking. */
  lemma RowsComplete<S, P>(c: Collected<S, P>, rate: Rater<S, P>, rows: seq<Scored>, at: seq<nat>)
    requires Aligned(c) && DistinctIds(c.ids) && |rows| == |at|
    requires forall j :: 0 <= j < |rows| ==> IsRowAt(c, rate, rows[j], at[j])
    requires forall j, k :: 0 <= j < k < |at| ==> at[j] < at[k]
    requires forall i :: 0 <= i < |c.ids| && RateAt(c, rate, i).Some? ==> i in at
    ensures DistinctRows(rows) && forall x :: x in rows <==> IsRow(c, rate, x)
  {
    forall x | IsRow(c, rate, x) ensures x in rows {
      var i :| IsRowAt(c, rate, x, i);
      var j :| 0 <= j < |at| && at[j] == i;
      assert rows[j] == x;
    }
    forall j, k | 0 <= j < k < |rows| ensures rows[j].bid.id != rows[k].bid.id {
      assert rows[j].bid.id == c.ids[at[j]] && rows[k].bid.id == c.ids[at[k]];
    }
  }

  /** With distinct bid ids the result is sorted by falling score, holds one row for each scored bid and nothing
      else, and every field of a row comes from the bid with that id. */
  method RateBids<S, P>(c: Collected<S, P>, rate: Rater<S, P>) returns (r: seq<Scored>)
    requires Aligned(c) && DistinctIds(c.ids)
    ensures Ranking(c, rate, r)
  {
    var result;
    ghost var at;
    result, at := RateInputs(c, rate);
    var rows := RowsById(c, rate, result, at);
    RowsComplete(c, rate, rows, at);
    r := SortByScore(rows);
  }

  /** Row x shows listed bid i: id, provider, model and price are the bid's, and the score is what the rater says about
      it and its own provider. */
  predicate Shows<S, P>(listed: seq<Listed>, statOf: Bytes -> Option<S>, providerOf: Bytes -> Option<P>,
                        rate: Rater<S, P>, x: Scored, i: nat)
  {
    && i < |listed| && Resolvable(listed[i], statOf, providerOf)
    && x.bid.id == listed[i].id && x.bid.provider == listed[i].bid.provider
    && x.bid.modelId == listed[i].bid.modelId && x.bid.price == Some(listed[i].bid.price)
    && rate(listed[i].bid, statOf(listed[i].bid.provider).value, providerOf(listed[i].bid.provider).value)
         == Some(x.score)
  }

  lemma RowShows<S, P>(listed: seq<Listed>, statOf: Bytes -> Option<S>, providerOf: Bytes -> Option<P>,
                       rate: Rater<S, P>, c: Collected<S, P>, x: Scored, i: nat)
    requires AllOf(listed, statOf, providerOf) == Some(c) && Aligned(c)
    ensures IsRowAt(c, rate, x, i) <==> Shows(listed, statOf, providerOf, rate, x, i)
  {
    AllOfAligned(listed, statOf, providerOf);
    if i < |listed| {
      assert Resolvable(listed[i], statOf, providerOf);
      assert c.ids[i] == listed[i].id && c.bids[i] == listed[i].bid;
    }
  }

  /** A ranking of all bids of the chain list: each row shows a listed bid that the rater scores, each such bid has its
      row, and the higher score comes first. */
  lemma RankingMeans<S, P>(listed: seq<Listed>, statOf: Bytes -> Option<S>, providerOf: Bytes -> Option<P>,
                           rate: Rater<S, P>, c: Collected<S, P>, rows: seq<Scored>)
    requires AllOf(listed, statOf, providerOf) == Some(c) && Aligned(c) && Ranking(c, rate, rows)
    ensures forall x :: x in rows <==> exists i: nat :: Shows(listed, statOf, providerOf, rate, x, i)
    ensures forall i, j :: 0 <= i < j < |rows| ==> rows[i].score >= rows[j].score
    ensures forall i, j :: 0 <= i < j < |rows| ==> rows[i].bid.id != rows[j].bid.id
  {
    forall x ensures x in rows <==> exists i: nat :: Shows(listed, statOf, providerOf, rate, x, i) {
      forall i: nat ensures IsRowAt(c, rate, x, i) <==> Shows(listed, statOf, providerOf, rate, x, i) {
        RowShows(listed, statOf, providerOf, rate, c, x, i);
      }
      assert x in rows <==> IsRow(c, rate, x);
      if x in rows {
        var i: nat :| IsRowAt(c, rate, x, i);
      }
    }
  }

  /** Two rankings of the same bids agree on the best score, which is the one the stake estimate quotes. */
  lemma RankingScoresAgree<S, P>(c: Collected<S, P>, rate: Rater<S, P>, r: seq<Scored>, r': seq<Scored>)
    requires Aligned(c) && Ranking(c, rate, r) && Ranking(c, rate, r')
    requires r != [] && r' != []
    ensures r[0].score == r'[0].score
  {
    assert r[0] in r && r'[0] in r';
    var i :| 0 <= i < |r'| && r'[i] == r[0];
    var j :| 0 <= j < |r| && r[j] == r'[0];
  }
}
