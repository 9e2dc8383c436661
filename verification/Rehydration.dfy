/** Rebuilding the session cache from the chain: a newest-first scan that stops after three
    consecutive pages without an open session. */
module Rehydration {
  import opened ByteStrings
  import opened Pagination

  const PAGE_SIZE: nat := 255
  const THRESHOLD: nat := 3

  /** `closedAt` is the contract's value as the code reads it, through Int64. */
  datatype Session = Session(id: Bytes, user: Bytes, provider: Bytes, modelId: Bytes, bidId: Bytes, endsAt: int,
                             closedAt: i64)

  predicate Closed(s: Session)
  {
    s.closedAt != 0
  }

  predicate AllClosed(list: seq<Session>, lo: nat, hi: nat)
    requires lo <= hi <= |list|
  {
    forall i :: lo <= i < hi ==> Closed(list[i])
  }

  /** The sessions of the list that are still open, in order. */
  function Open(list: seq<Session>): seq<Session>
  {
    if list == [] then []
    else
      var before := Open(list[..|list| - 1]);
      if Closed(list[|list| - 1]) then before else before + [list[|list| - 1]]
  }

  lemma {:induction false} OpenMember(list: seq<Session>, s: Session)
    ensures s in Open(list) <==> s in list && !Closed(s)
  {
    if list != [] {
      assert list == list[..|list| - 1] + [list[|list| - 1]];
      OpenMember(list[..|list| - 1], s);
    }
  }

  lemma {:induction false} OpenEmpty(list: seq<Session>)
    ensures Open(list) == [] <==> forall i :: 0 <= i < |list| ==> Closed(list[i])
  {
    if list != [] {
      var before := list[..|list| - 1];
      OpenEmpty(before);
      assert forall i :: 0 <= i < |before| ==> list[i] == before[i];
    }
  }

  lemma OpenSnoc(list: seq<Session>, k: nat)
    requires k < |list|
    ensures Open(list[..k + 1]) == if Closed(list[k]) then Open(list[..k]) else Open(list[..k]) + [list[k]]
  {
    assert list[..k + 1][..k] == list[..k];
  }

  lemma {:induction false} OpenConcat(a: seq<Session>, b: seq<Session>)
    ensures Open(a + b) == Open(a) + Open(b)
  {
    if b == [] {
      assert a + b == a;
    } else {
      assert (a + b)[..|a + b| - 1] == a + b[..|b| - 1];
      OpenConcat(a, b[..|b| - 1]);
    }
  }

  // ---- one page ----

  datatype Row = Row(id: Bytes, session: Session, bid: Bytes)

  /** A page's open sessions, each with its own id and bid. */
  function RowsOf(open: seq<Session>, bidOf: Bytes -> Bytes): (rows: seq<Row>)
    ensures |rows| == |open|
  {
    seq(|open|, i requires 0 <= i < |open| => Row(open[i].id, open[i], bidOf(open[i].bidId)))
  }

  /** The filter loop: the open sessions with their ids, and the number of the others. */
  method FilterOpen(page: seq<Session>) returns (ids: seq<Bytes>, ses: seq<Session>, closedCount: nat)
    ensures ses == Open(page) && |ids| == |ses| && |ses| + closedCount == |page|
    ensures forall j :: 0 <= j < |ses| ==> ids[j] == ses[j].id
  {
    ids, ses, closedCount := [], [], 0;
    var i := 0;
    while i < |page|
      invariant 0 <= i <= |page|
      invariant ses == Open(page[..i]) && |ids| == |ses| && |ses| + closedCount == i
      invariant forall j :: 0 <= j < |ses| ==> ids[j] == ses[j].id
    {
      OpenSnoc(page, i);
      if page[i].closedAt == 0 {
        ids := ids + [page[i].id];
        ses := ses + [page[i]];
      } else {
        closedCount := closedCount + 1;
      }
      i := i + 1;
    }
    assert page[..i] == page;
  }

  /** `bidOf` is the answer to the bid batch request, aligned with the requested ids. */
  method GetUnclosedUserSessions(page: seq<Session>, bidOf: Bytes -> Bytes)
    returns (unclosed: seq<Row>, closedCount: nat, totalFetched: nat)
    ensures unclosed == RowsOf(Open(page), bidOf)
    ensures totalFetched == |page| && |unclosed| + closedCount == totalFetched
  {
    totalFetched := |page|;
    var ids, ses;
    ids, ses, closedCount := FilterOpen(page);
    unclosed := seq(|ses|, j requires 0 <= j < |ses| => Row(ids[j], ses[j], bidOf(ses[j].bidId)));
  }

  /** Every open session of the page is returned once more beside its own id and bid. */
  lemma PageComplete(page: seq<Session>, bidOf: Bytes -> Bytes, s: Session)
    ensures s in page && !Closed(s) <==> Row(s.id, s, bidOf(s.bidId)) in RowsOf(Open(page), bidOf)
  {
    OpenMember(page, s);
    var rows := RowsOf(Open(page), bidOf);
    if s in Open(page) {
      var j :| 0 <= j < |rows| && Open(page)[j] == s;
      assert rows[j] == Row(s.id, s, bidOf(s.bidId));
    }
  }

  // ---- the scan ----

  datatype Stored = Stored(userAddr: Bytes, providerAddr: Bytes, endsAt: int, modelId: Bytes)

  function StoredOf(s: Session): Stored
  {
    Stored(s.user, s.provider, s.endsAt, s.modelId)
  }

  class SessionStorage {
    var sessions: map<Bytes, Stored>

    /** `ok` is whether the write succeeds. */
    method AddSession(s: Session, ok: bool)
      modifies this
      ensures sessions == if ok then old(sessions)[s.id := StoredOf(s)] else old(sessions)
    {
      if ok {
        sessions := sessions[s.id := StoredOf(s)];
      }
    }
  }

  /** Writing the open sessions in order; `addOk` says which writes succeed. */
  function Write(cache: map<Bytes, Stored>, open: seq<Session>, addOk: Bytes -> bool): map<Bytes, Stored>
  {
    if open == [] then cache
    else
      var c := Write(cache, open[..|open| - 1], addOk);
      var last := open[|open| - 1];
      if addOk(last.id) then c[last.id := StoredOf(last)] else c
  }

  lemma {:induction false} WriteKeys(cache: map<Bytes, Stored>, open: seq<Session>, addOk: Bytes -> bool, id: Bytes)
    ensures id in Write(cache, open, addOk) <==> id in cache || exists s :: s in open && s.id == id && addOk(id)
  {
    if open != [] {
      var before, last := open[..|open| - 1], open[|open| - 1];
      assert open == before + [last];
      WriteKeys(cache, before, addOk, id);
    }
  }

  lemma {:induction false} WriteConcat(cache: map<Bytes, Stored>, a: seq<Session>, b: seq<Session>,
                                       addOk: Bytes -> bool)
    ensures Write(cache, a + b, addOk) == Write(Write(cache, a, addOk), b, addOk)
  {
    if b == [] {
      assert a + b == a;
    } else {
      assert (a + b)[..|a + b| - 1] == a + b[..|b| - 1];
      WriteConcat(cache, a, b[..|b| - 1], addOk);
    }
  }

  function PageEnd(list: seq<Session>, k: nat): (n: nat)
    ensures n <= |list|
  {
    if PAGE_SIZE * k < |list| then PAGE_SIZE * k else |list|
  }

  /** Page p exists and holds no open session. */
  predicate PageClosed(list: seq<Session>, p: nat)
  {
    PAGE_SIZE * p < |list| && AllClosed(list, PAGE_SIZE * p, PageEnd(list, p + 1))
  }

  /** Pages p, p + 1 and p + 2 hold no open session. */
  predicate ClosedRun(list: seq<Session>, p: nat)
  {
    PageClosed(list, p) && PageClosed(list, p + 1) && PageClosed(list, p + 2)
  }

  /** The scan writes the open sessions of exactly its first k pages: all of them, or those before
      the last page of the first closed run. */
  ghost predicate ScanStops(list: seq<Session>, k: nat)
  {
    && (PAGE_SIZE * k >= |list| || (k >= 2 && ClosedRun(list, k - 2)))
    && forall p: nat :: p + 3 <= k ==> !ClosedRun(list, p)
  }

  /** The last `streak` of the first k pages are closed and the one before is not. */
  ghost predicate Streak(list: seq<Session>, k: nat, streak: nat)
  {
    && streak < THRESHOLD && streak <= k
    && (forall p :: k - streak <= p < k ==> PageClosed(list, p))
    && (streak < k ==> !PageClosed(list, k - streak - 1))
  }

  ghost predicate Counting(list: seq<Session>, k: nat, streak: nat)
  {
    Streak(list, k, streak) && forall p: nat :: p + 3 <= k ==> !ClosedRun(list, p)
  }

  lemma StreakBreaksRuns(list: seq<Session>, k: nat, streak: nat)
    requires Streak(list, k, streak) && !(streak == 2 && PageClosed(list, k))
    requires forall p: nat :: p + 3 <= k ==> !ClosedRun(list, p)
    ensures forall p: nat :: p + 3 <= k + 1 ==> !ClosedRun(list, p)
    ensures Streak(list, k + 1, if PageClosed(list, k) then streak + 1 else 0)
  {
    forall p: nat | p + 3 <= k + 1 ensures !ClosedRun(list, p) {
      if p + 2 == k && streak < 2 {
        assert !PageClosed(list, k - streak - 1);
      }
    }
  }

  lemma PageClosedIff(list: seq<Session>, k: nat, page: seq<Session>)
    requires PAGE_SIZE * k < |list| && page == list[PageEnd(list, k)..PageEnd(list, k + 1)]
    ensures PageClosed(list, k) <==> Open(page) == []
  {
    var lo := PageEnd(list, k);
    assert forall i :: 0 <= i < |page| ==> page[i] == list[lo + i];
    OpenEmpty(page);
    if Open(page) == [] {
      forall i | lo <= i < PageEnd(list, k + 1) ensures Closed(list[i]) {
        assert list[i] == page[i - lo];
      }
    }
  }

  /** What one read of the scan returns: page k of the newest-first list. */
  lemma PageRead(chain: seq<Session>, k: nat)
    ensures var list := Reverse(chain);
            var page := Page(chain, true, PageEnd(list, k), PAGE_SIZE);
            && page == list[PageEnd(list, k)..PageEnd(list, k + 1)]
            && (page == [] <==> PAGE_SIZE * k >= |list|)
            && (page != [] ==> (PageClosed(list, k) <==> Open(page) == []))
  {
    var list := Reverse(chain);
    PageIsWindow(chain, true, PageEnd(list, k), PAGE_SIZE);
    if PAGE_SIZE * k < |list| {
      PageClosedIff(list, k, Page(chain, true, PageEnd(list, k), PAGE_SIZE));
    }
  }

  /** The counter of consecutive all-closed pages, and whether it reaches the threshold. */
  method CountPage(ghost list: seq<Session>, ghost k: nat, streak: nat, allClosed: bool) returns (next: nat, stop: bool)
    requires Counting(list, k, streak) && (allClosed <==> PageClosed(list, k))
    ensures stop ==> ScanStops(list, k)
    ensures !stop ==> Counting(list, k + 1, next)
  {
    next := 0;
    stop := false;
    if allClosed {
      next := streak + 1;
      if next >= THRESHOLD {
        return next, true;
      }
    }
    StreakBreaksRuns(list, k, streak);
  }

  /** The cache after the open sessions of the first k pages were written. */
  function Written(cache: map<Bytes, Stored>, list: seq<Session>, k: nat, addOk: Bytes -> bool): map<Bytes, Stored>
  {
    Write(cache, Open(list[..PageEnd(list, k)]), addOk)
  }

  method StorePage(storage: SessionStorage, rows: seq<Row>, ghost open: seq<Session>, addOk: Bytes -> bool)
    requires |rows| == |open| && forall i :: 0 <= i < |rows| ==> rows[i].session == open[i]
    modifies storage
    ensures storage.sessions == Write(old(storage.sessions), open, addOk)
  {
    var i := 0;
    while i < |rows|
      invariant 0 <= i <= |rows|
      invariant storage.sessions == Write(old(storage.sessions), open[..i], addOk)
    {
      assert open[..i + 1][..i] == open[..i];
      var ok := addOk(rows[i].session.id);
      storage.AddSession(rows[i].session, ok);
      i := i + 1;
    }
    assert open[..i] == open;
  }

  lemma PageWritten(cache: map<Bytes, Stored>, list: seq<Session>, k: nat, addOk: Bytes -> bool)
    requires PAGE_SIZE * k < |list|
    ensures Written(cache, list, k + 1, addOk)
         == Write(Written(cache, list, k, addOk), Open(list[PageEnd(list, k)..PageEnd(list, k + 1)]), addOk)
  {
    var lo, hi := PageEnd(list, k), PageEnd(list, k + 1);
    assert list[..hi] == list[..lo] + list[lo..hi];
    OpenConcat(list[..lo], list[lo..hi]);
    WriteConcat(cache, Open(list[..lo]), Open(list[lo..hi]), addOk);
  }

  /** One read of the scan. */
  method ReadPage(chain: seq<Session>, ghost k: nat, offset: nat) returns (page: seq<Session>)
    requires offset == PageEnd(Reverse(chain), k)
    ensures var list := Reverse(chain);
            && page == list[PageEnd(list, k)..PageEnd(list, k + 1)]
            && (page == [] <==> PAGE_SIZE * k >= |list|)
            && (page != [] ==> (PageClosed(list, k) <==> Open(page) == []))
            && offset + |page| == PageEnd(list, k + 1)
  {
    PageRead(chain, k);
    page := Page(chain, true, offset, PAGE_SIZE);
  }

  /** What the scan does with one page that is not empty. */
  method ScanPage(storage: SessionStorage, ghost start: map<Bytes, Stored>, ghost list: seq<Session>, ghost k: nat,
                  streak: nat, page: seq<Session>, bidOf: Bytes -> Bytes, addOk: Bytes -> bool)
    returns (next: nat, stop: bool)
    requires PAGE_SIZE * k < |list| && page == list[PageEnd(list, k)..PageEnd(list, k + 1)] && page != []
    requires PageClosed(list, k) <==> Open(page) == []
    requires Counting(list, k, streak) && storage.sessions == Written(start, list, k, addOk)
    modifies storage
    ensures stop ==> ScanStops(list, k) && storage.sessions == old(storage.sessions)
    ensures !stop ==> Counting(list, k + 1, next) && storage.sessions == Written(start, list, k + 1, addOk)
  {
    var unclosed, closedInPage, fetched := GetUnclosedUserSessions(page, bidOf);
    next, stop := CountPage(list, k, streak, |unclosed| == 0 && closedInPage > 0);
    if !stop {
      PageWritten(start, list, k, addOk);
      StorePage(storage, unclosed, Open(page), addOk);
    }
  }

  lemma NothingCounted(list: seq<Session>)
    ensures Counting(list, 0, 0)
  {
  }

  lemma ListRead(list: seq<Session>, k: nat, streak: nat)
    requires Counting(list, k, streak) && PAGE_SIZE * k >= |list|
    ensures ScanStops(list, k)
  {
  }

  /** `readOk` says at which offsets the chain answers; `addOk` which cache writes succeed.
      Returns how many whole pages were written and whether a read failed. */
  method RehydrateFromChain(storage: SessionStorage, chain: seq<Session>, bidOf: Bytes -> Bytes,
                            readOk: nat -> bool, addOk: Bytes -> bool) returns (k: nat, failed: bool)
    modifies storage
    ensures storage.sessions == Written(old(storage.sessions), Reverse(chain), k, addOk)
    ensures failed ==> !readOk(PageEnd(Reverse(chain), k))
    ensures !failed ==> ScanStops(Reverse(chain), k)
  {
    ghost var list := Reverse(chain);
    var offset := 0;
    var consecutiveAllClosedPages := 0;
    k := 0;
    failed := false;
    ghost var start := storage.sessions;
    assert list[..0] == [];
    NothingCounted(list);
    while true
      invariant offset == PageEnd(list, k)
      invariant Counting(list, k, consecutiveAllClosedPages)
      invariant storage.sessions == Written(start, list, k, addOk)
      decreases |chain| - offset
    {
      if !readOk(offset) {
        failed := true;
        break;
      }
      var page := ReadPage(chain, k, offset);
      if |page| == 0 {
        ListRead(list, k, consecutiveAllClosedPages);
        break;
      }
      var stop;
      consecutiveAllClosedPages, stop :=
        ScanPage(storage, start, list, k, consecutiveAllClosedPages, page, bidOf, addOk);
      if stop {
        break;
      }
      offset := offset + |page|;
      k := k + 1;
    }
  }

  // ---- what the scan loses ----

  /** The exact loss: an open session of the newest-first list is not scanned if and only if three full
      consecutive pages, 765 sessions in a row, without an open one lie before it. */
  lemma LossExact(list: seq<Session>, k: nat, i: nat)
    requires ScanStops(list, k) && i < |list| && !Closed(list[i])
    ensures i >= PageEnd(list, k) <==> exists p: nat :: ClosedRun(list, p) && PAGE_SIZE * (p + 3) <= i
  {
    if i >= PageEnd(list, k) {
      assert ClosedRun(list, k - 2);
      assert PAGE_SIZE * (k - 2 + 3) <= i;
    }
    if p: nat :| ClosedRun(list, p) && PAGE_SIZE * (p + 3) <= i {
      assert !(p + 3 <= k);
    }
  }

  predicate DistinctIds(list: seq<Session>)
  {
    forall i, j :: 0 <= i < j < |list| ==> list[i].id != list[j].id
  }

  lemma CachedIff(list: seq<Session>, n: nat, addOk: Bytes -> bool, i: nat)
    requires DistinctIds(list) && n <= |list| && i < |list|
    ensures list[i].id in Write(map[], Open(list[..n]), addOk) <==> i < n && !Closed(list[i]) && addOk(list[i].id)
  {
    var id := list[i].id;
    WriteKeys(map[], Open(list[..n]), addOk, id);
    if i < n {
      assert list[..n][i] in list[..n];
      OpenMember(list[..n], list[i]);
    }
    if s :| s in Open(list[..n]) && s.id == id {
      OpenMember(list[..n], s);
      var j :| 0 <= j < n && list[..n][j] == s;
      assert list[j].id == list[i].id;
    }
  }

  /** After a scan of an empty cache with successful reads and writes: no closed session is cached, and an
      open one is missing exactly when three closed pages, 765 sessions in a row, lie before it. */
  lemma RehydrationLossBound(list: seq<Session>, k: nat, i: nat)
    requires DistinctIds(list) && ScanStops(list, k) && i < |list|
    ensures var cache := Written(map[], list, k, (id: Bytes) => true);
            list[i].id !in cache <==>
              Closed(list[i]) || exists p: nat :: ClosedRun(list, p) && PAGE_SIZE * (p + 3) <= i
  {
    CachedIff(list, PageEnd(list, k), (id: Bytes) => true, i);
    if !Closed(list[i]) {
      LossExact(list, k, i);
    }
  }

  /** A closed run with something behind it is 765 consecutive closed sessions. */
  lemma ClosedRunLength(list: seq<Session>, p: nat, i: nat)
    requires ClosedRun(list, p) && PAGE_SIZE * (p + 3) <= i < |list|
    ensures AllClosed(list, PAGE_SIZE * p, PAGE_SIZE * p + 765)
  {
  }

  // ---- in the chain's own order ----

  lemma {:induction false} WriteOwn(cache: map<Bytes, Stored>, open: seq<Session>, addOk: Bytes -> bool, id: Bytes)
    returns (s: Session)
    requires id in Write(cache, open, addOk) && id !in cache
    ensures s in open && s.id == id
    ensures var e := Write(cache, open, addOk)[id];
            && e.userAddr == s.user && e.providerAddr == s.provider && e.endsAt == s.endsAt && e.modelId == s.modelId
  {
    var before, last := open[..|open| - 1], open[|open| - 1];
    assert open == before + [last];
    if last.id == id && addOk(id) {
      s := last;
    } else {
      s := WriteOwn(cache, before, addOk, id);
    }
  }

  /** A cached session is cached with its own user, provider, end and model. */
  lemma CachedOwn(list: seq<Session>, k: nat, addOk: Bytes -> bool, i: nat)
    requires DistinctIds(list) && i < |list| && list[i].id in Written(map[], list, k, addOk)
    ensures var e := Written(map[], list, k, addOk)[list[i].id];
            && e.userAddr == list[i].user && e.providerAddr == list[i].provider
            && e.endsAt == list[i].endsAt && e.modelId == list[i].modelId
  {
    var read := list[..PageEnd(list, k)];
    var s := WriteOwn(map[], Open(read), addOk, list[i].id);
    OpenMember(read, s);
    var j :| 0 <= j < |read| && read[j] == s;
    assert list[j] == s;
  }

  /** The 765 sessions with 255 p to 255 p + 764 newer ones are closed, all of them newer than the one with n. */
  ghost predicate ClosedBefore(chain: seq<Session>, p: nat, n: nat)
  {
    255 * p + 765 <= n <= |chain|
    && forall i :: |chain| - 255 * p - 765 <= i < |chain| - 255 * p ==> chain[i].closedAt != 0
  }

  lemma RunIsClosedBefore(chain: seq<Session>, p: nat, n: nat)
    requires n < |chain|
    ensures ClosedRun(Reverse(chain), p) && PAGE_SIZE * (p + 3) <= n <==> ClosedBefore(chain, p, n)
  {
    var list, m := Reverse(chain), |chain|;
    if ClosedRun(list, p) && PAGE_SIZE * (p + 3) <= n {
      forall i | m - 255 * p - 765 <= i < m - 255 * p ensures chain[i].closedAt != 0 {
        assert list[m - 1 - i] == chain[i] && Closed(list[m - 1 - i]);
      }
    }
    if ClosedBefore(chain, p, n) {
      forall j | 255 * p <= j < 255 * p + 765 ensures Closed(list[j]) {
        assert list[j] == chain[m - 1 - j];
      }
    }
  }

  /** After a scan that no failed read or write disturbed, the session with n newer ones is cached exactly when it is
      not closed and no three closed pages are newer. */
  lemma CachedExactly(chain: seq<Session>, k: nat, n: nat)
    requires DistinctIds(Reverse(chain)) && ScanStops(Reverse(chain), k) && n < |chain|
    ensures var s := chain[|chain| - 1 - n];
            s.id in Written(map[], Reverse(chain), k, (id: Bytes) => true) <==>
              s.closedAt == 0 && !exists p: nat :: ClosedBefore(chain, p, n)
  {
    var list := Reverse(chain);
    assert list[n] == chain[|chain| - 1 - n];
    RehydrationLossBound(list, k, n);
    forall p: nat ensures ClosedRun(list, p) && PAGE_SIZE * (p + 3) <= n <==> ClosedBefore(chain, p, n) {
      RunIsClosedBefore(chain, p, n);
    }
  }
}
