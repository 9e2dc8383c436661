/** One open request from the bids on the chain to the session in the contract: collect, rank, filter, try in order. */
module OpenByModel {
  import opened BidRating
  import opened Bids
  import opened ByteStrings
  import opened HealthPolicy
  import opened SessionOpening
  import Stake

  function IdsOf(listed: seq<Listed>): (ids: seq<Bytes>)
    ensures |ids| == |listed|
  {
    seq(|listed|, i requires 0 <= i < |listed| => listed[i].id)
  }

  lemma CollectedIds<S, P>(listed: seq<Listed>, statOf: Bytes -> Option<S>, providerOf: Bytes -> Option<P>)
    requires AllOf(listed, statOf, providerOf).Some? && DistinctIds(IdsOf(listed))
    ensures var c := AllOf(listed, statOf, providerOf).value;
            Aligned(c) && DistinctIds(c.ids) && |c.ids| == |listed|
  {
    AllOfAligned(listed, statOf, providerOf);
    var c := AllOf(listed, statOf, providerOf).value;
    forall i, j | 0 <= i < j < |c.ids| ensures c.ids[i] != c.ids[j] {
      assert IdsOf(listed)[i] != IdsOf(listed)[j];
    }
  }

  /** The request's fixed data: who asks, for how long, and the supply and budget read for it. */
  datatype Ask = Ask(me: Address, omit: Address, balance: Option<int>, duration: int, supply: int, budget: int,
                     directPayment: bool, isTee: bool, policy: Policy)

  function RequestOf(a: Ask): Request
  {
    Request(a.me, a.omit, a.balance, AmountBy(a.duration, Some(a.supply), Some(a.budget), a.directPayment), a.isTee)
  }

  /** None when a lookup failed or the model has no bids. The ghost results are the ranking, the entries into the
      on-chain open and the sessions opened. */
  method OpenSession<S, P>(chain: Chain, listed: seq<Listed>, statOf: Bytes -> Option<S>,
                           providerOf: Bytes -> Option<P>, rate: Rater<S, P>, a: Ask,
                           probe: nat -> HealthClass, replies: nat -> Replies)
    returns (out: Option<Outcome>, ghost rows: seq<Scored>, ghost entries: seq<Entry>, ghost sessions: seq<Entry>)
    requires DistinctIds(IdsOf(listed))
    modifies chain
    ensures chain.entered == old(chain.entered) + entries && chain.sessions == old(chain.sessions) + sessions
    ensures out.None? <==> listed == [] || AllOf(listed, statOf, providerOf).None?
    ensures out.None? ==> entries == sessions == []
    ensures out.Some? ==>
              var c, rq := AllOf(listed, statOf, providerOf).value, RequestOf(a);
              && Aligned(c) && Ranking(c, rate, rows)
              && LoopSpec(rq, Attempted(rq, a.policy, BidsOf(rows), probe), replies, out.value, entries, sessions)
  {
    out, rows, entries, sessions := None, [], [], [];
    var c := GetAllBidsWithRating(listed, statOf, providerOf);
    if c.None? {
      return;
    }
    CollectedIds(listed, statOf, providerOf);
    if |c.value.bids| == 0 {
      return;
    }
    var ranked := RateBids(c.value, rate);
    var o;
    o, entries, sessions := OpenSessionByModelId(chain, RequestOf(a), a.policy, BidsOf(ranked), probe, replies);
    rows, out := ranked, Some(o);
  }

  /** Attempts run in the order of the scores: of two attempted rows the one with the higher score comes first. */
  lemma ScoreOrder(rq: Request, policy: Policy, rows: seq<Scored>, probe: nat -> HealthClass, x: Scored, y: Scored,
                   i: nat, j: nat)
    requires Descending(rows) && DistinctRows(rows) && x in rows && y in rows && y.score > x.score
    requires var kept := Attempted(rq, policy, BidsOf(rows), probe);
             i < |kept| && j < |kept| && kept[i] == x.bid && kept[j] == y.bid
    ensures j < i
  {
    var at := AttemptedEmbed(rq, policy, BidsOf(rows), probe);
    RowAt(rows, x, at[i]);
    RowAt(rows, y, at[j]);
  }

  lemma RowAt(rows: seq<Scored>, x: Scored, k: nat)
    requires DistinctRows(rows) && x in rows && k < |rows| && rows[k].bid == x.bid
    ensures rows[k] == x
  {
    var i :| 0 <= i < |rows| && rows[i] == x;
  }

  /** For all replies: a request opens at most one session, success or not. A success opened that of a scored bid, for
      exactly its amount, and every attempted bid with a higher score had failed before the chain. */
  lemma BestFirst(a: Ask, rows: seq<Scored>, probe: nat -> HealthClass, replies: nat -> Replies, out: Outcome,
                  entries: seq<Entry>, sessions: seq<Entry>)
    requires Descending(rows) && DistinctRows(rows)
    requires LoopSpec(RequestOf(a), Attempted(RequestOf(a), a.policy, BidsOf(rows), probe), replies, out,
                      entries, sessions)
    ensures |entries| <= 1 && sessions <= entries
    ensures forall e :: e in entries ==>
              && e.bid.provider != a.me && e.bid.provider != a.omit
              && (a.balance.Some? ==> e.amount <= a.balance.value)
              && Stake.ComputeSessionTokenAmount(e.bid.price, a.duration, Some(a.supply), Some(a.budget),
                                                 a.directPayment) == Some(e.amount)
    ensures out.Success? ==> |sessions| == 1 && exists x :: OpenedRow(a, rows, probe, replies, sessions[0].bid, x)
  {
    var rq := RequestOf(a);
    AtMostOneOpen(rq, a.policy, BidsOf(rows), probe, replies, out, entries, sessions);
    if out.Success? {
      var kept := Attempted(rq, a.policy, BidsOf(rows), probe);
      var i := FirstStop(Tries(rq, kept, replies), 0);
      AttemptedEligible(rq, a.policy, BidsOf(rows), probe, kept[i]);
      var k :| 0 <= k < |rows| && BidsOf(rows)[k] == kept[i];
      var x := rows[k];
      forall y, j | y in rows && y.score > x.score && 0 <= j < |kept| && kept[j] == y.bid
        ensures !ReachesChain(rq, y.bid, replies(j)) {
        ScoreOrder(rq, a.policy, rows, probe, x, y, i, j);
      }
      assert OpenedRow(a, rows, probe, replies, sessions[0].bid, x);
    }
  }

  /** Row x is that of the opened bid; attempts on better rows never reached the chain. */
  ghost predicate OpenedRow(a: Ask, rows: seq<Scored>, probe: nat -> HealthClass, replies: nat -> Replies, won: Bid,
                            x: Scored)
  {
    var rq := RequestOf(a);
    var kept := Attempted(rq, a.policy, BidsOf(rows), probe);
    && x in rows && x.bid == won
    && forall y, j :: y in rows && y.score > x.score && 0 <= j < |kept| && kept[j] == y.bid ==>
         !ReachesChain(rq, y.bid, replies(j))
  }
}
