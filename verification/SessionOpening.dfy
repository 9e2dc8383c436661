/** Opening a session with failover: hard filters, health policy, then one attempt after another. */
module SessionOpening {
  import opened Bids
  import opened ByteStrings
  import ChainOpen
  import opened HealthPolicy
  import Stake
  import TxEscalator

  /** What one open request fixes; a balance of None could not be read. `amount` is the one function that
      the affordability filter and the transfer share. */
  datatype Request = Request(me: Address, omit: Address, balance: Option<int>, amount: Bid -> Option<int>, isTee: bool)

  /** The amount of a bid for one duration, supply and budget. */
  function AmountBy(duration: int, supply: Option<int>, budget: Option<int>, directPayment: bool): Bid -> Option<int>
  {
    (b: Bid) => Stake.ComputeSessionTokenAmount(b.price, duration, supply, budget, directPayment)
  }

  datatype Reason =
    | Omitted | Unaffordable | SkippedByHealth | NoProvider | PingFailed | ModelUnhealthy | TeeFailed | Unpriceable
    | InitiateFailed | OpenFailed

  datatype Failure = Failure(provider: Address, reason: Reason)

  // ---- one attempt ----

  /** Every reply one attempt may get. */
  datatype Replies = Replies(providerOk: bool, ping: Option<seq<Report>>, teeOk: bool, initiateOk: bool,
                             open: ChainOpen.OpenReplies)

  datatype Try = TryNext(reason: Reason) | GiveUp(reason: Reason) | Opened(hash: Bytes)

  /** The attempt reaches the on-chain open: everything before it succeeded. */
  predicate ReachesChain(rq: Request, b: Bid, r: Replies)
  {
    && r.providerOk && r.ping.Some? && Classify(r.ping.value, b.modelId) != Blocked
    && (rq.isTee ==> r.teeOk) && rq.amount(b).Some? && r.initiateOk
  }

  /** What the attempt returns. Only failures before the chain pass on to the next provider; a missing
      provider record or price gives up although the chain was not touched. */
  function TryResult(rq: Request, b: Bid, r: Replies): Try
  {
    if !r.providerOk then GiveUp(NoProvider)
    else if r.ping.None? then TryNext(PingFailed)
    else if Classify(r.ping.value, b.modelId) == Blocked then TryNext(ModelUnhealthy)
    else if rq.isTee && !r.teeOk then TryNext(TeeFailed)
    else if rq.amount(b).None? then GiveUp(Unpriceable)
    else if !r.initiateOk then TryNext(InitiateFailed)
    else if !ChainOpen.OpenOk(rq.amount(b).value, r.open) then GiveUp(OpenFailed)
    else Opened(r.open.hash)
  }

  /** An entry into OpenSession: the bid and the amount to transfer. */
  datatype Entry = Entry(bid: Bid, amount: int)

  /** What an attempt adds to the entries, and to the sessions the contract opens. */
  function EntriesOf(rq: Request, b: Bid, r: Replies): seq<Entry>
  {
    if ReachesChain(rq, b, r) then [Entry(b, rq.amount(b).value)] else []
  }

  function OpenedOf(rq: Request, b: Bid, r: Replies): seq<Entry>
  {
    if ReachesChain(rq, b, r) && ChainOpen.Opened(rq.amount(b).value, r.open) then [Entry(b, rq.amount(b).value)]
    else []
  }

  /** `entered` are the entries into the on-chain open, `sessions` what the contract opened. */
  class Chain {
    var entered: seq<Entry>
    var sessions: seq<Entry>

    constructor ()
      ensures entered == [] && sessions == []
    {
      entered, sessions := [], [];
    }

    /** The contract executes the copies of one open transaction, n of which were handed over: each that passes opens
        a session, unless the approval they share is used. */
    method Execute(e: Entry, copies: ChainOpen.Copies, n: nat)
      modifies this`sessions
      ensures sessions
           == if ChainOpen.Used(copies.valid, TxEscalator.Executed(copies.order, n)) then old(sessions) + [e]
              else old(sessions)
    {
      var used, k := false, 0;
      while k < TxEscalator.Executed(copies.order, n)
        invariant 0 <= k <= TxEscalator.Executed(copies.order, n)
        invariant used == ChainOpen.Used(copies.valid, k)
        invariant sessions == if used then old(sessions) + [e] else old(sessions)
      {
        if copies.valid(k) && !used {
          sessions := sessions + [e];
          used := true;
        }
        k := k + 1;
      }
    }

    method OpenSession(b: Bid, amount: int, r: ChainOpen.OpenReplies) returns (ok: bool)
      modifies this
      ensures entered == old(entered) + [Entry(b, amount)]
      ensures sessions == if ChainOpen.Opened(amount, r) then old(sessions) + [Entry(b, amount)] else old(sessions)
      ensures ok <==> ChainOpen.OpenOk(amount, r)
    {
      entered := entered + [Entry(b, amount)];
      var handed;
      ok, handed := ChainOpen.OpenSession(amount, r);
      Execute(Entry(b, amount), r.copies, handed);
    }

    method TryOpenSession(rq: Request, b: Bid, r: Replies) returns (t: Try)
      modifies this
      ensures t == TryResult(rq, b, r)
      ensures entered == old(entered) + EntriesOf(rq, b, r) && sessions == old(sessions) + OpenedOf(rq, b, r)
      ensures t.TryNext? ==> entered == old(entered) && sessions == old(sessions)
    {
      if !r.providerOk { return GiveUp(NoProvider); }
      if r.ping.None? { return TryNext(PingFailed); }
      var class_ := ClassifyModelHealth(r.ping.value, b.modelId);
      if class_ == Blocked { return TryNext(ModelUnhealthy); }
      if rq.isTee {
        if !r.teeOk { return TryNext(TeeFailed); }
      }
      var amount := rq.amount(b);
      if amount.None? { return GiveUp(Unpriceable); }
      if !r.initiateOk { return TryNext(InitiateFailed); }
      var ok := OpenSession(b, amount.value, r.open);
      if !ok { return GiveUp(OpenFailed); }
      t := Opened(r.open.hash);
    }
  }

  lemma TryNextBeforeChain(rq: Request, b: Bid, r: Replies)
    ensures TryResult(rq, b, r).TryNext? ==> !ReachesChain(rq, b, r)
    ensures TryResult(rq, b, r).Opened? ==> ReachesChain(rq, b, r) && OpenedOf(rq, b, r) != []
  {
    if rq.amount(b).Some? { ChainOpen.ReportExact(rq.amount(b).value, r.open); }
  }

  // ---- hard filters ----

  predicate Affordable(rq: Request, b: Bid)
  {
    rq.balance.None? || rq.amount(b).None? || rq.amount(b).value <= rq.balance.value
  }

  predicate Eligible(rq: Request, b: Bid)
  {
    b.provider != rq.omit && b.provider != rq.me && Affordable(rq, b)
  }

  /** The bids that must show up in the failure report when nothing could be opened. */
  predicate Recorded(rq: Request, b: Bid)
  {
    b.provider == rq.omit || b.provider != rq.me
  }

  function Eligibles(rq: Request, bids: seq<Bid>): seq<Bid>
  {
    if bids == [] then []
    else
      var before := Eligibles(rq, bids[..|bids| - 1]);
      if Eligible(rq, bids[|bids| - 1]) then before + [bids[|bids| - 1]] else before
  }

  /** How often each provider is bid for by bids that must be recorded. */
  function Tally(rq: Request, bids: seq<Bid>): multiset<Address>
  {
    if bids == [] then multiset{}
    else
      var before := Tally(rq, bids[..|bids| - 1]);
      if Recorded(rq, bids[|bids| - 1]) then before + multiset{bids[|bids| - 1].provider} else before
  }

  function FailureTally(fs: seq<Failure>): multiset<Address>
  {
    if fs == [] then multiset{} else FailureTally(fs[..|fs| - 1]) + multiset{fs[|fs| - 1].provider}
  }

  lemma FailureAdded(fs: seq<Failure>, f: Failure)
    ensures FailureTally(fs + [f]) == FailureTally(fs) + multiset{f.provider}
  {
    assert (fs + [f])[..|fs|] == fs;
  }

  lemma TallyAdded(rq: Request, bids: seq<Bid>, k: nat)
    requires k < |bids|
    ensures Tally(rq, bids[..k + 1])
         == if Recorded(rq, bids[k]) then Tally(rq, bids[..k]) + multiset{bids[k].provider} else Tally(rq, bids[..k])
  {
    assert bids[..k + 1][..k] == bids[..k];
  }

  lemma EligiblesAdded(rq: Request, bids: seq<Bid>, k: nat)
    requires k < |bids|
    ensures Eligibles(rq, bids[..k + 1])
         == if Eligible(rq, bids[k]) then Eligibles(rq, bids[..k]) + [bids[k]] else Eligibles(rq, bids[..k])
  {
    assert bids[..k + 1][..k] == bids[..k];
  }

  lemma {:induction false} EligibleMember(rq: Request, bids: seq<Bid>, b: Bid)
    ensures b in Eligibles(rq, bids) <==> b in bids && Eligible(rq, b)
  {
    if bids != [] {
      assert bids == bids[..|bids| - 1] + [bids[|bids| - 1]];
      EligibleMember(rq, bids[..|bids| - 1], b);
    }
  }

  function ProvidersOf(bids: seq<Bid>): set<Address>
  {
    set b | b in bids :: b.provider
  }

  lemma ProvidersAdded(bids: seq<Bid>, b: Bid)
    ensures ProvidersOf(bids + [b]) == ProvidersOf(bids) + {b.provider}
  {
    assert b in bids + [b];
    forall p | p in ProvidersOf(bids) ensures p in ProvidersOf(bids + [b]) {
      var c :| c in bids && c.provider == p;
      assert c in bids + [b];
    }
  }

  lemma TallySnoc(rq: Request, bids: seq<Bid>, b: Bid)
    ensures Tally(rq, bids + [b]) == if Recorded(rq, b) then Tally(rq, bids) + multiset{b.provider} else Tally(rq, bids)
  {
    assert (bids + [b])[..|bids|] == bids;
  }

  /** The failures recorded and the candidates kept so far account for all bids seen. */
  ghost predicate Accounted(rq: Request, seen: multiset<Address>, kept: seq<Bid>, failures: seq<Failure>)
  {
    FailureTally(failures) + Tally(rq, kept) == seen
  }

  lemma AccountedFailure(rq: Request, seen: multiset<Address>, kept: seq<Bid>, failures: seq<Failure>, f: Failure)
    requires Accounted(rq, seen, kept, failures)
    ensures Accounted(rq, seen + multiset{f.provider}, kept, failures + [f])
  {
    FailureAdded(failures, f);
    var a, b, c := FailureTally(failures), Tally(rq, kept), multiset{f.provider};
    assert (a + c) + b == (a + b) + c;
  }

  lemma AccountedKept(rq: Request, seen: multiset<Address>, kept: seq<Bid>, failures: seq<Failure>, b: Bid)
    requires Accounted(rq, seen, kept, failures) && Recorded(rq, b)
    ensures Accounted(rq, seen + multiset{b.provider}, kept + [b], failures)
  {
    TallySnoc(rq, kept, b);
    var f, t, c := FailureTally(failures), Tally(rq, kept), multiset{b.provider};
    assert f + (t + c) == (f + t) + c;
  }

  /** What the hard filter decides on one bid. */
  datatype Filtered = Keep | Silent | Fail(reason: Reason)

  function FilterOf(rq: Request, b: Bid): Filtered
  {
    if b.provider == rq.omit then Fail(Omitted)
    else if b.provider == rq.me then Silent
    else if Affordable(rq, b) then Keep
    else Fail(Unaffordable)
  }

  method FilterBid(rq: Request, bid: Bid) returns (d: Filtered)
    ensures d == FilterOf(rq, bid)
  {
    if bid.provider == rq.omit {
      return Fail(Omitted);
    }
    if bid.provider == rq.me {
      return Silent;
    }
    if rq.balance.Some? {
      var amount := rq.amount(bid);
      if amount.Some? && amount.value > rq.balance.value {
        return Fail(Unaffordable);
      }
    }
    d := Keep;
  }

  lemma FilterMeaning(rq: Request, b: Bid)
    ensures FilterOf(rq, b).Keep? <==> Eligible(rq, b)
    ensures FilterOf(rq, b).Silent? <==> !Recorded(rq, b)
  {
  }

  method HardFilter(rq: Request, scored: seq<Bid>)
    returns (candidates: seq<Bid>, providers: set<Address>, failures: seq<Failure>)
    ensures candidates == Eligibles(rq, scored)
    ensures providers == ProvidersOf(candidates)
    ensures FailureTally(failures) + Tally(rq, candidates) == Tally(rq, scored)
  {
    candidates, providers, failures := [], {}, [];
    ghost var seen: multiset<Address> := multiset{};
    var i := 0;
    while i < |scored|
      invariant 0 <= i <= |scored|
      invariant candidates == Eligibles(rq, scored[..i]) && providers == ProvidersOf(candidates)
      invariant seen == Tally(rq, scored[..i]) && Accounted(rq, seen, candidates, failures)
    {
      var bid := scored[i];
      TallyAdded(rq, scored, i);
      EligiblesAdded(rq, scored, i);
      FilterMeaning(rq, bid);
      var d := FilterBid(rq, bid);
      match d {
        case Fail(reason) =>
          AccountedFailure(rq, seen, candidates, failures, Failure(bid.provider, reason));
          failures := failures + [Failure(bid.provider, reason)];
          seen := seen + multiset{bid.provider};
        case Silent =>
        case Keep =>
          AccountedKept(rq, seen, candidates, failures, bid);
          ProvidersAdded(candidates, bid);
          candidates := candidates + [bid];
          providers := providers + {bid.provider};
          seen := seen + multiset{bid.provider};
      }
      i := i + 1;
    }
    assert scored[..i] == scored;
  }

  // ---- health policy ----

  /** The candidates whose flag is set, in order. */
  function Flagged(bids: seq<Bid>, keep: seq<bool>): seq<Bid>
    requires |bids| == |keep|
  {
    if bids == [] then []
    else
      var before := Flagged(bids[..|bids| - 1], keep[..|bids| - 1]);
      if keep[|bids| - 1] then before + [bids[|bids| - 1]] else before
  }

  /** Preferred and strict apply only when at least two providers are left. */
  function EffectivePolicy(policy: Policy, providers: set<Address>): Policy
  {
    if policy == OtherPolicy([]) || |providers| <= 1 then Permissive else policy
  }

  function KeepFlags(policy: Policy, classes: seq<HealthClass>): (keep: seq<bool>)
    ensures |keep| == |classes|
  {
    seq(|classes|, i requires 0 <= i < |classes| => Kept(policy, AnyServiceable(classes), classes[i]))
  }

  /** What the attempts see. `classes` are the healthcheck results of the candidates. */
  function KeptBids(policy: Policy, candidates: seq<Bid>, classes: seq<HealthClass>): seq<Bid>
    requires |classes| == |candidates|
  {
    if policy == Permissive then candidates
    else Flagged(candidates, KeepFlags(policy, classes))
  }

  lemma {:induction false} FlaggedMember(bids: seq<Bid>, keep: seq<bool>, b: Bid)
    requires |bids| == |keep|
    ensures b in Flagged(bids, keep) ==> b in bids
  {
    if bids != [] {
      assert bids == bids[..|bids| - 1] + [bids[|bids| - 1]];
      FlaggedMember(bids[..|bids| - 1], keep[..|bids| - 1], b);
    }
  }

  lemma FlaggedAdded(bids: seq<Bid>, keep: seq<bool>, k: nat)
    requires |bids| == |keep| && k < |bids|
    ensures Flagged(bids[..k + 1], keep[..k + 1])
         == if keep[k] then Flagged(bids[..k], keep[..k]) + [bids[k]] else Flagged(bids[..k], keep[..k])
  {
    assert bids[..k + 1][..k] == bids[..k] && keep[..k + 1][..k] == keep[..k];
  }

  method SkipUnkept(rq: Request, candidates: seq<Bid>, keep: seq<bool>, fs: seq<Failure>)
    returns (kept: seq<Bid>, failures: seq<Failure>)
    requires |keep| == |candidates|
    requires forall i :: 0 <= i < |candidates| ==> Eligible(rq, candidates[i])
    ensures kept == Flagged(candidates, keep)
    ensures FailureTally(failures) + Tally(rq, kept) == FailureTally(fs) + Tally(rq, candidates)
  {
    failures, kept := fs, [];
    ghost var before := FailureTally(fs);
    var i := 0;
    while i < |candidates|
      invariant 0 <= i <= |candidates|
      invariant kept == Flagged(candidates[..i], keep[..i])
      invariant Accounted(rq, Seen(rq, before, candidates, i), kept, failures)
    {
      var bid := candidates[i];
      FlaggedAdded(candidates, keep, i);
      SeenNext(rq, before, candidates, i);
      if keep[i] {
        AccountedKept(rq, Seen(rq, before, candidates, i), kept, failures, bid);
        kept := kept + [bid];
      } else {
        AccountedFailure(rq, Seen(rq, before, candidates, i), kept, failures, Failure(bid.provider, SkippedByHealth));
        failures := failures + [Failure(bid.provider, SkippedByHealth)];
      }
      i := i + 1;
    }
    assert candidates[..i] == candidates && keep[..i] == keep;
  }

  /** What was recorded before, and the providers of the first i bids. */
  function Seen(rq: Request, before: multiset<Address>, bids: seq<Bid>, i: nat): multiset<Address>
    requires i <= |bids|
  {
    before + Tally(rq, bids[..i])
  }

  lemma SeenNext(rq: Request, before: multiset<Address>, bids: seq<Bid>, i: nat)
    requires i < |bids| && Recorded(rq, bids[i])
    ensures Seen(rq, before, bids, i + 1) == Seen(rq, before, bids, i) + multiset{bids[i].provider}
  {
    TallyAdded(rq, bids, i);
    var t, p := Tally(rq, bids[..i]), multiset{bids[i].provider};
    assert before + (t + p) == (before + t) + p;
  }

  method PolicyFilter(rq: Request, policy: Policy, candidates: seq<Bid>, classes: seq<HealthClass>, fs: seq<Failure>)
    returns (kept: seq<Bid>, failures: seq<Failure>)
    requires |classes| == |candidates|
    requires forall b :: b in candidates ==> Eligible(rq, b)
    ensures kept == KeptBids(policy, candidates, classes)
    ensures FailureTally(failures) + Tally(rq, kept) == FailureTally(fs) + Tally(rq, candidates)
  {
    if policy == Permissive {
      return candidates, fs;
    }
    var keep, fallback := ApplyHealthPolicy(policy, classes);
    assert keep == KeepFlags(policy, classes);
    kept, failures := SkipUnkept(rq, candidates, keep, fs);
  }

  // ---- the failover loop ----

  datatype Outcome = Success(hash: Bytes) | Aborted(reason: Reason) | NoneAccepted(failures: seq<Failure>)

  /** What each attempt would return. */
  function Tries(rq: Request, kept: seq<Bid>, replies: nat -> Replies): (ts: seq<Try>)
    ensures |ts| == |kept|
  {
    seq(|kept|, i requires 0 <= i < |kept| => TryResult(rq, kept[i], replies(i)))
  }

  /** The index of the first attempt from k on that does not pass on to the next provider. */
  function FirstStop(ts: seq<Try>, k: nat): (i: nat)
    requires k <= |ts|
    ensures k <= i <= |ts|
    decreases |ts| - k
  {
    if k < |ts| && ts[k].TryNext? then FirstStop(ts, k + 1) else k
  }

  lemma {:induction false} FirstStopMeans(ts: seq<Try>, k: nat)
    requires k <= |ts|
    ensures var i := FirstStop(ts, k);
            && (i < |ts| ==> !ts[i].TryNext?)
            && forall j :: k <= j < i ==> ts[j].TryNext?
    decreases |ts| - k
  {
    if k < |ts| && ts[k].TryNext? {
      FirstStopMeans(ts, k + 1);
    }
  }

  /** The outcome, the entries into OpenSession and the sessions opened, for every combination of replies. */
  ghost predicate LoopSpec(rq: Request, kept: seq<Bid>, replies: nat -> Replies, out: Outcome, entries: seq<Entry>,
                           sessions: seq<Entry>)
  {
    var i := FirstStop(Tries(rq, kept, replies), 0);
    if i == |kept| then out.NoneAccepted? && entries == [] && sessions == []
    else
      && entries == EntriesOf(rq, kept[i], replies(i)) && sessions == OpenedOf(rq, kept[i], replies(i))
      && out == StopOutcome(TryResult(rq, kept[i], replies(i)))
  }

  function StopOutcome(t: Try): Outcome
  {
    match t
    case Opened(hash) => Success(hash)
    case GiveUp(reason) => Aborted(reason)
    case TryNext(reason) => Aborted(reason)
  }

  /** The first i attempts pass on to the next provider. */
  ghost predicate AllPass(rq: Request, kept: seq<Bid>, replies: nat -> Replies, i: nat)
    requires i <= |kept|
  {
    FirstStop(Tries(rq, kept, replies), 0) == FirstStop(Tries(rq, kept, replies), i)
  }

  /** Attempt number i, all earlier ones having passed on. */
  method TryNth(chain: Chain, rq: Request, kept: seq<Bid>, replies: nat -> Replies, i: nat)
    returns (t: Try, ghost entries: seq<Entry>, ghost sessions: seq<Entry>)
    requires i < |kept| && AllPass(rq, kept, replies, i)
    modifies chain
    ensures chain.entered == old(chain.entered) + entries && chain.sessions == old(chain.sessions) + sessions
    ensures t.TryNext? ==> entries == sessions == [] && AllPass(rq, kept, replies, i + 1)
    ensures !t.TryNext? ==> LoopSpec(rq, kept, replies, StopOutcome(t), entries, sessions)
  {
    t := chain.TryOpenSession(rq, kept[i], replies(i));
    assert t == Tries(rq, kept, replies)[i];
    entries, sessions := EntriesOf(rq, kept[i], replies(i)), OpenedOf(rq, kept[i], replies(i));
    TryNextBeforeChain(rq, kept[i], replies(i));
  }

  /** The failures are those recorded before and one for each of the first i bids. */
  ghost predicate Follows(fs: seq<Failure>, kept: seq<Bid>, i: nat, failures: seq<Failure>)
    requires i <= |kept|
  {
    && |failures| == |fs| + i && failures[..|fs|] == fs
    && forall j :: 0 <= j < i ==> failures[|fs| + j].provider == kept[j].provider
  }

  lemma {:induction false} FollowsTally(rq: Request, fs: seq<Failure>, kept: seq<Bid>, failures: seq<Failure>)
    requires Follows(fs, kept, |kept|, failures)
    requires forall i :: 0 <= i < |kept| ==> Eligible(rq, kept[i])
    ensures FailureTally(failures) == FailureTally(fs) + Tally(rq, kept)
    decreases |kept|
  {
    if kept == [] {
      assert failures == fs;
    } else {
      FollowsTally(rq, fs, kept[..|kept| - 1], failures[..|failures| - 1]);
    }
  }

  method Failover(chain: Chain, rq: Request, kept: seq<Bid>, replies: nat -> Replies, fs: seq<Failure>)
    returns (out: Outcome, ghost entries: seq<Entry>, ghost sessions: seq<Entry>)
    requires forall i :: 0 <= i < |kept| ==> Eligible(rq, kept[i])
    modifies chain
    ensures chain.entered == old(chain.entered) + entries && chain.sessions == old(chain.sessions) + sessions
    ensures LoopSpec(rq, kept, replies, out, entries, sessions)
    ensures out.NoneAccepted? ==> FailureTally(out.failures) == FailureTally(fs) + Tally(rq, kept)
  {
    var failures := fs;
    entries, sessions := [], [];
    var i := 0;
    while i < |kept|
      invariant 0 <= i <= |kept|
      invariant chain.entered == old(chain.entered) && chain.sessions == old(chain.sessions)
      invariant entries == sessions == []
      invariant AllPass(rq, kept, replies, i)
      invariant Follows(fs, kept, i, failures)
    {
      var t;
      t, entries, sessions := TryNth(chain, rq, kept, replies, i);
      if !t.TryNext? {
        out := StopOutcome(t);
        return;
      }
      failures := failures + [Failure(kept[i].provider, t.reason)];
      i := i + 1;
    }
    FollowsTally(rq, fs, kept, failures);
    out := NoneAccepted(failures);
  }


  /** The healthcheck results of the candidates; `probe(i)` is the reply of the i-th. */
  function Classes(candidates: seq<Bid>, probe: nat -> HealthClass): (classes: seq<HealthClass>)
    ensures |classes| == |candidates|
  {
    seq(|candidates|, i requires 0 <= i < |candidates| => probe(i))
  }

  /** What the attempts of one open request are made on. */
  function Attempted(rq: Request, policy: Policy, scored: seq<Bid>, probe: nat -> HealthClass): seq<Bid>
  {
    var candidates := Eligibles(rq, scored);
    KeptBids(EffectivePolicy(policy, ProvidersOf(candidates)), candidates, Classes(candidates, probe))
  }

  /** `scored` are the rated bids, best first. */
  method OpenSessionByModelId(chain: Chain, rq: Request, policy: Policy, scored: seq<Bid>, probe: nat -> HealthClass,
                              replies: nat -> Replies)
    returns (out: Outcome, ghost entries: seq<Entry>, ghost sessions: seq<Entry>)
    modifies chain
    ensures chain.entered == old(chain.entered) + entries && chain.sessions == old(chain.sessions) + sessions
    ensures LoopSpec(rq, Attempted(rq, policy, scored, probe), replies, out, entries, sessions)
    ensures out.NoneAccepted? ==> FailureTally(out.failures) == Tally(rq, scored)
  {
    var candidates, providers, failures := HardFilter(rq, scored);
    forall b | b in candidates ensures Eligible(rq, b) {
      EligibleMember(rq, scored, b);
    }
    var effective := policy;
    if effective == OtherPolicy([]) {
      effective := Permissive;
    }
    if effective != Permissive && |providers| <= 1 {
      effective := Permissive;
    }
    assert effective == EffectivePolicy(policy, providers);
    var kept;
    kept, failures := PolicyFilter(rq, effective, candidates, Classes(candidates, probe), failures);
    forall i | 0 <= i < |kept| ensures Eligible(rq, kept[i]) {
      AttemptedEligible(rq, policy, scored, probe, kept[i]);
    }
    out, entries, sessions := Failover(chain, rq, kept, replies, failures);
  }

  // ---- what every run keeps ----

  lemma {:induction false} FlaggedAt(bids: seq<Bid>, keep: seq<bool>, b: Bid) returns (i: nat)
    requires |bids| == |keep| && b in Flagged(bids, keep)
    ensures i < |bids| && bids[i] == b && keep[i]
  {
    i := |bids| - 1;
    if !keep[i] || bids[i] != b {
      i := FlaggedAt(bids[..i], keep[..i], b);
    }
  }

  /** Unless the policy gives way, no attempt is made on a bid whose healthcheck found it blocked or unreachable; a
      strict policy attempts healthy ones only, and a preferred one unknown ones only when none is serviceable. */
  lemma PolicyRespected(rq: Request, policy: Policy, scored: seq<Bid>, probe: nat -> HealthClass, b: Bid)
    returns (i: nat)
    requires b in Attempted(rq, policy, scored, probe)
    requires EffectivePolicy(policy, ProvidersOf(Eligibles(rq, scored))) != Permissive
    ensures i < |Eligibles(rq, scored)| && Eligibles(rq, scored)[i] == b
    ensures probe(i) != Blocked && probe(i) != Unreachable
    ensures policy == Strict ==> probe(i) == Healthy
    ensures policy == Preferred && probe(i) == Unknown ==>
              forall j :: 0 <= j < |Eligibles(rq, scored)| ==> !Serviceable(probe(j))
  {
    var candidates := Eligibles(rq, scored);
    var classes := Classes(candidates, probe);
    i := FlaggedAt(candidates, KeepFlags(policy, classes), b);
    assert Kept(policy, AnyServiceable(classes), probe(i));
    if policy == Preferred && probe(i) == Unknown {
      forall j | 0 <= j < |candidates| ensures !Serviceable(probe(j)) {
        assert classes[j] == probe(j);
      }
    }
  }

  lemma AttemptedEligible(rq: Request, policy: Policy, scored: seq<Bid>, probe: nat -> HealthClass, b: Bid)
    requires b in Attempted(rq, policy, scored, probe)
    ensures b in scored && Eligible(rq, b)
  {
    var candidates := Eligibles(rq, scored);
    var effective := EffectivePolicy(policy, ProvidersOf(candidates));
    if effective != Permissive {
      FlaggedMember(candidates, KeepFlags(effective, Classes(candidates, probe)), b);
    }
    EligibleMember(rq, scored, b);
  }

  /** For all replies, of the providers, the node and the chain alike: the on-chain open is entered at most once and
      at most one session is opened, only for a scored bid that is neither the user's own nor of the omitted provider
      nor priced above a readable balance, with exactly that bid's amount; a success is the first attempted bid that
      did not pass on, all earlier ones having failed before the chain; and when nothing was accepted the chain was
      not entered at all. */
  lemma AtMostOneOpen(rq: Request, policy: Policy, scored: seq<Bid>, probe: nat -> HealthClass, replies: nat -> Replies,
                      out: Outcome, entries: seq<Entry>, sessions: seq<Entry>)
    requires LoopSpec(rq, Attempted(rq, policy, scored, probe), replies, out, entries, sessions)
    ensures |entries| <= 1 && sessions <= entries
    ensures forall e :: e in entries ==>
              && e.bid in scored && e.bid.provider != rq.me && e.bid.provider != rq.omit
              && rq.amount(e.bid) == Some(e.amount)
              && (rq.balance.Some? ==> e.amount <= rq.balance.value)
    ensures out.Success? ==>
              var kept := Attempted(rq, policy, scored, probe);
              var i := FirstStop(Tries(rq, kept, replies), 0);
              && i < |kept| && |sessions| == 1 && sessions[0].bid == kept[i]
              && TryResult(rq, kept[i], replies(i)) == Opened(out.hash)
              && forall j :: 0 <= j < i ==> !ReachesChain(rq, kept[j], replies(j))
    ensures out.NoneAccepted? ==> entries == []
  {
    var kept := Attempted(rq, policy, scored, probe);
    var i := FirstStop(Tries(rq, kept, replies), 0);
    FirstStopMeans(Tries(rq, kept, replies), 0);
    if i < |kept| {
      AttemptedEligible(rq, policy, scored, probe, kept[i]);
      TryNextBeforeChain(rq, kept[i], replies(i));
      forall j | 0 <= j < i ensures !ReachesChain(rq, kept[j], replies(j)) {
        assert Tries(rq, kept, replies)[j].TryNext?;
        TryNextBeforeChain(rq, kept[j], replies(j));
      }
    }
  }

  /** The attempt has the chain open a session that the node does not learn of: no receipt came back, or that of another
      copy, or a step after the receipt failed. */
  predicate Unnoticed(rq: Request, b: Bid, r: Replies)
  {
    && ReachesChain(rq, b, r) && ChainOpen.Opened(rq.amount(b).value, r.open)
    && !ChainOpen.Told(rq.amount(b).value, r.open)
  }

  /** The request fails although a session was opened exactly when the attempt it stopped at opened one unnoticed. Then
      it reports a failed open, so every other failure means that there is no session. */
  lemma OpenedBehindFailure(rq: Request, kept: seq<Bid>, replies: nat -> Replies, out: Outcome, entries: seq<Entry>,
                            sessions: seq<Entry>)
    requires LoopSpec(rq, kept, replies, out, entries, sessions)
    ensures var i := FirstStop(Tries(rq, kept, replies), 0);
            !out.Success? && sessions != [] <==> i < |kept| && Unnoticed(rq, kept[i], replies(i))
    ensures !out.Success? && sessions != [] ==> out == Aborted(OpenFailed)
  {
    var i := FirstStop(Tries(rq, kept, replies), 0);
    FirstStopMeans(Tries(rq, kept, replies), 0);
    if i < |kept| && ReachesChain(rq, kept[i], replies(i)) {
      ChainOpen.ReportExact(rq.amount(kept[i]).value, replies(i).open);
    }
  }

  // ---- score order ----

  /** The bids of a, in the places `at` of b. */
  ghost predicate Embeds(a: seq<Bid>, b: seq<Bid>, at: seq<nat>)
  {
    && |at| == |a|
    && (forall i :: 0 <= i < |a| ==> at[i] < |b| && a[i] == b[at[i]])
    && (forall i, j :: 0 <= i < j < |at| ==> at[i] < at[j])
  }

  lemma EmbedLater(a: seq<Bid>, b: seq<Bid>, at: seq<nat>)
    requires b != [] && Embeds(a, b[..|b| - 1], at)
    ensures Embeds(a, b, at)
  {
    var before := b[..|b| - 1];
    assert forall i :: 0 <= i < |a| ==> before[at[i]] == b[at[i]];
  }

  lemma EmbedLast(a: seq<Bid>, b: seq<Bid>, at: seq<nat>)
    requires b != [] && Embeds(a, b[..|b| - 1], at)
    ensures Embeds(a + [b[|b| - 1]], b, at + [|b| - 1])
  {
    EmbedLater(a, b, at);
    var a', at' := a + [b[|b| - 1]], at + [|b| - 1];
    forall i | 0 <= i < |a'| ensures at'[i] < |b| && a'[i] == b[at'[i]] {
      if i < |a| { assert a'[i] == a[i] && at'[i] == at[i]; }
    }
  }

  lemma EmbedCompose(a: seq<Bid>, b: seq<Bid>, c: seq<Bid>, ab: seq<nat>, bc: seq<nat>) returns (ac: seq<nat>)
    requires Embeds(a, b, ab) && Embeds(b, c, bc)
    ensures Embeds(a, c, ac)
  {
    ac := seq(|ab|, i requires 0 <= i < |ab| => bc[ab[i]]);
  }

  lemma {:induction false} EligiblesEmbed(rq: Request, bids: seq<Bid>) returns (at: seq<nat>)
    ensures Embeds(Eligibles(rq, bids), bids, at)
  {
    at := [];
    if bids != [] {
      at := EligiblesEmbed(rq, bids[..|bids| - 1]);
      if Eligible(rq, bids[|bids| - 1]) {
        EmbedLast(Eligibles(rq, bids[..|bids| - 1]), bids, at);
        at := at + [|bids| - 1];
      } else {
        EmbedLater(Eligibles(rq, bids[..|bids| - 1]), bids, at);
      }
    }
  }

  lemma {:induction false} FlaggedEmbed(bids: seq<Bid>, keep: seq<bool>) returns (at: seq<nat>)
    requires |bids| == |keep|
    ensures Embeds(Flagged(bids, keep), bids, at)
  {
    at := [];
    if bids != [] {
      at := FlaggedEmbed(bids[..|bids| - 1], keep[..|bids| - 1]);
      var before := Flagged(bids[..|bids| - 1], keep[..|bids| - 1]);
      if keep[|bids| - 1] {
        EmbedLast(before, bids, at);
        at := at + [|bids| - 1];
      } else {
        EmbedLater(before, bids, at);
      }
    }
  }

  /** The attempts keep the order of the scored bids. */
  lemma AttemptedEmbed(rq: Request, policy: Policy, scored: seq<Bid>, probe: nat -> HealthClass) returns (at: seq<nat>)
    ensures Embeds(Attempted(rq, policy, scored, probe), scored, at)
  {
    var candidates := Eligibles(rq, scored);
    var effective := EffectivePolicy(policy, ProvidersOf(candidates));
    at := EligiblesEmbed(rq, scored);
    if effective != Permissive {
      var inner := FlaggedEmbed(candidates, KeepFlags(effective, Classes(candidates, probe)));
      at := EmbedCompose(Attempted(rq, policy, scored, probe), candidates, scored, inner, at);
    }
  }
}
