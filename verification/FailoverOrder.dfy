/** What the failover of an open request does, said without the functions it is computed by: which bids are attempted,
    which failures pass on to the next one, and what is reported. */
module FailoverOrder {
  import opened Bids
  import opened ByteStrings
  import ChainOpen
  import opened HealthPolicy
  import opened SessionOpening

  // ---- a provider's own report ----

  /** Report i is the first on the model. */
  ghost predicate FirstOn(reports: seq<Report>, modelId: Bytes, i: nat)
  {
    && i < |reports| && Lower(reports[i].modelId) == Lower(modelId)
    && forall j :: 0 <= j < i ==> Lower(reports[j].modelId) != Lower(modelId)
  }

  /** The provider says that it could not serve the model. */
  ghost predicate Blocks(reports: seq<Report>, modelId: Bytes)
  {
    exists i: nat ::
      && FirstOn(reports, modelId, i)
      && reports[i].status in {Ascii("unhealthy"), Ascii("tee_unverified"), Ascii("no_model_configured")}
  }

  lemma {:induction false} FirstDecides(reports: seq<Report>, modelId: Bytes, i: nat)
    requires FirstOn(reports, modelId, i)
    ensures Classify(reports, modelId) == ClassOf(reports[i].status)
    decreases |reports|
  {
    if i > 0 {
      assert reports[0].modelId == reports[0].modelId && Lower(reports[0].modelId) != Lower(modelId);
      assert FirstOn(reports[1..], modelId, i - 1);
      FirstDecides(reports[1..], modelId, i - 1);
    }
  }

  lemma {:induction false} FirstExists(reports: seq<Report>, modelId: Bytes) returns (i: nat)
    ensures FirstOn(reports, modelId, i)
         || (i == |reports| && forall j :: 0 <= j < |reports| ==> Lower(reports[j].modelId) != Lower(modelId))
    ensures i == |reports| ==> Classify(reports, modelId) == Unknown
    decreases |reports|
  {
    if reports == [] || Lower(reports[0].modelId) == Lower(modelId) {
      i := 0;
    } else {
      i := FirstExists(reports[1..], modelId);
      i := i + 1;
    }
  }

  lemma StatusTexts()
    ensures ClassOf(Ascii("healthy")) == Healthy && ClassOf(Ascii("degraded")) == Degraded
    ensures ClassOf(Ascii("unhealthy")) == ClassOf(Ascii("tee_unverified")) == ClassOf(Ascii("no_model_configured"))
         == Blocked
  {
    assert Ascii("healthy")[0] == 104 && Ascii("degraded")[0] == 100 && Ascii("unhealthy")[0] == 117;
    assert Ascii("tee_unverified")[0] == 116 && Ascii("no_model_configured")[0] == 110;
  }

  /** The class of a report list: that of the first report on the model, by its text; anything else, and no report, is
      unknown. */
  lemma ClassMeans(reports: seq<Report>, modelId: Bytes)
    ensures Classify(reports, modelId) == Blocked <==> Blocks(reports, modelId)
    ensures Classify(reports, modelId) == Healthy <==>
              exists i: nat :: FirstOn(reports, modelId, i) && reports[i].status == Ascii("healthy")
    ensures Classify(reports, modelId) == Degraded <==>
              exists i: nat :: FirstOn(reports, modelId, i) && reports[i].status == Ascii("degraded")
    ensures Classify(reports, modelId) != Unreachable
  {
    StatusTexts();
    var i := FirstExists(reports, modelId);
    if i < |reports| {
      FirstDecides(reports, modelId, i);
      forall j | FirstOn(reports, modelId, j) ensures j == i {
      }
    }
  }

  // ---- which bids are attempted ----

  /** a holds exactly the elements of b at the wanted places, in their order. */
  ghost predicate Takes(a: seq<Bid>, b: seq<Bid>, wanted: nat -> bool)
  {
    exists at: seq<nat> :: Embeds(a, b, at) && forall k: nat :: k < |b| ==> (k in at <==> wanted(k))
  }

  lemma TakesNothing(wanted: nat -> bool)
    ensures Takes([], [], wanted)
  {
    var at: seq<nat> := [];
    assert Embeds([], [], at);
  }

  lemma TakesNext(a: seq<Bid>, b: seq<Bid>, wanted: nat -> bool)
    requires b != [] && Takes(a, b[..|b| - 1], wanted)
    ensures Takes(if wanted(|b| - 1) then a + [b[|b| - 1]] else a, b, wanted)
  {
    var n := |b| - 1;
    var before := b[..n];
    var at: seq<nat> :| Embeds(a, before, at) && forall k: nat :: k < n ==> (k in at <==> wanted(k));
    assert n !in at by { assert forall i :: 0 <= i < |at| ==> at[i] < |before|; }
    if wanted(n) {
      EmbedLast(a, b, at);
      var at' := at + [n];
      assert forall k: nat :: k < |b| ==> (k in at' <==> wanted(k));
      assert Takes(a + [b[n]], b, wanted);
    } else {
      EmbedLater(a, b, at);
      assert Takes(a, b, wanted);
    }
  }

  /** The hard filters: not the omitted provider, not the user itself, and not priced above a readable balance. */
  predicate Qualifies(rq: Request, b: Bid)
  {
    && b.provider != rq.omit && b.provider != rq.me
    && (rq.balance.Some? && rq.amount(b).Some? ==> rq.amount(b).value <= rq.balance.value)
  }

  function QualifiesAt(rq: Request, bids: seq<Bid>): nat -> bool
  {
    (k: nat) => k < |bids| && Qualifies(rq, bids[k])
  }

  /** The candidates are exactly the bids that qualify, in their order. */
  lemma {:induction false} CandidatesExact(rq: Request, scored: seq<Bid>)
    ensures Takes(Eligibles(rq, scored), scored, QualifiesAt(rq, scored))
  {
    if scored == [] {
      TakesNothing(QualifiesAt(rq, scored));
    } else {
      var before := scored[..|scored| - 1];
      CandidatesExact(rq, before);
      TakesAlike(Eligibles(rq, before), before, QualifiesAt(rq, before), QualifiesAt(rq, scored));
      TakesNext(Eligibles(rq, before), scored, QualifiesAt(rq, scored));
    }
  }

  lemma TakesAlike(a: seq<Bid>, b: seq<Bid>, wanted: nat -> bool, other: nat -> bool)
    requires Takes(a, b, wanted) && forall k: nat :: k < |b| ==> wanted(k) == other(k)
    ensures Takes(a, b, other)
  {
    var at: seq<nat> :| Embeds(a, b, at) && forall k: nat :: k < |b| ==> (k in at <==> wanted(k));
    assert forall k: nat :: k < |b| ==> (k in at <==> other(k));
  }

  lemma {:induction false} FlaggedExact(bids: seq<Bid>, keep: seq<bool>, wanted: nat -> bool)
    requires |bids| == |keep| && forall k: nat :: k < |bids| ==> keep[k] == wanted(k)
    ensures Takes(Flagged(bids, keep), bids, wanted)
  {
    if bids == [] {
      TakesNothing(wanted);
    } else {
      FlaggedExact(bids[..|bids| - 1], keep[..|bids| - 1], wanted);
      TakesNext(Flagged(bids[..|bids| - 1], keep[..|bids| - 1]), bids, wanted);
    }
  }

  /** The policy does not apply: it is permissive or unset, or no two candidates are of different providers. */
  ghost predicate GivesWay(policy: Policy, candidates: seq<Bid>)
  {
    || policy == Permissive || policy == OtherPolicy([])
    || forall b, c :: b in candidates && c in candidates ==> b.provider == c.provider
  }

  /** Some of the first n healthchecks found a serviceable model. */
  ghost predicate SomeServes(probe: nat -> HealthClass, n: nat)
  {
    exists j: nat :: j < n && (probe(j) == Healthy || probe(j) == Degraded)
  }

  /** A policy that applies wants a candidate with this healthcheck result. */
  predicate WantsClass(policy: Policy, someServes: bool, c: HealthClass)
  {
    && c != Blocked && c != Unreachable && (policy == Strict ==> c == Healthy)
    && (policy == Preferred ==> if someServes then c != Unknown else c == Unknown)
  }

  /** The places of the n candidates that are attempted. */
  function WantedAt(policy: Policy, givesWay: bool, someServes: bool, probe: nat -> HealthClass): nat -> bool
  {
    (k: nat) => givesWay || WantsClass(policy, someServes, probe(k))
  }

  lemma OneProvider(candidates: seq<Bid>)
    ensures |ProvidersOf(candidates)| <= 1 <==>
              forall b, c :: b in candidates && c in candidates ==> b.provider == c.provider
  {
    var ps := ProvidersOf(candidates);
    if |ps| <= 1 {
      forall b, c | b in candidates && c in candidates ensures b.provider == c.provider {
        if b.provider != c.provider { TwoElements(ps, b.provider, c.provider); }
      }
    } else {
      var p :| p in ps;
      var b :| b in candidates && b.provider == p;
      assert ps - {p} != {} by { assert |ps - {p}| == |ps| - 1; }
      var q :| q in ps - {p};
      var c :| c in candidates && c.provider == q;
    }
  }

  lemma TwoElements(ps: set<Address>, p: Address, q: Address)
    requires p in ps && q in ps && p != q
    ensures |ps| >= 2
  {
    assert |ps - {p}| == |ps| - 1 && q in ps - {p};
  }

  lemma WantedFlag(policy: Policy, candidates: seq<Bid>, probe: nat -> HealthClass, k: nat)
    requires k < |candidates|
    ensures KeepFlags(policy, Classes(candidates, probe))[k]
         == WantsClass(policy, SomeServes(probe, |candidates|), probe(k))
  {
    var classes := Classes(candidates, probe);
    assert forall j :: 0 <= j < |candidates| ==> classes[j] == probe(j);
    assert AnyServiceable(classes) <==> SomeServes(probe, |candidates|) by {
      if AnyServiceable(classes) {
        var j :| 0 <= j < |classes| && Serviceable(classes[j]);
        assert probe(j) == classes[j];
      }
      if SomeServes(probe, |candidates|) {
        var j: nat :| j < |candidates| && (probe(j) == Healthy || probe(j) == Degraded);
        assert Serviceable(classes[j]);
      }
    }
  }

  /** The attempts are made on exactly the candidates that a policy which applies wants, in their order, and on all
      of them when it gives way. */
  lemma AttemptedExact(rq: Request, policy: Policy, scored: seq<Bid>, probe: nat -> HealthClass)
    ensures var candidates := Eligibles(rq, scored);
            Takes(Attempted(rq, policy, scored, probe), candidates,
                  WantedAt(policy, GivesWay(policy, candidates), SomeServes(probe, |candidates|), probe))
  {
    var candidates := Eligibles(rq, scored);
    var way, serves := GivesWay(policy, candidates), SomeServes(probe, |candidates|);
    var wanted := WantedAt(policy, way, serves, probe);
    OneProvider(candidates);
    if way {
      TakesAll(candidates, wanted);
    } else {
      forall k: nat | k < |candidates| ensures KeepFlags(policy, Classes(candidates, probe))[k] == wanted(k) {
        WantedFlag(policy, candidates, probe, k);
      }
      FlaggedExact(candidates, KeepFlags(policy, Classes(candidates, probe)), wanted);
    }
  }

  lemma TakesAll(bids: seq<Bid>, wanted: nat -> bool)
    requires forall k: nat :: k < |bids| ==> wanted(k)
    ensures Takes(bids, bids, wanted)
  {
    var at: seq<nat> := seq(|bids|, i => i);
    assert Embeds(bids, bids, at);
    forall k: nat | k < |bids| ensures k in at {
      assert at[k] == k;
    }
  }

  // ---- the failure report ----

  function FailedProviders(fs: seq<Failure>): seq<Address>
  {
    seq(|fs|, i requires 0 <= i < |fs| => fs[i].provider)
  }

  function BidProviders(bids: seq<Bid>): seq<Address>
  {
    seq(|bids|, i requires 0 <= i < |bids| => bids[i].provider)
  }

  lemma {:induction false} FailureTallyMeans(fs: seq<Failure>)
    ensures FailureTally(fs) == multiset(FailedProviders(fs))
  {
    if fs != [] {
      FailureTallyMeans(fs[..|fs| - 1]);
      assert FailedProviders(fs) == FailedProviders(fs[..|fs| - 1]) + [fs[|fs| - 1].provider];
    }
  }

  lemma {:induction false} TallyMeans(rq: Request, bids: seq<Bid>, p: Address)
    ensures Tally(rq, bids)[p] == if p == rq.omit || p != rq.me then multiset(BidProviders(bids))[p] else 0
  {
    if bids != [] {
      TallyMeans(rq, bids[..|bids| - 1], p);
      assert BidProviders(bids) == BidProviders(bids[..|bids| - 1]) + [bids[|bids| - 1].provider];
    }
  }

  /** When nobody accepted, the report names each provider as often as it bids, the user itself not at all unless it is
      the omitted one. */
  lemma ReportNamesAll(rq: Request, scored: seq<Bid>, failures: seq<Failure>, p: Address)
    requires FailureTally(failures) == Tally(rq, scored)
    ensures multiset(FailedProviders(failures))[p]
         == if p == rq.me && p != rq.omit then 0 else multiset(BidProviders(scored))[p]
  {
    FailureTallyMeans(failures);
    TallyMeans(rq, scored, p);
  }

  // ---- one attempt ----

  /** The attempt fails in a way that passes on to the next provider: it does not answer the ping, reports the model as
      not serviceable, fails the attestation, or refuses to initiate a session at the computed price. */
  ghost predicate PassesOn(rq: Request, b: Bid, r: Replies)
  {
    && r.providerOk
    && (|| r.ping.None?
        || Blocks(r.ping.value, b.modelId)
        || (rq.isTee && !r.teeOk)
        || (rq.amount(b).Some? && !r.initiateOk))
  }

  /** The attempt gets as far as the on-chain open. */
  ghost predicate Enters(rq: Request, b: Bid, r: Replies)
  {
    && r.providerOk && r.ping.Some? && !Blocks(r.ping.value, b.modelId) && (rq.isTee ==> r.teeOk)
    && rq.amount(b).Some? && r.initiateOk
  }

  lemma AttemptMeans(rq: Request, b: Bid, r: Replies)
    ensures TryResult(rq, b, r).TryNext? <==> PassesOn(rq, b, r)
    ensures ReachesChain(rq, b, r) <==> Enters(rq, b, r)
    ensures !PassesOn(rq, b, r) && !Enters(rq, b, r) ==>
              TryResult(rq, b, r) == GiveUp(if r.providerOk then Unpriceable else NoProvider)
  {
    if r.ping.Some? { ClassMeans(r.ping.value, b.modelId); }
  }

  /** A failure that passes on names the first thing that went wrong; the filter names the omitted provider before it
      looks at the price. */
  lemma ReasonMeans(rq: Request, b: Bid, r: Replies)
    requires r.providerOk
    ensures TryResult(rq, b, r) == TryNext(PingFailed) <==> r.ping.None?
    ensures TryResult(rq, b, r) == TryNext(ModelUnhealthy) <==> r.ping.Some? && Blocks(r.ping.value, b.modelId)
    ensures TryResult(rq, b, r) == TryNext(TeeFailed) <==>
              r.ping.Some? && !Blocks(r.ping.value, b.modelId) && rq.isTee && !r.teeOk
    ensures FilterOf(rq, b) == Fail(Omitted) <==> b.provider == rq.omit
    ensures FilterOf(rq, b) == Fail(Unaffordable) <==>
              b.provider != rq.omit && b.provider != rq.me && !Qualifies(rq, b)
  {
    if r.ping.Some? { ClassMeans(r.ping.value, b.modelId); }
  }

  // ---- the whole request ----

  /** The first i attempts pass on, and the next one, if any, does not. */
  ghost predicate StopsAt(rq: Request, kept: seq<Bid>, replies: nat -> Replies, i: nat)
  {
    && i <= |kept| && (forall j :: 0 <= j < i ==> PassesOn(rq, kept[j], replies(j)))
    && (i < |kept| ==> !PassesOn(rq, kept[i], replies(i)))
  }

  lemma StopIs(rq: Request, kept: seq<Bid>, replies: nat -> Replies, i: nat)
    requires StopsAt(rq, kept, replies, i)
    ensures FirstStop(Tries(rq, kept, replies), 0) == i
  {
    var ts := Tries(rq, kept, replies);
    FirstStopMeans(ts, 0);
    var k := FirstStop(ts, 0);
    forall j | 0 <= j < |kept| ensures ts[j].TryNext? <==> PassesOn(rq, kept[j], replies(j)) {
      AttemptMeans(rq, kept[j], replies(j));
    }
  }

  /** The request goes past every attempt that passes on. The first one that does not decides: if it gets as far as the
      chain, it is the one entry, at the computed amount, and the request succeeds exactly when its open is reported;
      otherwise the request is aborted without an entry. */
  lemma FailsOver(rq: Request, kept: seq<Bid>, replies: nat -> Replies, i: nat, out: Outcome, entries: seq<Entry>,
                  sessions: seq<Entry>)
    requires LoopSpec(rq, kept, replies, out, entries, sessions) && StopsAt(rq, kept, replies, i)
    ensures i == |kept| ==> out.NoneAccepted? && entries == sessions == []
    ensures i < |kept| && Enters(rq, kept[i], replies(i)) ==>
              && entries == [Entry(kept[i], rq.amount(kept[i]).value)]
              && out == if ChainOpen.OpenOk(rq.amount(kept[i]).value, replies(i).open)
                        then Success(replies(i).open.hash) else Aborted(OpenFailed)
    ensures i < |kept| && !Enters(rq, kept[i], replies(i)) ==>
              entries == sessions == [] && out == Aborted(if replies(i).providerOk then Unpriceable else NoProvider)
  {
    StopIs(rq, kept, replies, i);
    if i < |kept| {
      AttemptMeans(rq, kept[i], replies(i));
    }
  }

  lemma {:induction false} SomeStop(rq: Request, kept: seq<Bid>, replies: nat -> Replies, k: nat) returns (i: nat)
    requires k <= |kept| && forall j :: 0 <= j < k ==> PassesOn(rq, kept[j], replies(j))
    ensures StopsAt(rq, kept, replies, i)
    decreases |kept| - k
  {
    i := k;
    if k < |kept| && PassesOn(rq, kept[k], replies(k)) {
      i := SomeStop(rq, kept, replies, k + 1);
    }
  }

  /** Nobody accepted exactly when every attempt passed on. */
  lemma NoneAcceptedIff(rq: Request, kept: seq<Bid>, replies: nat -> Replies, out: Outcome, entries: seq<Entry>,
                        sessions: seq<Entry>)
    requires LoopSpec(rq, kept, replies, out, entries, sessions)
    ensures out.NoneAccepted? <==> forall j :: 0 <= j < |kept| ==> PassesOn(rq, kept[j], replies(j))
  {
    var i := SomeStop(rq, kept, replies, 0);
    FailsOver(rq, kept, replies, i, out, entries, sessions);
  }
}
