/** The consumer-side attestation cache: full verification of a provider and the quick check
    before every prompt of a TEE session, over all interleavings. */
module ProviderVerifier {
  import opened ByteStrings
  import opened ReportData
  import opened BackendVerifier

  /** Replies to one full verification. */
  datatype Answers = Answers(fetched: Option<LiveQuote>, portal: Option<AttestationResult>, golden: Option<Golden>)

  datatype Entry = Entry(quoteHash: Bytes, tls: TlsBinding)

  /** Everything a full verification establishes. */
  predicate ProviderChecks(a: Answers)
  {
    && a.fetched.Some? && a.portal.Some? && a.portal.value.valid
    && VerifyTLSBinding(a.fetched.value.tls, a.portal.value.reportData).Some?
    && a.golden.Some? && RegistersMatch(a.portal.value, a.golden.value)
  }

  function EntryOf(hash: Digest, live: LiveQuote): Entry
  {
    Entry(hash(live.quote), live.tls)
  }

  /** What the quick check decides from the cached entry and the live quote. */
  datatype QuickChoice = QuickAccept | QuickReject | QuickFull

  function QuickDecision(hash: Digest, cached: Option<Entry>, live: Option<LiveQuote>): QuickChoice
  {
    match cached
    case None => QuickFull
    case Some(e) =>
      if live.None? then QuickReject
      else if hash(live.value.quote) != e.quoteHash then QuickFull
      else if !EqualFold(live.value.tls.certificate, e.tls.certificate) then
        if live.value.tls.spki != [] && EqualFold(live.value.tls.spki, e.tls.spki) then QuickFull else QuickReject
      else QuickAccept
  }

  predicate EntryMatches(hash: Digest, e: Entry, live: LiveQuote)
  {
    hash(live.quote) == e.quoteHash && EqualFold(live.tls.certificate, e.tls.certificate)
  }

  /** Nothing may be sent and nothing is tried: a cached provider does not answer, or shows the same quote behind
      another certificate with another key. */
  predicate QuickRefused(hash: Digest, cached: Option<Entry>, live: Option<LiveQuote>)
  {
    && cached.Some?
    && (live.None?
        || (&& hash(live.value.quote) == cached.value.quoteHash
            && !EqualFold(live.value.tls.certificate, cached.value.tls.certificate)
            && (live.value.tls.spki == [] || !EqualFold(live.value.tls.spki, cached.value.tls.spki))))
  }

  /** What a quick check of a TEE session must answer and leave in the cache. */
  ghost predicate QuickOutcome(hash: Digest, before: map<Bytes, Entry>, url: Bytes, live: Option<LiveQuote>,
                               version: Option<Bytes>, a: Answers, ok: bool, after: map<Bytes, Entry>)
  {
    var cached := if url in before then Some(before[url]) else None;
    if QuickRefused(hash, cached, live) then !ok && after == before
    else if cached.Some? && EntryMatches(hash, cached.value, live.value) then ok && after == before
    else FullOutcome(hash, before, url, version.Some? && version.value != [], a, ok, after)
  }

  /** A full verification: a reported version, a live quote, a valid portal verdict on it whose report data starts with
      a digest of the live certificate, and the golden register of its TEE type. */
  ghost predicate FullOutcome(hash: Digest, before: map<Bytes, Entry>, url: Bytes, pinged: bool, a: Answers, ok: bool,
                              after: map<Bytes, Entry>)
  {
    && (ok <==> && pinged && a.fetched.Some? && a.portal.Some? && a.portal.value.valid
                && VerifyTLSBinding(a.fetched.value.tls, a.portal.value.reportData).Some?
                && a.golden.Some? && OwnRegisterHolds(a.portal.value, a.golden.value))
    && after == if ok then before[url := Entry(hash(a.fetched.value.quote), a.fetched.value.tls)] else before
  }

  lemma QuickIs(hash: Digest, cached: Option<Entry>, live: Option<LiveQuote>)
    ensures QuickDecision(hash, cached, live)
         == if QuickRefused(hash, cached, live) then QuickReject
            else if cached.Some? && EntryMatches(hash, cached.value, live.value) then QuickAccept else QuickFull
  {
  }

  lemma FullIs(hash: Digest, before: map<Bytes, Entry>, url: Bytes, pinged: bool, a: Answers)
    ensures FullOutcome(hash, before, url, pinged, a, pinged && ProviderChecks(a),
                        if pinged && ProviderChecks(a) then before[url := EntryOf(hash, a.fetched.value)] else before)
  {
    if a.portal.Some? && a.golden.Some? { RegistersMatchMeans(a.portal.value, a.golden.value); }
  }

  /** The version the provider's ping reported; None also when no ping function is configured. */
  predicate PingOk(version: Option<Bytes>)
  {
    version.Some? && version.value != []
  }

  class QuoteVerifier {
    const hash: Digest
    var quoteCache: map<Bytes, Entry>

    constructor (hash: Digest)
      ensures quoteCache == map[] && this.hash == hash
    {
      this.hash := hash;
      quoteCache := map[];
    }

    method VerifyProvider(url: Option<Bytes>, a: Answers) returns (ok: bool)
      modifies this
      ensures ok <==> url.Some? && ProviderChecks(a)
      ensures quoteCache == if ok then old(quoteCache)[url.value := EntryOf(hash, a.fetched.value)] else old(quoteCache)
      ensures url.Some? ==> FullOutcome(hash, old(quoteCache), url.value, true, a, ok, quoteCache)
    {
      if url.Some? { FullIs(hash, quoteCache, url.value, true, a); }
      if url.None? { return false; }
      if a.fetched.None? { return false; }
      if a.portal.None? { return false; }
      if !a.portal.value.valid { return false; }
      var kind := VerifyTLSBinding(a.fetched.value.tls, a.portal.value.reportData);
      if kind.None? { return false; }
      if a.golden.None? { return false; }
      ok := CompareRegisters(a.portal.value, a.golden.value);
      if ok {
        quoteCache := quoteCache[url.value := Entry(hash(a.fetched.value.quote), a.fetched.value.tls)];
      }
    }

    method VerifyProviderQuick(url: Option<Bytes>, isTee: bool, live: Option<LiveQuote>, version: Option<Bytes>,
                               a: Answers)
      returns (ok: bool)
      modifies this
      ensures !isTee ==> ok && quoteCache == old(quoteCache)
      ensures isTee && url.None? ==> !ok && quoteCache == old(quoteCache)
      ensures isTee && url.Some? ==>
                var cached := if url.value in old(quoteCache) then Some(old(quoteCache)[url.value]) else None;
                && (ok <==> match QuickDecision(hash, cached, live)
                            case QuickAccept => true
                            case QuickReject => false
                            case QuickFull => PingOk(version) && ProviderChecks(a))
                && quoteCache == if QuickDecision(hash, cached, live) == QuickFull && ok
                                 then old(quoteCache)[url.value := EntryOf(hash, a.fetched.value)] else old(quoteCache)
      ensures isTee && url.Some? ==>
                QuickOutcome(hash, old(quoteCache), url.value, live, version, a, ok, quoteCache)
    {
      if isTee && url.Some? {
        QuickIs(hash, if url.value in quoteCache then Some(quoteCache[url.value]) else None, live);
        FullIs(hash, quoteCache, url.value, PingOk(version), a);
      }
      if !isTee { return true; }
      if url.None? { return false; }
      if url.value !in quoteCache {
        ok := FullVerifyWithPing(url.value, version, a);
        return;
      }
      var cached := quoteCache[url.value];
      if live.None? { return false; }
      if hash(live.value.quote) != cached.quoteHash {
        ok := FullVerifyWithPing(url.value, version, a);
        return;
      }
      if !EqualFold(live.value.tls.certificate, cached.tls.certificate) {
        if live.value.tls.spki != [] && EqualFold(live.value.tls.spki, cached.tls.spki) {
          ok := FullVerifyWithPing(url.value, version, a);
          return;
        }
        return false;
      }
      ok := true;
    }

    method FullVerifyWithPing(url: Bytes, version: Option<Bytes>, a: Answers) returns (ok: bool)
      modifies this
      ensures ok <==> PingOk(version) && ProviderChecks(a)
      ensures quoteCache == if ok then old(quoteCache)[url := EntryOf(hash, a.fetched.value)] else old(quoteCache)
    {
      if version.None? || version.value == [] { return false; }
      ok := VerifyProvider(Some(url), a);
    }
  }

  // ---- concurrent calls ----

  datatype Request = Quick(url: Bytes, isTee: bool) | Full(url: Bytes)

  datatype Progress =
    | Begun(request: Request)
    | Read(request: Request, cached: Option<Entry>)
    | Pinging(request: Request, cached: Option<Entry>, live: Option<LiveQuote>)
    | Verifying(request: Request, cached: Option<Entry>, live: Option<LiveQuote>)
    | Saving(request: Request, cached: Option<Entry>, live: Option<LiveQuote>, answers: Answers)
    | Finished(request: Request, cached: Option<Entry>, live: Option<LiveQuote>, verified: Option<Answers>, ok: bool)

  datatype Verified = Verified(url: Bytes, answers: Answers)

  datatype Node = Node(cache: map<Bytes, Entry>, calls: map<nat, Progress>, history: set<Verified>)

  datatype Wire = Wire(live: Option<LiveQuote>, version: Option<Bytes>, answers: Answers)

  /** What a full verification must establish; CHECKS for the code. The state machine is the same for all. */
  type Checks = Answers -> bool

  const CHECKS: Checks := (a: Answers) => ProviderChecks(a)

  function Progressed(hash: Digest, checks: Checks, cache: map<Bytes, Entry>, p: Progress, w: Wire)
    : (Progress, map<Bytes, Entry>)
  {
    match p
    case Begun(Quick(url, isTee)) =>
      if !isTee then (Finished(p.request, None, None, None, true), cache)
      else (Read(p.request, if url in cache then Some(cache[url]) else None), cache)
    case Begun(Full(_)) => (Verifying(p.request, None, None), cache)
    case Read(rq, cached) =>
      (match QuickDecision(hash, cached, w.live)
       case QuickAccept => Finished(rq, cached, w.live, None, true)
       case QuickReject => Finished(rq, cached, w.live, None, false)
       case QuickFull => Pinging(rq, cached, w.live), cache)
    case Pinging(rq, cached, live) =>
      (if PingOk(w.version) then Verifying(rq, cached, live) else Finished(rq, cached, live, None, false), cache)
    case Verifying(rq, cached, live) =>
      (if checks(w.answers) then Saving(rq, cached, live, w.answers) else Finished(rq, cached, live, None, false),
       cache)
    case Saving(rq, cached, live, answers) =>
      (Finished(rq, cached, live, Some(answers), true),
       if answers.fetched.Some? then cache[rq.url := EntryOf(hash, answers.fetched.value)] else cache)
    case Finished(_, _, _, _, _) => (p, cache)
  }

  /** The call takes five steps in a row, each with its own answers of the network. */
  function Alone(hash: Digest, checks: Checks, cache: map<Bytes, Entry>, p: Progress, w0: Wire, w1: Wire, w2: Wire,
                 w3: Wire, w4: Wire): (Progress, map<Bytes, Entry>)
  {
    var (p1, c1) := Progressed(hash, checks, cache, p, w0);
    var (p2, c2) := Progressed(hash, checks, c1, p1, w1);
    var (p3, c3) := Progressed(hash, checks, c2, p2, w2);
    var (p4, c4) := Progressed(hash, checks, c3, p3, w3);
    Progressed(hash, checks, c4, p4, w4)
  }

  /** The last two steps of a verification. */
  lemma VerificationEnds(hash: Digest, checks: Checks, cache: map<Bytes, Entry>, rq: Request, cached: Option<Entry>,
                         live: Option<LiveQuote>, w1: Wire, w2: Wire) returns (p: Progress, after: map<Bytes, Entry>)
    requires checks(w1.answers) ==> w1.answers.fetched.Some?
    ensures var (p1, c1) := Progressed(hash, checks, cache, Verifying(rq, cached, live), w1);
            Progressed(hash, checks, c1, p1, w2) == (p, after)
    ensures p.Finished? && (p.ok <==> checks(w1.answers))
    ensures after == if p.ok then cache[rq.url := EntryOf(hash, w1.answers.fetched.value)] else cache
  {
    var (p1, c1) := Progressed(hash, checks, cache, Verifying(rq, cached, live), w1);
    p, after := Progressed(hash, checks, c1, p1, w2).0, Progressed(hash, checks, c1, p1, w2).1;
  }

  lemma QuickEnds(hash: Digest, checks: Checks, cache: map<Bytes, Entry>, url: Bytes, w0: Wire, w1: Wire, w2: Wire,
                  w3: Wire, w4: Wire) returns (p: Progress, after: map<Bytes, Entry>)
    requires checks(w3.answers) ==> w3.answers.fetched.Some?
    ensures Alone(hash, checks, cache, Begun(Quick(url, true)), w0, w1, w2, w3, w4) == (p, after) && p.Finished?
    ensures match QuickDecision(hash, if url in cache then Some(cache[url]) else None, w1.live)
            case QuickAccept => p.ok && after == cache
            case QuickReject => !p.ok && after == cache
            case QuickFull =>
              && (p.ok <==> PingOk(w2.version) && checks(w3.answers))
              && after == if p.ok then cache[url := EntryOf(hash, w3.answers.fetched.value)] else cache
  {
    var cached := if url in cache then Some(cache[url]) else None;
    if QuickDecision(hash, cached, w1.live) == QuickFull && PingOk(w2.version) {
      p, after := VerificationEnds(hash, checks, cache, Quick(url, true), cached, w1.live, w3, w4);
    } else {
      p := Alone(hash, checks, cache, Begun(Quick(url, true)), w0, w1, w2, w3, w4).0;
      after := cache;
    }
  }

  /** Undisturbed, a call returns and answers, and leaves in the cache, what the method of the verifier promises. */
  lemma AloneQuick(hash: Digest, cache: map<Bytes, Entry>, url: Bytes, w0: Wire, w1: Wire, w2: Wire, w3: Wire, w4: Wire)
    returns (p: Progress, after: map<Bytes, Entry>)
    ensures Alone(hash, CHECKS, cache, Begun(Quick(url, true)), w0, w1, w2, w3, w4) == (p, after)
    ensures p.Finished? && QuickOutcome(hash, cache, url, w1.live, w2.version, w3.answers, p.ok, after)
  {
    assert CHECKS(w3.answers) == ProviderChecks(w3.answers);
    p, after := QuickEnds(hash, CHECKS, cache, url, w0, w1, w2, w3, w4);
    QuickIs(hash, if url in cache then Some(cache[url]) else None, w1.live);
    FullIs(hash, cache, url, PingOk(w2.version), w3.answers);
  }

  /** A session that is not in a TEE needs no check. */
  lemma AlonePlain(hash: Digest, cache: map<Bytes, Entry>, url: Bytes, w0: Wire, w1: Wire, w2: Wire, w3: Wire, w4: Wire)
    ensures Alone(hash, CHECKS, cache, Begun(Quick(url, false)), w0, w1, w2, w3, w4)
         == (Finished(Quick(url, false), None, None, None, true), cache)
  {
  }

  lemma AloneFull(hash: Digest, cache: map<Bytes, Entry>, url: Bytes, w0: Wire, w1: Wire, w2: Wire, w3: Wire, w4: Wire)
    returns (p: Progress, after: map<Bytes, Entry>)
    ensures Alone(hash, CHECKS, cache, Begun(Full(url)), w0, w1, w2, w3, w4) == (p, after)
    ensures p.Finished? && FullOutcome(hash, cache, url, true, w1.answers, p.ok, after)
  {
    assert CHECKS(w1.answers) == ProviderChecks(w1.answers);
    p, after := FullEnds(hash, CHECKS, cache, url, w0, w1, w2, w3, w4);
    FullIs(hash, cache, url, true, w1.answers);
  }

  lemma FullEnds(hash: Digest, checks: Checks, cache: map<Bytes, Entry>, url: Bytes, w0: Wire, w1: Wire, w2: Wire,
                 w3: Wire, w4: Wire) returns (p: Progress, after: map<Bytes, Entry>)
    requires checks(w1.answers) ==> w1.answers.fetched.Some?
    ensures Alone(hash, checks, cache, Begun(Full(url)), w0, w1, w2, w3, w4) == (p, after) && p.Finished?
    ensures p.ok <==> checks(w1.answers)
    ensures after == if p.ok then cache[url := EntryOf(hash, w1.answers.fetched.value)] else cache
  {
    p, after := VerificationEnds(hash, checks, cache, Full(url), None, None, w1, w2);
  }

  function Completed(p: Progress): set<Verified>
  {
    if p.Saving? then {Verified(p.request.url, p.answers)} else {}
  }

  ghost predicate NodeStep(hash: Digest, checks: Checks, n: Node, n': Node)
  {
    || (exists id, rq :: Begin(n, n', id, rq))
    || (exists id, w :: Work(hash, checks, n, n', id, w))
  }

  ghost predicate Begin(n: Node, n': Node, id: nat, rq: Request)
  {
    id !in n.calls && n' == n.(calls := n.calls[id := Begun(rq)])
  }

  ghost predicate Work(hash: Digest, checks: Checks, n: Node, n': Node, id: nat, w: Wire)
  {
    && id in n.calls
    && var (p', cache') := Progressed(hash, checks, n.cache, n.calls[id], w);
       n' == Node(cache', n.calls[id := p'], n.history + Completed(n.calls[id]))
  }

  ghost predicate EntryProven(hash: Digest, checks: Checks, history: set<Verified>, url: Bytes, e: Entry)
  {
    exists v :: && v in history && v.url == url && checks(v.answers)
                && v.answers.fetched.Some? && e == EntryOf(hash, v.answers.fetched.value)
  }

  ghost predicate ProgressSafe(hash: Digest, checks: Checks, history: set<Verified>, p: Progress)
  {
    && (!p.Begun? && p.cached.Some? ==> EntryProven(hash, checks, history, p.request.url, p.cached.value))
    && (p.Saving? ==> checks(p.answers))
    && (p.Finished? && p.ok && !(p.request.Quick? && !p.request.isTee) ==>
          || (p.cached.Some? && p.live.Some? && EntryMatches(hash, p.cached.value, p.live.value))
          || (p.verified.Some? && checks(p.verified.value) && Verified(p.request.url, p.verified.value) in history))
  }

  ghost predicate NodeSafe(hash: Digest, checks: Checks, n: Node)
  {
    && (forall url :: url in n.cache ==> EntryProven(hash, checks, n.history, url, n.cache[url]))
    && (forall id :: id in n.calls ==> ProgressSafe(hash, checks, n.history, n.calls[id]))
  }

  lemma ProgressSafeGrows(hash: Digest, checks: Checks, history: set<Verified>, more: set<Verified>, p: Progress)
    requires history <= more && ProgressSafe(hash, checks, history, p)
    ensures ProgressSafe(hash, checks, more, p)
  {
  }

  lemma QuickAcceptMeans(hash: Digest, cached: Option<Entry>, live: Option<LiveQuote>)
    ensures QuickDecision(hash, cached, live) == QuickAccept
       <==> cached.Some? && live.Some? && EntryMatches(hash, cached.value, live.value)
  {
  }

  lemma BegunKept(hash: Digest, checks: Checks, n: Node, p: Progress, w: Wire)
    requires NodeSafe(hash, checks, n) && p.Begun?
    ensures ProgressSafe(hash, checks, n.history, Progressed(hash, checks, n.cache, p, w).0)
  {
    if p.request.Quick? && p.request.url in n.cache {
      assert EntryProven(hash, checks, n.history, p.request.url, n.cache[p.request.url]);
    }
  }

  lemma ReadKept(hash: Digest, checks: Checks, n: Node, p: Progress, w: Wire)
    requires p.Read? && ProgressSafe(hash, checks, n.history, p)
    ensures ProgressSafe(hash, checks, n.history, Progressed(hash, checks, n.cache, p, w).0)
  {
    QuickAcceptMeans(hash, p.cached, w.live);
  }

  /** A call that goes on, or gives up, keeps what it read. */
  lemma CarriedOn(hash: Digest, checks: Checks, history: set<Verified>, p: Progress, p': Progress)
    requires ProgressSafe(hash, checks, history, p) && !p.Begun? && !p'.Begun?
    requires p'.request == p.request && p'.cached == p.cached
    requires (p'.Saving? ==> checks(p'.answers)) && (p'.Finished? ==> !p'.ok)
    ensures ProgressSafe(hash, checks, history, p')
  {
  }

  lemma PingingKept(hash: Digest, checks: Checks, n: Node, p: Progress, w: Wire)
    requires p.Pinging? && ProgressSafe(hash, checks, n.history, p)
    ensures ProgressSafe(hash, checks, n.history, Progressed(hash, checks, n.cache, p, w).0)
  {
    CarriedOn(hash, checks, n.history, p, Verifying(p.request, p.cached, p.live));
    CarriedOn(hash, checks, n.history, p, Finished(p.request, p.cached, p.live, None, false));
  }

  lemma VerifyingKept(hash: Digest, checks: Checks, n: Node, p: Progress, w: Wire)
    requires p.Verifying? && ProgressSafe(hash, checks, n.history, p)
    ensures ProgressSafe(hash, checks, n.history, Progressed(hash, checks, n.cache, p, w).0)
  {
    if checks(w.answers) {
      CarriedOn(hash, checks, n.history, p, Saving(p.request, p.cached, p.live, w.answers));
    }
    CarriedOn(hash, checks, n.history, p, Finished(p.request, p.cached, p.live, None, false));
  }

  /** A completed verification lets its call return nil. */
  lemma SavedSafe(hash: Digest, checks: Checks, history: set<Verified>, p: Progress)
    requires p.Saving? && ProgressSafe(hash, checks, history, p) && Verified(p.request.url, p.answers) in history
    ensures ProgressSafe(hash, checks, history, Finished(p.request, p.cached, p.live, Some(p.answers), true))
  {
  }

  lemma SavingKept(hash: Digest, checks: Checks, n: Node, p: Progress, w: Wire)
    requires p.Saving? && ProgressSafe(hash, checks, n.history, p)
    ensures ProgressSafe(hash, checks, n.history + Completed(p), Progressed(hash, checks, n.cache, p, w).0)
  {
    var more, p' := n.history + Completed(p), Progressed(hash, checks, n.cache, p, w).0;
    assert p' == Finished(p.request, p.cached, p.live, Some(p.answers), true);
    assert Verified(p.request.url, p.answers) in more;
    ProgressSafeGrows(hash, checks, n.history, more, p);
    SavedSafe(hash, checks, more, p);
  }

  lemma ProgressKept(hash: Digest, checks: Checks, n: Node, p: Progress, w: Wire)
    requires NodeSafe(hash, checks, n) && ProgressSafe(hash, checks, n.history, p)
    ensures ProgressSafe(hash, checks, n.history + Completed(p), Progressed(hash, checks, n.cache, p, w).0)
  {
    assert !p.Saving? ==> n.history + Completed(p) == n.history;
    if p.Begun? {
      BegunKept(hash, checks, n, p, w);
    } else if p.Read? {
      ReadKept(hash, checks, n, p, w);
    } else if p.Pinging? {
      PingingKept(hash, checks, n, p, w);
    } else if p.Verifying? {
      VerifyingKept(hash, checks, n, p, w);
    } else if p.Saving? {
      SavingKept(hash, checks, n, p, w);
    }
  }

  lemma CacheKept(hash: Digest, checks: Checks, n: Node, p: Progress, w: Wire, url: Bytes)
    requires NodeSafe(hash, checks, n) && ProgressSafe(hash, checks, n.history, p)
    requires url in Progressed(hash, checks, n.cache, p, w).1
    ensures EntryProven(hash, checks, n.history + Completed(p), url, Progressed(hash, checks, n.cache, p, w).1[url])
  {
    if p.Saving? && url == p.request.url {
      assert Verified(p.request.url, p.answers) in n.history + Completed(p);
    } else {
      assert EntryProven(hash, checks, n.history, url, n.cache[url]);
    }
  }

  ghost predicate NodeTrace(hash: Digest, checks: Checks, trace: seq<Node>)
  {
    && trace != [] && trace[0] == Node(map[], map[], {})
    && forall i :: 0 <= i < |trace| - 1 ==> NodeStep(hash, checks, trace[i], trace[i + 1])
  }

  lemma NodeStepSafe(hash: Digest, checks: Checks, n: Node, n': Node)
    requires NodeSafe(hash, checks, n) && NodeStep(hash, checks, n, n')
    ensures NodeSafe(hash, checks, n')
  {
    if id, w :| Work(hash, checks, n, n', id, w) {
      ProgressKept(hash, checks, n, n.calls[id], w);
      forall url | url in n'.cache ensures EntryProven(hash, checks, n'.history, url, n'.cache[url]) {
        CacheKept(hash, checks, n, n.calls[id], w, url);
      }
      forall i | i in n'.calls ensures ProgressSafe(hash, checks, n'.history, n'.calls[i]) {
        if i != id { ProgressSafeGrows(hash, checks, n.history, n'.history, n.calls[i]); }
      }
    }
  }

  /** Over every interleaving: each cached quote comes from a completed full verification in which all checks
      held, and a call for a TEE session returns nil only with a live match of an entry that it read itself,
      or after its own full verification passed. */
  lemma QuickCheckSafety(hash: Digest, trace: seq<Node>, i: nat)
    requires NodeTrace(hash, CHECKS, trace) && i < |trace|
    ensures NodeSafe(hash, CHECKS, trace[i])
  {
    ReachableSafe(hash, CHECKS, trace, i);
  }

  lemma {:induction false} ReachableSafe(hash: Digest, checks: Checks, trace: seq<Node>, i: nat)
    requires NodeTrace(hash, checks, trace) && i < |trace|
    ensures NodeSafe(hash, checks, trace[i])
  {
    if i > 0 {
      ReachableSafe(hash, checks, trace, i - 1);
      assert NodeStep(hash, checks, trace[i - 1], trace[i - 1 + 1]);
      NodeStepSafe(hash, checks, trace[i - 1], trace[i]);
    }
  }
}
