/** The on-chain part of opening a session: allowance, submissions, and what the contracts make of all copies. */
module ChainOpen {
  import opened ByteStrings
  import opened Stake
  import opened TxEscalator

  // ---- the contracts ----

  /** The copies of one call that the chain executes, in its order. `valid(k)` says whether the k-th of them passes
      every check of the contract but the ones spelled out here. */
  datatype Copies = Copies(order: seq<nat>, valid: nat -> bool)

  /** The provider's approval is used after the first k executions: a copy that passes uses it up, and a used one
      makes every later copy revert. */
  predicate Used(valid: nat -> bool, k: nat)
  {
    k > 0 && (Used(valid, k - 1) || valid(k - 1))
  }

  /** The k-th execution opens a session. */
  predicate Opens(valid: nat -> bool, k: nat)
  {
    valid(k) && !Used(valid, k)
  }

  function Sessions(valid: nat -> bool, k: nat): nat
  {
    if k == 0 then 0 else Sessions(valid, k - 1) + if Opens(valid, k - 1) then 1 else 0
  }

  /** One approval opens one session at most, and opens it exactly when some execution passes the other checks. */
  lemma {:induction false} OneSession(valid: nat -> bool, k: nat)
    ensures Sessions(valid, k) == if Used(valid, k) then 1 else 0
    ensures Used(valid, k) <==> exists j :: 0 <= j < k && valid(j)
  {
    if k > 0 {
      OneSession(valid, k - 1);
      if valid(k - 1) { assert 0 <= k - 1 < k; }
    }
  }

  /** The first of e executions that passes, or e. */
  function Opener(valid: nat -> bool, e: nat): (p: nat)
    ensures p <= e && (p < e ==> valid(p)) && forall j :: 0 <= j < p ==> !valid(j)
  {
    if e == 0 then 0
    else
      var p := Opener(valid, e - 1);
      if p < e - 1 || valid(e - 1) then p else e
  }

  lemma OpenerOpens(valid: nat -> bool, e: nat, k: nat)
    requires k < e
    ensures Opens(valid, k) <==> k == Opener(valid, e)
    ensures Used(valid, e) <==> Opener(valid, e) < e
  {
    OneSession(valid, k);
    OneSession(valid, e);
  }

  /** The allowance after k executed increases by the stake; one that would leave uint256 reverts. */
  function Raised(allowance: nat, stake: nat, valid: nat -> bool, k: nat): nat
    decreases k, 0
  {
    if k == 0 then allowance
    else Raised(allowance, stake, valid, k - 1) + if Raises(allowance, stake, valid, k - 1) then stake else 0
  }

  predicate Raises(allowance: nat, stake: nat, valid: nat -> bool, k: nat)
    decreases k, 1
  {
    valid(k) && Raised(allowance, stake, valid, k) + stake <= MAX_UINT256
  }

  lemma {:induction false} RaisedBounds(allowance: nat, stake: nat, valid: nat -> bool, k: nat)
    requires allowance <= MAX_UINT256
    ensures allowance <= Raised(allowance, stake, valid, k) <= MAX_UINT256
    ensures (exists j :: 0 <= j < k && Raises(allowance, stake, valid, j)) ==>
              allowance + stake <= Raised(allowance, stake, valid, k)
  {
    if k > 0 {
      RaisedBounds(allowance, stake, valid, k - 1);
    }
  }

  function RaiseLedger(allowance: nat, stake: nat, c: Copies): Ledger
  {
    Ledger(c.order, (k: nat) => Raises(allowance, stake, c.valid, k))
  }

  function OpenLedger(c: Copies): Ledger
  {
    Ledger(c.order, (k: nat) => Opens(c.valid, k))
  }

  // ---- the node ----

  const MAX_SENDS: nat := 3

  /** Every reply one on-chain open may get. `ready(k)` says that the context is alive and the k-th submission can be
      set up, `sends(k)` are its replies, `approvals` and `copies` what the chain executes of the two calls, and
      `hash` is the session id. */
  datatype OpenReplies = OpenReplies(
    agentOk: bool, accountOk: bool, allowance: Option<nat>,
    approveOpts: bool, approve: Replies, approvals: Copies,
    ready: nat -> bool, sends: nat -> Replies, copies: Copies,
    receiptOk: bool, agentSpendOk: bool, savedOk: bool, hash: Bytes)

  /** The node asks for a higher allowance. */
  predicate Asks(stake: int, r: OpenReplies)
  {
    && r.agentOk && r.accountOk && r.allowance.Some?
    && NeedsApproval(r.allowance.value, stake) && r.approveOpts
  }

  function ApproveEnd(stake: int, r: OpenReplies): End
    requires Asks(stake, r)
  {
    Escalated(RaiseLedger(r.allowance.value, stake, r.approvals), 0, r.approve)
  }

  predicate Approved(stake: int, r: OpenReplies)
  {
    Asks(stake, r) && ApproveEnd(stake, r).out.Mined? && ApproveEnd(stake, r).out.ok
  }

  /** The open transaction is submitted at all. */
  predicate Funded(stake: int, r: OpenReplies)
  {
    && r.agentOk && r.accountOk && r.allowance.Some?
    && (NeedsApproval(r.allowance.value, stake) ==> Approved(stake, r))
  }

  /** The end of the submissions from number k on, n copies having been handed over before: only an error that speaks
      of a revert is followed by another one. */
  function Submissions(l: Ledger, ready: nat -> bool, sends: nat -> Replies, k: nat, n: nat): End
    requires k <= MAX_SENDS
    decreases MAX_SENDS - k
  {
    if k == MAX_SENDS then End(Failed(true), n)
    else if !ready(k) then End(Failed(false), n)
    else
      var end := Escalated(l, n, sends(k));
      if end.out.Failed? && end.out.revert then Submissions(l, ready, sends, k + 1, end.handed) else end
  }

  function OpenEnd(r: OpenReplies): End
  {
    Submissions(OpenLedger(r.copies), r.ready, r.sends, 0, 0)
  }

  /** How many copies of the open transaction are handed over, and how many of them the chain executes. */
  function Handed(stake: int, r: OpenReplies): nat
  {
    if Funded(stake, r) then OpenEnd(r).handed else 0
  }

  function Landed(stake: int, r: OpenReplies): nat
  {
    Executed(r.copies.order, Handed(stake, r))
  }

  /** The contract opens a session. */
  predicate Opened(stake: int, r: OpenReplies)
  {
    Used(r.copies.valid, Landed(stake, r))
  }

  predicate Finishes(r: OpenReplies)
  {
    r.receiptOk && r.agentSpendOk && r.savedOk
  }

  /** The node reports success. */
  predicate OpenOk(stake: int, r: OpenReplies)
  {
    Funded(stake, r) && OpenEnd(r).out.Mined? && OpenEnd(r).out.ok && Finishes(r)
  }

  method Submit(l: Ledger, ready: nat -> bool, sends: nat -> Replies) returns (out: Outcome, handed: nat)
    ensures End(out, handed) == Submissions(l, ready, sends, 0, 0)
  {
    out, handed := Failed(true), 0;
    var k := 0;
    while k < MAX_SENDS
      invariant 0 <= k <= MAX_SENDS && out == Failed(true)
      invariant Submissions(l, ready, sends, 0, 0) == Submissions(l, ready, sends, k, handed)
    {
      if !ready(k) {
        return Failed(false), handed;
      }
      out, handed := SendWithEscalation(l, handed, sends(k));
      if out.Mined? {
        return;
      }
      if !out.revert {
        return;
      }
      k := k + 1;
    }
  }

  /** The copies handed over are for the chain to execute, whatever is reported. */
  method OpenSession(stake: int, r: OpenReplies) returns (ok: bool, handed: nat)
    ensures ok <==> OpenOk(stake, r)
    ensures handed == Handed(stake, r)
  {
    ok, handed := false, 0;
    if !r.agentOk || !r.accountOk || r.allowance.None? {
      return;
    }
    var allowance := r.allowance.value;
    var needsApproval := allowance < stake * 3;
    var wouldOverflow := MAX_UINT256 - allowance < stake;
    if wouldOverflow {
      needsApproval := false;
    }
    if needsApproval {
      if !r.approveOpts {
        return;
      }
      var raised, copies := SendWithEscalation(RaiseLedger(allowance, stake, r.approvals), 0, r.approve);
      if raised.Failed? || !raised.ok {
        return;
      }
    }
    var out;
    out, handed := Submit(OpenLedger(r.copies), r.ready, r.sends);
    ok := out.Mined? && out.ok && r.receiptOk && r.agentSpendOk && r.savedOk;
  }

  // ---- what every run keeps ----

  lemma {:induction false} SubmissionsSound(l: Ledger, ready: nat -> bool, sends: nat -> Replies, k: nat, n: nat)
    requires k <= MAX_SENDS
    ensures var end := Submissions(l, ready, sends, k, n);
            && n <= end.handed <= n + (MAX_SENDS - k) * MAX_HANDED
            && (end.out.Mined? ==> Receipt(l, end.handed, end.out.tx) == Some(end.out.ok))
    decreases MAX_SENDS - k
  {
    if k < MAX_SENDS && ready(k) {
      EscalatedSound(l, n, sends(k));
      SubmissionsSound(l, ready, sends, k + 1, Escalated(l, n, sends(k)).handed);
    }
  }

  /** For all replies, however many copies the chain executes: at most one session is opened, and one is opened exactly
      when some executed copy passes the contract's other checks. */
  lemma AtMostOneSession(stake: int, r: OpenReplies)
    ensures Landed(stake, r) > 0 ==> Handed(stake, r) > 0
    ensures Handed(stake, r) <= MAX_SENDS * MAX_HANDED
    ensures Sessions(r.copies.valid, Landed(stake, r)) == if Opened(stake, r) then 1 else 0
    ensures Opened(stake, r) <==> exists k :: 0 <= k < Landed(stake, r) && r.copies.valid(k)
  {
    OneSession(r.copies.valid, Landed(stake, r));
    SubmissionsSound(OpenLedger(r.copies), r.ready, r.sends, 0, 0);
  }

  /** The copy that opened the session. */
  function OpenerTx(stake: int, r: OpenReplies): nat
    requires Opened(stake, r)
  {
    OneSession(r.copies.valid, Landed(stake, r));
    r.copies.order[Opener(r.copies.valid, Landed(stake, r))]
  }

  /** The node learns of the session: the receipt that came back is that of the very copy that opened it, and the steps
      after it succeed. */
  predicate Told(stake: int, r: OpenReplies)
    requires Opened(stake, r)
  {
    OpenEnd(r).out.Mined? && OpenEnd(r).out.tx == OpenerTx(stake, r) && Finishes(r)
  }

  /** Success is reported exactly when a session was opened and the node learns of it. So a failure is reported although
      one was opened exactly when no receipt came back, or that of another copy, or a later step failed. */
  lemma ReportExact(stake: int, r: OpenReplies)
    ensures OpenOk(stake, r) <==> Opened(stake, r) && Told(stake, r)
  {
    var l, end, valid := OpenLedger(r.copies), OpenEnd(r), r.copies.valid;
    var e := Landed(stake, r);
    SubmissionsSound(l, r.ready, r.sends, 0, 0);
    if Funded(stake, r) && end.out.Mined? {
      var q := PlaceFrom(l.order, end.out.tx, 0, e);
      OpenerOpens(valid, e, q);
      if Opened(stake, r) && end.out.tx == OpenerTx(stake, r) {
        ReceiptAt(l, end.handed, end.out.tx, Opener(valid, e));
        OpenerOpens(valid, e, Opener(valid, e));
      }
    }
  }

  /** With a single executed copy a receipt settles it: success is reported exactly when a session was opened. */
  lemma SingleCopy(stake: int, r: OpenReplies)
    requires Landed(stake, r) <= 1 && OpenEnd(r).out.Mined? && Finishes(r)
    ensures OpenOk(stake, r) <==> Opened(stake, r)
  {
    ReportExact(stake, r);
    SubmissionsSound(OpenLedger(r.copies), r.ready, r.sends, 0, 0);
  }

  /** The allowance on the chain when the open transaction is submitted. */
  function AllowanceOnChain(stake: int, r: OpenReplies): nat
    requires r.allowance.Some?
  {
    if Asks(stake, r) then
      Raised(r.allowance.value, stake, r.approvals.valid,
             Executed(r.approvals.order, ApproveEnd(stake, r).handed))
    else r.allowance.value
  }

  /** Whenever the open transaction is submitted for a stake up to 2^255, the allowance covers it. */
  lemma SubmittedCovered(stake: nat, r: OpenReplies)
    requires Funded(stake, r) && r.allowance.value <= MAX_UINT256 && stake <= TWO255
    ensures stake <= AllowanceOnChain(stake, r) <= MAX_UINT256
  {
    var allowance := r.allowance.value;
    AllowanceCovers(allowance, stake);
    if Asks(stake, r) {
      var l, end := RaiseLedger(allowance, stake, r.approvals), ApproveEnd(stake, r);
      EscalatedSound(l, 0, r.approve);
      var e := Executed(l.order, end.handed);
      var q := PlaceFrom(l.order, end.out.tx, 0, e);
      assert Raises(allowance, stake, r.approvals.valid, q);
      RaisedBounds(allowance, stake, r.approvals.valid, e);
    }
  }

  // ---- two runs that report a failure although a session was opened ----

  /** A copy is sent and not seen mined; one is sent and waited for; building one fails with a revert. */
  function Quiet(): Round { Round(Fine, false, Fine, Accepted, false, (tx: nat) => false) }

  function Waited(): Round { Round(Fine, false, Fine, Accepted, true, (tx: nat) => false) }

  function Reverting(): Round { Round(Fine, false, Error(true), Accepted, false, (tx: nat) => false) }

  function RunOf(rounds: nat -> Round): Replies
  {
    Replies(Fine, rounds, (tx: nat) => false)
  }

  function RepliesOf(order: seq<nat>, sends: nat -> Replies): OpenReplies
  {
    OpenReplies(true, true, Some(MAX_UINT256), true, RunOf((j: nat) => Quiet()), Copies([], (k: nat) => true),
                (k: nat) => true, sends, Copies(order, (k: nat) => true), true, true, true, [])
  }

  lemma QuietRound(l: Ledger, s: State)
    ensures Step(l, s, Quiet()) == Go(State(s.attempt + 1, 0, s.handed + 1, s.submitted + [s.handed]))
  {
    FirstSeenMeans(l, s.handed + 1, s.submitted + [s.handed], Quiet().visible);
  }

  /** The first copy is not mined in time; the second, with the next nonce, is, and reverts because the first one has
      opened the session by then. Both are executed, and the receipt that comes back is the second one's. */
  function TwoCopies(): OpenReplies
  {
    RepliesOf([0, 1], (k: nat) => RunOf((j: nat) => if j == 0 then Quiet() else Waited()))
  }

  lemma SecondReceipt()
    ensures Landed(1, TwoCopies()) == 2 && Opened(1, TwoCopies()) && !OpenOk(1, TwoCopies())
  {
    var r := TwoCopies();
    var l := OpenLedger(r.copies);
    QuietRound(l, State(0, 0, 0, []));
    assert Executed([0, 1], 2) == 2 by { assert ExecutedFrom([0, 1], 2, 2) == 2 == ExecutedFrom([0, 1], 2, 1); }
    assert PlaceFrom([0, 1], 1, 0, 2) == 1;
    assert !Opens(r.copies.valid, 1);
    assert Step(l, State(1, 0, 1, [0]), Waited()) == Done(End(Mined(1, false), 2));
    assert Rounds(l, State(1, 0, 1, [0]), r.sends(0), 1) == End(Mined(1, false), 2);
    assert OpenEnd(r) == Escalated(l, 0, r.sends(0)) == End(Mined(1, false), 2);
  }

  function FirstQuiet(j: nat): Round { if j == 0 then Quiet() else Reverting() }

  function AllReverting(j: nat): Round { Reverting() }

  /** The first copy opens the session after its check; building the next one then reverts, as the approval is used,
      and so do both later submissions. */
  function RevertedRebuild(): OpenReplies
  {
    RepliesOf([0], (k: nat) => if k == 0 then RunOf(FirstQuiet) else RunOf(AllReverting))
  }

  lemma RevertAfterLanding()
    ensures Landed(1, RevertedRebuild()) == 1 && Opened(1, RevertedRebuild()) && !OpenOk(1, RevertedRebuild())
    ensures OpenEnd(RevertedRebuild()).out == Failed(true)
  {
    var r := RevertedRebuild();
    var l := OpenLedger(r.copies);
    QuietRound(l, State(0, 0, 0, []));
    assert Step(l, State(1, 0, 1, [0]), Reverting()) == Done(End(Failed(true), 1));
    assert r.sends(0) == RunOf(FirstQuiet) && r.sends(1) == r.sends(2) == RunOf(AllReverting);
    assert FirstQuiet(1) == Reverting() == AllReverting(0);
    assert Rounds(l, State(1, 0, 1, [0]), r.sends(0), 1) == End(Failed(true), 1);
    assert Escalated(l, 0, r.sends(0)) == End(Failed(true), 1);
    assert Step(l, State(0, 0, 1, []), Reverting()) == Done(End(Failed(true), 1));
    assert Escalated(l, 1, r.sends(1)) == Escalated(l, 1, r.sends(2)) == End(Failed(true), 1);
    assert Submissions(l, r.ready, r.sends, 2, 1) == Submissions(l, r.ready, r.sends, 3, 1);
    assert Submissions(l, r.ready, r.sends, 1, 1) == End(Failed(true), 1);
    assert Executed([0], 1) == 1 by { assert ExecutedFrom([0], 1, 1) == 1; }
  }
}
