/** When an on-chain open succeeds, said over the node's replies and the copies that the chain executes. */
module OpenProgress {
  import opened ByteStrings
  import opened ChainOpen
  import opened EscalationRounds
  import opened TxEscalator

  const UINT256_VALUES: nat := 0x1_0000_0000_0000_0000_0000_0000_0000_0000_0000_0000_0000_0000_0000_0000_0000_0000

  /** In round m of a call with n copies before it, the copy handed over is seen mined while it is waited for. */
  ghost predicate SeenMined(l: Ledger, n: nat, r: Replies, m: nat)
  {
    && Past(l, n, r, m) && Attempts(r, m) < 5 && Prepared(r.rounds(m))
    && r.rounds(m).send.Accepted? && r.rounds(m).waited
  }

  /** The p-th execution is that of copy tx, handed over last, and the first that passes the other checks. */
  ghost predicate FirstToPass(c: Copies, tx: nat, p: nat)
  {
    && p < Executed(c.order, tx + 1) && c.order[p] == tx && c.valid(p)
    && forall j: nat :: j < p ==> !c.valid(j)
  }

  // ---- the allowance ----

  /** No higher allowance is asked for: three opens are covered, or adding one stake would leave uint256. */
  predicate NothingAsked(allowance: nat, stake: int)
  {
    allowance >= 3 * stake || allowance + stake >= UINT256_VALUES
  }

  /** Without an account or a readable allowance nothing is submitted; with them the open is, unless an increase must be
      asked for and is not reported as mined and successful. */
  lemma AllowanceDecides(stake: int, r: OpenReplies)
    ensures Funded(stake, r) <==>
              && r.agentOk && r.accountOk && r.allowance.Some?
              && (!NothingAsked(r.allowance.value, stake) ==>
                    && r.approveOpts
                    && exists tx: nat ::
                         Escalated(RaiseLedger(r.allowance.value, stake, r.approvals), 0, r.approve).out
                           == Mined(tx, true))
  {
    if Asks(stake, r) {
      var end := ApproveEnd(stake, r);
      if end.out.Mined? && end.out.ok {
        assert end.out == Mined(end.out.tx, true);
      }
    }
  }

  lemma FirstRaises(allowance: nat, stake: nat, valid: nat -> bool, p: nat)
    requires forall j: nat :: j < p ==> !valid(j)
    ensures Raised(allowance, stake, valid, p) == allowance
  {
    if p > 0 {
      FirstRaises(allowance, stake, valid, p - 1);
    }
  }

  /** An increase that must be asked for goes through when its copy of round m is executed, passes and is seen in time:
      the open is submitted then. */
  lemma ApprovalGoesThrough(stake: nat, r: OpenReplies, m: nat, p: nat)
    requires r.agentOk && r.accountOk && r.allowance.Some? && r.approveOpts
    requires !NothingAsked(r.allowance.value, stake)
    requires SeenMined(RaiseLedger(r.allowance.value, stake, r.approvals), 0, r.approve, m)
    requires FirstToPass(r.approvals, m, p)
    ensures Funded(stake, r)
  {
    var l := RaiseLedger(r.allowance.value, stake, r.approvals);
    FirstRaises(r.allowance.value, stake, r.approvals.valid, p);
    ReceiptAt(l, m + 1, m, p);
    MinedInTime(l, 0, r.approve, m);
    AllowanceDecides(stake, r);
  }

  // ---- the submissions ----

  /** The first k submissions could be set up, and each ended with an error that speaks of a revert; hs(i) copies were
      handed over before number i. */
  ghost predicate RevertedBefore(l: Ledger, ready: nat -> bool, sends: nat -> Replies, hs: nat -> nat, k: nat)
  {
    && hs(0) == 0
    && forall i: nat :: i < k ==> ready(i) && Escalated(l, hs(i), sends(i)) == End(Failed(true), hs(i + 1))
  }

  /** The first submission that does not end with a revert error decides, and the third one in any case. */
  lemma SubmissionDecides(l: Ledger, ready: nat -> bool, sends: nat -> Replies, hs: nat -> nat, k: nat)
    requires k <= 3 && RevertedBefore(l, ready, sends, hs, k)
    ensures k == 3 ==> Submissions(l, ready, sends, 0, 0) == End(Failed(true), hs(3))
    ensures k < 3 && !ready(k) ==> Submissions(l, ready, sends, 0, 0) == End(Failed(false), hs(k))
    ensures k < 3 && ready(k) && Escalated(l, hs(k), sends(k)).out != Failed(true) ==>
              Submissions(l, ready, sends, 0, 0) == Escalated(l, hs(k), sends(k))
  {
    SubmissionsFrom(l, ready, sends, hs, k);
  }

  lemma {:induction false} SubmissionsFrom(l: Ledger, ready: nat -> bool, sends: nat -> Replies, hs: nat -> nat, k: nat)
    requires k <= 3 && RevertedBefore(l, ready, sends, hs, k)
    ensures Submissions(l, ready, sends, 0, 0) == Submissions(l, ready, sends, k, hs(k))
  {
    if k > 0 {
      SubmissionsFrom(l, ready, sends, hs, k - 1);
      assert ready(k - 1) && Escalated(l, hs(k - 1), sends(k - 1)) == End(Failed(true), hs(k));
    }
  }

  lemma DecidedBy(l: Ledger, ready: nat -> bool, sends: nat -> Replies, hs: nat -> nat, k: nat, end: End)
    requires k < 3 && RevertedBefore(l, ready, sends, hs, k) && ready(k)
    requires Escalated(l, hs(k), sends(k)) == end && end.out != Failed(true)
    ensures Submissions(l, ready, sends, 0, 0) == end
  {
    SubmissionDecides(l, ready, sends, hs, k);
  }

  // ---- the open ----

  /** Submission k is the one that decides, and its copy tx of round m is seen mined. */
  ghost predicate Decides(r: OpenReplies, hs: nat -> nat, k: nat, m: nat)
  {
    var l := OpenLedger(r.copies);
    && k < 3 && RevertedBefore(l, r.ready, r.sends, hs, k) && r.ready(k)
    && SeenMined(l, hs(k), r.sends(k), m)
  }

  lemma DecidesEnd(stake: int, r: OpenReplies, hs: nat -> nat, k: nat, m: nat, ok: bool)
    requires Decides(r, hs, k, m) && Receipt(OpenLedger(r.copies), hs(k) + m + 1, hs(k) + m) == Some(ok)
    ensures OpenEnd(r) == End(Mined(hs(k) + m, ok), hs(k) + m + 1)
  {
    var l := OpenLedger(r.copies);
    MinedInTime(l, hs(k), r.sends(k), m);
    DecidedBy(l, r.ready, r.sends, hs, k, End(Mined(hs(k) + m, ok), hs(k) + m + 1));
  }

  lemma LandedPasses(stake: int, r: OpenReplies, tx: nat, p: nat)
    requires Handed(stake, r) == tx + 1 && FirstToPass(r.copies, tx, p)
    ensures Opened(stake, r) && Sessions(r.copies.valid, Landed(stake, r)) == 1
  {
    OneSession(r.copies.valid, Landed(stake, r));
  }

  lemma PassesFirst(c: Copies, tx: nat, p: nat)
    requires FirstToPass(c, tx, p)
    ensures Receipt(OpenLedger(c), tx + 1, tx) == Some(true)
  {
    OneSession(c.valid, p);
    ReceiptAt(OpenLedger(c), tx + 1, tx, p);
  }

  /** An open that may be submitted succeeds when a copy is executed, passes the contract's other checks before any
      other does, and is seen mined while it is waited for, provided the steps after the receipt succeed. It opens the
      one session, and no further copy is handed over. */
  lemma SeenOpenSucceeds(stake: int, r: OpenReplies, hs: nat -> nat, k: nat, m: nat, p: nat)
    requires Funded(stake, r) && Decides(r, hs, k, m) && FirstToPass(r.copies, hs(k) + m, p)
    ensures Opened(stake, r) && Handed(stake, r) == hs(k) + m + 1
    ensures Sessions(r.copies.valid, Landed(stake, r)) == 1
    ensures OpenOk(stake, r) <==> r.receiptOk && r.agentSpendOk && r.savedOk
  {
    PassesFirst(r.copies, hs(k) + m, p);
    DecidesEnd(stake, r, hs, k, m, true);
    LandedPasses(stake, r, hs(k) + m, p);
  }

  /** A copy that is executed after one that passed, or does not pass itself, is reported as a failure when it is the
      one seen mined. */
  lemma SeenRevertFails(stake: int, r: OpenReplies, hs: nat -> nat, k: nat, m: nat, p: nat)
    requires Decides(r, hs, k, m)
    requires p < Executed(r.copies.order, hs(k) + m + 1) && r.copies.order[p] == hs(k) + m
    requires !r.copies.valid(p) || exists j: nat :: j < p && r.copies.valid(j)
    ensures !OpenOk(stake, r)
  {
    var l, tx := OpenLedger(r.copies), hs(k) + m;
    OneSession(r.copies.valid, p);
    ReceiptAt(l, tx + 1, tx, p);
    DecidesEnd(stake, r, hs, k, m, false);
  }

  /** The ordinary run: three opens are covered, the first copy is accepted, executed first, passes and is seen in time,
      and the steps after the receipt succeed. Success is reported, one session opened, one copy handed over. */
  lemma OrdinaryOpen(stake: int, r: OpenReplies)
    requires r.agentOk && r.accountOk && r.allowance.Some? && r.allowance.value >= 3 * stake
    requires r.ready(0) && r.sends(0).gas.Fine?
    requires var rd := r.sends(0).rounds(0); Prepared(rd) && rd.send.Accepted? && rd.waited
    requires r.copies.order != [] && r.copies.order[0] == 0 && r.copies.valid(0)
    requires r.receiptOk && r.agentSpendOk && r.savedOk
    ensures OpenOk(stake, r) && Opened(stake, r) && Handed(stake, r) == 1
  {
    var none: nat := 0;
    var hs := (i: nat) => none;
    AllowanceDecides(stake, r);
    SeenOpenSucceeds(stake, r, hs, none, none, none);
  }
}
