/** What the rounds of one escalated transaction amount to, said over the replies alone: which rounds go on, which one
    ends the call, and with what. */
module EscalationRounds {
  import opened ByteStrings
  import opened TxEscalator

  // ---- the rounds ----

  /** The round gets as far as handing a copy over; round i hands over the i-th copy of the call. */
  predicate Prepared(rd: Round)
  {
    rd.nonce.Fine? && !rd.overLimit && rd.build.Fine?
  }

  /** The nonce conflict of round i costs no attempt: fewer than three did since the last accepted copy. */
  predicate Refreshes(r: Replies, i: nat)
    decreases i, 1
  {
    r.rounds(i).send.Rejected? && r.rounds(i).send.nonceTooLow && Conflicts(r, i) < 3
  }

  function Conflicts(r: Replies, i: nat): (c: nat)
    ensures c <= 3
    decreases i, 0
  {
    if i == 0 || r.rounds(i - 1).send.Accepted? then 0
    else if Refreshes(r, i - 1) then Conflicts(r, i - 1) + 1
    else Conflicts(r, i - 1)
  }

  /** The attempts that the first m rounds cost. */
  function Attempts(r: Replies, m: nat): nat
  {
    if m == 0 then 0 else if Refreshes(r, m - 1) then Attempts(r, m - 1) else Attempts(r, m - 1) + 1
  }

  /** Copy tx was accepted in one of the first m rounds. */
  predicate Sent(r: Replies, n: nat, m: nat, tx: nat)
  {
    n <= tx < n + m && r.rounds(tx - n).send.Accepted?
  }

  /** Of the copies accepted in the first m rounds, tx is one whose receipt a check sees once h were handed over. */
  predicate Shown(l: Ledger, r: Replies, n: nat, m: nat, h: nat, visible: nat -> bool, tx: nat)
  {
    Sent(r, n, m, tx) && visible(tx) && Receipt(l, h, tx).Some?
  }

  ghost predicate NoneShown(l: Ledger, r: Replies, n: nat, m: nat, h: nat, visible: nat -> bool)
  {
    forall tx: nat :: !Shown(l, r, n, m, h, visible, tx)
  }

  ghost predicate FirstShown(l: Ledger, r: Replies, n: nat, m: nat, h: nat, visible: nat -> bool, tx: nat)
  {
    && Shown(l, r, n, m, h, visible, tx)
    && forall tx': nat :: tx' < tx ==> !Shown(l, r, n, m, h, visible, tx')
  }

  /** The copy just sent is seen mined while it is waited for. */
  predicate SeenInTime(l: Ledger, n: nat, r: Replies, i: nat)
  {
    r.rounds(i).send.Accepted? && r.rounds(i).waited && Receipt(l, n + i + 1, n + i).Some?
  }

  /** The check at the end of round i looks at the copies accepted so far, the round's own among them. */
  ghost predicate Unseen(l: Ledger, n: nat, r: Replies, i: nat)
  {
    NoneShown(l, r, n, i + 1, n + i + 1, r.rounds(i).visible)
  }

  /** The rejection of round i is tried again. */
  predicate Retried(r: Replies, i: nat)
  {
    && r.rounds(i).send.Rejected?
    && (Refreshes(r, i) || (r.rounds(i).send.replacement && Attempts(r, i) < 4))
  }

  /** Fewer than five attempts were used before round i, and it ends nothing. */
  ghost predicate GoesOn(l: Ledger, n: nat, r: Replies, i: nat)
  {
    && Attempts(r, i) < 5 && Prepared(r.rounds(i))
    && (r.rounds(i).send.Accepted? ==> !SeenInTime(l, n, r, i) && Unseen(l, n, r, i))
    && (r.rounds(i).send.Rejected? ==> Retried(r, i) && (r.rounds(i).send.nonceTooLow ==> Unseen(l, n, r, i)))
  }

  /** The call gets past the first m rounds. */
  ghost predicate Past(l: Ledger, n: nat, r: Replies, m: nat)
  {
    r.gas.Fine? && forall i: nat :: i < m ==> GoesOn(l, n, r, i)
  }

  // ---- the state the call is in ----

  function SentList(r: Replies, n: nat, m: nat): seq<nat>
  {
    if m == 0 then []
    else if r.rounds(m - 1).send.Accepted? then SentList(r, n, m - 1) + [n + m - 1]
    else SentList(r, n, m - 1)
  }

  function StateAt(r: Replies, n: nat, m: nat): State
  {
    State(Attempts(r, m), Conflicts(r, m), n + m, SentList(r, n, m))
  }

  lemma {:induction false} SentListMeans(r: Replies, n: nat, m: nat)
    ensures forall tx :: tx in SentList(r, n, m) <==> Sent(r, n, m, tx)
    ensures forall i, j :: 0 <= i < j < |SentList(r, n, m)| ==> SentList(r, n, m)[i] < SentList(r, n, m)[j]
  {
    if m > 0 {
      SentListMeans(r, n, m - 1);
      forall tx ensures tx in SentList(r, n, m) <==> Sent(r, n, m, tx) {
        assert tx in SentList(r, n, m - 1) <==> Sent(r, n, m - 1, tx);
      }
      var before := SentList(r, n, m - 1);
      assert forall i :: 0 <= i < |before| ==> before[i] in before && Sent(r, n, m - 1, before[i]);
    }
  }

  lemma {:induction false} FirstSeenLeast(l: Ledger, h: nat, txs: seq<nat>, visible: nat -> bool)
    requires forall i, j :: 0 <= i < j < |txs| ==> txs[i] < txs[j]
    ensures var o := FirstSeen(l, h, txs, visible);
            o.Some? ==>
              && o.value.Mined?
              && forall tx :: tx in txs && tx < o.value.tx ==> !(visible(tx) && Receipt(l, h, tx).Some?)
  {
    FirstSeenMeans(l, h, txs, visible);
    if txs != [] && !(visible(txs[0]) && Receipt(l, h, txs[0]).Some?) {
      FirstSeenLeast(l, h, txs[1..], visible);
    }
  }

  /** A check of the accepted copies finds the first one shown, and nothing exactly when none is. */
  lemma CheckMeans(l: Ledger, r: Replies, n: nat, m: nat, h: nat, visible: nat -> bool)
    ensures var o := FirstSeen(l, h, SentList(r, n, m), visible);
            && (o.None? <==> NoneShown(l, r, n, m, h, visible))
            && forall tx: nat :: FirstShown(l, r, n, m, h, visible, tx) ==>
                 o == Some(Mined(tx, Receipt(l, h, tx).value))
  {
    var txs := SentList(r, n, m);
    var o := FirstSeen(l, h, txs, visible);
    SentListMeans(r, n, m);
    FirstSeenMeans(l, h, txs, visible);
    FirstSeenLeast(l, h, txs, visible);
    if o.Some? {
      assert Shown(l, r, n, m, h, visible, o.value.tx);
    }
    forall tx: nat | FirstShown(l, r, n, m, h, visible, tx)
      ensures o == Some(Mined(tx, Receipt(l, h, tx).value)) {
      assert Shown(l, r, n, m, h, visible, tx);
      assert tx == o.value.tx;
    }
  }

  lemma CheckNone(l: Ledger, r: Replies, n: nat, m: nat, h: nat, visible: nat -> bool)
    ensures var o := FirstSeen(l, h, SentList(r, n, m), visible);
            (o.None? <==> NoneShown(l, r, n, m, h, visible)) && (o.Some? ==> o.value.Mined?)
  {
    CheckMeans(l, r, n, m, h, visible);
    FirstSeenMeans(l, h, SentList(r, n, m), visible);
  }

  /** A round that ends the call, at a state of its own. */
  lemma RoundEnds(l: Ledger, s: State, r: Replies, j: nat, end: End)
    requires InBounds(s) && s.attempt < 5 && Step(l, s, r.rounds(j)) == Done(end)
    ensures Rounds(l, s, r, j) == end
  {
  }

  lemma RoundGoes(l: Ledger, s: State, r: Replies, j: nat, s': State)
    requires InBounds(s) && s.attempt < 5 && Step(l, s, r.rounds(j)) == Go(s') && InBounds(s')
    ensures Rounds(l, s, r, j) == Rounds(l, s', r, j + 1)
  {
  }

  lemma StepAccepted(l: Ledger, s: State, rd: Round)
    requires Prepared(rd) && rd.send.Accepted? && !(rd.waited && Receipt(l, s.handed + 1, s.handed).Some?)
    requires FirstSeen(l, s.handed + 1, s.submitted + [s.handed], rd.visible).None?
    ensures Step(l, s, rd) == Go(State(s.attempt + 1, 0, s.handed + 1, s.submitted + [s.handed]))
  {
  }

  lemma StepRetried(l: Ledger, s: State, rd: Round)
    requires Prepared(rd) && rd.send.Rejected?
    requires rd.send.nonceTooLow ==> FirstSeen(l, s.handed + 1, s.submitted, rd.visible).None?
    ensures rd.send.nonceTooLow && s.refreshes < 3 ==>
              Step(l, s, rd) == Go(State(s.attempt, s.refreshes + 1, s.handed + 1, s.submitted))
    ensures !(rd.send.nonceTooLow && s.refreshes < 3) && rd.send.replacement && s.attempt < 4 ==>
              Step(l, s, rd) == Go(State(s.attempt + 1, s.refreshes, s.handed + 1, s.submitted))
  {
  }

  lemma StepGoesOn(l: Ledger, n: nat, r: Replies, m: nat)
    requires GoesOn(l, n, r, m)
    ensures Step(l, StateAt(r, n, m), r.rounds(m)) == Go(StateAt(r, n, m + 1)) && Attempts(r, m + 1) <= 5
  {
    var s, rd := StateAt(r, n, m), r.rounds(m);
    CheckNone(l, r, n, m + 1, n + m + 1, rd.visible);
    if rd.send.Accepted? { StepAccepted(l, s, rd); } else { StepRetried(l, s, rd); }
  }

  lemma PastNext(l: Ledger, n: nat, r: Replies, m: nat)
    requires GoesOn(l, n, r, m)
    ensures Attempts(r, m + 1) <= 5
    ensures Rounds(l, StateAt(r, n, m), r, m) == Rounds(l, StateAt(r, n, m + 1), r, m + 1)
  {
    StepGoesOn(l, n, r, m);
    RoundGoes(l, StateAt(r, n, m), r, m, StateAt(r, n, m + 1));
  }

  lemma {:induction false} PastIs(l: Ledger, n: nat, r: Replies, m: nat)
    requires Past(l, n, r, m)
    ensures Attempts(r, m) <= 5
    ensures Escalated(l, n, r) == Rounds(l, StateAt(r, n, m), r, m)
  {
    if m > 0 {
      PastIs(l, n, r, m - 1);
      PastNext(l, n, r, m - 1);
    }
  }

  lemma EndsAt(l: Ledger, n: nat, r: Replies, m: nat, end: End)
    requires Past(l, n, r, m) && Attempts(r, m) < 5 && Step(l, StateAt(r, n, m), r.rounds(m)) == Done(end)
    ensures Escalated(l, n, r) == end
  {
    PastIs(l, n, r, m);
    RoundEnds(l, StateAt(r, n, m), r, m, end);
  }

  lemma EndsAtLast(l: Ledger, n: nat, r: Replies, m: nat, seen: Option<Outcome>)
    requires Past(l, n, r, m) && Attempts(r, m) == 5 && seen == FirstSeen(l, n + m, SentList(r, n, m), r.finally)
    ensures Escalated(l, n, r) == End(if seen.Some? then seen.value else Failed(false), n + m)
  {
    PastIs(l, n, r, m);
    LastCheck(l, StateAt(r, n, m), r, m, seen);
  }

  lemma LastCheck(l: Ledger, s: State, r: Replies, j: nat, seen: Option<Outcome>)
    requires InBounds(s) && s.attempt == 5 && seen == FirstSeen(l, s.handed, s.submitted, r.finally)
    ensures Rounds(l, s, r, j) == End(if seen.Some? then seen.value else Failed(false), s.handed)
  {
  }

  // ---- how the call ends ----

  /** The revert flag of what failed before a copy was handed over; the price limit is no revert. */
  function Unprepared(rd: Round): bool
  {
    if rd.nonce.Error? then rd.nonce.revert else !rd.overLimit && rd.build.Error? && rd.build.revert
  }

  lemma StepInTime(l: Ledger, s: State, rd: Round)
    requires Prepared(rd) && rd.send.Accepted? && rd.waited && Receipt(l, s.handed + 1, s.handed).Some?
    ensures Step(l, s, rd) == Done(End(Mined(s.handed, Receipt(l, s.handed + 1, s.handed).value), s.handed + 1))
  {
  }

  /** The copies that the check at the end of a round looks at. */
  function Checked(s: State, rd: Round): seq<nat>
  {
    if rd.send.Accepted? then s.submitted + [s.handed] else s.submitted
  }

  lemma StepSeen(l: Ledger, s: State, rd: Round, o: Outcome)
    requires Prepared(rd) && (rd.send.Accepted? || rd.send.nonceTooLow)
    requires rd.send.Accepted? ==> !(rd.waited && Receipt(l, s.handed + 1, s.handed).Some?)
    requires FirstSeen(l, s.handed + 1, Checked(s, rd), rd.visible) == Some(o)
    ensures Step(l, s, rd) == Done(End(o, s.handed + 1))
  {
  }

  lemma StepRefused(l: Ledger, s: State, rd: Round)
    requires Prepared(rd) && rd.send.Rejected? && !(rd.send.replacement && s.attempt < 4)
    requires rd.send.nonceTooLow ==> s.refreshes >= 3 && FirstSeen(l, s.handed + 1, s.submitted, rd.visible).None?
    ensures Step(l, s, rd) == Done(End(Failed(rd.send.revert), s.handed + 1))
  {
  }

  lemma StepUnprepared(l: Ledger, s: State, rd: Round)
    requires !Prepared(rd)
    ensures Step(l, s, rd) == Done(End(Failed(Unprepared(rd)), s.handed))
  {
  }

  /** Five attempts are all: one last check decides. */
  lemma AttemptsUsedUp(l: Ledger, n: nat, r: Replies, m: nat)
    requires Past(l, n, r, m) && Attempts(r, m) == 5
    ensures Escalated(l, n, r).handed == n + m
    ensures NoneShown(l, r, n, m, n + m, r.finally) ==> Escalated(l, n, r).out == Failed(false)
  {
    CheckNone(l, r, n, m, n + m, r.finally);
    EndsAtLast(l, n, r, m, FirstSeen(l, n + m, SentList(r, n, m), r.finally));
  }

  lemma MinedAtLast(l: Ledger, n: nat, r: Replies, m: nat, tx: nat)
    requires Past(l, n, r, m) && Attempts(r, m) == 5 && FirstShown(l, r, n, m, n + m, r.finally, tx)
    ensures Escalated(l, n, r) == End(Mined(tx, Receipt(l, n + m, tx).value), n + m)
  {
    CheckMeans(l, r, n, m, n + m, r.finally);
    EndsAtLast(l, n, r, m, FirstSeen(l, n + m, SentList(r, n, m), r.finally));
  }

  /** A round that cannot hand a copy over ends the call with its error. */
  lemma NotPrepared(l: Ledger, n: nat, r: Replies, m: nat)
    requires Past(l, n, r, m) && Attempts(r, m) < 5 && !Prepared(r.rounds(m))
    ensures Escalated(l, n, r) == End(Failed(Unprepared(r.rounds(m))), n + m)
  {
    var s := StateAt(r, n, m);
    StepUnprepared(l, s, r.rounds(m));
    EndsAt(l, n, r, m, End(Failed(Unprepared(r.rounds(m))), n + m));
  }

  /** A copy seen mined in time ends the call with its own receipt, and no further copy is handed over. */
  lemma MinedInTime(l: Ledger, n: nat, r: Replies, m: nat)
    requires Past(l, n, r, m) && Attempts(r, m) < 5 && Prepared(r.rounds(m)) && SeenInTime(l, n, r, m)
    ensures Escalated(l, n, r) == End(Mined(n + m, Receipt(l, n + m + 1, n + m).value), n + m + 1)
  {
    var s := StateAt(r, n, m);
    StepInTime(l, s, r.rounds(m));
    EndsAt(l, n, r, m, End(Mined(n + m, Receipt(l, n + m + 1, n + m).value), n + m + 1));
  }

  /** Otherwise a check after the wait, or after a nonce conflict, ends it with the first receipt it sees. */
  lemma MinedBefore(l: Ledger, n: nat, r: Replies, m: nat, tx: nat)
    requires Past(l, n, r, m) && Attempts(r, m) < 5 && Prepared(r.rounds(m)) && !SeenInTime(l, n, r, m)
    requires r.rounds(m).send.Accepted? || r.rounds(m).send.nonceTooLow
    requires FirstShown(l, r, n, m + 1, n + m + 1, r.rounds(m).visible, tx)
    ensures Escalated(l, n, r) == End(Mined(tx, Receipt(l, n + m + 1, tx).value), n + m + 1)
  {
    CheckMeans(l, r, n, m + 1, n + m + 1, r.rounds(m).visible);
    EndsSeen(l, n, r, m, Mined(tx, Receipt(l, n + m + 1, tx).value));
  }

  lemma EndsSeen(l: Ledger, n: nat, r: Replies, m: nat, o: Outcome)
    requires Past(l, n, r, m) && Attempts(r, m) < 5 && Prepared(r.rounds(m)) && !SeenInTime(l, n, r, m)
    requires r.rounds(m).send.Accepted? || r.rounds(m).send.nonceTooLow
    requires FirstSeen(l, n + m + 1, SentList(r, n, m + 1), r.rounds(m).visible) == Some(o)
    ensures Escalated(l, n, r) == End(o, n + m + 1)
  {
    var s := StateAt(r, n, m);
    CheckedIs(r, n, m);
    StepSeen(l, s, r.rounds(m), o);
    EndsAt(l, n, r, m, End(o, n + m + 1));
  }

  lemma CheckedIs(r: Replies, n: nat, m: nat)
    ensures Checked(StateAt(r, n, m), r.rounds(m)) == SentList(r, n, m + 1)
  {
  }

  /** A rejection that is not tried again, and behind which no receipt is seen, ends the call with its error. */
  lemma Refused(l: Ledger, n: nat, r: Replies, m: nat)
    requires Past(l, n, r, m) && Attempts(r, m) < 5 && Prepared(r.rounds(m))
    requires r.rounds(m).send.Rejected? && !Retried(r, m) && (r.rounds(m).send.nonceTooLow ==> Unseen(l, n, r, m))
    ensures Escalated(l, n, r) == End(Failed(r.rounds(m).send.revert), n + m + 1)
  {
    CheckNone(l, r, n, m + 1, n + m + 1, r.rounds(m).visible);
    EndsRefused(l, n, r, m, r.rounds(m).send.revert);
  }

  lemma EndsRefused(l: Ledger, n: nat, r: Replies, m: nat, revert: bool)
    requires Past(l, n, r, m) && Attempts(r, m) < 5 && Prepared(r.rounds(m))
    requires r.rounds(m).send.Rejected? && r.rounds(m).send.revert == revert && !Retried(r, m)
    requires r.rounds(m).send.nonceTooLow ==>
               FirstSeen(l, n + m + 1, SentList(r, n, m + 1), r.rounds(m).visible).None?
    ensures Escalated(l, n, r) == End(Failed(revert), n + m + 1)
  {
    var s := StateAt(r, n, m);
    CheckedIs(r, n, m);
    StepRefused(l, s, r.rounds(m));
    EndsAt(l, n, r, m, End(Failed(revert), n + m + 1));
  }

  // ---- every call ends in one of these ways ----

  /** The call goes past some rounds, after which the attempts are used up or one round ends it. */
  ghost predicate StopsAfter(l: Ledger, n: nat, r: Replies, m: nat)
  {
    Past(l, n, r, m) && !GoesOn(l, n, r, m)
  }

  lemma {:induction false} SomeStop(l: Ledger, n: nat, r: Replies, k: nat) returns (m: nat)
    requires Past(l, n, r, k) && Attempts(r, k) <= 5
    ensures StopsAfter(l, n, r, m) && Attempts(r, m) <= 5
    decreases 5 - Attempts(r, k), 3 - Conflicts(r, k)
  {
    m := k;
    if Attempts(r, k) < 5 && GoesOn(l, n, r, k) {
      m := SomeStop(l, n, r, k + 1);
    }
  }

  /** No receipt was missed: none of a copy in the round that waited for it, none in any check made. */
  ghost predicate NothingMissed(l: Ledger, n: nat, r: Replies, m: nat, h: nat)
  {
    && (forall i: nat :: i < h ==> !SeenInTime(l, n, r, i))
    && (forall i: nat :: i < h && (r.rounds(i).send.Accepted? || r.rounds(i).send.nonceTooLow) ==> Unseen(l, n, r, i))
    && (h == m && Attempts(r, m) == 5 ==> NoneShown(l, r, n, m, n + m, r.finally))
  }

  /** A call that fails after its first price was read missed no receipt: it stopped after m rounds, at a round that
      handed no copy over, at a rejection, or at the last check. */
  lemma FailedMeans(l: Ledger, n: nat, r: Replies) returns (m: nat)
    requires Escalated(l, n, r).out.Failed? && r.gas.Fine?
    ensures StopsAfter(l, n, r, m) && n + m <= Escalated(l, n, r).handed <= n + m + 1
    ensures NothingMissed(l, n, r, m, Escalated(l, n, r).handed - n)
  {
    m := SomeStop(l, n, r, 0);
    forall i: nat | i < m
      ensures !SeenInTime(l, n, r, i)
      ensures r.rounds(i).send.Accepted? || r.rounds(i).send.nonceTooLow ==> Unseen(l, n, r, i)
    {
      assert GoesOn(l, n, r, i);
    }
    if Attempts(r, m) == 5 {
      NotAtLast(l, n, r, m);
    } else if !Prepared(r.rounds(m)) {
      NotPrepared(l, n, r, m);
    } else {
      StopFailed(l, n, r, m);
    }
  }

  lemma NotAtLast(l: Ledger, n: nat, r: Replies, m: nat)
    requires Past(l, n, r, m) && Attempts(r, m) == 5 && Escalated(l, n, r).out.Failed?
    ensures Escalated(l, n, r).handed == n + m && NoneShown(l, r, n, m, n + m, r.finally)
  {
    var txs := SentList(r, n, m);
    CheckNone(l, r, n, m, n + m, r.finally);
    EndsAtLast(l, n, r, m, FirstSeen(l, n + m, txs, r.finally));
  }

  lemma NotInTime(l: Ledger, n: nat, r: Replies, m: nat)
    requires Past(l, n, r, m) && Attempts(r, m) < 5 && Prepared(r.rounds(m)) && Escalated(l, n, r).out.Failed?
    ensures !SeenInTime(l, n, r, m)
  {
    if SeenInTime(l, n, r, m) { MinedInTime(l, n, r, m); }
  }

  lemma NotSeen(l: Ledger, n: nat, r: Replies, m: nat)
    requires Past(l, n, r, m) && Attempts(r, m) < 5 && Prepared(r.rounds(m)) && Escalated(l, n, r).out.Failed?
    requires !SeenInTime(l, n, r, m) && (r.rounds(m).send.Accepted? || r.rounds(m).send.nonceTooLow)
    ensures Unseen(l, n, r, m)
  {
    var txs, visible := SentList(r, n, m + 1), r.rounds(m).visible;
    CheckNone(l, r, n, m + 1, n + m + 1, visible);
    var o := FirstSeen(l, n + m + 1, txs, visible);
    if o.Some? { EndsSeen(l, n, r, m, o.value); }
  }

  lemma StopFailed(l: Ledger, n: nat, r: Replies, m: nat)
    requires StopsAfter(l, n, r, m) && Attempts(r, m) < 5 && Prepared(r.rounds(m)) && Escalated(l, n, r).out.Failed?
    ensures Escalated(l, n, r).handed == n + m + 1
    ensures !SeenInTime(l, n, r, m)
    ensures r.rounds(m).send.Accepted? || r.rounds(m).send.nonceTooLow ==> Unseen(l, n, r, m)
  {
    NotInTime(l, n, r, m);
    if r.rounds(m).send.Accepted? || r.rounds(m).send.nonceTooLow {
      NotSeen(l, n, r, m);
    }
    Refused(l, n, r, m);
  }
}
