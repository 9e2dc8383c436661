/** Sending a transaction again and again with rising gas prices, and what the chain makes of the copies. */
module TxEscalator {
  import opened ByteStrings

  const MAX_ATTEMPTS: nat := 5
  const MAX_REFRESHES: nat := 3

  // ---- the chain's side ----

  /** Copies are numbered as they are handed to the node. `order` are the copies the chain executes, in its own
      order, and `passes(k)` says whether the k-th execution succeeds. */
  datatype Ledger = Ledger(order: seq<nat>, passes: nat -> bool)

  /** How many executions there can be once n copies were handed over: the order up to the first entry that is
      no such copy, or that was executed before. */
  function Executed(order: seq<nat>, n: nat): (e: nat)
    ensures e <= |order|
  {
    ExecutedFrom(order, n, 0)
  }

  function ExecutedFrom(order: seq<nat>, n: nat, k: nat): (e: nat)
    requires k <= |order|
    ensures k <= e <= |order|
    decreases |order| - k
  {
    if k < |order| && order[k] < n && order[k] !in order[..k] then ExecutedFrom(order, n, k + 1) else k
  }

  lemma {:induction false} ExecutedCopies(order: seq<nat>, n: nat, k: nat)
    requires k <= |order|
    ensures forall j :: k <= j < ExecutedFrom(order, n, k) ==> order[j] < n && order[j] !in order[..j]
    decreases |order| - k
  {
    if k < |order| && order[k] < n && order[k] !in order[..k] {
      ExecutedCopies(order, n, k + 1);
    }
  }

  lemma {:induction false} ExecutedGrows(order: seq<nat>, n: nat, m: nat, k: nat)
    requires k <= |order| && n <= m
    ensures ExecutedFrom(order, n, k) <= ExecutedFrom(order, m, k)
    decreases |order| - k
  {
    if k < |order| && order[k] < n && order[k] !in order[..k] {
      ExecutedGrows(order, n, m, k + 1);
    }
  }

  /** Nothing is executed before it was handed over. */
  lemma NothingHanded(order: seq<nat>)
    ensures Executed(order, 0) == 0
  {
  }

  /** The first place of tx from k on, or e. */
  function PlaceFrom(order: seq<nat>, tx: nat, k: nat, e: nat): (p: nat)
    requires k <= e <= |order|
    ensures k <= p <= e && (p < e ==> order[p] == tx)
    ensures forall j :: k <= j < p ==> order[j] != tx
    decreases e - k
  {
    if k < e && order[k] != tx then PlaceFrom(order, tx, k + 1, e) else k
  }

  /** The status in the receipt of copy tx, if it was executed. */
  function Receipt(l: Ledger, n: nat, tx: nat): Option<bool>
  {
    var e := Executed(l.order, n);
    var p := PlaceFrom(l.order, tx, 0, e);
    if p < e then Some(l.passes(p)) else None
  }

  /** A receipt stays what it is. */
  lemma ReceiptStays(l: Ledger, n: nat, m: nat, tx: nat)
    requires n <= m && Receipt(l, n, tx).Some?
    ensures Receipt(l, m, tx) == Receipt(l, n, tx)
  {
    ExecutedGrows(l.order, n, m, 0);
  }

  /** A receipt is that of exactly one execution. */
  lemma ReceiptAt(l: Ledger, n: nat, tx: nat, p: nat)
    requires p < Executed(l.order, n) && l.order[p] == tx
    ensures Receipt(l, n, tx) == Some(l.passes(p))
  {
    ExecutedCopies(l.order, n, 0);
    forall j | 0 <= j < p ensures l.order[j] != tx {
      assert l.order[..p][j] == l.order[j];
    }
  }

  // ---- the sender's side ----

  /** A reply, or an error and whether its text speaks of a revert. */
  datatype Reply = Fine | Error(revert: bool)

  datatype SendReply = Accepted | Rejected(nonceTooLow: bool, replacement: bool, revert: bool)

  /** The replies of one round; `waited` says whether the receipt of the copy just sent is seen in time if there is
      one, and `visible` which receipts a check of all submitted copies gets to see. */
  datatype Round = Round(nonce: Reply, overLimit: bool, build: Reply, send: SendReply, waited: bool,
                         visible: nat -> bool)

  datatype Replies = Replies(gas: Reply, rounds: nat -> Round, finally: nat -> bool)

  datatype Outcome = Mined(tx: nat, ok: bool) | Failed(revert: bool)

  /** The outcome, and how many copies were handed over so far. */
  datatype End = End(out: Outcome, handed: nat)

  /** The first submitted copy whose receipt is there and visible. */
  function FirstSeen(l: Ledger, n: nat, txs: seq<nat>, visible: nat -> bool): (o: Option<Outcome>)
  {
    if txs == [] then None
    else if visible(txs[0]) && Receipt(l, n, txs[0]).Some? then Some(Mined(txs[0], Receipt(l, n, txs[0]).value))
    else FirstSeen(l, n, txs[1..], visible)
  }

  lemma {:induction false} FirstSeenMeans(l: Ledger, n: nat, txs: seq<nat>, visible: nat -> bool)
    ensures var o := FirstSeen(l, n, txs, visible);
            && (o.Some? ==>
                  && o.value.Mined? && o.value.tx in txs && visible(o.value.tx)
                  && Receipt(l, n, o.value.tx) == Some(o.value.ok))
            && (o.None? ==> forall tx :: tx in txs && visible(tx) ==> Receipt(l, n, tx).None?)
  {
    if txs != [] {
      FirstSeenMeans(l, n, txs[1..], visible);
    }
  }

  method CheckSubmittedTxs(l: Ledger, n: nat, txs: seq<nat>, visible: nat -> bool) returns (o: Option<Outcome>)
    ensures o == FirstSeen(l, n, txs, visible)
  {
    var i := 0;
    while i < |txs|
      invariant 0 <= i <= |txs|
      invariant FirstSeen(l, n, txs, visible) == FirstSeen(l, n, txs[i..], visible)
    {
      var receipt := Receipt(l, n, txs[i]);
      if visible(txs[i]) && receipt.Some? {
        return Some(Mined(txs[i], receipt.value));
      }
      assert txs[i..][1..] == txs[i + 1..];
      i := i + 1;
    }
    o := None;
  }

  datatype State = State(attempt: nat, refreshes: nat, handed: nat, submitted: seq<nat>)

  datatype Next = Done(end: End) | Go(state: State)

  /** One round: fetch the nonce, build, hand over, wait. */
  function Step(l: Ledger, s: State, rd: Round): Next
  {
    if rd.nonce.Error? then Done(End(Failed(rd.nonce.revert), s.handed))
    else if rd.overLimit then Done(End(Failed(false), s.handed))
    else if rd.build.Error? then Done(End(Failed(rd.build.revert), s.handed))
    else if rd.send.Accepted? then AfterAccepted(l, s, rd)
    else AfterRejected(l, s, rd)
  }

  function AfterRejected(l: Ledger, s: State, rd: Round): Next
    requires rd.send.Rejected?
  {
    var n := s.handed + 1;
    var seen := if rd.send.nonceTooLow then FirstSeen(l, n, s.submitted, rd.visible) else None;
    if seen.Some? then Done(End(seen.value, n))
    else if rd.send.nonceTooLow && s.refreshes < MAX_REFRESHES then
      Go(State(s.attempt, s.refreshes + 1, n, s.submitted))
    else if rd.send.replacement && s.attempt + 1 < MAX_ATTEMPTS then
      Go(State(s.attempt + 1, s.refreshes, n, s.submitted))
    else Done(End(Failed(rd.send.revert), n))
  }

  function AfterAccepted(l: Ledger, s: State, rd: Round): Next
  {
    var n, txs := s.handed + 1, s.submitted + [s.handed];
    var receipt := Receipt(l, n, s.handed);
    var seen := FirstSeen(l, n, txs, rd.visible);
    if rd.waited && receipt.Some? then Done(End(Mined(s.handed, receipt.value), n))
    else if seen.Some? then Done(End(seen.value, n))
    else Go(State(s.attempt + 1, 0, n, txs))
  }

  predicate InBounds(s: State)
  {
    s.attempt <= MAX_ATTEMPTS && s.refreshes <= MAX_REFRESHES
  }

  /** All rounds from number j on, and the final check. */
  function Rounds(l: Ledger, s: State, r: Replies, j: nat): End
    requires InBounds(s)
    decreases MAX_ATTEMPTS - s.attempt, MAX_REFRESHES - s.refreshes
  {
    if s.attempt == MAX_ATTEMPTS then
      var seen := FirstSeen(l, s.handed, s.submitted, r.finally);
      End(if seen.Some? then seen.value else Failed(false), s.handed)
    else
      match Step(l, s, r.rounds(j))
      case Done(end) => end
      case Go(s') => Rounds(l, s', r, j + 1)
  }

  /** Sends one transaction; n copies of it were handed over before. */
  function Escalated(l: Ledger, n: nat, r: Replies): End
  {
    if r.gas.Error? then End(Failed(r.gas.revert), n) else Rounds(l, State(0, 0, n, []), r, 0)
  }

  method SendWithEscalation(l: Ledger, n: nat, r: Replies) returns (out: Outcome, handed: nat)
    ensures End(out, handed) == Escalated(l, n, r)
  {
    handed := n;
    if r.gas.Error? {
      return Failed(r.gas.revert), handed;
    }
    var attempt, refreshes, submitted, j := 0, 0, [], 0;
    while attempt < MAX_ATTEMPTS
      invariant InBounds(State(attempt, refreshes, handed, submitted))
      invariant Escalated(l, n, r) == Rounds(l, State(attempt, refreshes, handed, submitted), r, j)
      decreases MAX_ATTEMPTS - attempt, MAX_REFRESHES - refreshes
    {
      var rd := r.rounds(j);
      j := j + 1;
      if rd.nonce.Error? {
        return Failed(rd.nonce.revert), handed;
      }
      if rd.overLimit {
        return Failed(false), handed;
      }
      if rd.build.Error? {
        return Failed(rd.build.revert), handed;
      }
      var tx := handed;
      handed := handed + 1;
      if rd.send.Rejected? {
        if rd.send.nonceTooLow {
          var seen := CheckSubmittedTxs(l, handed, submitted, rd.visible);
          if seen.Some? {
            return seen.value, handed;
          }
          if refreshes < MAX_REFRESHES {
            refreshes := refreshes + 1;
            continue;
          }
        }
        if rd.send.replacement && attempt < MAX_ATTEMPTS - 1 {
          attempt := attempt + 1;
          continue;
        }
        return Failed(rd.send.revert), handed;
      }
      refreshes := 0;
      submitted := submitted + [tx];
      var receipt := Receipt(l, handed, tx);
      if rd.waited && receipt.Some? {
        return Mined(tx, receipt.value), handed;
      }
      var seen := CheckSubmittedTxs(l, handed, submitted, rd.visible);
      if seen.Some? {
        return seen.value, handed;
      }
      attempt := attempt + 1;
    }
    var seen := CheckSubmittedTxs(l, handed, submitted, r.finally);
    out := if seen.Some? then seen.value else Failed(false);
  }

  // ---- what every run keeps ----

  /** At most three refused nonces come before each attempt. */
  const MAX_HANDED: nat := MAX_ATTEMPTS * (MAX_REFRESHES + 1)

  predicate Kept(s: State, n: nat)
  {
    && InBounds(s) && n <= s.handed <= n + (MAX_REFRESHES + 1) * s.attempt + s.refreshes
    && (s.attempt == MAX_ATTEMPTS ==> s.refreshes == 0)
    && (forall tx :: tx in s.submitted ==> n <= tx < s.handed)
  }

  /** What holds of an end: a reported receipt is that of a copy handed over here. */
  predicate Sound(l: Ledger, n: nat, end: End)
  {
    && n <= end.handed <= n + MAX_HANDED
    && (end.out.Mined? ==> n <= end.out.tx < end.handed && Receipt(l, end.handed, end.out.tx) == Some(end.out.ok))
  }

  lemma RejectedKeeps(l: Ledger, s: State, n: nat, rd: Round)
    requires Kept(s, n) && s.attempt < MAX_ATTEMPTS && rd.send.Rejected?
    ensures var next := AfterRejected(l, s, rd);
            if next.Done? then Sound(l, n, next.end) && next.end.handed > s.handed
            else Kept(next.state, n) && next.state.handed > s.handed
  {
    FirstSeenMeans(l, s.handed + 1, s.submitted, rd.visible);
  }

  lemma AcceptedKeeps(l: Ledger, s: State, n: nat, rd: Round)
    requires Kept(s, n) && s.attempt < MAX_ATTEMPTS
    ensures var next := AfterAccepted(l, s, rd);
            if next.Done? then Sound(l, n, next.end) && next.end.handed > s.handed
            else Kept(next.state, n) && next.state.handed > s.handed
  {
    FirstSeenMeans(l, s.handed + 1, s.submitted + [s.handed], rd.visible);
  }

  lemma {:induction false} RoundsSound(l: Ledger, s: State, r: Replies, j: nat, n: nat)
    requires Kept(s, n)
    ensures Sound(l, n, Rounds(l, s, r, j))
    decreases MAX_ATTEMPTS - s.attempt, MAX_REFRESHES - s.refreshes
  {
    if s.attempt == MAX_ATTEMPTS {
      FirstSeenMeans(l, s.handed, s.submitted, r.finally);
    } else {
      var rd := r.rounds(j);
      if rd.send.Accepted? { AcceptedKeeps(l, s, n, rd); } else { RejectedKeeps(l, s, n, rd); }
      if Step(l, s, rd).Go? {
        RoundsSound(l, Step(l, s, rd).state, r, j + 1, n);
      }
    }
  }

  /** For all replies and whatever the chain executes: at most twenty copies are handed over, and a reported receipt
      is the true one of a copy of this call. A failure says nothing about the copies. */
  lemma EscalatedSound(l: Ledger, n: nat, r: Replies)
    ensures Sound(l, n, Escalated(l, n, r))
  {
    if r.gas.Fine? {
      RoundsSound(l, State(0, 0, n, []), r, 0, n);
    }
  }
}
