/** The channel fan-in: one goroutine per input forwards values to an unbuffered output, and a closer
    waits for all of them. Producers, goroutines and closer take their steps in any order; a reader of the
    output is always willing. */
module FanIn {
  import opened ByteStrings

  /** A forwarding goroutine: waiting on its input, holding a value to send, or past wg.Done. */
  datatype Worker<T> = Waiting | Carrying(value: T) | Finished

  /** One input with its goroutine. `sent` records everything the producer ever sent. */
  datatype Lane<T> = Lane(sent: seq<T>, pending: seq<T>, closed: bool, worker: Worker<T>)

  /** `out` lists what the reader received, each value with the input it came from. `panicked` is set by a
      send on the closed output, a second close, or a WaitGroup counter below zero. */
  datatype State<T> = State(lanes: seq<Lane<T>>, wg: int, out: seq<(nat, T)>, closerDone: bool, closes: nat,
                            panicked: bool)

  datatype Step<T> =
    | Produce(i: nat, value: T)
    | CloseInput(i: nat)
    | Receive(i: nat)
    | Send(i: nat)
    | Finish(i: nat)
    | CloseOut

  function Init<T>(n: nat): State<T>
  {
    State(seq(n, _ => Lane([], [], false, Waiting)), n, [], false, 0, false)
  }

  predicate Enabled<T>(s: State<T>, step: Step<T>)
  {
    if step.CloseOut? then s.wg == 0 && !s.closerDone
    else
      step.i < |s.lanes| &&
      var lane := s.lanes[step.i];
      match step
      case Produce(_, _) => !lane.closed
      case CloseInput(_) => !lane.closed
      case Receive(_) => lane.worker.Waiting? && lane.pending != []
      case Send(_) => lane.worker.Carrying?
      case Finish(_) => lane.worker.Waiting? && lane.pending == [] && lane.closed
  }

  function Do<T>(s: State<T>, step: Step<T>): State<T>
    requires Enabled(s, step)
  {
    match step
    case Produce(i, v) =>
      var lane := s.lanes[i];
      s.(lanes := s.lanes[i := lane.(sent := lane.sent + [v], pending := lane.pending + [v])])
    case CloseInput(i) => s.(lanes := s.lanes[i := s.lanes[i].(closed := true)])
    case Receive(i) =>
      var lane := s.lanes[i];
      s.(lanes := s.lanes[i := lane.(pending := lane.pending[1..], worker := Carrying(lane.pending[0]))])
    case Send(i) =>
      var lane := s.lanes[i];
      s.(lanes := s.lanes[i := lane.(worker := Waiting)], out := s.out + [(i, lane.worker.value)],
         panicked := s.panicked || s.closes > 0)
    case Finish(i) =>
      s.(lanes := s.lanes[i := s.lanes[i].(worker := Finished)], wg := s.wg - 1, panicked := s.panicked || s.wg < 1)
    case CloseOut => s.(closerDone := true, closes := s.closes + 1, panicked := s.panicked || s.closes > 0)
  }

  // ---- what the reader sees of one input ----

  function From<T>(out: seq<(nat, T)>, i: nat): seq<T>
  {
    if out == [] then []
    else
      var before := From(out[..|out| - 1], i);
      if out[|out| - 1].0 == i then before + [out[|out| - 1].1] else before
  }

  lemma FromSnoc<T>(out: seq<(nat, T)>, j: nat, v: T, i: nat)
    ensures From(out + [(j, v)], i) == if i == j then From(out, i) + [v] else From(out, i)
  {
    assert (out + [(j, v)])[..|out|] == out;
  }

  function Hand<T>(w: Worker<T>): seq<T>
  {
    if w.Carrying? then [w.value] else []
  }

  // ---- the WaitGroup counter ----

  function Unfinished<T>(lanes: seq<Lane<T>>): nat
  {
    if lanes == [] then 0 else (if lanes[0].worker.Finished? then 0 else 1) + Unfinished(lanes[1..])
  }

  lemma {:induction false} UnfinishedUpdate<T>(lanes: seq<Lane<T>>, i: nat, lane: Lane<T>)
    requires i < |lanes|
    ensures Unfinished(lanes[i := lane]) - (if lane.worker.Finished? then 0 else 1)
         == Unfinished(lanes) - (if lanes[i].worker.Finished? then 0 else 1)
  {
    if i == 0 {
      assert lanes[0 := lane][1..] == lanes[1..];
    } else {
      assert lanes[i := lane][1..] == lanes[1..][i - 1 := lane];
      UnfinishedUpdate(lanes[1..], i - 1, lane);
    }
  }

  lemma {:induction false} UnfinishedZero<T>(lanes: seq<Lane<T>>)
    ensures Unfinished(lanes) == 0 <==> forall i :: 0 <= i < |lanes| ==> lanes[i].worker.Finished?
  {
    if lanes != [] {
      UnfinishedZero(lanes[1..]);
      assert forall i :: 0 <= i < |lanes| - 1 ==> lanes[1..][i] == lanes[i + 1];
      assert forall i :: 1 <= i < |lanes| ==> lanes[i] == lanes[1..][i - 1];
    }
  }

  lemma {:induction false} UnfinishedInit<T>(n: nat)
    ensures Unfinished(Init<T>(n).lanes) == n
  {
    if n > 0 {
      assert Init<T>(n).lanes[1..] == Init<T>(n - 1).lanes;
      UnfinishedInit<T>(n - 1);
    }
  }

  // ---- the invariant ----

  /** What the reader got from this input, what its goroutine holds and what still waits is what was sent. */
  ghost predicate LaneOk<T>(s: State<T>, i: nat)
    requires i < |s.lanes|
  {
    var lane := s.lanes[i];
    && From(s.out, i) + Hand(lane.worker) + lane.pending == lane.sent
    && (lane.worker.Finished? ==> lane.closed && lane.pending == [])
  }

  ghost predicate Inv<T>(s: State<T>)
  {
    && !s.panicked
    && s.wg == Unfinished(s.lanes)
    && s.closes == (if s.closerDone then 1 else 0)
    && (s.closerDone ==> s.wg == 0)
    && (forall k :: 0 <= k < |s.out| ==> s.out[k].0 < |s.lanes|)
    && (forall i :: 0 <= i < |s.lanes| ==> LaneOk(s, i))
  }

  lemma Received<T>(got: seq<T>, pending: seq<T>)
    requires pending != []
    ensures got + [pending[0]] + pending[1..] == got + [] + pending
  {
    assert [pending[0]] + pending[1..] == pending;
  }

  lemma Delivered<T>(got: seq<T>, v: T, pending: seq<T>)
    ensures (got + [v]) + [] + pending == got + [v] + pending
  {
  }

  lemma Produced<T>(got: seq<T>, hand: seq<T>, pending: seq<T>, v: T)
    ensures got + hand + (pending + [v]) == (got + hand + pending) + [v]
  {
  }

  lemma LaneKept<T>(s: State<T>, step: Step<T>, i: nat)
    requires Inv(s) && Enabled(s, step) && i < |s.lanes|
    ensures LaneOk(Do(s, step), i)
  {
    assert LaneOk(s, i);
    var lane, got := s.lanes[i], From(s.out, i);
    match step
    case Send(j) =>
      var v := s.lanes[j].worker.value;
      FromSnoc(s.out, j, v, i);
      if i == j { Delivered(got, v, lane.pending); }
    case Produce(j, v) => if i == j { Produced(got, Hand(lane.worker), lane.pending, v); }
    case Receive(j) => if i == j { Received(got, lane.pending); }
    case _ =>
  }

  /** No step panics: no send meets the closed output, the counter never goes below zero, nothing closes twice. */
  lemma NoPanic<T>(s: State<T>, step: Step<T>)
    requires Inv(s) && Enabled(s, step)
    ensures !Do(s, step).panicked
    ensures step.Finish? ==> s.wg > 0
  {
    UnfinishedZero(s.lanes);
    if !step.CloseOut? && !s.lanes[step.i].worker.Finished? {
      assert s.wg > 0;
    }
  }

  lemma InvKept<T>(s: State<T>, step: Step<T>)
    requires Inv(s) && Enabled(s, step)
    ensures Inv(Do(s, step))
  {
    NoPanic(s, step);
    forall i | 0 <= i < |s.lanes| ensures LaneOk(Do(s, step), i) {
      LaneKept(s, step, i);
    }
    if !step.CloseOut? {
      UnfinishedUpdate(s.lanes, step.i, Do(s, step).lanes[step.i]);
      UnfinishedZero(s.lanes);
    }
  }

  // ---- schedules ----

  /** The state a list of steps leads to, None when some step is not enabled at its turn. */
  function Run<T>(n: nat, steps: seq<Step<T>>): Option<State<T>>
  {
    if steps == [] then Some(Init(n))
    else
      var before := Run(n, steps[..|steps| - 1]);
      var last := steps[|steps| - 1];
      if before.Some? && Enabled(before.value, last) then Some(Do(before.value, last)) else None
  }

  predicate IsSchedule<T>(n: nat, steps: seq<Step<T>>)
  {
    Run(n, steps).Some?
  }

  function After<T>(n: nat, steps: seq<Step<T>>): State<T>
    requires IsSchedule(n, steps)
  {
    Run(n, steps).value
  }

  lemma {:induction false} ScheduleInv<T>(n: nat, steps: seq<Step<T>>)
    requires IsSchedule(n, steps)
    ensures Inv(After(n, steps)) && |After(n, steps).lanes| == n
  {
    if steps == [] {
      UnfinishedInit<T>(n);
    } else {
      ScheduleInv(n, steps[..|steps| - 1]);
      InvKept(After(n, steps[..|steps| - 1]), steps[|steps| - 1]);
    }
  }

  /** The values received from the inputs below n. */
  function Below<T>(out: seq<(nat, T)>, n: nat): seq<T>
  {
    if out == [] then []
    else
      var before := Below(out[..|out| - 1], n);
      if out[|out| - 1].0 < n then before + [out[|out| - 1].1] else before
  }

  function Values<T>(out: seq<(nat, T)>): seq<T>
  {
    if out == [] then [] else Values(out[..|out| - 1]) + [out[|out| - 1].1]
  }

  lemma {:induction false} BelowAll<T>(out: seq<(nat, T)>, n: nat)
    requires forall k :: 0 <= k < |out| ==> out[k].0 < n
    ensures Below(out, n) == Values(out)
  {
    if out != [] {
      BelowAll(out[..|out| - 1], n);
    }
  }

  lemma {:induction false} BelowNone<T>(out: seq<(nat, T)>)
    ensures Below(out, 0) == []
  {
    if out != [] {
      BelowNone(out[..|out| - 1]);
    }
  }

  /** How often v occurs. */
  ghost function Count<T>(s: seq<T>, v: T): nat
  {
    if s == [] then 0
    else
      var before := Count(s[..|s| - 1], v);
      if s[|s| - 1] == v then before + 1 else before
  }

  lemma CountSnoc<T>(s: seq<T>, x: T, v: T)
    ensures Count(s + [x], v) == Count(s, v) + if x == v then 1 else 0
  {
    assert (s + [x])[..|s|] == s;
  }

  lemma {:induction false} CountIsMultiplicity<T>(s: seq<T>, v: T)
    ensures Count(s, v) == multiset(s)[v]
  {
    if s != [] {
      CountIsMultiplicity(s[..|s| - 1], v);
      assert s == s[..|s| - 1] + [s[|s| - 1]];
    }
  }

  lemma {:induction false} BelowStep<T>(out: seq<(nat, T)>, n: nat, v: T)
    ensures Count(Below(out, n + 1), v) == Count(Below(out, n), v) + Count(From(out, n), v)
  {
    if out != [] {
      var before, x := out[..|out| - 1], out[|out| - 1].1;
      BelowStep(before, n, v);
      var w, l, r := Below(before, n + 1), Below(before, n), From(before, n);
      CountSnoc(w, x, v);
      CountSnoc(l, x, v);
      CountSnoc(r, x, v);
    }
  }

  /** How often v was sent on the first n inputs. */
  ghost function SentCount<T>(lanes: seq<Lane<T>>, n: nat, v: T): nat
    requires n <= |lanes|
  {
    if n == 0 then 0 else SentCount(lanes, n - 1, v) + Count(lanes[n - 1].sent, v)
  }

  lemma {:induction false} AllDelivered<T>(s: State<T>, n: nat, v: T)
    requires n <= |s.lanes| && forall i :: 0 <= i < n ==> From(s.out, i) == s.lanes[i].sent
    ensures Count(Below(s.out, n), v) == SentCount(s.lanes, n, v)
  {
    if n == 0 {
      BelowNone(s.out);
    } else {
      AllDelivered(s, n - 1, v);
      BelowStep(s.out, n - 1, v);
    }
  }

  /** At every moment of every schedule the reader has, of each input, a prefix of what was sent, in order. */
  lemma InputOrderKept<T>(n: nat, steps: seq<Step<T>>, i: nat)
    requires IsSchedule(n, steps) && i < n
    ensures |After(n, steps).lanes| == n && From(After(n, steps).out, i) <= After(n, steps).lanes[i].sent
  {
    ScheduleInv(n, steps);
    assert LaneOk(After(n, steps), i);
  }

  /** In every schedule nothing panics, the output closes at most once, and once it is closed every input is
      closed, the reader has all of each input in order, and every value as often as it was sent. */
  lemma ClosedMeansAllDelivered<T>(n: nat, steps: seq<Step<T>>, v: T)
    requires IsSchedule(n, steps)
    ensures var s := After(n, steps);
            && !s.panicked && s.closes <= 1 && |s.lanes| == n
            && (s.closes == 1 ==>
                 && (forall i :: 0 <= i < n ==> s.lanes[i].closed && From(s.out, i) == s.lanes[i].sent)
                 && multiset(Values(s.out))[v] == SentCount(s.lanes, n, v))
  {
    ScheduleInv(n, steps);
    var s := After(n, steps);
    if s.closes == 1 {
      UnfinishedZero(s.lanes);
      forall i | 0 <= i < n ensures s.lanes[i].closed && From(s.out, i) == s.lanes[i].sent {
        assert LaneOk(s, i);
      }
      BelowAll(s.out, n);
      AllDelivered(s, n, v);
      CountIsMultiplicity(Values(s.out), v);
    }
  }

  // ---- the fan-in finishes ----

  predicate Own<T>(step: Step<T>)
  {
    !step.Produce? && !step.CloseInput?
  }

  function LaneWork<T>(lane: Lane<T>): nat
  {
    2 * |lane.pending| + |Hand(lane.worker)| + if lane.worker.Finished? then 0 else 1
  }

  function LanesWork<T>(lanes: seq<Lane<T>>): nat
  {
    if lanes == [] then 0 else LaneWork(lanes[0]) + LanesWork(lanes[1..])
  }

  /** The goroutine and closer steps still to come if no producer acts. */
  function Work<T>(s: State<T>): nat
  {
    LanesWork(s.lanes) + if s.closerDone then 0 else 1
  }

  lemma {:induction false} LanesWorkUpdate<T>(lanes: seq<Lane<T>>, i: nat, lane: Lane<T>)
    requires i < |lanes|
    ensures LanesWork(lanes[i := lane]) - LaneWork(lane) == LanesWork(lanes) - LaneWork(lanes[i])
  {
    if i == 0 {
      assert lanes[0 := lane][1..] == lanes[1..];
    } else {
      assert lanes[i := lane][1..] == lanes[1..][i - 1 := lane];
      LanesWorkUpdate(lanes[1..], i - 1, lane);
    }
  }

  /** Each goroutine or closer step is exactly one unit of the remaining work. */
  lemma WorkDecreases<T>(s: State<T>, step: Step<T>)
    requires Enabled(s, step) && Own(step)
    ensures Work(Do(s, step)) == Work(s) - 1
  {
    if !step.CloseOut? {
      LanesWorkUpdate(s.lanes, step.i, Do(s, step).lanes[step.i]);
    }
  }

  /** With all inputs closed some step is possible until the output is closed. */
  lemma Progress<T>(s: State<T>)
    requires Inv(s) && forall i :: 0 <= i < |s.lanes| ==> s.lanes[i].closed
    ensures s.closes == 1 <==> !exists step: Step<T> :: Own(step) && Enabled(s, step)
  {
    UnfinishedZero(s.lanes);
    if s.closes == 0 {
      if s.wg == 0 {
        assert Own<T>(CloseOut) && Enabled(s, CloseOut);
      } else {
        var i :| 0 <= i < |s.lanes| && !s.lanes[i].worker.Finished?;
        var lane := s.lanes[i];
        var step: Step<T> :=
          if lane.worker.Carrying? then Send(i) else if lane.pending != [] then Receive(i) else Finish(i);
        assert Own(step) && Enabled(s, step);
      }
    } else {
      forall step: Step<T> | Own(step) ensures !Enabled(s, step) {
      }
    }
  }

  /** However the goroutines are scheduled after the inputs close, `Work` steps later the output is closed
      and everything is delivered. */
  lemma {:induction false} AlwaysCloses<T>(n: nat, steps: seq<Step<T>>, more: seq<Step<T>>)
    requires IsSchedule(n, steps) && IsSchedule(n, steps + more)
    requires forall k :: 0 <= k < |more| ==> Own(more[k])
    requires forall i :: 0 <= i < |After(n, steps).lanes| ==> After(n, steps).lanes[i].closed
    ensures Work(After(n, steps + more)) == Work(After(n, steps)) - |more|
    ensures |After(n, steps + more).lanes| == |After(n, steps).lanes|
    ensures forall i :: 0 <= i < |After(n, steps).lanes| ==> After(n, steps + more).lanes[i].closed
    ensures After(n, steps + more).closes == 1 <==> |more| == Work(After(n, steps))
    decreases |more|
  {
    if more == [] {
      assert steps + more == steps;
    } else {
      var init := more[..|more| - 1];
      assert (steps + more)[..|steps + more| - 1] == steps + init;
      AlwaysCloses(n, steps, init);
      WorkDecreases(After(n, steps + init), more[|more| - 1]);
    }
    ScheduleInv(n, steps + more);
    ClosedIffNoWork(After(n, steps + more));
  }

  lemma {:induction false} LanesWorkZero<T>(lanes: seq<Lane<T>>)
    ensures LanesWork(lanes) >= Unfinished(lanes)
    ensures (forall i :: 0 <= i < |lanes| ==> lanes[i].worker.Finished? && lanes[i].pending == []) ==>
              LanesWork(lanes) == 0
  {
    if lanes != [] {
      assert forall i :: 1 <= i < |lanes| ==> lanes[i] == lanes[1..][i - 1];
      LanesWorkZero(lanes[1..]);
    }
  }

  lemma ClosedIffNoWork<T>(s: State<T>)
    requires Inv(s)
    ensures s.closes == 1 <==> Work(s) == 0
  {
    LanesWorkZero(s.lanes);
    UnfinishedZero(s.lanes);
    if s.closes == 1 {
      forall i | 0 <= i < |s.lanes| ensures s.lanes[i].pending == [] {
        assert LaneOk(s, i);
      }
    }
  }
}
