/** Title updates of the chat store. They load and write back in two critical sections, so what other calls do
    in between can be lost: exactly when, and a schedule that loses a message. */
module ChatTitles {
  import opened ByteStrings
  import opened ChatStore

  /** What a title update is meant to do, in one piece. */
  function Retitle(f: File, title: Text): File
  {
    if f.Some? then Some(f.value.(title := title)) else None
  }

  /** The file is the chat, up to its title. */
  predicate UpToTitle(f: File, c: Chat)
  {
    f.Some? && f.value.(title := c.title) == c
  }

  // ---- the exact condition ----

  lemma RetitleStep(f: File, f': File, op: Op, title: Text)
    requires f' == f || f' == Retitle(f, title)
    ensures Apply(f', op).0 == Apply(f, op).0 || Apply(f', op).0 == Retitle(Apply(f, op).0, title)
  {
  }

  /** A title set early survives to the end or disappears; nothing else depends on it. */
  lemma {:induction false} RetitleEarly(f: File, ops: seq<Op>, title: Text)
    ensures || ApplyAll(Retitle(f, title), ops) == ApplyAll(f, ops)
            || ApplyAll(Retitle(f, title), ops) == Retitle(ApplyAll(f, ops), title)
  {
    if ops != [] {
      var init := ops[..|ops| - 1];
      RetitleEarly(f, init, title);
      RetitleStep(ApplyAll(f, init), ApplyAll(Retitle(f, title), init), ops[|ops| - 1], title);
    }
  }

  /** The file when the title update is done in one piece after the first k of the given sections. */
  function Placed(f: File, ops: seq<Op>, title: Text, k: nat): File
    requires k <= |ops|
  {
    ApplyAll(Retitle(ApplyAll(f, ops[..k]), title), ops[k..])
  }

  lemma PlacedEarly(f: File, ops: seq<Op>, title: Text, k: nat)
    requires k <= |ops|
    ensures Placed(f, ops, title, k) == ApplyAll(f, ops) || Placed(f, ops, title, k) == Retitle(ApplyAll(f, ops), title)
  {
    assert ops == ops[..k] + ops[k..];
    ApplyAllConcat(f, ops[..k], ops[k..]);
    RetitleEarly(ApplyAll(f, ops[..k]), ops[k..], title);
  }

  lemma PlacedLast(f: File, ops: seq<Op>, title: Text)
    ensures ops[..|ops|] == ops && Placed(f, ops, title, |ops|) == Retitle(ApplyAll(f, ops), title)
  {
    assert ops[..|ops|] == ops && ops[|ops|..] == [];
  }

  /** At place k among the sections that ran between its load of c and its write-back the title update finds a
      chat, and the file that the write-back left comes out. */
  ghost predicate Explains(c: Chat, between: seq<Op>, title: Text, k: nat)
  {
    && k <= |between| && ApplyAll(Some(c), between[..k]).Some?
    && Placed(Some(c), between, title, k) == Some(c.(title := title))
  }

  ghost predicate Explained(c: Chat, between: seq<Op>, title: Text)
  {
    exists k :: Explains(c, between, title, k)
  }

  /** Whatever ran in between, deletes and other title updates included: some place for the title update explains
      the file if and only if the file that the write-back replaces is the loaded one up to its title; then the
      place of the write-back itself does. */
  lemma TitleUpdateExact(c: Chat, between: seq<Op>, title: Text)
    ensures Explained(c, between, title) <==> UpToTitle(ApplyAll(Some(c), between), c)
    ensures UpToTitle(ApplyAll(Some(c), between), c) ==> Explains(c, between, title, |between|)
  {
    PlacedLast(Some(c), between, title);
    if UpToTitle(ApplyAll(Some(c), between), c) {
      assert Explains(c, between, title, |between|);
    }
    if Explained(c, between, title) {
      var k :| Explains(c, between, title, k);
      PlacedEarly(Some(c), between, title, k);
    }
  }

  lemma LoadSeen(ops: seq<Op>, i: nat, j: nat)
    requires i < j < |ops| && ops[i].Load?
    ensures ApplyAll(None, ops[..j]) == ApplyAll(ApplyAll(None, ops[..i]), ops[i + 1..j])
    ensures ApplyAll(None, ops[..j + 1]) == Apply(ApplyAll(None, ops[..j]), ops[j]).0
  {
    assert ops[..i + 1][..i] == ops[..i] && ops[..j + 1][..j] == ops[..j];
    assert ops[..j] == ops[..i + 1] + ops[i + 1..j];
    ApplyAllConcat(None, ops[..i + 1], ops[i + 1..j]);
  }

  /** The same of every reachable state: for each write-back on record, the file it loaded, the file it left, and
      when the two sections act as one. */
  lemma TitleUpdateInTrace(trace: seq<State>, n: nat, chat: Text, i: nat, j: nat)
    requires IsTrace(trace) && n < |trace| && LoadedAt(Log(trace[n], chat), i, j)
    ensures var log := Log(trace[n], chat);
            var ops, c, title := OpsOf(log), log[i].reply.chat, log[j].op.copy.title;
            && ApplyAll(None, ops[..i]) == Some(c)
            && ApplyAll(None, ops[..j + 1]) == Some(c.(title := title))
            && (Explained(c, ops[i + 1..j], title) <==> UpToTitle(ApplyAll(None, ops[..j]), c))
  {
    var log := Log(trace[n], chat);
    Linearises(trace, n, chat);
    LoadedWritten(log, FileOf(trace[n].files, chat), i, j);
    TitleUpdateExact(log[i].reply.chat, OpsOf(log)[i + 1..j], log[j].op.copy.title);
  }

  lemma LoadedWritten(log: seq<Event>, f: File, i: nat, j: nat)
    requires Sequential(log, f) && LoadedAt(log, i, j)
    ensures var ops, c, title := OpsOf(log), log[i].reply.chat, log[j].op.copy.title;
            && ApplyAll(None, ops[..i]) == Some(c)
            && ApplyAll(None, ops[..j + 1]) == Some(c.(title := title))
            && ApplyAll(None, ops[..j]) == ApplyAll(Some(c), ops[i + 1..j])
  {
    var ops := OpsOf(log);
    assert ops[i] == log[i].op && ops[j] == log[j].op;
    assert log[i].reply == Apply(ApplyAll(None, ops[..i]), log[i].op).1;
    LoadSeen(ops, i, j);
  }

  // ---- the condition, spelled out for runs without deletes ----

  predicate NoEntry(ops: seq<Op>)
  {
    forall i :: 0 <= i < |ops| ==> !(ops[i].Store? && ops[i].entry.Some?)
  }

  /** The session of the last bind that carries one. */
  function LastSession(ops: seq<Op>, session: Text): Text
  {
    if ops == [] then session
    else
      var last := ops[|ops| - 1];
      if last.Bind? && last.sessionId != [] then last.sessionId else LastSession(ops[..|ops| - 1], session)
  }

  /** The model of the last such bind that carries one. */
  function LastModel(ops: seq<Op>, model: Text): Text
  {
    if ops == [] then model
    else
      var last := ops[|ops| - 1];
      if last.Bind? && last.sessionId != [] && last.modelId != [] then last.modelId
      else LastModel(ops[..|ops| - 1], model)
  }

  lemma {:induction false} BindsOnly(c: Chat, ops: seq<Op>)
    requires Keeping(ops) && NoEntry(ops)
    ensures ApplyAll(Some(c), ops)
         == Some(c.(sessionId := LastSession(ops, c.sessionId), modelId := LastModel(ops, c.modelId)))
  {
    if ops != [] {
      BindsOnly(c, ops[..|ops| - 1]);
    }
  }

  /** A stored prompt adds a message for good. */
  lemma {:induction false} EntryCounts(f: File, ops: seq<Op>)
    requires f.Some? && Keeping(ops) && !NoEntry(ops)
    ensures ApplyAll(f, ops).Some? && |ApplyAll(f, ops).value.messages| > |f.value.messages|
  {
    var init, last := ops[..|ops| - 1], ops[|ops| - 1];
    HistoryGrows(f, init);
    if !NoEntry(init) {
      EntryCounts(f, init);
    } else {
      assert forall i :: 0 <= i < |init| ==> ops[i] == init[i];
    }
  }

  /** Without deletes and other title updates in between, the two sections act as one exactly when no prompt was
      stored and the last binds carry the session and the model that were loaded. */
  lemma UpToTitleIff(c: Chat, between: seq<Op>)
    requires Keeping(between)
    ensures UpToTitle(ApplyAll(Some(c), between), c) <==>
              && NoEntry(between)
              && LastSession(between, c.sessionId) == c.sessionId && LastModel(between, c.modelId) == c.modelId
  {
    if NoEntry(between) {
      BindsOnly(c, between);
    } else {
      EntryCounts(Some(c), between);
    }
  }

  /** A prompt stored in between is lost however the operations are ordered, not only in the order they ran. */
  lemma StoreLostInEveryOrder(c: Chat, title: Text, first: seq<Op>, rest: seq<Op>)
    requires Keeping(first) && Keeping(rest) && !(NoEntry(first) && NoEntry(rest))
    ensures ApplyAll(Retitle(ApplyAll(Some(c), first), title), rest) != Some(c.(title := title))
  {
    var f := ApplyAll(Some(c), first);
    HistoryGrows(Some(c), first);
    HistoryGrows(Retitle(f, title), rest);
    if !NoEntry(first) { EntryCounts(Some(c), first); }
    if !NoEntry(rest) { EntryCounts(Retitle(f, title), rest); }
  }

  lemma {:induction false} NoMessages(ops: seq<Op>)
    requires Keeping(ops) && NoEntry(ops)
    ensures ApplyAll(None, ops).Some? ==> ApplyAll(None, ops).value.messages == []
  {
    if ops != [] {
      NoMessages(ops[..|ops| - 1]);
    }
  }

  /** A delete in between is undone: unless prompts were stored after it, the messages it removed are back, and no
      place for the title update explains that. */
  lemma DeleteUndone(c: Chat, title: Text, before: seq<Op>, rest: seq<Op>)
    requires c.messages != [] && Keeping(rest) && NoEntry(rest)
    ensures var gone := ApplyAll(Some(c), before + [Delete] + rest);
            && (gone.Some? ==> gone.value.messages == [])
            && Apply(gone, WriteBack(c.(title := title))).0 == Some(c.(title := title))
            && !Explained(c, before + [Delete] + rest, title)
  {
    ApplyAllConcat(Some(c), before + [Delete], rest);
    assert (before + [Delete])[..|before|] == before;
    NoMessages(rest);
    TitleUpdateExact(c, before + [Delete] + rest, title);
  }

  // ---- histories whose title updates all act as one ----

  /** A section, or a title update in one piece. */
  datatype Whole = Plain(op: Op) | Rename(title: Text)

  function ApplyWhole(f: File, w: Whole): (File, Reply)
  {
    match w
    case Plain(op) => Apply(f, op)
    case Rename(title) => (Retitle(f, title), if f.Some? then Done else Missing)
  }

  function ApplyWholes(f: File, ws: seq<Whole>): File
  {
    if ws == [] then f else ApplyWhole(ApplyWholes(f, ws[..|ws| - 1]), ws[|ws| - 1]).0
  }

  function WholeOf(op: Op): Whole
  {
    if op.WriteBack? then Rename(op.copy.title) else Plain(op)
  }

  function WholesOf(ops: seq<Op>): (ws: seq<Whole>)
    ensures |ws| == |ops|
  {
    seq(|ops|, i requires 0 <= i < |ops| => WholeOf(ops[i]))
  }

  /** Every write-back replaces the chat it holds, up to the title. */
  ghost predicate Clean(ops: seq<Op>)
  {
    forall j :: 0 <= j < |ops| && ops[j].WriteBack? ==> UpToTitle(ApplyAll(None, ops[..j]), ops[j].copy)
  }

  lemma {:induction false} CleanWholes(ops: seq<Op>)
    requires Clean(ops)
    ensures ApplyWholes(None, WholesOf(ops)) == ApplyAll(None, ops)
  {
    if ops != [] {
      var init := ops[..|ops| - 1];
      assert Clean(init) by {
        forall j | 0 <= j < |init| && init[j].WriteBack? ensures UpToTitle(ApplyAll(None, init[..j]), init[j].copy) {
          assert init[..j] == ops[..j];
        }
      }
      CleanWholes(init);
      assert WholesOf(ops)[..|ops| - 1] == WholesOf(init);
      assert ops[..|ops| - 1] == init;
    }
  }

  lemma CleanReply(ops: seq<Op>, j: nat)
    requires Clean(ops) && j < |ops|
    ensures ApplyWhole(ApplyWholes(None, WholesOf(ops)[..j]), WholeOf(ops[j])).1
        == Apply(ApplyAll(None, ops[..j]), ops[j]).1
  {
    assert Clean(ops[..j]) by {
      forall i | 0 <= i < j && ops[..j][i].WriteBack?
        ensures UpToTitle(ApplyAll(None, ops[..j][..i]), ops[..j][i].copy)
      {
        assert ops[..j][..i] == ops[..i];
      }
    }
    CleanWholes(ops[..j]);
    assert WholesOf(ops)[..j] == WholesOf(ops[..j]);
  }

  /** When the condition holds at every write-back, the interleaving is one of whole operations: the file and all
      replies are those of running each title update in one piece at its write-back. */
  lemma CleanTraceLinearises(trace: seq<State>, n: nat, chat: Text)
    requires IsTrace(trace) && n < |trace| && Clean(OpsOf(Log(trace[n], chat)))
    ensures var log := Log(trace[n], chat);
            var ws := WholesOf(OpsOf(log));
            && ApplyWholes(None, ws) == FileOf(trace[n].files, chat)
            && forall j :: 0 <= j < |log| ==> log[j].reply == ApplyWhole(ApplyWholes(None, ws[..j]), ws[j]).1
  {
    var log := Log(trace[n], chat);
    var ops := OpsOf(log);
    Linearises(trace, n, chat);
    CleanWholes(ops);
    forall j | 0 <= j < |log|
      ensures log[j].reply == ApplyWhole(ApplyWholes(None, WholesOf(ops)[..j]), WholesOf(ops)[j]).1
    {
      CleanReply(ops, j);
    }
  }

  // ---- a schedule that loses a message ----

  function LastState(trace: seq<State>): State
    requires trace != []
  {
    trace[|trace| - 1]
  }

  lemma Extend(trace: seq<State>, s: State)
    requires IsTrace(trace) && Next(LastState(trace), s)
    ensures IsTrace(trace + [s])
  {
    var t := trace + [s];
    forall i | 0 <= i < |t| - 1 ensures Next(t[i], t[i + 1]) {
      if i < |trace| - 1 {
        assert t[i] == trace[i] && t[i + 1] == trace[i + 1];
        assert Next(trace[i], trace[i + 1]);
      }
    }
  }

  lemma Begin(trace: seq<State>, id: nat, c: Call) returns (t: seq<State>)
    requires IsTrace(trace) && id !in LastState(trace).calls && IsNew(c)
    ensures IsTrace(t) && LastState(t) == LastState(trace).(calls := LastState(trace).calls[id := c])
  {
    var s := LastState(trace);
    var s' := s.(calls := s.calls[id := c]);
    assert Starts(s, s', id, c);
    Extend(trace, s');
    t := trace + [s'];
  }

  lemma Move(trace: seq<State>, id: nat, newMu: nat, s: State) returns (t: seq<State>)
    requires IsTrace(trace) && Moves(LastState(trace), s, id, newMu)
    ensures IsTrace(t) && LastState(t) == s
  {
    Extend(trace, s);
    t := trace + [s];
  }

  /** The state after call `id` ran its next section alone, under mutex mu. */
  function AfterSection(s: State, id: nat, mu: nat): State
    requires id in s.calls
  {
    var c := s.calls[id];
    var (f, reply) := Apply(FileOf(s.files, c.chat), c.op);
    State(s.mutexes[c.chat := mu], s.held,
          if Writes(c.op, FileOf(s.files, c.chat)) then Put(s.files, c.chat, f) else s.files,
          s.calls[id := Released(c, reply)],
          s.history[c.chat := Log(s, c.chat) + [Event(id, c.section, c.op, reply)]])
  }

  /** Call `id` is at pc in the last state. */
  ghost predicate Stands(trace: seq<State>, id: nat, pc: Pc)
  {
    IsTrace(trace) && id in LastState(trace).calls && LastState(trace).calls[id].pc == pc
  }

  lemma TakeMutex(trace: seq<State>, id: nat, mu: nat) returns (t: seq<State>)
    requires Stands(trace, id, Invoked) && !IsNoOp(LastState(trace).calls[id].op)
    requires var s := LastState(trace);
             if s.calls[id].chat in s.mutexes then mu == s.mutexes[s.calls[id].chat] else mu !in s.mutexes.Values
    ensures var s := LastState(trace);
            && Stands(t, id, HasMutex(mu))
            && LastState(t) == s.(mutexes := s.mutexes[s.calls[id].chat := mu], calls := At(s, id, HasMutex(mu)))
  {
    var s := LastState(trace);
    var c := s.calls[id];
    assert c.chat in s.mutexes ==> s.mutexes[c.chat := mu] == s.mutexes;
    t := Move(trace, id, mu, s.(mutexes := s.mutexes[c.chat := mu], calls := At(s, id, HasMutex(mu))));
  }

  lemma LockMutex(trace: seq<State>, id: nat, mu: nat) returns (t: seq<State>)
    requires Stands(trace, id, HasMutex(mu)) && LastState(trace).held == map[]
    ensures var s := LastState(trace);
            Stands(t, id, Locked(mu)) && LastState(t) == s.(held := map[mu := id], calls := At(s, id, Locked(mu)))
  {
    var s := LastState(trace);
    t := Move(trace, id, mu, s.(held := s.held[mu := id], calls := At(s, id, Locked(mu))));
  }

  lemma ReadFile(trace: seq<State>, id: nat, mu: nat) returns (t: seq<State>)
    requires Stands(trace, id, Locked(mu))
    ensures var s := LastState(trace);
            var pc := Holding(mu, FileOf(s.files, s.calls[id].chat));
            Stands(t, id, pc) && LastState(t) == s.(calls := At(s, id, pc))
  {
    var s := LastState(trace);
    t := Move(trace, id, mu, s.(calls := At(s, id, Holding(mu, FileOf(s.files, s.calls[id].chat)))));
  }

  /** Effect and reply of the section, then the release of its mutex. */
  lemma Finish(trace: seq<State>, id: nat, mu: nat, copy: File) returns (t: seq<State>)
    requires Stands(trace, id, Holding(mu, copy))
    ensures var s := LastState(trace);
            var c := s.calls[id];
            var (f, reply) := Apply(copy, c.op);
            && IsTrace(t)
            && LastState(t) == State(
                 s.mutexes, s.held - {mu}, if Writes(c.op, copy) then Put(s.files, c.chat, f) else s.files,
                 s.calls[id := Released(c, reply)],
                 s.history[c.chat := Log(s, c.chat) + [Event(id, c.section, c.op, reply)]])
  {
    var s := LastState(trace);
    var c := s.calls[id];
    var (f, reply) := Apply(copy, c.op);
    var s' := s.(files := if Writes(c.op, copy) then Put(s.files, c.chat, f) else s.files,
                 calls := At(s, id, Releasing(mu, reply)),
                 history := s.history[c.chat := Log(s, c.chat) + [Event(id, c.section, c.op, reply)]]);
    t := Move(trace, id, mu, s');
    assert s'.calls[id := Released(s'.calls[id], reply)] == s.calls[id := Released(c, reply)];
    t := Move(t, id, mu, s'.(held := s'.held - {mu}, calls := s'.calls[id := Released(s'.calls[id], reply)]));
  }

  /** What Finish leaves when the call took its mutex, locked it and read the file. */
  lemma SectionEnd(s: State, m: State, id: nat, mu: nat)
    requires id in s.calls && s.held == map[]
    requires var c := s.calls[id];
             var copy := FileOf(s.files, c.chat);
             m == State(s.mutexes[c.chat := mu], map[mu := id], s.files, s.calls[id := c.(pc := Holding(mu, copy))],
                        s.history)
    ensures var c := m.calls[id];
            var copy := FileOf(s.files, c.chat);
            var (f, reply) := Apply(copy, c.op);
            AfterSection(s, id, mu) == State(
              m.mutexes, m.held - {mu}, if Writes(c.op, copy) then Put(m.files, c.chat, f) else m.files,
              m.calls[id := Released(c, reply)],
              m.history[c.chat := Log(m, c.chat) + [Event(id, c.section, c.op, reply)]])
  {
    assert m.held - {mu} == s.held;
    var reply := Apply(FileOf(s.files, s.calls[id].chat), s.calls[id].op).1;
    assert m.calls[id := Released(m.calls[id], reply)] == s.calls[id := Released(s.calls[id], reply)];
  }

  lemma RunSection(trace: seq<State>, id: nat, mu: nat) returns (t: seq<State>)
    requires IsTrace(trace)
    requires var s := LastState(trace);
             && id in s.calls && s.calls[id].pc.Invoked? && !IsNoOp(s.calls[id].op) && s.held == map[]
             && if s.calls[id].chat in s.mutexes then mu == s.mutexes[s.calls[id].chat] else mu !in s.mutexes.Values
    ensures IsTrace(t) && LastState(t) == AfterSection(LastState(trace), id, mu)
  {
    var s := LastState(trace);
    var c := s.calls[id];
    t := TakeMutex(trace, id, mu);
    t := LockMutex(t, id, mu);
    t := ReadFile(t, id, mu);
    var m := LastState(t);
    assert m.calls == s.calls[id := c.(pc := Holding(mu, FileOf(s.files, c.chat)))];
    SectionEnd(s, m, id, mu);
    t := Finish(t, id, mu, FileOf(s.files, c.chat));
  }

  lemma RunNew(trace: seq<State>, id: nat, c: Call, mu: nat) returns (t: seq<State>)
    requires IsTrace(trace) && IsNew(c) && !IsNoOp(c.op)
    requires var s := LastState(trace);
             && id !in s.calls && s.held == map[]
             && if c.chat in s.mutexes then mu == s.mutexes[c.chat] else mu !in s.mutexes.Values
    ensures var s := LastState(trace);
            IsTrace(t) && LastState(t) == AfterSection(s.(calls := s.calls[id := c]), id, mu)
  {
    t := Begin(trace, id, c);
    t := RunSection(t, id, mu);
  }

  /** A prompt is stored, and a title update has loaded the chat but not yet written it back. */
  function Racing(chat: Text, c: Chat, first: Op, title: Text): State
  {
    State(map[chat := 0], map[], map[chat := c],
          map[0 := Call(chat, first, Returned(Done), None, 0),
              1 := Call(chat, WriteBack(c.(title := title)), Invoked, Some(title), 1)],
          map[chat := [Event(0, 0, first, Done), Event(1, 0, Load, Content(c))]])
  }

  /** Only the first prompt is stored. */
  function Single(chat: Text, c: Chat, first: Op): State
  {
    State(map[chat := 0], map[], map[chat := c], map[0 := Call(chat, first, Returned(Done), None, 0)],
          map[chat := [Event(0, 0, first, Done)]])
  }

  lemma FirstStored(chat: Text, first: Op)
    requires first.Store? && first.entry.Some?
    ensures AfterSection(EMPTY_STATE.(calls := map[0 := Call(chat, first, Invoked, None, 0)]), 0, 0)
         == Single(chat, StoreIn(None, first, first.entry.value), first)
  {
    var s := EMPTY_STATE.(calls := map[0 := Call(chat, first, Invoked, None, 0)]);
    assert FileOf(s.files, chat) == None && Log(s, chat) == [];
    var a, b := AfterSection(s, 0, 0), Single(chat, StoreIn(None, first, first.entry.value), first);
    assert a.mutexes == b.mutexes && a.files == b.files && a.calls == b.calls;
    assert a.history[chat] == b.history[chat] && a.history == b.history;
  }

  lemma RacingReachable(chat: Text, first: Op, title: Text) returns (t: seq<State>)
    requires first.Store? && first.entry.Some?
    ensures IsTrace(t) && LastState(t) == Racing(chat, StoreIn(None, first, first.entry.value), first, title)
  {
    var c := StoreIn(None, first, first.entry.value);
    t := RunNew([EMPTY_STATE], 0, Call(chat, first, Invoked, None, 0), 0);
    FirstStored(chat, first);
    assert EMPTY_STATE.calls[0 := Call(chat, first, Invoked, None, 0)] == map[0 := Call(chat, first, Invoked, None, 0)];
    t := RunNew(t, 1, Call(chat, Load, Invoked, Some(title), 0), 0);
    var s, r := LastState(t), Racing(chat, c, first, title);
    assert s.mutexes == r.mutexes && s.files == r.files && s.calls == r.calls;
    assert s.history[chat] == r.history[chat] && s.history == r.history;
  }

  /** The same after a second prompt was stored and the title update wrote back. */
  function Lost(chat: Text, c: Chat, first: Op, title: Text, second: Op): State
  {
    State(map[chat := 0], map[], map[chat := c.(title := title)],
          map[0 := Call(chat, first, Returned(Done), None, 0),
              1 := Call(chat, WriteBack(c.(title := title)), Returned(Done), Some(title), 1),
              2 := Call(chat, second, Returned(Done), None, 0)],
          map[chat := [Event(0, 0, first, Done), Event(1, 0, Load, Content(c)), Event(2, 0, second, Done),
                       Event(1, 1, WriteBack(c.(title := title)), Done)]])
  }

  lemma SecondStored(chat: Text, c: Chat, first: Op, title: Text, second: Op) returns (s: State)
    requires second.Store? && second.entry.Some?
    ensures var r := Racing(chat, c, first, title);
            && s == AfterSection(r.(calls := r.calls[2 := Call(chat, second, Invoked, None, 0)]), 2, 0)
            && s.mutexes == map[chat := 0] && s.held == map[] && s.files.Keys == {chat}
            && s.calls == r.calls[2 := Call(chat, second, Returned(Done), None, 0)]
            && s.history == map[chat := r.history[chat] + [Event(2, 0, second, Done)]]
  {
    var r := Racing(chat, c, first, title);
    s := AfterSection(r.(calls := r.calls[2 := Call(chat, second, Invoked, None, 0)]), 2, 0);
    assert s.calls == r.calls[2 := Call(chat, second, Returned(Done), None, 0)];
  }

  lemma WrittenBack(chat: Text, c: Chat, first: Op, title: Text, second: Op, s: State)
    requires var r := Racing(chat, c, first, title);
             && s.mutexes == map[chat := 0] && s.held == map[] && s.files.Keys == {chat}
             && s.calls == r.calls[2 := Call(chat, second, Returned(Done), None, 0)]
             && s.history == map[chat := r.history[chat] + [Event(2, 0, second, Done)]]
    ensures AfterSection(s, 1, 0) == Lost(chat, c, first, title, second)
  {
    var a, b := AfterSection(s, 1, 0), Lost(chat, c, first, title, second);
    assert a.mutexes == b.mutexes && a.files == b.files && a.calls == b.calls;
    assert a.history[chat] == b.history[chat] && a.history == b.history;
  }

  /** Call 0 stores a first prompt, call 1 loads the chat to retitle it, call 2 stores a second prompt and returns
      success, call 1 writes back: a reachable state without the second message. */
  lemma LosingSchedule(chat: Text, first: Op, title: Text, second: Op) returns (t: seq<State>)
    requires first.Store? && first.entry.Some? && second.Store? && second.entry.Some?
    ensures var c := StoreIn(None, first, first.entry.value);
            && IsTrace(t) && LastState(t) == Lost(chat, c, first, title, second)
            && c.messages == [first.entry.value]
            && LoadedAt(Log(LastState(t), chat), 1, 3) && !Explained(c, [second], title)
  {
    var c := StoreIn(None, first, first.entry.value);
    t := RacingReachable(chat, first, title);
    var s := SecondStored(chat, c, first, title, second);
    t := RunNew(t, 2, Call(chat, second, Invoked, None, 0), 0);
    t := RunSection(t, 1, 0);
    WrittenBack(chat, c, first, title, second, s);
    SecondLost(c, second, title);
  }

  lemma SecondLost(c: Chat, second: Op, title: Text)
    requires second.Store? && second.entry.Some?
    ensures !Explained(c, [second], title)
  {
    assert !NoEntry([second]) by { assert [second][0] == second; }
    UpToTitleIff(c, [second]);
    TitleUpdateExact(c, [second], title);
  }
}
