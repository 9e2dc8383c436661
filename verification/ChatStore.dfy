/** The file chat store: every operation looks up the file's mutex under a map lock, then reads,
    changes and writes the file in one critical section; a title update does so twice. The steps of
    concurrent calls interleave freely; the proof is that each file behaves as if the critical sections
    ran one after another. What that means for title updates is in module ChatTitles. */
module ChatStore {
  import opened ByteStrings

  type Text = Bytes
  type Message = Bytes

  datatype Chat = Chat(title: Text, modelId: Text, isLocal: bool, sessionId: Text, messages: seq<Message>)

  /** The content of a chat file, None when there is no file. */
  type File = Option<Chat>

  const EMPTY: Chat := Chat([], [], false, [], [])

  /** The work of one critical section. `entry` is None for an unsupported prompt type; `WriteBack` is the
      second section of a title update, which overwrites the file with the retitled copy. */
  datatype Op =
    | Store(modelId: Text, isLocal: bool, sessionId: Text, title: Text, entry: Option<Message>)
    | Bind(sessionId: Text, modelId: Text)
    | Load
    | Delete
    | WriteBack(copy: Chat)

  datatype Reply = Done | Missing | Unsupported | Content(chat: Chat)

  // ---- the sequential meaning of one operation ----

  function StoreIn(f: File, op: Op, entry: Message): Chat
    requires op.Store?
  {
    var c := if f.Some? then f.value else EMPTY;
    var named := if c.messages == [] then c.(modelId := op.modelId, title := op.title, isLocal := op.isLocal) else c;
    var bound := if op.sessionId != [] then named.(sessionId := op.sessionId) else named;
    bound.(messages := bound.messages + [entry])
  }

  function BindIn(f: File, op: Op): Chat
    requires op.Bind?
  {
    var c := if f.Some? then f.value else EMPTY;
    var bound := c.(sessionId := op.sessionId);
    if op.modelId != [] then bound.(modelId := op.modelId) else bound
  }

  function Apply(f: File, op: Op): (File, Reply)
  {
    match op
    case Store(_, _, _, _, None) => (f, Unsupported)
    case Store(_, _, _, _, Some(entry)) => (Some(StoreIn(f, op, entry)), Done)
    case Bind(_, _) => if op.sessionId == [] then (f, Done) else (Some(BindIn(f, op)), Done)
    case Load => (f, if f.Some? then Content(f.value) else Missing)
    case Delete => (None, if f.Some? then Done else Missing)
    case WriteBack(copy) => (Some(copy), Done)
  }

  function ApplyAll(f: File, ops: seq<Op>): File
  {
    if ops == [] then f else Apply(ApplyAll(f, ops[..|ops| - 1]), ops[|ops| - 1]).0
  }

  lemma {:induction false} ApplyAllConcat(f: File, a: seq<Op>, b: seq<Op>)
    ensures ApplyAll(f, a + b) == ApplyAll(ApplyAll(f, a), b)
  {
    if b == [] {
      assert a + b == a;
    } else {
      assert (a + b)[..|a + b| - 1] == a + b[..|b| - 1];
      ApplyAllConcat(f, a, b[..|b| - 1]);
    }
  }

  /** No operation in the list discards the chat as it was. */
  predicate Keeping(ops: seq<Op>)
  {
    forall i :: 0 <= i < |ops| ==> !ops[i].Delete? && !ops[i].WriteBack?
  }

  /** Whatever comes between two deletes only appends messages and never empties a session binding. */
  lemma {:induction false} HistoryGrows(f: File, ops: seq<Op>)
    requires f.Some? && Keeping(ops)
    ensures ApplyAll(f, ops).Some?
    ensures f.value.messages <= ApplyAll(f, ops).value.messages
    ensures f.value.sessionId != [] ==> ApplyAll(f, ops).value.sessionId != []
  {
    if ops != [] {
      HistoryGrows(f, ops[..|ops| - 1]);
    }
  }

  /** The messages are exactly the entries of the successful stores since the file was created, or since a
      title update put back the messages it had loaded. */
  function Entries(ops: seq<Op>): seq<Message>
  {
    if ops == [] then []
    else
      var before, last := Entries(ops[..|ops| - 1]), ops[|ops| - 1];
      match last
      case Store(_, _, _, _, Some(entry)) => before + [entry]
      case Delete => []
      case WriteBack(copy) => copy.messages
      case _ => before
  }

  lemma {:induction false} MessagesAreEntries(ops: seq<Op>)
    ensures Entries(ops) == match ApplyAll(None, ops) case None => [] case Some(c) => c.messages
  {
    if ops != [] {
      MessagesAreEntries(ops[..|ops| - 1]);
    }
  }

  // ---- the interleaved system ----

  /** Program counter of a call inside its operation, with its local variables. */
  datatype Pc =
    | Invoked
    | HasMutex(mu: nat)
    | Locked(mu: nat)
    | Holding(mu: nat, copy: File)
    | Releasing(mu: nat, reply: Reply)
    | Returned(reply: Reply)

  /** `title` is set for a title update, which runs section 0, a load, and then section 1, the write-back. */
  datatype Call = Call(chat: Text, op: Op, pc: Pc, title: Option<Text>, section: nat)

  datatype Event = Event(call: nat, section: nat, op: Op, reply: Reply)

  /** `history` lists, per chat, the sections in the order they took effect; no step reads it. */
  datatype State = State(
    mutexes: map<Text, nat>, held: map<nat, nat>, files: map<Text, Chat>, calls: map<nat, Call>,
    history: map<Text, seq<Event>>)

  function FileOf(files: map<Text, Chat>, chat: Text): File
  {
    if chat in files then Some(files[chat]) else None
  }

  function Put(files: map<Text, Chat>, chat: Text, f: File): map<Text, Chat>
  {
    if f.Some? then files[chat := f.value] else files - {chat}
  }

  /** Loads, unsupported prompts and failed deletes leave the disk alone. */
  predicate Writes(op: Op, copy: File)
  {
    (op.Store? && op.entry.Some?) || op.Bind? || (op.Delete? && copy.Some?) || op.WriteBack?
  }

  function Log(s: State, chat: Text): seq<Event>
  {
    if chat in s.history then s.history[chat] else []
  }

  /** A call as it is made. */
  predicate IsNew(c: Call)
  {
    c.pc.Invoked? && c.section == 0 && if c.title.Some? then c.op.Load? else !c.op.WriteBack?
  }

  ghost predicate Starts(s: State, s': State, id: nat, c: Call)
  {
    id !in s.calls && IsNew(c) && s' == s.(calls := s.calls[id := c])
  }

  /** Where a call goes on once it gave its mutex back: a title update that found a chat writes it back retitled. */
  function Released(c: Call, reply: Reply): Call
  {
    if c.title.Some? && c.section == 0 && reply.Content? then
      Call(c.chat, WriteBack(reply.chat.(title := c.title.value)), Invoked, c.title, 1)
    else c.(pc := Returned(reply))
  }

  function At(s: State, id: nat, pc: Pc): map<nat, Call>
    requires id in s.calls
  {
    s.calls[id := s.calls[id].(pc := pc)]
  }

  /** One step of call `id`. `newMu` is the identity of a freshly allocated mutex. */
  ghost predicate Moves(s: State, s': State, id: nat, newMu: nat)
  {
    id in s.calls &&
    var c := s.calls[id];
    match c.pc
    case Invoked =>
      if c.op.Bind? && c.op.sessionId == [] then s' == s.(calls := At(s, id, Returned(Done)))
      else if c.chat in s.mutexes then s' == s.(calls := At(s, id, HasMutex(s.mutexes[c.chat])))
      else
        && newMu !in s.mutexes.Values
        && s' == s.(mutexes := s.mutexes[c.chat := newMu], calls := At(s, id, HasMutex(newMu)))
    case HasMutex(mu) => mu !in s.held && s' == s.(held := s.held[mu := id], calls := At(s, id, Locked(mu)))
    case Locked(mu) => s' == s.(calls := At(s, id, Holding(mu, FileOf(s.files, c.chat))))
    case Holding(mu, copy) =>
      var (f, reply) := Apply(copy, c.op);
      s' == s.(files := if Writes(c.op, copy) then Put(s.files, c.chat, f) else s.files,
               calls := At(s, id, Releasing(mu, reply)),
               history := s.history[c.chat := Log(s, c.chat) + [Event(id, c.section, c.op, reply)]])
    case Releasing(mu, reply) => s' == s.(held := s.held - {mu}, calls := s.calls[id := Released(c, reply)])
    case Returned(_) => false
  }

  ghost predicate Next(s: State, s': State)
  {
    (exists id, c :: Starts(s, s', id, c)) || exists id, newMu :: Moves(s, s', id, newMu)
  }

  // ---- linearisation ----

  function OpsOf(log: seq<Event>): (ops: seq<Op>)
    ensures |ops| == |log|
  {
    seq(|log|, i requires 0 <= i < |log| => log[i].op)
  }

  /** Every operation replied as in the sequential run, which ends in the file on disk. */
  ghost predicate Sequential(log: seq<Event>, f: File)
  {
    && (forall i :: 0 <= i < |log| ==> log[i].reply == Apply(ApplyAll(None, OpsOf(log)[..i]), log[i].op).1)
    && ApplyAll(None, OpsOf(log)) == f
  }

  // ---- what holds in every reachable state ----

  predicate InSection(pc: Pc) { pc.Locked? || pc.Holding? || pc.Releasing? }

  predicate PastEffect(pc: Pc) { pc.Releasing? || pc.Returned? }

  /** An operation that returns before its first section. */
  predicate IsNoOp(op: Op) { op.Bind? && op.sessionId == [] }

  /** A call in a section holds its file's mutex, and the copy it read is still the file. */
  ghost predicate PlaceOk(mutexes: map<Text, nat>, held: map<nat, nat>, f: File, id: nat, c: Call)
  {
    && (c.pc.HasMutex? || InSection(c.pc) ==> c.chat in mutexes && mutexes[c.chat] == c.pc.mu)
    && (InSection(c.pc) ==> c.pc.mu in held && held[c.pc.mu] == id)
    && (c.pc.Holding? ==> c.pc.copy == f)
  }

  /** A section past its effect is on record, and section 1 writes back what section 0 loaded. */
  ghost predicate RecordOk(log: seq<Event>, id: nat, c: Call)
  {
    && (PastEffect(c.pc) && !IsNoOp(c.op) ==> Event(id, c.section, c.op, c.pc.reply) in log)
    && (IsNoOp(c.op) ==> c.pc.Invoked? || c.pc == Returned(Done))
    && c.section <= 1
    && (c.section == 0 ==> !c.op.WriteBack? && (c.title.Some? ==> c.op.Load?))
    && (c.section == 1 ==> WritesLoaded(log, id, c.op))
  }

  ghost predicate WritesLoaded(log: seq<Event>, id: nat, op: Op)
  {
    && op.WriteBack?
    && exists loaded ::
         Event(id, 0, Load, Content(loaded)) in log && op.copy == loaded.(title := op.copy.title)
  }

  ghost predicate CallOk(s: State, id: nat)
    requires id in s.calls
  {
    var c := s.calls[id];
    PlaceOk(s.mutexes, s.held, FileOf(s.files, c.chat), id, c) && RecordOk(Log(s, c.chat), id, c)
  }

  ghost predicate DistinctMutexes(mutexes: map<Text, nat>)
  {
    forall a, b :: a in mutexes && b in mutexes && mutexes[a] == mutexes[b] ==> a == b
  }

  /** How many sections of the call are past their effect. */
  function Reached(c: Call): nat
  {
    c.section + if PastEffect(c.pc) then 1 else 0
  }

  predicate TookEffect(calls: map<nat, Call>, e: Event, chat: Text)
  {
    e.call in calls && calls[e.call].chat == chat && e.section < Reached(calls[e.call])
  }

  predicate SameSection(e: Event, e': Event)
  {
    e.call == e'.call && e.section == e'.section
  }

  /** Each event belongs to a section of a call on this chat that is past its effect, and no section has two. */
  ghost predicate LogOk(calls: map<nat, Call>, log: seq<Event>, chat: Text)
  {
    && (forall i :: 0 <= i < |log| ==> TookEffect(calls, log[i], chat))
    && (forall i, j :: 0 <= i < j < |log| ==> !SameSection(log[i], log[j]))
  }

  /** Event j writes back the chat that event i of the same call loaded. */
  ghost predicate LoadedAt(log: seq<Event>, i: nat, j: nat)
  {
    && i < j < |log| && log[i].call == log[j].call && log[i].op.Load? && log[i].reply.Content?
    && log[j].op.WriteBack? && log[j].op.copy == log[i].reply.chat.(title := log[j].op.copy.title)
  }

  ghost predicate LoadsKnown(log: seq<Event>)
  {
    forall j :: 0 <= j < |log| && log[j].op.WriteBack? ==> exists i :: LoadedAt(log, i, j)
  }

  ghost predicate HistoryOk(s: State, chat: Text)
  {
    && Sequential(Log(s, chat), FileOf(s.files, chat))
    && LogOk(s.calls, Log(s, chat), chat)
    && LoadsKnown(Log(s, chat))
  }

  ghost predicate Inv(s: State)
  {
    && DistinctMutexes(s.mutexes)
    && (forall id :: id in s.calls ==> CallOk(s, id))
    && (forall chat :: HistoryOk(s, chat))
  }

  // ---- the history ----

  lemma OpsSnoc(log: seq<Event>, e: Event)
    ensures OpsOf(log + [e]) == OpsOf(log) + [e.op]
  {
  }

  /** An operation on the current file extends the sequential history. */
  lemma SequentialSnoc(log: seq<Event>, f: File, e: Event)
    requires Sequential(log, f) && e.reply == Apply(f, e.op).1
    ensures Sequential(log + [e], Apply(f, e.op).0)
  {
    var log' := log + [e];
    OpsSnoc(log, e);
    assert OpsOf(log')[..|log|] == OpsOf(log);
    forall i | 0 <= i < |log'| ensures log'[i].reply == Apply(ApplyAll(None, OpsOf(log')[..i]), log'[i].op).1 {
      assert OpsOf(log')[..i] == OpsOf(log)[..i];
      if i == |log| { assert OpsOf(log)[..i] == OpsOf(log); }
    }
  }

  lemma LogSnoc(calls: map<nat, Call>, calls': map<nat, Call>, log: seq<Event>, e: Event, chat: Text)
    requires LogOk(calls, log, chat) && LogOk(calls', log, chat)
    requires !TookEffect(calls, e, chat) && TookEffect(calls', e, chat)
    ensures LogOk(calls', log + [e], chat)
  {
    forall i | 0 <= i < |log| ensures !SameSection(log[i], e) {
      assert TookEffect(calls, log[i], chat);
    }
  }

  lemma LoadsSnoc(log: seq<Event>, e: Event)
    requires LoadsKnown(log) && (e.op.WriteBack? ==> WritesLoaded(log, e.call, e.op))
    ensures LoadsKnown(log + [e])
  {
    var log' := log + [e];
    forall j | 0 <= j < |log'| && log'[j].op.WriteBack? ensures exists i :: LoadedAt(log', i, j) {
      if j < |log| {
        var i :| LoadedAt(log, i, j);
        assert LoadedAt(log', i, j);
      } else {
        var loaded :| Event(e.call, 0, Load, Content(loaded)) in log && e.op.copy == loaded.(title := e.op.copy.title);
        var i :| 0 <= i < |log| && log[i] == Event(e.call, 0, Load, Content(loaded));
        assert LoadedAt(log', i, j);
      }
    }
  }

  /** Past their effect sections stay there. */
  lemma LogFramed(calls: map<nat, Call>, calls': map<nat, Call>, log: seq<Event>, chat: Text, id: nat)
    requires LogOk(calls, log, chat) && Moved(calls, calls', id)
    ensures LogOk(calls', log, chat)
  {
  }

  /** Only call `id` changed: it is new, or further on. */
  ghost predicate Moved(calls: map<nat, Call>, calls': map<nat, Call>, id: nat)
  {
    && id in calls' && calls' == calls[id := calls'[id]]
    && (id in calls ==> calls'[id].chat == calls[id].chat && Reached(calls[id]) <= Reached(calls'[id]))
  }

  // ---- one step ----

  lemma RecordFramed(log: seq<Event>, log': seq<Event>, id: nat, c: Call)
    requires RecordOk(log, id, c) && log <= log'
    ensures RecordOk(log', id, c)
  {
    assert forall e :: e in log ==> e in log';
  }

  /** What a step must leave alone for the place of another call to stay right. */
  ghost predicate PlaceLeft(s: State, s': State, c: Call)
  {
    && (c.chat in s.mutexes ==> c.chat in s'.mutexes && s'.mutexes[c.chat] == s.mutexes[c.chat])
    && (InSection(c.pc) && c.pc.mu in s.held ==> c.pc.mu in s'.held && s'.held[c.pc.mu] == s.held[c.pc.mu])
    && (c.pc.Holding? ==> FileOf(s'.files, c.chat) == FileOf(s.files, c.chat))
  }

  lemma OtherKept(s: State, s': State, i: nat)
    requires i in s.calls && i in s'.calls && s'.calls[i] == s.calls[i] && CallOk(s, i)
    requires PlaceLeft(s, s', s.calls[i]) && Log(s, s.calls[i].chat) <= Log(s', s.calls[i].chat)
    ensures CallOk(s', i)
  {
    RecordFramed(Log(s, s.calls[i].chat), Log(s', s.calls[i].chat), i, s.calls[i]);
  }

  /** A step of call `id` keeps the invariant when it keeps the call's own obligations, leaves the places of
      the others alone and extends the histories properly. */
  lemma StepKeeps(s: State, s': State, id: nat)
    requires Inv(s) && Moved(s.calls, s'.calls, id) && DistinctMutexes(s'.mutexes) && CallOk(s', id)
    requires forall i :: i in s.calls && i != id ==> PlaceLeft(s, s', s.calls[i])
    requires forall chat :: Log(s, chat) <= Log(s', chat) && HistoryOk(s', chat)
    ensures Inv(s')
  {
    forall i | i in s'.calls ensures CallOk(s', i) {
      if i != id {
        assert CallOk(s, i);
        OtherKept(s, s', i);
      }
    }
  }

  /** The same for a step that touches no file. */
  lemma QuietKeeps(s: State, s': State, id: nat)
    requires Inv(s) && Moved(s.calls, s'.calls, id) && DistinctMutexes(s'.mutexes) && CallOk(s', id)
    requires forall i :: i in s.calls && i != id ==> PlaceLeft(s, s', s.calls[i])
    requires s'.files == s.files && s'.history == s.history
    ensures Inv(s')
  {
    forall chat ensures Log(s, chat) <= Log(s', chat) && HistoryOk(s', chat) {
      assert HistoryOk(s, chat);
      LogFramed(s.calls, s'.calls, Log(s, chat), chat, id);
    }
    StepKeeps(s, s', id);
  }

  /** Two calls in a critical section of the same chat, or under the same mutex, are the same call. */
  lemma MutualExclusion(s: State, id: nat, other: nat)
    requires Inv(s) && id in s.calls && other in s.calls
    requires InSection(s.calls[id].pc) && InSection(s.calls[other].pc)
    requires s.calls[id].chat == s.calls[other].chat || s.calls[id].pc.mu == s.calls[other].pc.mu
    ensures id == other
  {
    assert CallOk(s, id) && CallOk(s, other);
  }

  lemma NewMutexDistinct(mutexes: map<Text, nat>, chat: Text, mu: nat)
    requires DistinctMutexes(mutexes) && chat !in mutexes && mu !in mutexes.Values
    ensures DistinctMutexes(mutexes[chat := mu])
  {
    assert forall a :: a in mutexes ==> mutexes[a] in mutexes.Values;
  }

  lemma StartStep(s: State, s': State, id: nat, c: Call)
    requires Inv(s) && Starts(s, s', id, c)
    ensures Inv(s')
  {
    QuietKeeps(s, s', id);
  }

  /** The first step leaves without a section, or takes the file's mutex from the map, adding it for a new file. */
  ghost predicate Invokes(s: State, s': State, id: nat, newMu: nat)
  {
    && id in s.calls && s.calls[id].pc.Invoked?
    && var c := s.calls[id];
       if IsNoOp(c.op) then s' == s.(calls := At(s, id, Returned(Done)))
       else if c.chat in s.mutexes then s' == s.(calls := At(s, id, HasMutex(s.mutexes[c.chat])))
       else
         && newMu !in s.mutexes.Values
         && s' == s.(mutexes := s.mutexes[c.chat := newMu], calls := At(s, id, HasMutex(newMu)))
  }

  lemma InvokeMutexes(s: State, s': State, id: nat, newMu: nat)
    requires DistinctMutexes(s.mutexes) && Invokes(s, s', id, newMu)
    ensures DistinctMutexes(s'.mutexes) && s'.files == s.files && s'.history == s.history
  {
    var c := s.calls[id];
    if !IsNoOp(c.op) && c.chat !in s.mutexes {
      NewMutexDistinct(s.mutexes, c.chat, newMu);
    }
  }

  lemma InvokedRecord(log: seq<Event>, id: nat, c: Call, pc: Pc)
    requires RecordOk(log, id, c) && c.pc.Invoked? && if IsNoOp(c.op) then pc == Returned(Done) else pc.HasMutex?
    ensures RecordOk(log, id, c.(pc := pc))
  {
  }

  lemma InvokeCall(s: State, s': State, id: nat, newMu: nat)
    requires Invokes(s, s', id, newMu) && CallOk(s, id)
    ensures CallOk(s', id)
  {
    var c := s.calls[id];
    InvokedRecord(Log(s, c.chat), id, c, s'.calls[id].pc);
    assert PlaceOk(s'.mutexes, s'.held, FileOf(s'.files, c.chat), id, s'.calls[id]);
  }

  lemma InvokeOthers(s: State, s': State, id: nat, newMu: nat)
    requires Invokes(s, s', id, newMu)
    ensures Moved(s.calls, s'.calls, id) && forall i :: i in s.calls && i != id ==> PlaceLeft(s, s', s.calls[i])
  {
  }

  lemma InvokeStep(s: State, s': State, id: nat, newMu: nat)
    requires Inv(s) && Moves(s, s', id, newMu) && s.calls[id].pc.Invoked?
    ensures Inv(s')
  {
    assert Invokes(s, s', id, newMu);
    assert CallOk(s, id);
    InvokeCall(s, s', id, newMu);
    InvokeMutexes(s, s', id, newMu);
    InvokeOthers(s, s', id, newMu);
    QuietKeeps(s, s', id);
  }

  lemma LockStep(s: State, s': State, id: nat, newMu: nat)
    requires Inv(s) && Moves(s, s', id, newMu) && s.calls[id].pc.HasMutex?
    ensures Inv(s')
  {
    assert CallOk(s, id);
    QuietKeeps(s, s', id);
  }

  lemma ReadStep(s: State, s': State, id: nat, newMu: nat)
    requires Inv(s) && Moves(s, s', id, newMu) && s.calls[id].pc.Locked?
    ensures Inv(s')
  {
    assert CallOk(s, id);
    QuietKeeps(s, s', id);
  }

  lemma ReleaseStep(s: State, s': State, id: nat, newMu: nat)
    requires Inv(s) && Moves(s, s', id, newMu) && s.calls[id].pc.Releasing?
    ensures Inv(s')
  {
    var c := s.calls[id];
    assert CallOk(s, id);
    forall i | i in s.calls && i != id ensures PlaceLeft(s, s', s.calls[i]) {
      if InSection(s.calls[i].pc) && s.calls[i].pc.mu == c.pc.mu {
        MutualExclusion(s, id, i);
      }
    }
    QuietKeeps(s, s', id);
  }

  /** The effect of one section under its lock: the copy it read is still the file. */
  lemma EffectOnFile(s: State, s': State, id: nat, newMu: nat)
    requires Inv(s) && Moves(s, s', id, newMu) && s.calls[id].pc.Holding?
    ensures var c := s.calls[id];
            var f := FileOf(s.files, c.chat);
            && FileOf(s'.files, c.chat) == Apply(f, c.op).0
            && Log(s', c.chat) == Log(s, c.chat) + [Event(id, c.section, c.op, Apply(f, c.op).1)]
            && s'.calls == At(s, id, Releasing(c.pc.mu, Apply(f, c.op).1))
            && s'.mutexes == s.mutexes && s'.held == s.held
    ensures forall chat :: chat != s.calls[id].chat ==>
              FileOf(s'.files, chat) == FileOf(s.files, chat) && Log(s', chat) == Log(s, chat)
  {
    assert CallOk(s, id);
  }

  /** `e` is the event of the effect. */
  lemma EffectHistory(s: State, s': State, id: nat, e: Event, chat: Text)
    requires HistoryOk(s, chat) && id in s.calls && CallOk(s, id) && Moved(s.calls, s'.calls, id)
    requires s.calls[id].chat == chat && s.calls[id].pc.Holding? && s'.calls[id].pc.Releasing?
    requires s'.calls[id].section == s.calls[id].section == e.section
    requires e.call == id && e.op == s.calls[id].op && e.reply == Apply(FileOf(s.files, chat), e.op).1
    requires FileOf(s'.files, chat) == Apply(FileOf(s.files, chat), e.op).0 && Log(s', chat) == Log(s, chat) + [e]
    ensures HistoryOk(s', chat)
  {
    LogFramed(s.calls, s'.calls, Log(s, chat), chat, id);
    SequentialSnoc(Log(s, chat), FileOf(s.files, chat), e);
    LogSnoc(s.calls, s'.calls, Log(s, chat), e, chat);
    LoadsSnoc(Log(s, chat), e);
  }

  lemma OtherHistory(s: State, s': State, id: nat, chat: Text)
    requires HistoryOk(s, chat) && Moved(s.calls, s'.calls, id)
    requires FileOf(s'.files, chat) == FileOf(s.files, chat) && Log(s', chat) == Log(s, chat)
    ensures HistoryOk(s', chat)
  {
    LogFramed(s.calls, s'.calls, Log(s, chat), chat, id);
  }

  lemma EffectStep(s: State, s': State, id: nat, newMu: nat)
    requires Inv(s) && Moves(s, s', id, newMu) && s.calls[id].pc.Holding?
    ensures Inv(s')
  {
    var c := s.calls[id];
    var e := Event(id, c.section, c.op, Apply(FileOf(s.files, c.chat), c.op).1);
    EffectOnFile(s, s', id, newMu);
    assert CallOk(s, id);
    forall chat ensures Log(s, chat) <= Log(s', chat) && HistoryOk(s', chat) {
      assert HistoryOk(s, chat);
      if chat == c.chat { EffectHistory(s, s', id, e, chat); } else { OtherHistory(s, s', id, chat); }
    }
    forall i | i in s.calls && i != id ensures PlaceLeft(s, s', s.calls[i]) {
      if s.calls[i].pc.Holding? && s.calls[i].chat == c.chat {
        MutualExclusion(s, id, i);
      }
    }
    EffectRecorded(s, s', id, e);
    StepKeeps(s, s', id);
  }

  lemma EffectRecorded(s: State, s': State, id: nat, e: Event)
    requires id in s.calls && CallOk(s, id) && s.calls[id].pc.Holding? && !IsNoOp(s.calls[id].op)
    requires e == Event(id, s.calls[id].section, s.calls[id].op, e.reply)
    requires s'.calls == At(s, id, Releasing(s.calls[id].pc.mu, e.reply))
    requires s'.mutexes == s.mutexes && s'.held == s.held
    requires Log(s', s.calls[id].chat) == Log(s, s.calls[id].chat) + [e]
    ensures CallOk(s', id)
  {
    var log := Log(s, s.calls[id].chat);
    RecordFramed(log, log + [e], id, s.calls[id]);
  }

  lemma InvKept(s: State, s': State)
    requires Inv(s) && Next(s, s')
    ensures Inv(s')
  {
    if id, c :| Starts(s, s', id, c) {
      StartStep(s, s', id, c);
    } else {
      var id, newMu :| Moves(s, s', id, newMu);
      if s.calls[id].pc.Holding? {
        EffectStep(s, s', id, newMu);
      } else if s.calls[id].pc.Releasing? {
        ReleaseStep(s, s', id, newMu);
      } else if s.calls[id].pc.Invoked? {
        InvokeStep(s, s', id, newMu);
      } else if s.calls[id].pc.HasMutex? {
        LockStep(s, s', id, newMu);
      } else {
        ReadStep(s, s', id, newMu);
      }
    }
  }

  const EMPTY_STATE: State := State(map[], map[], map[], map[], map[])

  lemma EmptyInv()
    ensures Inv(EMPTY_STATE)
  {
    assert forall chat :: Log(EMPTY_STATE, chat) == [] && FileOf(EMPTY_STATE.files, chat) == None;
  }

  ghost predicate IsTrace(trace: seq<State>)
  {
    && trace != [] && trace[0] == EMPTY_STATE
    && forall i :: 0 <= i < |trace| - 1 ==> Next(trace[i], trace[i + 1])
  }

  lemma {:induction false} ReachableInv(trace: seq<State>, i: nat)
    requires IsTrace(trace) && i < |trace|
    ensures Inv(trace[i])
  {
    if i == 0 {
      EmptyInv();
    } else {
      ReachableInv(trace, i - 1);
      InvKept(trace[i - 1], trace[i - 1 + 1]);
    }
  }

  /** Every interleaving of stores, binds, loads, deletes and title updates on any chats: the file of each chat
      and all replies are those of running that chat's critical sections one after another in the order they
      took effect. Every operation but a title update is one section. */
  lemma Linearises(trace: seq<State>, i: nat, chat: Text)
    requires IsTrace(trace) && i < |trace|
    ensures Sequential(Log(trace[i], chat), FileOf(trace[i].files, chat))
    ensures LogOk(trace[i].calls, Log(trace[i], chat), chat)
  {
    ReachableInv(trace, i);
    assert HistoryOk(trace[i], chat);
  }

  lemma StepExtends(s: State, s': State, chat: Text)
    requires Next(s, s')
    ensures Log(s, chat) <= Log(s', chat)
  {
  }

  lemma {:induction false} HistoryExtends(trace: seq<State>, i: nat, j: nat, chat: Text)
    requires IsTrace(trace) && i <= j < |trace|
    ensures Log(trace[i], chat) <= Log(trace[j], chat)
    decreases j - i
  {
    if i < j {
      HistoryExtends(trace, i, j - 1, chat);
      assert Next(trace[j - 1], trace[j - 1 + 1]);
      StepExtends(trace[j - 1], trace[j], chat);
    }
  }

  lemma HistoryKnown(trace: seq<State>, i: nat, chat: Text)
    requires IsTrace(trace) && i < |trace|
    ensures HistoryOk(trace[i], chat)
  {
    ReachableInv(trace, i);
  }

  lemma EarlierIndex(calls: map<nat, Call>, early: seq<Event>, calls': map<nat, Call>, late: seq<Event>, chat: Text,
                     x: nat, y: nat)
    requires LogOk(calls, early, chat) && LogOk(calls', late, chat) && early <= late
    requires x < |late| && y < |late| && late[x] in early && late[y].call !in calls
    ensures x < y
  {
    var k :| 0 <= k < |early| && early[k] == late[x];
    assert SameSection(late[k], late[x]);
    assert k == x;
    assert forall z :: 0 <= z < |early| ==> early[z] == late[z] && TookEffect(calls, early[z], chat);
  }

  /** The order of effect respects real time: a section that took effect before another call was even made
      stands before that call's, so the sequential order is a linearisation. */
  lemma RealTimeOrder(trace: seq<State>, i: nat, j: nat, chat: Text, x: nat, y: nat)
    requires IsTrace(trace) && i <= j < |trace|
    requires x < |Log(trace[j], chat)| && y < |Log(trace[j], chat)|
    requires Log(trace[j], chat)[x] in Log(trace[i], chat)
    requires Log(trace[j], chat)[y].call !in trace[i].calls
    ensures x < y
  {
    HistoryKnown(trace, i, chat);
    HistoryKnown(trace, j, chat);
    HistoryExtends(trace, i, j, chat);
    EarlierIndex(trace[i].calls, Log(trace[i], chat), trace[j].calls, Log(trace[j], chat), chat, x, y);
  }

  lemma OpsConcat(a: seq<Event>, b: seq<Event>)
    ensures OpsOf(a + b) == OpsOf(a) + OpsOf(b)
  {
  }

  /** The file a history ends in, from the file an earlier part of it ended in. */
  lemma SequentialSplit(early: seq<Event>, f: File, late: seq<Event>, f': File)
    requires Sequential(early, f) && Sequential(late, f') && early <= late
    ensures f' == ApplyAll(f, OpsOf(late[|early|..]))
  {
    assert late == early + late[|early|..];
    OpsConcat(early, late[|early|..]);
    ApplyAllConcat(None, OpsOf(early), OpsOf(late[|early|..]));
  }

  /** In every interleaving: while a chat is neither deleted nor retitled its messages only grow by appends and
      its session binding is never emptied. */
  lemma TraceGrows(trace: seq<State>, i: nat, j: nat, chat: Text)
    requires IsTrace(trace) && i <= j < |trace| && chat in trace[i].files
    requires |Log(trace[i], chat)| <= |Log(trace[j], chat)| ==>
               Keeping(OpsOf(Log(trace[j], chat)[|Log(trace[i], chat)|..]))
    ensures chat in trace[j].files && trace[i].files[chat].messages <= trace[j].files[chat].messages
    ensures trace[i].files[chat].sessionId != [] ==> trace[j].files[chat].sessionId != []
  {
    var early, late := Log(trace[i], chat), Log(trace[j], chat);
    var f, f' := FileOf(trace[i].files, chat), FileOf(trace[j].files, chat);
    HistoryExtends(trace, i, j, chat);
    HistoryKnown(trace, i, chat);
    HistoryKnown(trace, j, chat);
    SequentialSplit(early, f, late, f');
    HistoryGrows(f, OpsOf(late[|early|..]));
  }
}
