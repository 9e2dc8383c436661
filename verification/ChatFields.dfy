/** Where the fields of a stored chat come from, over any run of whole operations: which of them bound the session,
    which one gave it its title and model, and whether there is a file at all. */
module ChatFields {
  import opened ByteStrings
  import opened ChatStore

  predicate Stores(op: Op) { op.Store? && op.entry.Some? }

  /** The operation binds a session: a prompt sent in one, or one opened for the chat. */
  predicate Binds(op: Op) { (Stores(op) || op.Bind?) && op.sessionId != [] }

  /** The operation leaves a file behind. */
  predicate Creates(op: Op) { Stores(op) || (op.Bind? && op.sessionId != []) || op.WriteBack? }

  predicate Discards(op: Op) { op.Delete? || op.WriteBack? }

  /** Loading shows the file as it is, loading or deleting reports a missing one, and only a prompt of an unsupported
      type is refused. */
  lemma RepliesMean(f: File, op: Op)
    ensures op.Load? ==> Apply(f, op).0 == f && (forall c :: Apply(f, op).1 == Content(c) <==> f == Some(c))
    ensures op.Load? || op.Delete? ==> (Apply(f, op).1 == Missing <==> f == None)
    ensures !op.Load? && !op.Delete? ==> Apply(f, op).1 in {Done, Unsupported}
    ensures Apply(f, op).1 == Unsupported <==> op.Store? && op.entry == None
  {
  }

  /** There are no messages: no file, or one created by a binding alone. */
  predicate NoMessages(f: File) { f.Some? ==> f.value.messages == [] }

  /** Operation i stores the first message of the chat. */
  predicate FirstPrompt(f: File, ops: seq<Op>, i: nat)
    requires i < |ops|
  {
    Stores(ops[i]) && NoMessages(ApplyAll(f, ops[..i]))
  }

  /** Operation i names the model: the first prompt does, and a binding that carries one. */
  predicate Names(f: File, ops: seq<Op>, i: nat)
    requires i < |ops|
  {
    FirstPrompt(f, ops, i) || (ops[i].Bind? && ops[i].sessionId != [] && ops[i].modelId != [])
  }

  lemma RunSnoc(f: File, ops: seq<Op>)
    requires ops != []
    ensures ApplyAll(f, ops) == Apply(ApplyAll(f, ops[..|ops| - 1]), ops[|ops| - 1]).0
  {
  }

  /** The chat is bound to the session of the last operation that carried one: an operation without one never unbinds
      it. */
  lemma {:induction false} SessionIsLast(f: File, ops: seq<Op>, i: nat)
    requires i < |ops| && Binds(ops[i])
    requires forall j :: i < j < |ops| ==> !Binds(ops[j]) && !Discards(ops[j])
    ensures ApplyAll(f, ops).Some? && ApplyAll(f, ops).value.sessionId == ops[i].sessionId
    decreases |ops|
  {
    var before := ops[..|ops| - 1];
    if i < |before| {
      assert !Binds(ops[|before|]) && !Discards(ops[|before|]);
      SessionIsLast(f, before, i);
    }
  }

  /** Without such an operation it stays bound as it was, a new one to none. */
  lemma {:induction false} SessionKept(f: File, ops: seq<Op>)
    requires forall j :: 0 <= j < |ops| ==> !Binds(ops[j]) && !Discards(ops[j])
    requires ApplyAll(f, ops).Some?
    ensures ApplyAll(f, ops).value.sessionId == if f.Some? then f.value.sessionId else []
  {
    if ops != [] {
      var before, last := ops[..|ops| - 1], ops[|ops| - 1];
      assert !Binds(last) && !Discards(last);
      if ApplyAll(f, before).Some? {
        SessionKept(f, before);
      } else {
        NoFileBefore(f, before);
      }
    }
  }

  lemma {:induction false} NoFileBefore(f: File, ops: seq<Op>)
    requires forall j :: 0 <= j < |ops| ==> !Discards(ops[j])
    requires ApplyAll(f, ops).None?
    ensures f.None?
  {
    if ops != [] {
      NoFileBefore(f, ops[..|ops| - 1]);
    }
  }

  /** Title and kind are those of the prompt that stored the first message; no later prompt changes them. */
  lemma {:induction false} TitleIsFirst(f: File, ops: seq<Op>, i: nat)
    requires i < |ops| && FirstPrompt(f, ops, i)
    requires forall j :: i < j < |ops| ==> !Discards(ops[j])
    ensures ApplyAll(f, ops).Some? && ApplyAll(f, ops).value.messages != []
    ensures ApplyAll(f, ops).value.title == ops[i].title && ApplyAll(f, ops).value.isLocal == ops[i].isLocal
    decreases |ops|
  {
    var before := ops[..|ops| - 1];
    if i < |before| {
      assert !Discards(ops[|before|]);
      assert before[..i] == ops[..i];
      TitleIsFirst(f, before, i);
    } else {
      assert ops[..i] == before;
    }
  }

  /** The model is the one named last. */
  lemma {:induction false} ModelIsLast(f: File, ops: seq<Op>, i: nat)
    requires i < |ops| && Names(f, ops, i)
    requires forall j :: i < j < |ops| ==> !Names(f, ops, j) && !Discards(ops[j])
    ensures ApplyAll(f, ops).Some? && ApplyAll(f, ops).value.modelId == ops[i].modelId
    decreases |ops|
  {
    var before := ops[..|ops| - 1];
    if i < |before| {
      assert !Names(f, ops, |before|) && !Discards(ops[|before|]);
      forall j | i <= j < |before| ensures Names(f, before, j) == Names(f, ops, j) {
        assert before[..j] == ops[..j];
      }
      ModelIsLast(f, before, i);
    } else {
      assert ops[..i] == before;
    }
  }

  /** No delete came at place i or later. */
  predicate Undeleted(ops: seq<Op>, i: nat)
  {
    forall j :: i <= j < |ops| ==> !ops[j].Delete?
  }

  predicate CreatesLasting(ops: seq<Op>, i: nat)
  {
    i < |ops| && Creates(ops[i]) && Undeleted(ops, i)
  }

  /** There is a file exactly when one was there or created, and no delete came after. */
  lemma {:induction false} FileIff(f: File, ops: seq<Op>)
    ensures ApplyAll(f, ops).Some? <==>
              (f.Some? && Undeleted(ops, 0)) || exists i: nat :: CreatesLasting(ops, i)
  {
    if ops != [] {
      var n := |ops| - 1;
      var before, last := ops[..n], ops[n];
      FileIff(f, before);
      assert Undeleted(ops, 0) <==> Undeleted(before, 0) && !last.Delete?;
      forall i: nat | i < n ensures CreatesLasting(ops, i) <==> CreatesLasting(before, i) && !last.Delete? {
        assert ops[i] == before[i];
        assert Undeleted(ops, i) <==> Undeleted(before, i) && !last.Delete?;
      }
      assert CreatesLasting(ops, n) <==> Creates(last);
    }
  }
}
