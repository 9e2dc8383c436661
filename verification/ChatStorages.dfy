/** The chat store's methods as one caller sees them: each critical section reads a file, changes the chat
    field by field and writes it back. */
module ChatStorages {
  import opened ByteStrings
  import opened ChatStore

  class ChatStorage {
    var files: map<Text, Chat>
    var fileMutexes: map<Text, nat>
    /** The identity the next allocated mutex gets. */
    var nextMutex: nat

    /** No two files share a mutex. */
    ghost predicate Valid()
      reads this
    {
      DistinctMutexes(fileMutexes) && forall chat :: chat in fileMutexes ==> fileMutexes[chat] < nextMutex
    }

    constructor ()
      ensures Valid() && files == map[] && fileMutexes == map[]
    {
      files := map[];
      fileMutexes := map[];
      nextMutex := 0;
    }

    /** A file gets one mutex the first time and keeps it. */
    method FileMutex(chat: Text) returns (mu: nat)
      requires Valid()
      modifies `fileMutexes, `nextMutex
      ensures Valid() && chat in fileMutexes && mu == fileMutexes[chat]
      ensures fileMutexes.Keys == old(fileMutexes).Keys + {chat}
      ensures forall c :: c in old(fileMutexes) ==> fileMutexes[c] == old(fileMutexes)[c]
    {
      if chat in fileMutexes {
        return fileMutexes[chat];
      }
      mu := nextMutex;
      nextMutex := nextMutex + 1;
      fileMutexes := fileMutexes[chat := mu];
    }

    /** What one operation promises: the file and the reply of its sequential meaning, no other file touched,
        no mutex replaced. */
    twostate predicate Did(chat: Text, op: Op, reply: Reply)
      reads this
    {
      && Valid()
      && files == Put(old(files), chat, Apply(FileOf(old(files), chat), op).0)
      && reply == Apply(FileOf(old(files), chat), op).1
      && forall c :: c in old(fileMutexes) ==> c in fileMutexes && fileMutexes[c] == old(fileMutexes)[c]
    }

    method StorePromptResponse(chat: Text, isLocal: bool, modelId: Text, sessionId: Text, title: Text,
                               entry: Option<Message>)
      returns (reply: Reply)
      requires Valid()
      modifies this
      ensures Did(chat, Store(modelId, isLocal, sessionId, title, entry), reply)
    {
      var mu := FileMutex(chat);
      var history := EMPTY;
      if chat in files {
        history := files[chat];
      }
      if entry.None? {
        return Unsupported;
      }
      if |history.messages| == 0 {
        history := history.(modelId := modelId);
        history := history.(title := title);
        history := history.(isLocal := isLocal);
      }
      if sessionId != [] {
        history := history.(sessionId := sessionId);
      }
      history := history.(messages := history.messages + [entry.value]);
      files := files[chat := history];
      reply := Done;
    }

    method UpdateChatSession(chat: Text, sessionId: Text, modelId: Text) returns (reply: Reply)
      requires Valid()
      modifies this
      ensures Did(chat, Bind(sessionId, modelId), reply)
    {
      if sessionId == [] {
        return Done;
      }
      var mu := FileMutex(chat);
      var c := EMPTY;
      if chat in files {
        c := files[chat];
      }
      c := c.(sessionId := sessionId);
      if modelId != [] {
        c := c.(modelId := modelId);
      }
      files := files[chat := c];
      reply := Done;
    }

    method LoadChatFromFile(chat: Text) returns (reply: Reply)
      requires Valid()
      modifies this
      ensures Did(chat, Load, reply)
    {
      var mu := FileMutex(chat);
      if chat !in files {
        return Missing;
      }
      reply := Content(files[chat]);
    }

    method DeleteChat(chat: Text) returns (reply: Reply)
      requires Valid()
      modifies this
      ensures Did(chat, Delete, reply)
    {
      var mu := FileMutex(chat);
      if chat !in files {
        return Missing;
      }
      files := files - {chat};
      reply := Done;
    }

    /** Undisturbed, a title update changes the title and nothing else; it locks twice. */
    method UpdateChatTitle(chat: Text, title: Text) returns (reply: Reply)
      requires Valid()
      modifies this
      ensures Valid()
      ensures reply == if chat in old(files) then Done else Missing
      ensures files == if chat in old(files) then old(files)[chat := old(files)[chat].(title := title)] else old(files)
    {
      var loaded := LoadChatFromFile(chat);
      if loaded.Missing? {
        return Missing;
      }
      var c := loaded.chat.(title := title);
      var mu := FileMutex(chat);
      files := files[chat := c];
      reply := Done;
    }
  }
}
