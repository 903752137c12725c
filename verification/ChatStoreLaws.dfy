/**
 What saving and loading promise. Message ids belong to one conversation for good: `home`
 names it. Row keys are global in the database, so without this the index could not be a
 partition of the rows.
 */
module ChatStoreLaws {
  import opened Support
  import opened ChatMessage
  import opened MessageCodec
  import opened ChatStore
  import TurnCount

  type Home = string -> string

  // ----- Coherence of rows, index and metadata -----

  ghost predicate GoodList(ids: seq<string>, conversation: string, rows: map<string, Row>, home: Home) {
    && |ids| <= MAX_MESSAGES_PER_CONVERSATION
    && NoDuplicates(ids)
    && forall id :: id in ids ==> home(id) == conversation && id in rows
  }

  /** The row names its own id and the conversation it belongs to. */
  ghost predicate Filed(row: Row, id: string, home: Home) {
    row.id == id && row.conversationId == home(id)
  }

  /** The rows are the disjoint union of the index lists; no listed id dangles. */
  ghost predicate RowsCoherent(rows: map<string, Row>, index: map<string, seq<string>>, home: Home) {
    && (forall c :: c in index ==> GoodList(index[c], c, rows, home))
    && (forall id :: id in rows ==> home(id) in index && id in index[home(id)] && Filed(rows[id], id, home))
  }

  ghost predicate Coherent(t: Tables, home: Home) {
    && t.messageIndex.Keys == t.conversations.Keys
    && RowsCoherent(t.messages, t.messageIndex, home)
    && forall c :: c in t.conversations ==> t.conversations[c].messageCount == |t.messageIndex[c]|
  }

  /** A loaded conversation lists each of its own messages once. */
  ghost predicate WellFormed(conversation: Conversation, home: Home) {
    conversation.messagesLoaded ==>
      && NoDuplicates(Ids(conversation.messages))
      && forall i :: 0 <= i < |conversation.messages| ==> home(conversation.messages[i].id) == conversation.id
  }

  /** An unloaded conversation is stored already, or claims no messages. */
  ghost predicate KnownIfUnloaded(t: Tables, conversation: Conversation) {
    conversation.messagesLoaded || conversation.id in t.conversations || conversation.messageCount == 0
  }

  ghost predicate GoodState(t: Tables, state: seq<Conversation>, home: Home) {
    forall k :: 0 <= k < |state| ==> WellFormed(state[k], home) && KnownIfUnloaded(t, state[k])
  }

  lemma WindowIds(conversation: Conversation, home: Home)
    requires conversation.messagesLoaded && WellFormed(conversation, home)
    ensures var ids := Ids(Window(conversation));
            && |ids| <= MAX_MESSAGES_PER_CONVERSATION
            && NoDuplicates(ids)
            && forall id :: id in ids ==> home(id) == conversation.id
  {
    var skipped := |conversation.messages| - |Window(conversation)|;
    var all, ids := Ids(conversation.messages), Ids(Window(conversation));
    assert forall i :: 0 <= i < |ids| ==> ids[i] == all[skipped + i] && ids[i] == conversation.messages[skipped + i].id;
  }

  lemma {:induction false} WriteRowsMisses(
    codec: Codec, rows: map<string, Row>, conversation: string, window: seq<Message>, version: int, id: string)
    requires forall i :: 0 <= i < |window| ==> window[i].id != id
    ensures RowAt(WriteRows(codec, rows, conversation, window, version), id) == RowAt(rows, id)
    decreases |window|
  {
    if window != [] {
      WriteRowsMisses(codec, rows, conversation, window[..|window| - 1], version, id);
      assert window[|window| - 1].id != id;
    }
  }

  lemma {:induction false} WriteRowsHits(
    codec: Codec, rows: map<string, Row>, conversation: string, window: seq<Message>, version: int, i: nat)
    requires i < |window|
    requires forall k :: 0 <= k < |window| && k != i ==> window[k].id != window[i].id
    ensures RowAt(WriteRows(codec, rows, conversation, window, version), window[i].id) ==
            Some(Upsert(codec, RowAt(rows, window[i].id), ToRow(codec, conversation, window[i], version)))
    decreases |window|
  {
    var n := |window| - 1;
    if i == n {
      WriteRowsMisses(codec, rows, conversation, window[..n], version, window[n].id);
    } else {
      WriteRowsHits(codec, rows, conversation, window[..n], version, i);
      assert window[n].id != window[i].id;
    }
  }

  /** Writing a window touches its own ids only, each by one guarded upsert. */
  lemma WriteRowsEffect(
    codec: Codec, rows: map<string, Row>, conversation: string, window: seq<Message>, version: int)
    requires NoDuplicates(Ids(window))
    ensures var after := WriteRows(codec, rows, conversation, window, version);
            && (forall id :: id in Ids(window) ==> id in after)
            && (forall id :: id !in Ids(window) ==> RowAt(after, id) == RowAt(rows, id))
            && (forall i :: 0 <= i < |window| ==>
                  RowAt(after, window[i].id) ==
                  Some(Upsert(codec, RowAt(rows, window[i].id), ToRow(codec, conversation, window[i], version))))
  {
    var ids := Ids(window);
    forall i | 0 <= i < |window|
      ensures RowAt(WriteRows(codec, rows, conversation, window, version), window[i].id) ==
              Some(Upsert(codec, RowAt(rows, window[i].id), ToRow(codec, conversation, window[i], version)))
    {
      forall k | 0 <= k < |window| && k != i
        ensures window[k].id != window[i].id
      {
        assert ids[k] != ids[i];
      }
      WriteRowsHits(codec, rows, conversation, window, version, i);
    }
    forall id | id !in ids
      ensures RowAt(WriteRows(codec, rows, conversation, window, version), id) == RowAt(rows, id)
    {
      forall i | 0 <= i < |window|
        ensures window[i].id != id
      {
        assert ids[i] == window[i].id;
      }
      WriteRowsMisses(codec, rows, conversation, window, version, id);
    }
    assert forall i :: 0 <= i < |window| ==> ids[i] == window[i].id;
  }

  lemma WrittenRowsAreFiled(
    codec: Codec, rows: map<string, Row>, conversation: string, window: seq<Message>, version: int, home: Home)
    requires NoDuplicates(Ids(window)) && forall id :: id in Ids(window) ==> home(id) == conversation
    requires forall id :: id in rows ==> Filed(rows[id], id, home)
    ensures var after := WriteRows(codec, rows, conversation, window, version);
            forall id :: id in after ==> Filed(after[id], id, home)
  {
    WriteRowsEffect(codec, rows, conversation, window, version);
    var after := WriteRows(codec, rows, conversation, window, version);
    forall id | id in after
      ensures Filed(after[id], id, home)
    {
      if id in Ids(window) {
        var i :| 0 <= i < |window| && Ids(window)[i] == id;
        assert window[i].id == id;
        assert id in rows ==> Filed(rows[id], id, home);
      } else {
        assert RowAt(after, id) == RowAt(rows, id);
      }
    }
  }

  lemma OtherListsSurvive(
    rows: map<string, Row>, after: map<string, Row>, index: map<string, seq<string>>, c: string, ids: seq<string>, home: Home)
    requires forall other :: other in index ==> GoodList(index[other], other, rows, home)
    requires forall id :: id in ids ==> home(id) == c
    requires forall id :: id !in ids ==> RowAt(after, id) == RowAt(rows - Dropped(IndexOf(index, c), ids), id)
    ensures forall other :: other in index && other != c ==> GoodList(index[other], other, after, home)
  {
    forall other | other in index && other != c
      ensures GoodList(index[other], other, after, home)
    {
      assert c in index ==> GoodList(index[c], c, rows, home);
      assert GoodList(index[other], other, rows, home);
      forall id | id in index[other]
        ensures id in after
      {
        assert RowAt(after, id) == RowAt(rows - Dropped(IndexOf(index, c), ids), id);
      }
    }
  }

  lemma RowsStayListed(
    rows: map<string, Row>, after: map<string, Row>, index: map<string, seq<string>>, c: string, ids: seq<string>, home: Home)
    requires forall id :: id in rows ==> home(id) in index && id in index[home(id)]
    requires forall id :: id in ids ==> home(id) == c
    requires forall id :: id !in ids ==> RowAt(after, id) == RowAt(rows - Dropped(IndexOf(index, c), ids), id)
    ensures var updated := index[c := ids];
            forall id :: id in after ==> home(id) in updated && id in updated[home(id)]
  {
  }

  /** Enough for the rows to stay coherent when one conversation's list and rows are replaced. */
  lemma ReplacedListKeepsCoherent(
    rows: map<string, Row>, after: map<string, Row>, index: map<string, seq<string>>, c: string, ids: seq<string>, home: Home)
    requires RowsCoherent(rows, index, home) && GoodList(ids, c, after, home)
    requires forall id :: id !in ids ==> RowAt(after, id) == RowAt(rows - Dropped(IndexOf(index, c), ids), id)
    requires forall id :: id in after ==> Filed(after[id], id, home)
    ensures RowsCoherent(after, index[c := ids], home)
  {
    OtherListsSurvive(rows, after, index, c, ids, home);
    RowsStayListed(rows, after, index, c, ids, home);
  }

  lemma ReplaceKeepsRowsCoherent(
    codec: Codec, rows: map<string, Row>, index: map<string, seq<string>>, conversation: Conversation, version: int, home: Home)
    requires RowsCoherent(rows, index, home)
    requires conversation.messagesLoaded && WellFormed(conversation, home)
    ensures var ids := Ids(Window(conversation));
            var kept := rows - Dropped(IndexOf(index, conversation.id), ids);
            RowsCoherent(WriteRows(codec, kept, conversation.id, Window(conversation), version),
                         index[conversation.id := ids], home)
  {
    var window := Window(conversation);
    var ids := Ids(window);
    var current := IndexOf(index, conversation.id);
    var kept := rows - Dropped(current, ids);
    var after := WriteRows(codec, kept, conversation.id, window, version);
    WindowIds(conversation, home);
    WriteRowsEffect(codec, kept, conversation.id, window, version);
    WrittenRowsAreFiled(codec, kept, conversation.id, window, version, home);
    ReplacedListKeepsCoherent(rows, after, index, conversation.id, ids, home);
  }

  lemma SaveOneKeepsCoherent(codec: Codec, t: Tables, conversation: Conversation, version: int, home: Home)
    requires Coherent(t, home) && WellFormed(conversation, home) && KnownIfUnloaded(t, conversation)
    ensures Coherent(SavedOne(codec, t, conversation, version), home)
    ensures SavedOne(codec, t, conversation, version).conversations.Keys == t.conversations.Keys + {conversation.id}
  {
    var index := WithIndexRow(t.messageIndex, conversation.id);
    var after := SavedOne(codec, t, conversation, version);
    EnteringKeepsRowsCoherent(t.messages, t.messageIndex, conversation.id, home);
    assert RowsCoherent(after.messages, after.messageIndex, home) by {
      if conversation.messagesLoaded {
        ReplaceKeepsRowsCoherent(codec, t.messages, index, conversation, version, home);
      }
    }
    SaveOneCounts(codec, t, conversation, version);
  }

  lemma SaveOneCounts(codec: Codec, t: Tables, conversation: Conversation, version: int)
    requires t.messageIndex.Keys == t.conversations.Keys && KnownIfUnloaded(t, conversation)
    requires forall c :: c in t.conversations ==> t.conversations[c].messageCount == |t.messageIndex[c]|
    ensures var after := SavedOne(codec, t, conversation, version);
            && after.conversations.Keys == t.conversations.Keys + {conversation.id}
            && after.messageIndex.Keys == after.conversations.Keys
            && forall c :: c in after.conversations ==> after.conversations[c].messageCount == |after.messageIndex[c]|
  {
  }

  lemma EnteringKeepsRowsCoherent(rows: map<string, Row>, index: map<string, seq<string>>, id: string, home: Home)
    requires RowsCoherent(rows, index, home)
    ensures RowsCoherent(rows, WithIndexRow(index, id), home)
  {
  }

  /** Deleting conversations removes exactly their own rows and leaves the rest as it was. */
  lemma DeleteRemovesExactlyOwnRows(t: Tables, ids: set<string>, home: Home)
    requires Coherent(t, home)
    ensures Coherent(Delete(t, ids), home)
    ensures forall id :: id in Delete(t, ids).messages <==> id in t.messages && home(id) !in ids
    ensures forall id :: id in Delete(t, ids).messages ==> Delete(t, ids).messages[id] == t.messages[id]
  {
  }

  lemma {:induction false} SaveAllKeepsCoherent(codec: Codec, t: Tables, state: seq<Conversation>, version: int, home: Home)
    requires Coherent(t, home) && GoodState(t, state, home)
    ensures Coherent(SavedAll(codec, t, state, version), home)
    ensures SavedAll(codec, t, state, version).conversations.Keys == t.conversations.Keys + ConversationIds(state)
    decreases |state|
  {
    if state != [] {
      var n := |state| - 1;
      SaveAllKeepsCoherent(codec, t, state[..n], version, home);
      SaveOneKeepsCoherent(codec, SavedAll(codec, t, state[..n], version), state[n], version, home);
      IdsOfLast(state);
    }
  }

  lemma IdsOfLast(state: seq<Conversation>)
    requires state != []
    ensures ConversationIds(state) == ConversationIds(state[..|state| - 1]) + {state[|state| - 1].id}
  {
  }

  ghost function Doomed(t: Tables, state: seq<Conversation>): set<string> {
    t.conversations.Keys - ConversationIds(state)
  }

  lemma SurvivorsStayKnown(t: Tables, state: seq<Conversation>, home: Home)
    requires GoodState(t, state, home)
    ensures GoodState(Delete(t, Doomed(t, state)), state, home)
  {
  }

  /** A save keeps the database coherent and stores exactly the conversations it was given. */
  lemma SaveKeepsCoherent(codec: Codec, t: Tables, state: seq<Conversation>, version: int, home: Home)
    requires Coherent(t, home) && GoodState(t, state, home)
    ensures Coherent(Saved(codec, t, state, version), home)
    ensures Saved(codec, t, state, version).conversations.Keys == ConversationIds(state)
  {
    DeleteRemovesExactlyOwnRows(t, Doomed(t, state), home);
    SurvivorsStayKnown(t, state, home);
    SaveAllKeepsCoherent(codec, Delete(t, Doomed(t, state)), state, version, home);
  }

  /** Whether an unknown unloaded conversation's stored count is right is settled by its claim. */
  lemma UnknownUnloadedCount(codec: Codec, t: Tables, conversation: Conversation, version: int, home: Home)
    requires Coherent(t, home) && !conversation.messagesLoaded && conversation.id !in t.conversations
    ensures var after := SavedOne(codec, t, conversation, version);
            after.conversations[conversation.id].messageCount == |after.messageIndex[conversation.id]|
            <==> conversation.messageCount == 0
  {
  }

  // ----- Transcripts and metadata -----

  lemma {:induction false} SaveAllKeepsTranscripts(codec: Codec, t: Tables, state: seq<Conversation>, version: int)
    ensures var after := SavedAll(codec, t, state, version);
            && after.transcript == t.transcript
            && after.transcriptIndex.Keys == t.transcriptIndex.Keys + ConversationIds(state)
            && forall c :: c in after.transcriptIndex ==> after.transcriptIndex[c] == IndexOf(t.transcriptIndex, c)
    decreases |state|
  {
    if state != [] {
      SaveAllKeepsTranscripts(codec, t, state[..|state| - 1], version);
      IdsOfLast(state);
    }
  }

  /** Entry `id` is listed in the transcript of a stored conversation that the new state lacks. */
  ghost predicate ListedByGone(t: Tables, state: seq<Conversation>, id: string) {
    exists c :: c in t.conversations && c !in ConversationIds(state)
                && c in t.transcriptIndex && id in t.transcriptIndex[c]
  }

  /**
   A save touches no transcript of a conversation it keeps: their index lists stay as they
   were, and exactly the entries listed by a conversation that is gone are removed.
   */
  lemma SaveKeepsTranscripts(codec: Codec, t: Tables, state: seq<Conversation>, version: int)
    ensures var after := Saved(codec, t, state, version);
            && (forall c :: c in ConversationIds(state) ==>
                  c in after.transcriptIndex && after.transcriptIndex[c] == IndexOf(t.transcriptIndex, c))
            && (forall c :: c in t.conversations && c !in ConversationIds(state) ==> c !in after.transcriptIndex)
            && (forall id :: id in after.transcript <==> id in t.transcript && !ListedByGone(t, state, id))
            && (forall id :: id in after.transcript ==> after.transcript[id] == t.transcript[id])
  {
    var kept := Delete(t, Doomed(t, state));
    SaveAllKeepsTranscripts(codec, kept, state, version);
    assert forall c :: c in ConversationIds(state) ==> IndexOf(kept.transcriptIndex, c) == IndexOf(t.transcriptIndex, c);
  }

  /** The metadata a save leaves for a conversation, given what was stored for it before. */
  ghost predicate StoresMeta(before: map<string, Meta>, conversation: Conversation, meta: Meta) {
    && meta.id == conversation.id && meta.title == conversation.title
    && if conversation.messagesLoaded then
         && meta.updatedAt == conversation.updatedAt
         && meta.messageCount == (if |conversation.messages| <= 2_000 then |conversation.messages| else 2_000)
         && meta.turnCount == Some(TurnCount.TurnCount(conversation.messages))
       else if conversation.id in before then
         var stored := before[conversation.id];
         && meta.updatedAt >= stored.updatedAt && meta.updatedAt >= conversation.updatedAt
         && (meta.updatedAt == stored.updatedAt || meta.updatedAt == conversation.updatedAt)
         && meta.messageCount == stored.messageCount
         && meta.turnCount == (if stored.turnCount.None? then Some(conversation.turnCount) else stored.turnCount)
       else
         && meta.updatedAt == conversation.updatedAt && meta.messageCount == conversation.messageCount
         && meta.turnCount == Some(conversation.turnCount)
  }

  lemma SaveOneMeta(codec: Codec, t: Tables, conversation: Conversation, version: int)
    ensures var after := SavedOne(codec, t, conversation, version).conversations;
            && conversation.id in after && StoresMeta(t.conversations, conversation, after[conversation.id])
            && forall c :: c in t.conversations && c != conversation.id ==> c in after && after[c] == t.conversations[c]
  {
  }

  lemma {:induction false} SaveAllMeta(codec: Codec, t: Tables, state: seq<Conversation>, version: int, k: nat)
    requires k < |state| && forall l :: 0 <= l < |state| && l != k ==> state[l].id != state[k].id
    ensures var after := SavedAll(codec, t, state, version).conversations;
            state[k].id in after && StoresMeta(t.conversations, state[k], after[state[k].id])
    decreases |state|
  {
    var n := |state| - 1;
    SaveOneMeta(codec, SavedAll(codec, t, state[..n], version), state[n], version);
    if k < n {
      assert state[..n][k] == state[k] && state[n].id != state[k].id;
      SaveAllMeta(codec, t, state[..n], version, k);
    } else {
      var before := SavedAll(codec, t, state[..n], version).conversations;
      OtherMeta(codec, t, state[..n], version, state[n].id);
      SameStored(before, t.conversations, state[n], SavedAll(codec, t, state, version).conversations[state[n].id]);
    }
  }

  lemma SameStored(a: map<string, Meta>, b: map<string, Meta>, conversation: Conversation, meta: Meta)
    requires conversation.id in a <==> conversation.id in b
    requires conversation.id in a ==> a[conversation.id] == b[conversation.id]
    requires StoresMeta(a, conversation, meta)
    ensures StoresMeta(b, conversation, meta)
  {
  }

  lemma {:induction false} OtherMeta(codec: Codec, t: Tables, state: seq<Conversation>, version: int, c: string)
    requires forall l :: 0 <= l < |state| ==> state[l].id != c
    ensures var after := SavedAll(codec, t, state, version).conversations;
            (c in after <==> c in t.conversations) && (c in after ==> after[c] == t.conversations[c])
    decreases |state|
  {
    if state != [] {
      OtherMeta(codec, t, state[..|state| - 1], version, c);
    }
  }

  /** Title, times and counts after a save, loaded or not, stored before or not. */
  lemma SaveStoresMeta(codec: Codec, t: Tables, state: seq<Conversation>, version: int, k: nat)
    requires k < |state| && forall l :: 0 <= l < |state| && l != k ==> state[l].id != state[k].id
    ensures var after := Saved(codec, t, state, version).conversations;
            state[k].id in after && StoresMeta(t.conversations, state[k], after[state[k].id])
  {
    var kept := Delete(t, Doomed(t, state));
    assert state[k] in state && state[k].id in ConversationIds(state);
    SaveAllMeta(codec, kept, state, version, k);
    assert state[k].id in kept.conversations <==> state[k].id in t.conversations;
  }

  // ----- Sequences of saves -----

  datatype Save = Save(state: seq<Conversation>, version: int)

  ghost function SavedMany(codec: Codec, t: Tables, saves: seq<Save>): Tables {
    if saves == [] then t
    else
      var n := |saves| - 1;
      Saved(codec, SavedMany(codec, t, saves[..n]), saves[n].state, saves[n].version)
  }

  ghost predicate GoodSaves(codec: Codec, t: Tables, saves: seq<Save>, home: Home) {
    forall k :: 0 <= k < |saves| ==> GoodState(SavedMany(codec, t, saves[..k]), saves[k].state, home)
  }

  lemma GoodPrefix(codec: Codec, t: Tables, saves: seq<Save>, home: Home, n: nat)
    requires GoodSaves(codec, t, saves, home) && n <= |saves|
    ensures GoodSaves(codec, t, saves[..n], home)
  {
    assert forall k :: 0 <= k < n ==> saves[..n][..k] == saves[..k];
  }

  /**
   After any sequence of saves the rows are the disjoint union of the index lists, nothing
   dangles, every row names its own conversation, no list is longer than 2000, and every
   stored count is its list's length.
   */
  lemma {:induction false} SavesKeepCoherent(codec: Codec, t: Tables, saves: seq<Save>, home: Home)
    requires Coherent(t, home) && GoodSaves(codec, t, saves, home)
    ensures Coherent(SavedMany(codec, t, saves), home)
    decreases |saves|
  {
    if saves != [] {
      var n := |saves| - 1;
      GoodPrefix(codec, t, saves, home, n);
      SavesKeepCoherent(codec, t, saves[..n], home);
      assert saves[..n] == saves[..n];
      SaveKeepsCoherent(codec, SavedMany(codec, t, saves[..n]), saves[n].state, saves[n].version, home);
    }
  }

  lemma EmptyIsCoherent(home: Home)
    ensures Coherent(EMPTY_TABLES, home)
  {
  }
}
