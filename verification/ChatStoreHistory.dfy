/** Laws over whole histories of saves: untouched conversations, row versions, and save-then-load. */
module ChatStoreHistory {
  import opened Support
  import opened ChatMessage
  import opened MessageCodec
  import opened RoundSummaries
  import opened ChatStore
  import opened ChatStoreLaws
  import StableSort

  // ----- Conversations a save does not carry loaded -----

  /** Rows, index list and count of conversation `c` are the same in both databases. */
  ghost predicate Untouched(t: Tables, t': Tables, c: string, home: Home) {
    && (forall id :: home(id) == c ==> RowAt(t'.messages, id) == RowAt(t.messages, id))
    && (c in t.messageIndex ==> c in t'.messageIndex && t'.messageIndex[c] == t.messageIndex[c])
    && (c in t.conversations ==>
          c in t'.conversations && t'.conversations[c].messageCount == t.conversations[c].messageCount)
  }

  lemma SaveOneElsewhere(codec: Codec, t: Tables, conversation: Conversation, version: int, home: Home, c: string)
    requires Coherent(t, home) && WellFormed(conversation, home)
    requires conversation.id != c || !conversation.messagesLoaded
    ensures Untouched(t, SavedOne(codec, t, conversation, version), c, home)
  {
    if conversation.messagesLoaded {
      var window := Window(conversation);
      var index := WithIndexRow(t.messageIndex, conversation.id);
      var kept := t.messages - Dropped(IndexOf(index, conversation.id), Ids(window));
      WindowIds(conversation, home);
      WriteRowsEffect(codec, kept, conversation.id, window, version);
      assert conversation.id in t.messageIndex ==>
          GoodList(t.messageIndex[conversation.id], conversation.id, t.messages, home);
      forall id | home(id) == c
        ensures RowAt(SavedOne(codec, t, conversation, version).messages, id) == RowAt(t.messages, id)
      {
        assert id !in Ids(window);
        assert RowAt(kept, id) == RowAt(t.messages, id);
      }
    }
  }

  lemma {:induction false} SaveAllElsewhere(
    codec: Codec, t: Tables, state: seq<Conversation>, version: int, home: Home, c: string)
    requires Coherent(t, home) && GoodState(t, state, home)
    requires forall k :: 0 <= k < |state| ==> state[k].id != c || !state[k].messagesLoaded
    ensures Untouched(t, SavedAll(codec, t, state, version), c, home)
    decreases |state|
  {
    if state != [] {
      var n := |state| - 1;
      SaveAllElsewhere(codec, t, state[..n], version, home, c);
      SaveAllKeepsCoherent(codec, t, state[..n], version, home);
      SaveOneElsewhere(codec, SavedAll(codec, t, state[..n], version), state[n], version, home, c);
    }
  }

  lemma DeleteElsewhere(t: Tables, ids: set<string>, home: Home, c: string)
    requires Coherent(t, home) && c !in ids
    ensures Untouched(t, Delete(t, ids), c, home)
  {
  }

  /** Saving a state leaves the rows, index and count of every unloaded conversation untouched. */
  lemma UnloadedConversationsAreUntouched(
    codec: Codec, t: Tables, state: seq<Conversation>, version: int, home: Home, c: string)
    requires Coherent(t, home) && GoodState(t, state, home)
    requires c in ConversationIds(state)
    requires forall k :: 0 <= k < |state| && state[k].id == c ==> !state[k].messagesLoaded
    ensures Untouched(t, Saved(codec, t, state, version), c, home)
  {
    DeleteElsewhere(t, Doomed(t, state), home, c);
    DeleteRemovesExactlyOwnRows(t, Doomed(t, state), home);
    SurvivorsStayKnown(t, state, home);
    SaveAllElsewhere(codec, Delete(t, Doomed(t, state)), state, version, home, c);
  }

  // ----- One row through one save -----

  ghost predicate DistinctConversations(state: seq<Conversation>) {
    forall k, l :: 0 <= k < l < |state| ==> state[k].id != state[l].id
  }

  lemma SaveOneRow(codec: Codec, t: Tables, conversation: Conversation, version: int, home: Home, i: nat)
    requires WellFormed(conversation, home) && conversation.messagesLoaded && i < |Window(conversation)|
    ensures RowAt(SavedOne(codec, t, conversation, version).messages, Window(conversation)[i].id) ==
            Some(WrittenRow(codec, t, conversation, version, i))
  {
    var window := Window(conversation);
    var index := WithIndexRow(t.messageIndex, conversation.id);
    var kept := t.messages - Dropped(IndexOf(index, conversation.id), Ids(window));
    WindowIds(conversation, home);
    WriteRowsEffect(codec, kept, conversation.id, window, version);
    assert Ids(window)[i] == window[i].id;
    assert RowAt(kept, window[i].id) == RowAt(t.messages, window[i].id);
  }

  /** The row a guarded write of message `i` of the conversation's window leaves. */
  ghost function WrittenRow(codec: Codec, t: Tables, conversation: Conversation, version: int, i: nat): Row
    requires i < |Window(conversation)|
  {
    var message := Window(conversation)[i];
    Upsert(codec, RowAt(t.messages, message.id), ToRow(codec, conversation.id, message, version))
  }

  lemma WindowHome(conversation: Conversation, home: Home, i: nat)
    requires WellFormed(conversation, home) && conversation.messagesLoaded && i < |Window(conversation)|
    ensures home(Window(conversation)[i].id) == conversation.id
  {
  }

  lemma SaveOneKeepsOthersRow(codec: Codec, t: Tables, conversation: Conversation, version: int, home: Home, id: string)
    requires Coherent(t, home) && WellFormed(conversation, home) && home(id) != conversation.id
    ensures RowAt(SavedOne(codec, t, conversation, version).messages, id) == RowAt(t.messages, id)
  {
    SaveOneElsewhere(codec, t, conversation, version, home, home(id));
  }

  lemma SaveLastRow(codec: Codec, t: Tables, state: seq<Conversation>, version: int, home: Home, i: nat)
    requires Coherent(t, home) && GoodState(t, state, home) && DistinctConversations(state)
    requires state != [] && state[|state| - 1].messagesLoaded && i < |Window(state[|state| - 1])|
    ensures var last := state[|state| - 1];
            RowAt(SavedAll(codec, t, state, version).messages, Window(last)[i].id) ==
            Some(WrittenRow(codec, t, last, version, i))
  {
    var n := |state| - 1;
    WindowHome(state[n], home, i);
    SaveAllElsewhere(codec, t, state[..n], version, home, state[n].id);
    SaveOneRow(codec, SavedAll(codec, t, state[..n], version), state[n], version, home, i);
  }

  lemma {:induction false} SaveAllRow(
    codec: Codec, t: Tables, state: seq<Conversation>, version: int, home: Home, k: nat, i: nat)
    requires Coherent(t, home) && GoodState(t, state, home) && DistinctConversations(state)
    requires k < |state| && state[k].messagesLoaded && i < |Window(state[k])|
    ensures RowAt(SavedAll(codec, t, state, version).messages, Window(state[k])[i].id) ==
            Some(WrittenRow(codec, t, state[k], version, i))
    decreases |state|
  {
    var n := |state| - 1;
    if k == n {
      SaveLastRow(codec, t, state, version, home, i);
    } else {
      SaveAllRow(codec, t, state[..n], version, home, k, i);
      SaveAllKeepsCoherent(codec, t, state[..n], version, home);
      WindowHome(state[k], home, i);
      SaveOneKeepsOthersRow(
        codec, SavedAll(codec, t, state[..n], version), state[n], version, home, Window(state[k])[i].id);
    }
  }

  /** A retained message's row is what one version-guarded write leaves of the row before. */
  lemma SaveRow(codec: Codec, t: Tables, state: seq<Conversation>, version: int, home: Home, k: nat, i: nat)
    requires Coherent(t, home) && GoodState(t, state, home) && DistinctConversations(state)
    requires k < |state| && state[k].messagesLoaded && i < |Window(state[k])|
    ensures RowAt(Saved(codec, t, state, version).messages, Window(state[k])[i].id) ==
            Some(WrittenRow(codec, t, state[k], version, i))
  {
    WindowHome(state[k], home, i);
    assert state[k] in state;
    DeleteElsewhere(t, Doomed(t, state), home, state[k].id);
    DeleteRemovesExactlyOwnRows(t, Doomed(t, state), home);
    SurvivorsStayKnown(t, state, home);
    SaveAllRow(codec, Delete(t, Doomed(t, state)), state, version, home, k, i);
  }

  // ----- One row through any number of saves -----

  ghost function UpsertAll(codec: Codec, existing: Option<Row>, rows: seq<Row>): Option<Row> {
    if rows == [] then existing
    else Some(Upsert(codec, UpsertAll(codec, existing, rows[..|rows| - 1]), rows[|rows| - 1]))
  }

  ghost predicate HasHighest(rows: seq<Row>, best: nat) {
    best < |rows| && forall k :: 0 <= k < |rows| && k != best ==> rows[k].version < rows[best].version
  }

  lemma {:induction false} HighestExists(rows: seq<Row>) returns (best: nat)
    requires rows != []
    requires forall k, l :: 0 <= k < l < |rows| ==> rows[k].version != rows[l].version
    ensures HasHighest(rows, best)
    decreases |rows|
  {
    var n := |rows| - 1;
    if n == 0 {
      best := 0;
    } else {
      best := HighestExists(rows[..n]);
      if rows[n].version > rows[best].version {
        best := n;
      }
    }
  }

  lemma HighestIsUnique(rows: seq<Row>, best: nat, other: nat)
    requires HasHighest(rows, best) && HasHighest(rows, other)
    ensures best == other
  {
    assert rows[best].version <= rows[other].version;
  }

  /** In whatever order positive, distinct versions arrive, the highest one stays, unless the old row is newer still. */
  lemma {:induction false} HighestVersionStays(codec: Codec, existing: Option<Row>, rows: seq<Row>, best: nat)
    requires HasHighest(rows, best)
    requires forall k :: 0 <= k < |rows| ==> rows[k].version > 0
    requires forall k, l :: 0 <= k < l < |rows| ==> rows[k].version != rows[l].version
    ensures UpsertAll(codec, existing, rows) ==
            Some(if existing.Some? && EffectiveVersion(existing.value) > rows[best].version
                 then existing.value else Packed(codec, rows[best]))
    decreases |rows|
  {
    var n := |rows| - 1;
    if n == 0 {
      assert UpsertAll(codec, existing, rows[..0]) == existing;
    } else {
      var earlier := HighestExists(rows[..n]);
      HighestVersionStays(codec, existing, rows[..n], earlier);
      if best < n {
        assert HasHighest(rows[..n], best);
        HighestIsUnique(rows[..n], best, earlier);
      }
    }
  }

  /** The save carries message `id` within its conversation's retained window. */
  ghost predicate Carries(save: Save, id: string, k: nat, i: nat) {
    && DistinctConversations(save.state)
    && k < |save.state| && save.state[k].messagesLoaded
    && i < |Window(save.state[k])| && Window(save.state[k])[i].id == id
  }

  datatype Place = Place(conversation: nat, message: nat)

  /** Every save carries `id`, at the given places. */
  ghost predicate AllCarry(saves: seq<Save>, id: string, places: seq<Place>) {
    |places| == |saves| &&
    forall n :: 0 <= n < |saves| ==> Carries(saves[n], id, places[n].conversation, places[n].message)
  }

  /** The row each save writes for the message. */
  ghost function CarriedRows(codec: Codec, saves: seq<Save>, id: string, places: seq<Place>): (rows: seq<Row>)
    requires AllCarry(saves, id, places)
    ensures |rows| == |saves| && forall n :: 0 <= n < |saves| ==> rows[n].version == saves[n].version && rows[n].id == id
  {
    seq(|saves|, n requires 0 <= n < |saves| =>
      ToRow(codec, saves[n].state[places[n].conversation].id,
            Window(saves[n].state[places[n].conversation])[places[n].message], saves[n].version))
  }

  lemma RowThroughLastSave(codec: Codec, t: Tables, saves: seq<Save>, home: Home, id: string, places: seq<Place>)
    requires Coherent(t, home) && GoodSaves(codec, t, saves, home) && AllCarry(saves, id, places) && saves != []
    ensures var n := |saves| - 1;
            RowAt(SavedMany(codec, t, saves).messages, id) ==
            Some(Upsert(codec, RowAt(SavedMany(codec, t, saves[..n]).messages, id),
                        CarriedRows(codec, saves, id, places)[n]))
  {
    var n := |saves| - 1;
    GoodPrefix(codec, t, saves, home, n);
    SavesKeepCoherent(codec, t, saves[..n], home);
    SaveRow(codec, SavedMany(codec, t, saves[..n]), saves[n].state, saves[n].version, home,
            places[n].conversation, places[n].message);
  }

  lemma CarriedByPrefix(codec: Codec, saves: seq<Save>, id: string, places: seq<Place>, n: nat)
    requires AllCarry(saves, id, places) && n <= |saves|
    ensures AllCarry(saves[..n], id, places[..n])
    ensures CarriedRows(codec, saves[..n], id, places[..n]) == CarriedRows(codec, saves, id, places)[..n]
  {
  }

  lemma {:induction false} RowThroughSaves(codec: Codec, t: Tables, saves: seq<Save>, home: Home, id: string, places: seq<Place>)
    requires Coherent(t, home) && GoodSaves(codec, t, saves, home) && AllCarry(saves, id, places)
    ensures RowAt(SavedMany(codec, t, saves).messages, id) ==
            UpsertAll(codec, RowAt(t.messages, id), CarriedRows(codec, saves, id, places))
    decreases |saves|
  {
    if saves != [] {
      var n := |saves| - 1;
      GoodPrefix(codec, t, saves, home, n);
      CarriedByPrefix(codec, saves, id, places, n);
      RowThroughSaves(codec, t, saves[..n], home, id, places[..n]);
      RowThroughLastSave(codec, t, saves, home, id, places);
    }
  }

  /** The versions of the saves are positive and distinct, and that of save `best` is the highest. */
  ghost predicate BestOf(saves: seq<Save>, best: nat) {
    && best < |saves|
    && (forall n :: 0 <= n < |saves| ==> 0 < saves[n].version)
    && (forall m, n :: 0 <= m < n < |saves| ==> saves[m].version != saves[n].version)
    && (forall n :: 0 <= n < |saves| ==> saves[n].version <= saves[best].version)
  }

  lemma HighestCarriedRowStays(
    codec: Codec, existing: Option<Row>, saves: seq<Save>, id: string, places: seq<Place>, best: nat)
    requires AllCarry(saves, id, places) && BestOf(saves, best)
    ensures var rows := CarriedRows(codec, saves, id, places);
            UpsertAll(codec, existing, rows) ==
            Some(if existing.Some? && EffectiveVersion(existing.value) > saves[best].version then existing.value
                 else Packed(codec, rows[best]))
  {
    HighestVersionStays(codec, existing, CarriedRows(codec, saves, id, places), best);
  }

  /**
   While a message stays in every saved snapshot: after any sequence of saves with distinct
   positive versions its row is the snapshot with the highest version, or the row that was
   there before, if that is newer than all of them.
   */
  lemma HighestSnapshotWins(
    codec: Codec, t: Tables, saves: seq<Save>, home: Home, id: string, places: seq<Place>, best: nat)
    requires Coherent(t, home) && GoodSaves(codec, t, saves, home) && AllCarry(saves, id, places)
    requires BestOf(saves, best)
    ensures var rows := CarriedRows(codec, saves, id, places);
            var prior := RowAt(t.messages, id);
            RowAt(SavedMany(codec, t, saves).messages, id) ==
            Some(if prior.Some? && EffectiveVersion(prior.value) > saves[best].version then prior.value
                 else Packed(codec, rows[best]))
  {
    RowThroughSaves(codec, t, saves, home, id, places);
    HighestCarriedRowStays(codec, RowAt(t.messages, id), saves, id, places, best);
  }

  lemma {:induction false} UpsertAllNeverGoesBack(codec: Codec, existing: Option<Row>, rows: seq<Row>, n: nat)
    requires n <= |rows|
    ensures var before, after := UpsertAll(codec, existing, rows[..n]), UpsertAll(codec, existing, rows);
            before.Some? ==> after.Some? && EffectiveVersion(after.value) >= EffectiveVersion(before.value)
    decreases |rows|
  {
    if n == |rows| {
      assert rows[..n] == rows;
    } else {
      var last := |rows| - 1;
      assert rows[..last][..n] == rows[..n];
      UpsertAllNeverGoesBack(codec, existing, rows[..last], n);
    }
  }

  lemma RowThroughFirst(
    codec: Codec, t: Tables, saves: seq<Save>, home: Home, id: string, places: seq<Place>, n: nat)
    requires Coherent(t, home) && GoodSaves(codec, t, saves, home) && AllCarry(saves, id, places)
    requires n <= |saves|
    ensures RowAt(SavedMany(codec, t, saves[..n]).messages, id) ==
            UpsertAll(codec, RowAt(t.messages, id), CarriedRows(codec, saves, id, places)[..n])
  {
    GoodPrefix(codec, t, saves, home, n);
    CarriedByPrefix(codec, saves, id, places, n);
    RowThroughSaves(codec, t, saves[..n], home, id, places[..n]);
  }

  /** And whatever the versions, the row's effective version never decreases along the saves. */
  lemma EffectiveVersionNeverDecreases(
    codec: Codec, t: Tables, saves: seq<Save>, home: Home, id: string, places: seq<Place>, n: nat)
    requires Coherent(t, home) && GoodSaves(codec, t, saves, home) && AllCarry(saves, id, places)
    requires n <= |saves|
    ensures var before := RowAt(SavedMany(codec, t, saves[..n]).messages, id);
            var after := RowAt(SavedMany(codec, t, saves).messages, id);
            before.Some? ==> after.Some? && EffectiveVersion(after.value) >= EffectiveVersion(before.value)
  {
    RowThroughSaves(codec, t, saves, home, id, places);
    RowThroughFirst(codec, t, saves, home, id, places, n);
    UpsertAllNeverGoesBack(codec, RowAt(t.messages, id), CarriedRows(codec, saves, id, places), n);
  }

  // ----- Saving and loading back -----

  /** The version guard lets every row of the conversation's window through. */
  ghost predicate FreshVersion(codec: Codec, t: Tables, conversation: Conversation, version: int) {
    forall i :: 0 <= i < |Window(conversation)| && Window(conversation)[i].id in t.messages ==>
      ShouldReplace(ToRow(codec, conversation.id, Window(conversation)[i], version),
                    t.messages[Window(conversation)[i].id])
  }

  /** A positive version no smaller than any stored effective version is fresh. */
  lemma NewerVersionIsFresh(codec: Codec, t: Tables, conversation: Conversation, version: int)
    requires version > 0
    requires forall id :: id in t.messages ==> EffectiveVersion(t.messages[id]) <= version
    ensures FreshVersion(codec, t, conversation, version)
  {
  }

  /** The database holds exactly the packed rows of a window under its index. */
  ghost predicate StoresWindow(codec: Codec, t: Tables, conversation: Conversation, version: int) {
    && IndexOf(t.messageIndex, conversation.id) == Ids(Window(conversation))
    && forall i :: 0 <= i < |Window(conversation)| ==>
         RowAt(t.messages, Window(conversation)[i].id) ==
         Some(Packed(codec, ToRow(codec, conversation.id, Window(conversation)[i], version)))
  }

  /** What reading a window's rows back yields, before sorting and replay. */
  ghost function ReadBack(codec: Codec, conversation: string, window: seq<Message>, version: int): (r: seq<Message>)
    ensures |r| == |window|
  {
    seq(|window|, i requires 0 <= i < |window| => FromRow(codec, ToRow(codec, conversation, window[i], version)))
  }

  lemma {:induction false} ReadListedReads(decoded: map<string, Option<Message>>, ids: seq<string>, messages: seq<Message>)
    requires |ids| == |messages|
    requires forall i :: 0 <= i < |ids| ==> ids[i] in decoded && decoded[ids[i]] == Some(messages[i])
    ensures ReadListed(decoded, ids) == Some(messages)
    decreases |ids|
  {
    if ids != [] {
      var n := |ids| - 1;
      ReadListedReads(decoded, ids[..n], messages[..n]);
      assert messages == messages[..n] + [messages[n]];
    }
  }

  lemma LoadRowsReadsBack(codec: Codec, rows: map<string, Row>, conversation: string, window: seq<Message>, version: int)
    requires Faithful(codec)
    requires forall i :: 0 <= i < |window| ==>
               RowAt(rows, window[i].id) == Some(Packed(codec, ToRow(codec, conversation, window[i], version)))
    ensures LoadRows(codec, rows, Ids(window)) == Some(ReadBack(codec, conversation, window, version))
  {
    var messages := ReadBack(codec, conversation, window, version);
    var decoded := Decoded(codec, rows);
    forall i | 0 <= i < |window|
      ensures Ids(window)[i] in decoded && decoded[Ids(window)[i]] == Some(messages[i])
    {
      assert RowAt(rows, window[i].id) == Some(Packed(codec, ToRow(codec, conversation, window[i], version)));
      UnpackedOfPacked(codec, conversation, window[i], version);
    }
    ReadListedReads(decoded, Ids(window), messages);
  }

  /** The loaded message is the saved one in everything but its turn projection and thoughts. */
  ghost predicate SameMessage(codec: Codec, saved: Message, loaded: Message) {
    && loaded.id == saved.id && loaded.role == saved.role && loaded.timestamp == saved.timestamp
    && loaded.context == saved.context && loaded.summaryRef == saved.summaryRef && loaded.extras == saved.extras
    && (loaded.content == saved.content <==> PlainContent(codec, saved))
    && (PlainContent(codec, saved) ==> loaded.metadata == saved.metadata)
  }

  lemma LoadOfStoredWindow(codec: Codec, t: Tables, conversation: Conversation, version: int)
    requires Faithful(codec) && StoresWindow(codec, t, conversation, version)
    requires InTimeOrder(conversation.messages)
    ensures var loaded := LoadedMessages(codec, t, conversation.id);
            && loaded.Some? && |loaded.value| == |Window(conversation)|
            && forall i :: 0 <= i < |Window(conversation)| ==>
                 SameMessage(codec, Window(conversation)[i], loaded.value[i])
  {
    var window := Window(conversation);
    var read := ReadBack(codec, conversation.id, window, version);
    LoadRowsReadsBack(codec, t.messages, conversation.id, window, version);
    assert StableSort.Sorted(read, TimestampOf);
    StableSort.SortOfSorted(read, TimestampOf);
    var loaded := LoadedMessages(codec, t, conversation.id).value;
    forall i | 0 <= i < |window|
      ensures SameMessage(codec, window[i], loaded[i])
    {
      RowRoundTrip(codec, conversation.id, window[i], version);
      ReplayChangesOnlyTurns(
        read, SummariesOf(TranscriptOf(t.transcript, IndexOf(t.transcriptIndex, conversation.id))), i);
    }
  }

  lemma {:induction false} SaveAllIndex(codec: Codec, t: Tables, state: seq<Conversation>, version: int, k: nat)
    requires k < |state| && state[k].messagesLoaded
    requires forall later :: k < later < |state| ==> state[later].id != state[k].id
    ensures IndexOf(SavedAll(codec, t, state, version).messageIndex, state[k].id) == Ids(Window(state[k]))
    decreases |state|
  {
    var n := |state| - 1;
    SaveOneIndex(codec, SavedAll(codec, t, state[..n], version), state[n], version, state[k].id);
    if k < n {
      SaveAllIndex(codec, t, state[..n], version, k);
    }
  }

  lemma SaveOneIndex(codec: Codec, t: Tables, conversation: Conversation, version: int, c: string)
    ensures var after := SavedOne(codec, t, conversation, version).messageIndex;
            IndexOf(after, c) == if c == conversation.id && conversation.messagesLoaded
                                 then Ids(Window(conversation)) else IndexOf(t.messageIndex, c)
  {
  }

  lemma LoadOfSavedWindow(codec: Codec, t: Tables, state: seq<Conversation>, version: int, home: Home, k: nat)
    requires Faithful(codec)
    requires Coherent(t, home) && GoodState(t, state, home) && DistinctConversations(state)
    requires k < |state| && state[k].messagesLoaded && InTimeOrder(state[k].messages)
    requires FreshVersion(codec, t, state[k], version)
    ensures var loaded := LoadedMessages(codec, Saved(codec, t, state, version), state[k].id);
            && loaded.Some? && |loaded.value| == |Window(state[k])|
            && forall i :: 0 <= i < |Window(state[k])| ==>
                 SameMessage(codec, Window(state[k])[i], loaded.value[i])
  {
    var after := Saved(codec, t, state, version);
    assert StoresWindow(codec, after, state[k], version) by {
      forall i: nat | i < |Window(state[k])|
        ensures RowAt(after.messages, Window(state[k])[i].id) ==
                Some(Packed(codec, ToRow(codec, state[k].id, Window(state[k])[i], version)))
      {
        SaveRow(codec, t, state, version, home, k, i);
      }
      DeleteRemovesExactlyOwnRows(t, Doomed(t, state), home);
      SurvivorsStayKnown(t, state, home);
      SaveAllIndex(codec, Delete(t, Doomed(t, state)), state, version, k);
    }
    LoadOfStoredWindow(codec, after, state[k], version);
  }

  /** What is retained are the newest messages. */
  lemma NewestMessages(codec: Codec, conversation: Conversation, loaded: seq<Message>)
    requires |loaded| == |Window(conversation)|
    requires forall i :: 0 <= i < |loaded| ==> SameMessage(codec, Window(conversation)[i], loaded[i])
    ensures NewestComeBack(codec, conversation.messages, loaded)
  {
    var m := conversation.messages;
    var window := Window(conversation);
    forall i: nat | i < |loaded|
      ensures window[i] == m[|m| - |loaded| + i]
    {
      TakeLastAt(m, MAX_MESSAGES_PER_CONVERSATION, i);
    }
  }

  /** The last 2000 messages of `m`, or all of them when there are fewer, are those loaded. */
  ghost predicate NewestComeBack(codec: Codec, m: seq<Message>, loaded: seq<Message>) {
    && |loaded| == (if |m| <= 2_000 then |m| else 2_000)
    && forall i :: 0 <= i < |loaded| ==> SameMessage(codec, m[|m| - |loaded| + i], loaded[i])
  }

  /**
   Saving a loaded conversation in time order with a fresh version and loading it back
   returns its last 2000 messages, in the same order, with the same ids, roles, timestamps
   and contexts; content comes back unchanged if and only if it is plain.
   */
  lemma SaveThenLoad(codec: Codec, t: Tables, state: seq<Conversation>, version: int, home: Home, k: nat)
    requires Faithful(codec)
    requires Coherent(t, home) && GoodState(t, state, home) && DistinctConversations(state)
    requires k < |state| && state[k].messagesLoaded && InTimeOrder(state[k].messages)
    requires FreshVersion(codec, t, state[k], version)
    ensures var loaded := LoadedMessages(codec, Saved(codec, t, state, version), state[k].id);
            loaded.Some? && NewestComeBack(codec, state[k].messages, loaded.value)
  {
    LoadOfSavedWindow(codec, t, state, version, home, k);
    NewestMessages(codec, state[k], LoadedMessages(codec, Saved(codec, t, state, version), state[k].id).value);
  }
}
