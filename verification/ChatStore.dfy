/**
 The chat database: metadata, message rows, the per-conversation message index and the
 transcript, changed together in one write transaction per save.
 */
module ChatStore {
  import opened Support
  import opened ChatMessage
  import opened MessageCodec
  import opened RoundSummaries
  import StableSort
  import TurnCount

  const MAX_MESSAGES_PER_CONVERSATION: nat := 2_000

  datatype Conversation = Conversation(
    id: string,
    title: string,
    messages: seq<Message>,
    updatedAt: int,
    messageCount: nat,
    turnCount: nat,
    messagesLoaded: bool)

  datatype Meta = Meta(id: string, title: string, updatedAt: int, messageCount: nat, turnCount: Option<nat>)

  datatype Tables = Tables(
    conversations: map<string, Meta>,
    messages: map<string, Row>,
    messageIndex: map<string, seq<string>>,
    transcript: map<string, TranscriptEntry>,
    transcriptIndex: map<string, seq<string>>)

  const EMPTY_TABLES := Tables(map[], map[], map[], map[], map[])

  // ----- Version-guarded rows -----

  function EffectiveVersion(row: Row): (v: int)
    ensures row.version > 0 ==> v == row.version
    ensures row.version <= 0 ==> v == row.timestamp
  {
    if row.version > 0 then row.version else row.timestamp
  }

  /** `should_replace_projection` */
  predicate ShouldReplace(incoming: Row, existing: Row) {
    if incoming.version <= 0 && existing.version > 0 then false
    else if incoming.version > 0 && existing.version <= 0 then incoming.version >= existing.timestamp
    else EffectiveVersion(incoming) >= EffectiveVersion(existing)
  }

  /**
   The guard, told without its order of tests: a versioned row replaces whatever is not newer,
   going by the timestamp of a row that has no version; a row without a version never replaces
   one that has, and otherwise the later timestamp wins.
   */
  lemma GuardIsExact(incoming: Row, existing: Row)
    ensures ShouldReplace(incoming, existing) <==>
            || (incoming.version > 0 && existing.version > 0 && incoming.version >= existing.version)
            || (incoming.version > 0 && existing.version <= 0 && incoming.version >= existing.timestamp)
            || (incoming.version <= 0 && existing.version <= 0 && incoming.timestamp >= existing.timestamp)
  {
  }

  /** What a write of `incoming` leaves in a slot that held `existing`. */
  function Upsert(codec: Codec, existing: Option<Row>, incoming: Row): Row {
    if existing.Some? && !ShouldReplace(incoming, existing.value) then existing.value else Packed(codec, incoming)
  }

  function RowAt(rows: map<string, Row>, id: string): Option<Row> {
    if id in rows then Some(rows[id]) else None
  }

  // ----- The parts of a save -----

  function IndexOf(index: map<string, seq<string>>, id: string): seq<string> {
    if id in index then index[id] else []
  }

  function Ids(messages: seq<Message>): (r: seq<string>)
    ensures |r| == |messages|
  {
    seq(|messages|, i requires 0 <= i < |messages| => messages[i].id)
  }

  /** The newest messages of a conversation: all that is retained. */
  function Window(conversation: Conversation): seq<Message> {
    TakeLast(conversation.messages, MAX_MESSAGES_PER_CONVERSATION)
  }

  function InIndex(index: map<string, seq<string>>, ids: set<string>): set<string> {
    set id, entry | id in ids && id in index && entry in index[id] :: entry
  }

  /** `delete_conversation_rows` for every id in `ids`. */
  function Delete(tables: Tables, ids: set<string>): Tables {
    Tables(
      tables.conversations - ids,
      tables.messages - InIndex(tables.messageIndex, ids),
      tables.messageIndex - ids,
      tables.transcript - InIndex(tables.transcriptIndex, ids),
      tables.transcriptIndex - ids)
  }

  ghost function TurnsOf(conversation: Conversation): nat {
    if conversation.messagesLoaded then TurnCount.TurnCount(conversation.messages) else conversation.turnCount
  }

  /** `meta_from_conversation` */
  ghost function MetaOf(conversation: Conversation): Meta {
    Meta(conversation.id, conversation.title, conversation.updatedAt,
         if conversation.messagesLoaded then |conversation.messages| else conversation.messageCount,
         Some(TurnsOf(conversation)))
  }

  /** The metadata a save first writes; an unloaded conversation keeps its stored counts. */
  ghost function SavedMeta(tables: Tables, conversation: Conversation): Meta {
    var meta := MetaOf(conversation);
    if !conversation.messagesLoaded && conversation.id in tables.conversations then
      var stored := tables.conversations[conversation.id];
      meta.(messageCount := stored.messageCount,
            turnCount := if stored.turnCount.Some? then stored.turnCount else meta.turnCount,
            updatedAt := if stored.updatedAt > meta.updatedAt then stored.updatedAt else meta.updatedAt)
    else meta
  }

  function WriteRow(codec: Codec, rows: map<string, Row>, row: Row): map<string, Row> {
    rows[row.id := Upsert(codec, RowAt(rows, row.id), row)]
  }

  function WriteRows(
    codec: Codec, rows: map<string, Row>, conversationId: string, window: seq<Message>, version: int): map<string, Row>
  {
    if window == [] then rows
    else
      var n := |window| - 1;
      WriteRow(codec, WriteRows(codec, rows, conversationId, window[..n], version),
               ToRow(codec, conversationId, window[n], version))
  }

  /** Ids the index still lists but the new window does not. */
  function Dropped(current: seq<string>, retained: seq<string>): set<string> {
    set id | id in current && id !in retained
  }

  /** `replace_conversation_messages` */
  ghost function Replaced(codec: Codec, tables: Tables, conversation: Conversation, version: int): Tables {
    var window := Window(conversation);
    var ids := Ids(window);
    var kept := tables.messages - Dropped(IndexOf(tables.messageIndex, conversation.id), ids);
    tables.(
      messages := WriteRows(codec, kept, conversation.id, window, version),
      messageIndex := tables.messageIndex[conversation.id := ids],
      conversations := tables.conversations[conversation.id := MetaOf(conversation).(messageCount := |ids|)])
  }

  function WithIndexRow(index: map<string, seq<string>>, id: string): map<string, seq<string>> {
    if id in index then index else index[id := []]
  }

  ghost function SavedOne(codec: Codec, tables: Tables, conversation: Conversation, version: int): Tables {
    var entered := tables.(
      conversations := tables.conversations[conversation.id := SavedMeta(tables, conversation)],
      messageIndex := WithIndexRow(tables.messageIndex, conversation.id),
      transcriptIndex := WithIndexRow(tables.transcriptIndex, conversation.id));
    if conversation.messagesLoaded then Replaced(codec, entered, conversation, version) else entered
  }

  ghost function SavedAll(codec: Codec, tables: Tables, state: seq<Conversation>, version: int): Tables {
    if state == [] then tables
    else SavedOne(codec, SavedAll(codec, tables, state[..|state| - 1], version), state[|state| - 1], version)
  }

  function ConversationIds(state: seq<Conversation>): set<string> {
    set conversation | conversation in state :: conversation.id
  }

  /** `save_state_with_projection_updated_at` on an already sanitised state. */
  ghost function Saved(codec: Codec, tables: Tables, state: seq<Conversation>, version: int): Tables {
    SavedAll(codec, Delete(tables, tables.conversations.Keys - ConversationIds(state)), state, version)
  }

  // ----- Loading -----

  ghost predicate InTimeOrder(messages: seq<Message>) {
    forall i, j :: 0 <= i < j < |messages| ==> messages[i].timestamp <= messages[j].timestamp
  }

  function TimestampOf(message: Message): int {
    message.timestamp
  }

  /** The message a stored row decodes to; absent when its buffer does not decompress. */
  function ReadRow(codec: Codec, row: Row): Option<Message> {
    match Unpacked(codec, row)
    case None => None
    case Some(unpacked) => Some(FromRow(codec, unpacked))
  }

  function Decoded(codec: Codec, rows: map<string, Row>): map<string, Option<Message>> {
    map id | id in rows :: ReadRow(codec, rows[id])
  }

  /** The messages an index lists, dangling ids skipped; absent when one of them does not decode. */
  function ReadListed(decoded: map<string, Option<Message>>, ids: seq<string>): Option<seq<Message>> {
    if ids == [] then Some([])
    else
      var n := |ids| - 1;
      match ReadListed(decoded, ids[..n])
      case None => None
      case Some(earlier) =>
        if ids[n] !in decoded then Some(earlier)
        else match decoded[ids[n]]
             case None => None
             case Some(message) => Some(earlier + [message])
  }

  function LoadRows(codec: Codec, rows: map<string, Row>, ids: seq<string>): Option<seq<Message>> {
    ReadListed(Decoded(codec, rows), ids)
  }

  function TranscriptOf(transcript: map<string, TranscriptEntry>, ids: seq<string>): seq<TranscriptEntry> {
    if ids == [] then []
    else
      TranscriptOf(transcript, ids[..|ids| - 1])
      + if ids[|ids| - 1] in transcript then [transcript[ids[|ids| - 1]]] else []
  }

  /** The messages `load_conversation` returns for a stored conversation. */
  function LoadedMessages(codec: Codec, tables: Tables, id: string): Option<seq<Message>> {
    match LoadRows(codec, tables.messages, IndexOf(tables.messageIndex, id))
    case None => None
    case Some(messages) =>
      Some(Replay(StableSort.Sort(messages, TimestampOf),
                  SummariesOf(TranscriptOf(tables.transcript, IndexOf(tables.transcriptIndex, id)))))
  }

  // ----- The store object -----

  lemma DeleteOneMore(tables: Tables, doomed: set<string>, pending: set<string>, id: string)
    requires id in pending && pending <= doomed
    ensures Delete(Delete(tables, doomed - pending), {id}) == Delete(tables, doomed - (pending - {id}))
  {
    var done, more := doomed - pending, doomed - (pending - {id});
    assert more == done + {id};
    DeleteIndex(tables.messageIndex, done, id);
    DeleteIndex(tables.transcriptIndex, done, id);
    assert tables.conversations - done - {id} == tables.conversations - more;
    assert tables.messageIndex - done - {id} == tables.messageIndex - more;
    assert tables.transcriptIndex - done - {id} == tables.transcriptIndex - more;
  }

  lemma DeleteIndex(index: map<string, seq<string>>, done: set<string>, id: string)
    requires id !in done
    ensures InIndex(index, done) + InIndex(index - done, {id}) == InIndex(index, done + {id})
  {
    forall entry | entry in InIndex(index, done + {id})
      ensures entry in InIndex(index, done) + InIndex(index - done, {id})
    {
      var owner :| owner in done + {id} && owner in index && entry in index[owner];
      if owner == id {
        assert (index - done)[id] == index[id];
      }
    }
    forall entry | entry in InIndex(index - done, {id})
      ensures entry in InIndex(index, done + {id})
    {
      assert index[id] == (index - done)[id];
    }
  }

  class ChatPersistenceStore {
    const codec: Codec
    var tables: Tables

    constructor (codec: Codec)
      ensures tables == EMPTY_TABLES && this.codec == codec
    {
      this.codec := codec;
      tables := EMPTY_TABLES;
    }

    method DeleteConversationRows(id: string)
      modifies this
      ensures tables == Delete(old(tables), {id})
    {
      var rows, entries := tables.messages, tables.transcript;
      if id in tables.messageIndex {
        rows := rows - (set entry | entry in tables.messageIndex[id]);
      }
      if id in tables.transcriptIndex {
        entries := entries - (set entry | entry in tables.transcriptIndex[id]);
      }
      assert InIndex(tables.messageIndex, {id}) == set entry | entry in IndexOf(tables.messageIndex, id);
      assert InIndex(tables.transcriptIndex, {id}) == set entry | entry in IndexOf(tables.transcriptIndex, id);
      assert tables.messages - InIndex(tables.messageIndex, {id}) == rows;
      assert tables.transcript - InIndex(tables.transcriptIndex, {id}) == entries;
      tables := Tables(
        tables.conversations - {id}, rows, tables.messageIndex - {id}, entries, tables.transcriptIndex - {id});
    }

    method DeleteMissing(desired: set<string>)
      modifies this
      ensures tables == Delete(old(tables), old(tables).conversations.Keys - desired)
    {
      var pending := tables.conversations.Keys - desired;
      ghost var start, doomed := tables, pending;
      assert Delete(start, doomed - pending) == start;
      while pending != {}
        invariant pending <= doomed
        invariant tables == Delete(start, doomed - pending)
        decreases pending
      {
        var id :| id in pending;
        DeleteOneMore(start, doomed, pending, id);
        DeleteConversationRows(id);
        pending := pending - {id};
      }
      assert doomed - pending == doomed;
    }

    method MakeMeta(conversation: Conversation) returns (meta: Meta)
      ensures meta == MetaOf(conversation)
    {
      var turns := conversation.turnCount;
      if conversation.messagesLoaded {
        turns := TurnCount.CountTurns(conversation.messages);
      }
      var count := if conversation.messagesLoaded then |conversation.messages| else conversation.messageCount;
      meta := Meta(conversation.id, conversation.title, conversation.updatedAt, count, Some(turns));
    }

    /** Writes the window's rows, each guarded by its version. */
    method WriteWindow(kept: map<string, Row>, conversationId: string, window: seq<Message>, version: int)
      returns (rows: map<string, Row>)
      ensures rows == WriteRows(codec, kept, conversationId, window, version)
    {
      rows := kept;
      for i := 0 to |window|
        invariant rows == WriteRows(codec, kept, conversationId, window[..i], version)
      {
        assert window[..i + 1][..i] == window[..i];
        var row := ToRow(codec, conversationId, window[i], version);
        var write := row.id !in rows || ShouldReplace(row, rows[row.id]);
        if write {
          rows := rows[row.id := Packed(codec, row)];
        } else {
          assert rows == rows[row.id := rows[row.id]];
        }
      }
      assert window[..|window|] == window;
    }

    method ReplaceConversationMessages(conversation: Conversation, version: int)
      modifies this
      ensures tables == Replaced(codec, old(tables), conversation, version)
    {
      var current := IndexOf(tables.messageIndex, conversation.id);
      var window := Window(conversation);
      var ids := Ids(window);
      var kept := tables.messages - Dropped(current, ids);
      var rows := WriteWindow(kept, conversation.id, window, version);
      var meta := MakeMeta(conversation);
      tables := tables.(
        messages := rows,
        messageIndex := tables.messageIndex[conversation.id := ids],
        conversations := tables.conversations[conversation.id := meta.(messageCount := |ids|)]);
    }

    method SaveConversation(conversation: Conversation, version: int)
      modifies this
      ensures tables == SavedOne(codec, old(tables), conversation, version)
    {
      var meta := MakeMeta(conversation);
      if !conversation.messagesLoaded && conversation.id in tables.conversations {
        var stored := tables.conversations[conversation.id];
        meta := meta.(messageCount := stored.messageCount);
        if stored.turnCount.Some? {
          meta := meta.(turnCount := stored.turnCount);
        }
        if stored.updatedAt > meta.updatedAt {
          meta := meta.(updatedAt := stored.updatedAt);
        }
      }
      tables := tables.(conversations := tables.conversations[conversation.id := meta]);
      if conversation.id !in tables.messageIndex {
        tables := tables.(messageIndex := tables.messageIndex[conversation.id := []]);
      }
      if conversation.id !in tables.transcriptIndex {
        tables := tables.(transcriptIndex := tables.transcriptIndex[conversation.id := []]);
      }
      if conversation.messagesLoaded {
        ReplaceConversationMessages(conversation, version);
      }
    }

    /** `save_state_with_projection_updated_at` */
    method SaveState(state: seq<Conversation>, version: int)
      modifies this
      ensures tables == Saved(codec, old(tables), state, version)
    {
      var desired := ConversationIds(state);
      DeleteMissing(desired);
      ghost var start := tables;
      for i := 0 to |state|
        invariant tables == SavedAll(codec, start, state[..i], version)
      {
        assert state[..i + 1][..i] == state[..i];
        SaveConversation(state[i], version);
      }
      assert state[..|state|] == state;
    }

    /** `load_conversation`: `None` when it is not stored, `Err` when a buffer does not decompress. */
    method LoadConversation(id: string) returns (result: Result<Option<Conversation>, ()>)
      ensures id !in tables.conversations ==> result == Ok(None)
      ensures id in tables.conversations ==>
                match LoadedMessages(codec, tables, id)
                case None => result == Err(())
                case Some(messages) =>
                  && result.Ok? && result.value.Some?
                  && var loaded := result.value.value;
                     && loaded.id == tables.conversations[id].id && loaded.messages == messages
                     && loaded.messageCount == |messages| && loaded.messagesLoaded
                     && loaded.updatedAt == tables.conversations[id].updatedAt
                     && loaded.title == tables.conversations[id].title
                     && loaded.turnCount == TurnCount.TurnCount(messages)
    {
      if id !in tables.conversations {
        return Ok(None);
      }
      var meta := tables.conversations[id];
      var ids := IndexOf(tables.messageIndex, id);
      var messages: seq<Message> := [];
      ghost var decoded := Decoded(codec, tables.messages);
      for i := 0 to |ids|
        invariant ReadListed(decoded, ids[..i]) == Some(messages)
      {
        assert ids[..i + 1][..i] == ids[..i];
        if ids[i] in tables.messages {
          var message := ReadRow(codec, tables.messages[ids[i]]);
          if message.None? {
            ReadFails(decoded, ids, i + 1);
            return Err(());
          }
          messages := messages + [message.value];
        }
      }
      assert ids[..|ids|] == ids;
      var summaries := SummariesOf(TranscriptOf(tables.transcript, IndexOf(tables.transcriptIndex, id)));
      messages := Replay(StableSort.Sort(messages, TimestampOf), summaries);
      var turns := TurnCount.CountTurns(messages);
      result := Ok(Some(Conversation(meta.id, meta.title, messages, meta.updatedAt, |messages|, turns, true)));
    }
  }

  /** Once a row fails to decode, the whole load fails. */
  lemma {:induction false} ReadFails(decoded: map<string, Option<Message>>, ids: seq<string>, n: nat)
    requires n <= |ids| && ReadListed(decoded, ids[..n]).None?
    ensures ReadListed(decoded, ids).None?
    decreases |ids|
  {
    if n < |ids| {
      assert ids[..|ids| - 1][..n] == ids[..n];
      ReadFails(decoded, ids[..|ids| - 1], n);
    } else {
      assert ids[..n] == ids;
    }
  }
}
