/** What a load promises: which messages come back, in which order, and with which round summaries. */
module ChatStoreLoad {
  import opened Support
  import opened ChatMessage
  import opened MessageCodec
  import opened RoundSummaries
  import opened ChatStore
  import StableSort
  import Json

  // ----- Order and identity -----

  /** The ids of the messages with that timestamp, in order. */
  ghost function MessageIdsAt(messages: seq<Message>, time: int): seq<string> {
    if messages == [] then []
    else
      var n := |messages| - 1;
      MessageIdsAt(messages[..n], time) + if messages[n].timestamp == time then [messages[n].id] else []
  }

  /** The ids of the listed rows with that timestamp, in index order; a dangling id is skipped. */
  ghost function RowIdsAt(rows: map<string, Row>, ids: seq<string>, time: int): seq<string> {
    if ids == [] then []
    else
      var n := |ids| - 1;
      RowIdsAt(rows, ids[..n], time)
      + if ids[n] in rows && rows[ids[n]].timestamp == time then [rows[ids[n]].id] else []
  }

  lemma {:induction false} SameIdsSameTimes(a: seq<Message>, b: seq<Message>, time: int)
    requires |a| == |b|
    requires forall i :: 0 <= i < |a| ==> a[i].id == b[i].id && a[i].timestamp == b[i].timestamp
    ensures MessageIdsAt(a, time) == MessageIdsAt(b, time)
    decreases |a|
  {
    if a != [] {
      SameIdsSameTimes(a[..|a| - 1], b[..|b| - 1], time);
    }
  }

  lemma {:induction false} IdsOfWithKey(messages: seq<Message>, time: int)
    ensures MessageIdsAt(messages, time) == Ids(StableSort.WithKey(messages, TimestampOf, time))
    decreases |messages|
  {
    if messages != [] {
      var n := |messages| - 1;
      IdsOfWithKey(messages[..n], time);
    }
  }

  lemma {:induction false} ReadListedIds(codec: Codec, rows: map<string, Row>, ids: seq<string>, time: int)
    requires LoadRows(codec, rows, ids).Some?
    ensures MessageIdsAt(LoadRows(codec, rows, ids).value, time) == RowIdsAt(rows, ids, time)
    decreases |ids|
  {
    if ids != [] {
      var n := |ids| - 1;
      ReadListedIds(codec, rows, ids[..n], time);
      var earlier := LoadRows(codec, rows, ids[..n]).value;
      if ids[n] in rows {
        var message := ReadRow(codec, rows[ids[n]]).value;
        assert (earlier + [message])[..|earlier|] == earlier;
      }
    }
  }

  /** The messages before the replay: the listed rows, stably sorted by timestamp. */
  ghost function Read(codec: Codec, tables: Tables, c: string): seq<Message>
    requires LoadRows(codec, tables.messages, IndexOf(tables.messageIndex, c)).Some?
  {
    StableSort.Sort(LoadRows(codec, tables.messages, IndexOf(tables.messageIndex, c)).value, TimestampOf)
  }

  lemma LoadedIsReplayed(codec: Codec, tables: Tables, c: string, i: nat)
    requires LoadedMessages(codec, tables, c).Some? && i < |LoadedMessages(codec, tables, c).value|
    ensures LoadRows(codec, tables.messages, IndexOf(tables.messageIndex, c)).Some?
    ensures var loaded, read := LoadedMessages(codec, tables, c).value, Read(codec, tables, c);
            && |loaded| == |read| && loaded[i].id == read[i].id && loaded[i].timestamp == read[i].timestamp
  {
    var summaries := SummariesOf(TranscriptOf(tables.transcript, IndexOf(tables.transcriptIndex, c)));
    ReplayChangesOnlyTurns(Read(codec, tables, c), summaries, i);
  }

  /**
   A load returns its messages in time order, and for every timestamp exactly the listed rows
   that have it, in index order. So nothing listed is lost, added or moved without reason.
   */
  lemma LoadIsSortedAndStable(codec: Codec, tables: Tables, c: string, time: int)
    requires LoadedMessages(codec, tables, c).Some?
    ensures var loaded := LoadedMessages(codec, tables, c).value;
            && (forall i, j :: 0 <= i < j < |loaded| ==> loaded[i].timestamp <= loaded[j].timestamp)
            && MessageIdsAt(loaded, time) == RowIdsAt(tables.messages, IndexOf(tables.messageIndex, c), time)
  {
    var loaded, read := LoadedMessages(codec, tables, c).value, Read(codec, tables, c);
    var ids := IndexOf(tables.messageIndex, c);
    var listed := LoadRows(codec, tables.messages, ids).value;
    forall i: nat | i < |loaded|
      ensures loaded[i].id == read[i].id && loaded[i].timestamp == read[i].timestamp
    {
      LoadedIsReplayed(codec, tables, c, i);
    }
    StableSort.SortSorts(listed, TimestampOf);
    forall i, j | 0 <= i < j < |loaded|
      ensures loaded[i].timestamp <= loaded[j].timestamp
    {
      assert TimestampOf(read[i]) <= TimestampOf(read[j]);
    }
    SameIdsSameTimes(loaded, read, time);
    StableSort.SortIsStable(listed, TimestampOf, time);
    IdsOfWithKey(read, time);
    IdsOfWithKey(listed, time);
    ReadListedIds(codec, tables.messages, ids, time);
  }

  // ----- Failure -----

  /** The stored row's context buffer is marked compressed and does not decompress. */
  ghost predicate Unreadable(codec: Codec, row: Row) {
    row.context.Some? && row.context.value.compressed && codec.decompress(row.context.value.text).None?
  }

  lemma {:induction false} ReadListedFails(codec: Codec, rows: map<string, Row>, ids: seq<string>)
    ensures LoadRows(codec, rows, ids).None? <==>
            exists i :: 0 <= i < |ids| && ids[i] in rows && Unreadable(codec, rows[ids[i]])
    decreases |ids|
  {
    if ids != [] {
      var n := |ids| - 1;
      ReadListedFails(codec, rows, ids[..n]);
      if i :| 0 <= i < |ids[..n]| && ids[..n][i] in rows && Unreadable(codec, rows[ids[..n][i]]) {
        assert ids[i] in rows && Unreadable(codec, rows[ids[i]]);
      }
      if i :| 0 <= i < |ids| && ids[i] in rows && Unreadable(codec, rows[ids[i]]) {
        assert i < n ==> ids[..n][i] == ids[i];
      }
    }
  }

  /** A load fails exactly when a listed row is there but its context buffer does not decompress. */
  lemma LoadFailsExactly(codec: Codec, tables: Tables, c: string)
    ensures var ids := IndexOf(tables.messageIndex, c);
            LoadedMessages(codec, tables, c).None? <==>
            exists i :: 0 <= i < |ids| && ids[i] in tables.messages && Unreadable(codec, tables.messages[ids[i]])
  {
    ReadListedFails(codec, tables.messages, IndexOf(tables.messageIndex, c));
  }

  // ----- Summaries -----

  /** What each listed transcript entry records, in index order. */
  ghost function Recorded(transcript: map<string, TranscriptEntry>, ids: seq<string>): (r: seq<Option<RoundSummary>>)
    ensures |r| == |ids|
  {
    seq(|ids|, i requires 0 <= i < |ids| => if ids[i] in transcript then SummaryOf(transcript[ids[i]]) else None)
  }

  /** Position `e` of the transcript index holds an entry that records a round summary. */
  ghost predicate HoldsSummary(transcript: map<string, TranscriptEntry>, ids: seq<string>, e: nat) {
    e < |ids| && ids[e] in transcript && SummaryOf(transcript[ids[e]]).Some?
  }

  lemma {:induction false} ExtractedArePresent(transcript: map<string, TranscriptEntry>, ids: seq<string>)
    ensures Extracted(TranscriptOf(transcript, ids)) == Present(Recorded(transcript, ids))
    decreases |ids|
  {
    if ids != [] {
      var n := |ids| - 1;
      ExtractedArePresent(transcript, ids[..n]);
      assert Recorded(transcript, ids)[..n] == Recorded(transcript, ids[..n]);
      var entries := TranscriptOf(transcript, ids[..n]);
      if ids[n] in transcript {
        assert (entries + [transcript[ids[n]]])[..|entries|] == entries;
      } else {
        assert TranscriptOf(transcript, ids) == entries;
      }
    }
  }

  /** Entry `f` comes after entry `e`: later in time, or as late and later in the index. */
  ghost predicate Later(transcript: map<string, TranscriptEntry>, ids: seq<string>, e: nat, f: nat) {
    && e < |ids| && ids[e] in transcript && f < |ids| && ids[f] in transcript
    && (|| transcript[ids[f]].timestamp > transcript[ids[e]].timestamp
        || (transcript[ids[f]].timestamp == transcript[ids[e]].timestamp && f > e))
  }

  /** Where the summary of entry `e` stands in replay order, and that only later entries' follow it. */
  lemma ReplayPosition(transcript: map<string, TranscriptEntry>, ids: seq<string>, e: nat) returns (k: nat)
    requires HoldsSummary(transcript, ids, e)
    ensures var summaries := SummariesOf(TranscriptOf(transcript, ids));
            && k < |summaries| && summaries[k] == SummaryOf(transcript[ids[e]]).value
            && forall l :: k < l < |summaries| ==>
                 exists f: nat :: HoldsSummary(transcript, ids, f) && Later(transcript, ids, e, f)
                             && summaries[l] == SummaryOf(transcript[ids[f]]).value
  {
    var recorded := Recorded(transcript, ids);
    var present, summaries := Present(recorded), SummariesOf(TranscriptOf(transcript, ids));
    ExtractedArePresent(transcript, ids);
    PresentAt(recorded, e);
    var order := StableSort.SortOrder(present, TimeOf);
    assert |Present(recorded[..e])| in order;
    k :| 0 <= k < |order| && order[k] == |Present(recorded[..e])|;
    forall l | k < l < |summaries|
      ensures exists f: nat :: HoldsSummary(transcript, ids, f) && Later(transcript, ids, e, f)
                               && summaries[l] == SummaryOf(transcript[ids[f]]).value
    {
      assert StableSort.Precedes(present, TimeOf, order[k], order[l]);
      var f := PresentFrom(recorded, order[l]);
      LaterByNumber(transcript, ids, e, f);
    }
  }

  lemma LaterByNumber(transcript: map<string, TranscriptEntry>, ids: seq<string>, e: nat, f: nat)
    requires HoldsSummary(transcript, ids, e) && HoldsSummary(transcript, ids, f)
    requires var recorded := Recorded(transcript, ids);
             var earlier, later := SummaryOf(transcript[ids[e]]).value, SummaryOf(transcript[ids[f]]).value;
             || later.timestamp > earlier.timestamp
             || (later.timestamp == earlier.timestamp && |Present(recorded[..f])| > |Present(recorded[..e])|)
    ensures Later(transcript, ids, e, f)
  {
    if f < e {
      PresentInOrder(Recorded(transcript, ids), f, e);
    }
  }

  /** The turn shows `text` as the summary of `round`: attached to the round, or else pending. */
  ghost predicate ShowsText(turn: Turn, round: string, text: string) {
    && turn.TurnObject?
    && if HasRound(turn, round) then
         exists i :: && 0 <= i < |turn.toolRounds.items| && turn.toolRounds.items[i].id == Some(round)
                     && turn.toolRounds.items[i].summary == Some(Json.Str(text))
       else if turn.pendingSummaries.Items? then
         exists i :: && 0 <= i < |turn.pendingSummaries.items|
                     && turn.pendingSummaries.items[i].roundId == Some(round)
                     && turn.pendingSummaries.items[i].text == Json.Str(text)
       else turn.pendingSummaries.NotArray?
  }

  lemma ReplayedTargets(messages: seq<Message>, summaries: seq<RoundSummary>, target: Option<string>, round: string, j: nat)
    ensures GoesTo(Replay(messages, summaries), target, round, j) <==> GoesTo(messages, target, round, j)
  {
    var probe := RoundSummary(target, round, "", None, 0);
    ReplayKeepsTarget(messages, summaries, probe);
    TargetIsExact(messages, probe, j);
    TargetIsExact(Replay(messages, summaries), probe, j);
  }

  /** No entry after `e` records a summary for `round` that goes to message `j`. */
  ghost predicate IsLatest(
    transcript: map<string, TranscriptEntry>, ids: seq<string>, e: nat, messages: seq<Message>, round: string, j: nat)
  {
    forall f: nat, target, text ::
      Later(transcript, ids, e, f) && Records(transcript[ids[f]], target, round, text) ==>
        !GoesTo(messages, target, round, j)
  }

  lemma LaterSummaryGoesElsewhere(
    transcript: map<string, TranscriptEntry>, ids: seq<string>, e: nat, f: nat, read: seq<Message>,
    summaries: seq<RoundSummary>, round: string, j: nat)
    requires IsLatest(transcript, ids, e, Replay(read, summaries), round, j)
    requires HoldsSummary(transcript, ids, f) && Later(transcript, ids, e, f)
    requires SummaryOf(transcript[ids[f]]).value.roundId == round && j < |read|
    ensures Target(read, SummaryOf(transcript[ids[f]]).value) != j
  {
    var later := SummaryOf(transcript[ids[f]]).value;
    SummaryIsRecorded(transcript[ids[f]], later.messageId, round, later.text);
    ReplayedTargets(read, summaries, later.messageId, round, j);
    TargetIsExact(read, later, j);
  }

  lemma ReplayShowsLatest(
    transcript: map<string, TranscriptEntry>, ids: seq<string>, e: nat, read: seq<Message>,
    target: Option<string>, round: string, text: string, j: nat)
    requires e < |ids| && ids[e] in transcript && Records(transcript[ids[e]], target, round, text)
    requires var loaded := Replay(read, SummariesOf(TranscriptOf(transcript, ids)));
             GoesTo(loaded, target, round, j) && IsLatest(transcript, ids, e, loaded, round, j)
    ensures ShowsText(Replay(read, SummariesOf(TranscriptOf(transcript, ids)))[j].turn, round, text)
  {
    SummaryIsRecorded(transcript[ids[e]], target, round, text);
    var summaries := SummariesOf(TranscriptOf(transcript, ids));
    var k := ReplayPosition(transcript, ids, e);
    ReplayedTargets(read, summaries, target, round, j);
    TargetIsExact(read, summaries[k], j);
    forall l | k < l < |summaries| && summaries[l].roundId == round
      ensures Target(read, summaries[l]) != j
    {
      var f: nat :| HoldsSummary(transcript, ids, f) && Later(transcript, ids, e, f)
                    && summaries[l] == SummaryOf(transcript[ids[f]]).value;
      LaterSummaryGoesElsewhere(transcript, ids, e, f, read, summaries, round, j);
    }
    LastSummaryWins(read, summaries, k);
    ReplayKeepsTargets(read, summaries, j);
    WinnerShows(read[j], Replay(read, summaries)[j], summaries[k]);
  }

  /**
   A loaded message shows the latest summary its transcript records for a round: entry `e` of
   the transcript index records `text` for `round`, addressed so that it goes to message `j`,
   and no later entry records one for the same round that goes there too.
   */
  lemma LoadShowsLatestSummary(
    codec: Codec, tables: Tables, c: string, e: nat, target: Option<string>, round: string, text: string, j: nat)
    requires LoadedMessages(codec, tables, c).Some?
    requires e < |IndexOf(tables.transcriptIndex, c)| && IndexOf(tables.transcriptIndex, c)[e] in tables.transcript
    requires Records(tables.transcript[IndexOf(tables.transcriptIndex, c)[e]], target, round, text)
    requires GoesTo(LoadedMessages(codec, tables, c).value, target, round, j)
    requires IsLatest(
               tables.transcript, IndexOf(tables.transcriptIndex, c), e, LoadedMessages(codec, tables, c).value, round, j)
    ensures ShowsText(LoadedMessages(codec, tables, c).value[j].turn, round, text)
  {
    ReplayShowsLatest(
      tables.transcript, IndexOf(tables.transcriptIndex, c), e, Read(codec, tables, c), target, round, text, j);
  }

  lemma WinnerShows(before: Message, after: Message, summary: RoundSummary)
    requires IsAttached(after.turn, summary) <==> HasRound(before.turn, summary.roundId)
    requires IsPending(after.turn, summary) <==> !HasRound(before.turn, summary.roundId) && !CannotPend(before.turn)
    requires SameForTargets(before, after)
    ensures ShowsText(after.turn, summary.roundId, summary.text)
  {
  }
}
