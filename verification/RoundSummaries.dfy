/**
 Replaying transcript round summaries onto loaded messages. A summary is attached to its
 tool round when the message's turn has that round, and kept as pending otherwise.
 */
module RoundSummaries {
  import opened Support
  import opened ChatMessage
  import opened StableSort
  import Json

  datatype RoundSummary = RoundSummary(
    messageId: Option<string>,
    roundId: string,
    text: string,
    metadata: Option<Json.Value>,
    timestamp: int)

  // ----- The update of one message -----

  function FindRound(rounds: seq<Round>, id: string): (i: nat)
    ensures i <= |rounds|
    ensures i < |rounds| ==> rounds[i].id == Some(id)
    ensures forall k :: 0 <= k < i ==> rounds[k].id != Some(id)
  {
    if rounds == [] then 0
    else if rounds[0].id == Some(id) then 0
    else
      var i := FindRound(rounds[1..], id);
      assert forall k :: 1 <= k < i + 1 ==> rounds[k] == rounds[1..][k - 1];
      i + 1
  }

  function FindPending(pending: seq<Pending>, id: string): (i: nat)
    ensures i <= |pending|
    ensures i < |pending| ==> pending[i].roundId == Some(id)
    ensures forall k :: 0 <= k < i ==> pending[k].roundId != Some(id)
  {
    if pending == [] then 0
    else if pending[0].roundId == Some(id) then 0
    else
      var i := FindPending(pending[1..], id);
      assert forall k :: 1 <= k < i + 1 ==> pending[k] == pending[1..][k - 1];
      i + 1
  }

  predicate HasRound(turn: Turn, id: string)
    ensures HasRound(turn, id) <==>
            && turn.TurnObject? && turn.toolRounds.Items?
            && exists i :: 0 <= i < |turn.toolRounds.items| && turn.toolRounds.items[i].id == Some(id)
  {
    turn.TurnObject? && turn.toolRounds.Items? &&
    FindRound(turn.toolRounds.items, id) < |turn.toolRounds.items|
  }

  function PresentSlot<T>(slot: Slot<T>): Slot<T> {
    if slot.Missing? then Items([]) else slot
  }

  /** `ensure_message_turn` */
  function EnsuredTurn(message: Message): (turn: Turn)
    ensures turn.TurnObject? && !turn.toolRounds.Missing? && !turn.pendingSummaries.Missing?
    ensures message.turn.TurnObject? ==>
              && turn.rest == message.turn.rest
              && (!message.turn.toolRounds.Missing? ==> turn.toolRounds == message.turn.toolRounds)
              && (!message.turn.pendingSummaries.Missing? ==> turn.pendingSummaries == message.turn.pendingSummaries)
  {
    if message.turn.TurnObject? then
      TurnObject(PresentSlot(message.turn.toolRounds), PresentSlot(message.turn.pendingSummaries), message.turn.rest)
    else
      TurnObject(Items([]), Items([]), [
        Json.Field("id", Json.Str(message.id)),
        Json.Field("status", Json.Str("complete")),
        Json.Field("plainTextSummary", Json.Str(message.content)),
        Json.Field("parts", Json.Array([]))])
  }

  function AttachTo(round: Round, summary: RoundSummary): Round {
    round.(summary := Some(Json.Str(summary.text)),
           summaryMetadata := if summary.metadata.Some? then summary.metadata else round.summaryMetadata)
  }

  /** `attach_message_round_summary`, for a turn that has the round. */
  function Attached(turn: Turn, summary: RoundSummary): Turn
    requires HasRound(turn, summary.roundId)
  {
    var rounds := turn.toolRounds.items;
    var i := FindRound(rounds, summary.roundId);
    turn.(toolRounds := Items(rounds[i := AttachTo(rounds[i], summary)]))
  }

  function PendingEntry(summary: RoundSummary): Pending {
    Pending(Some(summary.roundId), Json.Str(summary.text), summary.metadata, Json.Null)
  }

  /** `upsert_message_pending_summary`: nothing happens when the entry is no array. */
  function WithPending(turn: Turn, summary: RoundSummary): Turn
    requires turn.TurnObject?
  {
    if !turn.pendingSummaries.Items? then turn
    else
      var pending := turn.pendingSummaries.items;
      var i := FindPending(pending, summary.roundId);
      turn.(pendingSummaries :=
        Items(if i < |pending| then pending[i := PendingEntry(summary)] else pending + [PendingEntry(summary)]))
  }

  function Without(pending: seq<Pending>, id: string): (r: seq<Pending>)
    ensures forall k :: 0 <= k < |r| ==> r[k].roundId != Some(id)
    ensures (forall k :: 0 <= k < |pending| ==> pending[k].roundId != Some(id)) ==> r == pending
  {
    if pending == [] then []
    else
      var rest := Without(pending[1..], id);
      assert pending == [pending[0]] + pending[1..];
      if pending[0].roundId == Some(id) then rest else [pending[0]] + rest
  }

  /** `remove_message_pending_summary` */
  function WithoutPending(turn: Turn, id: string): Turn
    requires turn.TurnObject?
  {
    if !turn.pendingSummaries.Items? then turn
    else turn.(pendingSummaries := Items(Without(turn.pendingSummaries.items, id)))
  }

  /** `upsert_message_round_summary` */
  function Upserted(message: Message, summary: RoundSummary): Message {
    var turn := EnsuredTurn(message);
    message.(turn :=
      if HasRound(turn, summary.roundId)
      then WithoutPending(Attached(turn, summary), summary.roundId)
      else WithPending(turn, summary))
  }

  // ----- The replay over a list of messages -----

  predicate Addressed(message: Message, summary: RoundSummary) {
    summary.messageId == Some(message.id)
  }

  predicate OwnsRound(message: Message, summary: RoundSummary) {
    message.role.Assistant? && HasRound(message.turn, summary.roundId)
  }

  /**
   A summary for `round` that names message `target` goes to position `j`: the first message of
   that id, or, when there is none, the first assistant message whose turn has the round.
   */
  ghost predicate GoesTo(messages: seq<Message>, target: Option<string>, round: string, j: nat) {
    && j < |messages|
    && if exists k :: 0 <= k < |messages| && target == Some(messages[k].id) then
         target == Some(messages[j].id) && forall k :: 0 <= k < j ==> target != Some(messages[k].id)
       else
         && messages[j].role == Assistant && HasRound(messages[j].turn, round)
         && forall k :: 0 <= k < j ==> !(messages[k].role == Assistant && HasRound(messages[k].turn, round))
  }

  lemma OneTarget(messages: seq<Message>, target: Option<string>, round: string, i: nat, j: nat)
    requires GoesTo(messages, target, round, i) && GoesTo(messages, target, round, j)
    ensures i == j
  {
  }

  /** The message a summary goes to: the one it names, else the first assistant with its round. */
  function Target(messages: seq<Message>, summary: RoundSummary): (j: nat)
    ensures j <= |messages|
    ensures j < |messages| ==> GoesTo(messages, summary.messageId, summary.roundId, j)
  {
    var named := FirstAddressed(messages, summary);
    if named < |messages| then named else FirstOwner(messages, summary)
  }

  lemma TargetIsExact(messages: seq<Message>, summary: RoundSummary, j: nat)
    ensures GoesTo(messages, summary.messageId, summary.roundId, j) <==> j == Target(messages, summary) < |messages|
  {
    if GoesTo(messages, summary.messageId, summary.roundId, j) {
      var named := FirstAddressed(messages, summary);
      assert named < |messages| ==> summary.messageId == Some(messages[named].id);
      assert named == |messages| ==> OwnsRound(messages[j], summary);
      OneTarget(messages, summary.messageId, summary.roundId, j, Target(messages, summary));
    }
  }

  function FirstAddressed(messages: seq<Message>, summary: RoundSummary): (j: nat)
    ensures j <= |messages|
    ensures j < |messages| ==> Addressed(messages[j], summary)
    ensures forall k :: 0 <= k < j ==> !Addressed(messages[k], summary)
  {
    if messages == [] || Addressed(messages[0], summary) then 0
    else
      var j := FirstAddressed(messages[1..], summary);
      assert forall k :: 1 <= k < j + 1 ==> messages[k] == messages[1..][k - 1];
      j + 1
  }

  function FirstOwner(messages: seq<Message>, summary: RoundSummary): (j: nat)
    ensures j <= |messages|
    ensures j < |messages| ==> OwnsRound(messages[j], summary)
    ensures forall k :: 0 <= k < j ==> !OwnsRound(messages[k], summary)
  {
    if messages == [] || OwnsRound(messages[0], summary) then 0
    else
      var j := FirstOwner(messages[1..], summary);
      assert forall k :: 1 <= k < j + 1 ==> messages[k] == messages[1..][k - 1];
      j + 1
  }

  function ReplayOne(messages: seq<Message>, summary: RoundSummary): (r: seq<Message>)
    ensures |r| == |messages|
  {
    var j := Target(messages, summary);
    if j < |messages| then messages[j := Upserted(messages[j], summary)] else messages
  }

  function Replay(messages: seq<Message>, summaries: seq<RoundSummary>): (r: seq<Message>)
    ensures |r| == |messages|
  {
    if summaries == [] then messages
    else ReplayOne(Replay(messages, summaries[..|summaries| - 1]), summaries[|summaries| - 1])
  }

  /** `apply_round_summaries_to_messages`, in place. */
  method ApplyRoundSummaries(messages: array<Message>, summaries: seq<RoundSummary>)
    modifies messages
    ensures messages[..] == Replay(old(messages[..]), summaries)
  {
    for k := 0 to |summaries|
      invariant messages[..] == Replay(old(messages[..]), summaries[..k])
    {
      assert summaries[..k + 1][..k] == summaries[..k];
      var summary := summaries[k];
      var j := Target(messages[..], summary);
      if j < messages.Length {
        messages[j] := Upserted(messages[j], summary);
      }
    }
    assert summaries[..|summaries|] == summaries;
  }

  // ----- One message: what a list of summaries leaves behind -----

  ghost function Upserts(message: Message, summaries: seq<RoundSummary>): Message {
    if summaries == [] then message
    else Upserted(Upserts(message, summaries[..|summaries| - 1]), summaries[|summaries| - 1])
  }

  ghost predicate Mentions(summaries: seq<RoundSummary>, id: string) {
    exists k :: 0 <= k < |summaries| && summaries[k].roundId == id
  }

  ghost predicate GivesMetadata(summaries: seq<RoundSummary>, id: string) {
    exists k :: 0 <= k < |summaries| && summaries[k].roundId == id && summaries[k].metadata.Some?
  }

  /** `summaries[k]` is the last one for its round. */
  ghost predicate IsLast(summaries: seq<RoundSummary>, k: nat) {
    k < |summaries| && !Mentions(summaries[k + 1..], summaries[k].roundId)
  }

  /** The entry for round `id` that lookups in the pending list find. */
  ghost function PendingFor(pending: seq<Pending>, id: string): Option<Pending> {
    var i := FindPending(pending, id);
    if i < |pending| then Some(pending[i]) else None
  }

  ghost predicate Ready(turn: Turn) {
    turn.TurnObject? && !turn.toolRounds.Missing? && !turn.pendingSummaries.Missing?
  }

  /** The round of `summary` carries its text: attached, or else pending if there is a list for it. */
  ghost predicate Shows(turn: Turn, summary: RoundSummary) {
    && Ready(turn)
    && if HasRound(turn, summary.roundId) then
         && turn.toolRounds.items[FindRound(turn.toolRounds.items, summary.roundId)].summary
            == Some(Json.Str(summary.text))
         && (turn.pendingSummaries.Items? ==>
               PendingFor(turn.pendingSummaries.items, summary.roundId) == None)
       else
         turn.pendingSummaries.Items? ==>
           PendingFor(turn.pendingSummaries.items, summary.roundId)
           == Some(Pending(Some(summary.roundId), Json.Str(summary.text), summary.metadata, Json.Null))
  }

  ghost predicate ShowsMetadata(turn: Turn, summary: RoundSummary) {
    HasRound(turn, summary.roundId) && summary.metadata.Some? ==>
      turn.toolRounds.items[FindRound(turn.toolRounds.items, summary.roundId)].summaryMetadata == summary.metadata
  }

  /** Every round shows its last summary, and the last metadata any of its summaries gave. */
  ghost predicate Settled(turn: Turn, summaries: seq<RoundSummary>) {
    && Ready(turn)
    && (forall k :: 0 <= k < |summaries| && IsLast(summaries, k) ==> Shows(turn, summaries[k]))
    && (forall k :: 0 <= k < |summaries| && !GivesMetadata(summaries[k + 1..], summaries[k].roundId) ==>
          ShowsMetadata(turn, summaries[k]))
  }

  lemma {:induction false} PendingForWithout(pending: seq<Pending>, id: string, other: string)
    ensures PendingFor(Without(pending, id), id) == None
    ensures other != id ==> PendingFor(Without(pending, id), other) == PendingFor(pending, other)
  {
    if pending != [] {
      PendingForWithout(pending[1..], id, other);
      var rest := Without(pending[1..], id);
      assert ([pending[0]] + rest)[1..] == rest;
    }
  }

  lemma PendingForUpsert(pending: seq<Pending>, entry: Pending, id: string, other: string)
    requires entry.roundId == Some(id)
    ensures var i := FindPending(pending, id);
            var updated := if i < |pending| then pending[i := entry] else pending + [entry];
            && PendingFor(updated, id) == Some(entry)
            && (other != id ==> PendingFor(updated, other) == PendingFor(pending, other))
  {
    var i := FindPending(pending, id);
    var updated := if i < |pending| then pending[i := entry] else pending + [entry];
    SameFirstPending(pending, updated, other);
    var f := FindPending(updated, id);
    assert updated[i] == entry;
  }

  /** Two lists that agree on which positions name `id`, up to an appended entry, find the same position. */
  lemma SameFirstPending(pending: seq<Pending>, updated: seq<Pending>, id: string)
    requires |pending| <= |updated|
    ensures (&& (forall k :: 0 <= k < |pending| ==>
                   (pending[k].roundId == Some(id) <==> updated[k].roundId == Some(id)))
             && (forall k :: |pending| <= k < |updated| ==> updated[k].roundId != Some(id)))
            ==> var i := FindPending(pending, id);
                if i < |pending| then FindPending(updated, id) == i else FindPending(updated, id) == |updated|
  {
  }

  lemma SameFirstRound(rounds: seq<Round>, updated: seq<Round>, id: string)
    requires |rounds| == |updated|
    requires forall k :: 0 <= k < |rounds| ==> rounds[k].id == updated[k].id
    ensures FindRound(rounds, id) == FindRound(updated, id)
  {
  }

  /** An update leaves every other round's text and metadata where they were. */
  lemma UpsertKeepsOthers(message: Message, summary: RoundSummary, other: RoundSummary)
    requires Ready(message.turn)
    ensures other.roundId != summary.roundId && Shows(message.turn, other) ==>
              Shows(Upserted(message, summary).turn, other)
    ensures (other.roundId != summary.roundId || summary.metadata.None?) && ShowsMetadata(message.turn, other) ==>
              ShowsMetadata(Upserted(message, summary).turn, other)
  {
    var turn := message.turn;
    assert EnsuredTurn(message) == turn;
    if HasRound(turn, summary.roundId) {
      SameFirstRound(turn.toolRounds.items, Attached(turn, summary).toolRounds.items, other.roundId);
      if turn.pendingSummaries.Items? {
        PendingForWithout(turn.pendingSummaries.items, summary.roundId, other.roundId);
      }
    } else if turn.pendingSummaries.Items? {
      PendingForUpsert(turn.pendingSummaries.items, PendingEntry(summary), summary.roundId, other.roundId);
    }
  }

  lemma UpsertShows(message: Message, summary: RoundSummary)
    ensures Shows(Upserted(message, summary).turn, summary)
    ensures ShowsMetadata(Upserted(message, summary).turn, summary)
  {
    var turn := EnsuredTurn(message);
    if HasRound(turn, summary.roundId) {
      SameFirstRound(turn.toolRounds.items, Attached(turn, summary).toolRounds.items, summary.roundId);
      if turn.pendingSummaries.Items? {
        PendingForWithout(turn.pendingSummaries.items, summary.roundId, summary.roundId);
      }
    } else if turn.pendingSummaries.Items? {
      PendingForUpsert(turn.pendingSummaries.items, PendingEntry(summary), summary.roundId, summary.roundId);
    }
  }

  lemma SuffixOfExtended(summaries: seq<RoundSummary>, k: nat, id: string)
    requires k < |summaries| - 1
    ensures var n := |summaries| - 1;
            && (Mentions(summaries[k + 1..], id) <==>
                  Mentions(summaries[..n][k + 1..], id) || summaries[n].roundId == id)
            && (GivesMetadata(summaries[k + 1..], id) <==>
                  || GivesMetadata(summaries[..n][k + 1..], id)
                  || (summaries[n].roundId == id && summaries[n].metadata.Some?))
  {
  }

  lemma UpsertStaysSettled(before: Message, summaries: seq<RoundSummary>, k: nat)
    requires k < |summaries| - 1
    requires Settled(before.turn, summaries[..|summaries| - 1])
    ensures var after := Upserted(before, summaries[|summaries| - 1]);
            && (IsLast(summaries, k) ==> Shows(after.turn, summaries[k]))
            && (!GivesMetadata(summaries[k + 1..], summaries[k].roundId) ==> ShowsMetadata(after.turn, summaries[k]))
  {
    var earlier := summaries[..|summaries| - 1];
    SuffixOfExtended(summaries, k, summaries[k].roundId);
    assert earlier[k] == summaries[k];
    assert IsLast(summaries, k) ==> IsLast(earlier, k);
    UpsertKeepsOthers(before, summaries[|summaries| - 1], summaries[k]);
  }

  lemma SettledExtends(before: Message, summaries: seq<RoundSummary>)
    requires summaries != []
    requires |summaries| == 1 || Settled(before.turn, summaries[..|summaries| - 1])
    ensures Settled(Upserted(before, summaries[|summaries| - 1]).turn, summaries)
  {
    var n := |summaries| - 1;
    UpsertShows(before, summaries[n]);
    var turn := Upserted(before, summaries[n]).turn;
    forall k: nat | k < n
      ensures IsLast(summaries, k) ==> Shows(turn, summaries[k])
      ensures !GivesMetadata(summaries[k + 1..], summaries[k].roundId) ==> ShowsMetadata(turn, summaries[k])
    {
      UpsertStaysSettled(before, summaries, k);
    }
  }

  /** After any list of summaries, every round it mentions shows its last one. */
  lemma {:induction false} UpsertsSettle(message: Message, summaries: seq<RoundSummary>)
    requires summaries != []
    ensures Settled(Upserts(message, summaries).turn, summaries)
    decreases |summaries|
  {
    var n := |summaries| - 1;
    if n > 0 {
      UpsertsSettle(message, summaries[..n]);
    }
    SettledExtends(Upserts(message, summaries[..n]), summaries);
  }

  // ----- Replaying a settled message restores it -----

  ghost predicate SameButSummary(a: Round, b: Round) {
    a == b.(summary := a.summary, summaryMetadata := a.summaryMetadata)
  }

  /** `u` differs from `t` at most in what the summaries still to come will overwrite. */
  ghost predicate Pends(u: Turn, t: Turn, summaries: seq<RoundSummary>) {
    && Ready(u) && Ready(t) && u.rest == t.rest
    && RoundsPend(u.toolRounds, t.toolRounds, summaries)
    && PendingPends(u.pendingSummaries, t.pendingSummaries, summaries)
  }

  ghost predicate RoundsPend(u: Slot<Round>, t: Slot<Round>, summaries: seq<RoundSummary>) {
    if !t.Items? then u == t
    else
      && u.Items? && |u.items| == |t.items|
      && forall i :: 0 <= i < |t.items| ==>
           && SameButSummary(u.items[i], t.items[i])
           && (u.items[i] == t.items[i] || ToCome(t.items, i, summaries))
           && (u.items[i].summaryMetadata == t.items[i].summaryMetadata
               || GivesMetadata(summaries, t.items[i].id.value))
  }

  ghost predicate ToCome(rounds: seq<Round>, i: nat, summaries: seq<RoundSummary>)
    requires i < |rounds|
  {
    rounds[i].id.Some? && FindRound(rounds, rounds[i].id.value) == i && Mentions(summaries, rounds[i].id.value)
  }

  ghost predicate PendingPends(u: Slot<Pending>, t: Slot<Pending>, summaries: seq<RoundSummary>) {
    if !t.Items? then u == t
    else
      && u.Items? && |u.items| == |t.items|
      && forall i :: 0 <= i < |t.items| ==>
           && u.items[i].roundId == t.items[i].roundId
           && (u.items[i] == t.items[i]
               || (&& t.items[i].roundId.Some?
                   && FindPending(t.items, t.items[i].roundId.value) == i
                   && Mentions(summaries, t.items[i].roundId.value)))
  }

  lemma TailOf(summaries: seq<RoundSummary>, id: string)
    requires summaries != []
    ensures Mentions(summaries, id) <==> summaries[0].roundId == id || Mentions(summaries[1..], id)
    ensures GivesMetadata(summaries, id) <==>
            || (summaries[0].roundId == id && summaries[0].metadata.Some?)
            || GivesMetadata(summaries[1..], id)
  {
  }

  lemma SettledTail(turn: Turn, summaries: seq<RoundSummary>)
    requires summaries != [] && Settled(turn, summaries)
    ensures Settled(turn, summaries[1..])
  {
  }

  lemma PendsStepAttached(u: Message, t: Turn, summaries: seq<RoundSummary>)
    requires summaries != [] && Settled(t, summaries) && Pends(u.turn, t, summaries)
    requires HasRound(t, summaries[0].roundId)
    ensures Pends(Upserted(u, summaries[0]).turn, t, summaries[1..])
  {
    var summary, rest := summaries[0], summaries[1..];
    var id := summary.roundId;
    var rounds := t.toolRounds.items;
    SameFirstRound(u.turn.toolRounds.items, rounds, id);
    var first := FindRound(rounds, id);
    var after := Upserted(u, summary).turn;
    assert after.toolRounds.items[first] == AttachTo(u.turn.toolRounds.items[first], summary);
    TailOf(summaries, id);
    assert !Mentions(rest, id) ==> IsLast(summaries, 0);
    forall i | 0 <= i < |rounds|
      ensures SameButSummary(after.toolRounds.items[i], rounds[i])
      ensures after.toolRounds.items[i] == rounds[i] || ToCome(rounds, i, rest)
      ensures after.toolRounds.items[i].summaryMetadata == rounds[i].summaryMetadata
              || GivesMetadata(rest, rounds[i].id.value)
    {
      if rounds[i].id.Some? {
        TailOf(summaries, rounds[i].id.value);
      }
    }
    if t.pendingSummaries.Items? {
      PendingTail(u.turn, t, summaries);
    }
  }

  /** When the round is attached, no pending entry names it, so the pending list is left alone. */
  lemma PendingTail(u: Turn, t: Turn, summaries: seq<RoundSummary>)
    requires summaries != [] && Settled(t, summaries) && Pends(u, t, summaries)
    requires HasRound(t, summaries[0].roundId) && t.pendingSummaries.Items?
    ensures Without(u.pendingSummaries.items, summaries[0].roundId) == u.pendingSummaries.items
    ensures PendingPends(u.pendingSummaries, t.pendingSummaries, summaries[1..])
  {
    var id := summaries[0].roundId;
    AttachedRoundHasNoPending(t, summaries, id);
    forall i | 0 <= i < |t.pendingSummaries.items|
      ensures t.pendingSummaries.items[i].roundId != Some(id)
    {
    }
    forall i | 0 <= i < |t.pendingSummaries.items| && t.pendingSummaries.items[i].roundId.Some?
      ensures Mentions(summaries, t.pendingSummaries.items[i].roundId.value) <==>
              Mentions(summaries[1..], t.pendingSummaries.items[i].roundId.value)
    {
      TailOf(summaries, t.pendingSummaries.items[i].roundId.value);
    }
  }

  lemma {:induction false} LastMention(summaries: seq<RoundSummary>, id: string) returns (k: nat)
    requires Mentions(summaries, id)
    ensures k < |summaries| && summaries[k].roundId == id && IsLast(summaries, k)
    decreases |summaries|
  {
    TailOf(summaries, id);
    if Mentions(summaries[1..], id) {
      var inner := LastMention(summaries[1..], id);
      k := inner + 1;
      assert summaries[k + 1..] == summaries[1..][inner + 1..];
    } else {
      k := 0;
    }
  }

  lemma AttachedRoundHasNoPending(t: Turn, summaries: seq<RoundSummary>, id: string)
    requires Settled(t, summaries) && Mentions(summaries, id)
    requires HasRound(t, id) && t.pendingSummaries.Items?
    ensures PendingFor(t.pendingSummaries.items, id) == None
  {
    var k := LastMention(summaries, id);
    assert Shows(t, summaries[k]);
  }

  lemma PendsStepPending(u: Message, t: Turn, summaries: seq<RoundSummary>)
    requires summaries != [] && Settled(t, summaries) && Pends(u.turn, t, summaries)
    requires !HasRound(t, summaries[0].roundId)
    ensures Pends(Upserted(u, summaries[0]).turn, t, summaries[1..])
  {
    var summary, rest := summaries[0], summaries[1..];
    var id := summary.roundId;
    if t.toolRounds.Items? {
      SameFirstRound(u.turn.toolRounds.items, t.toolRounds.items, id);
      forall i | 0 <= i < |t.toolRounds.items| && t.toolRounds.items[i].id.Some?
        ensures Mentions(summaries, t.toolRounds.items[i].id.value) <==> Mentions(rest, t.toolRounds.items[i].id.value)
        ensures GivesMetadata(summaries, t.toolRounds.items[i].id.value) <==>
                GivesMetadata(rest, t.toolRounds.items[i].id.value)
      {
        TailOf(summaries, t.toolRounds.items[i].id.value);
      }
    }
    assert RoundsPend(u.turn.toolRounds, t.toolRounds, rest);
    if t.pendingSummaries.Items? {
      PendingEntryStep(u.turn.pendingSummaries.items, t, summaries);
    }
  }

  lemma PendingEntryStep(pending: seq<Pending>, t: Turn, summaries: seq<RoundSummary>)
    requires summaries != [] && Settled(t, summaries)
    requires !HasRound(t, summaries[0].roundId) && t.pendingSummaries.Items?
    requires PendingPends(Items(pending), t.pendingSummaries, summaries)
    ensures var i := FindPending(pending, summaries[0].roundId);
            && i < |pending|
            && PendingPends(Items(pending[i := PendingEntry(summaries[0])]), t.pendingSummaries, summaries[1..])
  {
    var id, rest := summaries[0].roundId, summaries[1..];
    var goal := t.pendingSummaries.items;
    TailOf(summaries, id);
    var k := LastMention(summaries, id);
    assert Shows(t, summaries[k]);
    SameFirstPending(goal, pending, id);
    var i := FindPending(pending, id);
    var updated := pending[i := PendingEntry(summaries[0])];
    if !Mentions(rest, id) {
      assert IsLast(summaries, 0);
      assert Shows(t, summaries[0]);
    }
    forall j | 0 <= j < |goal|
      ensures updated[j].roundId == goal[j].roundId
      ensures updated[j] == goal[j]
              || (&& goal[j].roundId.Some? && FindPending(goal, goal[j].roundId.value) == j
                  && Mentions(rest, goal[j].roundId.value))
    {
      if goal[j].roundId.Some? {
        TailOf(summaries, goal[j].roundId.value);
      }
    }
  }

  lemma {:induction false} UpsertsIsFold(message: Message, summaries: seq<RoundSummary>)
    ensures Upserts(message, summaries) == Fold(Upserted, message, summaries)
    decreases |summaries|
  {
    if summaries != [] {
      UpsertsIsFold(message, summaries[..|summaries| - 1]);
    }
  }

  lemma UpsertsFromFront(message: Message, summaries: seq<RoundSummary>)
    requires summaries != []
    ensures Upserts(message, summaries) == Upserts(Upserted(message, summaries[0]), summaries[1..])
  {
    UpsertsIsFold(message, summaries);
    UpsertsIsFold(Upserted(message, summaries[0]), summaries[1..]);
    FoldFromFront(Upserted, message, summaries);
  }

  lemma {:induction false} ReplayRestores(u: Message, t: Turn, summaries: seq<RoundSummary>)
    requires Settled(t, summaries) && Pends(u.turn, t, summaries)
    ensures Upserts(u, summaries) == u.(turn := t)
    decreases |summaries|
  {
    if summaries == [] {
      assert u.turn == t;
    } else {
      UpsertsFromFront(u, summaries);
      SettledTail(t, summaries);
      if HasRound(t, summaries[0].roundId) {
        PendsStepAttached(u, t, summaries);
      } else {
        PendsStepPending(u, t, summaries);
      }
      ReplayRestores(Upserted(u, summaries[0]), t, summaries[1..]);
    }
  }

  lemma UpsertsAreIdempotent(message: Message, summaries: seq<RoundSummary>)
    ensures Upserts(Upserts(message, summaries), summaries) == Upserts(message, summaries)
  {
    if summaries != [] {
      var once := Upserts(message, summaries);
      UpsertsSettle(message, summaries);
      assert Pends(once.turn, once.turn, summaries);
      ReplayRestores(once, once.turn, summaries);
    }
  }

  // ----- Whole histories -----

  ghost predicate SameForTargets(a: Message, b: Message) {
    && a.id == b.id && a.role == b.role
    && (CannotPend(a.turn) <==> CannotPend(b.turn))
    && forall id :: HasRound(a.turn, id) <==> HasRound(b.turn, id)
  }

  /** The turn's `pendingSummaries` entry is there but is no array, so nothing can be kept in it. */
  ghost predicate CannotPend(turn: Turn) {
    turn.TurnObject? && turn.pendingSummaries.NotArray?
  }

  ghost predicate IsAttached(turn: Turn, summary: RoundSummary) {
    && HasRound(turn, summary.roundId)
    && turn.toolRounds.items[FindRound(turn.toolRounds.items, summary.roundId)].summary
       == Some(Json.Str(summary.text))
  }

  ghost predicate IsPending(turn: Turn, summary: RoundSummary) {
    && turn.TurnObject? && turn.pendingSummaries.Items?
    && PendingFor(turn.pendingSummaries.items, summary.roundId)
       == Some(Pending(Some(summary.roundId), Json.Str(summary.text), summary.metadata, Json.Null))
  }

  lemma UpsertKeepsTargets(message: Message, summary: RoundSummary)
    ensures SameForTargets(message, Upserted(message, summary))
  {
    var after := Upserted(message, summary);
    forall id
      ensures HasRound(message.turn, id) <==> HasRound(after.turn, id)
    {
      var turn := EnsuredTurn(message);
      if HasRound(turn, summary.roundId) {
        SameFirstRound(turn.toolRounds.items, Attached(turn, summary).toolRounds.items, id);
      }
    }
  }

  lemma TargetsAgree(a: seq<Message>, b: seq<Message>, summary: RoundSummary)
    requires |a| == |b| && forall i :: 0 <= i < |a| ==> SameForTargets(a[i], b[i])
    ensures Target(a, summary) == Target(b, summary)
  {
  }

  lemma {:induction false} ReplayKeepsTargets(messages: seq<Message>, summaries: seq<RoundSummary>, i: nat)
    requires i < |messages|
    ensures SameForTargets(messages[i], Replay(messages, summaries)[i])
    decreases |summaries|
  {
    if summaries != [] {
      var n := |summaries| - 1;
      var before := Replay(messages, summaries[..n]);
      ReplayKeepsTargets(messages, summaries[..n], i);
      UpsertKeepsTargets(before[i], summaries[n]);
    }
  }

  /** The summaries that go to message `j`, in order. */
  ghost function SummariesFor(messages: seq<Message>, summaries: seq<RoundSummary>, j: nat): seq<RoundSummary> {
    if summaries == [] then []
    else
      var n := |summaries| - 1;
      SummariesFor(messages, summaries[..n], j)
      + if Target(messages, summaries[n]) == j then [summaries[n]] else []
  }

  lemma ReplayKeepsTarget(messages: seq<Message>, summaries: seq<RoundSummary>, summary: RoundSummary)
    ensures Target(Replay(messages, summaries), summary) == Target(messages, summary)
  {
    forall i | 0 <= i < |messages|
      ensures SameForTargets(messages[i], Replay(messages, summaries)[i])
    {
      ReplayKeepsTargets(messages, summaries, i);
    }
    TargetsAgree(messages, Replay(messages, summaries), summary);
  }

  lemma UpsertsSnoc(message: Message, summaries: seq<RoundSummary>, summary: RoundSummary)
    ensures Upserts(message, summaries + [summary]) == Upserted(Upserts(message, summaries), summary)
  {
  }

  /** The replay treats each message on its own. */
  lemma {:induction false} ReplayPerMessage(messages: seq<Message>, summaries: seq<RoundSummary>, j: nat)
    requires j < |messages|
    ensures Replay(messages, summaries)[j] == Upserts(messages[j], SummariesFor(messages, summaries, j))
    decreases |summaries|
  {
    if summaries != [] {
      var n := |summaries| - 1;
      var mine := SummariesFor(messages, summaries[..n], j);
      ReplayPerMessage(messages, summaries[..n], j);
      ReplayKeepsTarget(messages, summaries[..n], summaries[n]);
      if Target(messages, summaries[n]) == j {
        UpsertsSnoc(messages[j], mine, summaries[n]);
      } else {
        assert SummariesFor(messages, summaries, j) == mine;
      }
    }
  }

  lemma {:induction false} SameTargetsSameSummaries(a: seq<Message>, b: seq<Message>, summaries: seq<RoundSummary>, j: nat)
    requires |a| == |b| && forall i :: 0 <= i < |a| ==> SameForTargets(a[i], b[i])
    ensures SummariesFor(a, summaries, j) == SummariesFor(b, summaries, j)
    decreases |summaries|
  {
    if summaries != [] {
      SameTargetsSameSummaries(a, b, summaries[..|summaries| - 1], j);
      TargetsAgree(a, b, summaries[|summaries| - 1]);
    }
  }

  /** Replaying the transcript's summaries a second time changes nothing. */
  lemma ReplayIsIdempotent(messages: seq<Message>, summaries: seq<RoundSummary>)
    ensures Replay(Replay(messages, summaries), summaries) == Replay(messages, summaries)
  {
    var once := Replay(messages, summaries);
    var twice := Replay(once, summaries);
    forall i | 0 <= i < |messages|
      ensures SameForTargets(messages[i], once[i])
    {
      ReplayKeepsTargets(messages, summaries, i);
    }
    forall j | 0 <= j < |messages|
      ensures twice[j] == once[j]
    {
      ReplayPerMessage(messages, summaries, j);
      ReplayPerMessage(once, summaries, j);
      SameTargetsSameSummaries(messages, once, summaries, j);
      UpsertsAreIdempotent(messages[j], SummariesFor(messages, summaries, j));
    }
  }

  lemma {:induction false} SummariesForContains(messages: seq<Message>, summaries: seq<RoundSummary>, k: nat)
    returns (m: nat)
    requires k < |summaries|
    requires forall l :: k < l < |summaries| && summaries[l].roundId == summaries[k].roundId ==>
               Target(messages, summaries[l]) != Target(messages, summaries[k])
    ensures var mine := SummariesFor(messages, summaries, Target(messages, summaries[k]));
            m < |mine| && mine[m] == summaries[k] && IsLast(mine, m)
    decreases |summaries|
  {
    var j := Target(messages, summaries[k]);
    var n := |summaries| - 1;
    var mine := SummariesFor(messages, summaries, j);
    if k == n {
      m := |mine| - 1;
      assert mine[m + 1..] == [];
    } else {
      m := SummariesForContains(messages, summaries[..n], k);
      var earlier := SummariesFor(messages, summaries[..n], j);
      if Target(messages, summaries[n]) == j {
        assert mine == earlier + [summaries[n]];
        assert mine[m + 1..] == earlier[m + 1..] + [summaries[n]];
        assert summaries[n].roundId != summaries[k].roundId;
        assert mine[|earlier|] == summaries[n];
        assert !Mentions(mine[m + 1..], summaries[k].roundId);
      }
    }
  }

  /**
   After the replay a summarised round holds the text of its last summary (in replay order)
   in its target message: attached if and only if the turn has the round, pending if and
   only if it has not and its pending list is usable, and never both.
   */
  lemma LastSummaryWins(messages: seq<Message>, summaries: seq<RoundSummary>, k: nat)
    requires k < |summaries| && Target(messages, summaries[k]) < |messages|
    requires forall l :: k < l < |summaries| && summaries[l].roundId == summaries[k].roundId ==>
               Target(messages, summaries[l]) != Target(messages, summaries[k])
    ensures var j, summary := Target(messages, summaries[k]), summaries[k];
            var before, after := messages[j].turn, Replay(messages, summaries)[j].turn;
            && (IsAttached(after, summary) <==> HasRound(before, summary.roundId))
            && (IsPending(after, summary) <==> !HasRound(before, summary.roundId) && !CannotPend(before))
            && (IsAttached(after, summary) && after.pendingSummaries.Items? ==>
                  PendingFor(after.pendingSummaries.items, summary.roundId) == None)
  {
    var j := Target(messages, summaries[k]);
    var m := SummariesForContains(messages, summaries, k);
    ReplayPerMessage(messages, summaries, j);
    UpsertsSettle(messages[j], SummariesFor(messages, summaries, j));
    ReplayKeepsTargets(messages, summaries, j);
    assert Shows(Replay(messages, summaries)[j].turn, summaries[k]);
  }

  // ----- At most one pending entry per round -----

  ghost predicate OneEntryPerRound(turn: Turn) {
    turn.TurnObject? && turn.pendingSummaries.Items? ==> DistinctRounds(turn.pendingSummaries.items)
  }

  ghost predicate DistinctRounds(pending: seq<Pending>) {
    forall i, j :: 0 <= i < j < |pending| && pending[i].roundId.Some? ==> pending[i].roundId != pending[j].roundId
  }

  lemma {:induction false} WithoutKeepsDistinct(pending: seq<Pending>, id: string)
    requires DistinctRounds(pending)
    ensures DistinctRounds(Without(pending, id))
    ensures forall p :: p in Without(pending, id) ==> p in pending
  {
    if pending != [] {
      WithoutKeepsDistinct(pending[1..], id);
      var rest := Without(pending[1..], id);
      forall p | p in rest
        ensures pending[0].roundId.Some? ==> p.roundId != pending[0].roundId
      {
        assert p in pending[1..];
      }
    }
  }

  lemma UpsertKeepsOneEntryPerRound(message: Message, summary: RoundSummary)
    requires OneEntryPerRound(message.turn)
    ensures OneEntryPerRound(Upserted(message, summary).turn)
  {
    var turn := EnsuredTurn(message);
    if HasRound(turn, summary.roundId) && turn.pendingSummaries.Items? {
      WithoutKeepsDistinct(turn.pendingSummaries.items, summary.roundId);
    }
  }

  lemma {:induction false} ReplayKeepsOneEntryPerRound(messages: seq<Message>, summaries: seq<RoundSummary>, i: nat)
    requires i < |messages| && OneEntryPerRound(messages[i].turn)
    ensures OneEntryPerRound(Replay(messages, summaries)[i].turn)
    decreases |summaries|
  {
    if summaries != [] {
      var n := |summaries| - 1;
      ReplayKeepsOneEntryPerRound(messages, summaries[..n], i);
      UpsertKeepsOneEntryPerRound(Replay(messages, summaries[..n])[i], summaries[n]);
    }
  }

  // ----- What an upsert leaves alone -----

  lemma {:induction false} ReplayChangesOnlyTurns(messages: seq<Message>, summaries: seq<RoundSummary>, i: nat)
    requires i < |messages|
    ensures Replay(messages, summaries)[i] == messages[i].(turn := Replay(messages, summaries)[i].turn)
    decreases |summaries|
  {
    if summaries != [] {
      ReplayChangesOnlyTurns(messages, summaries[..|summaries| - 1], i);
    }
  }

  /** A message without a turn gets one that describes it: its id, its content, complete, no parts. */
  lemma NewTurnDescribesMessage(message: Message)
    requires !message.turn.TurnObject?
    ensures var turn := EnsuredTurn(message);
            && turn.toolRounds == Items([]) && turn.pendingSummaries == Items([])
            && Json.Lookup(turn.rest, "id") == Some(Json.Str(message.id))
            && Json.Lookup(turn.rest, "status") == Some(Json.Str("complete"))
            && Json.Lookup(turn.rest, "plainTextSummary") == Some(Json.Str(message.content))
            && Json.Lookup(turn.rest, "parts") == Some(Json.Array([]))
  {
    var fields := EnsuredTurn(message).rest;
    assert fields[1..][1..] == fields[2..] && fields[2..][1..] == fields[3..];
    assert Json.Lookup(fields[2..], "plainTextSummary") == Some(Json.Str(message.content));
    assert Json.Lookup(fields[3..], "parts") == Some(Json.Array([]));
    assert Json.Lookup(fields[2..], "parts") == Json.Lookup(fields[3..], "parts");
    assert Json.Lookup(fields[1..], "parts") == Json.Lookup(fields[2..], "parts");
    assert Json.Lookup(fields[1..], "plainTextSummary") == Json.Lookup(fields[2..], "plainTextSummary");
  }

  lemma {:induction false} WithoutKeepsOthers(pending: seq<Pending>, id: string, p: Pending)
    ensures p in Without(pending, id) <==> p in pending && p.roundId != Some(id)
  {
    if pending != [] {
      WithoutKeepsOthers(pending[1..], id, p);
      assert pending == [pending[0]] + pending[1..];
    }
  }

  lemma ReplacedEntryKeepsOthers(pending: seq<Pending>, i: nat, entry: Pending, p: Pending)
    requires i <= |pending| && p != entry && (i < |pending| ==> pending[i] != p)
    ensures p in (if i < |pending| then pending[i := entry] else pending + [entry]) <==> p in pending
  {
    if i < |pending| {
      var updated := pending[i := entry];
      forall k | 0 <= k < |pending| && pending[k] == p
        ensures p in updated
      {
        assert updated[k] == p;
      }
    }
  }

  /** An upsert changes only the summary of the first round of its id, and the pending entries of that id. */
  lemma UpsertTouchesOnlyItsRound(message: Message, summary: RoundSummary)
    ensures var before, after := EnsuredTurn(message), Upserted(message, summary).turn;
            && after.TurnObject? && after.rest == before.rest
            && (before.toolRounds.Items? ==>
                  && after.toolRounds.Items? && |after.toolRounds.items| == |before.toolRounds.items|
                  && forall i :: 0 <= i < |before.toolRounds.items| ==>
                       var was, now := before.toolRounds.items[i], after.toolRounds.items[i];
                       && now.id == was.id && now.rest == was.rest
                       && (was.id != Some(summary.roundId) ==> now == was))
            && (before.pendingSummaries.Items? ==>
                  && after.pendingSummaries.Items?
                  && forall p: Pending :: p.roundId != Some(summary.roundId) ==>
                       (p in after.pendingSummaries.items <==> p in before.pendingSummaries.items))
  {
    var turn := EnsuredTurn(message);
    if turn.pendingSummaries.Items? {
      var pending := turn.pendingSummaries.items;
      forall p: Pending | p.roundId != Some(summary.roundId)
        ensures p in Upserted(message, summary).turn.pendingSummaries.items <==> p in pending
      {
        WithoutKeepsOthers(pending, summary.roundId, p);
        ReplacedEntryKeepsOthers(pending, FindPending(pending, summary.roundId), PendingEntry(summary), p);
      }
    }
  }

  // ----- Reading the summaries from transcript entries -----

  datatype TranscriptEntry = TranscriptEntry(
    id: string,
    turnId: Option<string>,
    timestamp: int,
    kind: string,
    payload: Json.Value)

  function TextAt(v: Json.Value, key: string): Option<string> {
    match Json.Get(v, key)
    case Some(Str(text)) => Some(text)
    case _ => None
  }

  const METADATA_KEYS := [
    "source", "model", "summarizationMode", "durationMs", "contextLengthBefore",
    "numRounds", "numRoundsSinceLastSummarization", "usage"]

  function Collected(v: Json.Value, keys: seq<string>): seq<Json.Field> {
    if keys == [] then []
    else
      (match Json.Get(v, keys[0])
       case Some(value) => [Json.Field(keys[0], value)]
       case None => [])
      + Collected(v, keys[1..])
  }

  /** The round summary a transcript entry records, if it is one. */
  function SummaryOf(entry: TranscriptEntry): Option<RoundSummary> {
    var round := TextAt(entry.payload, "roundId");
    var text := TextAt(entry.payload, "summaryText");
    var declared := TextAt(entry.payload, "summaryKind");
    var isRound := if declared.Some? then declared.value == "round" else round.Some?;
    if entry.kind != "summary_created" || !isRound || round.None? || text.None? then None
    else
      var named := TextAt(entry.payload, "messageId");
      var fields := Collected(entry.payload, METADATA_KEYS);
      Some(RoundSummary(
        if named.Some? then named else entry.turnId,
        round.value, text.value,
        if fields == [] then None else Some(Json.Object(fields)),
        entry.timestamp))
  }

  /** The summaries the entries record, in entry order. */
  function Extracted(entries: seq<TranscriptEntry>): seq<RoundSummary> {
    if entries == [] then []
    else
      Extracted(entries[..|entries| - 1])
      + match SummaryOf(entries[|entries| - 1]) case None => [] case Some(summary) => [summary]
  }

  function TimeOf(summary: RoundSummary): int {
    summary.timestamp
  }

  /** The round summaries of a transcript in replay order: stably sorted by timestamp. */
  function SummariesOf(entries: seq<TranscriptEntry>): seq<RoundSummary> {
    Sort(Extracted(entries), TimeOf)
  }

  // ----- What counts as a recorded summary, told from the entry's payload -----

  /** The entry records a summary `text` for `round`, addressed to message `target`. */
  ghost predicate Records(entry: TranscriptEntry, target: Option<string>, round: string, text: string) {
    && entry.kind == "summary_created" && entry.payload.Object?
    && var fields := entry.payload.fields;
       && Json.Lookup(fields, "roundId") == Some(Json.Str(round))
       && Json.Lookup(fields, "summaryText") == Some(Json.Str(text))
       && (match Json.Lookup(fields, "summaryKind") case Some(Str(kind)) => kind == "round" case _ => true)
       && target == (match Json.Lookup(fields, "messageId") case Some(Str(id)) => Some(id) case _ => entry.turnId)
  }

  lemma SummaryIsRecorded(entry: TranscriptEntry, target: Option<string>, round: string, text: string)
    ensures Records(entry, target, round, text) <==>
            && SummaryOf(entry).Some?
            && SummaryOf(entry).value.messageId == target
            && SummaryOf(entry).value.roundId == round && SummaryOf(entry).value.text == text
    ensures SummaryOf(entry).Some? ==> SummaryOf(entry).value.timestamp == entry.timestamp
  {
  }

  lemma {:induction false} CollectedEntries(v: Json.Value, keys: seq<string>, key: string)
    ensures Json.Lookup(Collected(v, keys), key) == if key in keys then Json.Get(v, key) else None
    decreases |keys|
  {
    if keys != [] {
      CollectedEntries(v, keys[1..], key);
      var rest := Collected(v, keys[1..]);
      assert keys == [keys[0]] + keys[1..];
      if Json.Get(v, keys[0]).Some? {
        assert Collected(v, keys)[1..] == rest;
      } else {
        assert Collected(v, keys) == rest;
      }
    }
  }

  /** A recorded summary's metadata holds exactly the payload's entries under the eight metadata keys. */
  lemma MetadataIsCollected(entry: TranscriptEntry, key: string)
    requires SummaryOf(entry).Some?
    ensures var keys := {"source", "model", "summarizationMode", "durationMs", "contextLengthBefore",
                         "numRounds", "numRoundsSinceLastSummarization", "usage"};
            var metadata := SummaryOf(entry).value.metadata;
            match metadata
            case None => key in keys ==> Json.Get(entry.payload, key) == None
            case Some(value) => value.Object? && value.fields != []
                                && Json.Get(value, key) == if key in keys then Json.Get(entry.payload, key) else None
  {
    CollectedEntries(entry.payload, METADATA_KEYS, key);
    assert key in METADATA_KEYS <==>
           key in {"source", "model", "summarizationMode", "durationMs", "contextLengthBefore",
                   "numRounds", "numRoundsSinceLastSummarization", "usage"} by {
      assert METADATA_KEYS[0] == "source" && METADATA_KEYS[1] == "model" && METADATA_KEYS[2] == "summarizationMode";
      assert METADATA_KEYS[3] == "durationMs" && METADATA_KEYS[4] == "contextLengthBefore";
      assert METADATA_KEYS[5] == "numRounds" && METADATA_KEYS[6] == "numRoundsSinceLastSummarization";
      assert METADATA_KEYS[7] == "usage";
    }
  }
}
