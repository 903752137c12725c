/** Counting user submissions in a conversation, through compaction anchors nested to any depth. */
module TurnCount {
  import opened Support
  import opened ChatMessage
  import Json

  const USIZE_MAX: nat := 0xFFFF_FFFF_FFFF_FFFF

  /** The user count of a `conversation` summary reference, when it has one. */
  function SummaryUserCount(message: Message): Option<nat> {
    if message.summaryRef.None? then None
    else if Json.Get(message.summaryRef.value, "kind") != Some(Json.Str("conversation")) then None
    else match Json.Get(message.summaryRef.value, "originalUserCount")
         case Some(Num(Integer(n))) => if 0 <= n <= USIZE_MAX then Some(n) else None
         case _ => None
  }

  predicate IsAnchor(message: Message) {
    message.metadata.Some? && message.metadata.value.kind == "compaction-anchor"
  }

  /** The anchor carries all the messages it replaced, as far as it can tell. */
  predicate SnapshotComplete(metadata: Metadata) {
    && metadata.originalMessages.Snapshots?
    && (metadata.originalCount.Some? ==> metadata.originalCount.value <= |metadata.originalMessages.messages|)
  }

  function HalfRoundedUp(n: nat): nat {
    (n + 1) / 2
  }

  // ----- The reference: an unbounded sum -----

  ghost function Contribution(message: Message): nat
    decreases message, 0
  {
    if SummaryUserCount(message).Some? then SummaryUserCount(message).value
    else if IsAnchor(message) then
      var metadata := message.metadata.value;
      if metadata.originalUserCount.Some? then metadata.originalUserCount.value
      else if SnapshotComplete(metadata) then ExactTurns(metadata.originalMessages.messages)
      else if metadata.originalCount.Some? then HalfRoundedUp(metadata.originalCount.value)
      else 0
    else if message.role.User? then 1
    else 0
  }

  ghost function ExactTurns(messages: seq<Message>): nat
    decreases messages, 0
  {
    if messages == [] then 0 else Contribution(messages[0]) + ExactTurns(messages[1..])
  }

  ghost function Capped(n: nat): nat {
    if n <= USIZE_MAX then n else USIZE_MAX
  }

  /**
   `ai_conversation_turn_count`: the saturating loop, recursive through anchor snapshots,
   computes the exact total cut off at the largest machine integer.
   */
  method CountTurns(messages: seq<Message>) returns (turns: nat)
    ensures turns == Capped(ExactTurns(messages))
    decreases messages
  {
    turns := 0;
    var i := 0;
    while i < |messages|
      invariant 0 <= i <= |messages|
      invariant turns <= USIZE_MAX
      invariant Capped(turns + ExactTurns(messages[i..])) == Capped(ExactTurns(messages))
    {
      var message := messages[i];
      assert messages[i..][1..] == messages[i + 1..];
      i := i + 1;
      var summarised := SummaryUserCount(message);
      if summarised.Some? {
        turns := SaturatingAdd(turns, summarised.value, USIZE_MAX);
        continue;
      }
      if IsAnchor(message) {
        var metadata := message.metadata.value;
        var compacted: Option<nat> := metadata.originalUserCount;
        if compacted.None? && SnapshotComplete(metadata) {
          var inner := CountTurns(metadata.originalMessages.messages);
          compacted := Some(inner);
        }
        if compacted.Some? {
          turns := SaturatingAdd(turns, compacted.value, USIZE_MAX);
        } else if metadata.originalCount.Some? {
          turns := SaturatingAdd(turns, HalfRoundedUp(metadata.originalCount.value), USIZE_MAX);
        }
        continue;
      }
      match message.role {
        case User => turns := SaturatingAdd(turns, 1, USIZE_MAX);
        case _ =>
      }
    }
    assert messages[i..] == [];
  }

  /** The count as a function, for stating facts about it. */
  ghost function TurnCount(messages: seq<Message>): nat {
    Capped(ExactTurns(messages))
  }

  /**
   What one message counts for, told from its data: the user count of a `conversation` summary
   reference; else, for a compaction anchor, the user count it carries, or the count of its
   snapshot when that is complete, or half its physical count rounded up; else one for a user.
   */
  lemma OneMessageCounts(message: Message)
    ensures forall fields, n: nat ::
              && message.summaryRef == Some(Json.Object(fields)) && n <= USIZE_MAX
              && Json.Lookup(fields, "kind") == Some(Json.Str("conversation"))
              && Json.Lookup(fields, "originalUserCount") == Some(Json.Num(Json.Integer(n)))
              ==> TurnCount([message]) == n
    ensures message.summaryRef.None? && message.metadata.Some? && message.metadata.value.kind == "compaction-anchor" ==>
              var metadata := message.metadata.value;
              match metadata.originalUserCount
              case Some(n) => TurnCount([message]) == Capped(n)
              case None =>
                if metadata.originalMessages.Snapshots?
                   && (metadata.originalCount.None? || metadata.originalCount.value <= |metadata.originalMessages.messages|)
                then TurnCount([message]) == TurnCount(metadata.originalMessages.messages)
                else if metadata.originalCount.Some?
                then TurnCount([message]) == Capped(metadata.originalCount.value - metadata.originalCount.value / 2)
                else TurnCount([message]) == 0
    ensures message.summaryRef.None? && (message.metadata.None? || message.metadata.value.kind != "compaction-anchor") ==>
              TurnCount([message]) == if message.role == User then 1 else 0
  {
    assert [message][1..] == [];
    assert ExactTurns([message]) == Contribution(message);
  }

  lemma {:induction false} ExactTurnsOfConcat(a: seq<Message>, b: seq<Message>)
    ensures ExactTurns(a + b) == ExactTurns(a) + ExactTurns(b)
    decreases |a|
  {
    if a == [] {
      assert a + b == b;
    } else {
      assert (a + b)[1..] == a[1..] + b;
      ExactTurnsOfConcat(a[1..], b);
    }
  }

  /** Counting is a homomorphism from concatenation to saturating addition. */
  lemma TurnCountOfConcat(a: seq<Message>, b: seq<Message>)
    ensures TurnCount(a + b) == SaturatingAdd(TurnCount(a), TurnCount(b), USIZE_MAX)
  {
    ExactTurnsOfConcat(a, b);
  }

  /** `message` stands for `replaced`: it carries their user count, or a complete snapshot of them. */
  ghost predicate StandsFor(message: Message, replaced: seq<Message>) {
    || SummaryUserCount(message) == Some(TurnCount(replaced))
    || (&& SummaryUserCount(message).None?
        && IsAnchor(message)
        && (|| message.metadata.value.originalUserCount == Some(TurnCount(replaced))
            || (&& message.metadata.value.originalUserCount.None?
                && message.metadata.value.originalMessages == Snapshots(replaced)
                && SnapshotComplete(message.metadata.value))))
  }

  /** Compacting any stretch of a conversation into one anchor keeps the total. */
  lemma CompactionPreservesTurns(before: seq<Message>, replaced: seq<Message>, anchor: Message, after: seq<Message>)
    requires StandsFor(anchor, replaced)
    ensures TurnCount(before + [anchor] + after) == TurnCount(before + replaced + after)
  {
    ExactTurnsOfConcat(before + [anchor], after);
    ExactTurnsOfConcat(before, [anchor]);
    ExactTurnsOfConcat(before + replaced, after);
    ExactTurnsOfConcat(before, replaced);
    assert ExactTurns([anchor]) == Contribution(anchor) + ExactTurns([]);
    assert Capped(Contribution(anchor)) == TurnCount(replaced);
  }

  /** `to` is `from` with its messages from `i` up to `j` replaced by an anchor that stands for them. */
  ghost predicate CompactsAt(from: seq<Message>, to: seq<Message>, i: nat, j: nat, anchor: Message) {
    && i <= j <= |from|
    && StandsFor(anchor, from[i..j])
    && to == from[..i] + [anchor] + from[j..]
  }

  /** One compaction turns `from` into `to`. */
  ghost predicate Compacts(from: seq<Message>, to: seq<Message>) {
    exists i: nat, j: nat, anchor :: CompactsAt(from, to, i, j, anchor)
  }

  /** However often a conversation is compacted, anchors nesting in anchors, its count stays the same. */
  lemma {:induction false} RepeatedCompactionPreservesTurns(versions: seq<seq<Message>>)
    requires versions != []
    requires forall i :: 0 <= i < |versions| - 1 ==> Compacts(versions[i], versions[i + 1])
    ensures TurnCount(versions[|versions| - 1]) == TurnCount(versions[0])
    decreases |versions|
  {
    var n := |versions| - 1;
    if n > 0 {
      RepeatedCompactionPreservesTurns(versions[..n]);
      assert Compacts(versions[n - 1], versions[n]);
      var from := versions[n - 1];
      var i: nat, j: nat, anchor :| CompactsAt(from, versions[n], i, j, anchor);
      CompactionPreservesTurns(from[..i], from[i..j], anchor, from[j..]);
      assert from == from[..i] + from[i..j] + from[j..];
    }
  }

  /** A history without anchors in which users and assistants alternate, a user first. */
  ghost predicate UserLedAlternating(messages: seq<Message>) {
    forall i :: 0 <= i < |messages| ==>
      && SummaryUserCount(messages[i]).None?
      && !IsAnchor(messages[i])
      && messages[i].role == if i % 2 == 0 then User else Assistant
  }

  /** For such histories the old anchors' physical count, halved and rounded up, is exact. */
  lemma {:induction false} LegacyCountIsExact(messages: seq<Message>)
    requires UserLedAlternating(messages)
    ensures ExactTurns(messages) == HalfRoundedUp(|messages|)
    decreases |messages|
  {
    if |messages| >= 2 {
      var rest := messages[2..];
      assert messages[1..][1..] == rest;
      assert messages[1].role == Assistant && messages[0].role == User;
      assert ExactTurns(messages[1..]) == Contribution(messages[1]) + ExactTurns(rest);
      forall i | 0 <= i < |rest|
        ensures rest[i] == messages[i + 2] && (i + 2) % 2 == i % 2
      {
      }
      LegacyCountIsExact(rest);
    } else if |messages| == 1 {
      assert messages[1..] == [];
      assert messages[0].role == User;
    }
  }
}
