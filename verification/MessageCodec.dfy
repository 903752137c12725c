/**
 Converting chat messages to stored rows and back. The byte-level codecs are parameters:
 `encodeMeta` stands for JSON plus base64 of an anchor's metadata, `compress` for the
 optional zstd plus base64 of a context buffer, absent when the buffer is stored plain.
 */
module MessageCodec {
  import opened Support
  import opened Text
  import opened ChatMessage
  import Json

  datatype Codec = Codec(
    encodeMeta: Metadata -> string,
    decodeMeta: string -> Option<Metadata>,
    compress: string -> Option<string>,
    decompress: string -> Option<string>)

  /** Each pair is inverse, and encoded metadata is one line. */
  ghost predicate Faithful(codec: Codec) {
    && (forall metadata :: codec.decodeMeta(codec.encodeMeta(metadata)) == Some(metadata))
    && (forall metadata :: '\n' !in codec.encodeMeta(metadata))
    && (forall text :: codec.compress(text).Some? ==> codec.decompress(codec.compress(text).value) == Some(text))
  }

  datatype Buffer = Buffer(text: string, compressed: bool)

  datatype Row = Row(
    id: string,
    conversationId: string,
    role: string,
    content: string,
    timestamp: int,
    version: int,
    context: Option<Buffer>,
    turn: Turn,
    summaryRef: Option<Json.Value>,
    extras: Json.Value)

  const ANCHOR_META_HEADER := "$$ANCHOR_B64$$"

  function RoleToText(role: Role): string {
    match role
    case User => "user"
    case Assistant => "assistant"
    case System => "system"
    case Tool => "tool"
  }

  /** The names on disk, and that a name nobody wrote reads as a user's. */
  lemma RoleNames(text: string)
    ensures RoleToText(User) == "user" && RoleToText(Assistant) == "assistant"
    ensures RoleToText(System) == "system" && RoleToText(Tool) == "tool"
    ensures RoleFromText(text) == if text == "assistant" then Assistant else if text == "system" then System
                                  else if text == "tool" then Tool else User
  {
  }

  function RoleFromText(text: string): Role {
    if text == "assistant" then Assistant
    else if text == "system" then System
    else if text == "tool" then Tool
    else User
  }

  // ----- Anchor headers -----

  function EncodeAnchor(codec: Codec, content: string, metadata: Metadata): string {
    ANCHOR_META_HEADER + codec.encodeMeta(metadata) + "\n" + content
  }

  /** `split_once('\n')` */
  function SplitLine(s: string): (r: Option<(string, string)>)
    ensures r.Some? ==> s == r.value.0 + "\n" + r.value.1
  {
    if s == "" then None
    else if s[0] == '\n' then
      assert s == "" + "\n" + s[1..];
      Some(("", s[1..]))
    else
      match SplitLine(s[1..])
      case None => None
      case Some((line, rest)) =>
        assert s == [s[0]] + s[1..];
        Some(([s[0]] + line, rest))
  }

  lemma {:induction false} SplitLineOfLine(line: string, rest: string)
    requires '\n' !in line
    ensures SplitLine(line + "\n" + rest) == Some((line, rest))
  {
    var s := line + "\n" + rest;
    if line == "" {
      assert s[0] == '\n' && s[1..] == rest;
    } else {
      assert s[0] == line[0];
      assert s[1..] == line[1..] + "\n" + rest;
      SplitLineOfLine(line[1..], rest);
      assert line == [line[0]] + line[1..];
    }
  }

  function DecodeAnchor(codec: Codec, content: string): (r: Option<(string, Metadata)>)
    ensures r.Some? ==> |r.value.0| < |content|
  {
    if !StartsWith(content, ANCHOR_META_HEADER) then None
    else
      match SplitLine(content[|ANCHOR_META_HEADER|..])
      case None => None
      case Some((encoded, rest)) =>
        match codec.decodeMeta(encoded)
        case None => None
        case Some(metadata) => Some((rest, metadata))
  }

  lemma DecodeOfEncodedAnchor(codec: Codec, content: string, metadata: Metadata)
    requires Faithful(codec)
    ensures DecodeAnchor(codec, EncodeAnchor(codec, content, metadata)) == Some((content, metadata))
  {
    var encoded := codec.encodeMeta(metadata);
    var s := EncodeAnchor(codec, content, metadata);
    assert s[|ANCHOR_META_HEADER|..] == encoded + "\n" + content;
    assert StartsWith(s, ANCHOR_META_HEADER);
    SplitLineOfLine(encoded, content);
  }

  /** Exactly what reads as an anchor: the header, one line that decodes as metadata, and the rest. */
  lemma AnchorReads(codec: Codec, content: string, line: string, rest: string)
    ensures !StartsWith(content, "$$ANCHOR_B64$$") ==> DecodeAnchor(codec, content) == None
    ensures '\n' !in line ==>
              DecodeAnchor(codec, "$$ANCHOR_B64$$" + line + "\n" + rest) ==
              match codec.decodeMeta(line) case Some(metadata) => Some((rest, metadata)) case None => None
    ensures '\n' !in line ==> DecodeAnchor(codec, "$$ANCHOR_B64$$" + line) == None
  {
    var anchor := "$$ANCHOR_B64$$" + line + "\n" + rest;
    assert anchor[|ANCHOR_META_HEADER|..] == line + "\n" + rest;
    if '\n' !in line {
      SplitLineOfLine(line, rest);
      NoLineToSplit(line);
      assert ("$$ANCHOR_B64$$" + line)[|ANCHOR_META_HEADER|..] == line;
    }
  }

  lemma {:induction false} NoLineToSplit(s: string)
    requires '\n' !in s
    ensures SplitLine(s) == None
  {
    if s != "" {
      NoLineToSplit(s[1..]);
    }
  }

  // ----- Thinking tags -----

  /** The first position at or after `from` where `t` occurs, or the length when there is none. */
  function Find(s: string, t: string, from: nat): (i: nat)
    requires from <= |s|
    ensures i <= |s| && (i < |s| ==> OccursAt(s, t, i))
    ensures forall k :: from <= k < i ==> !OccursAt(s, t, k)
    decreases |s| - from
  {
    if from == |s| then |s|
    else if OccursAt(s, t, from) then from
    else Find(s, t, from + 1)
  }

  function TrimStart(s: string): (r: string)
    ensures |r| <= |s|
    ensures r != "" ==> !IsWhitespace(r[0])
  {
    if s != "" && IsWhitespace(s[0]) then TrimStart(s[1..]) else s
  }

  function TrimEnd(s: string): (r: string)
    ensures |r| <= |s| && r <= s
    ensures r != "" ==> !IsWhitespace(r[|r| - 1])
  {
    if s != "" && IsWhitespace(s[|s| - 1]) then TrimEnd(s[..|s| - 1]) else s
  }

  function Trim(s: string): (r: string)
    ensures |r| <= |s|
  {
    TrimEnd(TrimStart(s))
  }

  const OPEN_TAG := "<thinking>"
  const CLOSE_TAG := "</thinking>"

  /** The text outside the thinking blocks, and the trimmed thoughts that are not empty. */
  function ScanThinking(rest: string): (r: (string, seq<string>))
    ensures |r.0| <= |rest|
    ensures r.1 != [] ==> |r.0| < |rest|
    decreases |rest|
  {
    var start := Find(rest, OPEN_TAG, 0);
    if start == |rest| then (rest, [])
    else
      var after := rest[start + |OPEN_TAG|..];
      var end := Find(after, CLOSE_TAG, 0);
      if end == |after| then (rest, [])
      else
        var thought := Trim(after[..end]);
        var (output, thoughts) := ScanThinking(after[end + |CLOSE_TAG|..]);
        (rest[..start] + output, (if thought == "" then [] else [thought]) + thoughts)
  }

  function JoinThoughts(thoughts: seq<string>): (r: string)
    ensures |thoughts| == 1 ==> r == thoughts[0]
    ensures |thoughts| > 1 ==> r == thoughts[0] + "\n\n" + JoinThoughts(thoughts[1..])
  {
    if thoughts == [] then ""
    else if |thoughts| == 1 then thoughts[0]
    else thoughts[0] + "\n\n" + JoinThoughts(thoughts[1..])
  }

  function ParseThinking(content: string): (r: Option<(string, string)>)
    ensures r.Some? ==> |r.value.0| < |content|
    ensures r.Some? <==> ScanThinking(content).1 != []
  {
    var (output, thoughts) := ScanThinking(content);
    if thoughts == [] then None else Some((Trim(output), JoinThoughts(thoughts)))
  }

  /** The text of a turn's thinking parts. */
  function ThinkingOfParts(parts: seq<Json.Value>): string {
    if parts == [] then ""
    else
      (if Json.Get(parts[0], "type") == Some(Json.Str("thinking")) then
         match Json.Get(parts[0], "text")
         case Some(Str(text)) => text
         case _ => ""
       else "")
      + ThinkingOfParts(parts[1..])
  }

  function ThinkingOfTurn(turn: Turn): Option<string> {
    if !turn.TurnObject? then None
    else match Json.Lookup(turn.rest, "parts")
         case Some(Array(parts)) =>
           var text := ThinkingOfParts(parts);
           if text == "" then None else Some(text)
         case _ => None
  }

  /** The turn given to an assistant message that has thoughts but no turn. */
  function LegacyTurn(message: Message): Turn
    requires message.thinking.Some?
  {
    var thought := message.thinking.value;
    var parts :=
      (if thought == "" then []
       else [Json.Object([Json.Field("type", Json.Str("thinking")), Json.Field("text", Json.Str(thought))])])
      + (if message.content == "" then []
         else [Json.Object([Json.Field("type", Json.Str("text")), Json.Field("text", Json.Str(message.content))])]);
    TurnObject(Items([]), Missing, [
      Json.Field("id", Json.Str(message.id)),
      Json.Field("status", Json.Str("complete")),
      Json.Field("parts", Json.Array(parts)),
      Json.Field("plainTextSummary", Json.Str(message.content))])
  }

  // ----- Rows -----

  /** `persisted_from_message_with_projection` */
  function ToRow(codec: Codec, conversationId: string, message: Message, version: int): Row {
    Row(message.id, conversationId, RoleToText(message.role),
        if message.metadata.Some? then EncodeAnchor(codec, message.content, message.metadata.value) else message.content,
        message.timestamp, version,
        if message.context.Some? then Some(Buffer(message.context.value, false)) else None,
        if message.role.Assistant? && message.turn.NoTurn? && message.thinking.Some?
        then LegacyTurn(message) else message.turn,
        message.summaryRef, message.extras)
  }

  /** The row as written: its context buffer compressed when that pays. */
  function Packed(codec: Codec, row: Row): Row {
    if row.context.None? then row
    else match codec.compress(row.context.value.text)
         case None => row.(context := Some(Buffer(row.context.value.text, false)))
         case Some(packed) => row.(context := Some(Buffer(packed, true)))
  }

  /** The row as read: absent when the context buffer does not decompress. */
  function Unpacked(codec: Codec, row: Row): Option<Row> {
    if row.context.None? || !row.context.value.compressed then Some(row)
    else match codec.decompress(row.context.value.text)
         case None => None
         case Some(text) => Some(row.(context := Some(Buffer(text, false))))
  }

  /** `message_from_persisted` */
  function FromRow(codec: Codec, row: Row): Message {
    var decoded := DecodeAnchor(codec, row.content);
    var plain := if decoded.Some? then decoded.value.0 else row.content;
    var parsed := ParseThinking(plain);
    var ofTurn := ThinkingOfTurn(row.turn);
    var thinking := if ofTurn.Some? then ofTurn else if parsed.Some? then Some(parsed.value.1) else None;
    Message(row.id, RoleFromText(row.role),
            if thinking.Some? && parsed.Some? then parsed.value.0 else plain,
            row.timestamp,
            if row.context.Some? then Some(row.context.value.text) else None,
            thinking,
            if decoded.Some? then Some(decoded.value.1) else None,
            row.turn, row.summaryRef, row.extras)
  }

  lemma UnpackedOfPacked(codec: Codec, conversationId: string, message: Message, version: int)
    requires Faithful(codec)
    ensures var row := ToRow(codec, conversationId, message, version);
            && Unpacked(codec, Packed(codec, row)) == Some(row)
            && forall text, packed :: message.context == Some(text) && codec.compress(text) == Some(packed) ==>
                 Packed(codec, row).context == Some(Buffer(packed, true))
  {
  }

  /**
   The content has no complete thinking block with a thought that is not blank, and, unless
   the message carries metadata of its own, does not itself read as an anchor.
   */
  ghost predicate PlainContent(codec: Codec, message: Message) {
    && ParseThinking(message.content).None?
    && (message.metadata.None? ==> DecodeAnchor(codec, message.content).None?)
  }

  /**
   A message survives storage: id, role, timestamp, context and references always, content
   and metadata if and only if the content is plain.
   */
  lemma RowRoundTrip(codec: Codec, conversationId: string, message: Message, version: int)
    requires Faithful(codec)
    ensures var back := FromRow(codec, ToRow(codec, conversationId, message, version));
            && back.id == message.id && back.role == message.role && back.timestamp == message.timestamp
            && back.context == message.context && back.summaryRef == message.summaryRef && back.extras == message.extras
            && (!message.turn.NoTurn? || message.role != Assistant || message.thinking.None? ==> back.turn == message.turn)
            && (back.content == message.content && back.metadata == message.metadata
                <==> PlainContent(codec, message))
            && (back.content == message.content <==> PlainContent(codec, message))
  {
    if message.metadata.Some? {
      DecodeOfEncodedAnchor(codec, message.content, message.metadata.value);
    }
  }

  // ----- What thoughts are, and that they survive -----

  /** A tag that cannot overlap itself does not begin before its place and end behind it. */
  lemma OccursBefore(before: string, tag: string, rest: string, i: nat)
    requires tag != "" && forall o :: 0 < o < |tag| ==> tag[o] != tag[0]
    requires i < |before| && OccursAt(before + tag + rest, tag, i)
    ensures OccursAt(before, tag, i)
  {
    var s := before + tag + rest;
    assert forall p :: i <= p < i + |tag| ==> s[p] == s[i..i + |tag|][p - i];
    assert s[|before|] == tag[0];
    assert before[i..i + |tag|] == tag;
  }

  /** Such a tag is found behind any text that does not contain it. */
  lemma FirstOccurrence(before: string, tag: string, rest: string)
    requires tag != "" && forall o :: 0 < o < |tag| ==> tag[o] != tag[0]
    requires !Contains(before, tag)
    ensures Find(before + tag + rest, tag, 0) == |before|
  {
    var s := before + tag + rest;
    assert s[|before|..|before| + |tag|] == tag;
    assert OccursAt(s, tag, |before|);
    if Find(s, tag, 0) < |before| {
      OccursBefore(before, tag, rest, Find(s, tag, 0));
    }
  }

  lemma NotFound(s: string, tag: string)
    requires !Contains(s, tag) && tag != ""
    ensures Find(s, tag, 0) == |s|
  {
  }

  /** A text without an opening tag, or with one that is never closed, has no thinking block. */
  lemma NoThinkingBlock(before: string, tail: string)
    requires !Contains(before, "<thinking>")
    ensures ScanThinking(before) == (before, [])
    ensures !Contains(tail, "</thinking>") ==>
              ScanThinking(before + "<thinking>" + tail) == (before + "<thinking>" + tail, [])
  {
    NotFound(before, OPEN_TAG);
    if !Contains(tail, "</thinking>") {
      var text := before + OPEN_TAG + tail;
      FirstOccurrence(before, OPEN_TAG, tail);
      assert text[|before| + |OPEN_TAG|..] == tail;
      NotFound(tail, CLOSE_TAG);
    }
  }

  /** The first thinking block of a text is taken out, and its thought kept unless it is blank. */
  lemma ThinkingBlock(before: string, thought: string, after: string)
    requires !Contains(before, "<thinking>") && !Contains(thought, "</thinking>")
    ensures ScanThinking(before + "<thinking>" + thought + "</thinking>" + after) ==
            (before + ScanThinking(after).0,
             (if Trim(thought) == "" then [] else [Trim(thought)]) + ScanThinking(after).1)
  {
    var tail := thought + CLOSE_TAG + after;
    var text := before + OPEN_TAG + thought + CLOSE_TAG + after;
    assert text == before + OPEN_TAG + tail;
    FirstOccurrence(before, OPEN_TAG, tail);
    assert text[|before| + |OPEN_TAG|..] == tail && text[..|before|] == before;
    FirstOccurrence(thought, CLOSE_TAG, after);
    assert tail[..|thought|] == thought && tail[|thought| + |CLOSE_TAG|..] == after;
  }

  lemma {:induction false} TrimStartTakes(s: string) returns (before: string)
    ensures s == before + TrimStart(s) && IsBlank(before)
  {
    if s != "" && IsWhitespace(s[0]) {
      var rest := TrimStartTakes(s[1..]);
      before := [s[0]] + rest;
      assert s == [s[0]] + (rest + TrimStart(s[1..]));
    } else {
      before := "";
    }
  }

  lemma {:induction false} TrimEndTakes(s: string) returns (after: string)
    ensures s == TrimEnd(s) + after && IsBlank(after)
  {
    var n := |s| - 1;
    if s != "" && IsWhitespace(s[n]) {
      var rest := TrimEndTakes(s[..n]);
      after := rest + [s[n]];
      assert s == (TrimEnd(s[..n]) + rest) + [s[n]];
    } else {
      after := "";
    }
  }

  /** Trimming takes blank text off both ends and leaves no more of it there. */
  lemma TrimTakesBlankEnds(s: string) returns (before: string, after: string)
    ensures s == before + Trim(s) + after && IsBlank(before) && IsBlank(after)
    ensures Trim(s) != "" ==> !IsWhitespace(Trim(s)[0]) && !IsWhitespace(Trim(s)[|Trim(s)| - 1])
  {
    before := TrimStartTakes(s);
    after := TrimEndTakes(TrimStart(s));
    assert before + TrimStart(s) == before + Trim(s) + after;
  }

  /** The text outside thinking blocks and the thoughts, as parsing reports them. */
  lemma ParsedThinking(content: string)
    requires ScanThinking(content).1 != []
    ensures ParseThinking(content) == Some((Trim(ScanThinking(content).0), JoinThoughts(ScanThinking(content).1)))
  {
  }

  /**
   Thoughts survive storage: those of an assistant message without a turn go into a turn made
   for it and come back; where the turn has none, those in the content are taken out of it.
   */
  lemma ThoughtsSurvive(codec: Codec, conversationId: string, message: Message, version: int)
    requires Faithful(codec)
    ensures var back := FromRow(codec, ToRow(codec, conversationId, message, version));
            && (message.role == Assistant && message.turn == NoTurn && message.thinking.Some? && message.thinking.value != "" ==>
                  back.thinking == message.thinking)
            && (message.turn.NoTurn? && (message.role != Assistant || message.thinking.None?)
                && (message.metadata.Some? || DecodeAnchor(codec, message.content).None?) ==>
                  match ParseThinking(message.content)
                  case Some((text, thoughts)) => back.content == text && back.thinking == Some(thoughts)
                  case None => back.content == message.content && back.thinking == None)
  {
    if message.metadata.Some? {
      DecodeOfEncodedAnchor(codec, message.content, message.metadata.value);
    }
    if message.role == Assistant && message.turn == NoTurn && message.thinking.Some? && message.thinking.value != "" {
      LegacyTurnHoldsThought(message);
    }
  }

  lemma LegacyTurnDescribesMessage(message: Message)
    requires message.thinking.Some?
    ensures Json.Lookup(LegacyTurn(message).rest, "id") == Some(Json.Str(message.id))
    ensures Json.Lookup(LegacyTurn(message).rest, "plainTextSummary") == Some(Json.Str(message.content))
  {
    var rest := LegacyTurn(message).rest;
    assert rest[1..][1..] == rest[2..] && rest[2..][1..] == rest[3..];
    assert Json.Lookup(rest[3..], "plainTextSummary") == Some(Json.Str(message.content));
    assert Json.Lookup(rest, "plainTextSummary") == Json.Lookup(rest[2..], "plainTextSummary");
  }

  lemma LegacyTurnHoldsThought(message: Message)
    requires message.thinking.Some? && message.thinking.value != ""
    ensures ThinkingOfTurn(LegacyTurn(message)) == message.thinking
  {
    var turn := LegacyTurn(message);
    assert turn.rest[1..][1..] == turn.rest[2..];
    assert Json.Lookup(turn.rest[2..], "parts").Some?;
    assert Json.Lookup(turn.rest, "parts") == Json.Lookup(turn.rest[2..], "parts");
    var parts := Json.Lookup(turn.rest, "parts").value.items;
    var thinking := parts[0];
    assert thinking.fields[1..][0] == Json.Field("text", Json.Str(message.thinking.value));
    assert Json.Get(thinking, "type") == Some(Json.Str("thinking"));
    assert Json.Get(thinking, "text") == Some(Json.Str(message.thinking.value));
    assert ThinkingOfParts(parts) == message.thinking.value + ThinkingOfParts(parts[1..]);
    assert message.thinking.value + "" == message.thinking.value;
    if |parts| == 2 {
      assert Json.Get(parts[1], "type") == Some(Json.Str("text"));
      assert parts[1..][1..] == [];
      assert parts[1..][0] == parts[1];
      assert ThinkingOfParts(parts[1..]) == "";
    } else {
      assert parts[1..] == [];
    }
  }
}
