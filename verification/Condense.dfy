/**
 Condensing old tool results in a model-facing history. The JSON parser is a parameter:
 any total function from text to an optional value.
 */
module Condense {
  import opened Support
  import opened Text
  import opened ChatMessage
  import Json

  const KEEP_RECENT: nat := 5
  const SUMMARY_MAX_CHARS: nat := 300
  const MARKER := "[condensed]"

  type Parser = string -> Option<Json.Value>

  // ----- One message's content -----

  /** The text up to the first line feed, and what follows it. */
  function FirstLine(s: string): (r: (string, string))
    requires s != ""
    ensures |r.0| + |r.1| <= |s| && |r.1| < |s|
  {
    if s[0] == '\n' then ("", s[1..])
    else if |s| == 1 then (s, "")
    else if s[..2] == "\r\n" then ("", s[2..])
    else var (line, rest) := FirstLine(s[1..]); ([s[0]] + line, rest)
  }

  /** `s.lines()` without the blank lines. */
  function InkedLines(s: string): seq<string>
    decreases |s|
  {
    if s == "" then []
    else
      var (line, rest) := FirstLine(s);
      (if IsBlank(line) then [] else [line]) + InkedLines(rest)
  }

  function Join(lines: seq<string>): (r: string)
    ensures |lines| == 1 ==> r == lines[0]
    ensures |lines| == 2 ==> r == lines[0] + "\n" + lines[1]
    ensures |lines| > 2 ==> r == lines[0] + "\n" + Join(lines[1..])
  {
    if lines == [] then ""
    else if |lines| == 1 then lines[0]
    else lines[0] + "\n" + Join(lines[1..])
  }

  function Summary(content: string): (r: string)
    ensures |r| <= SUMMARY_MAX_CHARS + 3
  {
    var lines := InkedLines(content);
    var n := |lines|;
    var summary :=
      if n <= 4 then Join(lines)
      else Join(lines[..2]) + "\n... (" + Decimal(n - 4) + " lines omitted)\n" + Join(lines[n - 2..]);
    if |summary| > SUMMARY_MAX_CHARS then summary[..SUMMARY_MAX_CHARS] + "..." else summary
  }

  /** A JSON result whose `error` entry is neither null nor false. */
  predicate IsErrorResult(parsed: Option<Json.Value>) {
    && parsed.Some?
    && var error := Json.Get(parsed.value, "error");
       error.Some? && error.value != Json.Null && error.value != Json.Bool(false)
  }

  function NamedTool(v: Json.Value, section: string): Option<string> {
    match Json.Get(v, section)
    case None => None
    case Some(inner) =>
      match Json.Get(inner, "toolName")
      case Some(Str(name)) => Some(name)
      case _ => None
  }

  function ToolName(parsed: Option<Json.Value>): string {
    if parsed.None? then "tool"
    else match NamedTool(parsed.value, "meta")
         case Some(name) => name
         case None =>
           match NamedTool(parsed.value, "metadata")
           case Some(name) => name
           case None => "tool"
  }

  predicate KeptVerbatim(parse: Parser, content: string) {
    StartsWith(content, MARKER) || IsErrorResult(parse(content))
  }

  function CondensedContent(parse: Parser, content: string): string {
    if KeptVerbatim(parse, content) then content
    else MARKER + AfterMarker(parse, content)
  }

  function AfterMarker(parse: Parser, content: string): string {
    " " + ToolName(parse(content)) + " -> ok:\n" + Summary(content)
  }

  // ----- A whole history -----

  function ToolCount(history: seq<Message>): nat {
    if history == [] then 0
    else ToolCount(history[..|history| - 1]) + if history[|history| - 1].role.Tool? then 1 else 0
  }

  /** Position `i` holds a tool message with at least five newer ones. */
  predicate IsOldTool(history: seq<Message>, i: nat)
    requires i < |history|
  {
    history[i].role.Tool? && ToolCount(history[i + 1..]) >= KEEP_RECENT
  }

  function Rewritten(parse: Parser, message: Message): Message {
    message.(content := CondensedContent(parse, message.content))
  }

  function CondenseAt(parse: Parser, history: seq<Message>, i: nat): Message
    requires i < |history|
  {
    if IsOldTool(history, i)
    then Rewritten(parse, history[i])
    else history[i]
  }

  function Condensed(parse: Parser, history: seq<Message>): seq<Message> {
    seq(|history|, i requires 0 <= i < |history| => CondenseAt(parse, history, i))
  }

  lemma {:induction false} ToolCountOfConcat(a: seq<Message>, b: seq<Message>)
    ensures ToolCount(a + b) == ToolCount(a) + ToolCount(b)
    decreases |b|
  {
    if b == [] {
      assert a + b == a;
    } else {
      assert (a + b)[..|a + b| - 1] == a + b[..|b| - 1];
      ToolCountOfConcat(a, b[..|b| - 1]);
    }
  }

  lemma ToolCountAround(history: seq<Message>, i: nat)
    requires i < |history|
    ensures ToolCount(history) ==
            ToolCount(history[..i]) + (if history[i].role.Tool? then 1 else 0) + ToolCount(history[i + 1..])
  {
    assert history == (history[..i] + [history[i]]) + history[i + 1..];
    ToolCountOfConcat(history[..i] + [history[i]], history[i + 1..]);
    assert (history[..i] + [history[i]])[..i] == history[..i];
  }

  /** Positions in the first `n` messages that hold tool messages, in order. */
  ghost predicate IsToolIndex(history: seq<Message>, indices: seq<nat>, n: nat)
    requires n <= |history|
  {
    && |indices| == ToolCount(history[..n])
    && (forall k :: 0 <= k < |indices| ==>
          indices[k] < n && history[indices[k]].role.Tool? && ToolCount(history[..indices[k]]) == k)
    && (forall i :: 0 <= i < n && history[i].role.Tool? ==>
          ToolCount(history[..i]) < |indices| && indices[ToolCount(history[..i])] == i)
  }

  method CollectToolIndices(history: array<Message>) returns (indices: seq<nat>)
    ensures IsToolIndex(history[..], indices, history.Length)
  {
    indices := [];
    ghost var h := history[..];
    for i := 0 to history.Length
      invariant IsToolIndex(h, indices, i)
    {
      assert h[..i + 1][..i] == h[..i];
      if history[i].role.Tool? {
        indices := indices + [i];
      }
    }
    assert h[..history.Length] == h;
  }

  /** The history with its first `k` tool messages rewritten. */
  ghost function Partly(parse: Parser, history: seq<Message>, k: nat): seq<Message> {
    seq(|history|, i requires 0 <= i < |history| =>
      if history[i].role.Tool? && ToolCount(history[..i]) < k then Rewritten(parse, history[i]) else history[i])
  }

  lemma PartlyGrows(parse: Parser, history: seq<Message>, indices: seq<nat>, k: nat)
    requires IsToolIndex(history, indices, |history|) && k < |indices|
    ensures Partly(parse, history, k)[indices[k]] == history[indices[k]]
    ensures Partly(parse, history, k + 1) ==
            Partly(parse, history, k)[indices[k] := Rewritten(parse, history[indices[k]])]
  {
    var before, after := Partly(parse, history, k), Partly(parse, history, k + 1);
    forall i | 0 <= i < |history|
      ensures after[i] == if i == indices[k] then Rewritten(parse, history[i]) else before[i]
    {
      assert history[i].role.Tool? && ToolCount(history[..i]) == k ==> i == indices[k];
    }
  }

  lemma PartlyEnds(parse: Parser, history: seq<Message>, indices: seq<nat>, k: nat)
    requires IsToolIndex(history, indices, |history|)
    requires k == if |indices| <= KEEP_RECENT then 0 else |indices| - KEEP_RECENT
    ensures Partly(parse, history, k) == Condensed(parse, history)
  {
    assert history[..|history|] == history;
    forall i: nat | i < |history|
      ensures IsOldTool(history, i) <==> history[i].role.Tool? && ToolCount(history[..i]) < k
    {
      ToolCountAround(history, i);
    }
  }

  /** The loop body: rewrites the tool message at `i` unless it is kept verbatim. */
  method CondenseOne(parse: Parser, history: array<Message>, i: nat)
    requires i < history.Length
    modifies history
    ensures history[..] == old(history[..])[i := Rewritten(parse, old(history[i]))]
  {
    var message := history[i];
    if StartsWith(message.content, MARKER) {
      return;
    }
    var parsed := parse(message.content);
    if IsErrorResult(parsed) {
      return;
    }
    var summary := Summary(message.content);
    history[i] := message.(content := MARKER + (" " + ToolName(parsed) + " -> ok:\n" + summary));
  }

  /** `condense_ai_tool_messages`, rewriting the history in place. */
  method CondenseToolMessages(parse: Parser, history: array<Message>)
    modifies history
    ensures history[..] == Condensed(parse, old(history[..]))
  {
    ghost var h := history[..];
    var indices := CollectToolIndices(history);
    assert Partly(parse, h, 0) == h;
    if |indices| <= KEEP_RECENT {
      PartlyEnds(parse, h, indices, 0);
      return;
    }
    for k := 0 to |indices| - KEEP_RECENT
      invariant history[..] == Partly(parse, h, k)
    {
      PartlyGrows(parse, h, indices, k);
      CondenseOne(parse, history, indices[k]);
    }
    PartlyEnds(parse, h, indices, |indices| - KEEP_RECENT);
  }

  // ----- Properties -----

  /** Condensed content is recognised and left alone the next time. */
  lemma CondensedContentIsStable(parse: Parser, content: string)
    ensures KeptVerbatim(parse, CondensedContent(parse, content))
    ensures CondensedContent(parse, CondensedContent(parse, content)) == CondensedContent(parse, content)
  {
  }

  lemma {:induction false} SameRolesSameCount(a: seq<Message>, b: seq<Message>)
    requires |a| == |b| && forall i :: 0 <= i < |a| ==> a[i].role == b[i].role
    ensures ToolCount(a) == ToolCount(b)
    decreases |a|
  {
    if a != [] {
      SameRolesSameCount(a[..|a| - 1], b[..|b| - 1]);
    }
  }

  lemma CondenseThenAppendAt(parse: Parser, history: seq<Message>, tail: seq<Message>, i: nat)
    requires i < |history + tail|
    ensures CondenseAt(parse, Condensed(parse, history) + tail, i) == CondenseAt(parse, history + tail, i)
  {
    var full := history + tail;
    var mixed := Condensed(parse, history) + tail;
    assert IsOldTool(mixed, i) <==> IsOldTool(full, i) by {
      SameRolesSameCount(mixed[i + 1..], full[i + 1..]);
    }
    if i < |history| {
      assert mixed[i] == CondenseAt(parse, history, i);
      assert IsOldTool(history, i) ==> IsOldTool(full, i) by {
        assert full[i + 1..] == history[i + 1..] + tail;
        ToolCountOfConcat(history[i + 1..], tail);
      }
      CondensedContentIsStable(parse, history[i].content);
    }
  }

  /** Condensing after an append gives the same history whether or not it was condensed before. */
  lemma CondenseThenAppend(parse: Parser, history: seq<Message>, tail: seq<Message>)
    ensures Condensed(parse, Condensed(parse, history) + tail) == Condensed(parse, history + tail)
  {
    forall i: nat | i < |history + tail|
      ensures CondenseAt(parse, Condensed(parse, history) + tail, i) == CondenseAt(parse, history + tail, i)
    {
      CondenseThenAppendAt(parse, history, tail, i);
    }
  }

  /** Condensing after every batch, as the chat loop does. */
  function CondenseEachTime(parse: Parser, batches: seq<seq<Message>>): seq<Message> {
    if batches == [] then []
    else Condensed(parse, CondenseEachTime(parse, batches[..|batches| - 1]) + batches[|batches| - 1])
  }

  function Flatten(batches: seq<seq<Message>>): seq<Message> {
    if batches == [] then [] else Flatten(batches[..|batches| - 1]) + batches[|batches| - 1]
  }

  /** However the history arrives, condensing as it grows equals condensing it once at the end. */
  lemma {:induction false} IncrementalEqualsOneShot(parse: Parser, batches: seq<seq<Message>>)
    ensures CondenseEachTime(parse, batches) == Condensed(parse, Flatten(batches))
    decreases |batches|
  {
    if batches == [] {
    } else {
      var n := |batches| - 1;
      IncrementalEqualsOneShot(parse, batches[..n]);
      CondenseThenAppend(parse, Flatten(batches[..n]), batches[n]);
    }
  }

  lemma CondensingIsIdempotent(parse: Parser, history: seq<Message>)
    ensures Condensed(parse, Condensed(parse, history)) == Condensed(parse, history)
  {
    CondenseThenAppend(parse, history, []);
    assert Condensed(parse, history) + [] == Condensed(parse, history);
    assert history + [] == history;
  }

  lemma {:induction false} ToolCountOfRange(history: seq<Message>, i: nat, n: nat)
    requires i <= n <= |history|
    ensures ToolCount(history[i..n]) == |NewerTools(history, i, n)|
    decreases n
  {
    if i < n {
      ToolCountOfRange(history, i, n - 1);
      assert history[i..n][..n - i - 1] == history[i..n - 1];
      if history[n - 1].role.Tool? {
        assert NewerTools(history, i, n) == NewerTools(history, i, n - 1) + {n - 1};
      } else {
        assert NewerTools(history, i, n) == NewerTools(history, i, n - 1);
      }
    } else {
      assert NewerTools(history, i, n) == {};
    }
  }

  /** The positions of the tool messages from `i` up to `n`. */
  ghost function NewerTools(history: seq<Message>, i: nat, n: nat): set<nat>
    requires n <= |history|
  {
    set j: nat | i <= j < n && history[j].role == Tool
  }

  /** The content parses to an object whose `error` is neither null nor false. */
  ghost predicate ReportsError(parsed: Option<Json.Value>) {
    && parsed.Some? && parsed.value.Object?
    && Json.Lookup(parsed.value.fields, "error").Some?
    && Json.Lookup(parsed.value.fields, "error").value !in {Json.Null, Json.Bool(false)}
  }

  /**
   Exactly what changes: only content, and only of a tool message that has five newer ones, is
   no error result and is not yet condensed. All of those do change, to the marker, the
   tool's name and the summary.
   */
  lemma OnlyOldResultsChange(parse: Parser, history: seq<Message>, i: nat)
    requires i < |history|
    ensures var before, after := history[i], Condensed(parse, history)[i];
            if && before.role == Tool && |NewerTools(history, i + 1, |history|)| >= 5
               && !StartsWith(before.content, "[condensed]") && !ReportsError(parse(before.content))
            then after == before.(content :=
                   "[condensed]" + (" " + ToolName(parse(before.content)) + " -> ok:\n" + Summary(before.content)))
            else after == before
  {
    ToolCountOfRange(history, i + 1, |history|);
    assert history[i + 1..|history|] == history[i + 1..];
  }

  ghost predicate NamedUnder(parsed: Option<Json.Value>, section: string, name: string) {
    && parsed.Some? && parsed.value.Object?
    && var inner := Json.Lookup(parsed.value.fields, section);
       inner.Some? && inner.value.Object? && Json.Lookup(inner.value.fields, "toolName") == Some(Json.Str(name))
  }

  /** The name shown is the one under `meta`, else the one under `metadata`, else `tool`. */
  lemma NameShown(parsed: Option<Json.Value>, name: string)
    ensures NamedUnder(parsed, "meta", name) ==> ToolName(parsed) == name
    ensures NamedUnder(parsed, "metadata", name) && (forall other :: !NamedUnder(parsed, "meta", other)) ==>
              ToolName(parsed) == name
    ensures (forall other :: !NamedUnder(parsed, "meta", other) && !NamedUnder(parsed, "metadata", other)) ==>
              ToolName(parsed) == "tool"
  {
    assert NamedUnder(parsed, "meta", name) ==> NamedTool(parsed.value, "meta") == Some(name);
    assert parsed.Some? && NamedTool(parsed.value, "meta").Some? ==>
        NamedUnder(parsed, "meta", NamedTool(parsed.value, "meta").value);
    assert parsed.Some? && NamedTool(parsed.value, "metadata").Some? ==>
        NamedUnder(parsed, "metadata", NamedTool(parsed.value, "metadata").value);
  }

  // ----- What a summary shows -----

  lemma {:induction false} FirstLineEnds(line: string, rest: string)
    requires '\n' !in line
    ensures line != "" ==> FirstLine(line) == (line, "")
    ensures line == "" || line[|line| - 1] != '\r' ==> FirstLine(line + "\n" + rest) == (line, rest)
  {
    var text := line + "\n" + rest;
    if line == "" {
      assert text[0] == '\n' && text[1..] == rest;
    } else {
      var tail := line[1..];
      FirstLineEnds(tail, rest);
      assert text[1..] == tail + "\n" + rest;
      assert line == [line[0]] + tail;
      assert tail != "" ==> line[|line| - 1] == tail[|tail| - 1];
    }
  }

  /** A carriage return before the line feed belongs to neither line. */
  lemma {:induction false} FirstLineEndsInReturn(line: string, rest: string)
    requires '\n' !in line
    ensures FirstLine(line + "\r\n" + rest) == (line, rest)
  {
    var text := line + "\r\n" + rest;
    if line == "" {
      assert text[..2] == "\r\n" && text[2..] == rest;
    } else {
      FirstLineEndsInReturn(line[1..], rest);
      assert text[1..] == line[1..] + "\r\n" + rest;
      assert text[1] == if |line| == 1 then '\r' else line[1];
      assert line == [line[0]] + line[1..];
    }
  }

  /** A text line: no line feed in it, and no carriage return at its end. */
  ghost predicate IsLine(line: string) {
    '\n' !in line && (line == "" || line[|line| - 1] != '\r')
  }

  ghost function Inked(lines: seq<string>): seq<string> {
    if lines == [] then [] else (if IsBlank(lines[0]) then [] else [lines[0]]) + Inked(lines[1..])
  }

  lemma {:induction false} InkedLinesOfText(lines: seq<string>)
    requires forall i :: 0 <= i < |lines| ==> IsLine(lines[i])
    ensures InkedLines(Join(lines)) == Inked(lines)
    decreases |lines|
  {
    if lines != [] {
      assert IsLine(lines[0]);
      FirstLineEnds(lines[0], Join(lines[1..]));
      InkedLinesOfText(lines[1..]);
      if |lines| == 1 {
        assert lines[1..] == [];
      }
    }
  }

  /**
   The summary of a text keeps its lines that are not blank: all of them when there are at most
   four, else the first two and the last two around a count of the others. It is cut at 300
   characters.
   */
  lemma SummaryKeepsEnds(lines: seq<string>)
    requires forall i :: 0 <= i < |lines| ==> IsLine(lines[i])
    ensures var inked := Inked(lines);
            var n := |inked|;
            var text := if n <= 4 then Join(inked)
                        else inked[0] + "\n" + inked[1] + "\n... (" + Decimal(n - 4) + " lines omitted)\n"
                             + (inked[n - 2] + "\n" + inked[n - 1]);
            Summary(Join(lines)) == if |text| <= 300 then text else text[..300] + "..."
  {
    InkedLinesOfText(lines);
    var inked := Inked(lines);
    if |inked| > 4 {
      assert Join(inked[..2]) == inked[0] + "\n" + inked[1];
      assert Join(inked[|inked| - 2..]) == inked[|inked| - 2] + "\n" + inked[|inked| - 1];
    }
  }
}
