/**
 The client of the local llama.cpp completion server: the chat-prompt
 formatter, the request payload, the blocking request and the streaming
 request with its line-by-line decode loop.

 The transport is a parameter: `server` maps the request payload to what the
 network delivers (a response status, a body, or the list of already-decoded
 text chunks the body reader yields, ended by one terminal event). JSON parsing
 is a parameter too (`parse`), so every property below holds for any parser.
 */
module LlamaApiService {
  import opened Wrappers
  import opened JsString

  // ---------------------------------------------------------------------------
  // Messages and the prompt formatter
  // ---------------------------------------------------------------------------

  /** One chat turn; `isUser` tells a human turn from an assistant turn. */
  datatype Message = Message(text: string, isUser: bool)

  /** The fixed system instruction that opens every prompt. */
  const Instruction: string := "A chat between a curious human and an artificial intelligence assistant. The assistant gives helpful, detailed, and polite answers to the human's questions. The assistant is called Edge Pilot and is designed to help users with Office tasks."

  const HumanTag: string := "### Human: "
  const AssistantTag: string := "### Assistant: "
  /** The empty assistant turn that ends every prompt, cueing the server to answer. */
  const AssistantCue: string := "### Assistant:"

  /** The prompt line of one message. */
  function RenderMessage(m: Message): string {
    (if m.isUser then HumanTag else AssistantTag) + m.text
  }

  /** `messages.map(...)`: the prompt line of every message, in order. */
  function RenderHistory(messages: seq<Message>): (lines: seq<string>)
    ensures |lines| == |messages|
    ensures forall i :: 0 <= i < |messages| ==> lines[i] == RenderMessage(messages[i])
  {
    seq(|messages|, i requires 0 <= i < |messages| => RenderMessage(messages[i]))
  }

  /** `formatPrompt`: the instruction, a line per message, then the assistant cue. */
  function FormatPrompt(messages: seq<Message>): string {
    var formattedChat := Join(RenderHistory(messages), "\n");
    Instruction + "\n" + formattedChat + "\n" + AssistantCue
  }

  /** Every prompt opens with the instruction line and ends with the assistant cue. */
  lemma PromptFrame(messages: seq<Message>)
    ensures StartsWith(FormatPrompt(messages), Instruction + "\n")
    ensures EndsWith(FormatPrompt(messages), "\n" + AssistantCue)
  {
    var chat := Join(RenderHistory(messages), "\n");
    var p := FormatPrompt(messages);
    assert p == (Instruction + "\n") + (chat + "\n" + AssistantCue);
    assert p == (Instruction + "\n" + chat) + ("\n" + AssistantCue);
  }

  /** With no history the prompt is the instruction, an empty line and the cue. */
  lemma EmptyHistoryPrompt()
    ensures FormatPrompt([]) == Instruction + "\n\n### Assistant:"
  {
  }

  /** Reads one prompt line back as a message: the inverse of `RenderMessage`. */
  function DecodeMessage(line: string): Option<Message> {
    if StartsWith(line, HumanTag) then Some(Message(line[|HumanTag|..], true))
    else if StartsWith(line, AssistantTag) then Some(Message(line[|AssistantTag|..], false))
    else None
  }

  function DecodeHistory(lines: seq<string>): Option<seq<Message>> {
    if lines == [] then Some([])
    else match (DecodeMessage(lines[0]), DecodeHistory(lines[1..]))
      case (Some(m), Some(ms)) => Some([m] + ms)
      case _ => None
  }

  /** Reads a prompt back into its history: the inverse of `FormatPrompt` on
      histories whose texts are single lines. The instruction must open the
      prompt; the lines after it are the messages, then the cue. */
  function DecodePrompt(prompt: string): Option<seq<Message>> {
    if !StartsWith(prompt, Instruction + "\n") then None
    else
      var lines := Split(prompt[|Instruction| + 1..], '\n');
      if |lines| < 2 || lines[|lines| - 1] != AssistantCue then None
      else
        var body := lines[..|lines| - 1];
        if body == [""] then Some([]) else DecodeHistory(body)
  }

  predicate SingleLine(s: string) {
    '\n' !in s
  }

  /** The human and assistant tags never both match, so a rendered line decodes to its message. */
  lemma DecodeRenderedMessage(m: Message)
    ensures DecodeMessage(RenderMessage(m)) == Some(m)
  {
    var line := RenderMessage(m);
    if m.isUser {
      assert line[..|HumanTag|] == HumanTag;
      assert line[|HumanTag|..] == m.text;
    } else {
      assert line[4] == 'A';
      assert !StartsWith(line, HumanTag) by {
        assert line[4] != HumanTag[4];
      }
      assert line[..|AssistantTag|] == AssistantTag;
      assert line[|AssistantTag|..] == m.text;
    }
  }

  lemma {:induction false} DecodeRenderedHistory(messages: seq<Message>)
    ensures DecodeHistory(RenderHistory(messages)) == Some(messages)
  {
    if messages != [] {
      var lines := RenderHistory(messages);
      assert lines[1..] == RenderHistory(messages[1..]);
      DecodeRenderedMessage(messages[0]);
      DecodeRenderedHistory(messages[1..]);
      assert messages == [messages[0]] + messages[1..];
    }
  }

  /** After the instruction line, the prompt's lines are exactly one line per
      message in order (an empty line for an empty history) and the assistant
      cue, provided no message text holds a line break. */
  lemma PromptLines(messages: seq<Message>)
    requires forall i :: 0 <= i < |messages| ==> SingleLine(messages[i].text)
    ensures var p := FormatPrompt(messages);
            && p[..|Instruction| + 1] == Instruction + "\n"
            && (messages == [] ==> Split(p[|Instruction| + 1..], '\n') == ["", AssistantCue])
            && (messages != [] ==> Split(p[|Instruction| + 1..], '\n') == RenderHistory(messages) + [AssistantCue])
  {
    var p := FormatPrompt(messages);
    var rendered := RenderHistory(messages);
    var lines := if messages == [] then ["", AssistantCue] else rendered + [AssistantCue];
    var chat := Join(rendered, "\n") + "\n" + AssistantCue;
    assert p == Instruction + "\n" + chat;
    assert p[|Instruction| + 1..] == chat;
    if messages == [] {
      assert Join(lines, "\n") == "" + "\n" + AssistantCue by {
        assert lines[1..] == [AssistantCue];
      }
    } else {
      JoinAppend(rendered, [AssistantCue], "\n");
    }
    assert Join(lines, "\n") == chat;
    forall k | 0 <= k < |lines| ensures '\n' !in lines[k] {
      if k < |lines| - 1 && messages != [] {
        assert lines[k] == (if messages[k].isUser then HumanTag else AssistantTag) + messages[k].text;
      }
    }
    SplitJoin(lines, '\n');
  }

  /** Round trip: a prompt can be read back into the history it was built from,
      provided no message text holds a line break. */
  lemma PromptRoundTrip(messages: seq<Message>)
    requires forall i :: 0 <= i < |messages| ==> SingleLine(messages[i].text)
    ensures DecodePrompt(FormatPrompt(messages)) == Some(messages)
  {
    PromptFrame(messages);
    PromptLines(messages);
    var p := FormatPrompt(messages);
    var lines := Split(p[|Instruction| + 1..], '\n');
    if messages != [] {
      assert lines[..|lines| - 1] == RenderHistory(messages);
      DecodeRenderedHistory(messages);
    }
  }

  /** Appending a message to the history inserts its line just before the cue:
      the prompt of a longer conversation extends the earlier prompt's text up
      to the cue, which is what lets the server reuse its prompt cache. */
  lemma PromptAppend(messages: seq<Message>, m: Message)
    requires messages != []
    ensures var p := FormatPrompt(messages);
            FormatPrompt(messages + [m])
              == p[..|p| - |AssistantCue|] + RenderMessage(m) + "\n" + AssistantCue
  {
    var rendered := RenderHistory(messages);
    var line := RenderMessage(m);
    assert RenderHistory(messages + [m]) == rendered + [line];
    JoinAppend(rendered, [line], "\n");
    FrameAppend(Instruction + "\n", Join(rendered, "\n"), line, AssistantCue);
  }

  /** Inserting a line before the closing `"\n" + cue` of a framed text. */
  lemma FrameAppend(head: string, body: string, line: string, cue: string)
    ensures var p := head + body + "\n" + cue;
            head + (body + "\n" + line) + "\n" + cue == p[..|p| - |cue|] + line + "\n" + cue
  {
    var p := head + body + "\n" + cue;
    assert p[..|p| - |cue|] == head + body + "\n";
  }

  // ---------------------------------------------------------------------------
  // The request payload
  // ---------------------------------------------------------------------------

  /** The JSON body POSTed to `/completion` (the float sampling parameters are
      not modelled). */
  datatype LlamaRequest = LlamaRequest(
    prompt: string,
    topK: int,
    nPredict: int,
    stop: seq<string>,
    stream: bool,
    cachePrompt: bool)

  /** The sequence the server is told to stop at: the start of a new human turn. */
  const HumanTurnStop: string := "\n### Human:"

  function BuildRequest(messages: seq<Message>, stream: bool): LlamaRequest {
    LlamaRequest(FormatPrompt(messages), 40, 2000, [HumanTurnStop], stream, true)
  }

  /** The blocking and the streaming payloads differ only in the `stream` flag,
      and both carry the formatted prompt. */
  lemma RequestModes(messages: seq<Message>)
    ensures BuildRequest(messages, true) == BuildRequest(messages, false).(stream := true)
    ensures BuildRequest(messages, false).prompt == FormatPrompt(messages)
    ensures !BuildRequest(messages, false).stream && BuildRequest(messages, true).stream
  {
  }

  /** The stop sequence is where a following human turn of the prompt format
      would begin, so generation halts before the model writes the user's part. */
  lemma StopSequenceMatchesHumanTurn(m: Message)
    requires m.isUser
    ensures StartsWith("\n" + RenderMessage(m), HumanTurnStop)
  {
    assert ("\n" + RenderMessage(m))[..|HumanTurnStop|] == HumanTurnStop;
  }

  // ---------------------------------------------------------------------------
  // Parsed records
  // ---------------------------------------------------------------------------

  /** What the client reads from a parsed JSON record: its `content`, with ""
      for a missing or falsy one, and whether `stop` is truthy. */
  datatype StreamChunk = StreamChunk(content: string, stop: bool)

  /** `JSON.parse` followed by the field reads: `None` when it throws. */
  type Parser = string -> Option<StreamChunk>

  // ---------------------------------------------------------------------------
  // Blocking mode: sendChatRequest
  // ---------------------------------------------------------------------------

  /** What `fetch` yields in blocking mode: a rejection, or a status and a body. */
  datatype BlockingReply = NetworkFailure | Replied(ok: bool, body: string)

  const NoResponseText: string := "Sorry, I couldn't generate a response."
  const BlockingErrorText: string := "Sorry, I encountered an error communicating with the local LLM."

  /** `sendChatRequest`: the reply's content, a fallback sentence when it is
      empty, or a fixed error sentence for a failed fetch, a non-ok status or a
      body that does not parse. Never the empty string. */
  function SendChatRequest(messages: seq<Message>, parse: Parser, server: LlamaRequest -> BlockingReply): (reply: string)
    ensures reply != ""
  {
    match server(BuildRequest(messages, false))
    case NetworkFailure => BlockingErrorText
    case Replied(ok, body) =>
      if !ok then BlockingErrorText
      else match parse(body)
        case None => BlockingErrorText
        case Some(data) => if data.content != "" then data.content else NoResponseText
  }

  /** The blocking result is the reply's content exactly when the status is ok,
      the body parses and its content is non-empty; otherwise it is one of the two
      fixed sentences. */
  lemma BlockingOutcome(messages: seq<Message>, parse: Parser, server: LlamaRequest -> BlockingReply)
    ensures var reply := server(BuildRequest(messages, false));
            var answered := reply.Replied? && reply.ok && parse(reply.body).Some?;
            && (answered && parse(reply.body).value.content != "" ==>
                  SendChatRequest(messages, parse, server) == parse(reply.body).value.content)
            && (answered && parse(reply.body).value.content == "" ==>
                  SendChatRequest(messages, parse, server) == NoResponseText)
            && (!answered ==> SendChatRequest(messages, parse, server) == BlockingErrorText)
  {
  }

  // ---------------------------------------------------------------------------
  // Streaming mode: the per-chunk line loop
  // ---------------------------------------------------------------------------

  const DataPrefix: string := "data: "

  /** `line.trim() !== ''`, stated as "not all whitespace" (`TrimEmptyIffBlank`). */
  predicate HasText(line: string) {
    !AllWhitespace(line)
  }

  /** `lines.filter(line => line.trim() !== '')`. */
  function NonBlank(lines: seq<string>): (kept: seq<string>)
    ensures |kept| <= |lines|
    ensures forall k :: 0 <= k < |kept| ==> HasText(kept[k])
  {
    if lines == [] then []
    else (if HasText(lines[0]) then [lines[0]] else []) + NonBlank(lines[1..])
  }

  lemma {:induction false} NonBlankAppend(a: seq<string>, b: seq<string>)
    ensures NonBlank(a + b) == NonBlank(a) + NonBlank(b)
  {
    if a != [] {
      var head := if HasText(a[0]) then [a[0]] else [];
      assert (a + b)[0] == a[0];
      assert (a + b)[1..] == a[1..] + b;
      NonBlankAppend(a[1..], b);
      assert NonBlank(a + b) == head + (NonBlank(a[1..]) + NonBlank(b));
      assert NonBlank(a) == head + NonBlank(a[1..]);
    } else {
      assert a + b == b;
    }
  }

  /** A line with a non-whitespace character is kept, in its place. */
  lemma TextLineKept(a: seq<string>, line: string, b: seq<string>)
    requires HasText(line)
    ensures NonBlank(a + [line] + b) == NonBlank(a) + [line] + NonBlank(b)
  {
    NonBlankAppend(a + [line], b);
    NonBlankAppend(a, [line]);
    assert [line][1..] == [];
  }

  /** A line that is blank after trimming is dropped, wherever it stands. */
  lemma BlankLineDropped(a: seq<string>, line: string, b: seq<string>)
    requires AllWhitespace(line)
    ensures NonBlank(a + [line] + b) == NonBlank(a + b)
  {
    TrimEmptyIffBlank(line);
    NonBlankAppend(a + [line], b);
    NonBlankAppend(a, [line]);
    NonBlankAppend(a, b);
  }

  /** The lines of one read: `chunk.split('\n')` without the blank ones. */
  function EventLines(chunk: string): seq<string> {
    NonBlank(Split(chunk, '\n'))
  }

  /** The text a record appends: its content when non-empty, nothing otherwise. */
  function Delta(record: StreamChunk): seq<string> {
    if record.content != "" then [record.content] else []
  }

  /** The contents the inner `for` loop appends, in order, for the given lines:
      a non-data line is skipped, the text after the six-character `data: `
      prefix is parsed, a parse failure ends the loop (the one `try` around it),
      and a `stop` record ends it after its own content. Every appended content
      is non-empty. */
  function LineDeltas(parse: Parser, lines: seq<string>): (deltas: seq<string>)
    ensures forall k :: 0 <= k < |deltas| ==> deltas[k] != ""
  {
    if lines == [] then []
    else if !StartsWith(lines[0], DataPrefix) then LineDeltas(parse, lines[1..])
    else match parse(lines[0][6..])
      case None => []
      case Some(record) => Delta(record) + (if record.stop then [] else LineDeltas(parse, lines[1..]))
  }

  /** The contents one read appends. */
  function ChunkDeltas(parse: Parser, chunk: string): (deltas: seq<string>)
    ensures forall k :: 0 <= k < |deltas| ==> deltas[k] != ""
  {
    LineDeltas(parse, EventLines(chunk))
  }

  /** `decode` applied to each read on its own, the results in order. */
  function EachRead(decode: string -> seq<string>, chunks: seq<string>): seq<string> {
    if chunks == [] then [] else decode(chunks[0]) + EachRead(decode, chunks[1..])
  }

  lemma {:induction false} EachReadAppend(decode: string -> seq<string>, a: seq<string>, b: seq<string>)
    ensures EachRead(decode, a + b) == EachRead(decode, a) + EachRead(decode, b)
  {
    if a == [] {
      assert a + b == b;
    } else {
      assert (a + b)[0] == a[0];
      assert (a + b)[1..] == a[1..] + b;
      EachReadAppend(decode, a[1..], b);
    }
  }

  /** The contents a whole sequence of reads appends: each read decoded on its
      own, nothing carried from one read to the next. */
  function StreamDeltas(parse: Parser, chunks: seq<string>): seq<string> {
    EachRead(chunk => ChunkDeltas(parse, chunk), chunks)
  }

  lemma EachReadOne(decode: string -> seq<string>, chunk: string)
    ensures EachRead(decode, [chunk]) == decode(chunk)
  {
    assert [chunk][1..] == [];
  }

  lemma StreamDeltasOfOneRead(parse: Parser, chunk: string)
    ensures StreamDeltas(parse, [chunk]) == ChunkDeltas(parse, chunk)
  {
    EachReadOne(chunk => ChunkDeltas(parse, chunk), chunk);
  }

  /** One more read appends that read's contents. */
  lemma StreamDeltasSnoc(parse: Parser, chunks: seq<string>, k: nat)
    requires k < |chunks|
    ensures StreamDeltas(parse, chunks[..k + 1]) == StreamDeltas(parse, chunks[..k]) + ChunkDeltas(parse, chunks[k])
  {
    StreamDeltasAppend(parse, chunks[..k], [chunks[k]]);
    StreamDeltasOfOneRead(parse, chunks[k]);
    assert chunks[..k + 1] == chunks[..k] + [chunks[k]];
  }

  /** Every content appended while streaming is non-empty. */
  lemma {:induction false} StreamDeltasNonEmpty(parse: Parser, chunks: seq<string>)
    ensures forall k :: 0 <= k < |StreamDeltas(parse, chunks)| ==> StreamDeltas(parse, chunks)[k] != ""
  {
    if chunks != [] {
      StreamDeltasNonEmpty(parse, chunks[1..]);
      var first := ChunkDeltas(parse, chunks[0]);
      assert StreamDeltas(parse, chunks) == first + StreamDeltas(parse, chunks[1..]);
    }
  }

  /** The arguments of the `onChunk` calls made while appending `deltas` to `acc`:
      the accumulated text after each append. */
  function Partials(acc: string, deltas: seq<string>): seq<string>
    decreases deltas
  {
    if deltas == [] then [] else [acc + deltas[0]] + Partials(acc + deltas[0], deltas[1..])
  }

  predicate StrictPrefix(a: string, b: string) {
    |a| < |b| && b[..|a|] == a
  }

  /** Each entry of `log` strictly extends the one before it, the first one `start`. */
  predicate ExtendsStrictly(start: string, log: seq<string>) {
    && (log != [] ==> StrictPrefix(start, log[0]))
    && (forall k :: 1 <= k < |log| ==> StrictPrefix(log[k - 1], log[k]))
  }

  lemma {:induction false} PartialsAppend(acc: string, a: seq<string>, b: seq<string>)
    ensures Partials(acc, a + b) == Partials(acc, a) + Partials(acc + Concat(a), b)
    decreases a
  {
    if a == [] {
      assert a + b == b;
      assert acc + Concat(a) == acc;
    } else {
      assert (a + b)[1..] == a[1..] + b;
      PartialsAppend(acc + a[0], a[1..], b);
      assert acc + a[0] + Concat(a[1..]) == acc + Concat(a);
    }
  }

  lemma {:induction false} PartialsLength(acc: string, deltas: seq<string>)
    ensures |Partials(acc, deltas)| == |deltas|
    decreases deltas
  {
    if deltas != [] {
      PartialsLength(acc + deltas[0], deltas[1..]);
    }
  }

  /** The `k`-th `onChunk` argument is the text after the first `k + 1` contents. */
  lemma {:induction false} PartialsAt(acc: string, deltas: seq<string>, k: nat)
    requires k < |deltas|
    ensures |Partials(acc, deltas)| == |deltas|
    ensures Partials(acc, deltas)[k] == acc + Concat(deltas[..k + 1])
    decreases k
  {
    PartialsLength(acc, deltas);
    var rest := deltas[1..];
    assert deltas[..1] == [deltas[0]];
    if k == 0 {
      assert Concat([deltas[0]]) == deltas[0] + Concat([]);
    } else {
      PartialsAt(acc + deltas[0], rest, k - 1);
      assert deltas[..k + 1] == [deltas[0]] + rest[..k];
      assert Concat(deltas[..k + 1]) == deltas[0] + Concat(rest[..k]);
      AppendAssoc(acc, deltas[0], Concat(rest[..k]));
    }
  }

  /** Appending a non-empty string makes a strict extension. */
  lemma StrictlyExtended(text: string, more: string)
    requires more != ""
    ensures StrictPrefix(text, text + more)
  {
    assert (text + more)[..|text|] == text;
  }

  /** Each `onChunk` argument strictly extends the one before it. */
  lemma PartialsStep(acc: string, deltas: seq<string>, k: nat)
    requires 1 <= k < |deltas| && deltas[k] != ""
    ensures |Partials(acc, deltas)| == |deltas|
    ensures StrictPrefix(Partials(acc, deltas)[k - 1], Partials(acc, deltas)[k])
  {
    PartialsAt(acc, deltas, k - 1);
    PartialsAt(acc, deltas, k);
    var before := Concat(deltas[..k]);
    assert deltas[..k + 1] == deltas[..k] + [deltas[k]];
    ConcatAppend(deltas[..k], [deltas[k]]);
    assert Concat([deltas[k]]) == deltas[k] + Concat([]);
    AppendAssoc(acc, before, deltas[k]);
    StrictlyExtended(acc + before, deltas[k]);
  }

  /** The first `onChunk` argument strictly extends the starting text. */
  lemma PartialsFirst(acc: string, deltas: seq<string>)
    requires deltas != [] && deltas[0] != ""
    ensures StrictPrefix(acc, Partials(acc, deltas)[0])
  {
    StrictlyExtended(acc, deltas[0]);
  }

  /** Appending non-empty contents makes every `onChunk` argument a strict
      extension of the previous one, and the last one is the whole text. */
  lemma PartialsExtend(acc: string, deltas: seq<string>)
    requires forall k :: 0 <= k < |deltas| ==> deltas[k] != ""
    ensures |Partials(acc, deltas)| == |deltas|
    ensures ExtendsStrictly(acc, Partials(acc, deltas))
    ensures deltas != [] ==> Partials(acc, deltas)[|deltas| - 1] == acc + Concat(deltas)
  {
    PartialsLength(acc, deltas);
    var log := Partials(acc, deltas);
    if deltas != [] {
      PartialsFirst(acc, deltas);
      PartialsAt(acc, deltas, |deltas| - 1);
      assert deltas[..|deltas|] == deltas;
    }
    forall k | 1 <= k < |log|
      ensures StrictPrefix(log[k - 1], log[k])
    {
      PartialsStep(acc, deltas, k);
    }
  }

  /** A line without the `data: ` prefix contributes nothing, wherever it stands. */
  lemma {:induction false} NonDataLineIgnored(parse: Parser, pre: seq<string>, line: string, post: seq<string>)
    requires !StartsWith(line, DataPrefix)
    ensures LineDeltas(parse, pre + [line] + post) == LineDeltas(parse, pre + post)
  {
    if pre == [] {
      assert (pre + [line] + post)[1..] == post;
      assert pre + post == post;
    } else {
      assert (pre + [line] + post)[1..] == pre[1..] + [line] + post;
      assert (pre + post)[1..] == pre[1..] + post;
      NonDataLineIgnored(parse, pre[1..], line, post);
    }
  }

  /** The parser receives exactly the text after the six-character `data: ` prefix,
      and a record with non-empty content and no `stop` appends that content and
      lets the loop go on. */
  lemma ContentLineAppends(parse: Parser, payload: string, content: string, rest: seq<string>)
    requires parse(payload) == Some(StreamChunk(content, false)) && content != ""
    ensures LineDeltas(parse, [DataPrefix + payload] + rest) == [content] + LineDeltas(parse, rest)
  {
    var line := DataPrefix + payload;
    assert line[..|DataPrefix|] == DataPrefix;
    assert line[6..] == payload;
    assert ([line] + rest)[1..] == rest;
  }

  /** A record whose content is empty or absent appends nothing and triggers no
      `onChunk` call, wherever it stands. */
  lemma {:induction false} EmptyContentIgnored(parse: Parser, pre: seq<string>, payload: string, post: seq<string>)
    requires parse(payload) == Some(StreamChunk("", false))
    ensures LineDeltas(parse, pre + [DataPrefix + payload] + post) == LineDeltas(parse, pre + post)
  {
    var line := DataPrefix + payload;
    if pre == [] {
      assert line[..|DataPrefix|] == DataPrefix && line[6..] == payload;
      assert ([line] + post)[1..] == post;
      assert pre + [line] + post == [line] + post;
      assert pre + post == post;
    } else {
      assert (pre + [line] + post)[1..] == pre[1..] + [line] + post;
      assert (pre + post)[1..] == pre[1..] + post;
      EmptyContentIgnored(parse, pre[1..], payload, post);
    }
  }

  /** A `stop` record ends its chunk: it appends its own content (nothing when
      that is empty) and the lines after it contribute nothing. */
  lemma {:induction false} StopDropsRestOfChunk(parse: Parser, pre: seq<string>, payload: string, post: seq<string>)
    requires parse(payload).Some? && parse(payload).value.stop
    ensures LineDeltas(parse, pre + [DataPrefix + payload] + post) == LineDeltas(parse, pre + [DataPrefix + payload])
    ensures LineDeltas(parse, [DataPrefix + payload] + post) == Delta(parse(payload).value)
  {
    var line := DataPrefix + payload;
    if pre == [] {
      assert line[..|DataPrefix|] == DataPrefix && line[6..] == payload;
      assert pre + [line] + post == [line] + post;
      assert pre + [line] == [line];
    } else {
      assert (pre + [line] + post)[1..] == pre[1..] + [line] + post;
      assert (pre + [line])[1..] == pre[1..] + [line];
      StopDropsRestOfChunk(parse, pre[1..], payload, post);
    }
  }

  /** A data line that does not parse ends its chunk but keeps what the earlier
      lines appended. */
  lemma {:induction false} ParseFailureKeepsEarlier(parse: Parser, pre: seq<string>, payload: string, post: seq<string>)
    requires parse(payload).None?
    ensures LineDeltas(parse, pre + [DataPrefix + payload] + post) == LineDeltas(parse, pre)
  {
    var line := DataPrefix + payload;
    if pre == [] {
      assert line[..|DataPrefix|] == DataPrefix && line[6..] == payload;
      assert pre + [line] + post == [line] + post;
    } else {
      assert (pre + [line] + post)[1..] == pre[1..] + [line] + post;
      ParseFailureKeepsEarlier(parse, pre[1..], payload, post);
    }
  }

  /** Reads are decoded independently: the contents of `a + b` are those of `a`
      followed by those of `b`, so a `stop` or a parse failure in one read never
      affects a later read. */
  lemma StreamDeltasAppend(parse: Parser, a: seq<string>, b: seq<string>)
    ensures StreamDeltas(parse, a + b) == StreamDeltas(parse, a) + StreamDeltas(parse, b)
  {
    EachReadAppend(chunk => ChunkDeltas(parse, chunk), a, b);
  }

  /** The final text of reads `a + b` is the text of `a` followed by the text of `b`. */
  lemma StreamTextAppend(parse: Parser, a: seq<string>, b: seq<string>)
    ensures Concat(StreamDeltas(parse, a + b)) == Concat(StreamDeltas(parse, a)) + Concat(StreamDeltas(parse, b))
  {
    StreamDeltasAppend(parse, a, b);
    ConcatAppend(StreamDeltas(parse, a), StreamDeltas(parse, b));
  }

  /** A parser that reads every payload as a record with that content. */
  function EchoParser(payload: string): Option<StreamChunk> {
    Some(StreamChunk(payload, false))
  }

  /** With no buffer across reads, a record split between two reads is lost:
      one read `data: hi` yields "hi", the reads `da` and `ta: hi` yield nothing. */
  lemma SplitRecordIsLost()
    ensures Concat(StreamDeltas(EchoParser, ["data: hi"])) == "hi"
    ensures Concat(StreamDeltas(EchoParser, ["da", "ta: hi"])) == ""
  {
    WholeRecordRead();
    NonDataRead("da");
    NonDataRead("ta: hi");
    StreamDeltasAppend(EchoParser, ["da"], ["ta: hi"]);
    assert ["da"] + ["ta: hi"] == ["da", "ta: hi"];
  }

  lemma WholeRecordRead()
    ensures StreamDeltas(EchoParser, ["data: hi"]) == ["hi"]
  {
    var line: string := "data: hi";
    assert line == DataPrefix + "hi";
    ContentLineAppends(EchoParser, "hi", "hi", []);
    assert [line] + [] == [line];
    assert LineDeltas(EchoParser, []) == [];
    OneLineChunk(EchoParser, line);
    StreamDeltasOfOneRead(EchoParser, line);
  }

  lemma NonDataRead(chunk: string)
    requires chunk == "da" || chunk == "ta: hi"
    ensures StreamDeltas(EchoParser, [chunk]) == []
  {
    OneLineChunk(EchoParser, chunk);
    StreamDeltasOfOneRead(EchoParser, chunk);
    assert !StartsWith(chunk, DataPrefix) by {
      if chunk == "ta: hi" {
        assert chunk[0] != DataPrefix[0];
      }
    }
  }

  /** A read holding one non-blank line and no line break is that one line. */
  lemma OneLineChunk(parse: Parser, chunk: string)
    requires '\n' !in chunk && chunk != [] && !IsWhitespace(chunk[0])
    ensures ChunkDeltas(parse, chunk) == LineDeltas(parse, [chunk])
  {
    SplitNoSeparator(chunk, '\n');
    assert HasText(chunk);
    assert EventLines(chunk) == [chunk];
  }

  // ---------------------------------------------------------------------------
  // Streaming mode: the session and streamChatResponse
  // ---------------------------------------------------------------------------

  /** The name of a caught error: an abort, or anything else. */
  datatype ErrorName = AbortError | OtherError

  /** How the body reader ends: `done`, or a rejected read. */
  datatype StreamEnd = Done | ReadRejected(error: ErrorName)

  /** What `fetch` yields in streaming mode: a rejection, or a status, whether
      the response has a body, the chunks the reader yields and how it ends. */
  datatype StreamResponse =
    | FetchRejected(error: ErrorName)
    | Received(ok: bool, hasBody: bool, chunks: seq<string>, end: StreamEnd)

  const StoppedText: string := "Message generation stopped."
  const StreamErrorText: string := "Sorry, I encountered an error while connecting to the local LLM."

  /** The outer `catch`: an abort gives the fixed stop sentence, any other error
      the fixed connection-error sentence. */
  function CaughtText(error: ErrorName): string {
    if error == AbortError then StoppedText else StreamErrorText
  }

  /** The read loop runs only on an ok response that has a body. */
  predicate ReadsBody(response: StreamResponse) {
    response.Received? && response.ok && response.hasBody
  }

  /** The string `streamChatResponse` resolves to. */
  function StreamResult(parse: Parser, response: StreamResponse): string {
    match response
    case FetchRejected(error) => CaughtText(error)
    case Received(ok, hasBody, chunks, end) =>
      if !ok || !hasBody then StreamErrorText
      else match end
        case Done => Concat(StreamDeltas(parse, chunks))
        case ReadRejected(error) => CaughtText(error)
  }

  /** The `onChunk` arguments, in call order. */
  function OnChunkCalls(parse: Parser, response: StreamResponse): seq<string> {
    if ReadsBody(response) then Partials("", StreamDeltas(parse, response.chunks)) else []
  }

  /** Every `onChunk` argument strictly extends the previous one, and when the
      reader reports `done` the result is the last argument (or "" if there was
      no call). */
  lemma OnChunkMonotone(parse: Parser, response: StreamResponse)
    ensures ExtendsStrictly("", OnChunkCalls(parse, response))
    ensures ReadsBody(response) && response.end.Done? ==>
      var calls := OnChunkCalls(parse, response);
      StreamResult(parse, response) == if calls == [] then "" else calls[|calls| - 1]
  {
    if ReadsBody(response) {
      var deltas := StreamDeltas(parse, response.chunks);
      StreamDeltasNonEmpty(parse, response.chunks);
      PartialsExtend("", deltas);
      assert "" + Concat(deltas) == Concat(deltas);
    }
  }

  /** An abort after partial output discards it: `onChunk` has shown the partial
      text, yet the result is the fixed stop sentence. */
  lemma AbortDiscardsPartialText(parse: Parser, chunks: seq<string>)
    ensures var response := Received(true, true, chunks, ReadRejected(AbortError));
            && StreamResult(parse, response) == StoppedText
            && OnChunkCalls(parse, response) == Partials("", StreamDeltas(parse, chunks))
  {
  }

  /** The session state of one streaming call. */
  class StreamSession {
    const parse: Parser
    var accumulatedText: string
    /** The contents appended so far, in order. */
    ghost var deltas: seq<string>
    /** The arguments passed to `onChunk` so far, in order. */
    ghost var onChunkCalls: seq<string>

    ghost predicate Valid()
      reads this
    {
      && (forall k :: 0 <= k < |deltas| ==> deltas[k] != "")
      && accumulatedText == Concat(deltas)
      && onChunkCalls == Partials("", deltas)
    }

    constructor (parse: Parser)
      ensures Valid() && this.parse == parse
      ensures accumulatedText == "" && deltas == [] && onChunkCalls == []
    {
      this.parse := parse;
      accumulatedText := "";
      deltas := [];
      onChunkCalls := [];
    }

    /** `accumulatedText += content; onChunk(accumulatedText)`. */
    method Append(content: string)
      requires Valid() && content != ""
      modifies this
      ensures Valid()
      ensures accumulatedText == old(accumulatedText) + content
      ensures deltas == old(deltas) + [content]
      ensures onChunkCalls == old(onChunkCalls) + [accumulatedText]
    {
      ConcatAppend(deltas, [content]);
      PartialsAppend("", deltas, [content]);
      var acc := Concat(deltas);
      assert "" + acc == acc;
      assert Concat([content]) == content;
      assert [content][1..] == [];
      assert Partials(acc, [content]) == [acc + content];
      accumulatedText := accumulatedText + content;
      deltas := deltas + [content];
      onChunkCalls := onChunkCalls + [accumulatedText];
    }

    /** The `while (true)` read loop up to `done` or a rejected read: each
        chunk is processed on its own, in order. */
    method ReadLoop(chunks: seq<string>)
      requires Valid()
      modifies this
      ensures Valid()
      ensures deltas == old(deltas) + StreamDeltas(parse, chunks)
    {
      var k := 0;
      while k < |chunks|
        invariant 0 <= k <= |chunks|
        invariant Valid()
        invariant deltas == old(deltas) + StreamDeltas(parse, chunks[..k])
      {
        StreamDeltasSnoc(parse, chunks, k);
        AppendAssoc(old(deltas), StreamDeltas(parse, chunks[..k]), ChunkDeltas(parse, chunks[k]));
        ProcessChunk(chunks[k]);
        k := k + 1;
      }
      assert chunks[..k] == chunks;
    }

    /** One iteration of the read loop: split the chunk into its non-blank
        lines and process them. */
    method ProcessChunk(chunk: string)
      requires Valid()
      modifies this
      ensures Valid()
      ensures deltas == old(deltas) + ChunkDeltas(parse, chunk)
    {
      var lines := EventLines(chunk);
      ProcessLines(lines);
    }

    /** The inner `for` loop over one chunk's lines, inside its one `try`:
        it stops at the first line whose iteration does not go on. */
    method ProcessLines(lines: seq<string>)
      requires Valid()
      modifies this
      ensures Valid()
      ensures deltas == old(deltas) + LineDeltas(parse, lines)
    {
      ghost var added: seq<string> := [];
      var i := 0;
      while i < |lines|
        invariant 0 <= i <= |lines|
        invariant Valid()
        invariant deltas == old(deltas) + added
        invariant LineDeltas(parse, lines) == added + LineDeltas(parse, lines[i..])
      {
        ghost var effect := LineEffectOf(parse, lines[i]);
        LinesFrom(parse, lines, i);
        var goOn := ProcessLine(lines[i]);
        AppendAssoc(old(deltas), added, effect.appended);
        if !goOn {
          AppendAssoc(added, effect.appended, []);
          added := added + effect.appended;
          break;
        }
        AppendAssoc(added, effect.appended, LineDeltas(parse, lines[i + 1..]));
        added := added + effect.appended;
        i := i + 1;
      }
    }

    /** One iteration of the `for` loop: a line without the `data: ` prefix is
        skipped (`continue`); otherwise the text after the prefix is parsed, a
        failed parse ends the loop (the `catch` around it), a record's non-empty
        content is appended, and a `stop` record ends the loop (`break`). */
    method ProcessLine(line: string) returns (goOn: bool)
      requires Valid()
      modifies this
      ensures Valid()
      ensures deltas == old(deltas) + LineEffectOf(parse, line).appended
      ensures goOn == LineEffectOf(parse, line).goOn
    {
      if !StartsWith(line, DataPrefix) {
        return true;
      }
      var message := parse(line[6..]);
      if message.None? {
        // JSON.parse threw
        return false;
      }
      if message.value.content != "" {
        Append(message.value.content);
      } else {
        assert deltas == old(deltas) + [];
      }
      goOn := !message.value.stop;
    }
  }

  /** What one line does to the loop: the contents it appends and whether the
      loop goes on to the next line. */
  datatype LineEffect = LineEffect(appended: seq<string>, goOn: bool)

  /** A line appends at most one content, never an empty one, and only a data
      line can end the loop. */
  function LineEffectOf(parse: Parser, line: string): (effect: LineEffect)
    ensures effect.appended == [] || (|effect.appended| == 1 && effect.appended[0] != "")
    ensures !effect.goOn ==> StartsWith(line, DataPrefix)
  {
    if !StartsWith(line, DataPrefix) then LineEffect([], true)
    else match parse(line[6..])
      case None => LineEffect([], false)
      case Some(record) => LineEffect(Delta(record), !record.stop)
  }

  /** The contents of the lines from `i` on are those of line `i`, then, when
      the loop goes on, those of the lines after it. */
  lemma LinesFrom(parse: Parser, lines: seq<string>, i: nat)
    requires i < |lines|
    ensures var effect := LineEffectOf(parse, lines[i]);
      LineDeltas(parse, lines[i..])
        == effect.appended + (if effect.goOn then LineDeltas(parse, lines[i + 1..]) else [])
  {
    assert lines[i..][0] == lines[i];
    assert lines[i..][1..] == lines[i + 1..];
    if !StartsWith(lines[i], DataPrefix) {
      assert [] + LineDeltas(parse, lines[i + 1..]) == LineDeltas(parse, lines[i + 1..]);
    } else if parse(lines[i][6..]).Some? && parse(lines[i][6..]).value.stop {
      assert Delta(parse(lines[i][6..]).value) + [] == Delta(parse(lines[i][6..]).value);
    }
  }

  lemma AppendAssoc<T>(a: seq<T>, b: seq<T>, c: seq<T>)
    ensures a + (b + c) == a + b + c
    ensures a + b + [] == a + b
  {
  }

  /** The text and the `onChunk` log after further contents are appended. */
  lemma LogAppend(deltas0: seq<string>, text0: string, calls0: seq<string>, added: seq<string>,
                  deltas: seq<string>, text: string, calls: seq<string>)
    requires text0 == Concat(deltas0) && calls0 == Partials("", deltas0)
    requires deltas == deltas0 + added && text == Concat(deltas) && calls == Partials("", deltas)
    ensures text == text0 + Concat(added)
    ensures calls == calls0 + Partials(text0, added)
  {
    ConcatAppend(deltas0, added);
    PartialsAppend("", deltas0, added);
    assert "" + Concat(deltas0) == Concat(deltas0);
  }

  /** `streamChatResponse`: builds the streaming payload, sends it, runs the read
      loop over every chunk and classifies the outcome. The result and the
      `onChunk` calls are those of `StreamResult` and `OnChunkCalls`. */
  method StreamChatResponse(messages: seq<Message>, parse: Parser, server: LlamaRequest -> StreamResponse)
    returns (result: string, session: StreamSession)
    ensures fresh(session) && session.Valid() && session.parse == parse
    ensures result == StreamResult(parse, server(BuildRequest(messages, true)))
    ensures session.onChunkCalls == OnChunkCalls(parse, server(BuildRequest(messages, true)))
  {
    var payload := BuildRequest(messages, true);
    session := new StreamSession(parse);
    var response := server(payload);
    if response.FetchRejected? {
      return CaughtText(response.error), session;
    }
    if !response.ok || !response.hasBody {
      // `API error` or `ReadableStream not supported`: not an abort
      return StreamErrorText, session;
    }
    session.ReadLoop(response.chunks);
    assert session.deltas == StreamDeltas(parse, response.chunks);
    if response.end.Done? {
      result := session.accumulatedText;
    } else {
      result := CaughtText(response.end.error);
    }
  }
}
