/**
 The chat panel of the task pane: the send guard, the turns a send appends,
 the `[INSERT]` marker that asks for text to be put into the document, the
 reset after every send, the Stop action and the Send/Stop button.
 */
module TextInsertion {
  import opened Wrappers
  import opened JsString
  import opened LlamaApiService

  /** The assistant turn the panel starts with. */
  const Greeting: string := "Hello! I'm Local Pilot powered by Your Local LLM. How can I help you today?"
  /** The assistant turn appended when the host rejects the insertion. */
  const ErrorReply: string := "Sorry, I encountered an error. Please try again."

  const OpenTag: string := "[INSERT]"
  const CloseTag: string := "[/INSERT]"

  // ---------------------------------------------------------------------------
  // The insert marker
  // ---------------------------------------------------------------------------

  /** The lazy match of `open`, then any text, then `close`: nothing when
      `open` does not occur; otherwise the trimmed text between the first
      `open` and the nearest `close` after it, or `fallback` when no `close`
      follows that `open` (then none follows any later `open` either, so the
      match fails as a whole). */
  function Tagged(response: string, open: string, close: string, fallback: string): Option<string> {
    match IndexOf(response, open, 0)
    case None => None
    case Some(i) =>
      match IndexOf(response, close, i + |open|)
      case None => Some(fallback)
      case Some(j) => Some(Trim(response[i + |open|..j]))
  }

  /** What a finished response asks to insert, if anything: `Tagged` for the
      tags `[INSERT]` and `[/INSERT]`, falling back on the user's own text
      (`/\[INSERT\]([\s\S]*?)\[\/INSERT\]/` behind an `includes("[INSERT]")`
      test, which is the first search of `Tagged` finding the open tag). */
  function ExtractInsert(response: string, userText: string): Option<string> {
    Tagged(response, OpenTag, CloseTag, userText)
  }

  lemma TaggedIffOpen(response: string, open: string, close: string, fallback: string)
    ensures Tagged(response, open, close, fallback).Some? <==> exists i: nat :: OccursAt(response, open, i)
  {
    IndexOfSpec(response, open, 0);
    if i: nat :| OccursAt(response, open, i) {
      assert IndexOf(response, open, 0).Some?;
    }
  }

  /** Insertion is attempted exactly when `[INSERT]` occurs somewhere in the response. */
  lemma InsertOnlyWithOpenTag(response: string, userText: string)
    ensures ExtractInsert(response, userText).Some? <==> exists i: nat :: OccursAt(response, OpenTag, i)
  {
    TaggedIffOpen(response, OpenTag, CloseTag, userText);
  }

  lemma TaggedBetween(pre: string, open: string, inner: string, close: string, post: string, fallback: string)
    requires NoOccurrenceIn(pre + open, open, 0, |pre|)
    requires NoOccurrenceIn(inner + close, close, 0, |inner|)
    ensures Tagged(pre + open + inner + close + post, open, close, fallback) == Some(Trim(inner))
  {
    var s := pre + open + inner + close + post;
    FirstOpen(pre, open, inner, close, post);
    NearestClose(pre, open, inner, close, post);
    InnerSlice(pre + open, inner, close + post);
    assert s == (pre + open) + inner + (close + post);
    TaggedAt(s, open, close, fallback, |pre|, |pre| + |open| + |inner|);
  }

  lemma InnerSlice(a: string, m: string, c: string)
    ensures (a + m + c)[|a|..|a| + |m|] == m
  {
  }

  /** `Tagged` once both searches are known. */
  lemma TaggedAt(s: string, open: string, close: string, fallback: string, i: nat, j: nat)
    requires IndexOf(s, open, 0) == Some(i)
    requires IndexOf(s, close, i + |open|) == Some(j)
    ensures Tagged(s, open, close, fallback) == Some(Trim(s[i + |open|..j]))
  {
  }

  lemma FirstOpen(pre: string, open: string, inner: string, close: string, post: string)
    requires NoOccurrenceIn(pre + open, open, 0, |pre|)
    ensures IndexOf(pre + open + inner + close + post, open, 0) == Some(|pre|)
  {
    var withOpen := pre + open;
    var withInner := withOpen + inner;
    var withClose := withInner + close;
    var s := withClose + post;
    forall k: nat | k <= |pre|
      ensures OccursAt(s, open, k) <==> OccursAt(withOpen, open, k)
    {
      OccursInPrefix(withClose, post, open, k);
      OccursInPrefix(withInner, close, open, k);
      OccursInPrefix(withOpen, inner, open, k);
    }
    OccursAfterPrefix(pre, open, open, 0);
    assert open[0..|open|] == open;
    IndexOfFinds(s, open, 0, |pre|);
  }

  lemma NearestClose(pre: string, open: string, inner: string, close: string, post: string)
    requires NoOccurrenceIn(inner + close, close, 0, |inner|)
    ensures IndexOf(pre + open + inner + close + post, close, |pre| + |open|)
      == Some(|pre| + |open| + |inner|)
  {
    var withOpen := pre + open;
    var withInner := withOpen + inner;
    var withClose := withInner + close;
    var s := withClose + post;
    var b := |withOpen|;
    forall k: nat | b <= k < b + |inner|
      ensures !OccursAt(s, close, k)
    {
      OccursInPrefix(withClose, post, close, k);
      OccursAfterPrefixAssoc(withOpen, inner, close, close, k - b);
    }
    OccursInPrefix(withClose, post, close, b + |inner|);
    OccursAfterPrefix(withInner, close, close, 0);
    assert close[0..|close|] == close;
    IndexOfFinds(s, close, b, b + |inner|);
  }

  /** A response `pre [INSERT] inner [/INSERT] post`, where the shown `[INSERT]`
      is the first and the shown `[/INSERT]` the nearest after it, inserts
      `inner` trimmed. */
  lemma InsertBetweenTags(pre: string, inner: string, post: string, userText: string)
    requires NoOccurrenceIn(pre + OpenTag, OpenTag, 0, |pre|)
    requires NoOccurrenceIn(inner + CloseTag, CloseTag, 0, |inner|)
    ensures ExtractInsert(pre + OpenTag + inner + CloseTag + post, userText) == Some(Trim(inner))
  {
    TaggedBetween(pre, OpenTag, inner, CloseTag, post, userText);
  }

  lemma TaggedFallback(pre: string, open: string, rest: string, close: string, fallback: string)
    requires NoOccurrenceIn(pre + open, open, 0, |pre|)
    requires forall k: nat :: !OccursAt(rest, close, k)
    ensures Tagged(pre + open + rest, open, close, fallback) == Some(fallback)
  {
    var head := pre + open;
    IndexOfShown(pre, open, rest, 0);
    var r := IndexOf(head + rest, close, |head|);
    IndexOfSpec(head + rest, close, |head|);
    if r.Some? {
      OccursAfterPrefix(head, rest, close, r.value - |head|);
      assert false;
    }
  }

  /** A response `pre [INSERT] rest`, with the shown `[INSERT]` the first and no
      `[/INSERT]` in `rest`, inserts the user's own text. */
  lemma InsertFallsBackToUserText(pre: string, rest: string, userText: string)
    requires NoOccurrenceIn(pre + OpenTag, OpenTag, 0, |pre|)
    requires forall k: nat :: !OccursAt(rest, CloseTag, k)
    ensures ExtractInsert(pre + OpenTag + rest, userText) == Some(userText)
  {
    TaggedFallback(pre, OpenTag, rest, CloseTag, userText);
  }

  /** Every string in which `open` occurs has one of the two shapes above: its
      first `open` either has a nearest `close` after it or none. */
  lemma TagShapes(response: string, open: string, close: string)
    requires exists i: nat :: OccursAt(response, open, i)
    ensures exists pre, rest ::
      && response == pre + open + rest
      && NoOccurrenceIn(pre + open, open, 0, |pre|)
      && ((forall k: nat :: !OccursAt(rest, close, k))
          || exists inner, post ::
               && rest == inner + close + post
               && NoOccurrenceIn(inner + close, close, 0, |inner|))
  {
    var pre, rest := FirstSplit(response, open);
    if k: nat :| OccursAt(rest, close, k) {
      var inner, post := FirstSplit(rest, close);
    }
  }

  /** Splits `s` around the first occurrence of `pat`. */
  lemma FirstSplit(s: string, pat: string) returns (before: string, after: string)
    requires exists i: nat :: OccursAt(s, pat, i)
    ensures s == before + pat + after
    ensures NoOccurrenceIn(before + pat, pat, 0, |before|)
  {
    IndexOfSpec(s, pat, 0);
    var i := IndexOf(s, pat, 0).value;
    var e := i + |pat|;
    before, after := s[..i], s[e..];
    assert s[i..e] == pat;
    assert s == s[..i] + s[i..e] + s[e..];
    forall k: nat | k < |before|
      ensures !OccursAt(before + pat, pat, k)
    {
      OccursInPrefix(before + pat, after, pat, k);
    }
  }

  // ---------------------------------------------------------------------------
  // The send guard and the Send/Stop button
  // ---------------------------------------------------------------------------

  /** The guard of `handleSendMessage`: the input is not blank once trimmed and
      no stream is in progress. */
  predicate SendAllowed(inputText: string, isStreaming: bool) {
    Trim(inputText) != "" && !isStreaming
  }

  /** The guard lets a send through exactly when nothing streams and the input
      holds a character that is not whitespace. */
  lemma SendAllowedIffText(inputText: string, isStreaming: bool)
    ensures SendAllowed(inputText, isStreaming) <==>
      !isStreaming && exists k :: 0 <= k < |inputText| && !IsWhitespace(inputText[k])
  {
    TrimEmptyIffBlank(inputText);
  }

  datatype ButtonAction = SendAction | StopAction

  /** The one button under the input: what a click does, whether it is enabled
      and its label. */
  datatype ButtonState = ButtonState(action: ButtonAction, enabled: bool, caption: string)

  function Button(isStreaming: bool, inputText: string): ButtonState {
    ButtonState(
      if isStreaming then StopAction else SendAction,
      if isStreaming then true else Trim(inputText) != "",
      if isStreaming then "Stop" else "")
  }

  /** While streaming the button is an enabled Stop; otherwise it is Send, and
      it is enabled exactly when the send guard would let the click through. */
  lemma ButtonRule(isStreaming: bool, inputText: string)
    ensures var b := Button(isStreaming, inputText);
      && (b.action == StopAction <==> isStreaming)
      && (isStreaming ==> b.enabled && b.caption == "Stop")
      && (!isStreaming ==> (b.enabled <==> SendAllowed(inputText, isStreaming)))
      && (b.enabled <==> isStreaming || !AllWhitespace(inputText))
  {
    TrimEmptyIffBlank(inputText);
  }

  // ---------------------------------------------------------------------------
  // The panel
  // ---------------------------------------------------------------------------

  /** `abortControllerRef.current`: none, or a controller that may have been aborted. */
  datatype Controller = NoController | Controller(aborted: bool)

  /** The error turn the `catch` appends: one when the host rejected the
      insertion that was attempted, none otherwise. */
  function ErrorTurn(toInsert: Option<string>, hostRejects: bool): seq<Message> {
    if toInsert.Some? && hostRejects then [Message(ErrorReply, false)] else []
  }

  /** The host `insertText` call a reply leads to, if any. */
  function InsertCall(toInsert: Option<string>): seq<string> {
    match toInsert
    case None => []
    case Some(text) => [text]
  }

  /** The turns a send appends after the history: the user's turn, the reply,
      and the error turn when the host rejected the insertion it was asked for. */
  function SendTurns(userText: string, reply: string, hostRejects: bool): seq<Message> {
    [Message(userText, true), Message(reply, false)] + ErrorTurn(ExtractInsert(reply, userText), hostRejects)
  }

  /** A send appends the user's turn first and the reply second, then at most
      one error turn, which happens only when an insertion was attempted. */
  lemma SendTurnsOrder(userText: string, reply: string, hostRejects: bool)
    ensures var turns := SendTurns(userText, reply, hostRejects);
      && 2 <= |turns| <= 3
      && turns[0] == Message(userText, true)
      && turns[1] == Message(reply, false)
      && (|turns| == 3 <==> hostRejects && ExtractInsert(reply, userText).Some?)
      && (|turns| == 3 ==> turns[2] == Message(ErrorReply, false))
      && forall k :: 1 <= k < |turns| ==> !turns[k].isUser
  {
  }

  /** The state of the `TextInsertion` component. */
  class ChatPanel {
    var inputText: string
    var messages: seq<Message>
    var isStreaming: bool
    var streamedText: string
    var controller: Controller
    /** The arguments of the host `insertText` calls so far, in order. */
    ghost var insertCalls: seq<string>
    /** The values `streamedText` took during the last stream, in order. */
    ghost var shownDuringStream: seq<string>

    /** A stream is in progress exactly when a controller exists, and the
        streamed text is empty whenever no stream is in progress. */
    ghost predicate Valid()
      reads this
    {
      && (isStreaming <==> controller.Controller?)
      && (!isStreaming ==> streamedText == "")
    }

    constructor ()
      ensures Valid()
      ensures inputText == "" && messages == [Message(Greeting, false)]
      ensures !isStreaming && streamedText == "" && controller == NoController
      ensures insertCalls == [] && shownDuringStream == []
    {
      inputText := "";
      messages := [Message(Greeting, false)];
      isStreaming := false;
      streamedText := "";
      controller := NoController;
      insertCalls := [];
      shownDuringStream := [];
    }

    /** `handleTextChange`: the text area's new value. */
    method HandleTextChange(value: string)
      requires Valid()
      modifies this
      ensures Valid()
      ensures inputText == value
      ensures messages == old(messages) && isStreaming == old(isStreaming)
      ensures streamedText == old(streamedText) && controller == old(controller)
      ensures insertCalls == old(insertCalls) && shownDuringStream == old(shownDuringStream)
    {
      inputText := value;
    }

    /** `handleSendMessage` up to its `await`: the guard, the user's turn, the
        cleared input and the streaming flags with a fresh controller. */
    method BeginSend() returns (userMessage: Option<Message>)
      requires Valid()
      modifies this
      ensures Valid()
      ensures userMessage.Some? <==> SendAllowed(old(inputText), old(isStreaming))
      ensures userMessage.None? ==>
        && inputText == old(inputText) && messages == old(messages)
        && isStreaming == old(isStreaming) && streamedText == old(streamedText)
        && controller == old(controller)
      ensures userMessage.Some? ==>
        && userMessage.value == Message(old(inputText), true)
        && messages == old(messages) + [userMessage.value]
        && inputText == "" && isStreaming && streamedText == ""
        && controller == Controller(false)
      ensures insertCalls == old(insertCalls) && shownDuringStream == old(shownDuringStream)
    {
      if Trim(inputText) == "" || isStreaming {
        return None;
      }
      userMessage := Some(Message(inputText, true));
      messages := messages + [userMessage.value];
      inputText := "";
      isStreaming := true;
      streamedText := "";
      controller := Controller(false);
    }

    /** `handleSendMessage` after its `await`: the reply turn, the insertion the
        reply asks for (whose host call may reject), the error turn when it
        does, and the `finally` reset. */
    method FinishSend(userText: string, fullResponse: string, hostRejects: bool)
      requires Valid()
      modifies this
      ensures Valid()
      ensures messages == old(messages) + [Message(fullResponse, false)]
        + ErrorTurn(ExtractInsert(fullResponse, userText), hostRejects)
      ensures insertCalls == old(insertCalls) + InsertCall(ExtractInsert(fullResponse, userText))
      ensures !isStreaming && streamedText == "" && controller == NoController
      ensures inputText == old(inputText) && shownDuringStream == old(shownDuringStream)
    {
      messages := messages + [Message(fullResponse, false)];
      ghost var withReply := messages;
      var toInsert := ExtractInsert(fullResponse, userText);
      if toInsert.Some? {
        insertCalls := insertCalls + [toInsert.value];
        if hostRejects {
          // the awaited `insertText` rejected: the `catch` appends the error turn
          messages := messages + [Message(ErrorReply, false)];
        } else {
          assert messages == withReply + [];
        }
      } else {
        assert messages == withReply + [];
        assert insertCalls == old(insertCalls) + [];
      }
      // finally
      isStreaming := false;
      streamedText := "";
      controller := NoController;
    }

    /** `handleSendMessage` as a whole: a blocked send changes nothing; a send
        that passes the guard streams the history plus the user's turn, appends
        the turns of `SendTurns`, performs the insertion the reply asks for and
        ends with the flags reset. */
    method HandleSendMessage(parse: Parser, server: LlamaRequest -> StreamResponse, hostRejects: bool)
      returns (sent: bool)
      requires Valid()
      modifies this
      ensures Valid()
      ensures sent <==> SendAllowed(old(inputText), old(isStreaming))
      ensures !sent ==>
        && inputText == old(inputText) && messages == old(messages)
        && isStreaming == old(isStreaming) && streamedText == old(streamedText)
        && controller == old(controller)
        && insertCalls == old(insertCalls) && shownDuringStream == old(shownDuringStream)
      ensures sent ==>
        var response := server(BuildRequest(old(messages) + [Message(old(inputText), true)], true));
        var reply := StreamResult(parse, response);
        && messages == old(messages) + SendTurns(old(inputText), reply, hostRejects)
        && insertCalls == old(insertCalls) + InsertCall(ExtractInsert(reply, old(inputText)))
        && shownDuringStream == OnChunkCalls(parse, response)
        && inputText == "" && !isStreaming && streamedText == "" && controller == NoController
    {
      ghost var history, userText := messages, inputText;
      var userMessage := BeginSend();
      if userMessage.None? {
        return false;
      }
      assert messages == history + [Message(userText, true)];
      ghost var response := server(BuildRequest(messages, true));
      var fullResponse, session := StreamChatResponse(messages, parse, server);
      assert fullResponse == StreamResult(parse, response);
      // `onChunk` is `setStreamedText`
      shownDuringStream := session.onChunkCalls;
      streamedText := session.accumulatedText;
      ghost var withUser := messages;
      FinishSend(userMessage.value.text, fullResponse, hostRejects);
      sent := true;
      ghost var extra := ErrorTurn(ExtractInsert(fullResponse, userText), hostRejects);
      assert messages == withUser + [Message(fullResponse, false)] + extra;
      assert SendTurns(userText, fullResponse, hostRejects) == [Message(userText, true), Message(fullResponse, false)] + extra;
      assert messages == history + SendTurns(userText, fullResponse, hostRejects);
    }

    /** `handleStopGeneration`: aborts the controller when there is one. */
    method HandleStopGeneration() returns (aborted: bool)
      requires Valid()
      modifies this
      ensures Valid()
      ensures aborted <==> old(controller).Controller?
      ensures controller == if aborted then Controller(true) else NoController
      ensures inputText == old(inputText) && messages == old(messages)
      ensures isStreaming == old(isStreaming) && streamedText == old(streamedText)
      ensures insertCalls == old(insertCalls) && shownDuringStream == old(shownDuringStream)
    {
      aborted := controller.Controller?;
      if aborted {
        controller := Controller(true);
      }
    }
  }
}
