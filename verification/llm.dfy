/** LLMHelper.chat: a chat-style prompt is assembled from a system
    instruction and the conversation so far, the language model continues
    it, and the reply is cut out of the generated text. The tokenizer and
    the model are one opaque function `generate` from prompt to decoded
    text; sampling parameters do not appear. */
module Llm {
  import opened Text

  /** One history entry, `{"role": ..., "content": ...}`. */
  datatype Turn = Turn(role: string, content: string)

  const UserRole := "user"
  const AssistantRole := "assistant"

  /** The marker before every assistant turn, and the prompt's last word. */
  const Marker := "Assistant:"

  /** The default system instruction of the helper's constructor. */
  const DefaultSystemInstruction :=
    "You are a helpful landscape architecture assistant that designs a game. "
    + "Your goal is to give a prompt for generating a 2D pixel game stage design. "
    + "The prompt will be used for generating art with a text to image model. "
    + "Remember that you should generate a top-view, satellite view image for the pixel game. "
    + "Only give me prompt sentence for generating the scene. Add no other instructions or title."

  /** The line one turn contributes: a "User: " line for the user role and
      an "Assistant: " line for any other role. */
  function Line(t: Turn): string
  {
    if t.role == UserRole then "User: " + t.content + "\n"
    else "Assistant: " + t.content + "\n"
  }

  /** The lines of a history, in order. */
  function Transcript(h: seq<Turn>): string
  {
    if h == [] then "" else Line(h[0]) + Transcript(h[1..])
  }

  /** The whole prompt: the system line, the transcript and a final
      "Assistant:" inviting the next turn. */
  function Prompt(system: string, h: seq<Turn>): string
  {
    SystemLine(system) + Transcript(h) + Marker
  }

  /** The prompt's first line. */
  function SystemLine(system: string): string
  {
    "System: " + system + "\n"
  }

  /** The transcript of two histories one after the other is the one
      transcript followed by the other. */
  lemma {:induction false} TranscriptAppend(a: seq<Turn>, b: seq<Turn>)
    ensures Transcript(a + b) == Transcript(a) + Transcript(b)
    decreases |a|
  {
    if a == [] {
      assert a + b == b;
    } else {
      assert (a + b)[1..] == a[1..] + b;
      assert (a + b)[0] == a[0];
      TranscriptAppend(a[1..], b);
    }
  }

  /** Adding a turn at the end adds its line at the end. */
  lemma TranscriptSnoc(h: seq<Turn>, t: Turn)
    ensures Transcript(h + [t]) == Transcript(h) + Line(t)
  {
    TranscriptAppend(h, [t]);
    assert [t][1..] == [];
  }

  /** One step of the prompt-building loop: the prefix built so far plus
      turn i's line is the prefix for the first i + 1 turns. */
  lemma {:induction false} BuildStep(header: string, h: seq<Turn>, i: nat)
    requires i < |h|
    ensures header + Transcript(h[..i]) + Line(h[i]) == header + Transcript(h[..i + 1])
  {
    assert h[..i + 1] == h[..i] + [h[i]];
    TranscriptSnoc(h[..i], h[i]);
  }

  /** The prompt-building loop as written: start from the system line, add
      one line per turn, then the marker. */
  method BuildPrompt(system: string, h: seq<Turn>) returns (prompt: string)
    ensures prompt == Prompt(system, h)
  {
    var header := SystemLine(system);
    prompt := header;
    var i := 0;
    while i < |h|
      invariant 0 <= i <= |h|
      invariant prompt == header + Transcript(h[..i])
    {
      BuildStep(header, h, i);
      prompt := prompt + Line(h[i]);
      i := i + 1;
    }
    assert h[..i] == h;
    prompt := prompt + Marker;
  }

  /** Every prompt opens with the system line and closes with the marker. */
  lemma PromptShape(system: string, h: seq<Turn>)
    ensures var p := Prompt(system, h);
            && StartsWith(p, "System: " + system + "\n")
            && |p| >= |Marker| && p[|p| - |Marker|..] == Marker
  {
    var header := SystemLine(system);
    var p := Prompt(system, h);
    assert p == header + (Transcript(h) + Marker);
    assert p[..|header|] == header;
  }

  /** The reply cut out of the generated text: what follows the last
      "Assistant:", stripped, when the marker occurs; the whole text, not
      stripped, otherwise. */
  function Extract(generated: string): string
  {
    if Contains(generated, Marker) then Strip(LastPiece(generated, Marker)) else generated
  }

  /** What one call of chat produces: the prompt given to the model, the
      returned reply and the history kept afterwards. */
  datatype Exchange = Exchange(prompt: string, reply: string, history: seq<Turn>)

  /** chat as written: push the user turn, build the prompt, pop the user
      turn again, generate, extract, drop double quotes, push the reply as
      an assistant turn. */
  function Chat(system: string, history: seq<Turn>, message: string, generate: string -> string): (r: Exchange)
    ensures r.prompt == Prompt(system, history + [Turn(UserRole, message)])
    ensures r.reply == RemoveAll(Extract(generate(r.prompt)), '"')
    ensures r.history == history + [Turn(AssistantRole, r.reply)]
    ensures r.history[|r.history| - 1].content == r.reply
    ensures '"' !in r.reply
  {
    var pushed := history + [Turn(UserRole, message)];
    var prompt := Prompt(system, pushed);
    var popped := pushed[..|pushed| - 1];
    assert popped == history;
    var reply := RemoveAll(Extract(generate(prompt)), '"');
    Exchange(prompt, reply, popped + [Turn(AssistantRole, reply)])
  }

  /** The prompt of a call is the system line, one line per earlier turn,
      the new message as the last user line, and the marker. */
  lemma PromptEndsWithMessage(system: string, history: seq<Turn>, message: string)
    ensures Prompt(system, history + [Turn(UserRole, message)])
            == SystemLine(system) + Transcript(history) + ("User: " + message + "\n") + Marker
  {
    var user := Turn(UserRole, message);
    TranscriptSnoc(history, user);
    assert Line(user) == "User: " + message + "\n";
  }

  /** The reply (before its quotes are dropped) is the generated text after
      its last marker, stripped; without a marker it is the whole generated
      text. */
  lemma ExtractFollowsLastMarker(g: string)
    ensures Contains(g, Marker) ==>
              exists tail :: |tail| + |Marker| <= |g| && g[|g| - |tail|..] == tail
                             && g[|g| - |tail| - |Marker|..|g| - |tail|] == Marker
                             && !Contains(tail, Marker)
                             && Extract(g) == Strip(tail)
    ensures !Contains(g, Marker) ==> Extract(g) == g
  {
    if Contains(g, Marker) {
      var tail := LastPiece(g, Marker);
      assert Extract(g) == Strip(tail);
      LastPieceFollowsSeparator(g, Marker);
      assert OccursAt(g, Marker, |g| - |tail| - |Marker|);
    } else {
      assert Extract(g) == g;
    }
  }

  /** A run of chats, one per message, each starting from the history the
      previous one left. */
  function Conversation(system: string, history: seq<Turn>, messages: seq<string>, generate: string -> string): (h: seq<Turn>)
    decreases |messages|
  {
    if messages == [] then history
    else Conversation(system, Chat(system, history, messages[0], generate).history, messages[1..], generate)
  }

  /** The history remembers only replies: every call leaves exactly one more
      entry, an assistant turn, so a history that starts without user turns
      never gets one. */
  lemma {:induction false} HistoryKeepsOnlyReplies(system: string, history: seq<Turn>, messages: seq<string>, generate: string -> string)
    ensures var h := Conversation(system, history, messages, generate);
            && |h| == |history| + |messages|
            && h[..|history|] == history
            && forall k :: |history| <= k < |h| ==> h[k].role == AssistantRole
    decreases |messages|
  {
    if messages != [] {
      var c := Chat(system, history, messages[0], generate);
      var next := c.history;
      assert next == history + [Turn(AssistantRole, c.reply)];
      HistoryKeepsOnlyReplies(system, next, messages[1..], generate);
      var h := Conversation(system, history, messages, generate);
      assert h == Conversation(system, next, messages[1..], generate);
      assert h[..|next|] == next;
      assert h[..|history|] == next[..|history|];
      assert next[|history|].role == AssistantRole;
    }
  }
}
