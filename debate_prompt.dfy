/**
 * The chat request the debate edge function sends to the language model
 * (supabase/functions/debate/index.ts). Values the function interpolates
 * into template strings (the character number, the stance) are taken as
 * their rendered text.
 */
module DebatePrompt {
  import opened Wrappers

  datatype Role = System | Assistant | User

  /** One entry of the outgoing `messages` array. */
  datatype ChatMessage = ChatMessage(role: Role, content: string)

  /** One transcript entry as the client sends it: the speaking character and what it said. */
  datatype DebateMessage = DebateMessage(character: string, text: string)

  const SupportiveInstruction: string :=
    "You generally support the topic but should present compelling arguments and challenge your opponent's viewpoint with thought-provoking questions."
  const SkepticalInstruction: string :=
    "You are skeptical about the topic and should present counterarguments while questioning your opponent's assumptions."

  /** The fixed guideline block between the instruction and the topic, with the template's own indentation. */
  const Guidelines: string :=
    "\n    \n    Key guidelines:\n"
    + "    1. Be assertive but respectful\n"
    + "    2. Use facts and logic to support your position\n"
    + "    3. Ask challenging questions when appropriate\n"
    + "    4. Acknowledge valid points but maintain your stance\n"
    + "    5. Keep responses concise (2-3 sentences)\n"
    + "    6. If responding to an opponent's point, address it directly\n"
    + "    \n    "

  const TopicLabel: string := "Current topic: "

  /** Exactly the stance "supportive" selects the supportive instruction; any other stance the skeptical one. */
  function Instruction(stance: string): (s: string)
    ensures stance == "supportive" <==> s == SupportiveInstruction
    ensures stance != "supportive" <==> s == SkepticalInstruction
  {
    assert |SupportiveInstruction| == 145 && |SkepticalInstruction| == 116;
    if stance == "supportive" then SupportiveInstruction else SkepticalInstruction
  }

  function Opening(character: string): string
  {
    "You are Character " + character + " in a debate. "
  }

  /** Where each part of a four-part concatenation sits. */
  lemma Parts(a: string, b: string, c: string, d: string)
    ensures var p := a + b + c + d;
      && |p| == |a| + |b| + |c| + |d|
      && p[..|a|] == a
      && p[|a|..|a| + |b|] == b
      && p[|p| - |d|..] == d
  {
    var p := a + b + c + d;
    assert p[|p| - |d|..] == d;
    assert p[..|a|] == a;
    assert p[|a|..|a| + |b|] == b;
  }

  /** The system prompt: who the model plays, its stance instruction, the guidelines, and the topic last. */
  function SystemPrompt(character: string, stance: string, topic: string): (p: string)
    ensures |p| >= |Opening(character)| + |Instruction(stance)| + |TopicLabel| + |topic|
    ensures p[..|Opening(character)|] == Opening(character)
    ensures p[|Opening(character)|..|Opening(character)| + |Instruction(stance)|] == Instruction(stance)
    ensures p[|p| - |TopicLabel| - |topic|..] == TopicLabel + topic
  {
    Parts(Opening(character), Instruction(stance), Guidelines, TopicLabel + topic);
    Opening(character) + Instruction(stance) + Guidelines + (TopicLabel + topic)
  }

  /** The supportive and the skeptical prompts never coincide: the stance is always visible to the model. */
  lemma StanceChangesPrompt(character: string, stance: string, topic: string)
    requires stance != "supportive"
    ensures SystemPrompt(character, "supportive", topic) != SystemPrompt(character, stance, topic)
  {
    assert |SupportiveInstruction| == 145 && |SkepticalInstruction| == 116;
  }

  /** One transcript entry as the model sees it. */
  function HistoryEntry(m: DebateMessage): ChatMessage
  {
    ChatMessage(Assistant, "Character " + m.character + ": " + m.text)
  }

  /** The conversation history: one assistant entry per transcript message, in transcript order. */
  function History(messages: seq<DebateMessage>): (h: seq<ChatMessage>)
    ensures |h| == |messages|
    ensures forall i :: 0 <= i < |h| ==> h[i].role == Assistant
    ensures forall i :: 0 <= i < |h| ==> h[i] == HistoryEntry(messages[i])
  {
    if messages == [] then [] else [HistoryEntry(messages[0])] + History(messages[1..])
  }

  /** The history of a longer transcript extends the history of the shorter one. */
  lemma {:induction false} HistoryAppend(a: seq<DebateMessage>, b: seq<DebateMessage>)
    ensures History(a + b) == History(a) + History(b)
  {
    if a == [] {
      assert a + b == b;
    } else {
      assert (a + b)[1..] == a[1..] + b;
      HistoryAppend(a[1..], b);
    }
  }

  /** JavaScript truthiness of `lastOpponentMessage`: present and not the empty string. */
  predicate Truthy(o: Option<string>)
  {
    o.Some? && o.value != ""
  }

  const RebuttalLead: string := "Respond to this point from your opponent: \""
  const OpeningLead: string := "Start the debate by presenting your "

  /**
   * The user turn: a rebuttal that quotes the opponent's last line when there is one,
   * otherwise an opening that names the topic.
   */
  function UserPrompt(stance: string, topic: string, lastOpponentMessage: Option<string>): (p: string)
    ensures Truthy(lastOpponentMessage) ==>
              var quoted := lastOpponentMessage.value;
              |p| > |RebuttalLead| + |quoted| && p[..|RebuttalLead|] == RebuttalLead
              && p[|RebuttalLead|..|RebuttalLead| + |quoted| + 1] == quoted + "\""
    ensures !Truthy(lastOpponentMessage) ==>
              |p| > |OpeningLead| + |topic| && p[..|OpeningLead|] == OpeningLead
              && p[|p| - |topic|..] == topic
  {
    if Truthy(lastOpponentMessage) then
      var quoted := lastOpponentMessage.value + "\"";
      var p := RebuttalLead + quoted + (". Remember to maintain your " + stance + " stance on the topic.");
      assert p[|RebuttalLead|..|RebuttalLead| + |quoted|] == quoted;
      p
    else
      OpeningLead + (stance + " perspective on the topic: ") + topic
  }

  /** The opening and the rebuttal prompts are told apart by their first character. */
  lemma OpeningAndRebuttalDiffer(stance: string, topic: string, quoted: string)
    requires quoted != ""
    ensures UserPrompt(stance, topic, Some(quoted)) != UserPrompt(stance, topic, None)
  {
    assert UserPrompt(stance, topic, Some(quoted))[0] == RebuttalLead[0] == 'R';
    assert UserPrompt(stance, topic, None)[0] == OpeningLead[0] == 'S';
  }

  /** The outgoing message list: the system prompt, the history, and the user prompt last. */
  function ChatRequest(character: string, stance: string, topic: string,
                       messages: seq<DebateMessage>, lastOpponentMessage: Option<string>): (ms: seq<ChatMessage>)
    ensures |ms| == |messages| + 2
    ensures ms[0] == ChatMessage(System, SystemPrompt(character, stance, topic))
    ensures ms[|ms| - 1] == ChatMessage(User, UserPrompt(stance, topic, lastOpponentMessage))
    ensures forall i :: 1 <= i < |ms| - 1 ==> ms[i] == HistoryEntry(messages[i - 1])
  {
    [ChatMessage(System, SystemPrompt(character, stance, topic))]
    + History(messages)
    + [ChatMessage(User, UserPrompt(stance, topic, lastOpponentMessage))]
  }
}
