/**
 * The prompt builder: turns the transcript of an inbound request into the
 * message list for the completion backend. One fixed system directive comes
 * first; every transcript entry follows in order, with the agent's turns
 * given the assistant role and every other turn the user role.
 */
module PromptBuilder {
  import opened Messages

  /**
   * The message that opens every prompt: the fixed directive in the system
   * role, which no converted transcript entry can equal.
   */
  function SystemMessage(): (m: ChatMessage)
    ensures m.role == SYSTEM_ROLE && m.content == SYSTEM_PROMPT
    ensures forall t :: m != ToChatMessage(t)
  {
    ChatMessage(SYSTEM_ROLE, SYSTEM_PROMPT)
  }

  /** The backend role for a transcript role: only "agent" becomes the assistant. */
  function ChatRole(role: string): (r: string)
    ensures r == ASSISTANT_ROLE <==> role == AGENT_ROLE
    ensures r == ASSISTANT_ROLE || r == USER_ROLE
  {
    if role == AGENT_ROLE then ASSISTANT_ROLE else USER_ROLE
  }

  /** One transcript entry as a chat message; the content is copied unchanged. */
  function ToChatMessage(t: Transcripts): (m: ChatMessage)
    ensures m.content == t.content
    ensures m.role == ASSISTANT_ROLE <==> t.role == AGENT_ROLE
    ensures m.role == ASSISTANT_ROLE || m.role == USER_ROLE
  {
    ChatMessage(ChatRole(t.role), t.content)
  }

  /**
   * The transcript entries as chat messages, built the way main.go's loop
   * builds them: one message appended per entry, in order.
   */
  function ConvertTurns(ts: seq<Transcripts>): (r: seq<ChatMessage>)
    ensures |r| == |ts|
    ensures forall k :: 0 <= k < |ts| ==> r[k].content == ts[k].content
    ensures forall k :: 0 <= k < |ts| ==> (r[k].role == ASSISTANT_ROLE <==> ts[k].role == AGENT_ROLE)
    ensures forall k :: 0 <= k < |ts| ==> r[k].role == ASSISTANT_ROLE || r[k].role == USER_ROLE
  {
    if ts == [] then []
    else ConvertTurns(ts[..|ts| - 1]) + [ToChatMessage(ts[|ts| - 1])]
  }

  /**
   * The message list sent to the completion backend for a request: the system
   * directive, then one message per transcript entry, with nothing dropped,
   * added or reordered.
   */
  function GenerateAIRequest(msg: Request): (r: seq<ChatMessage>)
    ensures |r| == |msg.transcript| + 1
    ensures r[0].role == SYSTEM_ROLE && r[0].content == SYSTEM_PROMPT
    ensures forall k :: 0 <= k < |msg.transcript| ==> r[k + 1].content == msg.transcript[k].content
    ensures forall k :: 0 <= k < |msg.transcript| ==>
              (r[k + 1].role == ASSISTANT_ROLE <==> msg.transcript[k].role == AGENT_ROLE)
    ensures forall k :: 0 < k < |r| ==> r[k].role == ASSISTANT_ROLE || r[k].role == USER_ROLE
  {
    var turns := ConvertTurns(msg.transcript);
    assert forall k :: 0 < k < |turns| + 1 ==> ([SystemMessage()] + turns)[k] == turns[k - 1];
    [SystemMessage()] + turns
  }

  /** The transcript entry a chat message of the prompt stands for. */
  function FromChatMessage(m: ChatMessage): Transcripts {
    Transcripts(if m.role == ASSISTANT_ROLE then AGENT_ROLE else USER_ROLE, m.content)
  }

  /** The transcript a prompt stands for: every message after the system directive. */
  function RecoverTranscript(prompt: seq<ChatMessage>): (ts: seq<Transcripts>)
    ensures |ts| == if prompt == [] then 0 else |prompt| - 1
  {
    if |prompt| <= 1 then []
    else RecoverTranscript(prompt[..|prompt| - 1]) + [FromChatMessage(prompt[|prompt| - 1])]
  }

  /** A transcript whose roles are all "agent" or "user", the two roles the voice agent sends. */
  predicate WellRoled(ts: seq<Transcripts>) {
    forall k :: 0 <= k < |ts| ==> ts[k].role == AGENT_ROLE || ts[k].role == USER_ROLE
  }

  /** Element-wise reading of RecoverTranscript. */
  lemma {:induction false} RecoverTranscriptAt(prompt: seq<ChatMessage>, k: nat)
    requires k + 1 < |prompt|
    ensures RecoverTranscript(prompt)[k] == FromChatMessage(prompt[k + 1])
  {
    if k + 2 < |prompt| {
      RecoverTranscriptAt(prompt[..|prompt| - 1], k);
    }
  }

  /**
   * Round trip: when every role is "agent" or "user", the prompt loses nothing
   * of the transcript, which can be read back from it entry by entry.
   */
  lemma RecoverTranscriptOfPrompt(msg: Request)
    requires WellRoled(msg.transcript)
    ensures RecoverTranscript(GenerateAIRequest(msg)) == msg.transcript
  {
    var prompt := GenerateAIRequest(msg);
    var ts := RecoverTranscript(prompt);
    forall k | 0 <= k < |msg.transcript|
      ensures ts[k] == msg.transcript[k]
    {
      RecoverTranscriptAt(prompt, k);
    }
  }

  /**
   * The mapping forgets only which non-agent role a turn had: two transcripts
   * give the same prompt exactly when they agree on every content and on
   * which turns are the agent's.
   */
  lemma SamePromptIff(a: Request, b: Request)
    ensures GenerateAIRequest(a) == GenerateAIRequest(b) <==>
              (|a.transcript| == |b.transcript| &&
               forall k :: 0 <= k < |a.transcript| ==>
                 a.transcript[k].content == b.transcript[k].content &&
                 (a.transcript[k].role == AGENT_ROLE <==> b.transcript[k].role == AGENT_ROLE))
  {
    var pa, pb := GenerateAIRequest(a), GenerateAIRequest(b);
    if |a.transcript| == |b.transcript| &&
       forall k :: 0 <= k < |a.transcript| ==>
         a.transcript[k].content == b.transcript[k].content &&
         (a.transcript[k].role == AGENT_ROLE <==> b.transcript[k].role == AGENT_ROLE)
    {
      forall k | 0 <= k < |pa|
        ensures pa[k] == pb[k]
      {
        if k > 0 {
          assert pa[k].role == pb[k].role;
        }
      }
    }
    if pa == pb {
      forall k | 0 <= k < |a.transcript|
        ensures a.transcript[k].content == b.transcript[k].content
        ensures a.transcript[k].role == AGENT_ROLE <==> b.transcript[k].role == AGENT_ROLE
      {
        assert pa[k + 1] == pb[k + 1];
      }
    }
  }

  /**
   * One step of main.go's loop: one more transcript entry appends exactly
   * its converted message to the prompt and leaves the earlier ones alone.
   */
  lemma GenerateAIRequestAppend(msg: Request, t: Transcripts)
    ensures GenerateAIRequest(msg.(transcript := msg.transcript + [t])) ==
            GenerateAIRequest(msg) + [ToChatMessage(t)]
  {
    assert (msg.transcript + [t])[..|msg.transcript|] == msg.transcript;
  }
}
