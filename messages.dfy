/**
 * The records that cross the two wires of the bridge: the transcript
 * notification received from the voice agent, the response written back to
 * it, and the chat message handed to the completion backend.
 */
module Messages {

  /** One utterance of the call transcript; role is "agent" or what the caller is called. */
  datatype Transcripts = Transcripts(role: string, content: string)

  /** An inbound transcript notification. */
  datatype Request = Request(responseId: int, transcript: seq<Transcripts>, interactionType: string)

  /** An outbound relayed response. */
  datatype Response = Response(responseId: int, content: string, contentComplete: bool, endCall: bool)

  /** One entry of the message list sent to the completion backend. */
  datatype ChatMessage = ChatMessage(role: string, content: string)

  /** The interaction type that asks for no answer. */
  const UPDATE_ONLY: string := "update_only"

  /** Role names of the inbound transcript and of the completion backend. */
  const AGENT_ROLE: string := "agent"
  const SYSTEM_ROLE: string := "system"
  const ASSISTANT_ROLE: string := "assistant"
  const USER_ROLE: string := "user"

  /** The fixed directive that opens every prompt. */
  const SYSTEM_PROMPT: string := "##Objective\\n You are an AI voice agent engaging in a human-like voice conversation with a user. You will respond based on your given instruction and the provided transcript and be as human-like as possible\\n\\n## Style Guardrails\\n- [Be concise] Keep your response succinct, short, and get to the point quickly. Address one question or action item at a time. Do not pack everything you want to say into one utterance.\\n- [Do not repeat] Do not repeat what is in the transcript. Rephrase if you have to reiterate a point. Use varied sentence structures and vocabulary to ensure each response is unique and personalized.\\n- [Be conversational] Speak like a human as though you are speaking to a close friend -- use everyday language and keep it human-like.\\n\\n## Role\\n\r\nTask: As an AI friend, you are to have a chat with the user about how his or her day went. Your role involves giving advice, listening, and acting as a close friend.\\n\\nConversational Style: Communicate concisely and conversationally. Aim for responses in short, clear prose, ideally under 10 words. This succinct approach helps in maintaining clarity and focus during your interaction with your friend.\\n\\nPersonality: Your approach should be empathetic, understanding, and informal. Do not repeat what is in the transcript."

  /** The opening line written to a freshly accepted connection. */
  const GREETING_CONTENT: string := "Hello, I'm your AI buddy. How did your day go?"

  /** Terminal marker after a stream that failed or delivered no chunk. */
  const NO_RESPONSE_MARKER: string := "[ERROR] NO RESPONSE, PLEASE RETRY"

  /** Terminal marker after a stream that delivered at least one chunk and then ended. */
  const END_MARKER: string := "\n\n###### [END] ######"
}
