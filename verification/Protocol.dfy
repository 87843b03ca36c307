/** The shared value types: protocol events, JSON values and projected items. */
module Protocol {

  datatype JsonValue =
    | JsonNull
    | JsonBool(flag: bool)
    | JsonNumber(number: real)
    | JsonString(text: string)
    | JsonArray(elements: seq<JsonValue>)
    | JsonObject(fields: map<string, JsonValue>)

  /** Finished is the program's "completed" and Broken its "failed". */
  datatype SessionStatus = Ready | Running | WaitingForUser | Finished | Broken | Stopped | Unknown

  /** The answers field of a question: absent, null, or a list. */
  datatype QuestionReply = Unanswered | Declined | Answered(answers: seq<JsonValue>)

  /** The decision field of an approval: absent or one of three words. */
  datatype Decision = Undecided | Allowed | Refused | Lapsed

  /** Optional string fields that the program only tests for truth are plain strings: "" is absent. */
  datatype EventKind =
    | TurnChanges(requestId: string, entries: nat)
    | Subagent
    | Progress
    | Usage
    | User(text: string, requestId: string)
    | QueuedMessageSent(text: string, requestId: string)
    | Text(text: string)
    | ToolCall(id: string, name: string, input: JsonValue)
    | ToolResult(id: string, content: JsonValue, isError: bool)
    | Question(requestId: string, toolUseId: string)
    | QuestionResolved(requestId: string, reply: QuestionReply)
    | Approval(requestId: string, toolUseId: string)
    | ApprovalResolved(requestId: string, allow: bool)
    | State(status: SessionStatus, message: string)
    | Notice(text: string)

  datatype Event = Event(seqNo: nat, at: int, sessionId: string, event: EventKind)

  /** One row of the plain transcript, in event order. */
  datatype Item =
    | UserItem(key: nat, text: string, at: int, handoff: bool, hidden: bool)
    | AssistantItem(key: nat, text: string)
    | EventItem(key: nat, value: EventKind, resolved: bool, answers: QuestionReply, decision: Decision)

  /** A state event that ends the turn it belongs to. */
  predicate IsTerminal(kind: EventKind) {
    kind.State? && kind.status != Running && kind.status != WaitingForUser
  }

  ghost predicate KeysIncrease(items: seq<Item>) {
    forall i, j | 0 <= i < j < |items| :: items[i].key < items[j].key
  }

  ghost predicate Increasing(positions: seq<nat>) {
    forall i, j | 0 <= i < j < |positions| :: positions[i] < positions[j]
  }
}
