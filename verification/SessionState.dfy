/** Values of the tool-calling chat session: messages, provider replies, loop states. */
module SessionState {
  import opened Options

  /** `arguments` stands for the decoded JSON object of the call. */
  datatype ToolCall = ToolCall(id: string, name: string, arguments: string)

  /** What a tool message carries: the tool's answer, or the stub of the chain cap. */
  datatype ToolContent =
    | Answer(text: string)
    | Blocked(tool: string, cap: int, observed: int)

  /** An assistant message without calls has no `tool_calls` key. */
  datatype Message =
    | Plain(role: string, content: string)
    | Assistant(text: string, calls: seq<ToolCall>)
    | Tool(callId: string, result: ToolContent)

  datatype StopReason = Stop | ToolCalls

  datatype Response = Response(text: string, calls: seq<ToolCall>, stop: StopReason)

  /** Events of a provider stream. */
  datatype LlmEvent =
    | Text(content: string)
    | Call(call: ToolCall)
    | End(stop: StopReason)

  datatype Transition = ModelCall | ToolDispatch | TurnAdvance | Terminate

  datatype Terminal = Completed | MaxToolRounds

  /** Pessimistic dispatch counter, shared by all states of one session. */
  class ToolChainBudget {
    var cap: int
    var observed: int
    var trippedEvent: bool

    constructor (cap: int)
      ensures this.cap == cap && observed == 0 && !trippedEvent
    {
      this.cap := cap;
      observed, trippedEvent := 0, false;
    }
  }

  /** Frozen state; only the object behind `budget` ever changes. */
  datatype SessionState = SessionState(
    messages: seq<Message>,
    turnCount: nat,
    budget: ToolChainBudget?,
    transition: Option<Transition>,
    terminal: Option<Terminal>)

  function InitialSessionState(messages: seq<Message>, budget: ToolChainBudget?): SessionState {
    SessionState(messages, 0, budget, None, None)
  }
}
