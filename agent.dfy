/** `StreamingCallbackHandler` of `app/controller/agent.py`: the bridge from the agent's callbacks
    to the browser. It keeps one flag, whether a tool has been started since the last final
    answer, and sends one `agent_update` event per callback, except for tokens of a reply that
    uses tools. The socket is modelled as the log of the events sent through it. */
module Agent {
  import opened Wrappers
  import opened ArgParser

  /** One `agent_update` payload, by its `type`: a streamed token, a step of the agent, or the
      final answer with its `response_type`. */
  datatype Event =
    | Token(token: string)
    | Step(thought: string, action: string, actionInput: string, observation: string)
    | Final(output: string, responseType: string)

  /** What `finish.return_values` holds: a dictionary, or some other value given by its `str`. */
  datatype ReturnValues = Dict(values: map<string, string>) | Other(text: string)

  /** The callbacks the agent makes, with the arguments the handler reads. */
  datatype Callback =
    | LlmStart
    | NewToken(token: string)
    | ToolStart(serialized: map<string, string>, inputStr: string)
    | ToolEnd(output: string)
    | AgentAction(log: string, tool: string, toolInput: string)
    | AgentFinish(returnValues: ReturnValues)

  /** The flag and the events sent so far. */
  datatype HandlerState = HandlerState(toolUsed: bool, events: seq<Event>)

  const Fresh := HandlerState(false, [])

  /** The output of a finish: the `output` entry of a dictionary, where a dictionary without it
      raises `KeyError` (`None` here), or the text of any other value. */
  function FinishOutput(v: ReturnValues): Option<string> {
    match v
    case Dict(values) => if "output" in values then Some(values["output"]) else None
    case Other(text) => Some(text)
  }

  /** A finish that reaches its event, and so resets the flag. */
  predicate Resets(c: Callback) {
    c.AgentFinish? && FinishOutput(c.returnValues).Some?
  }

  /** The name a tool start reports, `Unknown tool` when `serialized` has none. */
  function ToolNameOf(serialized: map<string, string>): string {
    Get(serialized, "name", "Unknown tool")
  }

  const ThinkingStep := Step("Evaluating whether this question needs tools or can be answered directly...",
                             "Thinking", "", "")

  function ResponseType(toolUsed: bool): string {
    if toolUsed then "tool-based" else "direct"
  }

  /** The handler after one callback. */
  function After(s: HandlerState, c: Callback): HandlerState {
    match c
    case LlmStart => s.(events := s.events + [ThinkingStep])
    case NewToken(token) => if s.toolUsed then s else s.(events := s.events + [Token(token)])
    case ToolStart(serialized, inputStr) =>
      HandlerState(true, s.events + [Step("This task requires using a tool: " + ToolNameOf(serialized),
                                          "Starting tool", inputStr, "")])
    case ToolEnd(output) => s.(events := s.events + [Step("Tool operation completed", "Tool output", "", output)])
    case AgentAction(log, tool, toolInput) => s.(events := s.events + [Step(log, tool, toolInput, "")])
    case AgentFinish(v) =>
      match FinishOutput(v)
      case None => s
      case Some(output) => HandlerState(false, s.events + [Final(output, ResponseType(s.toolUsed))])
  }

  /** The handler after a sequence of callbacks, one after the other. */
  function Replay(s: HandlerState, cs: seq<Callback>): HandlerState
    decreases |cs|
  {
    if cs == [] then s else After(Replay(s, cs[..|cs| - 1]), cs[|cs| - 1])
  }

  /** Some tool was started and no finish has reset the flag since. */
  predicate ToolSinceReset(cs: seq<Callback>) {
    exists i :: 0 <= i < |cs| && cs[i].ToolStart? && forall j :: i < j < |cs| ==> !Resets(cs[j])
  }

  predicate NoTokens(events: seq<Event>) {
    forall k :: 0 <= k < |events| ==> !events[k].Token?
  }

  class StreamingCallbackHandler {
    var toolUsed: bool
    var events: seq<Event>

    function State(): HandlerState
      reads this
    {
      HandlerState(toolUsed, events)
    }

    /** A new handler has not seen a tool and has sent nothing. */
    constructor()
      ensures State() == Fresh
    {
      toolUsed := false;
      events := [];
    }

    method OnLlmStart()
      modifies this
      ensures State() == After(old(State()), LlmStart)
    {
      events := events + [ThinkingStep];
    }

    /** A token is streamed only while no tool has been used. */
    method OnLlmNewToken(token: string)
      modifies this
      ensures State() == After(old(State()), NewToken(token))
    {
      if !toolUsed {
        events := events + [Token(token)];
      }
    }

    method OnToolStart(serialized: map<string, string>, inputStr: string)
      modifies this
      ensures State() == After(old(State()), ToolStart(serialized, inputStr))
    {
      toolUsed := true;
      var toolName := Get(serialized, "name", "Unknown tool");
      events := events + [Step("This task requires using a tool: " + toolName, "Starting tool", inputStr, "")];
    }

    method OnToolEnd(output: string)
      modifies this
      ensures State() == After(old(State()), ToolEnd(output))
    {
      events := events + [Step("Tool operation completed", "Tool output", "", output)];
    }

    method OnAgentAction(log: string, tool: string, toolInput: string)
      modifies this
      ensures State() == After(old(State()), AgentAction(log, tool, toolInput))
    {
      events := events + [Step(log, tool, toolInput, "")];
    }

    /** Sends the final answer and resets the flag; `raised` is the `KeyError` of a dictionary
        without `output`, which leaves the handler as it was. */
    method OnAgentFinish(returnValues: ReturnValues) returns (raised: bool)
      modifies this
      ensures raised <==> FinishOutput(returnValues) == None
      ensures State() == After(old(State()), AgentFinish(returnValues))
    {
      var output: string;
      match returnValues {
        case Dict(values) =>
          if "output" !in values {
            return true;
          }
          output := values["output"];
        case Other(text) =>
          output := text;
      }
      var responseType := if !toolUsed then "direct" else "tool-based";
      events := events + [Final(output, responseType)];
      toolUsed := false;
      raised := false;
    }
  }

  /** Replaying one more callback is one more step. */
  lemma ReplaySnoc(s: HandlerState, cs: seq<Callback>, c: Callback)
    ensures Replay(s, cs + [c]) == After(Replay(s, cs), c)
  {
    assert (cs + [c])[..|cs|] == cs;
  }

  /** Every callback keeps the events already sent and adds at most one. */
  lemma AfterAppends(s: HandlerState, c: Callback)
    ensures var e := After(s, c).events;
      |s.events| <= |e| <= |s.events| + 1 && e[..|s.events|] == s.events
  {
  }

  /** The log only grows: the events sent before a run of callbacks are the first events sent
      after it, and the run adds at most one event per callback. */
  lemma {:induction false} ReplayAppends(s: HandlerState, cs: seq<Callback>)
    ensures var e := Replay(s, cs).events;
      |s.events| <= |e| <= |s.events| + |cs| && e[..|s.events|] == s.events
    decreases |cs|
  {
    if cs != [] {
      var init := cs[..|cs| - 1];
      ReplayAppends(s, init);
      var mid := Replay(s, init);
      AfterAppends(mid, cs[|cs| - 1]);
      var e := Replay(s, cs).events;
      assert e[..|mid.events|] == mid.events;
      assert e[..|s.events|] == e[..|mid.events|][..|s.events|];
    }
  }

  /** A token is sent, as one `token` event, exactly when no tool has been used; otherwise the
      handler is unchanged. */
  lemma TokenStreamedIff(s: HandlerState, token: string)
    ensures After(s, NewToken(token)).events == s.events + [Token(token)] <==> !s.toolUsed
    ensures s.toolUsed ==> After(s, NewToken(token)) == s
    ensures After(s, NewToken(token)).toolUsed == s.toolUsed
  {
    if s.toolUsed {
      assert |After(s, NewToken(token)).events| != |s.events + [Token(token)]|;
    }
  }

  /** A tool start sets the flag and sends one step naming the tool (`Unknown tool` when it has
      no name) with the tool's input. */
  lemma ToolStartSetsFlag(s: HandlerState, serialized: map<string, string>, inputStr: string)
    ensures var r := After(s, ToolStart(serialized, inputStr));
      r.toolUsed && |r.events| == |s.events| + 1 && r.events[..|s.events|] == s.events &&
      var e := r.events[|s.events|];
      e.Step? && e.action == "Starting tool" && e.actionInput == inputStr && e.observation == "" &&
      e.thought == "This task requires using a tool: " + (if "name" in serialized then serialized["name"] else "Unknown tool")
  {
  }

  /** Starting the model, a tool ending and an agent action each send one step and leave the flag
      as it was; a tool's end carries its output as the observation, an action its log, tool and
      input with an empty observation, and the model's start is the `Thinking` step. */
  lemma StepsKeepFlag(s: HandlerState, c: Callback)
    requires c.LlmStart? || c.ToolEnd? || c.AgentAction?
    ensures var r := After(s, c);
      r.toolUsed == s.toolUsed && |r.events| == |s.events| + 1 && r.events[..|s.events|] == s.events &&
      var e := r.events[|s.events|];
      e.Step? &&
      (c.LlmStart? ==> e.action == "Thinking" && e.actionInput == "" && e.observation == "") &&
      (c.ToolEnd? ==> e.action == "Tool output" && e.observation == c.output) &&
      (c.AgentAction? ==> e.thought == c.log && e.action == c.tool && e.actionInput == c.toolInput && e.observation == "")
  {
  }

  /** A finish that has its output sends one `final` event, `tool-based` exactly when the flag
      was set, and clears the flag; one that raises changes nothing. */
  lemma FinishResetsFlag(s: HandlerState, v: ReturnValues)
    ensures FinishOutput(v) == None ==> After(s, AgentFinish(v)) == s
    ensures FinishOutput(v).Some? ==>
      var r := After(s, AgentFinish(v));
      !r.toolUsed && |r.events| == |s.events| + 1 && r.events[..|s.events|] == s.events &&
      r.events[|s.events|].Final? && r.events[|s.events|].output == FinishOutput(v).value &&
      (r.events[|s.events|].responseType == "direct" <==> !s.toolUsed)
  {
  }

  /** From a fresh handler, the flag is set exactly when some tool was started and no finish has
      reset it since. */
  lemma {:induction false} FlagTracksToolStarts(cs: seq<Callback>)
    ensures Replay(Fresh, cs).toolUsed <==> ToolSinceReset(cs)
    decreases |cs|
  {
    if cs != [] {
      var init := cs[..|cs| - 1];
      var c := cs[|cs| - 1];
      FlagTracksToolStarts(init);
      if c.ToolStart? {
        assert cs[|cs| - 1].ToolStart?;
      } else if Resets(c) {
        forall i | 0 <= i < |cs| && cs[i].ToolStart?
          ensures exists j :: i < j < |cs| && Resets(cs[j])
        {
          assert i < |cs| - 1 && Resets(cs[|cs| - 1]);
        }
      } else {
        assert Replay(Fresh, cs).toolUsed == Replay(Fresh, init).toolUsed;
        if ToolSinceReset(cs) {
          var i :| 0 <= i < |cs| && cs[i].ToolStart? && forall j :: i < j < |cs| ==> !Resets(cs[j]);
          assert init[i].ToolStart? && forall j :: i < j < |init| ==> !Resets(init[j]);
        }
        if ToolSinceReset(init) {
          var i :| 0 <= i < |init| && init[i].ToolStart? && forall j :: i < j < |init| ==> !Resets(init[j]);
          assert cs[i].ToolStart? && forall j :: i < j < |cs| ==> !Resets(cs[j]);
        }
      }
    }
  }

  /** The answer is reported as `direct` exactly when no tool was started since the handler was
      made or since the previous finish. */
  lemma DirectIffNoTool(cs: seq<Callback>, v: ReturnValues)
    requires FinishOutput(v).Some?
    ensures var e := Replay(Fresh, cs + [AgentFinish(v)]).events;
      |e| > 0 && e[|e| - 1] == Final(FinishOutput(v).value, if ToolSinceReset(cs) then "tool-based" else "direct")
  {
    ReplaySnoc(Fresh, cs, AgentFinish(v));
    FlagTracksToolStarts(cs);
  }

  /** Once a tool is in use, no token is streamed until a finish resets the flag. */
  lemma {:induction false} NoTokensDuringToolUse(s: HandlerState, cs: seq<Callback>)
    requires s.toolUsed
    requires forall k :: 0 <= k < |cs| ==> !Resets(cs[k])
    ensures Replay(s, cs).toolUsed
    ensures |s.events| <= |Replay(s, cs).events| && NoTokens(Replay(s, cs).events[|s.events|..])
    decreases |cs|
  {
    if cs != [] {
      var init := cs[..|cs| - 1];
      var c := cs[|cs| - 1];
      assert forall k :: 0 <= k < |init| ==> !Resets(init[k]) by {
        forall k | 0 <= k < |init| ensures !Resets(init[k]) {
          assert init[k] == cs[k];
        }
      }
      NoTokensDuringToolUse(s, init);
      assert !Resets(cs[|cs| - 1]);
      var mid := Replay(s, init);
      var r := Replay(s, cs);
      AfterAppends(mid, c);
      assert r.events[|s.events|..] == mid.events[|s.events|..] + r.events[|mid.events|..];
      if c.AgentFinish? || c.NewToken? {
        assert r == mid;
      } else {
        assert !r.events[|r.events| - 1].Token?;
      }
    }
  }
}
