/** One row of the decoding engine: forced tokens, tool calls and the thinking budget, for every
    sequence of sampled tokens. */
module RowProtocol {
  import opened Wrappers

  /** `execute` decodes a call's tokens, runs the tools and encodes the result. */
  datatype Config = Config(
    toolStart: int, toolEnd: int, outputStart: int, outputEnd: int,
    assistantEnd: int, thinkStart: int, thinkEnd: int, bos: int,
    thinking: bool, budget: int,
    execute: seq<int> -> Option<seq<int>>)
  {
    predicate Tracking() {
      thinking || budget > 0
    }

    function Specials(): seq<int> {
      [toolStart, toolEnd, outputStart, outputEnd, assistantEnd, thinkStart, thinkEnd, bos]
    }

    /** Special ids are distinct and no encoded text contains one. */
    ghost predicate Valid() {
      && (forall i, j | 0 <= i < j < 8 :: Specials()[i] != Specials()[j])
      && forall call :: Plain(call)
    }

    ghost predicate Plain(call: seq<int>) {
      execute(call).Some? ==> forall id | id in Specials() :: id !in execute(call).value
    }
  }

  datatype Row = Row(
    forced: seq<int>,
    inToolCall: bool,
    toolCallTokens: seq<int>,
    inThinking: bool,
    thinkingTokens: nat,
    completed: bool,
    tokens: seq<int>)

  /** Mask 1 for a sampled token, 0 for a forced one. */
  datatype Event = Event(token: int, mask: int)

  // ---------- one step, as a function ----------

  function Next(row: Row, sampled: int): Event {
    if row.forced != [] then Event(row.forced[0], 0) else Event(sampled, 1)
  }

  function Block(config: Config, result: seq<int>): seq<int> {
    [config.outputStart] + result + [config.outputEnd]
  }

  /** What closing a call queues. */
  function Output(config: Config, call: seq<int>): seq<int> {
    if call == [] || config.execute(call).None? then [] else Block(config, config.execute(call).value)
  }

  function AfterToken(config: Config, row: Row, token: int): Row {
    row.(tokens := row.tokens + [token],
         completed := row.completed || token == config.assistantEnd || token == config.bos)
  }

  function AfterTool(config: Config, row: Row, token: int): Row {
    if token == config.toolStart then row.(inToolCall := true, toolCallTokens := [])
    else if token == config.toolEnd && row.inToolCall then
      row.(inToolCall := false, toolCallTokens := [], forced := row.forced + Output(config, row.toolCallTokens))
    else if row.inToolCall then row.(toolCallTokens := row.toolCallTokens + [token])
    else row
  }

  function AfterThinking(config: Config, row: Row, token: int): Row {
    if !config.Tracking() then row
    else if token == config.thinkStart then row.(inThinking := true, thinkingTokens := 0)
    else if token == config.thinkEnd && row.inThinking then row.(inThinking := false)
    else if row.inThinking then
      row.(thinkingTokens := row.thinkingTokens + 1,
           forced := if config.budget > 0 && row.thinkingTokens + 1 >= config.budget then row.forced + [config.thinkEnd]
                     else row.forced)
    else row
  }

  function After(config: Config, row: Row, sampled: int): Row {
    var token := Next(row, sampled).token;
    var popped := if row.forced != [] then row.(forced := row.forced[1..]) else row;
    AfterThinking(config, AfterTool(config, AfterToken(config, popped, token), token), token)
  }

  // ---------- the program's step ----------

  class RowState {
    var forcedTokens: seq<int>
    var inToolCall: bool
    var toolCallTokens: seq<int>
    var inThinking: bool
    var thinkingTokens: nat
    var completed: bool
    var currentTokens: seq<int>

    /** A prompt that ends inside the trace starts the row thinking. */
    constructor (config: Config, prompt: seq<int>)
      ensures Value() == Start(config, prompt)
    {
      forcedTokens, inToolCall, toolCallTokens, completed := [], false, [], false;
      thinkingTokens, currentTokens := 0, prompt;
      inThinking := config.Tracking() && prompt != [] && prompt[|prompt| - 1] == config.thinkStart;
    }

    function Value(): Row
      reads this
    {
      Row(forcedTokens, inToolCall, toolCallTokens, inThinking, thinkingTokens, completed, currentTokens)
    }

    /** Opens, fills and closes a call; a closed call that ran queues its output block. */
    method ToolSwitch(config: Config, nextToken: int)
      modifies this
      ensures Value() == AfterTool(config, old(Value()), nextToken)
    {
      if nextToken == config.toolStart {
        inToolCall := true;
        toolCallTokens := [];
      } else if nextToken == config.toolEnd && inToolCall {
        inToolCall := false;
        if |toolCallTokens| > 0 {
          var result := config.execute(toolCallTokens);
          if result.Some? {
            forcedTokens := forcedTokens + [config.outputStart];
            forcedTokens := forcedTokens + result.value;
            forcedTokens := forcedTokens + [config.outputEnd];
          }
        }
        toolCallTokens := [];
      } else if inToolCall {
        toolCallTokens := toolCallTokens + [nextToken];
      }
    }

    /** Counts the trace and queues its end once the budget is spent. */
    method ThinkingSwitch(config: Config, nextToken: int)
      modifies this
      ensures Value() == AfterThinking(config, old(Value()), nextToken)
    {
      if config.thinking || config.budget > 0 {
        if nextToken == config.thinkStart {
          inThinking := true;
          thinkingTokens := 0;
        } else if nextToken == config.thinkEnd && inThinking {
          inThinking := false;
        } else if inThinking {
          thinkingTokens := thinkingTokens + 1;
          if config.budget > 0 && thinkingTokens >= config.budget {
            forcedTokens := forcedTokens + [config.thinkEnd];
          }
        }
      }
    }

    method Step(config: Config, sampled: int) returns (event: Event)
      modifies this
      ensures event == Next(old(Value()), sampled)
      ensures Value() == After(config, old(Value()), sampled)
    {
      hide AfterTool, AfterThinking;
      var isForced := |forcedTokens| > 0;
      var mask := if isForced then 0 else 1;
      var nextToken;
      if isForced {
        nextToken := forcedTokens[0];
        forcedTokens := forcedTokens[1..];
      } else {
        nextToken := sampled;
      }
      event := Event(nextToken, mask);
      currentTokens := currentTokens + [nextToken];
      if nextToken == config.assistantEnd || nextToken == config.bos {
        completed := true;
      }
      ToolSwitch(config, nextToken);
      ThinkingSwitch(config, nextToken);
    }
  }

  // ---------- whole runs ----------

  function Start(config: Config, prompt: seq<int>): Row {
    Row([], false, [],
        config.Tracking() && prompt != [] && prompt[|prompt| - 1] == config.thinkStart,
        0, false, prompt)
  }

  ghost function RowAfter(config: Config, row: Row, samples: seq<int>): Row {
    if samples == [] then row
    else After(config, RowAfter(config, row, samples[..|samples| - 1]), samples[|samples| - 1])
  }

  ghost function Trace(config: Config, row: Row, samples: seq<int>): (trace: seq<Event>)
    ensures |trace| == |samples|
  {
    if samples == [] then []
    else
      var before := samples[..|samples| - 1];
      Trace(config, row, before) + [Next(RowAfter(config, row, before), samples[|samples| - 1])]
  }

  lemma {:induction false} TraceAt(config: Config, row: Row, samples: seq<int>, t: nat)
    requires t < |samples|
    ensures Trace(config, row, samples)[t] == Next(RowAfter(config, row, samples[..t]), samples[t])
    ensures RowAfter(config, row, samples[..t + 1]) == After(config, RowAfter(config, row, samples[..t]), samples[t])
  {
    assert samples[..t + 1][..t] == samples[..t];
    if t < |samples| - 1 {
      TraceAt(config, row, samples[..|samples| - 1], t);
      assert samples[..|samples| - 1][..t] == samples[..t];
    }
  }

  // ---------- what every reachable state keeps ----------

  /** Nothing queued can open or close a call, start thinking or end the row; and a row past its
      budget has the closing token queued. */
  ghost predicate Safe(config: Config, row: Row) {
    && Harmless(config, row.forced)
    && (config.budget > 0 && row.inThinking && row.thinkingTokens >= config.budget ==> config.thinkEnd in row.forced)
  }

  ghost predicate Harmless(config: Config, forced: seq<int>) {
    && config.toolStart !in forced && config.toolEnd !in forced && config.thinkStart !in forced
    && config.assistantEnd !in forced && config.bos !in forced
  }

  lemma OutputHarmless(config: Config, call: seq<int>)
    requires config.Valid()
    ensures Harmless(config, Output(config, call))
  {
    assert config.Plain(call);
    Distinct(config);
  }

  lemma Distinct(config: Config)
    requires config.Valid()
    ensures config.outputStart !in [config.toolStart, config.toolEnd, config.thinkStart, config.assistantEnd, config.bos]
    ensures config.outputEnd !in [config.toolStart, config.toolEnd, config.thinkStart, config.assistantEnd, config.bos]
    ensures config.thinkEnd !in [config.toolStart, config.toolEnd, config.thinkStart, config.assistantEnd, config.bos]
    ensures config.thinkStart != config.toolEnd && config.thinkStart != config.toolStart
    ensures config.toolStart != config.toolEnd
    ensures forall id | id in [config.toolStart, config.toolEnd, config.thinkStart, config.assistantEnd, config.bos] ::
              id in config.Specials()
  {
    var s := config.Specials();
    assert s[0] == config.toolStart && s[1] == config.toolEnd && s[2] == config.outputStart && s[3] == config.outputEnd;
    assert s[4] == config.assistantEnd && s[5] == config.thinkStart && s[6] == config.thinkEnd && s[7] == config.bos;
  }

  /** Between taking a token off the queue and acting on it, the token itself may be the end. */
  ghost predicate Pending(config: Config, row: Row, token: int) {
    && Harmless(config, row.forced)
    && (config.budget > 0 && row.inThinking && row.thinkingTokens >= config.budget ==>
          config.thinkEnd in row.forced || token == config.thinkEnd)
  }

  lemma ToolPending(config: Config, row: Row, token: int)
    requires config.Valid() && Pending(config, row, token)
    ensures Pending(config, AfterTool(config, row, token), token)
  {
    hide Config.Valid, Config.Specials, Output;
    OutputHarmless(config, row.toolCallTokens);
  }

  lemma ThinkingSafe(config: Config, row: Row, token: int)
    requires config.Valid() && Pending(config, row, token)
    ensures Safe(config, AfterThinking(config, row, token))
  {
    hide Config.Valid, Config.Specials;
    Distinct(config);
  }

  lemma SafeStep(config: Config, row: Row, sampled: int)
    requires config.Valid() && Safe(config, row)
    ensures Safe(config, After(config, row, sampled))
  {
    hide Config.Valid, AfterTool, AfterThinking;
    var token := Next(row, sampled).token;
    var popped := AfterToken(config, if row.forced != [] then row.(forced := row.forced[1..]) else row, token);
    assert row.forced != [] ==> row.forced == [token] + popped.forced;
    assert Pending(config, popped, token);
    ToolPending(config, popped, token);
    ThinkingSafe(config, AfterTool(config, popped, token), token);
  }

  lemma {:induction false} AlwaysSafe(config: Config, prompt: seq<int>, samples: seq<int>)
    requires config.Valid()
    ensures Safe(config, RowAfter(config, Start(config, prompt), samples))
  {
    if samples != [] {
      AlwaysSafe(config, prompt, samples[..|samples| - 1]);
      SafeStep(config, RowAfter(config, Start(config, prompt), samples[..|samples| - 1]), samples[|samples| - 1]);
    }
  }

  // ---------- the queue ----------

  lemma QueueStep(config: Config, row: Row, sampled: int)
    ensures row.forced != [] ==> row.forced[1..] <= After(config, row, sampled).forced
    ensures row.forced != [] ==> Next(row, sampled) == Event(row.forced[0], 0)
  {
    hide Output;
  }

  /** What is queued comes out next, in order and unsampled, however long the run goes on. */
  lemma {:induction false} QueueDrains(config: Config, row: Row, samples: seq<int>, t: nat, k: nat)
    requires t <= |samples| && k < |RowAfter(config, row, samples[..t]).forced| && t + k < |samples|
    ensures Trace(config, row, samples)[t + k] == Event(RowAfter(config, row, samples[..t]).forced[k], 0)
    ensures RowAfter(config, row, samples[..t]).forced[k..] <= RowAfter(config, row, samples[..t + k]).forced
  {
    hide After, Next;
    var queue := RowAfter(config, row, samples[..t]).forced;
    if k > 0 {
      QueueDrains(config, row, samples, t, k - 1);
      TraceAt(config, row, samples, t + k - 1);
      QueueStep(config, RowAfter(config, row, samples[..t + k - 1]), samples[t + k - 1]);
      var earlier := RowAfter(config, row, samples[..t + k - 1]).forced;
      assert queue[k..] == queue[k - 1..][1..] <= earlier[1..];
    }
    TraceAt(config, row, samples, t + k);
    QueueStep(config, RowAfter(config, row, samples[..t + k]), samples[t + k]);
    assert RowAfter(config, row, samples[..t + k]).forced[0] == queue[k..][0] == queue[k];
  }

  // ---------- tool calls ----------

  ghost function TokensOf(trace: seq<Event>): (tokens: seq<int>)
    ensures |tokens| == |trace|
    ensures forall i | 0 <= i < |trace| :: tokens[i] == trace[i].token
  {
    seq(|trace|, i requires 0 <= i < |trace| => trace[i].token)
  }

  /** A call opened at `s` and neither closed nor reopened before `t`. */
  ghost predicate OpenSince(config: Config, trace: seq<Event>, s: nat, t: nat) {
    && s < t <= |trace| && trace[s].token == config.toolStart
    && forall i | s < i < t :: trace[i].token != config.toolStart && trace[i].token != config.toolEnd
  }

  ghost predicate Holding(row: Row, trace: seq<Event>, s: nat, t: nat)
    requires s < t <= |trace|
  {
    row.inToolCall && row.toolCallTokens == TokensOf(trace[s + 1..t])
  }

  /** The row's call state is what its history says: open exactly when some call is, and holding
      exactly the tokens since. */
  ghost predicate CallMatches(config: Config, row: Row, trace: seq<Event>, t: nat) {
    && (row.inToolCall ==> exists s :: OpenSince(config, trace, s, t))
    && forall s | OpenSince(config, trace, s, t) :: Holding(row, trace, s, t)
  }

  /** `after` is `before` having acted on one token, as far as calls go. */
  ghost predicate ToolStepped(config: Config, before: Row, after: Row, token: int) {
    if token == config.toolStart then after.inToolCall && after.toolCallTokens == []
    else if token == config.toolEnd then !after.inToolCall
    else && after.inToolCall == before.inToolCall
         && (before.inToolCall ==> after.toolCallTokens == before.toolCallTokens + [token])
  }

  lemma ToolOf(config: Config, row: Row, sampled: int)
    ensures ToolStepped(config, row, After(config, row, sampled), Next(row, sampled).token)
  {
    hide Output;
  }

  lemma CallMatchesStep(config: Config, before: Row, after: Row, trace: seq<Event>, t: nat)
    requires config.toolStart != config.toolEnd
    requires 0 < t <= |trace| && CallMatches(config, before, trace, t - 1)
    requires ToolStepped(config, before, after, trace[t - 1].token)
    ensures CallMatches(config, after, trace, t)
  {
    hide Holding;
    var token := trace[t - 1].token;
    if token == config.toolStart {
      assert OpenSince(config, trace, t - 1, t);
    } else if token != config.toolEnd && before.inToolCall {
      var s :| OpenSince(config, trace, s, t - 1);
      assert OpenSince(config, trace, s, t);
    }
    forall s | OpenSince(config, trace, s, t) ensures Holding(after, trace, s, t) {
      if token == config.toolStart {
        assert s == t - 1;
      } else {
        assert OpenSince(config, trace, s, t - 1);
      }
      HoldingStep(config, before, after, trace, s, t);
    }
  }

  lemma HoldingStep(config: Config, before: Row, after: Row, trace: seq<Event>, s: nat, t: nat)
    requires s < t <= |trace| && ToolStepped(config, before, after, trace[t - 1].token)
    requires if s == t - 1 then trace[s].token == config.toolStart
             else Holding(before, trace, s, t - 1) && trace[t - 1].token != config.toolStart
                  && trace[t - 1].token != config.toolEnd
    ensures Holding(after, trace, s, t)
  {
    if s < t - 1 {
      assert TokensOf(trace[s + 1..t]) == TokensOf(trace[s + 1..t - 1]) + [trace[t - 1].token];
    }
  }

  lemma {:induction false} CallState(config: Config, prompt: seq<int>, samples: seq<int>, t: nat)
    requires config.Valid() && t <= |samples|
    ensures CallMatches(config, RowAfter(config, Start(config, prompt), samples[..t]),
                        Trace(config, Start(config, prompt), samples), t)
  {
    hide After, Next, Config.Valid, Trace;
    var start := Start(config, prompt);
    if t > 0 {
      CallState(config, prompt, samples, t - 1);
      TraceAt(config, start, samples, t - 1);
      Distinct(config);
      var before := RowAfter(config, start, samples[..t - 1]);
      ToolOf(config, before, samples[t - 1]);
      CallMatchesStep(config, before, RowAfter(config, start, samples[..t]), Trace(config, start, samples), t);
    }
  }

  /** Closing a call leaves its block at the head of an otherwise empty queue, with at most the
      end of thinking behind it. */
  lemma CloseQueues(config: Config, row: Row, sampled: int)
    requires config.Valid() && Safe(config, row) && row.inToolCall
    requires Next(row, sampled).token == config.toolEnd
    ensures row.forced == []
    ensures var after := After(config, row, sampled);
            after.forced == Output(config, row.toolCallTokens)
            || after.forced == Output(config, row.toolCallTokens) + [config.thinkEnd]
  {
    Distinct(config);
    hide Config.Valid, Output;
  }

  lemma OutputOfCall(config: Config, call: seq<int>)
    ensures var result := if call == [] then None else config.execute(call);
            Output(config, call) == if result.None? then [] else [config.outputStart] + result.value + [config.outputEnd]
  {
  }

  lemma OutputFollows(config: Config, prompt: seq<int>, samples: seq<int>, s: nat, t: nat)
    requires config.Valid() && t < |samples|
    requires OpenSince(config, Trace(config, Start(config, prompt), samples), s, t)
    requires Trace(config, Start(config, prompt), samples)[t].token == config.toolEnd
    ensures var trace := Trace(config, Start(config, prompt), samples);
            var output := Output(config, TokensOf(trace[s + 1..t]));
            && trace[t].mask == 1
            && (forall k | 0 <= k < |output| && t + 1 + k < |samples| :: trace[t + 1 + k] == Event(output[k], 0))
            && (output == [] && t + 1 < |samples| ==>
                  trace[t + 1].mask == 1 || trace[t + 1] == Event(config.thinkEnd, 0))
  {
    hide After, Output, Config.Valid, Safe;
    var start := Start(config, prompt);
    var trace := Trace(config, start, samples);
    var before := RowAfter(config, start, samples[..t]);
    CallState(config, prompt, samples, t);
    AlwaysSafe(config, prompt, samples[..t]);
    TraceAt(config, start, samples, t);
    CloseQueues(config, before, samples[t]);
    var output, after := Output(config, before.toolCallTokens), RowAfter(config, start, samples[..t + 1]);
    forall k | 0 <= k < |output| && t + 1 + k < |samples| ensures trace[t + 1 + k] == Event(output[k], 0) {
      QueueDrains(config, start, samples, t + 1, k);
    }
    if t + 1 < |samples| {
      TraceAt(config, start, samples, t + 1);
    }
  }

  /** Every call that runs is answered at once: its closing token was sampled, and the output block
      follows uninterrupted, unsampled, as far as the run goes. A call that is empty or that no tool
      understands is followed by a sampled token or by the end of thinking. */
  lemma ToolCallAnswered(config: Config, prompt: seq<int>, samples: seq<int>, s: nat, t: nat)
    requires config.Valid() && t < |samples|
    requires OpenSince(config, Trace(config, Start(config, prompt), samples), s, t)
    requires Trace(config, Start(config, prompt), samples)[t].token == config.toolEnd
    ensures var trace := Trace(config, Start(config, prompt), samples);
            var call := TokensOf(trace[s + 1..t]);
            var result := if call == [] then None else config.execute(call);
            var output := if result.None? then [] else [config.outputStart] + result.value + [config.outputEnd];
            && trace[t].mask == 1
            && (forall k | 0 <= k < |output| && t + 1 + k < |samples| :: trace[t + 1 + k] == Event(output[k], 0))
            && (output == [] && t + 1 < |samples| ==>
                  trace[t + 1].mask == 1 || trace[t + 1] == Event(config.thinkEnd, 0))
  {
    hide TokensOf, Output, Config.Valid;
    OutputFollows(config, prompt, samples, s, t);
    OutputOfCall(config, TokensOf(Trace(config, Start(config, prompt), samples)[s + 1..t]));
  }

  // ---------- the thinking budget ----------

  /** Thinking begins at position `a`: the token before it opens the trace, or the prompt did. */
  ghost predicate ThinkingFrom(config: Config, prompt: seq<int>, trace: seq<Event>, a: nat) {
    if a == 0 then prompt != [] && prompt[|prompt| - 1] == config.thinkStart
    else a <= |trace| && trace[a - 1].token == config.thinkStart
  }

  ghost predicate NoDelimiter(config: Config, trace: seq<Event>, a: nat, j: nat)
    requires a <= j <= |trace|
  {
    forall i | a <= i < j :: trace[i].token != config.thinkStart && trace[i].token != config.thinkEnd
  }

  ghost function Sampled(trace: seq<Event>, a: nat, j: nat): nat
    requires a <= j <= |trace|
    decreases j - a
  {
    if a == j then 0 else Sampled(trace, a, j - 1) + (if trace[j - 1].mask == 1 then 1 else 0)
  }

  lemma ThinkingOf(config: Config, row: Row, sampled: int)
    requires config.budget > 0
    ensures var token, after := Next(row, sampled).token, After(config, row, sampled);
            && (token == config.thinkStart ==> after.inThinking && after.thinkingTokens == 0)
            && (token != config.thinkStart && token != config.thinkEnd && row.inThinking ==>
                  after.inThinking && after.thinkingTokens == row.thinkingTokens + 1)
  {
    hide Output;
  }

  /** At most `budget` tokens are sampled between the start of thinking and the next delimiter. */
  lemma {:induction false} ThinkingBounded(config: Config, prompt: seq<int>, samples: seq<int>, a: nat, j: nat)
    requires config.Valid() && config.budget > 0 && a <= j <= |samples|
    requires ThinkingFrom(config, prompt, Trace(config, Start(config, prompt), samples), a)
    requires NoDelimiter(config, Trace(config, Start(config, prompt), samples), a, j)
    ensures Sampled(Trace(config, Start(config, prompt), samples), a, j) <= config.budget
    ensures Sampled(Trace(config, Start(config, prompt), samples), a, j) <= j - a
    ensures RowAfter(config, Start(config, prompt), samples[..j]).inThinking
    ensures RowAfter(config, Start(config, prompt), samples[..j]).thinkingTokens == j - a
    decreases j - a
  {
    hide After, Config.Valid, Next;
    var start := Start(config, prompt);
    var trace := Trace(config, start, samples);
    if j > a {
      ThinkingBounded(config, prompt, samples, a, j - 1);
      var before := RowAfter(config, start, samples[..j - 1]);
      TraceAt(config, start, samples, j - 1);
      ThinkingOf(config, before, samples[j - 1]);
      AlwaysSafe(config, prompt, samples[..j - 1]);
      MaskOf(before, samples[j - 1]);
    } else if a > 0 {
      TraceAt(config, start, samples, a - 1);
      ThinkingOf(config, RowAfter(config, start, samples[..a - 1]), samples[a - 1]);
    }
  }

  lemma MaskOf(row: Row, sampled: int)
    ensures Next(row, sampled).mask == if row.forced == [] then 1 else 0
  {
  }

  /** Once the budget is spent the closing token is already queued, and comes out of the queue. */
  lemma ThinkingCloses(config: Config, prompt: seq<int>, samples: seq<int>, a: nat, j: nat)
    requires config.Valid() && config.budget > 0 && a + config.budget <= j <= |samples|
    requires ThinkingFrom(config, prompt, Trace(config, Start(config, prompt), samples), a)
    requires NoDelimiter(config, Trace(config, Start(config, prompt), samples), a, j)
    ensures var queue := RowAfter(config, Start(config, prompt), samples[..j]).forced;
            exists k | 0 <= k < |queue| ::
              && queue[k] == config.thinkEnd
              && (j + k < |samples| ==>
                    Trace(config, Start(config, prompt), samples)[j + k] == Event(config.thinkEnd, 0))
  {
    hide After, Next, Config.Valid, Trace;
    ThinkingBounded(config, prompt, samples, a, j);
    AlwaysSafe(config, prompt, samples[..j]);
    var queue := RowAfter(config, Start(config, prompt), samples[..j]).forced;
    var k :| 0 <= k < |queue| && queue[k] == config.thinkEnd;
    if j + k < |samples| {
      QueueDrains(config, Start(config, prompt), samples, j, k);
    }
  }

  // ---------- how many closing tokens come out ----------

  /** Before the budget is spent no closing token is queued, and inside a call nothing else is. */
  ghost predicate Orderly(config: Config, row: Row) {
    && (row.inThinking && row.thinkingTokens < config.budget ==> config.thinkEnd !in row.forced)
    && (row.inToolCall ==> forall token | token in row.forced :: token == config.thinkEnd)
  }

  /** The row between the two switches of a step. */
  ghost function Tooled(config: Config, row: Row, sampled: int): Row {
    var token := Next(row, sampled).token;
    var popped := if row.forced != [] then row.(forced := row.forced[1..]) else row;
    AfterTool(config, AfterToken(config, popped, token), token)
  }

  lemma AfterTooled(config: Config, row: Row, sampled: int)
    ensures After(config, row, sampled) == AfterThinking(config, Tooled(config, row, sampled), Next(row, sampled).token)
  {
  }

  lemma TooledQueue(config: Config, row: Row, sampled: int)
    requires config.Valid() && Safe(config, row) && Orderly(config, row)
    ensures var token, tooled := Next(row, sampled).token, Tooled(config, row, sampled);
            && tooled.inThinking == row.inThinking && tooled.thinkingTokens == row.thinkingTokens
            && (token == config.thinkStart ==> tooled.forced == [])
            && (config.thinkEnd in tooled.forced ==> config.thinkEnd in row.forced)
            && (tooled.inToolCall ==> forall x | x in tooled.forced :: x == config.thinkEnd)
  {
    Distinct(config);
    OutputPlain(config, row.toolCallTokens);
    hide Config.Valid, Config.Specials, Output, Start, AfterThinking, AfterTool;
    var token := Next(row, sampled).token;
    var popped := if row.forced != [] then row.(forced := row.forced[1..]) else row;
    assert row.forced != [] ==> row.forced == [token] + popped.forced;
    assert token in [config.toolStart, config.toolEnd, config.thinkStart] ==> row.forced == [];
    assert forall x | x in popped.forced :: x in row.forced;
    ToolQueue(config, AfterToken(config, popped, token), token);
  }

  /** A tool call's end is all that adds to the queue. */
  lemma ToolQueue(config: Config, row: Row, token: int)
    requires token == config.toolStart ==> row.forced == []
    ensures var tooled := AfterTool(config, row, token);
            && tooled.inThinking == row.inThinking && tooled.thinkingTokens == row.thinkingTokens
            && (tooled.inToolCall ==> tooled.forced == row.forced && (row.inToolCall || row.forced == []))
            && (tooled.forced == row.forced
                || (token == config.toolEnd && tooled.forced == row.forced + Output(config, row.toolCallTokens)))
  {
    hide Output;
  }

  lemma OrderlyStep(config: Config, row: Row, sampled: int)
    requires config.Valid() && Safe(config, row) && Orderly(config, row)
    ensures Orderly(config, After(config, row, sampled))
  {
    hide Config.Valid, Tooled, Safe, AfterTool, After;
    AfterTooled(config, row, sampled);
    TooledQueue(config, row, sampled);
  }

  lemma OutputPlain(config: Config, call: seq<int>)
    requires config.Valid()
    ensures config.thinkEnd !in Output(config, call)
  {
    assert config.Plain(call);
    var s := config.Specials();
    assert s[2] == config.outputStart && s[3] == config.outputEnd && s[6] == config.thinkEnd;
  }

  lemma {:induction false} AlwaysOrderly(config: Config, prompt: seq<int>, samples: seq<int>)
    requires config.Valid()
    ensures Orderly(config, RowAfter(config, Start(config, prompt), samples))
  {
    hide Config.Valid, After;
    if samples != [] {
      var before := samples[..|samples| - 1];
      AlwaysOrderly(config, prompt, before);
      AlwaysSafe(config, prompt, before);
      OrderlyStep(config, RowAfter(config, Start(config, prompt), before), samples[|samples| - 1]);
    }
  }

  /** The step that spends the budget. */
  ghost predicate Spends(config: Config, before: Row, after: Row) {
    && config.budget > 0 && before.inThinking && before.thinkingTokens + 1 == config.budget
    && after.inThinking && after.thinkingTokens == config.budget
  }

  function Closers(config: Config, n: nat): (closers: seq<int>)
    ensures |closers| == n && forall i | 0 <= i < n :: closers[i] == config.thinkEnd
  {
    seq(n, _ => config.thinkEnd)
  }

  /** The budget is spent, `queue` is still ahead of the closing tokens queued so far. */
  ghost predicate Draining(config: Config, row: Row, queue: seq<int>, closers: nat) {
    && config.budget > 0 && row.inThinking && row.thinkingTokens >= config.budget
    && row.forced == queue + Closers(config, closers)
    && config.thinkEnd !in queue && Harmless(config, queue)
    && (row.inToolCall ==> queue == [])
  }

  lemma SpendStarts(config: Config, row: Row, sampled: int)
    requires config.Valid() && Safe(config, row) && Orderly(config, row)
    requires Spends(config, row, After(config, row, sampled))
    ensures var after := After(config, row, sampled);
            && after.forced != []
            && Draining(config, after, after.forced[..|after.forced| - 1], 1)
  {
    hide Config.Valid, Tooled, AfterTool, AfterThinking, After, Harmless, Draining, Start;
    var after, tooled := After(config, row, sampled), Tooled(config, row, sampled);
    AfterTooled(config, row, sampled);
    TooledQueue(config, row, sampled);
    SafeStep(config, row, sampled);
    SpendQueues(config, tooled, Next(row, sampled).token);
    SpentDrains(config, after, tooled.forced);
  }

  lemma SpentDrains(config: Config, row: Row, queue: seq<int>)
    requires config.budget > 0 && row.inThinking && row.thinkingTokens >= config.budget
    requires row.forced == queue + [config.thinkEnd] && config.thinkEnd !in queue && Harmless(config, row.forced)
    requires row.inToolCall ==> forall token | token in queue :: token == config.thinkEnd
    ensures row.forced[..|row.forced| - 1] == queue && Draining(config, row, queue, 1)
  {
    hide Harmless;
    HarmlessLess(config, queue);
    assert Closers(config, 1) == [config.thinkEnd];
    if row.inToolCall {
      OnlyClosers(config, queue);
    }
  }

  lemma OnlyClosers(config: Config, queue: seq<int>)
    requires forall x | x in queue :: x == config.thinkEnd
    ensures queue != [] ==> config.thinkEnd in queue
  {
    if queue != [] {
      var first := queue[0];
      assert first in queue && first == config.thinkEnd;
    }
  }

  lemma SpendQueues(config: Config, row: Row, token: int)
    requires row.thinkingTokens + 1 == config.budget == AfterThinking(config, row, token).thinkingTokens
    ensures AfterThinking(config, row, token).forced == row.forced + [config.thinkEnd]
    ensures AfterThinking(config, row, token).inToolCall == row.inToolCall
  {
  }

  lemma HarmlessLess(config: Config, queue: seq<int>)
    ensures Harmless(config, queue + [config.thinkEnd]) ==> Harmless(config, queue)
  {
    assert forall x | x in queue :: x in queue + [config.thinkEnd];
  }

  lemma DrainingEnds(config: Config, row: Row, queue: seq<int>)
    requires row.forced != [] && queue == row.forced[..|row.forced| - 1] && Draining(config, row, queue, 1)
    ensures config.thinkEnd !in queue && row.forced[|row.forced| - 1] == config.thinkEnd
  {
    assert row.forced[|row.forced| - 1] == Closers(config, 1)[0];
  }

  /** Each token still ahead counts as thinking and queues one more closing token. */
  lemma DrainStep(config: Config, row: Row, queue: seq<int>, closers: nat, sampled: int)
    requires config.Valid() && queue != [] && Draining(config, row, queue, closers)
    ensures Next(row, sampled) == Event(queue[0], 0)
    ensures Draining(config, After(config, row, sampled), queue[1..], closers + 1)
  {
    hide Config.Valid, Output;
    assert row.forced[0] == queue[0] && row.forced[1..] == queue[1..] + Closers(config, closers);
    assert queue[1..] + Closers(config, closers) + [config.thinkEnd] == queue[1..] + Closers(config, closers + 1);
  }

  /** Nothing but stray closing tokens is queued and the trace is closed. */
  ghost predicate Closed(config: Config, row: Row, closers: nat) {
    !row.inThinking && row.forced == Closers(config, closers)
  }

  lemma CloseStep(config: Config, row: Row, closers: nat, sampled: int)
    requires config.Valid() && closers > 0
    requires Draining(config, row, [], closers) || Closed(config, row, closers)
    ensures Next(row, sampled) == Event(config.thinkEnd, 0)
    ensures Closed(config, After(config, row, sampled), closers - 1)
  {
    Distinct(config);
    CloserIsPlain(config);
    hide Config.Valid, Output;
    assert [] + Closers(config, closers) == Closers(config, closers);
    assert Closers(config, closers)[1..] == Closers(config, closers - 1);
  }

  lemma CloserIsPlain(config: Config)
    requires config.Valid()
    ensures config.thinkEnd != config.toolStart && config.thinkEnd != config.toolEnd && config.thinkEnd != config.thinkStart
  {
    Distinct(config);
  }

  /** The row `k` steps after the budget was spent with `queue` ahead: first the queue drains, each
      token adding a closing token, then the closing tokens come out. */
  ghost predicate Winding(config: Config, row: Row, queue: seq<int>, k: nat) {
    if k <= |queue| then Draining(config, row, queue[k..], k + 1)
    else k <= 2 * |queue| + 1 && Closed(config, row, 2 * |queue| + 1 - k)
  }

  lemma WindStep(config: Config, row: Row, queue: seq<int>, k: nat, sampled: int)
    requires config.Valid() && Winding(config, row, queue, k) && k <= 2 * |queue|
    ensures Next(row, sampled) == Event(if k < |queue| then queue[k] else config.thinkEnd, 0)
    ensures Winding(config, After(config, row, sampled), queue, k + 1)
  {
    hide Config.Valid, Draining, Closed, After, Next;
    if k < |queue| {
      DrainStep(config, row, queue[k..], k + 1, sampled);
      assert queue[k..][1..] == queue[k + 1..];
    } else {
      assert k == |queue| ==> queue[k..] == [];
      CloseStep(config, row, 2 * |queue| + 1 - k, sampled);
    }
  }

  lemma {:induction false} Winds(config: Config, row: Row, samples: seq<int>, t: nat, queue: seq<int>, k: nat)
    requires config.Valid() && t + k <= |samples| && k <= 2 * |queue| + 1
    requires Draining(config, RowAfter(config, row, samples[..t]), queue, 1)
    ensures Winding(config, RowAfter(config, row, samples[..t + k]), queue, k)
  {
    hide Config.Valid, Draining, Winding, After;
    if k == 0 {
      assert queue[0..] == queue;
      WindStart(config, RowAfter(config, row, samples[..t]), queue);
    } else {
      Winds(config, row, samples, t, queue, k - 1);
      TraceAt(config, row, samples, t + k - 1);
      WindStep(config, RowAfter(config, row, samples[..t + k - 1]), queue, k - 1, samples[t + k - 1]);
    }
  }

  lemma WindStart(config: Config, row: Row, queue: seq<int>)
    requires Draining(config, row, queue, 1)
    ensures Winding(config, row, queue, 0)
  {
    assert queue[0..] == queue;
  }

  /** When the budget is spent with q tokens queued ahead of the closing token, the run emits exactly
      those q tokens and then exactly q + 1 closing tokens, and is then free of the trace. */
  lemma ClosersExactly(config: Config, prompt: seq<int>, samples: seq<int>, t: nat)
    requires config.Valid() && t < |samples|
    requires Spends(config, RowAfter(config, Start(config, prompt), samples[..t]),
                    RowAfter(config, Start(config, prompt), samples[..t + 1]))
    ensures var trace := Trace(config, Start(config, prompt), samples);
            var forced := RowAfter(config, Start(config, prompt), samples[..t + 1]).forced;
            var q := |forced| - 1;
            && q >= 0 && config.thinkEnd !in forced[..q] && forced[q] == config.thinkEnd
            && (forall k | 0 <= k < q && t + 1 + k < |samples| :: trace[t + 1 + k] == Event(forced[k], 0))
            && (forall i | t + 1 + q <= i <= t + 1 + 2 * q && i < |samples| :: trace[i] == Event(config.thinkEnd, 0))
            && (t + 2 + 2 * q <= |samples| ==>
                  var row := RowAfter(config, Start(config, prompt), samples[..t + 2 + 2 * q]);
                  row.forced == [] && !row.inThinking)
  {
    hide Config.Valid, After, Next, Spends, Orderly, Safe, Draining, Winding;
    var start := Start(config, prompt);
    var before, after := RowAfter(config, start, samples[..t]), RowAfter(config, start, samples[..t + 1]);
    AlwaysSafe(config, prompt, samples[..t]);
    AlwaysOrderly(config, prompt, samples[..t]);
    TraceAt(config, start, samples, t);
    SpendStarts(config, before, samples[t]);
    var q := |after.forced| - 1;
    var queue := after.forced[..q];
    DrainingEnds(config, after, queue);
    forall i | t + 1 <= i <= t + 1 + 2 * q && i < |samples|
      ensures Trace(config, start, samples)[i] == Event(if i - t - 1 < q then queue[i - t - 1] else config.thinkEnd, 0)
    {
      WindAt(config, start, samples, t + 1, queue, i - t - 1);
    }
    if t + 2 + 2 * q <= |samples| {
      Winds(config, start, samples, t + 1, queue, 2 * q + 1);
      WoundUp(config, RowAfter(config, start, samples[..t + 2 + 2 * q]), queue);
    }
  }

  lemma WindAt(config: Config, row: Row, samples: seq<int>, t: nat, queue: seq<int>, k: nat)
    requires config.Valid() && t + k < |samples| && k <= 2 * |queue|
    requires Draining(config, RowAfter(config, row, samples[..t]), queue, 1)
    ensures Trace(config, row, samples)[t + k] == Event(if k < |queue| then queue[k] else config.thinkEnd, 0)
  {
    hide Config.Valid, Draining, Winding, After, Next;
    Winds(config, row, samples, t, queue, k);
    TraceAt(config, row, samples, t + k);
    WindStep(config, RowAfter(config, row, samples[..t + k]), queue, k, samples[t + k]);
  }

  lemma WoundUp(config: Config, row: Row, queue: seq<int>)
    requires Winding(config, row, queue, 2 * |queue| + 1)
    ensures row.forced == [] && !row.inThinking
  {
  }

  /** A single closing token comes out exactly when nothing was queued as the budget ran out. */
  lemma OneCloserIff(config: Config, prompt: seq<int>, samples: seq<int>, t: nat)
    requires config.Valid() && t < |samples|
    requires Spends(config, RowAfter(config, Start(config, prompt), samples[..t]),
                    RowAfter(config, Start(config, prompt), samples[..t + 1]))
    requires t + 1 + |RowAfter(config, Start(config, prompt), samples[..t + 1]).forced| < |samples|
    ensures var forced := RowAfter(config, Start(config, prompt), samples[..t + 1]).forced;
            Trace(config, Start(config, prompt), samples)[t + 1 + |forced|].mask == 1 <==> forced == [config.thinkEnd]
  {
    hide Config.Valid, After, Next, Spends;
    var start := Start(config, prompt);
    var forced := RowAfter(config, start, samples[..t + 1]).forced;
    ClosersExactly(config, prompt, samples, t);
    var q := |forced| - 1;
    assert forced == forced[..q] + [forced[q]];
    if q == 0 {
      assert forced == [config.thinkEnd];
    } else {
      assert Trace(config, start, samples)[t + 2 + q] == Event(config.thinkEnd, 0);
    }
    TraceAt(config, start, samples, t + 1 + |forced|);
    MaskOf(RowAfter(config, start, samples[..t + 1 + |forced|]), samples[t + 1 + |forced|]);
  }

  /** A budget of four, and a tool that always answers 100. */
  function BudgetOfFour(): Config {
    Config(1, 2, 3, 4, 5, 6, 7, 8, true, 4, _ => Some([100]))
  }

  /** A tool call inside the trace: its output block is half out when the budget is spent, so three
      closing tokens come out where one was meant. */
  lemma StrayClosers(rest: seq<int>)
    requires |rest| == 6
    ensures var samples := [1, 50, 2] + rest;
            TokensOf(Trace(BudgetOfFour(), Start(BudgetOfFour(), [6]), samples)) == [1, 50, 2, 3, 100, 4, 7, 7, 7]
  {
    var config, samples := BudgetOfFour(), [1, 50, 2] + rest;
    var start := Start(config, [6]);
    FourValid();
    hide RowAfter, Trace, After, Next, Config.Valid, Start;
    FirstSteps(rest);
    FirstTokens(rest);
    ClosersExactly(config, [6], samples, 3);
    var trace := Trace(config, start, samples);
    var forced := RowAfter(config, start, samples[..4]).forced;
    assert forced[0] == 100 && forced[1] == 4;
    assert trace[4] == Event(100, 0) && trace[5] == Event(4, 0);
    assert trace[6] == trace[7] == trace[8] == Event(7, 0);
    FirstNine(trace);
  }

  lemma FourValid()
    ensures BudgetOfFour().Valid()
  {
    assert forall call :: BudgetOfFour().Plain(call);
  }

  lemma FirstNine(trace: seq<Event>)
    requires |trace| == 9
    ensures TokensOf(trace) == [trace[0].token, trace[1].token, trace[2].token, trace[3].token, trace[4].token,
                                trace[5].token, trace[6].token, trace[7].token, trace[8].token]
  {
  }

  lemma FirstTokens(rest: seq<int>)
    requires |rest| == 6
    ensures var trace := Trace(BudgetOfFour(), Start(BudgetOfFour(), [6]), [1, 50, 2] + rest);
            trace[0] == Event(1, 1) && trace[1] == Event(50, 1) && trace[2] == Event(2, 1) && trace[3] == Event(3, 0)
  {
    var config, samples := BudgetOfFour(), [1, 50, 2] + rest;
    var start := Start(config, [6]);
    hide RowAfter, Trace, After;
    FirstSteps(rest);
    TraceAt(config, start, samples, 0);
    TraceAt(config, start, samples, 1);
    TraceAt(config, start, samples, 2);
    TraceAt(config, start, samples, 3);
  }

  /** The row of that run up to the step that spends the budget. */
  lemma FirstSteps(rest: seq<int>)
    requires |rest| == 6
    ensures var config, samples := BudgetOfFour(), [1, 50, 2] + rest;
            var start := Start(config, [6]);
            && RowAfter(config, start, samples[..0]) == start
            && RowAfter(config, start, samples[..1]) == Row([], true, [], true, 1, false, [6, 1])
            && RowAfter(config, start, samples[..2]) == Row([], true, [50], true, 2, false, [6, 1, 50])
            && RowAfter(config, start, samples[..3]) == Row([3, 100, 4], false, [], true, 3, false, [6, 1, 50, 2])
            && RowAfter(config, start, samples[..4]) == Row([100, 4, 7], false, [], true, 4, false, [6, 1, 50, 2, 3])
  {
    var config, samples := BudgetOfFour(), [1, 50, 2] + rest;
    var start := Start(config, [6]);
    forall i: nat | i < 4
      ensures RowAfter(config, start, samples[..i + 1]) == After(config, RowAfter(config, start, samples[..i]), samples[i])
    {
      TraceAt(config, start, samples, i);
    }
    assert samples[0] == 1 && samples[1] == 50 && samples[2] == 2;
    assert After(config, start, 1) == Row([], true, [], true, 1, false, [6, 1]);
    assert After(config, Row([], true, [], true, 1, false, [6, 1]), 50) == Row([], true, [50], true, 2, false, [6, 1, 50]);
    assert After(config, Row([], true, [50], true, 2, false, [6, 1, 50]), 2)
        == Row([3, 100, 4], false, [], true, 3, false, [6, 1, 50, 2]);
    assert After(config, Row([3, 100, 4], false, [], true, 3, false, [6, 1, 50, 2]), samples[3])
        == Row([100, 4, 7], false, [], true, 4, false, [6, 1, 50, 2, 3]);
  }

  // ---------- the generation loop ----------

  ghost function SampledRow(samples: (nat, nat) -> int, row: nat, columns: nat): (samplesOfRow: seq<int>)
    ensures |samplesOfRow| == columns
  {
    seq(columns, column requires column >= 0 => samples(column, row))
  }

  lemma SampledRowGrows(samples: (nat, nat) -> int, row: nat, columns: nat)
    ensures SampledRow(samples, row, columns + 1) == SampledRow(samples, row, columns) + [samples(columns, row)]
  {
  }

  /** Every row's state after `columns` columns. */
  ghost predicate Follow(
      config: Config, prompt: seq<int>, samples: (nat, nat) -> int, states: seq<RowState>, columns: nat)
    reads states
  {
    forall r | 0 <= r < |states| :: FollowsAt(config, prompt, samples, states[r], r, columns)
  }

  ghost predicate FollowsAt(
      config: Config, prompt: seq<int>, samples: (nat, nat) -> int, state: RowState, r: nat, columns: nat)
    reads state
  {
    state.Value() == RowAfter(config, Start(config, prompt), SampledRow(samples, r, columns))
  }

  ghost predicate Recorded(
      config: Config, prompt: seq<int>, rows: nat, samples: (nat, nat) -> int, columns: seq<seq<Event>>)
  {
    && (forall c | 0 <= c < |columns| :: |columns[c]| == rows)
    && forall r, c | 0 <= r < rows && 0 <= c < |columns| ::
         columns[c][r] == Trace(config, Start(config, prompt), SampledRow(samples, r, |columns|))[c]
  }

  method StepColumn(config: Config, ghost prompt: seq<int>, states: seq<RowState>, samples: (nat, nat) -> int, n: nat)
      returns (column: seq<Event>)
    requires forall i, j | 0 <= i < j < |states| :: states[i] != states[j]
    requires Follow(config, prompt, samples, states, n)
    modifies states
    ensures Follow(config, prompt, samples, states, n + 1)
    ensures |column| == |states|
    ensures forall r | 0 <= r < |states| ::
              column[r] == Next(RowAfter(config, Start(config, prompt), SampledRow(samples, r, n)), samples(n, r))
  {
    hide After, Next, FollowsAt;
    column := [];
    for r := 0 to |states|
      invariant |column| == r
      invariant forall i | 0 <= i < r ::
                  column[i] == Next(RowAfter(config, Start(config, prompt), SampledRow(samples, i, n)), samples(n, i))
      invariant forall i | 0 <= i < r :: FollowsAt(config, prompt, samples, states[i], i, n + 1)
      invariant forall i | r <= i < |states| :: FollowsAt(config, prompt, samples, states[i], i, n)
    {
      var event := StepRow(config, prompt, states[r], samples, r, n);
      column := column + [event];
    }
  }

  method StepRow(
      config: Config, ghost prompt: seq<int>, state: RowState, samples: (nat, nat) -> int, r: nat, n: nat)
      returns (event: Event)
    requires FollowsAt(config, prompt, samples, state, r, n)
    modifies state
    ensures FollowsAt(config, prompt, samples, state, r, n + 1)
    ensures event == Next(RowAfter(config, Start(config, prompt), SampledRow(samples, r, n)), samples(n, r))
  {
    hide After, Next;
    SampledRowGrows(samples, r, n);
    event := state.Step(config, samples(n, r));
  }

  lemma RecordColumn(
      config: Config, prompt: seq<int>, rows: nat, samples: (nat, nat) -> int, columns: seq<seq<Event>>,
      column: seq<Event>)
    requires Recorded(config, prompt, rows, samples, columns) && |column| == rows
    requires forall r | 0 <= r < rows ::
               column[r] == Next(RowAfter(config, Start(config, prompt), SampledRow(samples, r, |columns|)),
                                 samples(|columns|, r))
    ensures Recorded(config, prompt, rows, samples, columns + [column])
  {
    hide Next, RowAfter;
    forall r, c | 0 <= r < rows && 0 <= c < |columns| + 1
      ensures (columns + [column])[c][r]
              == Trace(config, Start(config, prompt), SampledRow(samples, r, |columns| + 1))[c]
    {
      SampledRowGrows(samples, r, |columns|);
    }
  }

  method AllDone(states: seq<RowState>) returns (done: bool)
    ensures done <==> forall r | 0 <= r < |states| :: states[r].completed
  {
    done := true;
    for r := 0 to |states|
      invariant done && forall i | 0 <= i < r :: states[i].completed
    {
      if !states[r].completed {
        return false;
      }
    }
  }

  /** Every column steps every row, finished or not, until all rows are done, the limit is reached
      or the consumer stops asking after `patience` more columns. `samples(column, row)` is whatever
      the model and the sampler produced. */
  method GenerateRows(
      config: Config, prompt: seq<int>, rows: nat, maxTokens: int, samples: (nat, nat) -> int, patience: nat)
      returns (columns: seq<seq<Event>>)
    ensures |columns| <= patience + 1 && (maxTokens > 0 ==> |columns| <= maxTokens)
    ensures Recorded(config, prompt, rows, samples, columns)
    ensures |columns| == patience + 1 || (maxTokens > 0 && |columns| == maxTokens)
            || forall r | 0 <= r < rows ::
                 RowAfter(config, Start(config, prompt), SampledRow(samples, r, |columns|)).completed
  {
    hide After, Next, RowAfter, Recorded, Follow;
    var states := FreshRows(config, prompt, rows, samples);
    columns := [];
    NothingRecorded(config, prompt, rows, samples);
    while maxTokens <= 0 || |columns| < maxTokens
      invariant |columns| <= patience && (maxTokens > 0 ==> |columns| <= maxTokens)
      invariant |states| == rows && forall i | 0 <= i < rows :: fresh(states[i])
      invariant forall i, j | 0 <= i < j < rows :: states[i] != states[j]
      invariant Follow(config, prompt, samples, states, |columns|)
      invariant Recorded(config, prompt, rows, samples, columns)
      decreases patience + 1 - |columns|
    {
      var allDone := AllDone(states);
      if allDone {
        RowsDone(config, prompt, samples, states, |columns|);
        return;
      }
      var column := StepColumn(config, prompt, states, samples, |columns|);
      RecordColumn(config, prompt, rows, samples, columns, column);
      columns := columns + [column];
      if |columns| > patience {
        return;
      }
    }
  }

  method FreshRows(config: Config, prompt: seq<int>, rows: nat, ghost samples: (nat, nat) -> int)
      returns (states: seq<RowState>)
    ensures |states| == rows && forall i | 0 <= i < rows :: fresh(states[i])
    ensures forall i, j | 0 <= i < j < rows :: states[i] != states[j]
    ensures Follow(config, prompt, samples, states, 0)
  {
    states := [];
    for r := 0 to rows
      invariant |states| == r
      invariant forall i | 0 <= i < r :: fresh(states[i]) && states[i].Value() == Start(config, prompt)
      invariant forall i, j | 0 <= i < j < r :: states[i] != states[j]
    {
      var state := new RowState(config, prompt);
      states := states + [state];
    }
  }

  lemma NothingRecorded(config: Config, prompt: seq<int>, rows: nat, samples: (nat, nat) -> int)
    ensures Recorded(config, prompt, rows, samples, [])
  {
  }

  lemma RowsDone(config: Config, prompt: seq<int>, samples: (nat, nat) -> int, states: seq<RowState>, columns: nat)
    requires Follow(config, prompt, samples, states, columns)
    requires forall r | 0 <= r < |states| :: states[r].completed
    ensures forall r | 0 <= r < |states| ::
              RowAfter(config, Start(config, prompt), SampledRow(samples, r, columns)).completed
  {
    hide RowAfter;
    forall r | 0 <= r < |states|
      ensures RowAfter(config, Start(config, prompt), SampledRow(samples, r, columns)).completed
    {
      assert states[r].Value().completed;
    }
  }
}
