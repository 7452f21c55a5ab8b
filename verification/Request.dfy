/** Which requests are answered with the same tokens by both loops, told before they run. */
module Requests {
  import opened Ordinary
  import opened RowProtocol
  import opened Streams
  import opened Wrappers

  /** Something a network can write between a tool call's delimiters. */
  ghost predicate Writable(config: Config, call: seq<int>) {
    && call != [] && config.toolStart !in call && config.toolEnd !in call
    && config.assistantEnd !in call && config.bos !in call
  }

  predicate Primed(config: Config, prompt: seq<int>) {
    prompt != [] && prompt[|prompt| - 1] == config.thinkStart
  }

  /** How many columns thinking is behind: a trace that is not primed takes one to open. */
  function Lag(config: Config, prompt: seq<int>): nat {
    if Primed(config, prompt) then 0 else 1
  }

  /** No tool answers a call that fits the limit with its delimiters and one column of output. */
  ghost predicate NoAnswer(config: Config, limit: int) {
    forall call | Writable(config, call) && |call| + 3 <= limit :: config.execute(call).None?
  }

  /** The limit ends before a closing token is forced. */
  predicate BudgetLasts(config: Config, prompt: seq<int>, limit: int) {
    config.budget > 0 ==> config.budget + Lag(config, prompt) >= limit
  }

  // ---------- nothing is forced ----------

  /** What is counted of a trace after `n` columns. */
  ghost predicate Thought(config: Config, prompt: seq<int>, row: Row, n: nat) {
    config.budget > 0 && row.inThinking ==> row.thinkingTokens + Lag(config, prompt) <= n
  }

  ghost predicate CallFits(config: Config, row: Row, n: nat) {
    row.inToolCall ==>
      && |row.toolCallTokens| + 1 <= n
      && (row.toolCallTokens != [] ==> Writable(config, row.toolCallTokens))
  }

  /** A row with an empty queue after `n` columns. */
  ghost predicate Calm(config: Config, prompt: seq<int>, row: Row, n: nat) {
    row.forced == [] && Thought(config, prompt, row, n) && CallFits(config, row, n)
  }

  lemma ThoughtStep(config: Config, prompt: seq<int>, row: Row, token: int, n: nat)
    requires Thought(config, prompt, row, n) && row.forced == []
    requires config.budget > 0 ==> n + 1 < config.budget + Lag(config, prompt)
    ensures AfterThinking(config, row, token).forced == []
    ensures Thought(config, prompt, AfterThinking(config, row, token), n + 1)
  {
  }

  lemma CallStep(config: Config, row: Row, token: int, n: nat, limit: int)
    requires row.forced == [] && CallFits(config, row, n) && NoAnswer(config, limit) && n + 2 <= limit
    requires !Stops(config, token)
    ensures var after := AfterTool(config, row, token);
            after.forced == [] && CallFits(config, after, n + 1)
            && after.inThinking == row.inThinking && after.thinkingTokens == row.thinkingTokens
  {
    if token == config.toolEnd && row.inToolCall {
      assert row.toolCallTokens != [] ==> config.execute(row.toolCallTokens).None?;
    }
  }

  /** One more column with another to come keeps the queue empty. */
  lemma CalmStep(config: Config, prompt: seq<int>, row: Row, sampled: int, n: nat, limit: int)
    requires Calm(config, prompt, row, n) && NoAnswer(config, limit) && BudgetLasts(config, prompt, limit)
    requires n + 2 <= limit && !Stops(config, sampled)
    ensures Calm(config, prompt, After(config, row, sampled), n + 1)
  {
    hide AfterTool, AfterThinking, NoAnswer, Writable;
    var tooled := AfterTool(config, AfterToken(config, row, sampled), sampled);
    CallStep(config, AfterToken(config, row, sampled), sampled, n, limit);
    ThoughtStep(config, prompt, tooled, sampled, n);
    ThinkingKeepsCall(config, tooled, sampled);
  }

  lemma ThinkingKeepsCall(config: Config, row: Row, token: int)
    ensures var after := AfterThinking(config, row, token);
            after.inToolCall == row.inToolCall && after.toolCallTokens == row.toolCallTokens
  {
  }

  lemma {:induction false} StaysCalm(engine: Engine, prompt: seq<int>, columns: seq<Event>, limit: int, n: nat)
    requires NoAnswer(engine.config, limit) && BudgetLasts(engine.config, prompt, limit)
    requires n < |columns| <= limit && forall i: nat | i < |columns| :: ColumnAt(engine, prompt, columns, i)
    ensures Calm(engine.config, prompt, RowAt(engine, prompt, n), n)
  {
    hide NoAnswer, BudgetLasts, After;
    if n == 0 {
      assert RowAt(engine, prompt, 0) == Start(engine.config, prompt);
    } else {
      hide Calm;
      StaysCalm(engine, prompt, columns, limit, n - 1);
      var row := RowAt(engine, prompt, n - 1);
      var sampled := engine.next(row.tokens);
      assert ColumnAt(engine, prompt, columns, n - 1) && ColumnAt(engine, prompt, columns, n);
      CalmSamples(engine.config, prompt, row, sampled, n - 1);
      TokenStep(engine.config, row, sampled);
      CalmStep(engine.config, prompt, row, sampled, n - 1, limit);
    }
  }

  lemma CalmSamples(config: Config, prompt: seq<int>, row: Row, sampled: int, n: nat)
    requires Calm(config, prompt, row, n)
    ensures Next(row, sampled) == Event(sampled, 1)
  {
  }

  /** Within such a limit every column of every run is sampled. */
  lemma AllSampled(engine: Engine, prompt: seq<int>, columns: seq<Event>, limit: int)
    requires NoAnswer(engine.config, limit) && BudgetLasts(engine.config, prompt, limit) && |columns| <= limit
    requires forall i: nat | i < |columns| :: ColumnAt(engine, prompt, columns, i)
    ensures Unforced(columns)
  {
    hide NoAnswer, BudgetLasts, RowAt, Calm;
    forall n: nat | n < |columns| ensures columns[n].mask == 1 {
      StaysCalm(engine, prompt, columns, limit, n);
      assert ColumnAt(engine, prompt, columns, n);
      var row := RowAt(engine, prompt, n);
      CalmSamples(engine.config, prompt, row, engine.next(row.tokens), n);
    }
  }

  // ---------- requests for which the two differ ----------

  function AtMost(count: nat): seq<Event> -> bool {
    (columns: seq<Event>) => |columns| < count
  }

  /** A network that writes the script behind the prompt, and then always the same token. */
  function Scripted(config: Config, contextLength: nat, prompt: seq<int>, script: seq<int>, rest: int): Engine {
    Engine(config,
           (tokens: seq<int>) =>
             if |prompt| <= |tokens| < |prompt| + |script| then script[|tokens| - |prompt|] else rest,
           contextLength)
  }

  function Size(x: int): nat {
    if x < 0 then -x else x
  }

  /** A token that is none of the special ones. */
  function Ordinal(config: Config): int {
    1 + Size(config.toolStart) + Size(config.toolEnd) + Size(config.outputStart) + Size(config.outputEnd)
    + Size(config.assistantEnd) + Size(config.thinkStart) + Size(config.thinkEnd) + Size(config.bos)
  }

  ghost function EventsOf(engine: Engine, prompt: seq<int>, n: nat): (columns: seq<Event>)
    ensures |columns| == n && forall i | 0 <= i < n :: columns[i] == EventAt(engine, prompt, i)
  {
    seq(n, i requires 0 <= i < n => EventAt(engine, prompt, i))
  }

  ghost predicate NeverStops(engine: Engine) {
    forall tokens :: !Stops(engine.config, engine.next(tokens))
  }

  lemma {:induction false} NeverDone(engine: Engine, prompt: seq<int>, n: nat)
    requires engine.config.Valid() && NeverStops(engine)
    ensures !RowAt(engine, prompt, n).completed && !Stops(engine.config, EventAt(engine, prompt, n).token)
    ensures |RowAt(engine, prompt, n).tokens| == |prompt| + n
  {
    hide Config.Valid, After, Next;
    if n == 0 {
      assert RowAt(engine, prompt, 0) == Start(engine.config, prompt);
    } else {
      NeverDone(engine, prompt, n - 1);
      var row := RowAt(engine, prompt, n - 1);
      TokenStep(engine.config, row, engine.next(row.tokens));
    }
    SafeAt(engine, prompt, n);
    StopIsSampled(engine, prompt, n);
    SampledEvent(engine, prompt, n);
  }

  lemma SampledEvent(engine: Engine, prompt: seq<int>, n: nat)
    ensures EventAt(engine, prompt, n).mask == 1 ==>
              EventAt(engine, prompt, n).token == engine.next(RowAt(engine, prompt, n).tokens)
  {
    hide RowAt;
  }

  lemma {:induction false} KeepsRunning(engine: Engine, prompt: seq<int>, maxTokens: nat, count: nat, n: nat)
    requires Accepted(engine, prompt) && |prompt| + count <= engine.contextLength + 1
    requires engine.config.Valid() && NeverStops(engine) && n < count <= maxTokens
    ensures Running(engine, prompt, maxTokens, AtMost(count), EventsOf(engine, prompt, n))
  {
    hide RowAt, EventAt, Running, IsRun, Config.Valid, NeverStops;
    if n == 0 {
      NothingYet(engine, prompt, maxTokens, AtMost(count));
      assert EventsOf(engine, prompt, 0) == [];
    } else {
      KeepsRunning(engine, prompt, maxTokens, count, n - 1);
      NeverDone(engine, prompt, n - 1);
      var before, event := EventsOf(engine, prompt, n - 1), EventAt(engine, prompt, n - 1);
      RunningColumn(engine, prompt, maxTokens, AtMost(count), before, event);
      assert EventsOf(engine, prompt, n) == before + [event];
    }
  }

  /** As many columns as fit come out when the network never stops. */
  lemma RunOf(engine: Engine, prompt: seq<int>, maxTokens: nat, count: nat)
    requires Accepted(engine, prompt) && |prompt| + count <= engine.contextLength + 1
    requires engine.config.Valid() && NeverStops(engine) && 0 < count <= maxTokens
    ensures IsRun(engine, prompt, maxTokens, AtMost(count), EventsOf(engine, prompt, count), false)
    ensures Kept(engine.config, EventsOf(engine, prompt, count)) == TokensOf(EventsOf(engine, prompt, count))
  {
    hide RowAt, EventAt, Running, IsRun, Config.Valid, NeverStops;
    KeepsRunning(engine, prompt, maxTokens, count, count - 1);
    NeverDone(engine, prompt, count - 1);
    var before, event := EventsOf(engine, prompt, count - 1), EventAt(engine, prompt, count - 1);
    RunningColumn(engine, prompt, maxTokens, AtMost(count), before, event);
    assert EventsOf(engine, prompt, count) == before + [event];
  }

  /** A forced token that is not the network's choice parts the two loops. */
  lemma ForcedParts(engine: Engine, prompt: seq<int>, maxTokens: nat, count: nat)
    requires Accepted(engine, prompt) && |prompt| + count <= engine.contextLength + 1
    requires engine.config.Valid() && NeverStops(engine) && 0 < count <= maxTokens
    requires forall tokens | |tokens| == |prompt| + count - 1 ::
               engine.next(tokens) != EventAt(engine, prompt, count - 1).token
    ensures IsRun(engine, prompt, maxTokens, AtMost(count), EventsOf(engine, prompt, count), false)
    ensures !SameTokens(engine, prompt, maxTokens, AtMost(count), EventsOf(engine, prompt, count))
  {
    hide RowAt, EventAt, IsRun, Config.Valid, NeverStops, SameTokens;
    RunOf(engine, prompt, maxTokens, count);
    var columns := EventsOf(engine, prompt, count);
    assert |prompt + TokensOf(columns)[..count - 1]| == |prompt| + count - 1;
    if SameTokens(engine, prompt, maxTokens, AtMost(count), columns) {
      AgreementIsGreedy(engine, prompt, maxTokens, AtMost(count), columns, count - 1);
      assert false;
    }
  }

  lemma OrdinalIsPlain(config: Config)
    ensures forall id | id in config.Specials() :: id != Ordinal(config)
    ensures !Stops(config, Ordinal(config)) && Ordinal(config) != config.toolStart && Ordinal(config) != config.toolEnd
    ensures Ordinal(config) != config.thinkStart && Ordinal(config) != config.thinkEnd
    ensures Ordinal(config) != config.outputStart
  {
  }

  /** Without a positive limit the ordinary loop yields a token that speculation does not. */
  lemma NoLimitDiffers(config: Config, prompt: seq<int>, contextLength: nat, maxTokens: int)
      returns (engine: Engine, columns: seq<Event>)
    requires 0 < |prompt| <= contextLength && maxTokens <= 0
    ensures engine.config == config && engine.contextLength == contextLength
    ensures IsRun(engine, prompt, maxTokens, AtMost(2), columns, true)
    ensures !SameTokens(engine, prompt, maxTokens, AtMost(2), columns)
  {
    hide Running, IsRun, SameTokens;
    engine := Scripted(config, contextLength, prompt, [], Ordinal(config));
    OrdinalIsPlain(config);
    NothingYet(engine, prompt, maxTokens, AtMost(2));
    assert RowAt(engine, prompt, 0) == Start(config, prompt);
    RunningColumn(engine, prompt, maxTokens, AtMost(2), [], EventAt(engine, prompt, 0));
    columns := [] + [EventAt(engine, prompt, 0)];
    SameWithoutLimit(engine, prompt, maxTokens, AtMost(2), columns, true);
  }

  /** Past the context window the ordinary loop goes on. */
  lemma WindowDiffers(config: Config, prompt: seq<int>, contextLength: nat, maxTokens: int)
      returns (engine: Engine, count: nat, columns: seq<Event>)
    requires config.Valid() && 0 < |prompt| <= contextLength && 0 < maxTokens && |prompt| + maxTokens > contextLength
    ensures engine.config == config && engine.contextLength == contextLength
    ensures IsRun(engine, prompt, maxTokens, AtMost(count), columns, false)
    ensures !SameTokens(engine, prompt, maxTokens, AtMost(count), columns)
  {
    hide RowAt, EventAt, IsRun, Config.Valid, SameTokens;
    engine := Scripted(config, contextLength, prompt, [], Ordinal(config));
    count := contextLength + 1 - |prompt|;
    OrdinalIsPlain(config);
    RunOf(engine, prompt, maxTokens, count);
    columns := EventsOf(engine, prompt, count);
    if SameTokens(engine, prompt, maxTokens, AtMost(count), columns) {
      AgreementIsGreedy(engine, prompt, maxTokens, AtMost(count), columns, count - 1);
      assert false;
    }
  }

  // ---------- a budget that runs out ----------

  function Opening(config: Config, prompt: seq<int>): (script: seq<int>)
    ensures |script| == Lag(config, prompt)
  {
    if Primed(config, prompt) then [] else [config.thinkStart]
  }

  /** The row while it thinks and thinks, up to the column at which the budget is spent. */
  ghost predicate Thinks(config: Config, prompt: seq<int>, row: Row, n: nat) {
    && !row.inToolCall && |row.tokens| == |prompt| + n
    && (n < Lag(config, prompt) ==> !row.inThinking && row.forced == [])
    && (n >= Lag(config, prompt) ==>
          && row.inThinking && row.thinkingTokens == n - Lag(config, prompt)
          && row.forced == if row.thinkingTokens < config.budget then [] else [config.thinkEnd])
  }

  lemma {:induction false} ThinksOn(config: Config, prompt: seq<int>, contextLength: nat, n: nat)
    requires config.Valid() && config.budget > 0 && prompt != [] && n <= config.budget + Lag(config, prompt)
    ensures Thinks(config, prompt,
                   RowAt(Scripted(config, contextLength, prompt, Opening(config, prompt), Ordinal(config)), prompt, n), n)
  {
    hide Config.Valid, Thinks, After;
    var engine := Scripted(config, contextLength, prompt, Opening(config, prompt), Ordinal(config));
    if n == 0 {
      assert RowAt(engine, prompt, 0) == Start(config, prompt);
      ThinksStart(config, prompt);
    } else {
      ThinksOn(config, prompt, contextLength, n - 1);
      var row := RowAt(engine, prompt, n - 1);
      ThinksTokens(config, prompt, row, n - 1);
      var sampled := if n - 1 < Lag(config, prompt) then config.thinkStart else Ordinal(config);
      assert engine.next(row.tokens) == sampled;
      OrdinalIsPlain(config);
      Distinct(config);
      ThinksStep(config, prompt, row, sampled, n - 1);
    }
  }

  lemma ThinksStart(config: Config, prompt: seq<int>)
    requires config.budget > 0 && prompt != []
    ensures Thinks(config, prompt, Start(config, prompt), 0)
  {
  }

  lemma ThinksTokens(config: Config, prompt: seq<int>, row: Row, n: nat)
    requires Thinks(config, prompt, row, n)
    ensures |row.tokens| == |prompt| + n
  {
  }

  lemma ThinksStep(config: Config, prompt: seq<int>, row: Row, sampled: int, n: nat)
    requires config.budget > 0 && Thinks(config, prompt, row, n) && n < config.budget + Lag(config, prompt)
    requires sampled != config.toolStart
    requires n >= Lag(config, prompt) ==> sampled != config.thinkStart && sampled != config.thinkEnd
    requires n < Lag(config, prompt) ==> sampled == config.thinkStart
    ensures Thinks(config, prompt, After(config, row, sampled), n + 1)
  {
  }

  lemma BudgetDiffers(config: Config, prompt: seq<int>, contextLength: nat, maxTokens: nat)
      returns (engine: Engine, count: nat, columns: seq<Event>)
    requires config.Valid() && 0 < |prompt| && |prompt| + maxTokens <= contextLength
    requires !BudgetLasts(config, prompt, maxTokens)
    ensures engine.config == config && engine.contextLength == contextLength
    ensures IsRun(engine, prompt, maxTokens, AtMost(count), columns, false)
    ensures !SameTokens(engine, prompt, maxTokens, AtMost(count), columns)
  {
    hide RowAt, IsRun, Config.Valid, SameTokens;
    engine := Scripted(config, contextLength, prompt, Opening(config, prompt), Ordinal(config));
    count := config.budget + Lag(config, prompt) + 1;
    OrdinalIsPlain(config);
    Distinct(config);
    ToolsDoNotStop(config);
    ThinksOn(config, prompt, contextLength, count - 1);
    assert EventAt(engine, prompt, count - 1).token == config.thinkEnd;
    ForcedParts(engine, prompt, maxTokens, count);
    columns := EventsOf(engine, prompt, count);
  }

  // ---------- a call that is answered ----------

  /** The row while it writes a call. */
  ghost predicate Writes(config: Config, prompt: seq<int>, call: seq<int>, row: Row, n: nat) {
    && row.forced == [] && Thought(config, prompt, row, n) && |row.tokens| == |prompt| + n
    && (n == 0 ==> !row.inToolCall)
    && (0 < n <= |call| + 1 ==> row.inToolCall && row.toolCallTokens == call[..n - 1])
  }

  function CallScript(config: Config, call: seq<int>): seq<int> {
    [config.toolStart] + call + [config.toolEnd]
  }

  lemma WritesStep(config: Config, prompt: seq<int>, call: seq<int>, row: Row, n: nat)
    requires config.Valid() && Writable(config, call) && Writes(config, prompt, call, row, n) && n <= |call|
    requires config.budget > 0 ==> n + 1 < config.budget + Lag(config, prompt)
    ensures Writes(config, prompt, call, After(config, row, CallScript(config, call)[n]), n + 1)
  {
    hide AfterThinking, Config.Valid;
    var token := CallScript(config, call)[n];
    var tooled := AfterTool(config, AfterToken(config, row, token), token);
    if n > 0 {
      assert token == call[n - 1] && token in call;
      assert call[..n] == call[..n - 1] + [token];
    }
    ThoughtStep(config, prompt, tooled, token, n);
    ThinkingKeepsCall(config, tooled, token);
    ThinkingKeepsTokens(config, tooled, token);
  }

  lemma ThinkingKeepsTokens(config: Config, row: Row, token: int)
    ensures AfterThinking(config, row, token).tokens == row.tokens
  {
  }

  lemma {:induction false} WritesOn(
      config: Config, prompt: seq<int>, contextLength: nat, call: seq<int>, limit: nat, n: nat)
    requires config.Valid() && prompt != [] && Writable(config, call) && |call| + 3 <= limit
    requires BudgetLasts(config, prompt, limit) && n <= |call| + 1
    ensures Writes(config, prompt, call,
                   RowAt(Scripted(config, contextLength, prompt, CallScript(config, call), Ordinal(config)), prompt, n), n)
  {
    hide Config.Valid, Writable, After, Writes;
    var engine := Scripted(config, contextLength, prompt, CallScript(config, call), Ordinal(config));
    if n == 0 {
      WritesStart(config, prompt, call);
      assert RowAt(engine, prompt, 0) == Start(config, prompt);
    } else {
      WritesOn(config, prompt, contextLength, call, limit, n - 1);
      var row := RowAt(engine, prompt, n - 1);
      WritesTokens(config, prompt, call, row, n - 1);
      WritesStep(config, prompt, call, row, n - 1);
    }
  }

  lemma WritesStart(config: Config, prompt: seq<int>, call: seq<int>)
    requires prompt != []
    ensures Writes(config, prompt, call, Start(config, prompt), 0)
  {
  }

  lemma WritesTokens(config: Config, prompt: seq<int>, call: seq<int>, row: Row, n: nat)
    requires Writes(config, prompt, call, row, n)
    ensures |row.tokens| == |prompt| + n
  {
  }

  /** Closing the call puts its output into the queue. */
  lemma Answered(config: Config, prompt: seq<int>, call: seq<int>, row: Row)
    requires config.Valid() && Writable(config, call) && config.execute(call).Some?
    requires Writes(config, prompt, call, row, |call| + 1)
    ensures var after := After(config, row, config.toolEnd);
            after.forced != [] && after.forced[0] == config.outputStart && |after.tokens| == |prompt| + |call| + 2
  {
    hide Config.Valid;
    Distinct(config);
    assert call[..|call|] == call;
  }

  lemma ScriptNeverStops(config: Config, prompt: seq<int>, contextLength: nat, call: seq<int>)
    requires config.Valid() && Writable(config, call)
    ensures NeverStops(Scripted(config, contextLength, prompt, CallScript(config, call), Ordinal(config)))
  {
    hide Config.Valid;
    var script := CallScript(config, call);
    var engine := Scripted(config, contextLength, prompt, script, Ordinal(config));
    OrdinalIsPlain(config);
    ToolsDoNotStop(config);
    forall i | 0 <= i < |script| ensures !Stops(config, script[i]) {
      assert 0 < i <= |call| ==> script[i] == call[i - 1] && script[i] in call;
    }
  }

  lemma ToolsDoNotStop(config: Config)
    requires config.Valid()
    ensures !Stops(config, config.toolStart) && !Stops(config, config.toolEnd) && !Stops(config, config.thinkStart)
  {
    var s := config.Specials();
    assert s[0] == config.toolStart && s[1] == config.toolEnd && s[4] == config.assistantEnd && s[7] == config.bos;
    assert s[5] == config.thinkStart;
  }

  lemma CallDiffers(config: Config, prompt: seq<int>, contextLength: nat, maxTokens: nat, call: seq<int>)
      returns (engine: Engine, count: nat, columns: seq<Event>)
    requires config.Valid() && 0 < |prompt| && |prompt| + maxTokens <= contextLength
    requires Writable(config, call) && |call| + 3 <= maxTokens && config.execute(call).Some?
    requires BudgetLasts(config, prompt, maxTokens)
    ensures engine.config == config && engine.contextLength == contextLength
    ensures IsRun(engine, prompt, maxTokens, AtMost(count), columns, false)
    ensures !SameTokens(engine, prompt, maxTokens, AtMost(count), columns)
  {
    hide IsRun, Config.Valid, SameTokens, After, Writes, Writable;
    engine := Scripted(config, contextLength, prompt, CallScript(config, call), Ordinal(config));
    count := |call| + 3;
    OrdinalIsPlain(config);
    ScriptNeverStops(config, prompt, contextLength, call);
    WritesOn(config, prompt, contextLength, call, maxTokens, |call| + 1);
    var row := RowAt(engine, prompt, |call| + 1);
    WritesTokens(config, prompt, call, row, |call| + 1);
    Answered(config, prompt, call, row);
    assert RowAt(engine, prompt, |call| + 2) == After(config, row, config.toolEnd);
    assert EventAt(engine, prompt, count - 1).token == config.outputStart;
    ForcedParts(engine, prompt, maxTokens, count);
    columns := EventsOf(engine, prompt, count);
  }

  // ---------- the request ----------

  /** The request has a positive limit that fits the window, and nothing can be forced within it. */
  ghost predicate Harmonious(config: Config, prompt: seq<int>, contextLength: nat, maxTokens: int) {
    && maxTokens > 0 && |prompt| + maxTokens <= contextLength
    && NoAnswer(config, maxTokens) && BudgetLasts(config, prompt, maxTokens)
  }

  lemma SameWhenHarmonious(
      engine: Engine, prompt: seq<int>, maxTokens: int, consumer: seq<Event> -> bool, columns: seq<Event>, crashed: bool)
    requires prompt != [] && Harmonious(engine.config, prompt, engine.contextLength, maxTokens)
    requires IsRun(engine, prompt, maxTokens, consumer, columns, crashed)
    ensures SameTokens(engine, prompt, maxTokens, consumer, columns)
  {
    hide NoAnswer, BudgetLasts, SameTokens, SeesTokens, RowAt, EventAt, ChosenAt;
    AllSampled(engine, prompt, columns, maxTokens);
    UnforcedIsGreedy(engine, prompt, consumer, columns);
    SameTokensIff(engine, prompt, maxTokens, consumer, columns, crashed);
  }

  lemma SomeRunDiffers(config: Config, prompt: seq<int>, contextLength: nat, maxTokens: int)
      returns (engine: Engine, count: nat, columns: seq<Event>, crashed: bool)
    requires config.Valid() && 0 < |prompt| <= contextLength && !Harmonious(config, prompt, contextLength, maxTokens)
    ensures engine.config == config && engine.contextLength == contextLength
    ensures IsRun(engine, prompt, maxTokens, AtMost(count), columns, crashed)
    ensures !SameTokens(engine, prompt, maxTokens, AtMost(count), columns)
  {
    hide Config.Valid, IsRun, SameTokens, Writable, BudgetLasts;
    crashed := maxTokens <= 0;
    if maxTokens <= 0 {
      engine, columns := NoLimitDiffers(config, prompt, contextLength, maxTokens);
      count := 2;
    } else if |prompt| + maxTokens > contextLength {
      engine, count, columns := WindowDiffers(config, prompt, contextLength, maxTokens);
    } else if !BudgetLasts(config, prompt, maxTokens) {
      engine, count, columns := BudgetDiffers(config, prompt, contextLength, maxTokens);
    } else {
      var call :| Writable(config, call) && |call| + 3 <= maxTokens && config.execute(call).Some?;
      engine, count, columns := CallDiffers(config, prompt, contextLength, maxTokens, call);
    }
  }

  /** A request is answered with the same tokens on every network and for every consumer exactly when
      its limit is positive and fits the context window, no tool answers a call that fits the limit,
      and no budget can be spent within it. */
  lemma SameForAllIff(config: Config, prompt: seq<int>, contextLength: nat, maxTokens: int)
    requires config.Valid() && 0 < |prompt| <= contextLength
    ensures (forall engine: Engine, consumer: seq<Event> -> bool, columns: seq<Event>, crashed: bool ::
               engine.config == config && engine.contextLength == contextLength
               && IsRun(engine, prompt, maxTokens, consumer, columns, crashed)
               ==> SameTokens(engine, prompt, maxTokens, consumer, columns))
            <==> Harmonious(config, prompt, contextLength, maxTokens)
  {
    hide Config.Valid, IsRun, SameTokens, Harmonious;
    if Harmonious(config, prompt, contextLength, maxTokens) {
      forall engine: Engine, consumer: seq<Event> -> bool, columns: seq<Event>, crashed: bool |
        engine.config == config && engine.contextLength == contextLength
        && IsRun(engine, prompt, maxTokens, consumer, columns, crashed)
        ensures SameTokens(engine, prompt, maxTokens, consumer, columns)
      {
        SameWhenHarmonious(engine, prompt, maxTokens, consumer, columns, crashed);
      }
    } else {
      var engine, count, columns, crashed := SomeRunDiffers(config, prompt, contextLength, maxTokens);
      assert engine.config == config && engine.contextLength == contextLength;
    }
  }

  // ---------- a request within limit and window on which they differ ----------

  /** A tool that answers every call with the token 100. */
  function Answering(): Config {
    Config(1, 2, 3, 4, 5, 6, 7, 8, false, 0, _ => Some([100]))
  }

  /** Opens a call, writes 50, closes it, and then always writes 9. */
  function Caller(): Engine {
    Scripted(Answering(), 100, [10], [1, 50, 2], 9)
  }

  /** The ordinary loop forces the tool's output where speculation goes on with the network's choice. */
  lemma ToolCallDiffers()
    ensures var columns := [Event(1, 1), Event(50, 1), Event(2, 1), Event(3, 0)];
            && IsRun(Caller(), [10], 4, _ => true, columns, false)
            && !SameTokens(Caller(), [10], 4, _ => true, columns)
  {
    hide IsRun, SameTokens, Caller;
    CallerRuns(_ => true);
    CallerParts(_ => true);
  }

  lemma CallerParts(consumer: seq<Event> -> bool)
    ensures !SameTokens(Caller(), [10], 4, consumer, [Event(1, 1), Event(50, 1), Event(2, 1), Event(3, 0)])
  {
    hide SameTokens;
    var columns := [Event(1, 1), Event(50, 1), Event(2, 1), Event(3, 0)];
    assert |[10] + TokensOf(columns)[..3]| == 4;
    if SameTokens(Caller(), [10], 4, consumer, columns) {
      AgreementIsGreedy(Caller(), [10], 4, consumer, columns, 3);
      assert false;
    }
  }

  lemma CallerRuns(consumer: seq<Event> -> bool)
    requires forall columns :: consumer(columns)
    ensures IsRun(Caller(), [10], 4, consumer, [Event(1, 1), Event(50, 1), Event(2, 1), Event(3, 0)], false)
  {
    hide Running, IsRun, RowAt, EventAt;
    var engine := Caller();
    CallerRows();
    var a, b, c, d := Event(1, 1), Event(50, 1), Event(2, 1), Event(3, 0);
    NothingYet(engine, [10], 4, consumer);
    RunningColumn(engine, [10], 4, consumer, [], a);
    assert [] + [a] == [a] && [a] + [b] == [a, b] && [a, b] + [c] == [a, b, c] && [a, b, c] + [d] == [a, b, c, d];
    RunningColumn(engine, [10], 4, consumer, [a], b);
    RunningColumn(engine, [10], 4, consumer, [a, b], c);
    RunningColumn(engine, [10], 4, consumer, [a, b, c], d);
    RunningDone(engine, [10], 4, consumer, [a, b, c, d]);
  }

  lemma CallerRows()
    ensures EventAt(Caller(), [10], 0) == Event(1, 1) && EventAt(Caller(), [10], 1) == Event(50, 1)
    ensures EventAt(Caller(), [10], 2) == Event(2, 1) && EventAt(Caller(), [10], 3) == Event(3, 0)
    ensures forall n | 0 <= n < 4 :: !RowAt(Caller(), [10], n).completed
  {
    var engine := Caller();
    assert RowAt(engine, [10], 0) == Row([], false, [], false, 0, false, [10]);
    assert RowAt(engine, [10], 1) == Row([], true, [], false, 0, false, [10, 1]);
    assert RowAt(engine, [10], 2) == Row([], true, [50], false, 0, false, [10, 1, 50]);
    assert RowAt(engine, [10], 3) == Row([3, 100, 4], false, [], false, 0, false, [10, 1, 50, 2]);
  }
}
