/** The ordinary decoding loop for one greedy row, and how what it yields relates to the stream
    that speculative decoding yields. */
module Ordinary {
  import opened RowProtocol
  import opened Streams
  import opened Wrappers

  /** `next` is the token greedy sampling takes after a sequence. */
  datatype Engine = Engine(config: Config, next: seq<int> -> int, contextLength: nat)

  /** The rotary tables reach this many times the context window. */
  const ROTARY_OVERCOMPUTE: nat := 10

  function RotaryReach(contextLength: nat): (reach: nat)
    ensures reach == 10 * contextLength
  {
    ROTARY_OVERCOMPUTE * contextLength
  }

  /** The decode cache has room for the prompt and, with a positive limit, for that many tokens. */
  function Capacity(length: nat, maxTokens: int): (capacity: nat)
    ensures capacity >= length && capacity >= length + maxTokens
    ensures capacity == length || capacity == length + maxTokens
  {
    length + if maxTokens > 0 then maxTokens else 0
  }

  /** Feeding one more token would run past the cache or the rotary tables. */
  predicate Overruns(contextLength: nat, length: nat, maxTokens: int, position: nat): (overruns: bool)
    ensures overruns <==> (position >= length && position >= length + maxTokens) || position >= 10 * contextLength
  {
    position >= Capacity(length, maxTokens) || position >= RotaryReach(contextLength)
  }

  predicate Stops(config: Config, token: int) {
    token == config.assistantEnd || token == config.bos
  }

  /** The row after `n` columns: what is sampled depends on all tokens so far, forced ones included. */
  ghost function RowAt(engine: Engine, prompt: seq<int>, n: nat): Row {
    if n == 0 then Start(engine.config, prompt)
    else
      var row := RowAt(engine, prompt, n - 1);
      After(engine.config, row, engine.next(row.tokens))
  }

  ghost function EventAt(engine: Engine, prompt: seq<int>, n: nat): Event {
    var row := RowAt(engine, prompt, n);
    Next(row, engine.next(row.tokens))
  }

  /** A prompt that the prefill accepts. */
  predicate Accepted(engine: Engine, prompt: seq<int>) {
    0 < |prompt| <= engine.contextLength
  }

  /** The n-th column is the row's, and the row was not done before it. */
  ghost predicate ColumnAt(engine: Engine, prompt: seq<int>, columns: seq<Event>, n: nat)
    requires n < |columns|
  {
    columns[n] == EventAt(engine, prompt, n) && !RowAt(engine, prompt, n).completed
  }

  /** What the loop yields and how it ends. */
  ghost predicate IsRun(
      engine: Engine, prompt: seq<int>, maxTokens: int, consumer: seq<Event> -> bool,
      columns: seq<Event>, crashed: bool)
  {
    if !Accepted(engine, prompt) then columns == [] && crashed
    else
      && (forall n: nat | n < |columns| :: ColumnAt(engine, prompt, columns, n))
      && (maxTokens > 0 ==> |columns| <= maxTokens)
      && (forall n | 0 < n < |columns| :: Goes(engine, prompt, maxTokens, consumer, columns, n))
      && Ends(engine, prompt, maxTokens, consumer, columns, crashed)
  }

  /** After `n` columns the consumer wanted more and the last token could be fed. */
  ghost predicate Goes(
      engine: Engine, prompt: seq<int>, maxTokens: int, consumer: seq<Event> -> bool, columns: seq<Event>, n: nat)
    requires 0 < n <= |columns|
  {
    consumer(columns[..n]) && !Overruns(engine.contextLength, |prompt|, maxTokens, |prompt| + n - 1)
  }

  ghost predicate Ends(
      engine: Engine, prompt: seq<int>, maxTokens: int, consumer: seq<Event> -> bool,
      columns: seq<Event>, crashed: bool)
  {
    if columns == [] then !crashed && RowAt(engine, prompt, 0).completed
    else if !consumer(columns) then !crashed
    else if Overruns(engine.contextLength, |prompt|, maxTokens, |prompt| + |columns| - 1) then crashed
    else !crashed && ((maxTokens > 0 && |columns| == maxTokens) || RowAt(engine, prompt, |columns|).completed)
  }

  // ---------- the loop's bookkeeping ----------

  /** At the head of the loop: every column so far was wanted and fed. */
  ghost predicate Running(
      engine: Engine, prompt: seq<int>, maxTokens: int, consumer: seq<Event> -> bool, columns: seq<Event>)
  {
    && Accepted(engine, prompt)
    && (forall n: nat | n < |columns| :: ColumnAt(engine, prompt, columns, n))
    && (maxTokens > 0 ==> |columns| <= maxTokens)
    && forall n | 0 < n <= |columns| :: Goes(engine, prompt, maxTokens, consumer, columns, n)
  }

  lemma NothingYet(engine: Engine, prompt: seq<int>, maxTokens: int, consumer: seq<Event> -> bool)
    requires Accepted(engine, prompt)
    ensures Running(engine, prompt, maxTokens, consumer, [])
  {
  }

  lemma RunningDone(engine: Engine, prompt: seq<int>, maxTokens: int, consumer: seq<Event> -> bool, columns: seq<Event>)
    requires Running(engine, prompt, maxTokens, consumer, columns)
    requires RowAt(engine, prompt, |columns|).completed || |columns| == maxTokens > 0
    ensures IsRun(engine, prompt, maxTokens, consumer, columns, false)
  {
    hide RowAt, EventAt;
    if columns != [] {
      assert Goes(engine, prompt, maxTokens, consumer, columns, |columns|);
      assert columns[..|columns|] == columns;
    }
  }

  lemma RunningColumn(
      engine: Engine, prompt: seq<int>, maxTokens: int, consumer: seq<Event> -> bool, columns: seq<Event>, event: Event)
    requires Running(engine, prompt, maxTokens, consumer, columns)
    requires (maxTokens > 0 ==> |columns| < maxTokens) && !RowAt(engine, prompt, |columns|).completed
    requires event == EventAt(engine, prompt, |columns|)
    ensures var longer := columns + [event];
            if !consumer(longer) then IsRun(engine, prompt, maxTokens, consumer, longer, false)
            else if Overruns(engine.contextLength, |prompt|, maxTokens, |prompt| + |columns|)
            then IsRun(engine, prompt, maxTokens, consumer, longer, true)
            else Running(engine, prompt, maxTokens, consumer, longer)
  {
    hide RowAt, EventAt, ColumnAt, Goes, Overruns;
    var longer := columns + [event];
    ColumnsLonger(engine, prompt, maxTokens, consumer, columns, event);
    GoesLast(engine, prompt, maxTokens, consumer, longer);
  }

  lemma ColumnsLonger(
      engine: Engine, prompt: seq<int>, maxTokens: int, consumer: seq<Event> -> bool, columns: seq<Event>, event: Event)
    requires Running(engine, prompt, maxTokens, consumer, columns)
    requires event == EventAt(engine, prompt, |columns|) && !RowAt(engine, prompt, |columns|).completed
    ensures var longer := columns + [event];
            && (forall n: nat | n < |longer| :: ColumnAt(engine, prompt, longer, n))
            && forall n | 0 < n < |longer| :: Goes(engine, prompt, maxTokens, consumer, longer, n)
  {
    hide RowAt, EventAt, ColumnAt, Goes;
    var longer := columns + [event];
    forall n: nat | n < |longer| ensures ColumnAt(engine, prompt, longer, n) {
      ColumnLonger(engine, prompt, columns, event, n);
    }
    forall n | 0 < n < |longer| ensures Goes(engine, prompt, maxTokens, consumer, longer, n) {
      GoesLonger(engine, prompt, maxTokens, consumer, columns, event, n);
    }
  }

  lemma ColumnLonger(engine: Engine, prompt: seq<int>, columns: seq<Event>, event: Event, n: nat)
    requires n <= |columns| && (n < |columns| ==> ColumnAt(engine, prompt, columns, n))
    requires n == |columns| ==> event == EventAt(engine, prompt, n) && !RowAt(engine, prompt, n).completed
    ensures ColumnAt(engine, prompt, columns + [event], n)
  {
    hide RowAt, EventAt;
  }

  lemma GoesLonger(
      engine: Engine, prompt: seq<int>, maxTokens: int, consumer: seq<Event> -> bool, columns: seq<Event>, event: Event,
      n: nat)
    requires 0 < n <= |columns| && Goes(engine, prompt, maxTokens, consumer, columns, n)
    ensures Goes(engine, prompt, maxTokens, consumer, columns + [event], n)
  {
    assert (columns + [event])[..n] == columns[..n];
  }

  lemma GoesLast(engine: Engine, prompt: seq<int>, maxTokens: int, consumer: seq<Event> -> bool, columns: seq<Event>)
    requires columns != []
    ensures Goes(engine, prompt, maxTokens, consumer, columns, |columns|)
            <==> consumer(columns) && !Overruns(engine.contextLength, |prompt|, maxTokens, |prompt| + |columns| - 1)
  {
    assert columns[..|columns|] == columns;
  }

  // ---------- no limit ----------

  /** A limit of zero or less leaves no room in the cache: one column comes out, and then the loop
      crashes unless the consumer had enough. */
  lemma NoLimit(
      engine: Engine, prompt: seq<int>, maxTokens: int, consumer: seq<Event> -> bool, columns: seq<Event>, crashed: bool)
    requires Accepted(engine, prompt) && maxTokens <= 0
    requires IsRun(engine, prompt, maxTokens, consumer, columns, crashed)
    ensures columns == [Event(engine.next(prompt), 1)]
    ensures crashed <==> consumer(columns)
  {
    assert RowAt(engine, prompt, 0) == Start(engine.config, prompt);
    if columns != [] {
      assert ColumnAt(engine, prompt, columns, 0);
      assert !Goes(engine, prompt, maxTokens, consumer, columns, 1);
    }
  }

  // ---------- the tokens of a run ----------

  /** Every column was sampled: no tool output and no closing token came out of the queue. */
  ghost predicate Unforced(columns: seq<Event>) {
    forall n | 0 <= n < |columns| :: columns[n].mask == 1
  }

  /** The row's tokens are the prompt and what was yielded, and it is done once a stop token was. */
  ghost predicate Following(engine: Engine, prompt: seq<int>, columns: seq<Event>, n: nat)
    requires n <= |columns|
  {
    var row := RowAt(engine, prompt, n);
    && row.tokens == prompt + TokensOf(columns[..n])
    && (row.completed <==> exists i :: 0 <= i < n && Stops(engine.config, columns[i].token))
  }

  lemma {:induction false} RunFollows(engine: Engine, prompt: seq<int>, columns: seq<Event>, n: nat)
    requires n <= |columns| && forall i: nat | i < |columns| :: ColumnAt(engine, prompt, columns, i)
    ensures Following(engine, prompt, columns, n)
  {
    hide Following, EventAt;
    if n == 0 {
      FollowStart(engine, prompt, columns);
    } else {
      RunFollows(engine, prompt, columns, n - 1);
      assert ColumnAt(engine, prompt, columns, n - 1);
      FollowStep(engine, prompt, columns, n - 1);
    }
  }

  lemma FollowStart(engine: Engine, prompt: seq<int>, columns: seq<Event>)
    ensures Following(engine, prompt, columns, 0)
  {
    assert prompt + TokensOf(columns[..0]) == prompt;
  }

  lemma FollowStep(engine: Engine, prompt: seq<int>, columns: seq<Event>, n: nat)
    requires n < |columns| && Following(engine, prompt, columns, n) && columns[n] == EventAt(engine, prompt, n)
    ensures Following(engine, prompt, columns, n + 1)
  {
    var row, token := RowAt(engine, prompt, n), columns[n].token;
    assert RowAt(engine, prompt, n + 1) == After(engine.config, row, engine.next(row.tokens));
    assert TokensOf(columns[..n + 1]) == TokensOf(columns[..n]) + [token];
    assert prompt + TokensOf(columns[..n + 1]) == prompt + TokensOf(columns[..n]) + [token];
    TokenStep(engine.config, row, engine.next(row.tokens));
  }

  lemma TokenStep(config: Config, row: Row, sampled: int)
    ensures var after, token := After(config, row, sampled), Next(row, sampled).token;
            after.tokens == row.tokens + [token] && after.completed == (row.completed || Stops(config, token))
  {
    hide Output;
  }

  lemma FollowNow(engine: Engine, prompt: seq<int>, columns: seq<Event>, n: nat)
    requires n <= |columns| && Following(engine, prompt, columns, n)
    ensures EventAt(engine, prompt, n).mask == 1 ==>
              EventAt(engine, prompt, n) == Event(engine.next(prompt + TokensOf(columns[..n])), 1)
    ensures RowAt(engine, prompt, n).completed <==> exists i :: 0 <= i < n && Stops(engine.config, columns[i].token)
  {
  }

  // ---------- runs that force nothing ----------

  /** No call is opened and no budgeted trace is entered. */
  ghost predicate Silent(config: Config, prompt: seq<int>, tokens: seq<int>)
    requires prompt != []
  {
    && config.toolStart !in tokens
    && (config.budget > 0 ==> prompt[|prompt| - 1] != config.thinkStart && config.thinkStart !in tokens)
  }

  ghost predicate Idle(config: Config, row: Row) {
    row.forced == [] && !row.inToolCall && (config.budget > 0 ==> !row.inThinking)
  }

  lemma SilentStep(config: Config, row: Row, token: int)
    requires Idle(config, row) && token != config.toolStart && (config.budget > 0 ==> token != config.thinkStart)
    ensures Idle(config, After(config, row, token)) && Next(row, token).token == token
  {
  }

  lemma {:induction false} SilentIdles(engine: Engine, prompt: seq<int>, columns: seq<Event>, n: nat)
    requires prompt != [] && n <= |columns| && Silent(engine.config, prompt, TokensOf(columns))
    requires forall i: nat | i < |columns| :: ColumnAt(engine, prompt, columns, i)
    ensures Idle(engine.config, RowAt(engine, prompt, n))
  {
    hide After, Next;
    if n == 0 {
      assert RowAt(engine, prompt, 0) == Start(engine.config, prompt);
    } else {
      SilentIdles(engine, prompt, columns, n - 1);
      var row := RowAt(engine, prompt, n - 1);
      assert ColumnAt(engine, prompt, columns, n - 1);
      assert TokensOf(columns)[n - 1] == Next(row, engine.next(row.tokens)).token;
      IdleSamples(engine.config, row, engine.next(row.tokens));
      SilentStep(engine.config, row, engine.next(row.tokens));
    }
  }

  lemma IdleSamples(config: Config, row: Row, sampled: int)
    requires Idle(config, row)
    ensures Next(row, sampled) == Event(sampled, 1)
  {
  }

  /** Without tool and thinking tokens nothing is forced. */
  lemma SilentUnforced(engine: Engine, prompt: seq<int>, columns: seq<Event>)
    requires prompt != [] && Silent(engine.config, prompt, TokensOf(columns))
    requires forall i: nat | i < |columns| :: ColumnAt(engine, prompt, columns, i)
    ensures Unforced(columns)
  {
    hide After, Next, Silent;
    forall n: nat | n < |columns| ensures columns[n].mask == 1 {
      SilentIdles(engine, prompt, columns, n);
      assert ColumnAt(engine, prompt, columns, n);
      var row := RowAt(engine, prompt, n);
      IdleSamples(engine.config, row, engine.next(row.tokens));
    }
  }

  // ---------- against the speculative stream ----------

  /** What a consumer that drops stop tokens keeps of a run. */
  ghost function Kept(config: Config, columns: seq<Event>): (kept: seq<int>)
    ensures |kept| <= |columns|
  {
    var tokens := TokensOf(columns);
    if columns != [] && Stops(config, columns[|columns| - 1].token) then tokens[..|tokens| - 1] else tokens
  }

  function Marked(tokens: seq<int>): (columns: seq<Event>)
    ensures |columns| == |tokens| && forall i | 0 <= i < |tokens| :: columns[i] == Event(tokens[i], 1)
  {
    seq(|tokens|, i requires 0 <= i < |tokens| => Event(tokens[i], 1))
  }

  /** The same request put to speculative decoding: the consumer sees sampled tokens. */
  function RequestOf(engine: Engine, consumer: seq<Event> -> bool): Request {
    Request(engine.config.assistantEnd, engine.config.bos, engine.contextLength,
            (given: seq<int>) => consumer(Marked(given)))
  }

  function Smaller(a: nat, b: nat): nat {
    if a < b then a else b
  }

  /** The n-th column is the greedy choice after what came before it, forced or not. */
  ghost predicate ChosenAt(engine: Engine, prompt: seq<int>, columns: seq<Event>, n: nat)
    requires n < |columns|
  {
    columns[n].token == engine.next(prompt + TokensOf(columns)[..n])
  }

  /** Along the run the consumer decides as it would if every token had been sampled. */
  ghost predicate SeesTokens(consumer: seq<Event> -> bool, columns: seq<Event>) {
    forall n | 0 < n <= |columns| :: BlindAt(consumer, columns, n)
  }

  ghost predicate BlindAt(consumer: seq<Event> -> bool, columns: seq<Event>, n: nat)
    requires n <= |columns|
  {
    consumer(columns[..n]) == consumer(Marked(TokensOf(columns)[..n]))
  }

  /** A run with a positive limit whose columns are all greedy choices. */
  ghost predicate GreedyColumns(
      engine: Engine, prompt: seq<int>, maxTokens: int, consumer: seq<Event> -> bool,
      columns: seq<Event>, crashed: bool)
  {
    && Accepted(engine, prompt) && maxTokens > 0
    && IsRun(engine, prompt, maxTokens, consumer, columns, crashed)
    && (forall n: nat | n < |columns| :: ChosenAt(engine, prompt, columns, n))
    && SeesTokens(consumer, columns)
  }

  /** What is sampled is the greedy choice, and a run of sampled tokens is as the consumer sees it. */
  lemma UnforcedIsGreedy(engine: Engine, prompt: seq<int>, consumer: seq<Event> -> bool, columns: seq<Event>)
    requires Unforced(columns) && forall i: nat | i < |columns| :: ColumnAt(engine, prompt, columns, i)
    ensures SeesTokens(consumer, columns)
    ensures forall n: nat | n < |columns| :: ChosenAt(engine, prompt, columns, n)
  {
    hide RowAt, EventAt, Following;
    forall n: nat | n < |columns| ensures ChosenAt(engine, prompt, columns, n) {
      SampledIsGreedy(engine, prompt, columns, n);
    }
    forall n | 0 < n <= |columns| ensures BlindAt(consumer, columns, n) {
      assert columns[..n] == Marked(TokensOf(columns)[..n]);
    }
  }

  lemma SampledIsGreedy(engine: Engine, prompt: seq<int>, columns: seq<Event>, n: nat)
    requires n < |columns| && forall i: nat | i < |columns| :: ColumnAt(engine, prompt, columns, i)
    requires columns[n].mask == 1
    ensures ChosenAt(engine, prompt, columns, n)
  {
    hide RowAt, EventAt, Following;
    RunFollows(engine, prompt, columns, n);
    FollowNow(engine, prompt, columns, n);
    assert ColumnAt(engine, prompt, columns, n);
    assert TokensOf(columns[..n]) == TokensOf(columns)[..n];
  }

  /** Such a run is its kept tokens and at most a stop token behind them. */
  lemma RunShape(
      engine: Engine, prompt: seq<int>, maxTokens: int, consumer: seq<Event> -> bool, columns: seq<Event>, crashed: bool)
    requires GreedyColumns(engine, prompt, maxTokens, consumer, columns, crashed)
    ensures var tokens, kept := TokensOf(columns), Kept(engine.config, columns);
            && columns != []
            && (tokens == kept
                || (tokens == kept + [engine.next(prompt + kept)] && Stops(engine.config, engine.next(prompt + kept))))
            && forall i | 0 <= i < |kept| ::
                 !Stops(engine.config, kept[i]) && kept[i] == engine.next(prompt + kept[..i])
    ensures crashed ==> |prompt| + |columns| > RotaryReach(engine.contextLength)
  {
    hide IsRun, RowAt, EventAt, Following, Stops;
    var tokens, kept := TokensOf(columns), Kept(engine.config, columns);
    RunEnd(engine, prompt, maxTokens, consumer, columns, crashed);
    forall i: nat | i < |columns|
      ensures tokens[i] == engine.next(prompt + tokens[..i])
      ensures i + 1 < |columns| ==> !Stops(engine.config, tokens[i])
    {
      RunAt(engine, prompt, maxTokens, consumer, columns, crashed, i);
    }
    forall i | 0 <= i < |kept|
      ensures !Stops(engine.config, kept[i]) && kept[i] == engine.next(prompt + kept[..i])
    {
      assert kept[..i] == tokens[..i];
    }
    var last := |columns| - 1;
    if Stops(engine.config, columns[last].token) {
      assert kept == tokens[..last];
      assert tokens == kept + [engine.next(prompt + kept)];
    }
  }

  lemma RunEnd(
      engine: Engine, prompt: seq<int>, maxTokens: int, consumer: seq<Event> -> bool, columns: seq<Event>, crashed: bool)
    requires GreedyColumns(engine, prompt, maxTokens, consumer, columns, crashed)
    ensures 0 < |columns| <= maxTokens
    ensures crashed ==> |prompt| + |columns| > RotaryReach(engine.contextLength)
    ensures !crashed && consumer(columns) && |columns| < maxTokens ==> RowAt(engine, prompt, |columns|).completed
  {
    assert RowAt(engine, prompt, 0) == Start(engine.config, prompt);
  }

  lemma RunAt(
      engine: Engine, prompt: seq<int>, maxTokens: int, consumer: seq<Event> -> bool, columns: seq<Event>, crashed: bool,
      i: nat)
    requires GreedyColumns(engine, prompt, maxTokens, consumer, columns, crashed) && i < |columns|
    ensures columns[i].token == engine.next(prompt + TokensOf(columns)[..i])
    ensures i + 1 < |columns| ==> !Stops(engine.config, columns[i].token)
    ensures i + 1 < |columns| ==> consumer(columns[..i + 1])
    ensures BlindAt(consumer, columns, i + 1)
  {
    hide RowAt, EventAt, Following, Stops, BlindAt;
    assert ChosenAt(engine, prompt, columns, i);
    if i + 1 < |columns| {
      RunFollows(engine, prompt, columns, i + 1);
      FollowNow(engine, prompt, columns, i + 1);
      assert ColumnAt(engine, prompt, columns, i + 1);
      assert Goes(engine, prompt, maxTokens, consumer, columns, i + 1);
    }
  }

  /** The speculative stream behind the first `i` kept tokens. */
  ghost function StreamAt(
      engine: Engine, prompt: seq<int>, maxTokens: int, consumer: seq<Event> -> bool, kept: seq<int>, i: nat): seq<int>
    requires i <= |kept| && i <= maxTokens
  {
    Plain(engine.next, RequestOf(engine, consumer), prompt + kept[..i], maxTokens - i, kept[..i])
  }

  /** The i-th kept token, as the stream's i-th. */
  lemma KeptAt(
      engine: Engine, prompt: seq<int>, maxTokens: int, consumer: seq<Event> -> bool, columns: seq<Event>, crashed: bool,
      i: nat)
    requires GreedyColumns(engine, prompt, maxTokens, consumer, columns, crashed)
    requires i < |Kept(engine.config, columns)| && |prompt| + i < engine.contextLength
    ensures var kept := Kept(engine.config, columns);
            && i < |columns| <= maxTokens
            && StreamAt(engine, prompt, maxTokens, consumer, kept, i)
               == [kept[i]] + (if !consumer(columns[..i + 1]) then []
                               else StreamAt(engine, prompt, maxTokens, consumer, kept, i + 1))
    ensures i + 1 < |columns| ==> consumer(columns[..i + 1])
  {
    hide GreedyColumns, Stops;
    var kept := Kept(engine.config, columns);
    RunShape(engine, prompt, maxTokens, consumer, columns, crashed);
    RunEnd(engine, prompt, maxTokens, consumer, columns, crashed);
    RunAt(engine, prompt, maxTokens, consumer, columns, crashed, i);
    var before, given, token := prompt + kept[..i], kept[..i], kept[i];
    assert kept[..i + 1] == given + [token];
    assert prompt + kept[..i + 1] == before + [token];
    assert kept[..i + 1] == TokensOf(columns)[..i + 1];
    NotStop(engine.config, token);
  }

  lemma NotStop(config: Config, token: int)
    ensures !Stops(config, token) ==> token != config.assistantEnd && token != config.bos
  {
  }

  /** The stream from the i-th kept token on. */
  lemma {:induction false} StreamFrom(
      engine: Engine, prompt: seq<int>, maxTokens: int, consumer: seq<Event> -> bool, columns: seq<Event>, crashed: bool,
      i: nat)
    requires GreedyColumns(engine, prompt, maxTokens, consumer, columns, crashed)
    requires var kept := Kept(engine.config, columns);
             var end := Smaller(|kept|, engine.contextLength - |prompt|);
             i <= end && (i == end == |columns| ==> consumer(columns))
    ensures |columns| <= maxTokens
    ensures var kept := Kept(engine.config, columns);
            var end := Smaller(|kept|, engine.contextLength - |prompt|);
            StreamAt(engine, prompt, maxTokens, consumer, kept, i) == kept[i..end]
    decreases |columns| - i
  {
    hide GreedyColumns, StreamAt, Kept;
    var kept := Kept(engine.config, columns);
    var end := Smaller(|kept|, engine.contextLength - |prompt|);
    RunEnd(engine, prompt, maxTokens, consumer, columns, crashed);
    if i == end {
      StreamOver(engine, prompt, maxTokens, consumer, columns, crashed);
    } else {
      KeptAt(engine, prompt, maxTokens, consumer, columns, crashed, i);
      assert i + 1 == |columns| ==> columns[..i + 1] == columns;
      if consumer(columns[..i + 1]) {
        StreamFrom(engine, prompt, maxTokens, consumer, columns, crashed, i + 1);
        assert kept[i..end] == [kept[i]] + kept[i + 1..end];
      } else {
        assert end == i + 1 && kept[i..end] == [kept[i]];
      }
    }
  }

  /** At the end of the kept tokens, or of the context window, the stream has nothing more to give. */
  lemma StreamOver(
      engine: Engine, prompt: seq<int>, maxTokens: int, consumer: seq<Event> -> bool, columns: seq<Event>, crashed: bool)
    requires GreedyColumns(engine, prompt, maxTokens, consumer, columns, crashed)
    requires |Kept(engine.config, columns)| == |columns| <= engine.contextLength - |prompt| ==> consumer(columns)
    ensures var kept := Kept(engine.config, columns);
            var end := Smaller(|kept|, engine.contextLength - |prompt|);
            |columns| <= maxTokens && StreamAt(engine, prompt, maxTokens, consumer, kept, end) == []
  {
    hide IsRun, ChosenAt, SeesTokens, RowAt, Plain;
    var kept := Kept(engine.config, columns);
    var end := Smaller(|kept|, engine.contextLength - |prompt|);
    RunShape(engine, prompt, maxTokens, consumer, columns, crashed);
    RunEnd(engine, prompt, maxTokens, consumer, columns, crashed);
    NothingMore(engine.next, RequestOf(engine, consumer), prompt + kept[..end], maxTokens - end, kept[..end]);
    if |kept| < engine.contextLength - |prompt| {
      assert kept[..|kept|] == kept;
      if |kept| == |columns| {
        AllFollow(engine, prompt, maxTokens, consumer, columns, crashed);
      }
    }
  }

  lemma NothingMore(next: seq<int> -> int, request: Request, tokens: seq<int>, left: nat, given: seq<int>)
    ensures left == 0 || |tokens| >= request.contextLength
            || next(tokens) == request.assistantEnd || next(tokens) == request.bos
            ==> Plain(next, request, tokens, left, given) == []
  {
  }

  lemma AllFollow(
      engine: Engine, prompt: seq<int>, maxTokens: int, consumer: seq<Event> -> bool, columns: seq<Event>, crashed: bool)
    requires GreedyColumns(engine, prompt, maxTokens, consumer, columns, crashed)
    ensures RowAt(engine, prompt, |columns|).completed
            <==> exists i :: 0 <= i < |columns| && Stops(engine.config, columns[i].token)
  {
    hide RowAt, EventAt, Following, Stops;
    RunFollows(engine, prompt, columns, |columns|);
    FollowNow(engine, prompt, columns, |columns|);
  }

  /** With a positive limit speculative decoding yields the kept tokens of the ordinary run, cut at
      the context window, which the ordinary loop does not look at. */
  lemma SpeculativeIsCut(
      engine: Engine, prompt: seq<int>, maxTokens: int, consumer: seq<Event> -> bool, columns: seq<Event>, crashed: bool)
    requires GreedyColumns(engine, prompt, maxTokens, consumer, columns, crashed)
    ensures var kept := Kept(engine.config, columns);
            Plain(engine.next, RequestOf(engine, consumer), prompt, maxTokens, [])
            == kept[..Smaller(|kept|, engine.contextLength - |prompt|)]
  {
    var kept := Kept(engine.config, columns);
    RunShape(engine, prompt, maxTokens, consumer, columns, crashed);
    assert prompt + kept[..0] == prompt && kept[..0] == [];
    StreamFrom(engine, prompt, maxTokens, consumer, columns, crashed, 0);
  }

  /** Speculative decoding yields the run's tokens, stop tokens aside. */
  ghost predicate SameTokens(
      engine: Engine, prompt: seq<int>, maxTokens: int, consumer: seq<Event> -> bool, columns: seq<Event>)
  {
    Plain(engine.next, RequestOf(engine, consumer), prompt, if maxTokens > 0 then maxTokens else 0, [])
    == Kept(engine.config, columns)
  }

  /** Every kept column is the greedy choice. */
  ghost predicate KeptChosen(engine: Engine, prompt: seq<int>, columns: seq<Event>) {
    forall n: nat | n < |Kept(engine.config, columns)| :: ChosenAt(engine, prompt, columns, n)
  }

  /** The two loops give a consumer the same tokens, stop tokens aside, exactly when the limit is
      positive, the tokens stay in the context window and every token that was forced is the one greedy
      decoding chooses there; without a positive limit, when the very first token stops. */
  lemma SameTokensIff(
      engine: Engine, prompt: seq<int>, maxTokens: int, consumer: seq<Event> -> bool, columns: seq<Event>, crashed: bool)
    requires Accepted(engine, prompt) && IsRun(engine, prompt, maxTokens, consumer, columns, crashed)
    requires (engine.config.Valid() || Unforced(columns)) && SeesTokens(consumer, columns)
    ensures var kept := Kept(engine.config, columns);
            SameTokens(engine, prompt, maxTokens, consumer, columns)
            <==> if maxTokens > 0 then |prompt| + |kept| <= engine.contextLength && KeptChosen(engine, prompt, columns)
                 else Stops(engine.config, engine.next(prompt))
  {
    hide SeesTokens, Config.Valid, ChosenAt, SameTokens, RowAt, EventAt;
    if maxTokens <= 0 {
      SameWithoutLimit(engine, prompt, maxTokens, consumer, columns, crashed);
    } else if KeptChosen(engine, prompt, columns) {
      AllChosen(engine, prompt, maxTokens, consumer, columns, crashed);
      SameWhenChosen(engine, prompt, maxTokens, consumer, columns, crashed);
    } else if SameTokens(engine, prompt, maxTokens, consumer, columns) {
      forall n: nat | n < |Kept(engine.config, columns)| ensures ChosenAt(engine, prompt, columns, n) {
        AgreementIsGreedy(engine, prompt, maxTokens, consumer, columns, n);
      }
      assert false;
    }
  }

  lemma SameWithoutLimit(
      engine: Engine, prompt: seq<int>, maxTokens: int, consumer: seq<Event> -> bool, columns: seq<Event>, crashed: bool)
    requires Accepted(engine, prompt) && IsRun(engine, prompt, maxTokens, consumer, columns, crashed) && maxTokens <= 0
    ensures SameTokens(engine, prompt, maxTokens, consumer, columns) <==> Stops(engine.config, engine.next(prompt))
  {
    NoLimit(engine, prompt, maxTokens, consumer, columns, crashed);
  }

  lemma SameWhenChosen(
      engine: Engine, prompt: seq<int>, maxTokens: int, consumer: seq<Event> -> bool, columns: seq<Event>, crashed: bool)
    requires GreedyColumns(engine, prompt, maxTokens, consumer, columns, crashed)
    ensures SameTokens(engine, prompt, maxTokens, consumer, columns)
            <==> |prompt| + |Kept(engine.config, columns)| <= engine.contextLength
  {
    hide IsRun, ChosenAt, SeesTokens, Plain;
    var kept := Kept(engine.config, columns);
    var end := Smaller(|kept|, engine.contextLength - |prompt|);
    SpeculativeIsCut(engine, prompt, maxTokens, consumer, columns, crashed);
    assert |kept[..end]| == end && (end == |kept| ==> kept[..end] == kept);
  }

  /** A stop token at the end of a run was sampled, for nothing that stops is ever queued. */
  lemma AllChosen(
      engine: Engine, prompt: seq<int>, maxTokens: int, consumer: seq<Event> -> bool, columns: seq<Event>, crashed: bool)
    requires Accepted(engine, prompt) && IsRun(engine, prompt, maxTokens, consumer, columns, crashed)
    requires engine.config.Valid() || Unforced(columns)
    requires KeptChosen(engine, prompt, columns)
    ensures forall n: nat | n < |columns| :: ChosenAt(engine, prompt, columns, n)
  {
    hide Config.Valid, ChosenAt, RowAt, EventAt, Stops;
    forall n: nat | n < |columns| ensures ChosenAt(engine, prompt, columns, n) {
      if n >= |Kept(engine.config, columns)| {
        assert ColumnAt(engine, prompt, columns, n);
        if engine.config.Valid() {
          SafeAt(engine, prompt, n);
          StopIsSampled(engine, prompt, n);
        }
        SampledIsGreedy(engine, prompt, columns, n);
      }
    }
  }

  lemma {:induction false} SafeAt(engine: Engine, prompt: seq<int>, n: nat)
    requires engine.config.Valid()
    ensures Safe(engine.config, RowAt(engine, prompt, n))
  {
    hide Config.Valid, After, Next;
    if n == 0 {
      assert RowAt(engine, prompt, 0) == Start(engine.config, prompt);
    } else {
      SafeAt(engine, prompt, n - 1);
      var row := RowAt(engine, prompt, n - 1);
      SafeStep(engine.config, row, engine.next(row.tokens));
    }
  }

  lemma StopIsSampled(engine: Engine, prompt: seq<int>, n: nat)
    requires Safe(engine.config, RowAt(engine, prompt, n))
    ensures var event := EventAt(engine, prompt, n);
            event.mask == 1 || (event.mask == 0 && !Stops(engine.config, event.token))
  {
    hide RowAt;
    var row := RowAt(engine, prompt, n);
    assert row.forced != [] ==> row.forced[0] in row.forced;
  }

  /** Where the two agree every kept token is the one greedy decoding chooses: a forced token that
      differs from that choice parts them. */
  lemma AgreementIsGreedy(
      engine: Engine, prompt: seq<int>, maxTokens: int, consumer: seq<Event> -> bool, columns: seq<Event>, n: nat)
    requires n < |Kept(engine.config, columns)| && SameTokens(engine, prompt, maxTokens, consumer, columns)
    ensures ChosenAt(engine, prompt, columns, n)
    ensures |prompt| + |Kept(engine.config, columns)| <= engine.contextLength
  {
    var left, kept := if maxTokens > 0 then maxTokens else 0, Kept(engine.config, columns);
    PlainStream(engine.next, RequestOf(engine, consumer), prompt, left, []);
    assert GreedyAt(engine.next, prompt, kept, n);
    assert kept[..n] == TokensOf(columns)[..n];
  }

  // ---------- inputs on which the two differ ----------

  function Ids(): Config {
    Config(1, 2, 3, 4, 5, 6, 7, 8, false, 0, _ => None)
  }

  /** Always chooses 9, which is no special token. */
  function Nines(contextLength: nat): Engine {
    Engine(Ids(), _ => 9, contextLength)
  }

  /** Limit zero: the ordinary loop yields one token and crashes, speculation yields nothing. */
  lemma ZeroLimitDiffers()
    ensures IsRun(Nines(4), [10], 0, _ => true, [Event(9, 1)], true)
    ensures Unforced([Event(9, 1)]) && Kept(Ids(), [Event(9, 1)]) == [9]
    ensures Plain(Nines(4).next, RequestOf(Nines(4), _ => true), [10], 0, []) == []
  {
    assert RowAt(Nines(4), [10], 0) == Start(Ids(), [10]);
    assert TokensOf([Event(9, 1)]) == [9];
  }

  /** A full context window: the ordinary loop goes on, speculation has no room left. */
  lemma FullWindowDiffers()
    ensures IsRun(Nines(1), [10], 1, _ => true, [Event(9, 1)], false)
    ensures Unforced([Event(9, 1)]) && Kept(Ids(), [Event(9, 1)]) == [9]
    ensures Plain(Nines(1).next, RequestOf(Nines(1), _ => true), [10], 1, []) == []
  {
    assert RowAt(Nines(1), [10], 0) == Start(Ids(), [10]);
    assert TokensOf([Event(9, 1)]) == [9];
  }
}
