/** The token stream a request asks for, whatever chooses the tokens, and how it is handed out. */
module Streams {
  /** How a request ends: stop tokens, the token limit, the context window, or a consumer that
      refuses to go on after what it was given. */
  datatype Request = Request(assistantEnd: int, bos: int, contextLength: nat, consumer: seq<int> -> bool)

  /** What decoding one token at a time yields when `next` chooses the tokens. `left` tokens may
      still be emitted, `given` was yielded before. */
  ghost function Plain(
      next: seq<int> -> int, request: Request, tokens: seq<int>, left: nat, given: seq<int>): seq<int>
    decreases left
  {
    if left == 0 || |tokens| >= request.contextLength then []
    else
      var token := next(tokens);
      if token == request.assistantEnd || token == request.bos then []
      else
        [token] + if !request.consumer(given + [token]) then []
                  else Plain(next, request, tokens + [token], left - 1, given + [token])
  }

  /** Each token is the one chosen after those before it. */
  ghost predicate GreedyRun(next: seq<int> -> int, tokens: seq<int>, run: seq<int>) {
    forall i | 0 <= i < |run| :: GreedyAt(next, tokens, run, i)
  }

  ghost predicate GreedyAt(next: seq<int> -> int, tokens: seq<int>, run: seq<int>, i: nat)
    requires i < |run|
  {
    run[i] == next(tokens + run[..i])
  }

  /** The consumer asked for more after the first `n` tokens of the stream. */
  ghost predicate Wanted(request: Request, given: seq<int>, stream: seq<int>, n: nat)
    requires n <= |stream|
  {
    request.consumer(given + stream[..n])
  }

  /** Every token the chosen one, no stop token, within both limits, and cut short only by a stop token
      or by a consumer that refused the last token. */
  ghost predicate IsStream(
      next: seq<int> -> int, request: Request, tokens: seq<int>, left: nat, given: seq<int>, stream: seq<int>)
  {
    && GreedyRun(next, tokens, stream)
    && |stream| <= left
    && (stream != [] ==> |tokens| + |stream| <= request.contextLength)
    && request.assistantEnd !in stream && request.bos !in stream
    && (forall n | 0 < n < |stream| :: Wanted(request, given, stream, n))
    && (|stream| < left && |tokens| + |stream| < request.contextLength ==>
          || next(tokens + stream) == request.assistantEnd
          || next(tokens + stream) == request.bos
          || (stream != [] && !Wanted(request, given, stream, |stream|)))
  }

  lemma {:induction false} PlainStream(
      next: seq<int> -> int, request: Request, tokens: seq<int>, left: nat, given: seq<int>)
    ensures IsStream(next, request, tokens, left, given, Plain(next, request, tokens, left, given))
    decreases left
  {
    hide IsStream, Wanted;
    var stream := Plain(next, request, tokens, left, given);
    var token := next(tokens);
    if stream == [] {
      NoStream(next, request, tokens, left, given);
    } else if request.consumer(given + [token]) {
      PlainStream(next, request, tokens + [token], left - 1, given + [token]);
      LongerStream(next, request, tokens, left, given, token, stream[1..]);
      assert stream == [token] + stream[1..];
    } else {
      OneTokenStream(next, request, tokens, left, given, token);
      assert stream == [token];
    }
  }

  lemma NoStream(next: seq<int> -> int, request: Request, tokens: seq<int>, left: nat, given: seq<int>)
    requires left > 0 && |tokens| < request.contextLength ==>
               next(tokens) == request.assistantEnd || next(tokens) == request.bos
    ensures IsStream(next, request, tokens, left, given, [])
  {
    hide Wanted;
    assert tokens + [] == tokens;
  }

  lemma OneTokenStream(
      next: seq<int> -> int, request: Request, tokens: seq<int>, left: nat, given: seq<int>, token: int)
    requires left > 0 && |tokens| < request.contextLength
    requires token == next(tokens) && token != request.assistantEnd && token != request.bos
    requires !request.consumer(given + [token])
    ensures IsStream(next, request, tokens, left, given, [token])
  {
    hide Wanted, GreedyAt;
    HeadOfStream(next, request, tokens, token, [], given);
    assert [token] + [] == [token];
  }

  lemma LongerStream(
      next: seq<int> -> int, request: Request, tokens: seq<int>, left: nat, given: seq<int>, token: int, rest: seq<int>)
    requires left > 0 && |tokens| < request.contextLength
    requires token == next(tokens) && token != request.assistantEnd && token != request.bos
    requires request.consumer(given + [token])
    requires IsStream(next, request, tokens + [token], left - 1, given + [token], rest)
    ensures IsStream(next, request, tokens, left, given, [token] + rest)
  {
    hide Wanted, GreedyAt;
    var stream := [token] + rest;
    HeadOfStream(next, request, tokens, token, rest, given);
    forall i | 0 < i < |stream| ensures GreedyAt(next, tokens, stream, i) {
      RestOfStream(next, request, tokens, token, rest, given, i - 1);
    }
    forall n | 0 < n < |stream| ensures Wanted(request, given, stream, n) {
      RestOfStream(next, request, tokens, token, rest, given, n - 1);
    }
    RestOfStream(next, request, tokens, token, rest, given, |rest|);
  }

  lemma HeadOfStream(
      next: seq<int> -> int, request: Request, tokens: seq<int>, token: int, rest: seq<int>, given: seq<int>)
    requires token == next(tokens)
    ensures GreedyAt(next, tokens, [token] + rest, 0)
    ensures Wanted(request, given, [token] + rest, 1) == request.consumer(given + [token])
  {
    var stream := [token] + rest;
    assert tokens + stream[..0] == tokens && stream[..1] == [token];
  }

  lemma RestOfStream(
      next: seq<int> -> int, request: Request, tokens: seq<int>, token: int, rest: seq<int>, given: seq<int>, i: nat)
    requires i <= |rest|
    ensures i < |rest| ==> GreedyAt(next, tokens, [token] + rest, i + 1)
                           == GreedyAt(next, tokens + [token], rest, i)
    ensures i > 0 ==> Wanted(request, given, [token] + rest, i + 1) == Wanted(request, given + [token], rest, i)
    ensures i == 0 ==> Wanted(request, given, [token] + rest, 1) == request.consumer(given + [token])
    ensures tokens + [token] + rest == tokens + ([token] + rest)
  {
    var stream := [token] + rest;
    assert stream[..i + 1] == [token] + rest[..i];
    assert tokens + stream[..i + 1] == tokens + [token] + rest[..i];
    assert given + stream[..i + 1] == given + [token] + rest[..i];
  }

  /** What is still owed of the stream after `yielded` was given out. */
  ghost function Owed(
      next: seq<int> -> int, request: Request, sequence: seq<int>, left: nat, yielded: seq<int>): seq<int>
  {
    yielded + Plain(next, request, sequence, left, yielded)
  }

  lemma OwedStep(
      next: seq<int> -> int, request: Request, sequence: seq<int>, left: nat, yielded: seq<int>, token: int)
    requires 0 < left && |sequence| < request.contextLength
    requires token == next(sequence)
    ensures token == request.assistantEnd || token == request.bos ==>
              Owed(next, request, sequence, left, yielded) == yielded
    ensures token != request.assistantEnd && token != request.bos ==>
              Owed(next, request, sequence, left, yielded)
              == if request.consumer(yielded + [token])
                 then Owed(next, request, sequence + [token], left - 1, yielded + [token])
                 else yielded + [token]
  {
    if token != request.assistantEnd && token != request.bos && request.consumer(yielded + [token]) {
      var rest := Plain(next, request, sequence + [token], left - 1, yielded + [token]);
      assert yielded + ([token] + rest) == (yielded + [token]) + rest;
    }
  }

  lemma RunAt(next: seq<int> -> int, sequence: seq<int>, run: seq<int>, index: nat)
    requires GreedyRun(next, sequence, run) && index < |run|
    ensures run[index] == next(sequence + run[..index])
  {
    assert GreedyAt(next, sequence, run, index);
  }

  lemma TakeOneMore(run: seq<int>, index: nat)
    requires index < |run|
    ensures run[..index + 1] == run[..index] + [run[index]]
  {
  }

  lemma RunStep(
      next: seq<int> -> int, request: Request, sequence: seq<int>, run: seq<int>, index: nat, left: nat, given: seq<int>)
    requires index < |run| && index < left
    requires GreedyRun(next, sequence, run) && |sequence| + |run| <= request.contextLength
    ensures var owed := Owed(next, request, sequence + run[..index], left - index, given);
            var longer := given + [run[index]];
            if run[index] == request.assistantEnd || run[index] == request.bos then owed == given
            else if !request.consumer(longer) || index + 1 == left then owed == longer
            else owed == Owed(next, request, sequence + run[..index + 1], left - (index + 1), longer)
    ensures run[..index + 1] == run[..index] + [run[index]]
  {
    hide Owed, Plain, GreedyRun;
    var before, token := sequence + run[..index], run[index];
    RunAt(next, sequence, run, index);
    OwedStep(next, request, before, left - index, given, token);
    TakeOneMore(run, index);
    assert before + [token] == sequence + run[..index + 1];
    if index + 1 == left {
      OwedDone(next, request, before + [token], 0, given + [token]);
    }
  }

  /** Emits an accepted run token by token until the request ends. */
  method EmitRun(
      ghost next: seq<int> -> int, request: Request, sequence: seq<int>, run: seq<int>, left: nat, yielded: seq<int>)
      returns (more: bool, given: seq<int>)
    requires 0 < left && run != []
    requires GreedyRun(next, sequence, run) && |sequence| + |run| <= request.contextLength
    ensures more ==> |run| < left && given == yielded + run
    ensures more ==> Owed(next, request, sequence + run, left - |run|, given)
                     == Owed(next, request, sequence, left, yielded)
    ensures !more ==> given == Owed(next, request, sequence, left, yielded)
  {
    hide Owed, Plain, GreedyRun;
    given := yielded;
    assert sequence + run[..0] == sequence;
    for index := 0 to |run|
      invariant index < left && given == yielded + run[..index]
      invariant Owed(next, request, sequence + run[..index], left - index, given)
                == Owed(next, request, sequence, left, yielded)
    {
      var token := run[index];
      RunStep(next, request, sequence, run, index, left, given);
      if token == request.assistantEnd || token == request.bos {
        return false, given;
      }
      given := given + [token];
      if !request.consumer(given) {
        return false, given;
      }
      if index + 1 == left {
        return false, given;
      }
    }
    assert run[..|run|] == run;
    more := true;
  }

  lemma OwedDone(
      next: seq<int> -> int, request: Request, sequence: seq<int>, left: nat, yielded: seq<int>)
    requires left == 0 || |sequence| >= request.contextLength
    ensures Owed(next, request, sequence, left, yielded) == yielded
  {
  }

  lemma OwedBegins(next: seq<int> -> int, request: Request, sequence: seq<int>, left: nat, yielded: seq<int>)
    ensures yielded <= Owed(next, request, sequence, left, yielded)
  {
  }

  lemma OwedNothingYet(next: seq<int> -> int, request: Request, tokens: seq<int>, left: nat)
    ensures Owed(next, request, tokens, left, []) == Plain(next, request, tokens, left, [])
  {
  }
}
