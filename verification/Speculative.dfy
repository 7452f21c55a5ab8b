/** Exact greedy speculative decoding over a rewindable key/value cache. */
module Speculative {
  import opened ChunkedForward
  import opened Division
  import opened Networks
  import opened Sequences
  import opened Smear
  import opened Streams
  import opened Vectors
  import opened Wrappers

  /** The index of the first largest score. */
  ghost predicate IsArgmax(values: seq<real>, best: nat) {
    && best < |values|
    && (forall i | 0 <= i < |values| :: values[i] <= values[best])
    && forall i | 0 <= i < best :: values[i] < values[best]
  }

  method ArgmaxSlice(values: seq<real>) returns (best: nat)
    requires values != []
    ensures IsArgmax(values, best)
  {
    best := 0;
    for index := 1 to |values|
      invariant best < index
      invariant forall i | 0 <= i < index :: values[i] <= values[best]
      invariant forall i | 0 <= i < best :: values[i] < values[best]
    {
      if values[index] > values[best] {
        best := index;
      }
    }
  }

  ghost predicate Scores(net: Network, act: Vec, kept: Vec) {
    net.output(act, kept) != []
  }

  /** The network has a vocabulary to choose from. */
  ghost predicate Decodes(net: Network) {
    WellFormed(net) && forall act, kept :: Scores(net, act, kept)
  }

  // ---------- token-by-token decoding ----------

  /** The scores of the last position of a forward over the whole sequence. */
  ghost function ScoresAfter(net: Network, tokens: seq<int>): (scores: seq<real>)
    requires Decodes(net) && tokens != []
    ensures scores != []
  {
    hide WellFormed, After;
    var top := After(net, tokens, |net.layers|);
    assert Scores(net, top.acts[|tokens| - 1], top.kept[|tokens| - 1]);
    Outputs(net, tokens)[|tokens| - 1]
  }

  /** A row of a longer forward is what a forward that ends there would give last. */
  lemma ScoresAt(net: Network, tokens: seq<int>, i: nat)
    requires Decodes(net) && i < |tokens|
    ensures ScoresAfter(net, tokens[..i + 1]) == Outputs(net, tokens)[i]
  {
    hide Outputs, WellFormed;
    OutputsPrefix(net, tokens, i + 1);
  }

  /** `token` is what greedy decoding emits after `tokens`. */
  ghost predicate IsGreedy(net: Network, tokens: seq<int>, token: int)
    requires Decodes(net)
  {
    tokens != [] && token >= 0 && IsArgmax(ScoresAfter(net, tokens), token)
  }

  ghost function Greedy(net: Network, tokens: seq<int>): (token: int)
    requires Decodes(net) && tokens != []
    ensures IsGreedy(net, tokens, token)
  {
    var scores := ScoresAfter(net, tokens);
    ArgmaxExists(scores, |scores|);
    assert exists best: nat :: IsArgmax(scores, best) && IsGreedy(net, tokens, best) by {
      assert scores[..|scores|] == scores;
      var best: nat :| IsArgmax(scores, best);
      assert IsGreedy(net, tokens, best);
    }
    var token: int :| IsGreedy(net, tokens, token);
    token
  }

  /** The chooser of greedy decoding. */
  ghost function GreedyOf(net: Network): seq<int> -> int
    requires Decodes(net)
  {
    (tokens: seq<int>) => if tokens == [] then 0 else Greedy(net, tokens)
  }

  lemma {:induction false} ArgmaxExists(values: seq<real>, n: nat)
    requires 0 < n <= |values|
    ensures exists best: nat :: IsArgmax(values[..n], best)
  {
    if n == 1 {
      assert IsArgmax(values[..1], 0);
    } else {
      ArgmaxExists(values, n - 1);
      var best: nat :| IsArgmax(values[..n - 1], best);
      assert forall i | 0 <= i < n - 1 :: values[..n][i] == values[..n - 1][i];
      assert IsArgmax(values[..n], if values[n - 1] > values[best] then n - 1 else best);
    }
  }

  // ---------- the draft schedule ----------

  ghost function Survival(confidences: seq<real>, n: nat): real
    requires n <= |confidences|
  {
    if n == 0 then 1.0 else Survival(confidences, n - 1) * confidences[n - 1]
  }

  lemma {:induction false} SurvivalBounds(confidences: seq<real>, n: nat, i: nat)
    requires n <= |confidences| && forall k | 0 <= k < n :: 0.0 <= confidences[k] <= 1.0
    ensures 0.0 <= Survival(confidences, n) <= 1.0
    ensures i < n ==> Survival(confidences, n) <= confidences[i]
  {
    if n > 0 {
      SurvivalBounds(confidences, n - 1, i);
      var before, last := Survival(confidences, n - 1), confidences[n - 1];
      Shrinks(before, last);
      assert Survival(confidences, n) == before * last;
    }
  }

  lemma Shrinks(x: real, factor: real)
    requires 0.0 <= x <= 1.0 && 0.0 <= factor <= 1.0
    ensures 0.0 <= x * factor <= x && x * factor <= factor
  {
    NonNegative(x, factor);
    NonNegative(x, 1.0 - factor);
    NonNegative(1.0 - x, factor);
  }

  lemma NonNegative(a: real, b: real)
    requires a >= 0.0 && b >= 0.0
    ensures a * b >= 0.0
  {
  }

  /** One plus the longest run of drafts whose estimated survival stays at the threshold. */
  method ScheduledLength(confidences: seq<real>, threshold: real) returns (limit: nat)
    ensures 1 <= limit <= |confidences| + 1
    ensures forall n | 1 <= n < limit :: Survival(confidences, n) >= threshold
    ensures limit <= |confidences| ==> Survival(confidences, limit) < threshold
  {
    limit := 1;
    var survival := 1.0;
    for index := 0 to |confidences|
      invariant limit == index + 1 && survival == Survival(confidences, index)
      invariant forall n | 1 <= n < limit :: Survival(confidences, n) >= threshold
    {
      survival := survival * confidences[index];
      if survival < threshold {
        break;
      }
      limit := limit + 1;
    }
  }

  // ---------- one round ----------

  lemma ArgmaxUnique(values: seq<real>, a: nat, b: nat)
    requires IsArgmax(values, a) && IsArgmax(values, b)
    ensures a == b
  {
    assert values[a] <= values[b] && values[b] <= values[a];
  }

  lemma GreedyIs(net: Network, tokens: seq<int>, best: nat)
    requires Decodes(net) && tokens != [] && IsArgmax(ScoresAfter(net, tokens), best)
    ensures Greedy(net, tokens) == best
  {
    ArgmaxUnique(ScoresAfter(net, tokens), Greedy(net, tokens), best);
  }

  /** The longest prefix of the candidates greedy decoding agrees with, and the token after it. */
  method Accept(
      ghost net: Network, ghost tokens: seq<int>, candidates: seq<int>, verified: seq<seq<real>>)
      returns (accepted: nat, next: int)
    requires Decodes(net) && tokens != [] && candidates != []
    requires candidates[0] == Greedy(net, tokens)
    requires |verified| == |candidates|
    requires forall i | 0 <= i < |verified| :: verified[i] == ScoresAfter(net, tokens + candidates[..i + 1])
    ensures 1 <= accepted <= |candidates|
    ensures GreedyRun(GreedyOf(net), tokens, candidates[..accepted])
    ensures next == Greedy(net, tokens + candidates[..accepted])
    ensures accepted < |candidates| ==> candidates[accepted] != next
  {
    hide ScoresAfter, IsArgmax, Decodes;
    var matched := 0;
    next := ArgmaxRow(net, tokens, candidates, verified, 0);
    assert tokens + candidates[..0] == tokens;
    while matched < |candidates| - 1 && next == candidates[matched + 1]
      invariant 0 <= matched < |candidates|
      invariant forall i | 0 <= i <= matched :: candidates[i] == Greedy(net, tokens + candidates[..i])
      invariant next == Greedy(net, tokens + candidates[..matched + 1])
    {
      matched := matched + 1;
      next := ArgmaxRow(net, tokens, candidates, verified, matched);
    }
    accepted := 1 + matched;
    forall i | 0 <= i < accepted
      ensures GreedyAt(GreedyOf(net), tokens, candidates[..accepted], i)
    {
      assert candidates[..accepted][..i] == candidates[..i];
    }
  }

  method ArgmaxRow(
      ghost net: Network, ghost tokens: seq<int>, ghost candidates: seq<int>, verified: seq<seq<real>>, row: nat)
      returns (best: nat)
    requires Decodes(net) && tokens != []
    requires row < |verified| == |candidates|
    requires verified[row] == ScoresAfter(net, tokens + candidates[..row + 1])
    ensures best == Greedy(net, tokens + candidates[..row + 1])
  {
    hide ScoresAfter, Decodes;
    best := ArgmaxSlice(verified[row]);
    GreedyIs(net, tokens + candidates[..row + 1], best);
  }

  /** An uncompressed cache that stands for the tokens. */
  ghost predicate Ready(net: Network, cache: KVBuffer, tokens: seq<int>)
    reads cache, cache.Repr()
  {
    && Decodes(net) && Uncompressed(net) && tokens != []
    && cache.Fits(net, cache.capacity) && cache.Holds(net, tokens)
  }

  /** One forward over the candidates: every row's scores are those of decoding up to it. */
  method ScoreRows(net: Network, cache: KVBuffer, candidates: seq<int>, ghost tokens: seq<int>)
      returns (rows: seq<seq<real>>)
    requires Decodes(net) && cache.Fits(net, cache.capacity) && cache.Holds(net, tokens)
    requires candidates != [] && |tokens| + |candidates| <= cache.capacity
    modifies cache, cache.Repr()
    ensures cache.Holds(net, tokens + candidates)
    ensures |rows| == |candidates|
    ensures forall i | 0 <= i < |rows| :: rows[i] == ScoresAfter(net, tokens + candidates[..i + 1])
  {
    hide WellFormed, ScoresAfter, KVBuffer.Holds, Outputs;
    LessRoom(net, cache, cache.capacity, |tokens| + |candidates|);
    rows := cache.Forward(net, candidates, tokens);
    forall i | 0 <= i < |rows| ensures rows[i] == ScoresAfter(net, tokens + candidates[..i + 1]) {
      ScoresAt(net, tokens + candidates, |tokens| + i);
      TakeConcat(tokens, candidates, i + 1);
    }
  }

  /** Verifies the candidates in one forward, keeps the longest prefix greedy decoding would
      have produced, rewinds the cache to it, and returns the token that follows. */
  method VerifyRound(net: Network, cache: KVBuffer, candidates: seq<int>, ghost tokens: seq<int>)
      returns (accepted: nat, next: int)
    requires Ready(net, cache, tokens)
    requires candidates != [] && |tokens| + |candidates| <= cache.capacity
    requires candidates[0] == Greedy(net, tokens)
    modifies cache, cache.Repr()
    ensures 1 <= accepted <= |candidates|
    ensures GreedyRun(GreedyOf(net), tokens, candidates[..accepted])
    ensures next == Greedy(net, tokens + candidates[..accepted])
    ensures accepted < |candidates| ==> candidates[accepted] != next
    ensures Ready(net, cache, tokens + candidates[..accepted])
  {
    hide ScoresAfter, Decodes, Greedy, WellFormed, Uncompressed, GreedyRun, KVBuffer.Holds;
    PositionOf(net, cache, tokens);
    var basePosition := cache.position;
    var verified := ScoreRows(net, cache, candidates, tokens);
    accepted, next := Accept(net, tokens, candidates, verified);
    Rewind(net, cache, basePosition, accepted, candidates, tokens);
  }

  /** Sets the cache back behind the accepted candidates. */
  method Rewind(
      net: Network, cache: KVBuffer, basePosition: nat, accepted: nat, candidates: seq<int>, ghost tokens: seq<int>)
    requires Ready(net, cache, tokens + candidates)
    requires basePosition == |tokens| && 1 <= accepted <= |candidates|
    modifies cache`position, cache`previous
    ensures Ready(net, cache, tokens + candidates[..accepted])
  {
    hide Decodes, WellFormed, Uncompressed, KVBuffer.LayerAt, Embeddings, LastOf;
    PositionOf(net, cache, tokens + candidates);
    TakeConcat(tokens, candidates, accepted);
    cache.SetPosition(basePosition + accepted);
    cache.SetPreviousEmbeddingForToken(net, candidates[accepted - 1]);
    DecodesIsWell(net);
    Rewound(net, cache, tokens + candidates, |tokens| + accepted);
  }

  lemma PositionOf(net: Network, cache: KVBuffer, tokens: seq<int>)
    requires Ready(net, cache, tokens)
    ensures cache.position == |tokens|
  {
  }

  lemma DecodesIsWell(net: Network)
    requires Decodes(net)
    ensures WellFormed(net)
  {
  }

  // ---------- the whole request ----------

  const DEFAULT_DRAFT_LENGTH := 5
  const DEFAULT_CONFIDENCE_THRESHOLD := 0.5

  /** Whatever proposes tokens. Nothing is assumed of its guesses, not even that it returns as many as
      it was asked for. */
  datatype Drafter =
    | DSpark(draft: (seq<int>, nat) -> (seq<int>, seq<real>), threshold: real)
    | Extra(draftTokens: (seq<int>, nat) -> seq<int>)

  /** It returns no more than it was asked for. */
  ghost predicate Bounded(drafter: Drafter) {
    match drafter
    case DSpark(draft, _) => forall context, count :: |draft(context, count).0| <= count
    case Extra(draftTokens) => forall context, count :: |draftTokens(context, count)| <= count
  }

  function Threshold(given: real): (threshold: real)
    ensures threshold > 0.0 && (given > 0.0 ==> threshold == given) && (given <= 0.0 ==> threshold == 0.5)
  {
    if given <= 0.0 then DEFAULT_CONFIDENCE_THRESHOLD else given
  }

  /** The block is the first token and a draft; a confidence-scheduled draft is cut exactly where
      its survival first falls below the threshold, or where the confidences end. */
  ghost predicate Scheduled(drafter: Drafter, context: seq<int>, count: nat, candidates: seq<int>)
    requires context != []
  {
    var first := [context[|context| - 1]];
    match drafter
    case DSpark(draft, given) =>
      var (drafted, confidences) := draft(context, count);
      && candidates != [] && candidates <= first + drafted
      && |candidates| <= |confidences| + 1
      && (forall n | 1 <= n < |candidates| :: Survival(confidences, n) >= Threshold(given))
      && (|candidates| <= |drafted| ==>
            |candidates| == |confidences| + 1 || Survival(confidences, |candidates|) < Threshold(given))
    case Extra(draftTokens) => candidates == first + draftTokens(context, count)
  }

  /** Where confidences are probabilities, no token is drafted whose own confidence is below the
      threshold, however it was reached. */
  lemma DraftedConfident(drafter: Drafter, context: seq<int>, count: nat, candidates: seq<int>, i: nat)
    requires drafter.DSpark? && context != [] && Scheduled(drafter, context, count, candidates)
    requires 0 < i < |candidates|
    requires forall k | 0 <= k < |drafter.draft(context, count).1| :: 0.0 <= drafter.draft(context, count).1[k] <= 1.0
    ensures i <= |drafter.draft(context, count).1|
    ensures drafter.draft(context, count).1[i - 1] >= if drafter.threshold > 0.0 then drafter.threshold else 0.5
  {
    var confidences := drafter.draft(context, count).1;
    SurvivalBounds(confidences, i, i - 1);
  }

  /** The first candidate followed by as much of the draft as the schedule admits. */
  method Candidates(drafter: Drafter, sequence: seq<int>, first: int, blockSize: nat) returns (candidates: seq<int>)
    requires blockSize >= 1
    ensures candidates != [] && candidates[0] == first
    ensures blockSize == 1 ==> candidates == [first]
    ensures blockSize > 1 ==> Scheduled(drafter, sequence + [first], blockSize - 1, candidates)
  {
    var draftCount := blockSize - 1;
    candidates := [first];
    if draftCount > 0 {
      var draftContext := sequence + [first];
      match drafter {
        case DSpark(draft, given) =>
          var drafted := draft(draftContext, draftCount);
          candidates := candidates + drafted.0;
          var limit := ScheduledLength(drafted.1, Threshold(given));
          if limit < |candidates| {
            candidates := candidates[..limit];
          }
        case Extra(draftTokens) =>
          candidates := candidates + draftTokens(draftContext, draftCount);
      }
    }
  }

  function DraftLength(draftLength: int): (length: nat)
    ensures length >= 2 && (draftLength >= 2 ==> length == draftLength) && (draftLength < 2 ==> length == 5)
  {
    if draftLength < 2 then DEFAULT_DRAFT_LENGTH else draftLength
  }

  /** What the drafter returns behind the sequence does not fit the context window: the forward that
      verifies it writes past the cache and panics. */
  ghost predicate Overflows(drafter: Drafter, sequence: seq<int>, first: int, length: nat, contextLength: nat)
    requires |sequence| <= contextLength
  {
    var room := contextLength - |sequence|;
    var blockSize := if length > room then room else length;
    blockSize > 1 && exists candidates: seq<int> | |candidates| > room ::
      Scheduled(drafter, sequence + [first], blockSize - 1, candidates)
  }

  lemma BoundedFits(drafter: Drafter, sequence: seq<int>, first: int, length: nat, contextLength: nat)
    requires Bounded(drafter) && |sequence| <= contextLength
    ensures !Overflows(drafter, sequence, first, length, contextLength)
  {
    var room := contextLength - |sequence|;
    var count := (if length > room then room else length) - 1;
    forall candidates: seq<int> | count > 0 && Scheduled(drafter, sequence + [first], count, candidates)
      ensures |candidates| <= room
    {
      match drafter {
        case DSpark(draft, _) => assert |draft(sequence + [first], count).0| <= count;
        case Extra(draftTokens) => assert |draftTokens(sequence + [first], count)| <= count;
      }
    }
  }

  /** A fresh cache holding the prompt, and the scores after its last token. */
  method Prefill(net: Network, capacity: nat, tokens: seq<int>) returns (cache: KVBuffer, lastLogits: seq<real>)
    requires Decodes(net) && Uncompressed(net) && tokens != [] && |tokens| <= capacity
    ensures fresh(cache) && fresh(cache.Repr()) && cache.capacity == capacity && Ready(net, cache, tokens)
    ensures lastLogits == ScoresAfter(net, tokens)
  {
    hide WellFormed, Uncompressed, ScoresAfter, KVBuffer.Holds;
    RatioAtLeastOne(net);
    QuotientAtMost(net.ratio, capacity);
    cache := new KVBuffer(net, capacity, capacity);
    var logits := ScoreRows(net, cache, tokens, []);
    lastLogits := logits[|tokens| - 1];
    assert [] + tokens[..|tokens|] == tokens && [] + tokens == tokens;
  }

  lemma DraftOverflows(
      drafter: Drafter, sequence: seq<int>, first: int, length: nat, contextLength: nat, candidates: seq<int>)
    requires |sequence| <= contextLength
    requires var room := contextLength - |sequence|;
             var blockSize := if length > room then room else length;
             && |candidates| > room && blockSize >= 1
             && (blockSize == 1 ==> candidates == [first])
             && (blockSize > 1 ==> Scheduled(drafter, sequence + [first], blockSize - 1, candidates))
    ensures Overflows(drafter, sequence, first, length, contextLength)
  {
    hide Scheduled;
  }

  /** Speculative decoding yields exactly what plain greedy decoding yields, whatever is drafted, as long
      as every draft fits the context window. It panics only at a draft that does not, and what it has
      yielded by then is how greedy decoding begins. */
  method SpeculativeGenerate(
      net: Network, request: Request, drafter: Drafter, tokens: seq<int>, maxTokens: int, draftLength: int)
      returns (yielded: seq<int>, crashed: bool)
    requires Decodes(net) && Uncompressed(net) && |tokens| <= request.contextLength
    ensures tokens == [] ==> yielded == [] && !crashed
    ensures tokens != [] && !crashed ==>
              yielded == Plain(GreedyOf(net), request, tokens, if maxTokens <= 0 then 0 else maxTokens, [])
    ensures crashed ==>
              && yielded <= Plain(GreedyOf(net), request, tokens, if maxTokens <= 0 then 0 else maxTokens, [])
              && |tokens + yielded| < request.contextLength
              && Overflows(drafter, tokens + yielded, Greedy(net, tokens + yielded), DraftLength(draftLength),
                           request.contextLength)
  {
    hide Decodes, Uncompressed, Ready, Greedy, GreedyOf, GreedyRun, Owed, ScoresAfter, Plain, Scheduled, Overflows;
    yielded, crashed := [], false;
    if tokens == [] {
      return;
    }
    var length := DraftLength(draftLength);
    var cache, lastLogits := Prefill(net, request.contextLength, tokens);
    var sequence, emitted, pending, hasPending := tokens, 0, 0, false;
    ghost var limit: nat := if maxTokens <= 0 then 0 else maxTokens;
    ghost var whole := Owed(GreedyOf(net), request, tokens, limit, []);
    OwedNothingYet(GreedyOf(net), request, tokens, limit);
    while emitted < maxTokens
      invariant 0 <= emitted <= limit && sequence != [] && |sequence| <= request.contextLength
      invariant sequence == tokens + yielded
      invariant fresh(cache) && fresh(cache.Repr()) && cache.capacity == request.contextLength
      invariant Ready(net, cache, sequence)
      invariant if hasPending then pending == Greedy(net, sequence)
                else lastLogits == ScoresAfter(net, sequence)
      invariant Owed(GreedyOf(net), request, sequence, limit - emitted, yielded) == whole
      decreases maxTokens - emitted
    {
      var first: int;
      if hasPending {
        first := pending;
        hasPending := false;
      } else {
        first := ArgmaxSlice(lastLogits);
        GreedyIs(net, sequence, first);
      }
      PositionOf(net, cache, sequence);
      var room := request.contextLength - cache.position;
      var blockSize := if length > room then room else length;
      if blockSize < 1 {
        OwedDone(GreedyOf(net), request, sequence, limit - emitted, yielded);
        return;
      }
      var candidates := Candidates(drafter, sequence, first, blockSize);
      if |candidates| > room {
        DraftOverflows(drafter, sequence, first, length, request.contextLength, candidates);
        OwedBegins(GreedyOf(net), request, sequence, limit - emitted, yielded);
        return yielded, true;
      }
      var accepted, next := VerifyRound(net, cache, candidates, sequence);
      var run := candidates[..accepted];
      var more, given := EmitRun(GreedyOf(net), request, sequence, run, maxTokens - emitted, yielded);
      yielded := given;
      if !more {
        return;
      }
      assert sequence + run == tokens + given;
      sequence := sequence + run;
      emitted := emitted + accepted;
      pending, hasPending := next, true;
    }
    OwedDone(GreedyOf(net), request, sequence, limit - emitted, yielded);
  }
}
