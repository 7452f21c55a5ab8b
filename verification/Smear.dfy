/** The smear step: every embedding is mixed with the one before it, across chunk borders too. */
module Smear {
  import opened Vectors
  import opened Wrappers

  /** Every row as wide as the model. */
  ghost predicate Wide(rows: seq<Vec>, width: nat) {
    forall i | 0 <= i < |rows| :: |rows[i]| == width
  }

  /** What token-by-token decoding feeds the trunk: each row smeared from the unsmeared embedding
      before it, the first one from nothing. */
  ghost function Smeared(gate: Vec -> real, embeddings: seq<Vec>, width: nat): (rows: seq<Vec>)
    requires Wide(embeddings, width)
    ensures |rows| == |embeddings| && Wide(rows, width)
  {
    seq(|embeddings|, i requires 0 <= i < |embeddings| =>
      if i == 0 then embeddings[0] else Axpy(gate(embeddings[i]), embeddings[i], embeddings[i - 1]))
  }

  /** Channel by channel: the embedding, plus its gate times the embedding before it. */
  lemma SmearedAt(gate: Vec -> real, embeddings: seq<Vec>, width: nat, i: nat, c: nat)
    requires Wide(embeddings, width) && i < |embeddings| && c < width
    ensures |Smeared(gate, embeddings, width)[i]| == |embeddings[i]| == width
    ensures i > 0 ==> |embeddings[i - 1]| == width
    ensures Smeared(gate, embeddings, width)[i][c]
            == if i == 0 then embeddings[0][c] else embeddings[i][c] + gate(embeddings[i]) * embeddings[i - 1][c]
  {
    assert Wide(Smeared(gate, embeddings, width), width);
  }

  lemma SmearedPrefix(gate: Vec -> real, embeddings: seq<Vec>, width: nat, n: nat)
    requires Wide(embeddings, width) && n <= |embeddings|
    ensures Smeared(gate, embeddings[..n], width) == Smeared(gate, embeddings, width)[..n]
  {
  }

  /** In place, last row first, so that every row reads its predecessor before it is smeared. */
  method SmearAdd(activations: array<Vec>, gates: seq<real>, width: nat)
    requires |gates| + 1 == activations.Length && Wide(activations[..], width)
    modifies activations
    ensures activations[0] == old(activations[0])
    ensures forall i | 0 < i < activations.Length ::
              activations[i] == Axpy(gates[i - 1], old(activations[i]), old(activations[i - 1]))
  {
    var row := activations.Length - 1;
    while row >= 1
      invariant 0 <= row < activations.Length
      invariant forall i | 0 <= i <= row :: activations[i] == old(activations[i]) && |activations[i]| == width
      invariant forall i | row < i < activations.Length ::
                  activations[i] == Axpy(gates[i - 1], old(activations[i]), old(activations[i - 1]))
    {
      activations[row] := Axpy(gates[row - 1], activations[row], activations[row - 1]);
      row := row - 1;
    }
  }

  /** Smears row 0 from the embedding the cache kept. */
  method SmearSeed(activations: array<Vec>, gate: real, previous: Vec)
    requires activations.Length > 0 && |activations[0]| == |previous|
    modifies activations
    ensures activations[..] == old(activations[..])[0 := Axpy(gate, old(activations[0]), previous)]
    ensures activations[0] == Axpy(gate, old(activations[0]), previous)
    ensures forall i | 0 < i < activations.Length :: activations[i] == old(activations[i])
  {
    activations[0] := Axpy(gate, activations[0], previous);
  }

  ghost function LastOf(rows: seq<Vec>): Option<Vec> {
    if rows == [] then None else Some(rows[|rows| - 1])
  }

  /** The gates of all rows but the first. */
  method GatesOf(gate: Vec -> real, activations: array<Vec>) returns (gates: seq<real>)
    requires activations.Length > 0
    ensures |gates| == activations.Length - 1
    ensures forall i | 0 <= i < |gates| :: gates[i] == gate(activations[i + 1])
  {
    gates := seq(activations.Length - 1, i requires 0 <= i < activations.Length - 1
                 reads activations => gate(activations[i + 1]));
  }

  /** Smears the chunk in place, its first row from the previous embedding if there is one. */
  method SmearRows(gate: Vec -> real, width: nat, activations: array<Vec>, previous: Option<Vec>)
    requires activations.Length > 0 && Wide(activations[..], width)
    requires previous.Some? ==> |previous.value| == width
    modifies activations
    ensures activations[0] == if previous.None? then old(activations[0])
                              else Axpy(gate(old(activations[0])), old(activations[0]), previous.value)
    ensures forall i | 0 < i < activations.Length ::
              activations[i] == Axpy(gate(old(activations[i])), old(activations[i]), old(activations[i - 1]))
  {
    hide Axpy;
    if activations.Length > 1 {
      var gates := GatesOf(gate, activations);
      var seed := gate(activations[0]);
      SmearAdd(activations, gates, width);
      if previous.Some? {
        SmearSeed(activations, seed, previous.value);
      }
    } else if previous.Some? {
      SmearSeed(activations, gate(activations[0]), previous.value);
    }
  }

  /** The cached branch of the forward pass, for a chunk that follows `before`. The kept embedding
      is the unsmeared one. */
  method SmearChunk(
      gate: Vec -> real, width: nat, activations: array<Vec>, previous: Option<Vec>, ghost before: seq<Vec>)
      returns (kept: Option<Vec>)
    requires activations.Length > 0 && Wide(before + activations[..], width)
    requires previous == LastOf(before)
    modifies activations
    ensures activations[..] == Smeared(gate, before + old(activations[..]), width)[|before|..]
    ensures kept == LastOf(before + old(activations[..]))
  {
    hide Axpy, Smeared, Wide, LastOf;
    ghost var chunk := activations[..];
    WideParts(before, chunk, width);
    LastWide(before, width);
    LastOfBoth(before, chunk);
    kept := Some(activations[activations.Length - 1]);
    SmearRows(gate, width, activations, previous);
    ChunkSmeared(gate, width, before, chunk, activations[..]);
  }

  lemma WideParts(before: seq<Vec>, chunk: seq<Vec>, width: nat)
    requires Wide(before + chunk, width)
    ensures Wide(before, width) && Wide(chunk, width)
  {
    forall i | 0 <= i < |before| ensures |before[i]| == width {
      assert (before + chunk)[i] == before[i];
    }
    forall i | 0 <= i < |chunk| ensures |chunk[i]| == width {
      assert (before + chunk)[|before| + i] == chunk[i];
    }
  }

  lemma LastOfBoth(before: seq<Vec>, chunk: seq<Vec>)
    ensures before != [] ==> LastOf(before) == Some(before[|before| - 1])
    ensures before == [] ==> LastOf(before) == None
    ensures chunk != [] ==> LastOf(before + chunk) == Some(chunk[|chunk| - 1])
  {
  }

  lemma LastWide(rows: seq<Vec>, width: nat)
    requires Wide(rows, width)
    ensures LastOf(rows).Some? ==> |LastOf(rows).value| == width
  {
  }

  lemma ChunkSmeared(gate: Vec -> real, width: nat, before: seq<Vec>, chunk: seq<Vec>, rows: seq<Vec>)
    requires Wide(before + chunk, width) && Wide(before, width) && Wide(chunk, width)
    requires |rows| == |chunk| > 0
    requires rows[0] == if before == [] then chunk[0]
                        else Axpy(gate(chunk[0]), chunk[0], before[|before| - 1])
    requires forall i | 0 < i < |rows| :: rows[i] == Axpy(gate(chunk[i]), chunk[i], chunk[i - 1])
    ensures rows == Smeared(gate, before + chunk, width)[|before|..]
  {
    hide Axpy;
    var all, n := before + chunk, |before|;
    forall i | 0 <= i < |rows| ensures rows[i] == Smeared(gate, all, width)[n..][i] {
      assert all[n + i] == chunk[i];
      if i > 0 {
        assert all[n + i - 1] == chunk[i - 1];
      } else if n > 0 {
        assert all[n - 1] == before[n - 1];
      }
    }
  }

  /** A forward over the whole sequence without a cache smears the same rows. */
  method SmearWhole(gate: Vec -> real, width: nat, activations: array<Vec>)
    requires activations.Length > 1 && Wide(activations[..], width)
    modifies activations
    ensures activations[..] == Smeared(gate, old(activations[..]), width)
  {
    ghost var chunk := activations[..];
    var gates := GatesOf(gate, activations);
    SmearAdd(activations, gates, width);
    assert activations[..] == Smeared(gate, chunk, width);
  }
}
