/** The fetcher's per-tile attempt counter (the nested `Retries` class). */
module Retries {
  import opened Tiles

  /** Counters strictly above this value are exhausted. */
  const MaxRetries: nat := 0

  /** Stored counter per index; an absent index has never been attempted. */
  datatype Retries = Retries(counts: map<TileIndex, nat>)

  /** A tracker that has seen nothing. */
  const Fresh: Retries := Retries(map[])

  /** The counter the source reads: 0 when the index is absent. */
  function RetryCount(r: Retries, index: TileIndex): nat {
    if index !in r.counts then 0 else r.counts[index]
  }

  /** Whether the index has used up its attempts. */
  predicate ReachedMax(r: Retries, index: TileIndex) {
    RetryCount(r, index) > MaxRetries
  }

  /** Records one attempt: a first attempt stores 0, later ones increment. */
  function PlusOne(r: Retries, index: TileIndex): (r': Retries)
    ensures index in r'.counts
    ensures forall other :: other != index ==> RetryCount(r', other) == RetryCount(r, other)
  {
    if index !in r.counts then Retries(r.counts[index := 0])
    else Retries(r.counts[index := r.counts[index] + 1])
  }

  /** Forgets every counter. */
  function Clear(r: Retries): (r': Retries)
    ensures forall index :: !ReachedMax(r', index)
    ensures r'.counts.Keys == {}
  {
    Fresh
  }

  /** The number of PlusOne calls made for `index` since the last Clear. */
  function Attempts(r: Retries, index: TileIndex): nat {
    if index in r.counts then r.counts[index] + 1 else 0
  }

  /** Each PlusOne adds exactly one attempt for its index and none elsewhere. */
  lemma PlusOneCountsAnAttempt(r: Retries, index: TileIndex, other: TileIndex)
    ensures Attempts(PlusOne(r, index), index) == Attempts(r, index) + 1
    ensures other != index ==> Attempts(PlusOne(r, index), other) == Attempts(r, other)
  {
  }

  /** An index is exhausted exactly when it has had MaxRetries + 2 attempts,
      one more than the constant's name suggests. */
  lemma ReachedMaxIffAttempts(r: Retries, index: TileIndex)
    ensures ReachedMax(r, index) <==> Attempts(r, index) >= MaxRetries + 2
  {
  }

  /** `n` successive PlusOne calls on the same index. */
  function PlusOneTimes(r: Retries, index: TileIndex, n: nat): Retries {
    if n == 0 then r else PlusOne(PlusOneTimes(r, index, n - 1), index)
  }

  /** From a fresh tracker, n attempts leave the index eligible exactly
      while n <= MaxRetries + 1: with MaxRetries = 0, two attempts in all. */
  lemma {:induction false} AttemptsFromFresh(index: TileIndex, n: nat)
    ensures Attempts(PlusOneTimes(Fresh, index, n), index) == n
    ensures ReachedMax(PlusOneTimes(Fresh, index, n), index) <==> n > MaxRetries + 1
  {
    if n > 0 {
      AttemptsFromFresh(index, n - 1);
      PlusOneCountsAnAttempt(PlusOneTimes(Fresh, index, n - 1), index, index);
    }
    ReachedMaxIffAttempts(PlusOneTimes(Fresh, index, n), index);
  }

  /** The concrete sequence: unseen, after one PlusOne, after two. */
  lemma TwoAttemptsThenExhausted(index: TileIndex)
    ensures !ReachedMax(Fresh, index)
    ensures PlusOne(Fresh, index).counts[index] == 0
    ensures !ReachedMax(PlusOne(Fresh, index), index)
    ensures PlusOne(PlusOne(Fresh, index), index).counts[index] == 1
    ensures ReachedMax(PlusOne(PlusOne(Fresh, index), index), index)
    ensures !ReachedMax(Clear(PlusOne(PlusOne(Fresh, index), index)), index)
  {
  }
}
