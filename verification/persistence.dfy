/** The key-value store holding one completion flag per level, as `localStorage` does. */
module Persistence {
  import opened Levels

  type Store = map<string, string>

  /** The storage key `level<i>Completed` for a single-digit level id. */
  function LevelKey(i: int): (k: string)
    requires 1 <= i <= 9
  {
    "level" + [(('0' as int) + i) as char] + "Completed"
  }

  /** Different levels are stored under different keys. */
  lemma LevelKeyInjective(i: int, j: int)
    requires 1 <= i <= 9 && 1 <= j <= 9
    ensures LevelKey(i) == LevelKey(j) <==> i == j
  {
    if LevelKey(i) == LevelKey(j) {
      assert LevelKey(i)[5] == LevelKey(j)[5];
    }
  }

  /** The keys of the seven levels' flags. */
  function LevelKeys(): set<string> {
    set i | 1 <= i <= LevelCount :: LevelKey(i)
  }

  /** Level `i` counts as completed only when its flag holds exactly the string "true". */
  predicate IsFlagged(store: Store, i: int)
    requires 1 <= i <= 9
  {
    LevelKey(i) in store && store[LevelKey(i)] == "true"
  }

  predicate StrictlyIncreasing(xs: seq<int>) {
    forall i, j :: 0 <= i < j < |xs| ==> xs[i] < xs[j]
  }

  /** The ascending list of levels 1..n whose flag is set, as the startup loop collects it. */
  function FlaggedLevels(store: Store, n: int): (r: seq<int>)
    requires 0 <= n <= LevelCount
    ensures |r| <= n
    ensures StrictlyIncreasing(r)
    ensures forall k :: 0 <= k < |r| ==> 1 <= r[k] <= n
    ensures forall x :: x in r <==> 1 <= x <= n && IsFlagged(store, x)
  {
    if n == 0 then []
    else if IsFlagged(store, n) then FlaggedLevels(store, n - 1) + [n]
    else FlaggedLevels(store, n - 1)
  }

  /** The store after the seven level flags have been removed; every other key is kept. */
  function ClearLevelFlags(store: Store): (r: Store)
    ensures forall i :: 1 <= i <= LevelCount ==> LevelKey(i) !in r
    ensures forall k :: k in r <==> k in store && k !in LevelKeys()
    ensures forall k :: k in r ==> r[k] == store[k]
  {
    store - LevelKeys()
  }

  /** Clearing the flags twice is the same as clearing them once. */
  lemma ClearLevelFlagsIdempotent(store: Store)
    ensures ClearLevelFlags(ClearLevelFlags(store)) == ClearLevelFlags(store)
  {
  }

  /** After the flags are cleared no level reads back as completed. */
  lemma {:induction false} NothingFlaggedAfterClear(store: Store, n: int)
    requires 0 <= n <= LevelCount
    ensures FlaggedLevels(ClearLevelFlags(store), n) == []
  {
    if n > 0 {
      NothingFlaggedAfterClear(store, n - 1);
    }
  }

  /** The consecutive levels lo, lo+1, ..., hi-1. */
  function Range(lo: int, hi: int): (r: seq<int>)
    requires lo <= hi
    ensures |r| == hi - lo
    ensures forall k :: 0 <= k < |r| ==> r[k] == lo + k
  {
    seq(hi - lo, k => lo + k)
  }

  /** Stored flags form a prefix when exactly the levels 1..k are flagged. */
  predicate FlagsArePrefix(store: Store, k: int) {
    0 <= k <= LevelCount && forall i :: 1 <= i <= LevelCount ==> (IsFlagged(store, i) <==> i <= k)
  }

  /** A prefix of k flags reads back as the levels 1..k, in order. */
  lemma {:induction false} FlaggedPrefix(store: Store, k: int, n: int)
    requires FlagsArePrefix(store, k)
    requires 0 <= n <= LevelCount
    ensures FlaggedLevels(store, n) == Range(1, (if n <= k then n else k) + 1)
  {
    if n > 0 {
      FlaggedPrefix(store, k, n - 1);
      if n <= k {
        assert Range(1, n) + [n] == Range(1, n + 1);
      }
    }
  }
}
