/**
 * Properties of sequences of transitions: what purely sequential "next" presses reach, and
 * what the missing movement guard and the missing cancellation let through.
 */
module Scenarios {
  import opened Wrappers
  import opened Geometry
  import opened Levels
  import opened Persistence
  import opened Progression
  import Node
  import Tooltip
  import CurvedPath

  /** Every completed level lies below the current level, and the current level is a level. */
  predicate CompletedBelowCurrent(s: State) {
    && 1 <= s.currentLevel <= LevelCount
    && NoDups(s.completed)
    && forall x :: x in s.completed ==> 1 <= x < s.currentLevel
  }

  /** The completed levels are exactly 1 .. currentLevel-1, in order. */
  predicate CompletedIsPrefix(s: State) {
    1 <= s.currentLevel <= LevelCount && s.completed == Range(1, s.currentLevel)
  }

  /**
   * One "next" press whose movement is allowed to run to its completion frame; that frame
   * is the completion step (the contract of `AnimateFrame`).
   */
  function Advance(s: State): State {
    var (moving, mv) := HandleNext(s);
    match mv
    case None => moving
    case Some(m) => CompleteMove(moving, m)
  }

  /** Each state of `run` is the previous one after one sequential press-and-complete. */
  predicate SequentialRun(run: seq<State>) {
    forall i :: 0 < i < |run| ==> run[i] == Advance(run[i - 1])
  }

  /** A sequential press-and-complete keeps every completed level below the current one. */
  lemma AdvancePreservesCompletedBelowCurrent(s: State)
    requires CompletedBelowCurrent(s)
    ensures CompletedBelowCurrent(Advance(s))
    ensures LevelCount !in Advance(s).completed
  {
  }

  /** A sequential press-and-complete keeps the completed levels a prefix, one level further on. */
  lemma AdvancePreservesPrefix(s: State)
    requires CompletedIsPrefix(s)
    ensures CompletedIsPrefix(Advance(s))
    ensures Advance(s).currentLevel == if s.currentLevel < LevelCount then s.currentLevel + 1 else LevelCount
  {
    var c := s.currentLevel;
    assert NoDups(Range(1, c));
    if c < LevelCount {
      assert c !in Range(1, c);
      assert Range(1, c) + [c] == Range(1, c + 1);
    }
  }

  /**
   * Along a run of sequential presses from a prefix state, the i-th state is i levels further
   * on, stopping at the last level; the completed levels stay the prefix below the current
   * one, so the last level is never completed.
   */
  lemma {:induction false} SequentialRunFromPrefix(run: seq<State>, i: int)
    requires |run| > 0 && CompletedIsPrefix(run[0]) && SequentialRun(run)
    requires 0 <= i < |run|
    ensures CompletedIsPrefix(run[i])
    ensures run[i].currentLevel ==
      if run[0].currentLevel + i <= LevelCount then run[0].currentLevel + i else LevelCount
    ensures LevelCount !in run[i].completed
  {
    if i > 0 {
      SequentialRunFromPrefix(run, i - 1);
      AdvancePreservesPrefix(run[i - 1]);
    }
  }

  /** The concrete run from the initial state: one press completes level 1 and unlocks level 2. */
  lemma FirstAdvance()
    ensures Advance(Initial).currentLevel == 2
    ensures Advance(Initial).completed == [1]
    ensures Advance(Initial).sounds == SoundTriggers(true, true)
    ensures Advance(Initial).showUnlockAnimation == Some(2)
    ensures Advance(Initial).logo == Catalog[1].position
  {
  }

  /** At the last level "next" leaves the whole state unchanged. */
  lemma NextAtLastLevelIsNoOp(s: State)
    requires s.currentLevel >= LevelCount
    ensures HandleNext(s) == (s, None)
    ensures Advance(s) == s
  {
  }

  /** Restoring a prefix of stored flags gives a state from which sequential play is well-behaved. */
  lemma RestorePrefix(s: State, store: Store, k: int)
    requires FlagsArePrefix(store, k) && k < LevelCount
    ensures CompletedIsPrefix(Restore(s, store))
    ensures Restore(s, store).currentLevel == k + 1
  {
    FlaggedPrefix(store, k, LevelCount);
  }

  /** With all seven flags stored, the restore completes every level but keeps the prior current level. */
  lemma RestoreAllFlagged(s: State, store: Store)
    requires FlagsArePrefix(store, LevelCount)
    ensures Restore(s, store).completed == Range(1, LevelCount + 1)
    ensures Restore(s, store).currentLevel == s.currentLevel
    ensures s == Initial ==> !CompletedBelowCurrent(Restore(s, store))
  {
    FlaggedPrefix(store, LevelCount, LevelCount);
    if s == Initial {
      assert 1 in Restore(s, store).completed;
    }
  }

  /** After a reset has cleared the store, a restore yields the first level with nothing completed. */
  lemma ResetThenRestore(s: State, store: Store)
    ensures var (s1, st1) := HandleReset(s, store);
      Restore(s1, st1).currentLevel == 1 && Restore(s1, st1).completed == []
  {
    NothingFlaggedAfterClear(store, LevelCount);
  }

  lemma {:induction false} OnlyLevelThreeFlagged(store: Store, n: int)
    requires forall i :: 1 <= i <= LevelCount ==> (IsFlagged(store, i) <==> i == 3)
    requires 0 <= n <= LevelCount
    ensures FlaggedLevels(store, n) == if n >= 3 then [3] else []
  {
    if n > 0 {
      OnlyLevelThreeFlagged(store, n - 1);
    }
  }

  /**
   * Stored flags that skip a level give a current level that is not the frontier: with only
   * level 3 flagged, level 3 is completed while level 2 is current.
   */
  lemma SparseRestore(s: State, store: Store)
    requires forall i :: 1 <= i <= LevelCount ==> (IsFlagged(store, i) <==> i == 3)
    ensures Restore(s, store).completed == [3]
    ensures Restore(s, store).currentLevel == 2
    ensures !CompletedBelowCurrent(Restore(s, store))
  {
    OnlyLevelThreeFlagged(store, LevelCount);
    assert 3 in Restore(s, store).completed;
  }

  /**
   * A movement that completes after a reset was pressed still runs its completion step: the
   * captured level is marked completed and the reset level is incremented, so a completed
   * level ends up at or above the current one.
   */
  lemma StaleCompletionAfterReset(s: State, store: Store)
    requires CompletedBelowCurrent(s) && 2 <= s.currentLevel < LevelCount
    ensures var (moving, mv) := HandleNext(s);
      var (reset, _) := HandleReset(moving, store);
      var after := CompleteMove(reset, mv.value);
      after.currentLevel == 2 && after.completed == [s.currentLevel] && !CompletedBelowCurrent(after)
  {
  }

  /** "Next" does not look at `isMoving`: pressing it during a movement captures the same move again. */
  lemma NextIgnoresMoving(s: State)
    ensures HandleNext(HandleNext(s).0).1 == HandleNext(s).1
  {
  }

  /** Completing the same captured move twice adds its level once but moves two levels on. */
  lemma CompleteTwice(s: State, mv: Move)
    requires NoDups(s.completed) && mv.level !in s.completed
    ensures CompleteMove(CompleteMove(s, mv), mv).completed == s.completed + [mv.level]
    ensures CompleteMove(CompleteMove(s, mv), mv).currentLevel == s.currentLevel + 2
  {
    var once := CompleteMove(s, mv);
    assert once.completed == s.completed + [mv.level];
    assert mv.level in once.completed;
  }

  /**
   * Two "next" presses before the first movement completes capture the same level twice:
   * both completions run, the current level goes up by two, but only one level is completed,
   * so the completed levels are no longer a prefix.
   */
  lemma DoubleNextSkipsLevel(s: State)
    requires CompletedIsPrefix(s) && s.currentLevel < LevelCount
    ensures var (m1, mv1) := HandleNext(s);
      var (m2, mv2) := HandleNext(m1);
      var after := CompleteMove(CompleteMove(m2, mv1.value), mv2.value);
      mv1 == mv2 &&
      after.currentLevel == s.currentLevel + 2 &&
      after.completed == s.completed + [s.currentLevel] &&
      s.currentLevel + 1 !in after.completed &&
      !CompletedIsPrefix(after)
  {
    var c := s.currentLevel;
    assert NoDups(Range(1, c));
    assert c !in Range(1, c);
    NextIgnoresMoving(s);
    var (m1, mv1) := HandleNext(s);
    var (m2, mv2) := HandleNext(m1);
    CompleteTwice(m2, mv1.value);
  }

  // ---------------------------------------------------------------------------
  // The node and tooltip read against the map's state

  /**
   * A node is clickable exactly when its level has been reached or completed; a click on it
   * navigates only when the level is current or unlocked, so completed nodes swallow clicks.
   */
  lemma NodeClickThroughMap(s: State, id: int)
    requires 1 <= id <= LevelCount
    ensures Node.IsClickable(StatusOf(s, id)) <==> id <= s.currentLevel || id in s.completed
    ensures var l := LevelsView(s)[id - 1];
      var forwarded := Node.HandleClick(l, StatusOf(s, id));
      (forwarded.Some? && HandleLevelClick(s, forwarded.value).Some?) <==>
        id <= s.currentLevel && id !in s.completed
  {
    StatusPriority(s, id);
  }

  /**
   * For the level record derived from the current state, the tooltip's icon agrees with the
   * node's status: a check iff completed, a lock iff locked.
   */
  lemma TooltipIconMatchesStatus(s: State, id: int)
    requires 1 <= id <= LevelCount
    ensures var icon := Tooltip.GetStatusIcon(LevelsView(s)[id - 1]);
      (icon == Tooltip.CheckIcon <==> StatusOf(s, id) == Completed) &&
      (icon == Tooltip.LockIcon <==> StatusOf(s, id) == Locked) &&
      (icon == Tooltip.NoIcon <==> StatusOf(s, id) == Current || StatusOf(s, id) == Unlocked)
  {
    StatusPriority(s, id);
  }

  /** Only clickable nodes report a hover, so a tooltip reached by hovering never shows a lock. */
  lemma HoveredTooltipNeverLocked(s: State, id: int, rect: Node.Rect)
    requires 1 <= id <= LevelCount
    ensures var l := LevelsView(s)[id - 1];
      match Node.HandleMouseEnter(l, StatusOf(s, id), rect)
      case None => true
      case Some(ev) =>
        var s' := HandleLevelHover(s, ev.level, ev.position);
        var view := Tooltip.RenderTooltip(s'.hovered, s'.hovered.Some?);
        view.Some? && view.value.icon != Tooltip.LockIcon
  {
    TooltipIconMatchesStatus(s, id);
  }

  /**
   * The tooltip renders the level record saved when the node was hovered, and the completion
   * step does not refresh it: hover level 1 at the start, press "next" and let the movement
   * finish, and the map counts level 1 as completed while the open tooltip still shows no check.
   */
  lemma StaleHoverAfterCompletion(rect: Node.Rect)
    ensures var ev := Node.HandleMouseEnter(LevelsView(Initial)[0], StatusOf(Initial, 1), rect);
      ev.Some? &&
      var hovered := HandleLevelHover(Initial, ev.value.level, ev.value.position);
      var next := HandleNext(hovered);
      next.1.Some? &&
      var done := AnimateFrame(next.0, next.1.value, Duration);
      var view := Tooltip.RenderTooltip(done.hovered, done.hovered.Some?);
      StatusOf(done, 1) == Completed && view.Some? && view.value.icon == Tooltip.NoIcon
  {
    StatusPriority(Initial, 1);
    var ev := Node.HandleMouseEnter(LevelsView(Initial)[0], StatusOf(Initial, 1), rect);
    var hovered := HandleLevelHover(Initial, ev.value.level, ev.value.position);
    var next := HandleNext(hovered);
    var done := AnimateFrame(next.0, next.1.value, Duration);
    assert done.completed == [1];
    StatusPriority(done, 1);
  }

  /** Leaving a node after entering it clears the hover, so no tooltip remains. */
  lemma EnterThenLeaveHidesTooltip(s: State, id: int, rect: Node.Rect)
    requires 1 <= id <= LevelCount
    ensures var entered :=
        match Node.HandleMouseEnter(LevelsView(s)[id - 1], StatusOf(s, id), rect)
        case None => s
        case Some(ev) => HandleLevelHover(s, ev.level, ev.position);
      var leave := Node.HandleMouseLeave();
      var left := HandleLevelHover(entered, leave.level, leave.position);
      Tooltip.RenderTooltip(left.hovered, left.hovered.Some?).None? && left.tooltipPosition == Point(0.0, 0.0)
  {
  }

  // ---------------------------------------------------------------------------
  // The path reveal read against the movement

  /**
   * During a movement the revealed part of the path only grows as time passes, including
   * across the completion frame, where the partial progress drops back to 0 but the level rises.
   */
  lemma RevealGrowsDuringMove(s: State, mv: Move, e1: int, e2: int)
    requires s.currentLevel >= 1
    requires 0 <= e1 <= e2
    ensures var r1 := AnimateFrame(s, mv, e1);
      var r2 := AnimateFrame(s, mv, e2);
      PathProgress(r1.currentLevel, r1.partialProgress) <= PathProgress(r2.currentLevel, r2.partialProgress)
  {
    var t1, t2 := TimeFraction(e1), TimeFraction(e2);
    assert e1 as real / Duration as real <= e2 as real / Duration as real;
    if e2 < Duration {
      EaseOutCubicMonotone(t1, t2);
      PathProgressMonotone(s.currentLevel, s.currentLevel, EaseOutCubic(t1), EaseOutCubic(t2));
    } else if e1 < Duration {
      PathProgressMonotone(s.currentLevel, s.currentLevel, EaseOutCubic(t1), 1.0);
      assert PathProgress(s.currentLevel, 1.0) == PathProgress(s.currentLevel + 1, 0.0);
    }
  }

  /** For any reachable level and partial progress in range, clamping the reveal fraction changes nothing. */
  lemma RevealedLengthOfPathProgress(s: State)
    requires s.currentLevel >= 1 && s.partialProgress >= 0.0
    ensures CurvedPath.RevealedLength(PathProgress(s.currentLevel, s.partialProgress))
      == PathProgress(s.currentLevel, s.partialProgress)
  {
  }
}
