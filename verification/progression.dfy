/**
 * The level-progression state of the map screen and its transitions: the derived level
 * view and status, click eligibility, the overall path-reveal fraction, "next" with its
 * eased movement and single completion step, "reset", and the startup restore.
 */
module Progression {
  import opened Wrappers
  import opened Geometry
  import opened Levels
  import opened Persistence

  /** The two edge-triggered sound flags, cleared only by the sound player's acknowledgement. */
  datatype SoundTriggers = SoundTriggers(levelComplete: bool, levelUnlock: bool)

  datatype State = State(
    currentLevel: int,
    completed: seq<int>,
    hovered: Option<Level>,
    tooltipPosition: Point,
    isMoving: bool,
    showUnlockAnimation: Option<int>,
    sounds: SoundTriggers,
    logo: Point,
    partialProgress: real)

  /** The state before the startup restore has run. */
  const Initial := State(1, [], None, Point(0.0, 0.0), false, None,
                         SoundTriggers(false, false), StartPosition, 0.0)

  /** The values a running movement captured when "next" started it. */
  datatype Move = Move(level: int, from: Point, to: Point)

  /** Segments between the seven levels. */
  const TotalSegments := 6

  /** Length of one movement between two levels, in milliseconds. */
  const Duration := 2000

  predicate NoDups(xs: seq<int>) {
    forall i, j :: 0 <= i < j < |xs| ==> xs[i] != xs[j]
  }

  // ---------------------------------------------------------------------------
  // Derived view

  /** The seven levels with their completed / unlocked / current flags derived from the state. */
  function LevelsView(s: State): (ls: seq<Level>)
    ensures |ls| == LevelCount
    ensures forall i :: 0 <= i < LevelCount ==> ls[i].id == i + 1
    ensures forall i :: 0 <= i < LevelCount ==> ls[i].position == Catalog[i].position
    ensures forall i :: 0 <= i < LevelCount ==>
      ls[i].difficulty == Catalog[i].difficulty && ls[i].stars == Catalog[i].stars &&
      ls[i].description == Catalog[i].description
    ensures forall i :: 0 <= i < LevelCount ==>
      ls[i].isCompleted == (i + 1 in s.completed) && ls[i].isUnlocked == (i + 1 <= s.currentLevel) &&
      ls[i].isCurrent == (i + 1 == s.currentLevel)
  {
    CatalogIds();
    seq(|Catalog|, i requires 0 <= i < |Catalog| =>
      var d := Catalog[i];
      Level(d.id, d.position, d.difficulty, d.stars, d.description,
            d.id in s.completed, d.id <= s.currentLevel, d.id == s.currentLevel))
  }

  /** The status the map shows for level `id` (1..7). */
  function StatusOf(s: State, id: int): LevelStatus
    requires 1 <= id <= LevelCount
  {
    GetLevelStatus(LevelsView(s)[id - 1])
  }

  /** Status follows the priority completed, current, unlocked, locked, stated on the state itself. */
  lemma StatusPriority(s: State, id: int)
    requires 1 <= id <= LevelCount
    ensures StatusOf(s, id) == Completed <==> id in s.completed
    ensures StatusOf(s, id) == Current <==> id !in s.completed && id == s.currentLevel
    ensures StatusOf(s, id) == Unlocked <==> id !in s.completed && id < s.currentLevel
    ensures StatusOf(s, id) == Locked <==> id !in s.completed && id > s.currentLevel
  {
  }

  // ---------------------------------------------------------------------------
  // Clicking a level

  /** The page a click navigates to: only a reached level that is not yet completed. */
  function HandleLevelClick(s: State, id: int): (target: Option<int>)
    ensures target.Some? ==> target.value == id
  {
    if id <= s.currentLevel && id !in s.completed then Some(id) else None
  }

  /** A click navigates exactly for the levels shown as current or unlocked. */
  lemma ClickNavigatesIffReachable(s: State, id: int)
    requires 1 <= id <= LevelCount
    ensures HandleLevelClick(s, id).Some? <==> StatusOf(s, id) == Current || StatusOf(s, id) == Unlocked
    ensures StatusOf(s, id) == Locked ==> HandleLevelClick(s, id).None?
    ensures StatusOf(s, id) == Completed ==> HandleLevelClick(s, id).None?
  {
    StatusPriority(s, id);
  }

  // ---------------------------------------------------------------------------
  // Path progress

  /** Fraction of the whole path revealed: full segments behind the current level plus the partial one. */
  function PathProgress(currentLevel: int, partial: real): (r: real)
    ensures r <= 1.0
    ensures currentLevel >= 1 && partial >= 0.0 ==> r >= 0.0
    ensures (1 <= currentLevel && 0.0 <= partial &&
             (currentLevel - 1) as real + partial <= TotalSegments as real) ==>
      r * TotalSegments as real == (currentLevel - 1) as real + partial
  {
    var completedSegments := if currentLevel - 1 >= 0 then currentLevel - 1 else 0;
    var base := completedSegments as real / TotalSegments as real;
    Min(1.0, base + partial / TotalSegments as real)
  }

  /** The path is hidden at the first level and fully revealed once the last level is current. */
  lemma PathProgressAnchors(partial: real)
    requires partial >= 0.0
    ensures PathProgress(1, 0.0) == 0.0
    ensures PathProgress(LevelCount, 0.0) == 1.0
    ensures forall cl :: cl >= LevelCount ==> PathProgress(cl, partial) == 1.0
  {
  }

  /** The reveal fraction never decreases as the level or the partial progress grows. */
  lemma PathProgressMonotone(cl1: int, cl2: int, p1: real, p2: real)
    requires cl1 <= cl2 && p1 <= p2
    ensures PathProgress(cl1, p1) <= PathProgress(cl2, p2)
  {
  }

  // ---------------------------------------------------------------------------
  // Easing of one movement

  /** The time fraction `min(elapsed / duration, 1)` of a movement. */
  function TimeFraction(elapsed: int): (t: real)
    ensures elapsed >= 0 ==> 0.0 <= t <= 1.0
    ensures t == 1.0 <==> elapsed >= Duration
    ensures t < 1.0 <==> elapsed < Duration
    ensures 0 <= elapsed <= Duration ==> t * Duration as real == elapsed as real
  {
    Min(elapsed as real / Duration as real, 1.0)
  }

  /** The ease-out cubic curve 1 - (1 - t)^3. */
  function EaseOutCubic(t: real): (e: real)
    ensures 0.0 <= t <= 1.0 ==> 0.0 <= e <= 1.0
    ensures 0.0 <= t <= 1.0 ==> (e == 1.0 <==> t == 1.0)
  {
    var u := 1.0 - t;
    assert 0.0 <= u <= 1.0 ==> 0.0 <= u * u <= 1.0 && 0.0 <= u * u * u <= u * u;
    assert 0.0 < u <= 1.0 ==> u * u * u > 0.0;
    1.0 - u * u * u
  }

  lemma MulMonotone(a: real, b: real, c: real, d: real)
    requires 0.0 <= a <= b && 0.0 <= c <= d
    ensures a * c <= b * d
  {
    assert a * c <= a * d;
    assert a * d <= b * d;
  }

  /** The eased progress never decreases as time passes. */
  lemma EaseOutCubicMonotone(t1: real, t2: real)
    requires 0.0 <= t1 <= t2 <= 1.0
    ensures EaseOutCubic(t1) <= EaseOutCubic(t2)
  {
    var u1, u2 := 1.0 - t1, 1.0 - t2;
    MulMonotone(u2, u1, u2, u1);
    MulMonotone(u2 * u2, u1 * u1, u2, u1);
  }

  // ---------------------------------------------------------------------------
  // "Next": starting a move, animating it, completing it

  /**
   * "Next" starts a movement from the current level towards the following one, unless the
   * current level is already the last; it does not look at whether a movement is running.
   */
  function HandleNext(s: State): (r: (State, Option<Move>))
    ensures r.1.Some? <==> s.currentLevel < LevelCount
    ensures r.1.None? ==> r.0 == s
    ensures r.1.Some? ==> r.0 == s.(isMoving := true)
    ensures r.1.Some? ==> r.1.value.level == s.currentLevel
  {
    if s.currentLevel <= LevelCount then
      if s.currentLevel < LevelCount then
        (s.(isMoving := true),
         Some(Move(s.currentLevel, PositionOf(s.currentLevel), PositionOf(s.currentLevel + 1))))
      else (s, None)
    else (s, None)
  }

  /** A started movement runs from the current level's catalog position to the next level's. */
  lemma NextMovesBetweenLevels(s: State)
    requires 1 <= s.currentLevel < LevelCount
    ensures HandleNext(s).1.Some?
    ensures HandleNext(s).1.value.from == Catalog[s.currentLevel - 1].position
    ensures HandleNext(s).1.value.to == Catalog[s.currentLevel].position
  {
  }

  /**
   * `r` lists its values in the order they first occur in `xs`: wherever `r[j]` occurs in `xs`,
   * every earlier `r[i]` has already occurred before it.
   */
  predicate FirstOccurrenceOrder(r: seq<int>, xs: seq<int>) {
    forall i, j, q :: 0 <= i < j < |r| && 0 <= q < |xs| && xs[q] == r[j] ==> r[i] in xs[..q]
  }

  /** Appending one value to `xs` keeps the first-occurrence order of the de-duplicated list. */
  lemma FirstOccurrenceOrderStep(init: seq<int>, x: int, d: seq<int>)
    requires forall y :: y in d <==> y in init
    requires FirstOccurrenceOrder(d, init)
    ensures FirstOccurrenceOrder(if x in d then d else d + [x], init + [x])
  {
    var xs := init + [x];
    var r := if x in d then d else d + [x];
    forall i, j, q | 0 <= i < j < |r| && 0 <= q < |xs| && xs[q] == r[j]
      ensures r[i] in xs[..q]
    {
      if j < |d| {
        assert r[i] == d[i] && r[j] == d[j];
        var q' := q;
        if q == |init| {
          assert d[j] in init;
          q' :| 0 <= q' < |init| && init[q'] == d[j];
        }
        assert init[q'] == d[j];
        assert d[i] in init[..q'];
        assert init[..q'] <= xs[..q];
      } else {
        assert r[j] == x && x !in init;
        assert q == |init|;
        assert xs[..q] == init;
        assert r[i] == d[i] && d[i] in d;
      }
    }
  }

  /** The list `Array.from(new Set(xs))` builds: `xs` with every repeat after the first dropped. */
  function Dedup(xs: seq<int>): (r: seq<int>)
    ensures NoDups(r)
    ensures |r| <= |xs|
    ensures forall x :: x in r <==> x in xs
    ensures FirstOccurrenceOrder(r, xs)
  {
    if |xs| == 0 then []
    else
      var d := Dedup(xs[..|xs| - 1]);
      var x := xs[|xs| - 1];
      assert xs == xs[..|xs| - 1] + [x];
      FirstOccurrenceOrderStep(xs[..|xs| - 1], x, d);
      if x in d then d else d + [x]
  }

  /** A list that has no repeats is left as it is. */
  lemma {:induction false} DedupOfDistinct(xs: seq<int>)
    requires NoDups(xs)
    ensures Dedup(xs) == xs
  {
    if |xs| > 0 {
      var init := xs[..|xs| - 1];
      DedupOfDistinct(init);
      assert xs == init + [xs[|xs| - 1]];
      assert xs[|xs| - 1] !in init;
    }
  }

  /** Adding one element to a list without repeats keeps the list and appends the element if new. */
  lemma DedupAppend(xs: seq<int>, x: int)
    ensures NoDups(xs) ==> Dedup(xs + [x]) == if x in xs then xs else xs + [x]
  {
    if NoDups(xs) {
      DedupOfDistinct(xs);
      assert (xs + [x])[..|xs|] == xs;
    }
  }

  /**
   * The completion step: the level captured when the movement started is added to the
   * completed list, while the current level is incremented from whatever it is now.
   */
  function CompleteMove(s: State, mv: Move): (r: State)
    ensures NoDups(r.completed)
    ensures forall x :: x in r.completed <==> x in s.completed || x == mv.level
    ensures NoDups(s.completed) ==>
      r.completed == if mv.level in s.completed then s.completed else s.completed + [mv.level]
    ensures r.currentLevel == s.currentLevel + 1
    ensures !r.isMoving && r.partialProgress == 0.0
    ensures r.sounds == SoundTriggers(true, true)
    ensures r.showUnlockAnimation == Some(mv.level + 1)
    ensures r.logo == mv.to
    ensures r.hovered == s.hovered && r.tooltipPosition == s.tooltipPosition
  {
    var completed := Dedup(s.completed + [mv.level]);
    DedupAppend(s.completed, mv.level);
    s.(completed := completed,
       sounds := s.sounds.(levelComplete := true).(levelUnlock := true),
       currentLevel := s.currentLevel + 1,
       showUnlockAnimation := Some(mv.level + 1),
       isMoving := false,
       partialProgress := 0.0,
       logo := mv.to)
  }

  /**
   * One animation frame at `elapsed` milliseconds since the movement started: the partial
   * progress and the marker follow the eased fraction; the frame that reaches the end of the
   * duration also runs the completion step.
   */
  function AnimateFrame(s: State, mv: Move, elapsed: int): (r: State)
    ensures elapsed >= 0 && elapsed < Duration ==>
      r == s.(partialProgress := r.partialProgress, logo := r.logo) &&
      0.0 <= r.partialProgress < 1.0 &&
      Between(r.logo.x, mv.from.x, mv.to.x) && Between(r.logo.y, mv.from.y, mv.to.y)
    ensures elapsed >= Duration ==> r == CompleteMove(s, mv)
    ensures elapsed == 0 ==> r.logo == mv.from && r.partialProgress == 0.0
    ensures 0 <= elapsed < Duration ==>
      r.partialProgress == EaseOutCubic(TimeFraction(elapsed)) &&
      r.logo == Lerp(mv.from, mv.to, r.partialProgress)
  {
    var t := TimeFraction(elapsed);
    var eased := EaseOutCubic(t);
    LerpBetween(mv.from, mv.to, eased);
    var moved := s.(partialProgress := eased, logo := Lerp(mv.from, mv.to, eased));
    if t < 1.0 then moved else CompleteMove(moved, mv)
  }

  /** The deferred timer that hides the unlock animation again. */
  function ClearUnlockAnimation(s: State): (r: State)
    ensures r.showUnlockAnimation.None?
    ensures r.(showUnlockAnimation := s.showUnlockAnimation) == s
  {
    s.(showUnlockAnimation := None)
  }

  /** The sound player's acknowledgement: both one-shot triggers are cleared together. */
  function AcknowledgeSounds(s: State): (r: State)
    ensures !r.sounds.levelComplete && !r.sounds.levelUnlock
    ensures r.(sounds := s.sounds) == s
  {
    s.(sounds := SoundTriggers(false, false))
  }

  /** Hovering records the reported level and tooltip position. */
  function HandleLevelHover(s: State, level: Option<Level>, position: Point): (r: State)
    ensures r.hovered == level && r.tooltipPosition == position
    ensures r.(hovered := s.hovered, tooltipPosition := s.tooltipPosition) == s
  {
    s.(hovered := level, tooltipPosition := position)
  }

  // ---------------------------------------------------------------------------
  // Reset and restore

  /**
   * "Reset": back to the first level with nothing completed, and the seven stored flags
   * removed. The sound triggers are left alone and a running movement is not cancelled.
   */
  function HandleReset(s: State, store: Store): (r: (State, Store))
    ensures r.0.currentLevel == 1 && r.0.completed == []
    ensures !r.0.isMoving && r.0.partialProgress == 0.0
    ensures r.0.hovered.None? && r.0.showUnlockAnimation.None?
    ensures r.0.logo == Catalog[0].position
    ensures r.0.sounds == s.sounds && r.0.tooltipPosition == s.tooltipPosition
    ensures r.1 == ClearLevelFlags(store)
  {
    (s.(currentLevel := 1, completed := [], hovered := None, isMoving := false,
        showUnlockAnimation := None, partialProgress := 0.0, logo := StartPosition),
     ClearLevelFlags(store))
  }

  /** Resetting twice is the same as resetting once, for the state and for the store. */
  lemma HandleResetIdempotent(s: State, store: Store)
    ensures var (s1, st1) := HandleReset(s, store); HandleReset(s1, st1) == (s1, st1)
  {
    ClearLevelFlagsIdempotent(store);
  }

  /**
   * The startup restore: the completed list is read from the stored flags; the current level
   * becomes one past the number of completed levels only while that is still a level, and the
   * marker is placed on that level (or on the last one).
   */
  function Restore(s: State, store: Store): (r: State)
    ensures r.completed == FlaggedLevels(store, LevelCount)
    ensures StrictlyIncreasing(r.completed)
    ensures forall x :: x in r.completed <==> 1 <= x <= LevelCount && IsFlagged(store, x)
    ensures |r.completed| < LevelCount ==>
      r.currentLevel == |r.completed| + 1 && r.logo == Catalog[|r.completed|].position
    ensures |r.completed| >= LevelCount ==>
      r.currentLevel == s.currentLevel && r.logo == Catalog[LevelCount - 1].position
    ensures r == s.(completed := r.completed, currentLevel := r.currentLevel, logo := r.logo)
  {
    var completed := FlaggedLevels(store, LevelCount);
    var nextLevel := |completed| + 1;
    if nextLevel <= LevelCount then
      s.(completed := completed, currentLevel := nextLevel, logo := PositionOf(nextLevel))
    else
      s.(completed := completed, logo := PositionOf(LevelCount))
  }
}
