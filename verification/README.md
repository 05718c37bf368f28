# Level map progression, modelled in Dafny

This project models the logic behind a seven-level map screen. The screen draws a curved
path through seven level nodes and moves a marker from level to level with an eased
animation. A level is locked, unlocked, current or completed. Progress is kept as
`level<i>Completed` flags in the browser's key-value store.

The model rebuilds the React components' logic as pure functions over immutable records:

- `Progression` (`src/components/LevelMap.tsx`). The progression state: current level,
  completed list, moving flag, partial progress, sound triggers, marker, hover and unlock
  animation. Also the derived level view and status, click eligibility, the path-reveal
  fraction, "next" with its eased frames and completion step, "reset", the startup restore,
  and the small UI updates (hover, sound acknowledgement, unlock-animation timer).
- `Persistence`. The `level<i>Completed` keys, reading the completed list back from a
  `map<string, string>` store, and removing the seven keys.
- `CurvedPath` (`src/components/CurvedRailwayPath.tsx`). The path as a start point plus a
  list of cubic segments (control points and end point), and the clamped reveal length.
- `Node` (`src/components/LevelNode.tsx`) and `Tooltip` (`src/components/LevelTooltip.tsx`).
  Clickability, click and hover forwarding, content and icon choice, the star rows and the
  difficulty colours.
- `Levels` (`src/types.ts` and the level table in `LevelMap.tsx`). The level record, the
  status enumeration, the fixed catalog, lookup by id, and the three-star row shared by the
  node and the tooltip.
- `Scenarios`. Properties of several transitions in a row.

Some of these properties describe the code's behaviour without any fault. A run of
sequential "next" presses completes levels 1..k in order. A restore from the store that reset
leaves behind gives level 1 with nothing completed. For the level record derived from the
current state, the tooltip's icon agrees with the node's status.

Others are consequences of the code as written:

- "next" only starts a movement below level 7 (`LevelMap.tsx:73-74`), so level 7 is never
  completed by play.
- Nothing guards "next" during a movement, and reset does not stop a running one
  (`LevelMap.tsx:72-121`). The completion step adds the level captured when the movement
  started, and increments whatever the current level is by then (`LevelMap.tsx:92,94`).
  Pressing "next" twice during one movement therefore skips a level.
- A movement started at level 2 or above that finishes after a reset puts a completed level
  at or above the current one.
- Restoring sparse flags gives a current level that is not the frontier.
- With all seven flags set, the restore keeps the current level (`LevelMap.tsx:141`).
- Reset does not clear the sound triggers. Only the sound player's acknowledgement does.
- The tooltip shows the level record saved at hover time, and nothing refreshes it when a
  movement completes, so an open tooltip can show a level as not completed after it was
  completed.

Modelling choices:

- Numbers are exact `real`s: coordinates, fractions and the easing polynomial.
- Elapsed time is an integer number of milliseconds, passed in as a parameter. The movement
  lasts 2000 ms.
- The Euclidean distance between two points is a function parameter `dist`.
- Navigation to a level page is the returned level id.
- The store is a `map<string, string>`. Reset returns the store with the seven keys removed.

## Model

| member | source | states |
|---|---|---|
| Geometry.LerpEnds | src/components/LevelMap.tsx:85-86 | The interpolated marker position is the start position at eased fraction 0 and the target position at eased fraction 1. |
| Geometry.LerpBetween | src/components/LevelMap.tsx:85-86 | For an eased fraction in [0, 1] the marker stays inside the box spanned by the start and target positions. |
| Levels.CatalogIds | src/components/LevelMap.tsx:30-38 | The catalog has seven entries, ordered by id, with ids exactly 1..7. |
| Levels.FindIndex | src/components/LevelMap.tsx:76-77 | The lookup finds the first entry with the requested id, and reports none exactly when no entry has it. |
| Levels.FindLevel | src/components/LevelMap.tsx:143-144 | A catalog lookup succeeds exactly for ids 1..7 and then yields entry id-1. |
| Levels.PositionOf | src/components/LevelMap.tsx:76-77 | A level's position is its catalog position for ids 1..7. Any other id falls back to (15, 85). |
| Levels.StarRowFilledCount | src/components/LevelNode.tsx:79-96 | Exactly three stars are rendered, star i is filled iff i < stars, and the filled count is min(max(stars, 0), 3). |
| Persistence.LevelKeyInjective | src/components/LevelMap.tsx:134-135 | The keys `level<i>Completed` for different levels are different. |
| Persistence.FlaggedLevels | src/components/LevelMap.tsx:133-138 | The restored list is strictly ascending, and contains level x iff x is in 1..n and its stored value is exactly "true". |
| Persistence.ClearLevelFlags | src/components/LevelMap.tsx:118-120 | After the clear, none of the seven level keys is present, and every other key keeps its value. |
| Persistence.ClearLevelFlagsIdempotent | src/components/LevelMap.tsx:118-120 | Clearing the flags a second time changes nothing. |
| Persistence.NothingFlaggedAfterClear | src/components/LevelMap.tsx:133-138 | Reading a cleared store back yields no completed level. |
| Persistence.FlaggedPrefix | src/components/LevelMap.tsx:133-138 | When exactly levels 1..k are flagged, the restore reads back the list 1..k in order. |
| Progression.LevelsView | src/components/LevelMap.tsx:40-49 | The view has the seven levels in id order, each with its catalog position, difficulty, stars and description. Level i is flagged completed iff i is in the completed list, unlocked iff i is at most the current level, and current iff i is the current level. |
| Progression.StatusPriority | src/components/LevelMap.tsx:59-64 | A level is completed iff its id is in the completed list. Otherwise it is current iff it equals the current level, unlocked iff below it, and locked iff above it. |
| Progression.HandleLevelClick | src/components/LevelMap.tsx:66-70 | A click can only navigate to the clicked level itself. |
| Progression.ClickNavigatesIffReachable | src/components/LevelMap.tsx:66-70 | A click navigates exactly for levels shown as current or unlocked. Locked and completed levels do nothing. |
| Progression.PathProgress | src/components/LevelMap.tsx:51-57 | The reveal fraction is at most 1, and at least 0 whenever the current level is at least 1 and the partial progress is non-negative. Below the cap it is exactly (completed segments + partial progress) / 6, with currentLevel - 1 segments completed. |
| Progression.PathProgressAnchors | src/components/LevelMap.tsx:51-57 | The reveal fraction is 0 at (level 1, partial 0) and 1 at (level 7, partial 0). It is 1 for every level from 7 on, whatever the partial progress. |
| Progression.PathProgressMonotone | src/components/LevelMap.tsx:51-57 | The reveal fraction never decreases when the current level or the partial progress grows. |
| Progression.TimeFraction | src/components/LevelMap.tsx:81-82 | For non-negative elapsed time the time fraction lies in [0, 1]. Up to 2000 ms it is elapsed / 2000, and it reaches 1 exactly once 2000 ms have elapsed. |
| Progression.EaseOutCubic | src/components/LevelMap.tsx:83 | On [0, 1] the eased value lies in [0, 1], and it equals 1 exactly when t = 1. |
| Progression.EaseOutCubicMonotone | src/components/LevelMap.tsx:83 | The eased value is monotone in t on [0, 1]. |
| Progression.HandleNext | src/components/LevelMap.tsx:72-77 | "next" starts a movement exactly when the current level is below 7. A movement captures the current level and only sets the moving flag. Otherwise the whole state is unchanged. |
| Progression.NextMovesBetweenLevels | src/components/LevelMap.tsx:76-77 | A started movement runs from the current level's catalog position to the next level's. |
| Progression.Dedup | src/components/LevelMap.tsx:92 | De-duplicating keeps exactly the same members, without repeats and no longer than the input, listed in the order of their first occurrence in the input. |
| Progression.DedupOfDistinct | src/components/LevelMap.tsx:92 | A list without repeats is left unchanged by the de-duplication. |
| Progression.DedupAppend | src/components/LevelMap.tsx:92 | Adding a level to a repeat-free list keeps the list when the level is already present, and appends it otherwise. |
| Progression.CompleteMove | src/components/LevelMap.tsx:88-99 | Completion adds the captured level without duplicates, and the current level becomes the state's own level + 1. It clears the moving flag and the partial progress, raises both sound triggers, starts the unlock animation for captured level + 1, and puts the marker on the target. |
| Progression.AnimateFrame | src/components/LevelMap.tsx:80-104 | A frame before 2000 ms changes only the partial progress, to a value in [0, 1), and the marker, which stays between start and target. Before 2000 ms the partial progress is the eased time fraction and the marker is interpolated from start to target by it. A frame at or after 2000 ms is exactly the completion step. At 0 ms the marker is at the start. |
| Progression.ClearUnlockAnimation | src/components/LevelMap.tsx:100-102 | The deferred timer hides the unlock animation and changes nothing else. |
| Progression.AcknowledgeSounds | src/components/LevelMap.tsx:128-130 | The sound acknowledgement clears both triggers and changes nothing else. |
| Progression.HandleLevelHover | src/components/LevelMap.tsx:123-126 | Hovering records the reported level and tooltip position and changes nothing else. |
| Progression.HandleReset | src/components/LevelMap.tsx:110-121 | Reset sets level 1, no completed levels, not moving, partial 0, no hover, no unlock animation and the marker at level 1. It leaves the sound triggers as they were and removes the seven stored flags. |
| Progression.HandleResetIdempotent | src/components/LevelMap.tsx:110-121 | Resetting twice gives the same state and store as resetting once. |
| Progression.Restore | src/components/LevelMap.tsx:132-153 | The restored list holds the flagged levels in ascending order. With fewer than seven, the current level becomes count+1 with the marker there. With all seven, the current level is unchanged and the marker goes to level 7. Every other field (moving flag, partial progress, sound triggers, hover, tooltip position, unlock animation) is left as it was. |
| CurvedPath.CurveIntensity | src/components/CurvedRailwayPath.tsx:31-32 | The bend is never above 8 nor above 15% of the distance, is one of the two, and so equals min(0.15·distance, 8); it lies in [0, 8] for any non-negative distance. |
| CurvedPath.CurveDirection | src/components/CurvedRailwayPath.tsx:34-36 | The bend direction is +1 for an even index and -1 for an odd one. |
| CurvedPath.CurveDirectionAlternates | src/components/CurvedRailwayPath.tsx:34-36 | Consecutive segment indices get opposite directions. |
| CurvedPath.SegmentShape | src/components/CurvedRailwayPath.tsx:22-44 | Segment i ends at points[i]. Its control points lie on the chord at 40% and 60%, each 0.8 of the way from its end towards the midpoint, and both are raised by the same bend. Their x coordinates lie between the two points' x and are symmetric about the midpoint. |
| CurvedPath.BendBounded | src/components/CurvedRailwayPath.tsx:31-42 | With a non-negative distance, a segment's vertical control offset is within [-8, 8]. |
| CurvedPath.ConsecutiveBendsOpposite | src/components/CurvedRailwayPath.tsx:34-42 | Consecutive segments bend to opposite sides: the product of their offsets is never positive. |
| CurvedPath.CreateCurvedPath | src/components/CurvedRailwayPath.tsx:13-48 | Fewer than two points give the empty path. Otherwise the path starts at points[0] and has exactly n-1 segments, segment k being the one from points[k] to points[k+1]. |
| CurvedPath.RevealedLength | src/components/CurvedRailwayPath.tsx:79 | The revealed length is the progress clamped to [0, 1]. |
| Node.HandleClick | src/components/LevelNode.tsx:60-66 | A click forwards the node's own id, and does nothing exactly when the node is locked. |
| Node.HandleMouseEnter | src/components/LevelNode.tsx:68-73 | Entering reports the level exactly when the node is not locked. The position has the node's top edge as y and the horizontal centre of the node as x. |
| Node.HandleMouseLeave | src/components/LevelNode.tsx:75-77 | Leaving always reports no level at (0, 0). |
| Node.RenderContent | src/components/LevelNode.tsx:98-103 | The lock icon shows exactly for a locked node. Otherwise the node shows its own id. |
| Node.RenderStarRow | src/components/LevelNode.tsx:185-198 | The star row appears exactly for a completed node: three stars, star i filled iff i < stars. |
| Tooltip.DifficultyColorsDistinct | src/components/LevelTooltip.tsx:15-22 | Easy, Medium and Hard get three different colours, none of them the grey default. |
| Tooltip.DifficultyColorDefault | src/components/LevelTooltip.tsx:15-22 | Any other difficulty name gets the grey default. |
| Tooltip.GetStatusIcon | src/components/LevelTooltip.tsx:34-38 | The icon is a check iff the level is completed, and a lock iff it is neither completed nor unlocked. Completed wins over locked. |
| Tooltip.RenderTooltip | src/components/LevelTooltip.tsx:12-42 | A tooltip is rendered iff there is a level and it is visible. It shows that level's id and status icon, three stars with star i filled iff i < stars, the level's own difficulty name in that difficulty's colour (never the grey default), and the level's description. |
| Scenarios.AdvancePreservesCompletedBelowCurrent | src/components/LevelMap.tsx:72-99 | A sequential "next" plus completion keeps every completed level in [1, currentLevel), with no repeats, and never completes level 7. |
| Scenarios.AdvancePreservesPrefix | src/components/LevelMap.tsx:72-99 | A sequential "next" plus completion keeps the completed list equal to 1..currentLevel-1, and moves one level on below 7. |
| Scenarios.SequentialRunFromPrefix | src/components/LevelMap.tsx:72-99 | After i sequential presses from a prefix state, the current level is i levels further on, capped at 7. The completed levels are the prefix below it, and level 7 is never completed. |
| Scenarios.FirstAdvance | src/components/LevelMap.tsx:88-99 | From the start state one press completes level 1 and makes level 2 current. It raises both sound triggers, starts the unlock animation for level 2 and puts the marker on level 2. |
| Scenarios.NextAtLastLevelIsNoOp | src/components/LevelMap.tsx:72-75 | At level 7 or beyond, "next" leaves the whole state unchanged and starts no movement. |
| Scenarios.RestorePrefix | src/components/LevelMap.tsx:132-142 | Restoring flags for exactly levels 1..k (k < 7) makes level k+1 current, with levels 1..k completed. |
| Scenarios.RestoreAllFlagged | src/components/LevelMap.tsx:139-152 | Restoring all seven flags completes 1..7 but keeps the previous current level. From the start state, completed levels then sit at or above the current level. |
| Scenarios.ResetThenRestore | src/components/LevelMap.tsx:110-153 | A restore from the store left by reset gives level 1 with nothing completed. |
| Scenarios.OnlyLevelThreeFlagged | src/components/LevelMap.tsx:133-138 | With only level 3 flagged, the restored list is [3] once level 3 has been scanned, and empty before. |
| Scenarios.SparseRestore | src/components/LevelMap.tsx:139-142 | With only level 3 flagged, the restore gives completed [3] with level 2 current, so a completed level is above the current one. |
| Scenarios.StaleCompletionAfterReset | src/components/LevelMap.tsx:88-121 | A movement started at level c ≥ 2 and completed after a reset leaves level 2 current with [c] completed. A completed level then sits at or above the current one. |
| Scenarios.NextIgnoresMoving | src/components/LevelMap.tsx:72-77 | Pressing "next" during a movement captures the same move again. |
| Scenarios.CompleteTwice | src/components/LevelMap.tsx:92-94 | Completing one captured move twice adds its level once but advances the current level by two. |
| Scenarios.DoubleNextSkipsLevel | src/components/LevelMap.tsx:72-99 | Two presses before the first completion advance the current level by two but complete only one level. The skipped level stays uncompleted, so the completed list is no longer a prefix. |
| Scenarios.NodeClickThroughMap | src/components/LevelNode.tsx:60-66 | A node is clickable iff its level is reached or completed. A click reaches navigation iff the level is reached and not completed. |
| Scenarios.TooltipIconMatchesStatus | src/components/LevelTooltip.tsx:34-38 | For the level record derived from the current state, the tooltip shows a check iff the node is completed, a lock iff it is locked, and no icon iff it is current or unlocked. |
| Scenarios.HoveredTooltipNeverLocked | src/components/LevelNode.tsx:68-73 | Only unlocked nodes report a hover, so a tooltip opened by hovering is rendered and never shows the lock. |
| Scenarios.StaleHoverAfterCompletion | src/components/LevelMap.tsx:90-126 | After hovering level 1 at the start and completing one movement, the map counts level 1 as completed while the open tooltip, built from the record saved at hover time, shows no check. |
| Scenarios.EnterThenLeaveHidesTooltip | src/components/LevelNode.tsx:68-77 | Entering a node and then leaving it leaves no tooltip, and the tooltip position is back at (0, 0). |
| Scenarios.RevealGrowsDuringMove | src/components/LevelMap.tsx:51-99 | Between two frames of one movement the revealed fraction never shrinks. This includes the completion frame, where the partial progress drops to 0 but the level rises. |
| Scenarios.RevealedLengthOfPathProgress | src/components/CurvedRailwayPath.tsx:79 | For a current level of at least 1 and non-negative partial progress, clamping the map's reveal fraction changes nothing. |

## Left out

- Time and scheduling (`Date.now`, `requestAnimationFrame`, `setTimeout`). Elapsed time is a
  parameter, and each frame or timer callback is a separate function.
- The 600 ms unlock-animation timer is its own transition. The model does not fix when it
  runs relative to other events.
- The Euclidean distance (`Math.sqrt`) in the curve. It is an abstract `dist` parameter, and
  the curve-intensity bounds assume a non-negative distance.
- Floating-point rounding everywhere. All arithmetic is exact `real` arithmetic.
- The SVG path string. The path is a start point and a list of segment records.
- The store's I/O. The store is a `map<string, string>`. The code in the modelled components
  never writes a flag; it only reads and removes them.
- Page navigation. A click returns the level id.
- Muting. While muted, the sound player does not acknowledge, so both triggers stay raised
  until it is unmuted and then play the sound of an earlier completion. The model leaves
  the moment of the acknowledgement free: `AcknowledgeSounds` can be applied at any point.
- The about dialog and the keyboard shortcuts. The dialog is presentation only, and the keys
  pass straight through to "next" and "reset".
- Audio synthesis (`SoundManager.tsx`). The model stops at the two trigger flags.
- Styling, colour classes of the nodes and framer-motion animations. The level's colour tag
  is kept as text only.
- `ProgressBar.tsx`. It only displays `count / total * 100`.
- `AboutModal.tsx`, `MovingCharacter.tsx`, `PlayerMarker.tsx`, `RailwayPath.tsx`,
  `PathConnection.tsx` and `GuideCharacter.tsx` are not part of this model. They are static
  or presentational, or not used by the map.
- The "All Complete!" label and the congratulations panel are not modelled. They are pure
  display over the completed count and the current level.
