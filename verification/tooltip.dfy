/** The tooltip shown for the hovered level. */
module Tooltip {
  import opened Wrappers
  import opened Levels

  datatype StatusIcon = CheckIcon | LockIcon | NoIcon

  datatype TooltipView = TooltipView(
    id: int, icon: StatusIcon, difficulty: string, difficultyColor: string,
    stars: seq<bool>, description: string)

  const DefaultColor := "text-gray-400"

  /** The text colour class for a difficulty name; unknown names get the grey default. */
  function DifficultyColor(difficulty: string): string {
    if difficulty == "Easy" then "text-green-400"
    else if difficulty == "Medium" then "text-yellow-400"
    else if difficulty == "Hard" then "text-red-400"
    else DefaultColor
  }

  /** The three difficulties get three different colours, none of them the default one. */
  lemma DifficultyColorsDistinct(d1: Difficulty, d2: Difficulty)
    ensures d1 != d2 ==> DifficultyColor(d1.Name()) != DifficultyColor(d2.Name())
    ensures DifficultyColor(d1.Name()) != DefaultColor
  {
  }

  /** Any name other than the three difficulties falls back to the default colour. */
  lemma DifficultyColorDefault(name: string)
    requires forall d: Difficulty :: name != d.Name()
    ensures DifficultyColor(name) == DefaultColor
  {
    assert name != Easy.Name() && name != Medium.Name() && name != Hard.Name();
  }

  /** A check for a completed level, otherwise a lock for one not unlocked, otherwise nothing. */
  function GetStatusIcon(level: Level): (icon: StatusIcon)
    ensures icon == CheckIcon <==> level.isCompleted
    ensures icon == LockIcon <==> !level.isCompleted && !level.isUnlocked
  {
    if level.isCompleted then CheckIcon
    else if !level.isUnlocked then LockIcon
    else NoIcon
  }

  /** The tooltip for `level`; there is none without a level, and none while hidden. */
  function RenderTooltip(level: Option<Level>, isVisible: bool): (r: Option<TooltipView>)
    ensures r.Some? <==> level.Some? && isVisible
    ensures r.Some? ==> r.value.id == level.value.id && r.value.icon == GetStatusIcon(level.value)
    ensures r.Some? ==> |r.value.stars| == 3
    ensures r.Some? ==> forall i :: 0 <= i < 3 ==> (r.value.stars[i] <==> i < level.value.stars)
    ensures r.Some? ==> r.value.difficultyColor != DefaultColor
    ensures r.Some? ==> r.value.difficulty == level.value.difficulty.Name()
    ensures r.Some? ==> r.value.difficultyColor == DifficultyColor(r.value.difficulty)
    ensures r.Some? ==> r.value.description == level.value.description
  {
    match level
    case None => None
    case Some(l) =>
      StarRowFilledCount(l.stars);
      DifficultyColorsDistinct(l.difficulty, l.difficulty);
      if isVisible then
        Some(TooltipView(l.id, GetStatusIcon(l), l.difficulty.Name(),
                         DifficultyColor(l.difficulty.Name()), StarRow(l.stars), l.description))
      else None
  }
}
