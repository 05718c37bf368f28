/** The level record, its status enumeration and the fixed seven-entry catalog. */
module Levels {
  import opened Wrappers
  import opened Geometry

  datatype Difficulty = Easy | Medium | Hard {
    /** The string the level record carries for this difficulty. */
    function Name(): string {
      match this
      case Easy => "Easy"
      case Medium => "Medium"
      case Hard => "Hard"
    }
  }

  datatype LevelStatus = Locked | Unlocked | Completed | Current

  /** One static catalog entry; the colour tag is styling and is kept only as text. */
  datatype LevelData = LevelData(
    id: int, position: Point, difficulty: Difficulty, stars: int,
    description: string, color: string)

  /** A catalog entry together with the three flags derived from the progression state. */
  datatype Level = Level(
    id: int, position: Point, difficulty: Difficulty, stars: int,
    description: string, isCompleted: bool, isUnlocked: bool, isCurrent: bool)

  const LevelCount := 7

  /** Where the marker sits when no level position can be found, and after a reset. */
  const StartPosition := Point(15.0, 85.0)

  const Catalog: seq<LevelData> := [
    LevelData(1, Point(15.0, 85.0), Easy, 1, "Welcome! Start your journey here.", "from-pink-400 to-pink-600"),
    LevelData(2, Point(50.0, 65.0), Easy, 1, "Learn the basics with simple challenges.", "from-blue-400 to-blue-600"),
    LevelData(3, Point(85.0, 55.0), Easy, 2, "Getting warmed up? Try some combos!", "from-purple-400 to-purple-600"),
    LevelData(4, Point(50.0, 45.0), Medium, 2, "Things are heating up now!", "from-yellow-400 to-yellow-600"),
    LevelData(5, Point(15.0, 35.0), Medium, 2, "Strategic thinking required.", "from-green-400 to-green-600"),
    LevelData(6, Point(50.0, 25.0), Medium, 2, "Complex patterns await you.", "from-orange-400 to-orange-600"),
    LevelData(7, Point(85.0, 15.0), Hard, 3, "Expert level challenges ahead!", "from-red-400 to-red-600")
  ]

  /** The catalog is ordered by id, and the ids are exactly 1..7. */
  lemma CatalogIds()
    ensures |Catalog| == LevelCount
    ensures forall i :: 0 <= i < |Catalog| ==> Catalog[i].id == i + 1
  {
  }

  /** The index of the first entry of `ls` whose id is `id`, as `Array.prototype.find` scans. */
  function FindIndex(ls: seq<LevelData>, id: int): (r: Option<nat>)
    ensures r.Some? ==> r.value < |ls| && ls[r.value].id == id
    ensures r.Some? ==> forall k :: 0 <= k < r.value ==> ls[k].id != id
    ensures r.None? <==> forall k :: 0 <= k < |ls| ==> ls[k].id != id
  {
    if |ls| == 0 then None
    else if ls[0].id == id then Some(0)
    else
      match FindIndex(ls[1..], id)
      case None => None
      case Some(j) => Some(j + 1)
  }

  /** The catalog entry with the given id, if there is one. */
  function FindLevel(id: int): (r: Option<LevelData>)
    ensures 1 <= id <= LevelCount ==> r == Some(Catalog[id - 1])
    ensures !(1 <= id <= LevelCount) ==> r.None?
  {
    CatalogIds();
    match FindIndex(Catalog, id)
    case None => None
    case Some(j) => Some(Catalog[j])
  }

  /** The position of level `id`, falling back to the start position when the id is unknown. */
  function PositionOf(id: int): (p: Point)
    ensures 1 <= id <= LevelCount ==> p == Catalog[id - 1].position
    ensures !(1 <= id <= LevelCount) ==> p == StartPosition
  {
    match FindLevel(id)
    case Some(l) => l.position
    case None => StartPosition
  }

  /** Priority order of the derived flags: completed, then current, then unlocked, else locked. */
  function GetLevelStatus(l: Level): LevelStatus {
    if l.isCompleted then Completed
    else if l.isCurrent then Current
    else if l.isUnlocked then Unlocked
    else Locked
  }

  /** Which of the three rendered stars are filled: star `i` is filled when `i < stars`. */
  function StarRow(stars: int): seq<bool> {
    seq(3, i => i < stars)
  }

  /** The number of `true` entries of a row. */
  function CountFilled(row: seq<bool>): (n: nat)
    ensures n <= |row|
  {
    if |row| == 0 then 0
    else (if row[0] then 1 else 0) + CountFilled(row[1..])
  }

  /** Exactly three stars are rendered, and the filled ones number min(max(stars, 0), 3). */
  lemma {:induction false} StarRowFilledCount(stars: int)
    ensures |StarRow(stars)| == 3
    ensures CountFilled(StarRow(stars)) == if stars <= 0 then 0 else if stars >= 3 then 3 else stars
    ensures forall i :: 0 <= i < 3 ==> (StarRow(stars)[i] <==> i < stars)
  {
    var row := StarRow(stars);
    assert row == [0 < stars, 1 < stars, 2 < stars];
    assert row[1..] == [1 < stars, 2 < stars];
    assert row[1..][1..] == [2 < stars];
    assert row[1..][1..][1..] == [];
    assert CountFilled(row[1..][1..]) == if 2 < stars then 1 else 0;
    assert CountFilled(row[1..]) == (if 1 < stars then 1 else 0) + CountFilled(row[1..][1..]);
  }
}
