/** The walkability window a creature keeps around itself (src/creature.cpp, src/creature.h).

    The window is a fixed 23 x 23 grid centred on the creature.  A full recompute asks the map for
    every tile; a step on the same floor shifts the grid in place and asks only for the tiles that
    came into view.  The point of this module is that both give the same answers, and exactly when
    the south-east and south-west steps do not. */
module WalkCache {

  const MAX_WALK_WIDTH := 11
  const MAX_WALK_HEIGHT := 11
  const MAP_WALK_WIDTH := 2 * MAX_WALK_WIDTH + 1
  const MAP_WALK_HEIGHT := 2 * MAX_WALK_HEIGHT + 1

  /** Map coordinates are 16-bit, floors 8-bit. */
  type Coord = c: int | 0 <= c < 0x1_0000
  type Floor = f: int | 0 <= f < 0x100

  datatype Position = Position(x: Coord, y: Coord, z: Floor)

  /** What the map answers for one creature: is there a tile, and may the creature path onto it? */
  type World = Position -> bool

  function Wrap16(c: int): Coord {
    c % 0x1_0000
  }

  function Abs(i: int): int {
    if i < 0 then -i else i
  }

  ghost predicate InWindow(centre: Position, q: Position) {
    && q.z == centre.z
    && -MAX_WALK_WIDTH <= q.x - centre.x <= MAX_WALK_WIDTH
    && -MAX_WALK_HEIGHT <= q.y - centre.y <= MAX_WALK_HEIGHT
  }

  /** The answer a freshly recomputed window gives about q. */
  ghost function FreshAnswer(useCache: bool, walk: World, centre: Position, q: Position): int {
    if !useCache then 2
    else if q.z != centre.z then 0
    else if q == centre then 1
    else if !InWindow(centre, q) then 2
    else if walk(q) then 1
    else 0
  }

  /** The world changed at most at the two given positions. */
  ghost predicate SameExcept(before: World, after: World, a: Position, b: Position) {
    forall q: Position :: q != a && q != b ==> after(q) == before(q)
  }

  /** One step on the same floor. */
  predicate IsStep(oldPos: Position, newPos: Position) {
    oldPos.z == newPos.z && -1 <= oldPos.x - newPos.x <= 1 && -1 <= oldPos.y - newPos.y <= 1
  }

  /** A step south-east or south-west. */
  predicate IsSouthDiagonal(oldPos: Position, newPos: Position) {
    oldPos.y < newPos.y && oldPos.x != newPos.x
  }

  /** The tile whose answer a southern diagonal step leaves in the window's cell for q, when q is in
      the top or bottom row: one column back in the top row, one column on in the bottom row. */
  function Displaced(oldPos: Position, newPos: Position, q: Position): Position {
    var d := newPos.x - oldPos.x;
    Position(Wrap16(if q.y < newPos.y then q.x - d else q.x + d), q.y, q.z)
  }

  /** The window as a value: rows of 23, top row first. */
  type Grid = g: seq<seq<bool>> | |g| == MAP_WALK_HEIGHT && forall i :: 0 <= i < |g| ==> |g[i]| == MAP_WALK_WIDTH
    witness seq(MAP_WALK_HEIGHT, _ => seq(MAP_WALK_WIDTH, _ => false))

  function Bit(g: Grid, centre: Position, q: Position): bool
    requires InWindow(centre, q)
  {
    g[MAX_WALK_HEIGHT + (q.y - centre.y)][MAX_WALK_WIDTH + (q.x - centre.x)]
  }

  /** The answer a southern diagonal step leaves in the window's cell for q, when q is in the top or bottom row: that of
      the tile it gets mixed up with, or, when that lies beyond the edge of the map, the bit cached for no tile. */
  function MixedUp(before: Grid, walk: World, oldPos: Position, newPos: Position, q: Position): bool
    requires InWindow(newPos, q)
  {
    var r := q.x - (newPos.x - oldPos.x);
    if q.y < newPos.y && !(0 <= r < 0x1_0000) then before[1][MAX_WALK_WIDTH + (q.x - newPos.x)]
    else walk(Displaced(oldPos, newPos, q))
  }

  /** What saves a southern diagonal step: apart from the column that came into view, each tile of the
      top and of the bottom row of the new window is as walkable as what it gets mixed up with. */
  ghost predicate SouthDiagonalHarmless(before: Grid, walk: World, oldPos: Position, newPos: Position) {
    forall q: Position {:trigger InWindow(newPos, q)} ::
      InWindow(newPos, q) && Abs(q.y - newPos.y) == MAX_WALK_HEIGHT
          && q.x - newPos.x != MAX_WALK_WIDTH * (newPos.x - oldPos.x) ==>
        walk(q) == MixedUp(before, walk, oldPos, newPos, q)
  }

  /** The bits around `centre` agree with the map, the creature's own tile aside. */
  ghost predicate Synced(g: Grid, walk: World, centre: Position) {
    forall q: Position :: InWindow(centre, q) && q != centre ==> Bit(g, centre, q) == walk(q)
  }

  ghost predicate OnMap(centre: Position, i: int, j: int) {
    0 <= centre.x + j - MAX_WALK_WIDTH < 0x1_0000 && 0 <= centre.y + i - MAX_WALK_HEIGHT < 0x1_0000
  }

  /** What the map says about the window cell (i, j) around `centre`; off-map coordinates wrap. */
  function Asked(walk: World, centre: Position, i: int, j: int): bool {
    walk(Position(Wrap16(centre.x + j - MAX_WALK_WIDTH), Wrap16(centre.y + i - MAX_WALK_HEIGHT), centre.z))
  }

  /** A cell after the vertical half of a step. */
  function VerticalBit(g: Grid, walk: World, oldPos: Position, newPos: Position, i: int, j: int): bool
    requires 0 <= i < MAP_WALK_HEIGHT && 0 <= j < MAP_WALK_WIDTH
  {
    if oldPos.y > newPos.y then (if i == 0 then Asked(walk, newPos, i, j) else g[i - 1][j])
    else if oldPos.y < newPos.y then (if i == MAP_WALK_HEIGHT - 1 then Asked(walk, newPos, i, j) else g[i + 1][j])
    else g[i][j]
  }

  /** A cell after both halves, when rows `starty..endy` take part in the sideways shift. */
  function ShiftedBit(g: Grid, walk: World, oldPos: Position, newPos: Position, starty: int, endy: int, i: int,
                      j: int): bool
    requires 0 <= i < MAP_WALK_HEIGHT && 0 <= j < MAP_WALK_WIDTH
  {
    var moves := starty <= i <= endy;
    if oldPos.x < newPos.x then
      if j == MAP_WALK_WIDTH - 1 then Asked(walk, newPos, i, j)
      else VerticalBit(g, walk, oldPos, newPos, i, if moves then j + 1 else j)
    else if oldPos.x > newPos.x then
      if j == 0 then Asked(walk, newPos, i, j)
      else VerticalBit(g, walk, oldPos, newPos, i, if moves then j - 1 else j)
    else VerticalBit(g, walk, oldPos, newPos, i, j)
  }

  function StartRow(dy: int): int {
    if dy > 0 then dy else 0
  }

  function EndRow(dy: int): int {
    if dy < 0 then MAP_WALK_HEIGHT - 1 + dy else MAP_WALK_HEIGHT - 1
  }

  /** `after` is what a step makes of `before`; `dy` says which rows the sideways shift leaves out. */
  ghost predicate IsPatched(before: Grid, after: Grid, walk: World, oldPos: Position, newPos: Position, dy: int) {
    forall q: Position :: InWindow(newPos, q) ==>
      Bit(after, newPos, q) ==
        if q == oldPos then walk(q)
        else ShiftedBit(before, walk, oldPos, newPos, StartRow(dy), EndRow(dy),
                        MAX_WALK_HEIGHT + (q.y - newPos.y), MAX_WALK_WIDTH + (q.x - newPos.x))
  }

  /** After the vertical half, a row that was already cached is still laid out around the old x. */
  lemma CarriedRow(g: Grid, walkBefore: World, walk: World, oldPos: Position, newPos: Position, i: int, j: int,
                   q: Position)
    requires IsStep(oldPos, newPos) && Synced(g, walkBefore, oldPos) && SameExcept(walkBefore, walk, oldPos, newPos)
    requires 0 <= i < MAP_WALK_HEIGHT && 0 <= j < MAP_WALK_WIDTH
    requires q.x == oldPos.x + j - MAX_WALK_WIDTH && q.y == newPos.y + i - MAX_WALK_HEIGHT && q.z == newPos.z
    requires q != oldPos && q != newPos
    requires !(oldPos.y > newPos.y && i == 0) && !(oldPos.y < newPos.y && i == MAP_WALK_HEIGHT - 1)
    ensures VerticalBit(g, walk, oldPos, newPos, i, j) == walk(q)
  {
    assert Bit(g, oldPos, q) == walkBefore(q) == walk(q);
  }

  /** A cell that takes part in neither mix-up ends up with the map's own answer. */
  lemma CellFollows(g: Grid, walkBefore: World, walk: World, oldPos: Position, newPos: Position, dy: int, q: Position)
    requires IsStep(oldPos, newPos) && Synced(g, walkBefore, oldPos) && SameExcept(walkBefore, walk, oldPos, newPos)
    requires InWindow(newPos, q) && q != oldPos && q != newPos
    requires dy == oldPos.y - newPos.y ||
             (dy == Abs(oldPos.y - newPos.y)
                 && (!IsSouthDiagonal(oldPos, newPos) || Abs(q.y - newPos.y) < MAX_WALK_HEIGHT))
    ensures ShiftedBit(g, walk, oldPos, newPos, StartRow(dy), EndRow(dy),
                       MAX_WALK_HEIGHT + (q.y - newPos.y), MAX_WALK_WIDTH + (q.x - newPos.x)) == walk(q)
  {
    var i, j := MAX_WALK_HEIGHT + (q.y - newPos.y), MAX_WALK_WIDTH + (q.x - newPos.x);
    assert Asked(walk, newPos, i, j) == walk(q);
    var entering := (oldPos.y > newPos.y && i == 0) || (oldPos.y < newPos.y && i == MAP_WALK_HEIGHT - 1);
    var jOld := j + (newPos.x - oldPos.x);
    if 0 <= jOld < MAP_WALK_WIDTH && !entering {
      CarriedRow(g, walkBefore, walk, oldPos, newPos, i, jOld, q);
    }
  }

  /** After a southern diagonal step the other cells of the top and bottom row hold their neighbour's answer. */
  lemma CellDisplaced(before: Grid, walkBefore: World, walk: World, oldPos: Position, newPos: Position, q: Position)
    requires IsStep(oldPos, newPos) && Synced(before, walkBefore, oldPos)
             && SameExcept(walkBefore, walk, oldPos, newPos)
    requires IsSouthDiagonal(oldPos, newPos)
    requires InWindow(newPos, q) && Abs(q.y - newPos.y) == MAX_WALK_HEIGHT
    requires q.x - newPos.x != MAX_WALK_WIDTH * (newPos.x - oldPos.x)
    ensures ShiftedBit(before, walk, oldPos, newPos, StartRow(1), EndRow(1),
                       MAX_WALK_HEIGHT + (q.y - newPos.y), MAX_WALK_WIDTH + (q.x - newPos.x)) ==
            MixedUp(before, walk, oldPos, newPos, q)
  {
    var r := Displaced(oldPos, newPos, q);
    if q.y < newPos.y && 0 <= q.x - (newPos.x - oldPos.x) < 0x1_0000 {
      assert Bit(before, oldPos, r) == walkBefore(r) == walk(r);
    }
  }

  /** A step keeps the window in step with the map: always with the signed row difference, and with the
      absolute one except on the two southern diagonals, where it does exactly when the mixed-up tiles
      happen to be equally walkable. */
  lemma StepKeepsSync(before: Grid, after: Grid, walkBefore: World, walk: World, oldPos: Position, newPos: Position,
                      dy: int)
    requires IsStep(oldPos, newPos) && Synced(before, walkBefore, oldPos)
             && SameExcept(walkBefore, walk, oldPos, newPos)
    requires IsPatched(before, after, walk, oldPos, newPos, dy)
    ensures dy == oldPos.y - newPos.y ==> Synced(after, walk, newPos)
    ensures dy == Abs(oldPos.y - newPos.y) && !IsSouthDiagonal(oldPos, newPos) ==> Synced(after, walk, newPos)
    ensures dy == 1 && IsSouthDiagonal(oldPos, newPos) ==>
              (Synced(after, walk, newPos) <==> SouthDiagonalHarmless(before, walk, oldPos, newPos))
  {
    forall q: Position | InWindow(newPos, q) && q != newPos && q != oldPos &&
      (dy == oldPos.y - newPos.y ||
       (dy == Abs(oldPos.y - newPos.y) && (!IsSouthDiagonal(oldPos, newPos) || Abs(q.y - newPos.y) < MAX_WALK_HEIGHT)))
      ensures Bit(after, newPos, q) == walk(q)
    {
      CellFollows(before, walkBefore, walk, oldPos, newPos, dy, q);
    }
    if dy == 1 && IsSouthDiagonal(oldPos, newPos) {
      SouthDiagonalSync(before, after, walkBefore, walk, oldPos, newPos);
    }
  }

  /** The answer the cell of q holds after a southern diagonal step. */
  function AnswerAfter(before: Grid, walk: World, oldPos: Position, newPos: Position, q: Position): bool
    requires InWindow(newPos, q)
  {
    if Abs(q.y - newPos.y) == MAX_WALK_HEIGHT && q.x - newPos.x != MAX_WALK_WIDTH * (newPos.x - oldPos.x)
    then MixedUp(before, walk, oldPos, newPos, q) else walk(q)
  }

  lemma SouthDiagonalCell(g: Grid, walkBefore: World, walk: World, oldPos: Position, newPos: Position, q: Position)
    requires IsStep(oldPos, newPos) && Synced(g, walkBefore, oldPos) && SameExcept(walkBefore, walk, oldPos, newPos)
    requires IsSouthDiagonal(oldPos, newPos)
    requires InWindow(newPos, q) && q != newPos && q != oldPos
    ensures ShiftedBit(g, walk, oldPos, newPos, StartRow(1), EndRow(1),
                       MAX_WALK_HEIGHT + (q.y - newPos.y), MAX_WALK_WIDTH + (q.x - newPos.x)) ==
            AnswerAfter(g, walk, oldPos, newPos, q)
  {
    if Abs(q.y - newPos.y) < MAX_WALK_HEIGHT {
      CellFollows(g, walkBefore, walk, oldPos, newPos, 1, q);
    } else if q.x - newPos.x != MAX_WALK_WIDTH * (newPos.x - oldPos.x) {
      CellDisplaced(g, walkBefore, walk, oldPos, newPos, q);
    }
  }

  lemma SouthDiagonalSync(before: Grid, after: Grid, walkBefore: World, walk: World, oldPos: Position, newPos: Position)
    requires IsStep(oldPos, newPos) && Synced(before, walkBefore, oldPos)
             && SameExcept(walkBefore, walk, oldPos, newPos)
    requires IsPatched(before, after, walk, oldPos, newPos, 1)
    requires IsSouthDiagonal(oldPos, newPos)
    ensures Synced(after, walk, newPos) <==> SouthDiagonalHarmless(before, walk, oldPos, newPos)
  {
    forall q: Position | InWindow(newPos, q) && q != newPos && q != oldPos
      ensures Bit(after, newPos, q) == AnswerAfter(before, walk, oldPos, newPos, q)
    {
      SouthDiagonalCell(before, walkBefore, walk, oldPos, newPos, q);
    }
    if Synced(after, walk, newPos) {
      forall q: Position | InWindow(newPos, q) && Abs(q.y - newPos.y) == MAX_WALK_HEIGHT &&
        q.x - newPos.x != MAX_WALK_WIDTH * (newPos.x - oldPos.x)
        ensures walk(q) == MixedUp(before, walk, oldPos, newPos, q)
      {
        assert Bit(after, newPos, q) == walk(q);
      }
    }
  }

  /** The two southern diagonals do go wrong: one tile that lets nobody through, in the top row, is enough. */
  lemma SouthDiagonalCanFail(before: Grid)
    ensures !SouthDiagonalHarmless(before, (p: Position) => p.y != 90 || p.x != 105, Position(100, 100, 7),
            Position(101, 101, 7))
  {
    var q := Position(106, 90, 7);
    assert InWindow(Position(101, 101, 7), q);
    assert Displaced(Position(100, 100, 7), Position(101, 101, 7), q) == Position(105, 90, 7);
  }

  class Creature {
    var position: Position
    var isMapLoaded: bool
    const useCacheMap: bool
    const localMapCache: array2<bool>

    constructor (position: Position, useCacheMap: bool)
      ensures Valid() && fresh(localMapCache)
      ensures this.position == position && this.useCacheMap == useCacheMap && !isMapLoaded
    {
      this.position := position;
      this.useCacheMap := useCacheMap;
      isMapLoaded := false;
      localMapCache := new bool[MAP_WALK_HEIGHT, MAP_WALK_WIDTH]((_, _) => false);
    }

    predicate Valid() {
      localMapCache.Length0 == MAP_WALK_HEIGHT && localMapCache.Length1 == MAP_WALK_WIDTH
    }

    function GetWalkCache(q: Position): int
      requires Valid()
      reads this, localMapCache
    {
      if !useCacheMap then 2
      else if position.z != q.z then 0
      else if q == position then 1
      else if Abs(q.x - position.x) <= MAX_WALK_WIDTH && Abs(q.y - position.y) <= MAX_WALK_HEIGHT then
        if localMapCache[MAX_WALK_HEIGHT + (q.y - position.y), MAX_WALK_WIDTH + (q.x - position.x)] then 1 else 0
      else 2
    }

    /** The cached window as a value. */
    function Rows(): (g: Grid)
      requires Valid()
      reads localMapCache
      ensures forall i, j :: 0 <= i < MAP_WALK_HEIGHT && 0 <= j < MAP_WALK_WIDTH ==> g[i][j] == localMapCache[i, j]
    {
      seq(MAP_WALK_HEIGHT, i requires 0 <= i < MAP_WALK_HEIGHT reads localMapCache =>
        seq(MAP_WALK_WIDTH, j requires 0 <= j < MAP_WALK_WIDTH reads localMapCache => localMapCache[i, j]))
    }

    /** Every answer about every position is the one a full recompute would give. */
    ghost predicate AnswersLikeRecompute(walk: World)
      requires Valid()
      reads this, localMapCache
    {
      forall q: Position :: GetWalkCache(q) == FreshAnswer(useCacheMap, walk, position, q)
    }

    /** The answers to queries pin the cached bits down, the creature's own tile aside. */
    lemma AnswersAreBits(walk: World)
      requires Valid() && useCacheMap
      ensures AnswersLikeRecompute(walk) <==> Synced(Rows(), walk, position)
    {
      if AnswersLikeRecompute(walk) {
        forall q: Position | InWindow(position, q) && q != position
          ensures Bit(Rows(), position, q) == walk(q)
        {
          assert GetWalkCache(q) == FreshAnswer(useCacheMap, walk, position, q);
        }
      }
      if Synced(Rows(), walk, position) {
        forall q: Position
          ensures GetWalkCache(q) == FreshAnswer(useCacheMap, walk, position, q)
        {
          if InWindow(position, q) && q != position {
            assert Bit(Rows(), position, q) == walk(q);
          }
        }
      }
    }

    method UpdateTileCacheAt(ok: bool, dx: int, dy: int)
      requires Valid()
      modifies localMapCache
      ensures forall i, j :: 0 <= i < MAP_WALK_HEIGHT && 0 <= j < MAP_WALK_WIDTH ==>
                localMapCache[i, j] ==
                  if i == MAX_WALK_HEIGHT + dy && j == MAX_WALK_WIDTH + dx then ok else old(localMapCache[i, j])
    {
      if Abs(dx) <= MAX_WALK_WIDTH && Abs(dy) <= MAX_WALK_HEIGHT {
        localMapCache[MAX_WALK_HEIGHT + dy, MAX_WALK_WIDTH + dx] := ok;
      }
    }

    method UpdateTileCache(ok: bool, q: Position)
      requires Valid()
      modifies localMapCache
      ensures forall i, j :: 0 <= i < MAP_WALK_HEIGHT && 0 <= j < MAP_WALK_WIDTH ==>
                localMapCache[i, j] ==
                  if q.z == position.z && i == MAX_WALK_HEIGHT + (q.y - position.y)
                      && j == MAX_WALK_WIDTH + (q.x - position.x)
                  then ok else old(localMapCache[i, j])
    {
      if q.z == position.z {
        UpdateTileCacheAt(ok, q.x - position.x, q.y - position.y);
      }
    }

    /** The full recompute. */
    method UpdateMapCache(walk: World)
      requires Valid()
      modifies localMapCache
      ensures Synced(Rows(), walk, position)
      ensures AnswersLikeRecompute(walk)
    {
      var y := -MAX_WALK_HEIGHT;
      while y <= MAX_WALK_HEIGHT
        invariant -MAX_WALK_HEIGHT <= y <= MAX_WALK_HEIGHT + 1
        invariant forall i, j :: 0 <= i < MAX_WALK_HEIGHT + y && 0 <= j < MAP_WALK_WIDTH && OnMap(position, i, j) ==>
                    localMapCache[i, j] == Asked(walk, position, i, j)
      {
        var x := -MAX_WALK_WIDTH;
        while x <= MAX_WALK_WIDTH
          invariant -MAX_WALK_WIDTH <= x <= MAX_WALK_WIDTH + 1
          invariant forall i, j :: 0 <= i < MAP_WALK_HEIGHT && 0 <= j < MAP_WALK_WIDTH && OnMap(position, i, j) &&
                                   (i < MAX_WALK_HEIGHT + y || (i == MAX_WALK_HEIGHT + y && j < MAX_WALK_WIDTH + x)) ==>
                      localMapCache[i, j] == Asked(walk, position, i, j)
        {
          var pos := Position(Wrap16(position.x + x), Wrap16(position.y + y), position.z);
          UpdateTileCache(walk(pos), pos);
          x := x + 1;
        }
        y := y + 1;
      }
      forall q: Position | InWindow(position, q)
        ensures Bit(Rows(), position, q) == walk(q)
      {
        assert OnMap(position, MAX_WALK_HEIGHT + (q.y - position.y), MAX_WALK_WIDTH + (q.x - position.x));
      }
      if useCacheMap {
        AnswersAreBits(walk);
      }
    }

    method ShiftSouth()
      requires Valid()
      modifies localMapCache
      ensures forall i, j :: 0 <= i < MAP_WALK_HEIGHT && 0 <= j < MAP_WALK_WIDTH ==>
                localMapCache[i, j] == old(localMapCache[if i > 0 then i - 1 else 0, j])
    {
      var y := MAP_WALK_HEIGHT - 1;
      while y > 0
        invariant 0 <= y < MAP_WALK_HEIGHT
        invariant forall i, j :: 0 <= i < MAP_WALK_HEIGHT && 0 <= j < MAP_WALK_WIDTH ==>
                    localMapCache[i, j] == old(localMapCache[if i > y then i - 1 else i, j])
      {
        y := y - 1;
        forall j | 0 <= j < MAP_WALK_WIDTH {
          localMapCache[y + 1, j] := localMapCache[y, j];
        }
      }
    }

    method ShiftNorth()
      requires Valid()
      modifies localMapCache
      ensures forall i, j :: 0 <= i < MAP_WALK_HEIGHT && 0 <= j < MAP_WALK_WIDTH ==>
                localMapCache[i, j] == old(localMapCache[if i < MAP_WALK_HEIGHT - 1 then i + 1 else i, j])
    {
      var y := 0;
      while y <= MAP_WALK_HEIGHT - 2
        invariant 0 <= y <= MAP_WALK_HEIGHT - 1
        invariant forall i, j :: 0 <= i < MAP_WALK_HEIGHT && 0 <= j < MAP_WALK_WIDTH ==>
                    localMapCache[i, j] == old(localMapCache[if i < y then i + 1 else i, j])
      {
        forall j | 0 <= j < MAP_WALK_WIDTH {
          localMapCache[y, j] := localMapCache[y + 1, j];
        }
        y := y + 1;
      }
    }

    method ShiftWest(starty: int, endy: int)
      requires Valid() && 0 <= starty && endy < MAP_WALK_HEIGHT
      modifies localMapCache
      ensures forall i, j :: 0 <= i < MAP_WALK_HEIGHT && 0 <= j < MAP_WALK_WIDTH ==>
                localMapCache[i, j] ==
                  old(localMapCache[i, if starty <= i <= endy && j < MAP_WALK_WIDTH - 1 then j + 1 else j])
    {
      var y := starty;
      while y <= endy
        invariant starty <= y
        invariant forall i, j :: 0 <= i < MAP_WALK_HEIGHT && 0 <= j < MAP_WALK_WIDTH ==>
                    localMapCache[i, j] ==
                      old(localMapCache[i, if starty <= i < y && i <= endy && j < MAP_WALK_WIDTH - 1 then j + 1 else j])
      {
        var x := 0;
        while x <= MAP_WALK_WIDTH - 2
          invariant 0 <= x <= MAP_WALK_WIDTH - 1
          invariant forall i, j :: 0 <= i < MAP_WALK_HEIGHT && 0 <= j < MAP_WALK_WIDTH ==>
                      localMapCache[i, j] ==
                        old(localMapCache[i, if (starty <= i < y && j < MAP_WALK_WIDTH - 1) || (i == y && j < x)
                            then j + 1 else j])
        {
          localMapCache[y, x] := localMapCache[y, x + 1];
          x := x + 1;
        }
        y := y + 1;
      }
    }

    method ShiftEast(starty: int, endy: int)
      requires Valid() && 0 <= starty && endy < MAP_WALK_HEIGHT
      modifies localMapCache
      ensures forall i, j :: 0 <= i < MAP_WALK_HEIGHT && 0 <= j < MAP_WALK_WIDTH ==>
                localMapCache[i, j] == old(localMapCache[i, if starty <= i <= endy && j > 0 then j - 1 else j])
    {
      var y := starty;
      while y <= endy
        invariant starty <= y
        invariant forall i, j :: 0 <= i < MAP_WALK_HEIGHT && 0 <= j < MAP_WALK_WIDTH ==>
                    localMapCache[i, j]
                        == old(localMapCache[i, if starty <= i < y && i <= endy && j > 0 then j - 1 else j])
      {
        var x := MAP_WALK_WIDTH - 1;
        while x > 0
          invariant 0 <= x <= MAP_WALK_WIDTH - 1
          invariant forall i, j :: 0 <= i < MAP_WALK_HEIGHT && 0 <= j < MAP_WALK_WIDTH ==>
                      localMapCache[i, j] ==
                        old(localMapCache[i, if (starty <= i < y && j > 0) || (i == y && j > x) then j - 1 else j])
        {
          x := x - 1;
          localMapCache[y, x + 1] := localMapCache[y, x];
        }
        y := y + 1;
      }
    }

    /** Ask the map again for one whole row of the window. */
    method RefreshRow(walk: World, dy: int)
      requires Valid() && Abs(dy) <= MAX_WALK_HEIGHT
      modifies localMapCache
      ensures forall i, j :: 0 <= i < MAP_WALK_HEIGHT && 0 <= j < MAP_WALK_WIDTH ==>
                localMapCache[i, j] ==
                  if i == MAX_WALK_HEIGHT + dy
                  then walk(Position(Wrap16(position.x + j - MAX_WALK_WIDTH), Wrap16(position.y + dy), position.z))
                  else old(localMapCache[i, j])
    {
      var x := -MAX_WALK_WIDTH;
      while x <= MAX_WALK_WIDTH
        invariant -MAX_WALK_WIDTH <= x <= MAX_WALK_WIDTH + 1
        invariant forall i, j :: 0 <= i < MAP_WALK_HEIGHT && 0 <= j < MAP_WALK_WIDTH ==>
                    localMapCache[i, j] ==
                      if i == MAX_WALK_HEIGHT + dy && j < MAX_WALK_WIDTH + x
                      then walk(Position(Wrap16(position.x + j - MAX_WALK_WIDTH), Wrap16(position.y + dy), position.z))
                      else old(localMapCache[i, j])
      {
        var ok := walk(Position(Wrap16(position.x + x), Wrap16(position.y + dy), position.z));
        UpdateTileCacheAt(ok, x, dy);
        x := x + 1;
      }
    }

    /** Ask the map again for one whole column of the window. */
    method RefreshColumn(walk: World, dx: int)
      requires Valid() && Abs(dx) <= MAX_WALK_WIDTH
      modifies localMapCache
      ensures forall i, j :: 0 <= i < MAP_WALK_HEIGHT && 0 <= j < MAP_WALK_WIDTH ==>
                localMapCache[i, j] ==
                  if j == MAX_WALK_WIDTH + dx
                  then walk(Position(Wrap16(position.x + dx), Wrap16(position.y + i - MAX_WALK_HEIGHT), position.z))
                  else old(localMapCache[i, j])
    {
      var y := -MAX_WALK_HEIGHT;
      while y <= MAX_WALK_HEIGHT
        invariant -MAX_WALK_HEIGHT <= y <= MAX_WALK_HEIGHT + 1
        invariant forall i, j :: 0 <= i < MAP_WALK_HEIGHT && 0 <= j < MAP_WALK_WIDTH ==>
                    localMapCache[i, j] ==
                      if j == MAX_WALK_WIDTH + dx && i < MAX_WALK_HEIGHT + y
                      then walk(Position(Wrap16(position.x + dx), Wrap16(position.y + i - MAX_WALK_HEIGHT), position.z))
                      else old(localMapCache[i, j])
      {
        var ok := walk(Position(Wrap16(position.x + dx), Wrap16(position.y + y), position.z));
        UpdateTileCacheAt(ok, dx, y);
        y := y + 1;
      }
    }

    method PatchVertical(walk: World, oldPos: Position)
      requires Valid() && IsStep(oldPos, position)
      modifies localMapCache
      ensures forall i, j :: 0 <= i < MAP_WALK_HEIGHT && 0 <= j < MAP_WALK_WIDTH ==>
                localMapCache[i, j] == VerticalBit(old(Rows()), walk, oldPos, position, i, j)
    {
      if oldPos.y > position.y {
        ShiftSouth();
        RefreshRow(walk, -MAX_WALK_HEIGHT);
      } else if oldPos.y < position.y {
        ShiftNorth();
        RefreshRow(walk, MAX_WALK_HEIGHT);
      }
    }

    method PatchSideways(walk: World, oldPos: Position, dy: int, ghost g: Grid)
      requires Valid() && IsStep(oldPos, position) && Abs(dy) <= 1
      requires forall i, j :: 0 <= i < MAP_WALK_HEIGHT && 0 <= j < MAP_WALK_WIDTH ==>
                 localMapCache[i, j] == VerticalBit(g, walk, oldPos, position, i, j)
      modifies localMapCache
      ensures forall i, j :: 0 <= i < MAP_WALK_HEIGHT && 0 <= j < MAP_WALK_WIDTH ==>
                localMapCache[i, j] == ShiftedBit(g, walk, oldPos, position, StartRow(dy), EndRow(dy), i, j)
    {
      var starty, endy := 0, MAP_WALK_HEIGHT - 1;
      if dy < 0 {
        endy := endy + dy;
      } else if dy > 0 {
        starty := dy;
      }
      if oldPos.x < position.x {
        ShiftWest(starty, endy);
        RefreshColumn(walk, MAX_WALK_WIDTH);
      } else if oldPos.x > position.x {
        ShiftEast(starty, endy);
        RefreshColumn(walk, -MAX_WALK_WIDTH);
      }
    }

    /** The in-place patching of a step.  `dy` is what the code takes for the rows to leave out of the
        sideways shift. */
    method PatchWindow(walk: World, oldPos: Position, dy: int)
      requires Valid() && IsStep(oldPos, position) && Abs(dy) <= 1
      modifies localMapCache
      ensures IsPatched(old(Rows()), Rows(), walk, oldPos, position, dy)
    {
      ghost var g := Rows();
      PatchVertical(walk, oldPos);
      PatchSideways(walk, oldPos, dy, g);
      UpdateTileCache(walk(oldPos), oldPos);
    }

    /** The creature itself moves.  `before` is the map as it was.  Patching the window keeps every
        answer right, save for steps south-east and south-west. */
    method OnOwnMove(walk: World, newPos: Position, teleport: bool, ghost before: World)
      requires Valid() && isMapLoaded && useCacheMap
      requires !teleport && newPos.z == position.z ==> IsStep(position, newPos)
      requires AnswersLikeRecompute(before) && SameExcept(before, walk, position, newPos)
      modifies this`position, localMapCache
      ensures position == newPos
      ensures teleport || old(position).z != newPos.z || !IsSouthDiagonal(old(position), newPos) ==>
              AnswersLikeRecompute(walk)
      ensures !teleport && old(position).z == newPos.z && IsSouthDiagonal(old(position), newPos) ==>
                (AnswersLikeRecompute(walk) <==> SouthDiagonalHarmless(old(Rows()), walk, old(position), newPos))
    {
      AnswersAreBits(before);
      ghost var g := Rows();
      var oldPos := position;
      position := newPos;
      if teleport || oldPos.z != newPos.z {
        UpdateMapCache(walk);
      } else {
        PatchWindow(walk, oldPos, Abs(oldPos.y - newPos.y));
        StepKeepsSync(g, Rows(), before, walk, oldPos, newPos, Abs(oldPos.y - newPos.y));
        AnswersAreBits(walk);
      }
    }

    /** The creature comes onto the map. */
    method OnAppear(walk: World)
      requires Valid()
      modifies this`isMapLoaded, localMapCache
      ensures isMapLoaded == (old(isMapLoaded) || useCacheMap)
      ensures useCacheMap ==> AnswersLikeRecompute(walk)
    {
      if useCacheMap {
        isMapLoaded := true;
        UpdateMapCache(walk);
      }
    }

    /** An item appears on, changes on or leaves one tile.  The tile is looked at again when the item appears, or
        when its type before or after the change, or of what leaves, is a blocking one (or ground). */
    method OnTileItem(walk: World, q: Position, appears: bool, blocks: bool, ghost before: World)
      requires Valid() && useCacheMap && isMapLoaded
      requires AnswersLikeRecompute(before) && SameExcept(before, walk, q, q)
      modifies localMapCache
      ensures AnswersLikeRecompute(walk) <==>
              appears || blocks || walk(q) == before(q) || q == position || !InWindow(position, q)
    {
      AnswersAreBits(before);
      AnswersAreBits(walk);
      if appears || blocks {
        OnOtherMove(walk, q, q, before);
      } else if InWindow(position, q) && q != position {
        assert Bit(Rows(), position, q) == before(q);
      }
    }

    /** Another creature moved; both tiles are looked at again. */
    method OnOtherMove(walk: World, newPos: Position, oldPos: Position, ghost before: World)
      requires Valid() && isMapLoaded && useCacheMap
      requires AnswersLikeRecompute(before) && SameExcept(before, walk, oldPos, newPos)
      modifies localMapCache
      ensures AnswersLikeRecompute(walk)
    {
      AnswersAreBits(before);
      ghost var g := Rows();
      if newPos.z == position.z {
        UpdateTileCache(walk(newPos), newPos);
      }
      if oldPos.z == position.z {
        UpdateTileCache(walk(oldPos), oldPos);
      }
      forall q: Position | InWindow(position, q) && q != position
        ensures Bit(Rows(), position, q) == walk(q)
      {
        assert Bit(g, position, q) == before(q);
      }
      AnswersAreBits(walk);
    }
  }
}
