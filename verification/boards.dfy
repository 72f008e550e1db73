/** The 10 x 10 board of internal/game/board.go: a fixed array of 100 integer
    tiles, shot resolution, fleet placement and the text rendering. */
module Boards {
  import opened Common
  import opened GridRefs

  const EmptyTile := 0
  const ShipTile := 1
  const HitTile := 2
  const MissTile := 3

  /** Ship lengths, in the order they are placed. */
  const Fleet: seq<nat> := [2, 3, 3, 4, 5]

  /** Tiles the whole fleet covers. */
  const FleetSize := 17

  /** One sample of the random source: a start tile from `rand.Intn(100)`
      and a direction from `rand.Intn(2)` (0 horizontal, otherwise vertical). */
  datatype Draw = Draw(start: int, direction: int)

  type RandomDraw = d: Draw | 0 <= d.start < BoardSize && 0 <= d.direction < 2 witness Draw(0, 0)

  datatype BoardError = InvalidReference(cause: RefError) | AlreadyHit

  // ---------------------------------------------------------------------------
  // Ship geometry and placement

  /** The tile of the `i`-th segment of a ship starting at `start`. */
  function ShipCell(start: int, i: int, direction: int): int
  {
    if direction == 0 then start + i else start + i * 10
  }

  /** Segment `i` stays in the start tile's row (horizontal) or column (vertical). */
  predicate InLane(start: int, i: int, direction: int)
  {
    if direction == 0 then start % 10 + i < 10 else start / 10 + i < 10
  }

  function ShipCells(start: int, ship: nat, direction: int): seq<int>
  {
    seq(ship, i => ShipCell(start, i, direction))
  }

  /** Where `canPlaceShip` says yes: every segment in its lane and on an empty tile. */
  predicate Fits(s: seq<int>, start: int, ship: nat, direction: int)
    requires |s| == BoardSize && 0 <= start < BoardSize
  {
    forall i :: 0 <= i < ship ==> InLane(start, i, direction) && s[ShipCell(start, i, direction)] == EmptyTile
  }

  /** The board with the given tiles set to ShipTile and every other tile kept. */
  function Stamp(s: seq<int>, cells: seq<int>): (r: seq<int>)
    ensures |r| == |s|
  {
    seq(|s|, j requires 0 <= j < |s| => if j in cells then ShipTile else s[j])
  }

  function ShipSet(s: seq<int>): set<int>
  {
    set j | 0 <= j < |s| && s[j] == ShipTile
  }

  /** Number of tiles still holding an unhit ship. */
  function ShipCount(s: seq<int>): nat
  {
    |ShipSet(s)|
  }

  lemma InLaneInBounds(start: int, i: int, direction: int)
    requires 0 <= start < BoardSize && 0 <= i && InLane(start, i, direction)
    ensures 0 <= ShipCell(start, i, direction) < BoardSize
  {
  }

  /** The tiles of a fitting ship are on the board and empty. */
  lemma FitsCells(s: seq<int>, start: int, ship: nat, direction: int)
    requires |s| == BoardSize && 0 <= start < BoardSize && Fits(s, start, ship, direction)
    ensures forall c :: c in ShipCells(start, ship, direction) ==> 0 <= c < BoardSize && s[c] == EmptyTile
    ensures forall i :: 0 <= i < ship ==> 0 <= ShipCell(start, i, direction) < BoardSize
  {
    forall i | 0 <= i < ship ensures 0 <= ShipCell(start, i, direction) < BoardSize {
      InLaneInBounds(start, i, direction);
    }
    forall c | c in ShipCells(start, ship, direction) ensures 0 <= c < BoardSize && s[c] == EmptyTile {
      var i :| 0 <= i < ship && c == ShipCell(start, i, direction);
      InLaneInBounds(start, i, direction);
    }
  }

  /** Stamping only turns tiles into ship tiles, so a ship that fits after
      stamping fitted before. */
  lemma FitsBeforeStamp(s: seq<int>, cells: seq<int>, start: int, ship: nat, direction: int)
    requires |s| == BoardSize && 0 <= start < BoardSize && Fits(Stamp(s, cells), start, ship, direction)
    ensures Fits(s, start, ship, direction)
  {
    forall i | 0 <= i < ship
      ensures InLane(start, i, direction) && s[ShipCell(start, i, direction)] == EmptyTile
    {
      InLaneInBounds(start, i, direction);
      assert Stamp(s, cells)[ShipCell(start, i, direction)] == EmptyTile;
    }
  }

  /** A ship's segments occupy distinct tiles. */
  lemma ShipCellsNoDup(start: int, ship: nat, direction: int)
    ensures NoDup(ShipCells(start, ship, direction))
  {
  }

  /** Stamping empty tiles adds exactly those tiles to the ship tiles. */
  lemma StampShipCount(s: seq<int>, cells: seq<int>)
    requires NoDup(cells)
    requires forall c :: c in cells ==> 0 <= c < |s| && s[c] == EmptyTile
    ensures ShipSet(Stamp(s, cells)) == ShipSet(s) + set c | c in cells
    ensures ShipCount(Stamp(s, cells)) == ShipCount(s) + |cells|
  {
    var cellSet := set c | c in cells;
    assert ShipSet(Stamp(s, cells)) == ShipSet(s) + cellSet;
    assert ShipSet(s) !! cellSet;
    NoDupCard(cells);
  }

  // ---------------------------------------------------------------------------
  // The fleet placement that `PlaceShipsRandomly` performs, as a function of
  // the random draws it consumes

  datatype Placement = Placement(start: int, length: nat, direction: int)

  function PlacementCells(p: Placement): seq<int>
  {
    ShipCells(p.start, p.length, p.direction)
  }

  /** The resulting tiles, how many draws were consumed, and the ships placed. */
  datatype FleetOutcome = FleetOutcome(tiles: seq<int>, used: nat, placements: seq<Placement>)

  /** Place `ships` in order; each takes the first remaining draw that fits,
      discarding the draws that do not. When the draws run out the placement
      stops short (the source would keep drawing). */
  function PlaceFleet(s: seq<int>, ships: seq<nat>, draws: seq<RandomDraw>): (out: FleetOutcome)
    requires |s| == BoardSize
    ensures |out.tiles| == BoardSize
    ensures out.used <= |draws|
    ensures |out.placements| <= |ships|
    ensures |out.placements| < |ships| ==> out.used == |draws|
    decreases |draws|
  {
    if ships == [] || draws == [] then FleetOutcome(s, 0, [])
    else
      var d := draws[0];
      if Fits(s, d.start, ships[0], d.direction) then
        var rest := PlaceFleet(Stamp(s, ShipCells(d.start, ships[0], d.direction)), ships[1..], draws[1..]);
        FleetOutcome(rest.tiles, rest.used + 1, [Placement(d.start, ships[0], d.direction)] + rest.placements)
      else
        var rest := PlaceFleet(s, ships, draws[1..]);
        FleetOutcome(rest.tiles, rest.used + 1, rest.placements)
  }

  /** `t` is `s` with some empty tiles turned into ship tiles. */
  predicate OnlyFills(s: seq<int>, t: seq<int>)
  {
    |s| == |t| && forall j :: 0 <= j < |s| ==> t[j] == s[j] || (s[j] == EmptyTile && t[j] == ShipTile)
  }

  lemma OnlyFillsTransitive(s: seq<int>, t: seq<int>, u: seq<int>)
    requires OnlyFills(s, t) && OnlyFills(t, u)
    ensures OnlyFills(s, u)
  {
  }

  /** Filling tiles never loses a ship tile. */
  lemma OnlyFillsShipCount(s: seq<int>, t: seq<int>)
    requires OnlyFills(s, t)
    ensures ShipSet(s) <= ShipSet(t)
    ensures ShipCount(s) <= ShipCount(t)
  {
    assert ShipSet(s) <= ShipSet(t);
    SubsetCard(ShipSet(s), ShipSet(t));
  }

  lemma SubsetCard(a: set<int>, b: set<int>)
    requires a <= b
    ensures |a| <= |b|
  {
    assert b == a + (b - a);
  }

  /** Placement only turns empty tiles into ship tiles. */
  lemma {:induction false} PlaceFleetOnlyFills(s: seq<int>, ships: seq<nat>, draws: seq<RandomDraw>)
    requires |s| == BoardSize
    ensures OnlyFills(s, PlaceFleet(s, ships, draws).tiles)
    decreases |draws|
  {
    if ships != [] && draws != [] {
      var d := draws[0];
      if Fits(s, d.start, ships[0], d.direction) {
        var cells := ShipCells(d.start, ships[0], d.direction);
        FitsCells(s, d.start, ships[0], d.direction);
        var t := Stamp(s, cells);
        PlaceFleetOnlyFills(t, ships[1..], draws[1..]);
        var out := PlaceFleet(t, ships[1..], draws[1..]).tiles;
        assert PlaceFleet(s, ships, draws).tiles == out;
        forall j | 0 <= j < BoardSize ensures out[j] == s[j] || (s[j] == EmptyTile && out[j] == ShipTile) {
          if j in cells {
            assert t[j] == ShipTile;
          } else {
            assert t[j] == s[j];
          }
        }
      } else {
        PlaceFleetOnlyFills(s, ships, draws[1..]);
      }
    }
  }

  /** Ship `k` has length ships[k], lies in its row or column, was placed on
      tiles empty beforehand, and shows as ship tiles afterwards. */
  lemma {:induction false} PlaceFleetShipsFit(s: seq<int>, ships: seq<nat>, draws: seq<RandomDraw>)
    requires |s| == BoardSize
    ensures var out := PlaceFleet(s, ships, draws);
            forall k :: 0 <= k < |out.placements| ==>
              var p := out.placements[k];
              && p.length == ships[k]
              && 0 <= p.start < BoardSize
              && Fits(s, p.start, p.length, p.direction)
              && forall c :: c in PlacementCells(p) ==> out.tiles[c] == ShipTile
    decreases |draws|
  {
    if ships != [] && draws != [] {
      var d := draws[0];
      if Fits(s, d.start, ships[0], d.direction) {
        var cells := ShipCells(d.start, ships[0], d.direction);
        var t := Stamp(s, cells);
        var out := PlaceFleet(s, ships, draws);
        var rest := PlaceFleet(t, ships[1..], draws[1..]);
        PlaceFleetShipsFit(t, ships[1..], draws[1..]);
        PlaceFleetOnlyFills(t, ships[1..], draws[1..]);
        FitsCells(s, d.start, ships[0], d.direction);
        forall c | c in cells ensures rest.tiles[c] == ShipTile {
          assert t[c] == ShipTile;
        }
        forall k | 1 <= k < |out.placements|
          ensures Fits(s, out.placements[k].start, out.placements[k].length, out.placements[k].direction)
        {
          var p := out.placements[k];
          assert p == rest.placements[k - 1];
          FitsBeforeStamp(s, cells, p.start, p.length, p.direction);
        }
      } else {
        PlaceFleetShipsFit(s, ships, draws[1..]);
      }
    }
  }

  /** No tile belongs to two of the ships. */
  predicate Disjoint(ps: seq<Placement>)
  {
    forall a, b, c :: 0 <= a < b < |ps| && c in PlacementCells(ps[a]) ==> c !in PlacementCells(ps[b])
  }

  /** No two placed ships share a tile. */
  lemma {:induction false} PlaceFleetNoOverlap(s: seq<int>, ships: seq<nat>, draws: seq<RandomDraw>)
    requires |s| == BoardSize
    ensures Disjoint(PlaceFleet(s, ships, draws).placements)
    decreases |draws|
  {
    if ships != [] && draws != [] {
      var d := draws[0];
      if Fits(s, d.start, ships[0], d.direction) {
        var cells := ShipCells(d.start, ships[0], d.direction);
        var t := Stamp(s, cells);
        var ps := PlaceFleet(s, ships, draws).placements;
        var rest := PlaceFleet(t, ships[1..], draws[1..]);
        PlaceFleetNoOverlap(t, ships[1..], draws[1..]);
        PlaceFleetShipsFit(t, ships[1..], draws[1..]);
        forall a, b, c | 0 <= a < b < |ps| && c in PlacementCells(ps[a])
          ensures c !in PlacementCells(ps[b])
        {
          assert ps[b] == rest.placements[b - 1];
          if a == 0 {
            var p := ps[b];
            FitsCells(s, d.start, ships[0], d.direction);
            assert t[c] == ShipTile;
            FitsCells(t, p.start, p.length, p.direction);
          } else {
            assert ps[a] == rest.placements[a - 1];
          }
        }
      } else {
        PlaceFleetNoOverlap(s, ships, draws[1..]);
      }
    }
  }

  function Sum(xs: seq<nat>): nat
  {
    if xs == [] then 0 else xs[0] + Sum(xs[1..])
  }

  /** Each placed ship adds its length to the ship tiles. */
  lemma {:induction false} PlaceFleetShipCount(s: seq<int>, ships: seq<nat>, draws: seq<RandomDraw>)
    requires |s| == BoardSize
    ensures var out := PlaceFleet(s, ships, draws);
            ShipCount(out.tiles) == ShipCount(s) + Sum(ships[..|out.placements|])
    decreases |draws|
  {
    var out := PlaceFleet(s, ships, draws);
    if ships != [] && draws != [] {
      var d := draws[0];
      if Fits(s, d.start, ships[0], d.direction) {
        var cells := ShipCells(d.start, ships[0], d.direction);
        var t := Stamp(s, cells);
        var rest := PlaceFleet(t, ships[1..], draws[1..]);
        PlaceFleetShipCount(t, ships[1..], draws[1..]);
        ShipCellsNoDup(d.start, ships[0], d.direction);
        FitsCells(s, d.start, ships[0], d.direction);
        StampShipCount(s, cells);
        var n := |rest.placements|;
        assert out.tiles == rest.tiles && |out.placements| == n + 1;
        assert ships[..n + 1][1..] == ships[1..][..n];
        assert Sum(ships[..n + 1]) == ships[0] + Sum(ships[1..][..n]);
      } else {
        PlaceFleetShipCount(s, ships, draws[1..]);
      }
    } else {
      assert ships[..0] == [];
    }
  }

  lemma FleetTotal()
    ensures Sum(Fleet) == FleetSize
  {
    assert Fleet[1..][1..][1..][1..][1..] == [];
  }

  /** On an empty board, a complete placement leaves exactly 2+3+3+4+5 = 17
      ship tiles. */
  lemma FullFleetOnEmptyBoard(draws: seq<RandomDraw>)
    ensures var out := PlaceFleet(seq(BoardSize, _ => EmptyTile), Fleet, draws);
            |out.placements| == |Fleet| ==> ShipCount(out.tiles) == FleetSize
  {
    var s := seq(BoardSize, _ => EmptyTile);
    assert ShipSet(s) == {};
    PlaceFleetShipCount(s, Fleet, draws);
    assert Fleet[..|Fleet|] == Fleet;
  }

  // ---------------------------------------------------------------------------
  // Firing

  /** The answer to a shot and the board after it. */
  datatype Shot = Shot(result: Result<bool, BoardError>, tiles: seq<int>)

  /** `Fire`: a bad reference or an already-hit tile is an error and changes
      nothing; a ship tile becomes a hit (true); any other tile becomes a miss
      (false), so a miss may be fired at again. */
  function FireAt(s: seq<int>, ref: string): (o: Shot)
    requires |s| == BoardSize
    ensures |o.tiles| == BoardSize
    ensures o.result.Err? ==> o.tiles == s
    ensures forall j :: 0 <= j < BoardSize && (GridToIndex(ref).Err? || j != GridToIndex(ref).value) ==>
              o.tiles[j] == s[j]
    ensures GridToIndex(ref).Err? ==> o.result == Err(InvalidReference(GridToIndex(ref).error))
    ensures GridToIndex(ref).Ok? ==>
              var i := GridToIndex(ref).value;
              && (s[i] == HitTile <==> o.result == Err(AlreadyHit))
              && (s[i] == ShipTile <==> o.result == Ok(true))
              && (s[i] != HitTile && s[i] != ShipTile <==> o.result == Ok(false))
              && (o.result == Ok(true) ==> o.tiles[i] == HitTile)
              && (o.result == Ok(false) ==> o.tiles[i] == MissTile)
  {
    match GridToIndex(ref)
    case Err(e) => Shot(Err(InvalidReference(e)), s)
    case Ok(i) =>
      if s[i] == HitTile then Shot(Err(AlreadyHit), s)
      else if s[i] == ShipTile then Shot(Ok(true), s[i := HitTile])
      else Shot(Ok(false), s[i := MissTile])
  }

  /** Firing at the same reference twice: a hit then reports AlreadyHit and
      changes nothing; a miss reports a miss again and changes nothing. */
  lemma FireTwice(s: seq<int>, ref: string)
    requires |s| == BoardSize
    ensures var first := FireAt(s, ref);
            var second := FireAt(first.tiles, ref);
            && (first.result == Ok(true) ==> second == Shot(Err(AlreadyHit), first.tiles))
            && (first.result == Ok(false) ==> second == Shot(Ok(false), first.tiles))
            && (first.result.Err? ==> second == first)
  {
  }

  /** A tile only moves forward: ship to hit, or anything but ship and hit to
      miss; and a hit takes exactly one tile off the ship count. */
  lemma FireProgress(s: seq<int>, ref: string)
    requires |s| == BoardSize
    ensures var o := FireAt(s, ref);
            forall j :: 0 <= j < BoardSize && o.tiles[j] != s[j] ==>
              (s[j] == ShipTile && o.tiles[j] == HitTile) ||
              (s[j] != ShipTile && s[j] != HitTile && o.tiles[j] == MissTile)
    ensures var o := FireAt(s, ref);
            ShipCount(o.tiles) == if o.result == Ok(true) then ShipCount(s) - 1 else ShipCount(s)
  {
    var o := FireAt(s, ref);
    if o.result.Ok? {
      var i := GridToIndex(ref).value;
      if o.result.value {
        assert ShipSet(o.tiles) == ShipSet(s) - {i};
      } else {
        assert ShipSet(o.tiles) == ShipSet(s);
      }
    }
  }

  // ---------------------------------------------------------------------------
  // Rendering

  /** The header pieces `Draw` writes first, one after the other. */
  const HeaderParts: seq<string> := [" ", "1", "2", "3", "4", "5", "6", "7", "8", "9", "10", "\n"]

  /** The pieces written one after the other. */
  function Concat(parts: seq<string>): string
  {
    if parts == [] then "" else Concat(parts[..|parts| - 1]) + parts[|parts| - 1]
  }

  /** Writing piece `k` after the first `k` appends it to what was written. */
  lemma ConcatSnoc(parts: seq<string>, k: nat)
    requires k < |parts|
    ensures Concat(parts[..k + 1]) == Concat(parts[..k]) + parts[k]
  {
    assert parts[..k + 1][..k] == parts[..k];
  }

  /** Where each header piece ends in the header text. */
  const HeaderEnds: seq<nat> := [0, 1, 2, 3, 4, 5, 6, 7, 8, 9, 10, 12, 13]

  /** The header reads " 12345678910" and a newline. */
  lemma HeaderText()
    ensures Concat(HeaderParts) == " 12345678910\n"
  {
    var h := HeaderParts;
    for k := 0 to |h|
      invariant Concat(h[..k]) == " 12345678910\n"[..HeaderEnds[k]]
    {
      ConcatSnoc(h, k);
    }
    assert h[..|h|] == h;
  }

  /** The symbol of a tile value; values outside 0..3 have none (Go's map
      lookup yields the empty string). */
  function Symbol(v: int): string
  {
    if v == EmptyTile then "-"
    else if v == ShipTile then "S"
    else if v == HitTile then "*"
    else if v == MissTile then "x"
    else ""
  }

  /** The row letter written before tiles 0, 10, ..., 90. */
  function RowLabel(i: int): string
  {
    if 0 <= i < BoardSize && i % 10 == 0 then [RowLetters[i / 10]] else ""
  }

  /** The text of tiles 0..n-1: a row letter before each row, a symbol per
      tile, a newline after every tenth tile. */
  function RenderTiles(s: seq<int>, n: nat): string
    requires n <= |s|
  {
    if n == 0 then "" else RenderTiles(s, n - 1) + TileText(s[n - 1], n - 1)
  }

  /** What `Draw` writes for tile `i` holding `v`. */
  function TileText(v: int, i: int): string
  {
    RowLabel(i) + Symbol(v) + (if (i + 1) % 10 == 0 then "\n" else "")
  }

  /** What `Draw` returns for the tiles `s`. */
  function Render(s: seq<int>): string
  {
    Concat(HeaderParts) + RenderTiles(s, |s|)
  }

  /** Every tile holds one of the four known values. */
  predicate AllKnown(s: seq<int>)
  {
    forall j :: 0 <= j < |s| ==> EmptyTile <= s[j] <= MissTile
  }

  /** The one-character symbol of a tile value in 0..3. */
  function Glyph(v: int): char
    requires EmptyTile <= v <= MissTile
  {
    "-S*x"[v]
  }

  lemma SymbolGlyph(v: int)
    requires EmptyTile <= v <= MissTile
    ensures Symbol(v) == [Glyph(v)]
  {
  }

  // The board as lines of text, row by row: an independent description of
  // the layout that `Draw` produces tile by tile.

  /** The glyphs of the first `c` tiles of row `r`. */
  function RowGlyphs(s: seq<int>, r: nat, c: nat): (g: string)
    requires |s| == BoardSize && AllKnown(s) && r < 10 && c <= 10
    ensures |g| == c
  {
    if c == 0 then "" else RowGlyphs(s, r, c - 1) + [Glyph(s[10 * r + c - 1])]
  }

  /** Line `r` of the board: the row letter, the glyphs of its ten tiles, a
      newline. */
  function RowLine(s: seq<int>, r: nat): (line: string)
    requires |s| == BoardSize && AllKnown(s) && r < 10
    ensures |line| == 12 && line[0] == RowLetters[r] && line[11] == '\n'
  {
    [RowLetters[r]] + RowGlyphs(s, r, 10) + "\n"
  }

  /** Lines 0..n-1, one after the other. */
  function Lines(s: seq<int>, n: nat): (text: string)
    requires |s| == BoardSize && AllKnown(s) && n <= 10
    ensures |text| == 12 * n
  {
    if n == 0 then "" else Lines(s, n - 1) + RowLine(s, n - 1)
  }

  /** The `k`-th glyph of a row is the glyph of its `k`-th tile. */
  lemma {:induction false} RowGlyphsAt(s: seq<int>, r: nat, c: nat, k: nat)
    requires |s| == BoardSize && AllKnown(s) && r < 10 && k < c <= 10
    ensures RowGlyphs(s, r, c)[k] == Glyph(s[10 * r + k])
  {
    if k < c - 1 {
      RowGlyphsAt(s, r, c - 1, k);
    }
  }

  /** The start of line `r` once its first `c` tiles are written. */
  function RowHead(s: seq<int>, r: nat, c: nat): string
    requires |s| == BoardSize && AllKnown(s) && c < 10 && 10 * r + c <= BoardSize
  {
    if c == 0 then "" else [RowLetters[r]] + RowGlyphs(s, r, c)
  }

  /** Regrouping a concatenation of three strings. */
  lemma Regroup(a: string, b: string, c: string)
    ensures a + (b + c) == (a + b) + c
  {
  }

  /** The first tile of line `r` writes the row letter and its glyph. */
  lemma StepRowStart(s: seq<int>, i: nat, r: nat)
    requires |s| == BoardSize && AllKnown(s) && r < 10 && i == 10 * r
    ensures Lines(s, r) + RowHead(s, r, 1) == Lines(s, r) + RowHead(s, r, 0) + TileText(s[i], i)
  {
    var g := Glyph(s[i]);
    SymbolGlyph(s[i]);
    var letter := [RowLetters[r]];
    assert RowLabel(i) == letter;
    assert TileText(s[i], i) == letter + [g];
    assert RowHead(s, r, 1) == letter + [g];
    Regroup(Lines(s, r), letter, [g]);
  }

  /** A tile that neither starts nor ends a line is written as its glyph alone. */
  lemma TileTextInside(v: int, i: int)
    requires EmptyTile <= v <= MissTile && i % 10 != 0 && (i + 1) % 10 != 0
    ensures TileText(v, i) == [Glyph(v)]
  {
    SymbolGlyph(v);
  }

  /** Past its first tile, a line grows by one glyph per tile. */
  lemma RowHeadGrow(s: seq<int>, i: nat, r: nat, c: nat)
    requires |s| == BoardSize && AllKnown(s) && r < 10 && 1 < c < 10 && i == 10 * r + c - 1
    ensures RowHead(s, r, c) == RowHead(s, r, c - 1) + [Glyph(s[i])]
  {
    var g := Glyph(s[i]);
    assert RowGlyphs(s, r, c) == RowGlyphs(s, r, c - 1) + [g];
    Regroup([RowLetters[r]], RowGlyphs(s, r, c - 1), [g]);
  }

  /** Tile `c - 1` of line `r`, not its first or last, adds its glyph only. */
  lemma StepRowMiddle(s: seq<int>, i: nat, r: nat, c: nat)
    requires |s| == BoardSize && AllKnown(s) && r < 10 && 1 < c < 10 && i == 10 * r + c - 1
    ensures Lines(s, r) + RowHead(s, r, c) == Lines(s, r) + RowHead(s, r, c - 1) + TileText(s[i], i)
  {
    assert i % 10 == c - 1 && (i + 1) % 10 == c;
    TileTextInside(s[i], i);
    RowHeadGrow(s, i, r, c);
    Regroup(Lines(s, r), RowHead(s, r, c - 1), [Glyph(s[i])]);
  }

  /** The last tile of line `r - 1` adds its glyph and ends the line. */
  lemma StepRowEnd(s: seq<int>, i: nat, r: nat)
    requires |s| == BoardSize && AllKnown(s) && 0 < r <= 10 && i == 10 * r - 1
    ensures Lines(s, r) + RowHead(s, r, 0) == Lines(s, r - 1) + RowHead(s, r - 1, 9) + TileText(s[i], i)
  {
    var g := Glyph(s[i]);
    SymbolGlyph(s[i]);
    assert i % 10 == 9 && (i + 1) % 10 == 0;
    assert TileText(s[i], i) == [g] + "\n";
    assert 10 * (r - 1) + 10 - 1 == i;
    var letter := [RowLetters[r - 1]];
    var glyphs := RowGlyphs(s, r - 1, 9);
    assert RowLine(s, r - 1) == letter + (glyphs + [g]) + "\n";
    Regroup(letter, glyphs, [g]);
    Regroup(letter + glyphs, [g], "\n");
    Regroup(Lines(s, r - 1), letter + glyphs, [g] + "\n");
  }

  /** Rendering `i` tiles is rendering `i - 1` and appending tile `i - 1`. */
  lemma RenderTilesLast(s: seq<int>, i: nat)
    requires 0 < i <= |s|
    ensures RenderTiles(s, i) == RenderTiles(s, i - 1) + TileText(s[i - 1], i - 1)
  {
  }

  /** Tile `i - 1` ends line `r - 1`: the text becomes `r` full lines. */
  lemma RowsEnd(s: seq<int>, i: nat, r: nat)
    requires |s| == BoardSize && AllKnown(s) && 0 < r <= 10 && i == 10 * r
    ensures RenderTiles(s, i - 1) == Lines(s, r - 1) + RowHead(s, r - 1, 9) ==>
              RenderTiles(s, i) == Lines(s, r) + RowHead(s, r, 0)
  {
    StepRowEnd(s, i - 1, r);
    RenderTilesLast(s, i);
  }

  /** Tile `i - 1` starts line `r`. */
  lemma RowsStart(s: seq<int>, i: nat, r: nat)
    requires |s| == BoardSize && AllKnown(s) && r < 10 && i == 10 * r + 1
    ensures RenderTiles(s, i - 1) == Lines(s, r) + RowHead(s, r, 0) ==>
              RenderTiles(s, i) == Lines(s, r) + RowHead(s, r, 1)
  {
    StepRowStart(s, i - 1, r);
    RenderTilesLast(s, i);
  }

  /** Tile `i - 1` lies inside line `r`. */
  lemma RowsMiddle(s: seq<int>, i: nat, r: nat, c: nat)
    requires |s| == BoardSize && AllKnown(s) && r < 10 && 1 < c < 10 && i == 10 * r + c
    ensures RenderTiles(s, i - 1) == Lines(s, r) + RowHead(s, r, c - 1) ==>
              RenderTiles(s, i) == Lines(s, r) + RowHead(s, r, c)
  {
    StepRowMiddle(s, i - 1, r, c);
    RenderTilesLast(s, i);
  }

  /** One more tile: tile `i - 1` sits at row `r`, column `c - 1` (or ends
      row `r - 1` when `c` is 0), and `(pr, pc)` is where the text stood
      before it. */
  lemma RowsStep(s: seq<int>, i: nat, r: nat, c: nat, pr: nat, pc: nat)
    requires |s| == BoardSize && AllKnown(s) && 0 < i <= BoardSize && c < 10 && i == 10 * r + c
    requires if c == 0 then pr == r - 1 && pc == 9 else pr == r && pc == c - 1
    requires pc < 10 && 10 * pr + pc <= BoardSize
    ensures RenderTiles(s, i - 1) == Lines(s, pr) + RowHead(s, pr, pc) ==>
              RenderTiles(s, i) == Lines(s, r) + RowHead(s, r, c)
  {
    if c == 0 {
      RowsEnd(s, i, r);
    } else if c == 1 {
      RowsStart(s, i, r);
    } else {
      RowsMiddle(s, i, r, c);
    }
  }

  /** After `i == 10 * r + c` tiles the text is the first `r` lines in full
      and then line `r` up to its `c`-th tile. */
  lemma {:induction false} RenderTilesRows(s: seq<int>, i: nat, r: nat, c: nat)
    requires |s| == BoardSize && AllKnown(s) && i <= BoardSize && c < 10 && i == 10 * r + c
    ensures RenderTiles(s, i) == Lines(s, r) + RowHead(s, r, c)
  {
    if i > 0 {
      var pr: nat, pc: nat := if c == 0 then r - 1 else r, if c == 0 then 9 else c - 1;
      RenderTilesRows(s, i - 1, pr, pc);
      RowsStep(s, i, r, c, pr, pc);
    }
  }

  /** Character `12 * r + k` of the first `n` lines is character `k` of line `r`. */
  lemma {:induction false} LinesAt(s: seq<int>, n: nat, r: nat, k: nat)
    requires |s| == BoardSize && AllKnown(s) && r < n <= 10 && k < 12
    ensures Lines(s, n)[12 * r + k] == RowLine(s, r)[k]
  {
    if r < n - 1 {
      LinesAt(s, n - 1, r, k);
    }
  }

  /** With every tile in 0..3 the rendering is 133 characters: the header
      line " 12345678910", then for each row its letter, the symbols `-`,
      `S`, `*`, `x` of its ten tiles, and a newline. */
  lemma RenderLayout(s: seq<int>)
    requires |s| == BoardSize && AllKnown(s)
    ensures Render(s) == " 12345678910\n" + Lines(s, 10)
    ensures |Render(s)| == 133
  {
    HeaderText();
    RenderTilesRows(s, BoardSize, 10, 0);
  }

  /** The symbol of the tile in row `r`, column `c` is character `c + 1` of
      the line for row `r`, which follows the header and the lines before. */
  lemma TileGlyphAt(s: seq<int>, r: nat, c: nat)
    requires |s| == BoardSize && AllKnown(s) && r < 10 && c < 10
    ensures |Render(s)| == 133
    ensures Render(s)[13 + 12 * r + 1 + c] == Glyph(s[10 * r + c])
    ensures Render(s)[13 + 12 * r] == RowLetters[r]
  {
    RenderLayout(s);
    LinesAt(s, 10, r, 1 + c);
    LinesAt(s, 10, r, 0);
    RowGlyphsAt(s, r, 10, c);
  }

  /** The first loop of `Draw`: the header strings written one after the
      other. */
  method WriteHeader() returns (out: string)
    ensures out == Concat(HeaderParts)
  {
    out := "";
    for h := 0 to |HeaderParts|
      invariant out == Concat(HeaderParts[..h])
    {
      ConcatSnoc(HeaderParts, h);
      out := out + HeaderParts[h];
    }
    assert HeaderParts[..|HeaderParts|] == HeaderParts;
  }

  // ---------------------------------------------------------------------------
  // The board object

  class Board {
    const tiles: array<int>

    predicate Valid()
    {
      tiles.Length == BoardSize
    }

    /** `NewEmptyBoard`: 100 tiles, all empty. */
    constructor ()
      ensures Valid() && fresh(tiles)
      ensures forall j :: 0 <= j < BoardSize ==> tiles[j] == EmptyTile
    {
      var t := new int[BoardSize];
      for i := 0 to BoardSize
        invariant forall j :: 0 <= j < i ==> t[j] == EmptyTile
      {
        t[i] := EmptyTile;
      }
      tiles := t;
    }

    /** `Draw`: the header, then every tile's row letter, symbol and
        newline; with every tile in 0..3 that is the header line and ten
        board lines of 12 characters each. */
    method Draw() returns (out: string)
      requires Valid()
      ensures out == Render(tiles[..])
      ensures AllKnown(tiles[..]) ==> out == " 12345678910\n" + Lines(tiles[..], 10) && |out| == 133
    {
      var header := WriteHeader();
      var body := WriteTiles();
      out := header + body;
      if AllKnown(tiles[..]) {
        RenderLayout(tiles[..]);
      }
    }

    /** The second loop of `Draw`: for each tile, the row letter `cols` holds
        for it (if any), its symbol, and a newline after the tenth tile of a
        row. */
    method WriteTiles() returns (out: string)
      requires Valid()
      ensures out == RenderTiles(tiles[..], tiles.Length)
    {
      out := "";
      ghost var s := tiles[..];
      for i := 0 to tiles.Length
        invariant out == RenderTiles(s, i)
      {
        var newline := if (i + 1) % 10 == 0 then "\n" else "";
        var piece := RowLabel(i) + Symbol(tiles[i]) + newline;
        assert piece == TileText(s[i], i);
        RenderTilesLast(s, i + 1);
        out := out + piece;
      }
    }

    /** `Update`: write `value` at the referenced tile, or report the bad
        reference and change nothing. */
    method Update(ref: string, value: int) returns (r: Result<(), BoardError>)
      requires Valid()
      modifies tiles
      ensures GridToIndex(ref).Err? ==>
                r == Err(InvalidReference(GridToIndex(ref).error)) && tiles[..] == old(tiles[..])
      ensures GridToIndex(ref).Ok? ==>
                r == Ok(()) && tiles[..] == old(tiles[..])[GridToIndex(ref).value := value]
    {
      var parsed := GridToIndex(ref);
      if parsed.Err? {
        return Err(InvalidReference(parsed.error));
      }
      tiles[parsed.value] := value;
      r := Ok(());
    }

    /** `Fire`: resolve a shot at the referenced tile. */
    method Fire(ref: string) returns (r: Result<bool, BoardError>)
      requires Valid()
      modifies tiles
      ensures Shot(r, tiles[..]) == FireAt(old(tiles[..]), ref)
    {
      var parsed := GridToIndex(ref);
      if parsed.Err? {
        return Err(InvalidReference(parsed.error));
      }
      var i := parsed.value;
      if tiles[i] == HitTile {
        return Err(AlreadyHit);
      }
      if tiles[i] == ShipTile {
        tiles[i] := HitTile;
        r := Ok(true);
      } else {
        tiles[i] := MissTile;
        r := Ok(false);
      }
    }

    /** `PlaceShipsRandomly`: for each fleet ship, consume draws until one
        fits, then place it. Returns the draws consumed and the ships placed;
        fewer than |Fleet| ships only when the draws ran out. */
    method PlaceShipsRandomly(draws: seq<RandomDraw>) returns (used: nat, placed: nat)
      requires Valid()
      modifies tiles
      ensures var goal := PlaceFleet(old(tiles[..]), Fleet, draws);
              tiles[..] == goal.tiles && used == goal.used && placed == |goal.placements|
    {
      ghost var goal := PlaceFleet(tiles[..], Fleet, draws);
      ghost var done: seq<Placement> := [];
      ghost var ships := Fleet;
      used, placed := 0, 0;
      while placed < |Fleet|
        invariant placed <= |Fleet| && used <= |draws| && |done| == placed && ships == Fleet[placed..]
        invariant goal == Resume(used, done, PlaceFleet(tiles[..], ships, draws[used..]))
      {
        var ship := Fleet[placed];
        assert ships[0] == ship;
        while true
          invariant used <= |draws| && |done| == placed
          invariant goal == Resume(used, done, PlaceFleet(tiles[..], ships, draws[used..]))
          decreases |draws| - used
        {
          if used == |draws| {
            ResumeStop(goal, used, done, tiles[..], ships, draws);
            return;
          }
          var d := draws[used];
          ghost var before := tiles[..];
          var fits := CanPlaceShip(this, d.start, ship, d.direction);
          if fits {
            FitsCells(before, d.start, ship, d.direction);
            PlaceShip(this, d.start, ship, d.direction);
            ResumePlace(goal, used, done, before, ships, draws);
            used, done := used + 1, done + [Placement(d.start, ship, d.direction)];
            break;
          }
          ResumeSkip(goal, used, done, before, ships, draws);
          used := used + 1;
        }
        placed, ships := placed + 1, ships[1..];
      }
      ResumeStop(goal, used, done, tiles[..], ships, draws);
    }
  }

  /** The overall outcome once `used` draws have been consumed and the ships
      `done` placed, with `rest` still to come. */
  function Resume(used: nat, done: seq<Placement>, rest: FleetOutcome): FleetOutcome
  {
    FleetOutcome(rest.tiles, used + rest.used, done + rest.placements)
  }

  /** A draw that does not fit is discarded. */
  lemma ResumeSkip(goal: FleetOutcome, used: nat, done: seq<Placement>, s: seq<int>, ships: seq<nat>,
                   draws: seq<RandomDraw>)
    requires |s| == BoardSize && ships != [] && used < |draws|
    requires !Fits(s, draws[used].start, ships[0], draws[used].direction)
    requires goal == Resume(used, done, PlaceFleet(s, ships, draws[used..]))
    ensures goal == Resume(used + 1, done, PlaceFleet(s, ships, draws[used + 1..]))
  {
    assert draws[used..][1..] == draws[used + 1..];
  }

  /** A draw that fits places the next ship. */
  lemma ResumePlace(goal: FleetOutcome, used: nat, done: seq<Placement>, s: seq<int>, ships: seq<nat>,
                    draws: seq<RandomDraw>)
    requires |s| == BoardSize && ships != [] && used < |draws|
    requires Fits(s, draws[used].start, ships[0], draws[used].direction)
    requires goal == Resume(used, done, PlaceFleet(s, ships, draws[used..]))
    ensures var d := draws[used];
            goal == Resume(used + 1, done + [Placement(d.start, ships[0], d.direction)],
                           PlaceFleet(Stamp(s, ShipCells(d.start, ships[0], d.direction)), ships[1..], draws[used + 1..]))
  {
    var d := draws[used];
    var p := Placement(d.start, ships[0], d.direction);
    assert draws[used..][1..] == draws[used + 1..];
    var rest := PlaceFleet(Stamp(s, ShipCells(d.start, ships[0], d.direction)), ships[1..], draws[used + 1..]);
    assert PlaceFleet(s, ships, draws[used..]) == FleetOutcome(rest.tiles, rest.used + 1, [p] + rest.placements);
    assert done + ([p] + rest.placements) == done + [p] + rest.placements;
  }

  /** With no ship or no draw left, the outcome is what has been done. */
  lemma ResumeStop(goal: FleetOutcome, used: nat, done: seq<Placement>, s: seq<int>, ships: seq<nat>,
                   draws: seq<RandomDraw>)
    requires |s| == BoardSize && used <= |draws| && (ships == [] || used == |draws|)
    requires goal == Resume(used, done, PlaceFleet(s, ships, draws[used..]))
    ensures goal == FleetOutcome(s, used, done)
  {
    assert done + [] == done;
  }

  /** `canPlaceShip`: the read-only scan of the ship's segments. */
  method CanPlaceShip(board: Board, start: int, ship: nat, direction: int) returns (ok: bool)
    requires board.Valid() && 0 <= start < BoardSize
    ensures ok == Fits(board.tiles[..], start, ship, direction)
  {
    if direction == 0 {
      for i := 0 to ship
        invariant forall k :: 0 <= k < i ==>
                    InLane(start, k, direction) && board.tiles[..][ShipCell(start, k, direction)] == EmptyTile
      {
        assert ShipCell(start, i, direction) == start + i;
        if start % 10 + i >= 10 || board.tiles[start + i] != EmptyTile {
          return false;
        }
      }
    } else {
      for i := 0 to ship
        invariant forall k :: 0 <= k < i ==>
                    InLane(start, k, direction) && board.tiles[..][ShipCell(start, k, direction)] == EmptyTile
      {
        assert ShipCell(start, i, direction) == start + i * 10;
        if start / 10 + i >= 10 || board.tiles[start + i * 10] != EmptyTile {
          return false;
        }
      }
    }
    return true;
  }

  /** `placeShip`: set the ship's segments to ShipTile. Its caller has
      checked the placement first; only the bounds matter here. */
  method PlaceShip(board: Board, start: int, ship: nat, direction: int)
    requires board.Valid()
    requires forall i :: 0 <= i < ship ==> 0 <= ShipCell(start, i, direction) < BoardSize
    modifies board.tiles
    ensures board.tiles[..] == Stamp(old(board.tiles[..]), ShipCells(start, ship, direction))
  {
    if direction == 0 {
      for i := 0 to ship
        invariant forall j :: 0 <= j < BoardSize ==>
                    board.tiles[j] == if j in ShipCells(start, i, direction) then ShipTile else old(board.tiles[j])
      {
        assert ShipCell(start, i, direction) == start + i;
        assert ShipCells(start, i + 1, direction) == ShipCells(start, i, direction) + [start + i];
        board.tiles[start + i] := ShipTile;
      }
    } else {
      for i := 0 to ship
        invariant forall j :: 0 <= j < BoardSize ==>
                    board.tiles[j] == if j in ShipCells(start, i, direction) then ShipTile else old(board.tiles[j])
      {
        assert ShipCell(start, i, direction) == start + i * 10;
        assert ShipCells(start, i + 1, direction) == ShipCells(start, i, direction) + [start + i * 10];
        board.tiles[start + i * 10] := ShipTile;
      }
    }
  }
}
