# Battleships game state, in Dafny

This project models the game-state core of a small Go battleships server. The
model covers four parts:

- **the board** (`internal/game/board.go`): a 100-tile integer grid, the
  grid-reference parser, shot resolution, raw writes, random fleet placement
  and the text rendering;
- **the match** (`internal/game/match.go`): a roster of players and a status
  string;
- **the player** (`internal/game/player.go`): a board, an in-game flag and a
  connection;
- **the server's matchmaking registry** (`internal/game/server.go`): the
  player list, the match list, one matchmaker iteration per event kind, and
  the roster clean-up on a disconnection.

The code is modelled in the form it has in Go:

- `Board`, `Player`, `Match` and `Server` are classes whose methods update
  their fields.
- The board's tiles are an `array<int>`; the rosters and registries are
  `seq` fields.
- The loops of `Draw`, `canPlaceShip`, `placeShip`, `PlaceShipsRandomly`,
  `Match.Start`, the WAITING filter, `RemovePlayer` and `HandleDisconnection`
  are `while`/`for` loops with invariants.

Each method is proved against a specification function (`GridToIndex`,
`FireAt`, `Fits`, `Stamp`, `PlaceFleet`, `Render`, `RemoveFirst`, `WaitingIn`)
or against an invariant. The properties the code promises are proved about
those functions as lemmas. The matchmaker's invariant (`Registry`) has four
parts:

- the matches are distinct and valid;
- at most one match is WAITING, and it lists at most one player;
- no player is on two rosters, or twice on one;
- every listed player is flagged in-game.

Every server method keeps it.

Files (one module each):

| file | module | models |
|---|---|---|
| `common.dfy` | `Common` | `Option`, `Result`, duplicate-freedom, removal of the first occurrence |
| `gridrefs.dfy` | `GridRefs` | `gridToSliceIndex` and `strconv.Atoi` on the column text |
| `boards.dfy` | `Boards` | the `Board` type and every function of `board.go` |
| `players.dfy` | `Players` | `Player`, `NewPlayer`, `SetInGameStatus` |
| `matches.dfy` | `Matches` | `Match` and its five operations |
| `servers.dfy` | `Servers` | `Server`: `NewServer`, `AddPlayer`, `RemovePlayer`, `MatchMaker` iterations, `HandleDisconnection` |

Where the code and its comments disagree, the model follows the code:

- `HandleDisconnection`'s comment says the player's match is cancelled first.
  The code only removes the player from the rosters and changes no status,
  and so does the model.
- `Match.Start` does not check the roster size.
- `Match.RemovePlayer` does not cancel the match.
- `Match.AddPlayer` neither caps the roster nor rejects duplicates.

## Model

| member | source | states |
|---|---|---|
| Common.RemoveFirst | internal/game/match.go:18-25 | removing a listed element shortens the list by one; removing an absent one leaves it as it is |
| Common.RemoveFirstMultiset | internal/game/match.go:18-25 | exactly one occurrence of the element goes; every other element keeps its count |
| Common.RemoveFirstMembers | internal/game/server.go:166-175 | removal adds no element and keeps every element other than the removed one |
| Common.RemoveFirstAt | internal/game/match.go:18-25 | removing the element whose first occurrence is at `i` is `s[..i] + s[i+1..]`, the others in their order |
| Common.RemoveFirstNoDup | internal/game/match.go:18-25 | on a duplicate-free list the result is duplicate-free and no longer holds the element |
| GridRefs.GridToIndex | internal/game/board.go:48-76 | an accepted reference yields an index in 0..99 |
| GridRefs.AtoiColumn | internal/game/board.go:66-73 | characterises `Atoi`, the model of `strconv.Atoi`, on the column text: it reads a 1-2 character column as 1..10 exactly for "1".."9", "10", and "0"/"+" followed by 1..9, and then gives that number |
| GridRefs.GridToIndexAccepts | internal/game/board.go:48-76 | a reference is accepted iff it is a row letter a..j/A..J followed by such a column text, and then names row*10 + col - 1 |
| GridRefs.GridToIndexRejects | internal/game/board.go:50-73 | too short, too long, a row outside a..j, a non-numeric column and a column outside 1..10 are each rejected with their own error, in the code's order |
| GridRefs.CanonicalRoundTrip | internal/game/board.go:60-75 | every index 0..99 has a canonical reference (A1..J10) that parses back to it |
| GridRefs.CanonicalUnique | internal/game/board.go:60-75 | every canonical reference is the canonical reference of its index: a bijection between A1..J10 and 0..99 |
| GridRefs.NonCanonicalAliases | internal/game/board.go:60-75 | "A1", "a1", "A01" and "a+1" all name tile 0, while "a-1" is out of bounds |
| GridRefs.TestedReferences | internal/game/board_test.go:21-68 | the table-driven test's cases: A1→0, c5→24, j10→99; "a", "ab12", "k5", "a11", "ab" rejected with the matching error |
| Boards.Board.constructor | internal/game/board.go:16-22 | a fresh board of 100 tiles, all empty |
| Boards.Board.Update | internal/game/board.go:78-86 | a bad reference reports its parse error and changes nothing; otherwise only the referenced tile takes the value |
| Boards.FireAt | internal/game/board.go:91-108 | a bad reference reports its parse error; at a valid one, a hit tile gives AlreadyHit, a ship tile gives true and becomes a hit, any other tile gives false and becomes a miss (each an iff); errors leave the tiles alone and no tile but the referenced one changes |
| Boards.Board.Fire | internal/game/board.go:91-108 | the answer and the new tiles are those of `FireAt` on the old tiles |
| Boards.FireTwice | internal/game/board.go:97-107 | firing twice at a hit reports AlreadyHit and changes nothing; firing twice at a miss reports a miss again and changes nothing |
| Boards.FireProgress | internal/game/board.go:97-107 | tiles only move ship→hit or (empty/miss)→miss, and a hit removes exactly one ship tile |
| Boards.CanPlaceShip | internal/game/board.go:145-167 | the scan answers true iff every segment stays in its row/column and is on an empty tile, reading only in-bounds tiles |
| Boards.FitsCells | internal/game/board.go:145-167 | the segments of a fitting ship are on the board and empty |
| Boards.PlaceShip | internal/game/board.go:170-180 | exactly the ship's segments become ship tiles; every other tile is unchanged |
| Boards.ShipCellsNoDup | internal/game/board.go:170-180 | a ship's segments are distinct tiles |
| Boards.StampShipCount | internal/game/board.go:170-180 | placing a ship on empty tiles adds exactly its segments to the ship tiles |
| Boards.PlaceFleet | internal/game/board.go:125-141 | the fleet placement keeps 100 tiles, uses at most the given draws, and places fewer ships only when the draws run out |
| Boards.Board.PlaceShipsRandomly | internal/game/board.go:125-141 | the nested loops leave the tiles, draws used and ships placed that `PlaceFleet` gives for the old tiles |
| Boards.ResumeSkip | internal/game/board.go:129-135 | a draw whose ship does not fit is discarded and the next draw is tried for the same ship |
| Boards.ResumePlace | internal/game/board.go:135-138 | a draw whose ship fits places it, and the next ship starts from the following draw |
| Boards.ResumeStop | internal/game/board.go:127-140 | with no ship or no draw left, the outcome is what has been placed so far |
| Boards.PlaceFleetOnlyFills | internal/game/board.go:125-141 | placement only turns empty tiles into ship tiles |
| Boards.PlaceFleetShipsFit | internal/game/board.go:125-141 | ship k has the k-th fleet length, fitted the starting board (so, with `PlaceFleetNoOverlap`, the board it was placed on), and all its segments are ship tiles at the end |
| Boards.PlaceFleetNoOverlap | internal/game/board.go:125-141 | no two placed ships share a tile |
| Boards.PlaceFleetShipCount | internal/game/board.go:125-141 | the ship tiles grow by the sum of the lengths of the ships placed |
| Boards.FleetTotal | internal/game/board.go:126 | the fleet 2, 3, 3, 4, 5 covers 17 tiles |
| Boards.FullFleetOnEmptyBoard | internal/game/board.go:125-141 | on an empty board a complete placement leaves exactly 17 ship tiles |
| Boards.OnlyFillsShipCount | internal/game/board.go:170-180 | filling empty tiles never loses a ship tile |
| Boards.SymbolGlyph | internal/game/board.go:28 | each tile value 0..3 prints as one character of `-`, `S`, `*`, `x` |
| Boards.HeaderText | internal/game/board.go:29 | the header pieces read " 12345678910" and a newline |
| Boards.WriteHeader | internal/game/board.go:32-35 | the header loop writes the header pieces in order |
| Boards.Board.WriteTiles | internal/game/board.go:36-44 | the tile loop writes, tile by tile, the row letter before tiles 0, 10, …, 90, the tile's symbol and a newline after every tenth tile |
| Boards.RowLine | internal/game/board.go:36-44 | a board line is 12 characters: the row letter, ten symbols, a newline |
| Boards.Lines | internal/game/board.go:36-44 | n board lines are 12·n characters |
| Boards.RowGlyphsAt | internal/game/board.go:40 | symbol k of a row is that of the row's k-th tile |
| Boards.StepRowStart | internal/game/board.go:37-40 | the first tile of a row starts its line with the row letter and the tile's symbol |
| Boards.StepRowMiddle | internal/game/board.go:40 | a tile inside a row adds only its symbol |
| Boards.StepRowEnd | internal/game/board.go:40-43 | the tenth tile of a row adds its symbol and ends the line |
| Boards.RowsStep | internal/game/board.go:36-44 | one more tile extends the text from the previous row/column position to the next: a new line's letter and glyph, an inner glyph, or a line's last glyph and newline |
| Boards.RenderTilesRows | internal/game/board.go:36-44 | after 10·r + c tiles the text is r complete lines and the first c tiles of line r |
| Boards.LinesAt | internal/game/board.go:36-44 | character 12·r + k of the board lines is character k of line r |
| Boards.RenderLayout | internal/game/board.go:24-46 | with every tile in 0..3 the rendering is the header line then ten board lines, 133 characters |
| Boards.TileGlyphAt | internal/game/board.go:24-46 | the symbol of the tile at row r, column c is at offset 13 + 12·r + 1 + c, after the row letter at 13 + 12·r |
| Boards.Board.Draw | internal/game/board.go:24-46 | the result is the rendering of the tiles; with every tile in 0..3 it is the header and ten board lines, 133 characters |
| Players.Player.constructor | internal/game/player.go:10-17 | a new player has a fresh all-empty 100-tile board, is not in a game and holds the given connection |
| Players.Player.SetInGameStatus | internal/game/player.go:19-21 | the flag takes the given value (so setting it twice equals setting it once); board and connection are constants |
| Matches.Match.constructor | internal/game/match.go:9-12 | no players, WAITING |
| Matches.Match.AddPlayer | internal/game/match.go:14-16 | the player is appended, even if already listed; the status is unchanged |
| Matches.Match.RemovePlayer | internal/game/match.go:18-25 | the first occurrence is spliced out, order kept, nothing happens when absent; the status is unchanged |
| Matches.Match.Start | internal/game/match.go:27-33 | STARTED whatever the roster size; each listed board only gains ship tiles, and at least 17 of them when every placement completed |
| Matches.Match.Cancel | internal/game/match.go:35-37 | CANCELLED, roster unchanged |
| Matches.Match.End | internal/game/match.go:39-41 | FINISHED, roster unchanged |
| Servers.WaitingIn | internal/game/server.go:77-82 | the filter keeps only matches of the list whose status is WAITING |
| Servers.WaitingInMembers | internal/game/server.go:77-82 | a match is in the filter's result iff it is in the list and WAITING |
| Servers.WaitingInNone | internal/game/server.go:77-85 | with no WAITING match the filter is empty |
| Servers.WaitingInFirst | internal/game/server.go:77-94 | the filter's first element, the join target, is the first WAITING match in list order |
| Servers.WaitingInAtMostOne | internal/game/server.go:75-82 | where at most one match is WAITING the filter holds at most one |
| Servers.AppendWaitingMatch | internal/game/server.go:84-90 | appending a new empty WAITING match where none was WAITING keeps the registry invariant |
| Servers.JoinKeepsRegistry | internal/game/server.go:93-104 | a join step on the WAITING match keeps the registry invariant |
| Servers.JoinKeepsMatchesValid | internal/game/server.go:93-104 | a join step keeps the matches distinct and valid |
| Servers.JoinKeepsWaitingBounded | internal/game/server.go:93-104 | after a join step at most one match is WAITING and it lists at most one player |
| Servers.JoinKeepsRostersDisjoint | internal/game/server.go:96-100 | a join step never puts a player on two rosters or twice on one |
| Servers.RemovalKeepsRegistry | internal/game/server.go:151-162 | removing a player from some rosters, with statuses and flags unchanged, keeps the registry invariant |
| Servers.Server.constructor | internal/game/server.go:19-26 | no players, no matches |
| Servers.Server.AddPlayer | internal/game/server.go:53-55 | the player is appended, matches unchanged |
| Servers.Server.RemovePlayer | internal/game/server.go:166-175 | the first occurrence is spliced out, order kept, nothing happens when absent |
| Servers.Server.WaitingMatches | internal/game/server.go:77-82 | the loop collects exactly the WAITING matches, in list order |
| Servers.Server.EnsureWaitingMatch | internal/game/server.go:77-90 | with no WAITING match a fresh empty one is appended and is the only one collected; otherwise the matches are unchanged and the collection is the WAITING ones |
| Servers.Server.AppendNewMatch | internal/game/server.go:84-90 | a fresh empty WAITING match is appended and the invariant is kept |
| Servers.JoinMatch | internal/game/server.go:93-104 | a player not in a game is appended to the target and flagged; the target is STARTED exactly when it then lists two players; the registry invariant is kept; without a start no board changes, with one every listed board only gains ship tiles, at least 17 when every placement completed |
| Servers.Server.MatchMakerJoin | internal/game/server.go:74-104 | a join event targets the first WAITING match (a new one if none), adds the player unless already in a game, starts a two-player match, changes no other match, and keeps the invariant; a player left waiting gets no board change, a start only fills empty tiles of the listed boards, at least 17 per board when every placement completed |
| Servers.Server.MatchMakerConnectionEvent | internal/game/server.go:74-106 | a disconnection notice only runs the WAITING-match bookkeeping: with no WAITING match a fresh empty WAITING match is appended, otherwise the matches are unchanged; afterwards a match is WAITING |
| Servers.Server.HandleDisconnection | internal/game/server.go:151-164 | an in-game player is removed from every roster listing it and then from the players; no status or flag changes; the invariant is kept |
| Servers.NotListed | internal/game/server.go:152 | under the invariant a player not in a game is on no roster, so skipping the scan loses nothing |
| Servers.RemoveFromRosters | internal/game/server.go:154-160 | every match has the player's first occurrence removed and keeps its status |
| Servers.ScanRoster | internal/game/server.go:155-159 | scanning a duplicate-free roster removes the player's one occurrence |
| Servers.JoinFirst | internal/game/server.go:74-104 | the first join on a server with no WAITING match creates the WAITING match listing only that player, whose board is unchanged |
| Servers.JoinSecond | internal/game/server.go:93-104 | the second join lists both players in joining order and starts the match, filling only empty tiles of both boards; no match is WAITING afterwards |
| Servers.PairTwo | internal/game/server.go:74-104 | two distinct players joining in turn end up as [a, b] in a new STARTED match, and their boards only gained ship tiles |
| Servers.PairFourPlayers | internal/game/server.go:74-104 | four distinct players joining in turn on an empty server give the matches [p1, p2] and [p3, p4], both STARTED |

## Left out

- Networking and concurrency are not modelled: `cmd/battleships/main.go`, `internal/game/connection.go`, and in `server.go` `HandleConnection`, `SendMotd`, `HandleCommands`, `JoinQueue`, `AddConnection`, the channels and the `select`. A matchmaker iteration is a method called with its event (a join by `p`, or a disconnection notice), and nothing is said about the order between event sources.
- The `ConnectionEvent` send at the end of `HandleDisconnection` and the `SendBytes(Draw())` calls inside `Match.Start` are socket/channel I/O and are not modelled; `Draw` itself is.
- The server's `Connections` list and the connection's `Status` are not modelled; a connection is an opaque `Connection(id)` value.
- Logging is not modelled.
- `math/rand` is not modelled. The (start, direction) candidates are an input sequence of draws, each start in 0..99 and direction 0..1, consumed in order. `PlaceShipsRandomly` returns how many draws it used and how many ships it placed.
- Boards.Board.PlaceShipsRandomly: when the draws run out before the fleet is placed, the model stops and reports fewer ships, where the Go loop would keep drawing for ever. Only what holds when the loop exits is proved.
- Matches.Match.Start: states that each listed board gains at least 17 ship tiles, not exactly 17. A roster may list the same player twice, because `AddPlayer` does not reject duplicates, and that board is then filled twice. For a single placement on an empty board, exactly 17 is `Boards.FullFleetOnEmptyBoard`. The draws are shared out across the roster in order.
- References are ASCII strings. The non-ASCII behaviour of `strings.ToLower` and Go's byte-wise wrap-around of the row letter are not modelled. The wrap-around only takes values above 9, which fail the same bounds test as the plain difference used here.
- `strconv.Atoi` is modelled for signs and decimal digits. Its 64-bit range error is not modelled; a reference leaves at most two characters for the column, so it cannot arise.
- Board.Tiles and Player.Board are never reassigned in Go, so they are `const` fields; the tile array is updated in place.
- In `HandleDisconnection` the inner `range` walks the roster slice taken before the loop while `RemovePlayer` shifts the shared backing array. The model walks a snapshot. The two differ only when a roster lists the player twice, which the server invariant excludes.
