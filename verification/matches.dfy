/** A game between connected players (internal/game/match.go): a roster of
    players and a status. */
module Matches {
  import opened Common
  import opened Boards
  import opened Players

  const Waiting := "WAITING"
  const Started := "STARTED"
  const Cancelled := "CANCELLED"
  const Finished := "FINISHED"

  predicate IsStatus(s: string)
  {
    s == Waiting || s == Started || s == Cancelled || s == Finished
  }

  class Match {
    var players: seq<Player>
    var status: string

    /** The status is one of the four, and every listed player has a board. */
    predicate Valid()
      reads this
    {
      IsStatus(status) && forall p :: p in players ==> p.Valid()
    }

    /** `NewMatch`: nobody listed yet, waiting. */
    constructor ()
      ensures Valid() && players == [] && status == Waiting
    {
      players := [];
      status := Waiting;
    }

    /** `AddPlayer`: append, with no check on the roster size or on the
        player already being listed. */
    method AddPlayer(player: Player)
      requires Valid() && player.Valid()
      modifies this
      ensures Valid()
      ensures players == old(players) + [player] && status == old(status)
    {
      players := players + [player];
    }

    /** `RemovePlayer`: splice out the first occurrence, keeping the order of
        the rest; nothing happens when the player is not listed, and the
        status is left as it is (the match is not cancelled). */
    method RemovePlayer(player: Player)
      requires Valid()
      modifies this
      ensures Valid()
      ensures players == RemoveFirst(old(players), player) && status == old(status)
    {
      var i := 0;
      while i < |players|
        invariant i <= |players| && players == old(players) && player !in players[..i]
      {
        if players[i] == player {
          RemoveFirstAt(players, player, i);
          players := players[..i] + players[i + 1..];
          return;
        }
        assert players[..i + 1] == players[..i] + [players[i]];
        i := i + 1;
      }
      assert players[..i] == players;
    }

    /** `Start`: the match is STARTED whatever the roster size, and a fleet
        is placed on each listed player's board in roster order, each
        drawing from what the previous ones left of `draws`. The boards only
        gain ship tiles; when every placement completed (`complete`), each
        listed board holds at least 17 more ship tiles than before. */
    method Start(draws: seq<RandomDraw>) returns (used: nat, complete: bool)
      requires Valid()
      modifies this, set p | p in players :: p.board.tiles
      ensures Valid() && status == Started && players == old(players)
      ensures used <= |draws| && (!complete ==> used == |draws|)
      ensures forall p :: p in players ==> OnlyFills(old(p.board.tiles[..]), p.board.tiles[..])
      ensures complete ==>
                forall p :: p in players ==> ShipCount(p.board.tiles[..]) >= old(ShipCount(p.board.tiles[..])) + FleetSize
    {
      status := Started;
      used, complete := 0, true;
      FleetTotal();
      for i := 0 to |players|
        invariant Valid() && status == Started && players == old(players) && used <= |draws|
        invariant !complete ==> used == |draws|
        invariant forall p :: p in players ==> OnlyFills(old(p.board.tiles[..]), p.board.tiles[..])
        invariant complete ==> forall k :: 0 <= k < i ==>
                    ShipCount(players[k].board.tiles[..]) >= old(ShipCount(players[k].board.tiles[..])) + FleetSize
      {
        assert players[i] in players;
        var board := players[i].board;
        ghost var before := board.tiles[..];
        ghost var remaining := draws[used..];
        var u, placed := board.PlaceShipsRandomly(draws[used..]);
        PlaceFleetOnlyFills(before, Fleet, remaining);
        PlaceFleetShipCount(before, Fleet, remaining);
        OnlyFillsShipCount(before, board.tiles[..]);
        forall p | p in players
          ensures OnlyFills(old(p.board.tiles[..]), p.board.tiles[..])
        {
          if p.board.tiles == board.tiles {
            OnlyFillsTransitive(old(p.board.tiles[..]), before, board.tiles[..]);
          }
        }
        if complete && placed == |Fleet| {
          forall k | 0 <= k <= i
            ensures ShipCount(players[k].board.tiles[..]) >= old(ShipCount(players[k].board.tiles[..])) + FleetSize
          {
            if players[k].board.tiles == board.tiles {
              OnlyFillsShipCount(old(players[k].board.tiles[..]), before);
              assert Fleet[..placed] == Fleet;
            }
          }
        }
        used := used + u;
        if placed < |Fleet| {
          complete := false;
        }
      }
    }

    /** `Cancel`: CANCELLED, roster untouched. */
    method Cancel()
      requires Valid()
      modifies this
      ensures Valid() && status == Cancelled && players == old(players)
    {
      status := Cancelled;
    }

    /** `End`: FINISHED, roster untouched. */
    method End()
      requires Valid()
      modifies this
      ensures Valid() && status == Finished && players == old(players)
    {
      status := Finished;
    }
  }
}
