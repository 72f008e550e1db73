/** The matchmaking registry of internal/game/server.go: the players the
    server knows about and the matches it has created, with one iteration of
    the matchmaker loop for each kind of event it waits for, and the roster
    clean-up on a disconnection. */
module Servers {
  import opened Common
  import opened Boards
  import opened Players
  import opened Matches

  /** The WAITING matches of `ms`, in order (the filter at the top of every
      matchmaker iteration). */
  function WaitingIn(ms: seq<Match>): (ws: seq<Match>)
    reads ms
    ensures |ws| <= |ms|
    ensures forall m :: m in ws ==> m in ms && m.status == Waiting
  {
    if ms == [] then []
    else
      var last := ms[|ms| - 1];
      WaitingIn(ms[..|ms| - 1]) + (if last.status == Waiting then [last] else [])
  }

  /** The roster of the match a join targets: the first WAITING match's,
      or none when a new match will be created. */
  function TargetRoster(ms: seq<Match>): seq<Player>
    reads ms
  {
    var ws := WaitingIn(ms);
    if ws == [] then [] else assert ws[0] in ws; ws[0].players
  }

  /** At most one match of `ms` is WAITING. */
  predicate AtMostOneWaiting(ms: seq<Match>)
    reads ms
  {
    forall i, j :: 0 <= i < j < |ms| ==> ms[i].status != Waiting || ms[j].status != Waiting
  }

  /** The filter keeps exactly the WAITING matches. */
  lemma {:induction false} WaitingInMembers(ms: seq<Match>)
    ensures forall m :: m in WaitingIn(ms) <==> m in ms && m.status == Waiting
  {
    if ms != [] {
      var init := ms[..|ms| - 1];
      WaitingInMembers(init);
      assert ms == init + [ms[|ms| - 1]];
    }
  }

  /** With no WAITING match the filter is empty. */
  lemma {:induction false} WaitingInNone(ms: seq<Match>)
    requires forall k :: 0 <= k < |ms| ==> ms[k].status != Waiting
    ensures WaitingIn(ms) == []
  {
    if ms != [] {
      WaitingInNone(ms[..|ms| - 1]);
    }
  }

  /** The filter's first element is the first WAITING match. */
  lemma {:induction false} WaitingInFirst(ms: seq<Match>, i: nat)
    requires i < |ms| && ms[i].status == Waiting
    requires forall k :: 0 <= k < i ==> ms[k].status != Waiting
    ensures WaitingIn(ms) != [] && WaitingIn(ms)[0] == ms[i]
  {
    var init := ms[..|ms| - 1];
    if i == |ms| - 1 {
      WaitingInNone(init);
    } else {
      WaitingInFirst(init, i);
    }
  }

  /** Where at most one match is WAITING the filter yields at most one. */
  lemma {:induction false} WaitingInAtMostOne(ms: seq<Match>)
    requires AtMostOneWaiting(ms)
    ensures |WaitingIn(ms)| <= 1
  {
    if ms != [] {
      var init := ms[..|ms| - 1];
      if ms[|ms| - 1].status == Waiting {
        WaitingInNone(init);
      } else {
        assert AtMostOneWaiting(init);
        WaitingInAtMostOne(init);
      }
    }
  }

  // ---------------------------------------------------------------------------
  // What the matchmaker keeps true of the match list between iterations

  /** Every player listed in some match of `ms`. */
  function ListedIn(ms: seq<Match>): set<Player>
    reads ms
  {
    set m, q | m in ms && q in m.players :: q
  }

  /** The matches are distinct objects, each valid. */
  predicate MatchesValid(ms: seq<Match>)
    reads ms
  {
    NoDup(ms) && forall m :: m in ms ==> m.Valid()
  }

  /** At most one match is WAITING, and a WAITING match lists at most one player. */
  predicate WaitingBounded(ms: seq<Match>)
    reads ms
  {
    AtMostOneWaiting(ms) && forall m :: m in ms && m.status == Waiting ==> |m.players| <= 1
  }

  /** No match lists a player twice, and no player is listed by two matches. */
  predicate RostersDisjoint(ms: seq<Match>)
    reads ms
  {
    && (forall m :: m in ms ==> NoDup(m.players))
    && (forall m1, m2, q :: m1 in ms && m2 in ms && m1 != m2 && q in m1.players ==> q !in m2.players)
  }

  /** Every listed player is flagged in-game. */
  predicate ListedInGame(ms: seq<Match>)
    reads ms, ListedIn(ms)
  {
    forall q :: q in ListedIn(ms) ==> q.inGame
  }

  predicate Registry(ms: seq<Match>)
    reads ms, ListedIn(ms)
  {
    MatchesValid(ms) && WaitingBounded(ms) && RostersDisjoint(ms) && ListedInGame(ms)
  }

  /** Appending a new, empty WAITING match where none was WAITING keeps the
      registry invariant. */
  lemma AppendWaitingMatch(ms: seq<Match>, m: Match)
    requires Registry(ms) && m !in ms && m.Valid() && m.status == Waiting && m.players == []
    requires forall k :: 0 <= k < |ms| ==> ms[k].status != Waiting
    ensures Registry(ms + [m])
  {
    var ms' := ms + [m];
    assert ListedIn(ms') == ListedIn(ms);
    assert NoDup(ms');
  }

  /** A join step: the match list `ms`, the WAITING match `w` the matchmaker
      picked and the player `p` who asked to join. (The two-state lemmas
      below take their arguments bundled in one value.) */
  datatype Join = Join(ms: seq<Match>, w: Match, p: Player)

  /** A disconnection: the match list `ms` and the player `p` who left. */
  datatype Removal = Removal(ms: seq<Match>, p: Player)

  /** A join step on the WAITING match `w`: the roster gains `p` when `p` was
      not flagged, `p` ends up flagged, and `w` is STARTED exactly when it
      holds two players; nothing else that the invariant reads changes. */
  twostate lemma JoinKeepsRegistry(j: Join)
    requires old(Registry(j.ms)) && j.w in j.ms && old(j.w.status) == Waiting && j.p.Valid()
    requires forall m :: m in j.ms && m != j.w ==> m.players == old(m.players) && m.status == old(m.status)
    requires j.w.players == old(j.w.players) + (if old(j.p.inGame) then [] else [j.p])
    requires j.w.status == if |j.w.players| == 2 then Started else Waiting
    requires j.p.inGame
    requires forall q :: q in old(ListedIn(j.ms)) ==> q.inGame
    ensures Registry(j.ms)
  {
    JoinKeepsMatchesValid(j);
    JoinKeepsWaitingBounded(j);
    JoinKeepsRostersDisjoint(j);
    assert ListedIn(j.ms) <= old(ListedIn(j.ms)) + {j.p};
  }

  twostate lemma JoinKeepsMatchesValid(j: Join)
    requires old(MatchesValid(j.ms)) && j.w in j.ms && j.p.Valid()
    requires forall m :: m in j.ms && m != j.w ==> m.players == old(m.players) && m.status == old(m.status)
    requires j.w.players == old(j.w.players) + (if old(j.p.inGame) then [] else [j.p])
    requires j.w.status == Waiting || j.w.status == Started
    ensures MatchesValid(j.ms)
  {
    forall m | m in j.ms ensures m.Valid() {
      assert old(m.Valid());
    }
  }

  twostate lemma JoinKeepsWaitingBounded(j: Join)
    requires old(WaitingBounded(j.ms)) && j.w in j.ms && old(j.w.status) == Waiting
    requires forall m :: m in j.ms && m != j.w ==> m.players == old(m.players) && m.status == old(m.status)
    requires j.w.players == old(j.w.players) + (if old(j.p.inGame) then [] else [j.p])
    requires j.w.status == if |j.w.players| == 2 then Started else Waiting
    ensures WaitingBounded(j.ms)
  {
    var ms := j.ms;
    assert |old(j.w.players)| <= 1;
    forall a, b | 0 <= a < b < |ms| ensures ms[a].status != Waiting || ms[b].status != Waiting {
      assert old(ms[a].status != Waiting || ms[b].status != Waiting);
    }
  }

  twostate lemma JoinKeepsRostersDisjoint(j: Join)
    requires old(RostersDisjoint(j.ms)) && old(ListedInGame(j.ms)) && j.w in j.ms
    requires forall m :: m in j.ms && m != j.w ==> m.players == old(m.players)
    requires j.w.players == old(j.w.players) + (if old(j.p.inGame) then [] else [j.p])
    ensures RostersDisjoint(j.ms)
  {
    if !old(j.p.inGame) {
      forall m | m in j.ms ensures j.p !in old(m.players) {
        assert forall q :: q in old(m.players) ==> q in old(ListedIn(j.ms));
      }
    }
  }

  /** Removing `p` from some rosters (its first occurrence) and changing
      nothing else keeps the registry invariant. */
  twostate lemma RemovalKeepsRegistry(r: Removal)
    requires old(Registry(r.ms))
    requires forall m :: m in r.ms ==>
               m.status == old(m.status) &&
               (m.players == old(m.players) || m.players == RemoveFirst(old(m.players), r.p))
    requires forall q :: q in old(ListedIn(r.ms)) ==> q.inGame == old(q.inGame)
    ensures Registry(r.ms)
  {
    var ms, p := r.ms, r.p;
    forall m | m in ms ensures m.Valid() && NoDup(m.players) && |m.players| <= |old(m.players)| {
      assert old(m.Valid());
      RemoveFirstNoDup(old(m.players), p);
      forall q | q in m.players ensures q in old(m.players) {
        RemoveFirstMembers(old(m.players), p, q);
      }
    }
    forall m1, m2, q | m1 in ms && m2 in ms && m1 != m2 && q in m1.players ensures q !in m2.players {
      RemoveFirstMembers(old(m1.players), p, q);
      RemoveFirstMembers(old(m2.players), p, q);
    }
    forall q | q in ListedIn(ms) ensures q in old(ListedIn(ms)) {
      var m :| m in ms && q in m.players;
      RemoveFirstMembers(old(m.players), p, q);
    }
    forall a, b | 0 <= a < b < |ms| ensures ms[a].status != Waiting || ms[b].status != Waiting {
      assert old(ms[a].status != Waiting || ms[b].status != Waiting);
    }
  }

  class Server {
    var players: seq<Player>
    var matches: seq<Match>

    /** What the matchmaker keeps true between iterations. */
    predicate Valid()
      reads this, matches, ListedIn(matches)
    {
      Registry(matches)
    }

    /** `NewServer`: no players, no matches. */
    constructor ()
      ensures Valid() && players == [] && matches == []
    {
      players := [];
      matches := [];
    }

    /** `AddPlayer`: append to the player list. */
    method AddPlayer(p: Player)
      requires Valid()
      modifies this
      ensures Valid()
      ensures players == old(players) + [p] && matches == old(matches)
    {
      players := players + [p];
    }

    /** `RemovePlayer`: splice out the first occurrence of `p`, keeping the
        order of the others; nothing happens when `p` is not listed. */
    method RemovePlayer(p: Player)
      requires Valid()
      modifies this
      ensures Valid()
      ensures players == RemoveFirst(old(players), p) && matches == old(matches)
    {
      var i := 0;
      while i < |players|
        invariant i <= |players| && players == old(players) && p !in players[..i]
      {
        if players[i] == p {
          RemoveFirstAt(players, p, i);
          players := players[..i] + players[i + 1..];
          return;
        }
        assert players[..i + 1] == players[..i] + [players[i]];
        i := i + 1;
      }
      assert players[..i] == players;
    }

    /** The collection of WAITING matches, in the order of `matches`. */
    method WaitingMatches() returns (ws: seq<Match>)
      ensures ws == WaitingIn(matches)
      ensures forall m :: m in ws <==> m in matches && m.status == Waiting
    {
      ws := [];
      for i := 0 to |matches|
        invariant ws == WaitingIn(matches[..i])
      {
        assert matches[..i + 1][..i] == matches[..i];
        if matches[i].status == Waiting {
          ws := ws + [matches[i]];
        }
      }
      assert matches[..|matches|] == matches;
      WaitingInMembers(matches);
    }

    /** The start of every matchmaker iteration: collect the WAITING matches
        and, when there is none, create one and append it to `matches`. */
    method EnsureWaitingMatch() returns (ws: seq<Match>)
      requires Valid()
      modifies this
      ensures Valid() && players == old(players)
      ensures ws != [] && ws[0] in matches && ws[0].status == Waiting && |ws[0].players| <= 1
      ensures old(WaitingIn(matches)) == [] ==>
                fresh(ws[0]) && ws == [ws[0]] && ws[0].players == [] && matches == old(matches) + [ws[0]]
      ensures old(WaitingIn(matches)) != [] ==> ws == old(WaitingIn(matches)) && matches == old(matches)
    {
      ws := WaitingMatches();
      if |ws| == 0 {
        forall k | 0 <= k < |matches| ensures matches[k].status != Waiting {
          assert matches[k] in matches;
        }
        var m := AppendNewMatch();
        ws := ws + [m];
      } else {
        assert ws[0] in ws;
      }
    }

    /** The branch of the iteration start that finds no WAITING match: a new
        empty match is appended to `matches`. */
    method AppendNewMatch() returns (m: Match)
      requires Valid() && forall k :: 0 <= k < |matches| ==> matches[k].status != Waiting
      modifies this
      ensures Valid() && players == old(players)
      ensures fresh(m) && m.players == [] && m.status == Waiting && matches == old(matches) + [m]
    {
      m := new Match();
      AppendWaitingMatch(matches, m);
      matches := matches + [m];
    }

    /** One matchmaker iteration that receives a join from `p`: the target is
        the first WAITING match (a new one when there is none); `p` joins it
        unless already flagged in-game, and a target holding two players is
        started, placing fleets from `draws`. */
    method MatchMakerJoin(p: Player, draws: seq<RandomDraw>) returns (target: Match, used: nat, complete: bool)
      requires Valid() && p.Valid()
      modifies this, matches, p, p.board.tiles, set q | q in TargetRoster(matches) :: q.board.tiles
      ensures Valid() && players == old(players) && p.inGame
      ensures old(WaitingIn(matches)) == [] ==> fresh(target) && matches == old(matches) + [target]
      ensures old(WaitingIn(matches)) != [] ==> target == old(WaitingIn(matches))[0] && matches == old(matches)
      ensures target.players ==
                old(TargetRoster(matches)) +
                (if old(p.inGame) then [] else [p])
      ensures target.status == if |target.players| == 2 then Started else Waiting
      ensures forall m :: m in old(matches) && m != target ==>
                m.players == old(m.players) && m.status == old(m.status)
      ensures used <= |draws| && (!complete ==> used == |draws|)
      ensures forall q :: q in target.players ==> old(allocated(q)) && OnlyFills(old(q.board.tiles[..]), q.board.tiles[..])
      ensures target.status != Started ==>
                && used == 0
                && p.board.tiles[..] == old(p.board.tiles[..])
                && forall q :: q in target.players ==> q.board.tiles[..] == old(q.board.tiles[..])
      ensures target.status == Started && complete ==>
                forall q :: q in target.players ==> ShipCount(q.board.tiles[..]) >= old(ShipCount(q.board.tiles[..])) + FleetSize
    {
      var ws := EnsureWaitingMatch();
      target := ws[0];
      used, complete := JoinMatch(matches, target, p, draws);
    }

    /** One matchmaker iteration that receives a disconnection notice: only
        the WAITING-match bookkeeping at the top of the loop happens. */
    method MatchMakerConnectionEvent()
      requires Valid()
      modifies this
      ensures Valid() && players == old(players)
      ensures old(WaitingIn(matches)) == [] ==>
                && |matches| == |old(matches)| + 1 && matches[..|old(matches)|] == old(matches)
                && fresh(matches[|old(matches)|])
                && matches[|old(matches)|].players == [] && matches[|old(matches)|].status == Waiting
      ensures old(WaitingIn(matches)) != [] ==> matches == old(matches)
      ensures WaitingIn(matches) != []
    {
      var ws := EnsureWaitingMatch();
      WaitingInMembers(matches);
    }

    /** `HandleDisconnection`, without the notice it sends: an in-game `p` is
        removed from every match that lists it, then from `players`. No
        match changes status and no flag changes. */
    method HandleDisconnection(p: Player)
      requires Valid()
      modifies this, matches
      ensures Valid()
      ensures players == RemoveFirst(old(players), p) && matches == old(matches)
      ensures forall m :: m in matches ==> m.status == old(m.status)
      ensures forall m :: m in matches ==>
                m.players == if old(p.inGame) then RemoveFirst(old(m.players), p) else old(m.players)
      ensures forall m :: m in matches ==> p !in m.players
    {
      if p.inGame {
        RemoveFromRosters(matches, p);
        forall m | m in matches ensures p !in m.players {
          RemoveFirstNoDup(old(m.players), p);
        }
      } else {
        NotListed(matches, p);
      }
      RemovalKeepsRegistry(Removal(matches, p));
      RemovePlayer(p);
    }
  }

  /** The join branch of a matchmaker iteration on the WAITING match
      `target`: `p` is listed and flagged unless already flagged in-game, and
      a target holding two players is started, placing fleets from `draws`. */
  method JoinMatch(ms: seq<Match>, target: Match, p: Player, draws: seq<RandomDraw>) returns (used: nat, complete: bool)
    requires Registry(ms) && target in ms && target.status == Waiting && p.Valid()
    modifies target, p, p.board.tiles, set q | q in target.players :: q.board.tiles
    ensures Registry(ms) && p.inGame && used <= |draws| && (!complete ==> used == |draws|)
    ensures target.players == old(target.players) + (if old(p.inGame) then [] else [p])
    ensures target.status == if |target.players| == 2 then Started else Waiting
    ensures target.status != Started ==>
              && used == 0
              && p.board.tiles[..] == old(p.board.tiles[..])
              && forall q :: q in old(target.players) ==> q.board.tiles[..] == old(q.board.tiles[..])
    ensures forall q :: q in target.players ==> OnlyFills(old(q.board.tiles[..]), q.board.tiles[..])
    ensures target.status == Started && complete ==>
              forall q :: q in target.players ==> ShipCount(q.board.tiles[..]) >= old(ShipCount(q.board.tiles[..])) + FleetSize
  {
    if !p.inGame {
      target.AddPlayer(p);
      p.SetInGameStatus(true);
    }
    used, complete := 0, true;
    if |target.players| == 2 {
      used, complete := target.Start(draws);
    }
    JoinKeepsRegistry(Join(ms, target, p));
  }

  /** A player not flagged in-game is on no roster. */
  lemma NotListed(ms: seq<Match>, p: Player)
    requires ListedInGame(ms) && !p.inGame
    ensures forall m :: m in ms ==> p !in m.players
  {
    forall m | m in ms ensures p !in m.players {
      assert forall q :: q in m.players ==> q in ListedIn(ms);
    }
  }

  /** The outer loop of `HandleDisconnection`: every match in turn has its
      roster scanned for `p`. */
  method RemoveFromRosters(ms: seq<Match>, p: Player)
    requires MatchesValid(ms) && forall m :: m in ms ==> NoDup(m.players)
    modifies ms
    ensures forall m :: m in ms ==> m.status == old(m.status) && m.players == RemoveFirst(old(m.players), p)
  {
    for i := 0 to |ms|
      invariant forall k :: 0 <= k < |ms| ==> ms[k].status == old(ms[k].status)
      invariant forall k :: 0 <= k < i ==> ms[k].players == RemoveFirst(old(ms[k].players), p)
      invariant forall k :: i <= k < |ms| ==> ms[k].players == old(ms[k].players)
    {
      var m := ms[i];
      assert m in ms;
      ScanRoster(m, p);
    }
  }

  /** The inner loop of `HandleDisconnection`: walk a copy of the roster
      taken before the loop, and remove `p` from the match wherever the copy
      holds it. Go ranges over the slice header taken at the start while the
      removal shifts the shared backing array; on a roster without
      duplicates both walks remove exactly the one occurrence. */
  method ScanRoster(m: Match, p: Player)
    requires m.Valid() && NoDup(m.players)
    modifies m
    ensures m.status == old(m.status) && m.players == RemoveFirst(old(m.players), p)
  {
    var snapshot := m.players;
    for j := 0 to |snapshot|
      invariant m.players == if p in snapshot[..j] then RemoveFirst(snapshot, p) else snapshot
      invariant m.status == old(m.status) && m.Valid()
    {
      assert snapshot[..j + 1] == snapshot[..j] + [snapshot[j]];
      if snapshot[j] == p {
        m.RemovePlayer(p);
      }
    }
    assert snapshot[..|snapshot|] == snapshot;
  }

  /** A join on a server with no WAITING match: a new match is appended,
      listing only the joining player, and it is the WAITING one. */
  method JoinFirst(s: Server, a: Player, draws: seq<RandomDraw>) returns (m: Match)
    requires s.Valid() && WaitingIn(s.matches) == []
    requires a.Valid() && !a.inGame
    modifies s, s.matches, a, a.board.tiles
    ensures s.Valid() && fresh(m) && s.matches == old(s.matches) + [m]
    ensures m.players == [a] && m.status == Waiting && a.inGame
    ensures a.board.tiles[..] == old(a.board.tiles[..])
    ensures forall x :: x in old(s.matches) ==> x.players == old(x.players) && x.status == old(x.status)
    ensures WaitingIn(s.matches) != [] && WaitingIn(s.matches)[0] == m
  {
    WaitingInMembers(s.matches);
    ghost var before := s.matches;
    assert forall k :: 0 <= k < |before| ==> before[k] in before && before[k].status != Waiting;
    var u, complete;
    m, u, complete := s.MatchMakerJoin(a, draws);
    assert forall k :: 0 <= k < |before| ==> s.matches[k] == before[k];
    WaitingInFirst(s.matches, |before|);
  }

  /** A join of a second player to the WAITING match `m`, which lists one
      other player: `m` lists both and is STARTED, and no match is WAITING
      any more. */
  method JoinSecond(s: Server, m: Match, b: Player, draws: seq<RandomDraw>)
    requires s.Valid() && WaitingIn(s.matches) != [] && WaitingIn(s.matches)[0] == m
    requires |m.players| == 1 && b.Valid() && !b.inGame
    modifies s, s.matches, b, b.board.tiles, m.players[0].board.tiles
    ensures s.Valid() && s.matches == old(s.matches) && b.inGame
    ensures m.players == old(m.players) + [b] && m.status == Started
    ensures OnlyFills(old(m.players[0].board.tiles[..]), m.players[0].board.tiles[..])
    ensures OnlyFills(old(b.board.tiles[..]), b.board.tiles[..])
    ensures forall x :: x in s.matches && x != m ==> x.players == old(x.players) && x.status == old(x.status)
    ensures WaitingIn(s.matches) == []
  {
    WaitingInMembers(s.matches);
    assert m in s.matches && m.status == Waiting;
    assert forall x :: x in s.matches && x != m ==> x.status != Waiting by {
      forall x | x in s.matches && x != m ensures x.status != Waiting {
        var i :| 0 <= i < |s.matches| && s.matches[i] == m;
        var k :| 0 <= k < |s.matches| && s.matches[k] == x;
        assert i != k;
      }
    }
    var t, u, complete := s.MatchMakerJoin(b, draws);
    assert forall k :: 0 <= k < |s.matches| ==> s.matches[k] in s.matches;
    WaitingInNone(s.matches);
  }

  /** FIFO pairing, two at a time: on a server with no WAITING match, two
      distinct players not yet in a game who join one after the other end up
      as [a, b] in a new STARTED match appended to the list, and again no
      match is WAITING. */
  method PairTwo(s: Server, a: Player, b: Player, draws: seq<RandomDraw>) returns (m: Match)
    requires s.Valid() && WaitingIn(s.matches) == []
    requires a.Valid() && b.Valid() && !a.inGame && !b.inGame && a != b
    modifies s, s.matches, a, b, a.board.tiles, b.board.tiles
    ensures s.Valid() && fresh(m) && s.matches == old(s.matches) + [m]
    ensures m.players == [a, b] && m.status == Started
    ensures OnlyFills(old(a.board.tiles[..]), a.board.tiles[..]) && OnlyFills(old(b.board.tiles[..]), b.board.tiles[..])
    ensures forall x :: x in old(s.matches) ==> x.players == old(x.players) && x.status == old(x.status)
    ensures WaitingIn(s.matches) == []
  {
    m := JoinFirst(s, a, draws);
    JoinSecond(s, m, b, draws);
  }

  /** FIFO pairing: four distinct players not yet in a game, joining one
      after the other on a server with no matches, end up as [p1, p2] and
      [p3, p4] in two STARTED matches. */
  method PairFourPlayers(s: Server, p1: Player, p2: Player, p3: Player, p4: Player, draws: seq<RandomDraw>)
    returns (m1: Match, m2: Match)
    requires s.Valid() && s.matches == []
    requires p1.Valid() && p2.Valid() && p3.Valid() && p4.Valid()
    requires !p1.inGame && !p2.inGame && !p3.inGame && !p4.inGame
    requires p1 != p2 && p1 != p3 && p1 != p4 && p2 != p3 && p2 != p4 && p3 != p4
    modifies s, p1, p2, p3, p4, p1.board.tiles, p2.board.tiles, p3.board.tiles, p4.board.tiles
    ensures s.matches == [m1, m2]
    ensures m1.players == [p1, p2] && m1.status == Started
    ensures m2.players == [p3, p4] && m2.status == Started
  {
    m1 := PairTwo(s, p1, p2, draws);
    m2 := PairTwo(s, p3, p4, draws);
  }
}
