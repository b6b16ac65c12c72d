/**
 * The browser client's mirror of the game: the `allPlayers` dictionary of
 * `Player` objects keyed by id, the `myPlayer` reference to this client's
 * own entry, the three socket handlers that change them, and the keydown
 * handler that chooses which move to send.
 */
module Client {
  import opened Records
  import opened Wrappers
  import Players
  import Server

  /**
   * The dictionary after `Object.values(players).forEach(...)` has stored a
   * record under its id for each value, in order: a later value with the
   * same id overrides an earlier one.
   */
  function Overlay(view: map<string, PlayerData>, s: seq<PlayerData>): map<string, PlayerData>
    decreases |s|
  {
    if s == [] then view else Overlay(view, s[..|s| - 1])[s[|s| - 1].id := s[|s| - 1]]
  }

  /**
   * After the overlay, exactly the old ids and the listed ids are present;
   * a listed id holds its last listed record; any other id keeps its record.
   */
  lemma {:induction false} OverlayLookup(view: map<string, PlayerData>, s: seq<PlayerData>, k: string)
    ensures k in Overlay(view, s) <==> k in view || HasId(s, k)
    ensures !HasId(s, k) && k in view ==> Overlay(view, s)[k] == view[k]
    ensures HasId(s, k) ==> exists i :: 0 <= i < |s| && s[i].id == k && Overlay(view, s)[k] == s[i]
                                       && forall j :: i < j < |s| ==> s[j].id != k
    decreases |s|
  {
    if s != [] {
      var init, last := s[..|s| - 1], s[|s| - 1];
      OverlayLookup(view, init, k);
      assert HasId(s, k) <==> HasId(init, k) || last.id == k by {
        if HasId(s, k) && last.id != k {
          var i :| 0 <= i < |s| && s[i].id == k;
          assert init[i] == s[i];
        }
        if HasId(init, k) {
          var i :| 0 <= i < |init| && init[i].id == k;
          assert s[i] == init[i];
        }
      }
      if last.id == k {
        assert s[|s| - 1].id == k && Overlay(view, s)[k] == s[|s| - 1];
      } else if HasId(init, k) {
        var i :| 0 <= i < |init| && init[i].id == k && Overlay(view, init)[k] == init[i]
                 && forall j :: i < j < |init| ==> init[j].id != k;
        assert s[i] == init[i];
        assert forall j :: i < j < |s| ==> s[j].id != k by {
          forall j | i < j < |s| ensures s[j].id != k {
            if j < |init| { assert s[j] == init[j]; }
          }
        }
      }
    }
  }

  /**
   * When the server's dictionary reaches the client as `playersList`, the
   * client's records agree with the server's for every id the server has,
   * in whatever order `Object.values` lists them.
   */
  lemma PlayersListMirrorsServer(view: map<string, PlayerData>, server: map<string, PlayerData>, s: seq<PlayerData>)
    requires Server.KeyedById(server)
    requires forall i :: 0 <= i < |s| ==> s[i].id in server && server[s[i].id] == s[i]
    requires forall k :: k in server ==> HasId(s, k)
    ensures Overlay(view, s) == view + server
  {
    var r := Overlay(view, s);
    forall k ensures k in r <==> k in view + server {
      OverlayLookup(view, s, k);
      if HasId(s, k) {
        var i :| 0 <= i < |s| && s[i].id == k;
      }
    }
    forall k | k in r ensures r[k] == (view + server)[k] {
      OverlayLookup(view, s, k);
    }
  }

  /** The records after `newPlayer`: an id already present gets the new `x` and `y`. */
  function NewPlayerView(view: map<string, PlayerData>, playerData: PlayerData): (r: map<string, PlayerData>)
    ensures r.Keys == view.Keys
    ensures forall k :: k in view ==> r[k].score == view[k].score && r[k].id == view[k].id
    ensures playerData.id in view ==> r[playerData.id].x == playerData.x && r[playerData.id].y == playerData.y
    ensures forall k :: k in view && k != playerData.id ==> r[k] == view[k]
  {
    if playerData.id in view
    then view[playerData.id := view[playerData.id].(x := playerData.x, y := playerData.y)]
    else view
  }

  /** A `newPlayer` notice for an id the client does not hold is dropped: the new player is not added. */
  lemma NewPlayerIgnoresUnknown(view: map<string, PlayerData>, playerData: PlayerData)
    requires playerData.id !in view
    ensures NewPlayerView(view, playerData) == view
  {
  }

  /** The move a keydown asks for, if any: arrows and `w`/`a`/`s`/`d`. */
  function KeyDirection(key: string): (dir: Option<string>)
    ensures dir.Some? ==> Players.IsDirection(dir.value)
    ensures dir == Some("right") <==> key == "ArrowRight" || key == "d"
    ensures dir == Some("left") <==> key == "ArrowLeft" || key == "a"
    ensures dir == Some("up") <==> key == "ArrowUp" || key == "w"
    ensures dir == Some("down") <==> key == "ArrowDown" || key == "s"
    ensures dir == None <==> key !in {"ArrowRight", "d", "ArrowLeft", "a", "ArrowUp", "w", "ArrowDown", "s"}
  {
    if key == "ArrowRight" || key == "d" then Some("right")
    else if key == "ArrowLeft" || key == "a" then Some("left")
    else if key == "ArrowUp" || key == "w" then Some("up")
    else if key == "ArrowDown" || key == "s" then Some("down")
    else None
  }

  /**
   * Every move a key sends changes the sender's position on the server by
   * exactly 5 along one axis; a move the server cannot tell from a no-op is
   * never sent.
   */
  lemma SentMoveMoves(players: map<string, PlayerData>, id: string, key: string)
    requires id in players && KeyDirection(key).Some?
    ensures var q := Server.AfterMove(players, id, KeyDirection(key).value)[id];
            var p := players[id];
            (q.x == p.x && (q.y - p.y == Server.Speed || p.y - q.y == Server.Speed))
            || (q.y == p.y && (q.x - p.x == Server.Speed || p.x - q.x == Server.Speed))
  {
  }

  /** Each of the four directions has its arrow key and its letter key. */
  lemma EveryDirectionHasKeys(dir: string)
    requires Players.IsDirection(dir)
    ensures exists arrow, letter :: arrow != letter && KeyDirection(arrow) == Some(dir) && KeyDirection(letter) == Some(dir)
  {
    if dir == "right" {
      assert KeyDirection("ArrowRight") == Some(dir) && KeyDirection("d") == Some(dir);
    } else if dir == "left" {
      assert KeyDirection("ArrowLeft") == Some(dir) && KeyDirection("a") == Some(dir);
    } else if dir == "up" {
      assert KeyDirection("ArrowUp") == Some(dir) && KeyDirection("w") == Some(dir);
    } else {
      assert KeyDirection("ArrowDown") == Some(dir) && KeyDirection("s") == Some(dir);
    }
  }

  class Client {
    var allPlayers: map<string, Players.Player>
    var myPlayer: Players.Player?

    /** Each object sits under its own id (so no object sits under two ids). */
    ghost predicate Valid()
      reads this, allPlayers.Values
    {
      forall k | k in allPlayers :: allPlayers[k].id == k
    }

    /** The records the client currently holds. */
    ghost function View(): map<string, PlayerData>
      reads this, allPlayers.Values
    {
      map k | k in allPlayers :: allPlayers[k].Data()
    }

    constructor ()
      ensures Valid() && allPlayers == map[] && myPlayer == null
    {
      allPlayers := map[];
      myPlayer := null;
    }

    /**
     * `playersList`: a new `Player` for every listed record; `myPlayer` becomes
     * the one whose id is this client's socket id `socketId`, if listed.
     */
    method OnPlayersList(players: seq<PlayerData>, socketId: string)
      requires Valid()
      modifies this
      ensures Valid()
      ensures View() == Overlay(old(View()), players)
      ensures HasId(players, socketId) ==> socketId in allPlayers && myPlayer == allPlayers[socketId]
      ensures !HasId(players, socketId) ==> myPlayer == old(myPlayer)
      ensures forall k :: k in allPlayers && HasId(players, k) ==> fresh(allPlayers[k])
      ensures forall k :: k in old(allPlayers) && !HasId(players, k) ==> k in allPlayers && allPlayers[k] == old(allPlayers[k])
    {
      var i := 0;
      while i < |players|
        invariant 0 <= i <= |players|
        invariant Valid()
        invariant View() == Overlay(old(View()), players[..i])
        invariant HasId(players[..i], socketId) ==> socketId in allPlayers && myPlayer == allPlayers[socketId]
        invariant !HasId(players[..i], socketId) ==> myPlayer == old(myPlayer)
        invariant forall k :: k in allPlayers && HasId(players[..i], k) ==> fresh(allPlayers[k])
        invariant forall k :: k in old(allPlayers) && !HasId(players[..i], k) ==> k in allPlayers && allPlayers[k] == old(allPlayers[k])
      {
        StorePlayer(players[i], socketId);
        assert players[..i + 1][..i] == players[..i];
        HasIdSnoc(players[..i], players[i]);
        assert players[..i + 1] == players[..i] + [players[i]];
        i := i + 1;
      }
      assert players[..i] == players;
    }

    /** One step of the `forEach`: a new `Player` for `playerData`, stored under its id. */
    method StorePlayer(playerData: PlayerData, socketId: string)
      requires Valid()
      modifies this
      ensures Valid()
      ensures playerData.id in allPlayers && fresh(allPlayers[playerData.id])
      ensures allPlayers.Keys == old(allPlayers).Keys + {playerData.id}
      ensures forall k :: k in old(allPlayers) && k != playerData.id ==> allPlayers[k] == old(allPlayers[k])
      ensures View() == old(View())[playerData.id := playerData]
      ensures myPlayer == if playerData.id == socketId then allPlayers[socketId] else old(myPlayer)
    {
      var player := new Players.Player(playerData);
      ghost var before := View();
      allPlayers := allPlayers[playerData.id := player];
      assert View() == before[playerData.id := playerData];
      if playerData.id == socketId {
        myPlayer := allPlayers[playerData.id];
      }
    }

    /** `newPlayer`: only a player the client already holds gets the new `x` and `y`. */
    method OnNewPlayer(playerData: PlayerData)
      requires Valid()
      modifies if playerData.id in allPlayers then {allPlayers[playerData.id]} else {}
      ensures Valid()
      ensures allPlayers == old(allPlayers) && myPlayer == old(myPlayer)
      ensures View() == NewPlayerView(old(View()), playerData)
    {
      if playerData.id in allPlayers {
        var player := allPlayers[playerData.id];
        player.x := playerData.x;
        player.y := playerData.y;
      }
    }

    /** `playerDisconnected`: the id's entry goes; `myPlayer` is left as it was. */
    method OnPlayerDisconnected(playerId: string)
      requires Valid()
      modifies this
      ensures Valid()
      ensures allPlayers == old(allPlayers) - {playerId} && myPlayer == old(myPlayer)
      ensures View() == old(View()) - {playerId}
    {
      allPlayers := allPlayers - {playerId};
    }

    /** A keydown: the `movePlayer` direction it sends, or None; nothing before `myPlayer` is set. */
    method OnKeyDown(key: string) returns (sent: Option<string>)
      ensures myPlayer == null ==> sent == None
      ensures myPlayer != null ==> sent == KeyDirection(key)
    {
      if myPlayer == null {
        return None;
      }
      if key == "ArrowRight" || key == "d" {
        sent := Some("right");
      } else if key == "ArrowLeft" || key == "a" {
        sent := Some("left");
      } else if key == "ArrowUp" || key == "w" {
        sent := Some("up");
      } else if key == "ArrowDown" || key == "s" {
        sent := Some("down");
      } else {
        sent := None;
      }
    }
  }

  lemma HasIdSnoc(s: seq<PlayerData>, p: PlayerData)
    ensures forall k :: HasId(s + [p], k) <==> HasId(s, k) || p.id == k
  {
    forall k ensures HasId(s + [p], k) <==> HasId(s, k) || p.id == k {
      if HasId(s, k) {
        var i :| 0 <= i < |s| && s[i].id == k;
        assert (s + [p])[i] == s[i];
      }
      if HasId(s + [p], k) && p.id != k {
        var i :| 0 <= i < |s + [p]| && (s + [p])[i].id == k;
        assert s[i] == (s + [p])[i];
      }
      if p.id == k {
        assert (s + [p])[|s|] == p;
      }
    }
  }
}
