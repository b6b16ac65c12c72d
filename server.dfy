/**
 * The server's `players` dictionary, keyed by socket id, and the three
 * socket handlers that change it: connection, `movePlayer` and
 * `disconnect`. Each emit is returned to the caller as a value.
 */
module Server {
  import opened Records
  import Players

  /** `const speed = 5` in the move handler. */
  const Speed := 5

  /** `Math.floor(Math.random() * 500)` lies in [0, FieldSize). */
  const FieldSize := 500

  /** Every entry is stored under its own id. */
  predicate KeyedById(players: map<string, PlayerData>) {
    forall k | k in players :: players[k].id == k
  }

  /** Every score is 0: no handler of the server ever changes a score. */
  predicate ScoresZero(players: map<string, PlayerData>) {
    forall k | k in players :: players[k].score == 0
  }

  /** The record a connection creates, given the two random coordinates. */
  function NewPlayer(id: string, rx: int, ry: int): (p: PlayerData)
    requires 0 <= rx < FieldSize && 0 <= ry < FieldSize
    ensures p.id == id && p.score == 0
    ensures 0 <= p.x < FieldSize && 0 <= p.y < FieldSize
  {
    PlayerData(rx, ry, 0, id)
  }

  /** `players[socket.id] = newPlayer`. */
  function AfterConnect(players: map<string, PlayerData>, id: string, rx: int, ry: int): (r: map<string, PlayerData>)
    requires 0 <= rx < FieldSize && 0 <= ry < FieldSize
    ensures r.Keys == players.Keys + {id}
    ensures r[id] == NewPlayer(id, rx, ry)
    ensures forall k :: k in players && k != id ==> r[k] == players[k]
  {
    players[id := NewPlayer(id, rx, ry)]
  }

  /** The move handler: only the mover's entry changes, as `Player.movePlayer(direction, 5)` would change it. */
  function AfterMove(players: map<string, PlayerData>, id: string, direction: string): (r: map<string, PlayerData>)
    requires id in players
    ensures r.Keys == players.Keys
    ensures r[id] == Players.Moved(players[id], direction, Speed)
    ensures forall k :: k in players && k != id ==> r[k] == players[k]
  {
    players[id := Players.Moved(players[id], direction, Speed)]
  }

  /** `delete players[socket.id]`. */
  function AfterDisconnect(players: map<string, PlayerData>, id: string): (r: map<string, PlayerData>)
    ensures r.Keys == players.Keys - {id}
    ensures forall k :: k in r ==> r[k] == players[k]
  {
    players - {id}
  }

  /** Deleting an absent key changes nothing, so a repeated disconnect is harmless. */
  lemma DisconnectIdempotent(players: map<string, PlayerData>, id: string)
    ensures id !in players ==> AfterDisconnect(players, id) == players
    ensures AfterDisconnect(AfterDisconnect(players, id), id) == AfterDisconnect(players, id)
  {
  }

  /** One handler call, as the server sees it. */
  datatype Event =
    | Connect(id: string, rx: int, ry: int)
    | Move(id: string, direction: string)
    | Disconnect(id: string)

  /** What a handler needs: random coordinates in range, a mover that is connected. */
  predicate Enabled(players: map<string, PlayerData>, e: Event) {
    match e
    case Connect(_, rx, ry) => 0 <= rx < FieldSize && 0 <= ry < FieldSize
    case Move(id, _) => id in players
    case Disconnect(_) => true
  }

  function Apply(players: map<string, PlayerData>, e: Event): map<string, PlayerData>
    requires Enabled(players, e)
  {
    match e
    case Connect(id, rx, ry) => AfterConnect(players, id, rx, ry)
    case Move(id, direction) => AfterMove(players, id, direction)
    case Disconnect(id) => AfterDisconnect(players, id)
  }

  /** Every event of the run is enabled when it happens. */
  predicate Replayable(players: map<string, PlayerData>, events: seq<Event>)
    decreases |events|
  {
    events == [] || (Enabled(players, events[0]) && Replayable(Apply(players, events[0]), events[1..]))
  }

  /** The dictionary after handling `events` in order. */
  function Replay(players: map<string, PlayerData>, events: seq<Event>): map<string, PlayerData>
    requires Replayable(players, events)
    decreases |events|
  {
    if events == [] then players else Replay(Apply(players, events[0]), events[1..])
  }

  /** Over any run, entries stay keyed by their own id and every score stays 0. */
  lemma {:induction false} ReplayPreservesInvariant(players: map<string, PlayerData>, events: seq<Event>)
    requires Replayable(players, events)
    requires KeyedById(players) && ScoresZero(players)
    ensures KeyedById(Replay(players, events)) && ScoresZero(Replay(players, events))
    decreases |events|
  {
    if events != [] {
      ReplayPreservesInvariant(Apply(players, events[0]), events[1..]);
    }
  }

  /** An entry that no event of the run names is still there, unchanged. */
  lemma {:induction false} ReplayLeavesOthers(players: map<string, PlayerData>, events: seq<Event>, k: string)
    requires Replayable(players, events)
    requires k in players
    requires forall i :: 0 <= i < |events| ==> events[i].id != k
    ensures k in Replay(players, events) && Replay(players, events)[k] == players[k]
    decreases |events|
  {
    if events != [] {
      assert events[0].id != k;
      ReplayLeavesOthers(Apply(players, events[0]), events[1..], k);
    }
  }

  /** `n` moves of `id` in direction `direction`. */
  function Moves(id: string, direction: string, n: nat): (r: seq<Event>)
    ensures |r| == n
  {
    if n == 0 then [] else [Move(id, direction)] + Moves(id, direction, n - 1)
  }

  /** Each `right` adds 5 to `x`; nothing stops at the field's edge. */
  lemma {:induction false} RepeatedRightMoves(players: map<string, PlayerData>, id: string, n: nat)
    requires id in players
    ensures Replayable(players, Moves(id, "right", n))
    ensures id in Replay(players, Moves(id, "right", n))
    ensures Replay(players, Moves(id, "right", n))[id] == players[id].(x := players[id].x + Speed * n)
  {
    if n > 0 {
      var next := AfterMove(players, id, "right");
      RepeatedRightMoves(next, id, n - 1);
      assert Moves(id, "right", n)[1..] == Moves(id, "right", n - 1);
    }
  }

  /** No bounds are enforced: 100 moves right take any player on the field to x >= 500. */
  lemma RightMovesLeaveField(players: map<string, PlayerData>, id: string)
    requires id in players && 0 <= players[id].x
    ensures Replayable(players, Moves(id, "right", 100))
    ensures id in Replay(players, Moves(id, "right", 100))
    ensures Replay(players, Moves(id, "right", 100))[id].x >= FieldSize
  {
    RepeatedRightMoves(players, id, 100);
  }

  /** The dictionary the handlers share. */
  class GameServer {
    var players: map<string, PlayerData>

    ghost predicate Valid()
      reads this
    {
      KeyedById(players) && ScoresZero(players)
    }

    constructor ()
      ensures Valid() && players == map[]
    {
      players := map[];
    }

    /**
     * A connection: stores a fresh record at random coordinates `rx`, `ry`,
     * then sends the whole dictionary to the new socket (`playersList`) and
     * the new record to the others (`newPlayer`).
     */
    method OnConnection(socketId: string, rx: int, ry: int) returns (playersList: map<string, PlayerData>, newPlayer: PlayerData)
      requires Valid()
      requires 0 <= rx < FieldSize && 0 <= ry < FieldSize
      modifies this
      ensures Valid()
      ensures players == AfterConnect(old(players), socketId, rx, ry)
      ensures playersList == players && newPlayer == players[socketId]
    {
      newPlayer := PlayerData(rx, ry, 0, socketId);
      players := players[socketId := newPlayer];
      playersList := players;
    }

    /** A `movePlayer` message from `socketId`; the updated record goes to everyone (`playerMoved`). */
    method OnMovePlayer(socketId: string, direction: string) returns (moved: PlayerData)
      requires Valid()
      requires socketId in players
      modifies this
      ensures Valid()
      ensures players == AfterMove(old(players), socketId, direction)
      ensures moved == players[socketId]
    {
      var speed := Speed;
      var p := players[socketId];
      if direction == "right" {
        p := p.(x := p.x + speed);
      } else if direction == "left" {
        p := p.(x := p.x - speed);
      } else if direction == "up" {
        p := p.(y := p.y - speed);
      } else if direction == "down" {
        p := p.(y := p.y + speed);
      }
      players := players[socketId := p];
      moved := players[socketId];
    }

    /** A disconnect: the entry is deleted and its id goes to the others (`playerDisconnected`). */
    method OnDisconnect(socketId: string) returns (left: string)
      requires Valid()
      modifies this
      ensures Valid()
      ensures players == AfterDisconnect(old(players), socketId)
      ensures left == socketId
    {
      players := players - {socketId};
      left := socketId;
    }
  }
}
