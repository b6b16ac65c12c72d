/**
 * The `Player` class of the browser client: a player record whose position
 * `movePlayer` changes in place, an exact collision test, and
 * `calculateRank`, which sorts the caller's array and reports a rank.
 */
module Players {
  import opened Records
  import Ranking

  /** The four direction names `movePlayer` acts on. */
  predicate IsDirection(dir: string) {
    dir == "right" || dir == "left" || dir == "up" || dir == "down"
  }

  /** The direction that undoes `dir`. */
  function Opposite(dir: string): (r: string)
    requires IsDirection(dir)
    ensures IsDirection(r) && r != dir
  {
    match dir
    case "right" => "left"
    case "left" => "right"
    case "up" => "down"
    case _ => "up"
  }

  /**
   * The record after `movePlayer(dir, speed)`: `right`/`left` add/subtract
   * `speed` to `x`, `up`/`down` subtract/add it to `y` (the screen's y axis
   * points down), any other name changes nothing.
   */
  function Moved(p: PlayerData, dir: string, speed: int): (q: PlayerData)
    ensures q.score == p.score && q.id == p.id
    ensures !IsDirection(dir) ==> q == p
    ensures dir == "right" || dir == "left" ==> q.y == p.y
    ensures dir == "up" || dir == "down" ==> q.x == p.x
  {
    if dir == "right" then p.(x := p.x + speed)
    else if dir == "left" then p.(x := p.x - speed)
    else if dir == "up" then p.(y := p.y - speed)
    else if dir == "down" then p.(y := p.y + speed)
    else p
  }

  /** A move followed by the opposite move at the same speed restores the record. */
  lemma MoveThenOpposite(p: PlayerData, dir: string, speed: int)
    requires IsDirection(dir)
    ensures Moved(Moved(p, dir, speed), Opposite(dir), speed) == p
  {
  }

  /** The record after the moves `dirs`, made in order at one speed. */
  function MovedAll(p: PlayerData, dirs: seq<string>, speed: int): PlayerData
    decreases dirs
  {
    if dirs == [] then p else MovedAll(Moved(p, dirs[0], speed), dirs[1..], speed)
  }

  /** How many of `dirs` are `dir`. */
  function Count(dirs: seq<string>, dir: string): nat
  {
    if dirs == [] then 0 else (if dirs[0] == dir then 1 else 0) + Count(dirs[1..], dir)
  }

  /**
   * After any sequence of moves the position is determined by how many of each
   * direction there were, whatever their order; nothing bounds it, and the
   * score and id never change.
   */
  lemma {:induction false} MovedAllDisplacement(p: PlayerData, dirs: seq<string>, speed: int)
    ensures MovedAll(p, dirs, speed).x == p.x + speed * (Count(dirs, "right") - Count(dirs, "left"))
    ensures MovedAll(p, dirs, speed).y == p.y + speed * (Count(dirs, "down") - Count(dirs, "up"))
    ensures MovedAll(p, dirs, speed).score == p.score && MovedAll(p, dirs, speed).id == p.id
    decreases dirs
  {
    if dirs != [] {
      var q := Moved(p, dirs[0], speed);
      MovedAllDisplacement(q, dirs[1..], speed);
      var r1: int, l1: int := Count(dirs[1..], "right"), Count(dirs[1..], "left");
      var d1: int, u1: int := Count(dirs[1..], "down"), Count(dirs[1..], "up");
      assert speed * (Count(dirs, "right") - Count(dirs, "left")) == (q.x - p.x) + speed * (r1 - l1) by {
        if dirs[0] == "right" {
          assert speed * (r1 + 1 - l1) == speed + speed * (r1 - l1);
        } else if dirs[0] == "left" {
          assert speed * (r1 - (l1 + 1)) == speed * (r1 - l1) - speed;
        }
      }
      assert speed * (Count(dirs, "down") - Count(dirs, "up")) == (q.y - p.y) + speed * (d1 - u1) by {
        if dirs[0] == "down" {
          assert speed * (d1 + 1 - u1) == speed + speed * (d1 - u1);
        } else if dirs[0] == "up" {
          assert speed * (d1 - (u1 + 1)) == speed * (d1 - u1) - speed;
        }
      }
    }
  }

  /** `collision`: the player's point is the item's point, with no tolerance. */
  predicate SamePoint(p: PlayerData, item: Position) {
    p.x == item.x && p.y == item.y
  }

  /** A player standing on an item no longer touches it after any move of nonzero speed. */
  lemma MoveLeavesItem(p: PlayerData, item: Position, dir: string, speed: int)
    requires SamePoint(p, item) && IsDirection(dir) && speed != 0
    ensures !SamePoint(Moved(p, dir, speed), item)
  {
  }

  class Player {
    var x: int
    var y: int
    var score: int
    var id: string

    /** The record this object holds. */
    function Data(): PlayerData
      reads this
    {
      PlayerData(x, y, score, id)
    }

    /** Stores `x`, `y`, `score` and `id` exactly as given. */
    constructor (data: PlayerData)
      ensures Data() == data
    {
      x := data.x;
      y := data.y;
      score := data.score;
      id := data.id;
    }

    method MovePlayer(dir: string, speed: int)
      modifies this
      ensures Data() == Moved(old(Data()), dir, speed)
    {
      if dir == "right" {
        x := x + speed;
      } else if dir == "left" {
        x := x - speed;
      } else if dir == "up" {
        y := y - speed;
      } else if dir == "down" {
        y := y + speed;
      }
    }

    function Collision(item: Position): (r: bool)
      reads this
      ensures r <==> SamePoint(Data(), item)
    {
      x == item.x && y == item.y
    }

    /**
     * Sorts `arr` (the caller's array) by descending score and reports this
     * player's 1-based rank in it, 0 when its id is absent, over `arr.Length`.
     */
    method CalculateRank(arr: array<PlayerData>) returns (text: string)
      modifies arr
      ensures arr[..] == Ranking.SortByScore(old(arr[..]))
      ensures text == Ranking.RankText(Ranking.Rank(old(arr[..]), id), arr.Length)
    {
      Ranking.SortByScoreInPlace(arr);
      var playerIndex := Ranking.FindIndex(arr, id);
      var rank := playerIndex + 1;
      text := Ranking.RankText(rank, arr.Length);
    }
  }
}
