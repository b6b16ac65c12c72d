/**
 * The plain player record `{x, y, score, id}`: what the server stores per
 * connection, what it sends in `playersList` and `newPlayer`, what the
 * `Player` constructor is given, and what `calculateRank` sorts.
 */
module Records {
  /** A player's position, score and connection id. */
  datatype PlayerData = PlayerData(x: int, y: int, score: int, id: string)

  /** Some entry of `s` has the id `id`. */
  predicate HasId(s: seq<PlayerData>, id: string) {
    exists k :: 0 <= k < |s| && s[k].id == id
  }

  /** A point on the playing field. Of an item, `collision` reads only `x` and `y`. */
  datatype Position = Position(x: int, y: int)
}
