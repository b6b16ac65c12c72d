# Player-state bookkeeping of a real-time multiplayer prototype

This project models the player bookkeeping of a small browser game, `secure-real-time-multiplayer-game`. It also proves properties of that model. The game has three parts that share one record shape, `{x, y, score, id}`:

- **`Player` class** (`public/Player.mjs`). A player record whose position `movePlayer` changes in place by `speed` in one of four named directions. `collision` tests whether the player's point is exactly an item's point. `calculateRank` sorts the caller's array by descending score, finds this player's id with `findIndex`, and returns `Rank: r / n`.
- **Server registry** (`server.js`). The `players` dictionary, keyed by socket id. The connection handler inserts a record with score 0 at a random integer point in [0, 500)². The `movePlayer` handler moves the sender by a fixed speed of 5. The `disconnect` handler deletes the sender's entry.
- **Client mirror** (`public/game.mjs`). The `allPlayers` dictionary of `Player` objects and the `myPlayer` reference. They are updated by the `playersList`, `newPlayer` and `playerDisconnected` handlers. The keydown handler maps arrow keys and `w`/`a`/`s`/`d` to the direction it sends.

Modules follow the program:

- `Records`: the shared record.
- `Players`: `Player.mjs`.
- `Ranking`: the sort, `findIndex` and the rank text of `calculateRank`.
- `Decimal`: the decimal text a template literal writes for a non-negative integer.
- `Server`: `server.js`.
- `Client`: `game.mjs`.
- `Wrappers`: an `Option` type.

The model follows each source file's own form:

- `Player`, the server registry (`GameServer`) and the client mirror (`Client`) are classes whose methods change their fields. Each method's `ensures` ties the new state to a pure function of the old state. The lemmas are proved about those functions.
- The sort runs in place on an `array`. The method is proved equal to `SortByScore`, a stable insertion sort. ECMAScript 2019 and later require `Array.prototype.sort` to be stable, so for a given input the sorted order is fully determined. `SortByScore` is then proved to be a non-increasing permutation of its input.
- Handler inputs are parameters: the socket id, the message payload, and the two values `Math.floor(Math.random() * 500)` yields. Each emit is a returned value.

The code is client-authoritative. It has no collectibles logic, tick loop, clamping to the field, per-tick deltas or ownership checks, and the model adds none of them. In particular the server enforces no bounds, and `RightMovesLeaveField` proves that a player can leave the field.

Two behaviours of the code are modelled as written:

- The `newPlayer` handler updates only ids the client already holds. So a player who joins after this client is never added to its dictionary (`NewPlayerIgnoresUnknown`).
- The client registers no handler for the server's `playerMoved` broadcast. Its effect on the client is therefore not modelled.

## Model

| member | source | states |
|---|---|---|
| `Players.Player.constructor` | public/Player.mjs:2-8 | The new object holds `x`, `y`, `score` and `id` exactly as given. |
| `Players.Moved` | public/Player.mjs:10-21 | A move never changes `score` or `id`. `right`/`left` leave `y` alone and `up`/`down` leave `x` alone. Any other direction name changes nothing. |
| `Players.Player.MovePlayer` | public/Player.mjs:10-21 | The object's record after the call is `Moved(old record, dir, speed)`, so only `x` or `y` changes, by `speed`, in place. |
| `Players.MoveThenOpposite` | public/Player.mjs:11-18 | A move followed by the opposite move at the same speed restores the record. |
| `Players.MovedAllDisplacement` | public/Player.mjs:10-21 | After any sequence of moves, `x` is offset by speed × (#right − #left) and `y` by speed × (#down − #up). The order does not matter, nothing bounds the result, and score and id are unchanged. |
| `Players.Player.Collision` | public/Player.mjs:23-26 | True exactly when the player's `x` and `y` equal the item's, with no tolerance. |
| `Players.MoveLeavesItem` | public/Player.mjs:23-26 | A player on an item stops colliding with it after any move of nonzero speed, because equality is exact. |
| `Players.Player.CalculateRank` | public/Player.mjs:29-41 | The caller's array becomes the stable descending-score sort of its old contents. The text is `Rank: r / n`, where r is 1 + the first index of this id in the sorted array (0 if absent) and n is the array's length. |
| `Ranking.SortByScoreInPlace` | public/Player.mjs:31 | After the in-place sort, the array equals `SortByScore` of its old contents. |
| `Ranking.InsertAt` | public/Player.mjs:31 | One insertion step: the prefix up to i becomes `InsertByScore` of the old prefix and old `a[i]`. Later elements are untouched. |
| `Ranking.InsertByScorePermutes` | public/Player.mjs:31 | Inserting adds exactly one element: the multiset grows by that element. |
| `Ranking.InsertByScoreSorted` | public/Player.mjs:31 | Inserting into a non-increasing sequence keeps it non-increasing. |
| `Ranking.SortByScoreCorrect` | public/Player.mjs:31 | The sort is non-increasing by score, is a permutation (same multiset) of its input, and has the same length, so `arr.length` is unchanged. |
| `Ranking.SortByScoreOfSorted` | public/Player.mjs:31 | An array already in non-increasing score order is left exactly as it is, because the sort is stable. |
| `Ranking.SortByScoreIdempotent` | public/Player.mjs:31 | Sorting twice gives the same result as sorting once. |
| `Ranking.FirstIndexOf` | public/Player.mjs:34 | The result is −1 exactly when no element has the id. Otherwise it is an index holding the id, before which no element has it. |
| `Ranking.FindIndex` | public/Player.mjs:34 | The linear search returns `FirstIndexOf` of the array. |
| `Ranking.RankBounds` | public/Player.mjs:34-37 | A present id has rank 1 ≤ r ≤ \|arr\|, and the sorted array holds the id at r − 1. An absent id has rank 0. |
| `Ranking.RankTextRoundTrip` | public/Player.mjs:39 | The text `Rank: r / n` parses back to exactly (r, n). |
| `Decimal.NatToString` | public/Player.mjs:39 | The decimal text of a number is non-empty, all digits, and has no leading zero. |
| `Decimal.DigitsValueOfNatToString` | public/Player.mjs:39 | Reading a number's decimal text back gives the number. |
| `Decimal.NatToStringInjective` | public/Player.mjs:39 | Different numbers have different texts. |
| `Server.NewPlayer` | server.js:87-92 | A new record has the connection's id, score 0, and `x`, `y` in [0, 499]. |
| `Server.AfterConnect` | server.js:94 | After connect, the id holds the new record and every other entry is unchanged. |
| `Server.GameServer.constructor` | server.js:82 | The server starts with an empty dictionary. |
| `Server.GameServer.OnConnection` | server.js:84-100 | The dictionary becomes `AfterConnect` of the old one, keeping every entry keyed by its own id with score 0. The new socket gets the whole dictionary and the others get the new record. |
| `Server.AfterMove` | server.js:103-115 | Only the mover's entry changes, and it becomes `Moved(entry, direction, 5)`. The key set is unchanged. |
| `Server.GameServer.OnMovePlayer` | server.js:103-119 | The handler's own branch chain yields `AfterMove`, which is what `Player.movePlayer(direction, 5)` gives. The moved record is broadcast. |
| `Server.AfterDisconnect` | server.js:124 | Exactly the key `socket.id` is removed, and all other entries stay as they were. |
| `Server.DisconnectIdempotent` | server.js:124 | Deleting an absent key changes nothing, so a second disconnect is a no-op. |
| `Server.GameServer.OnDisconnect` | server.js:122-126 | The dictionary becomes `AfterDisconnect` of the old one, and the id is broadcast. |
| `Server.ReplayPreservesInvariant` | server.js:84-126 | Over any run of connect, move and disconnect events, entries stay keyed by their own id and every score stays 0: no handler changes a score. |
| `Server.ReplayLeavesOthers` | server.js:103-126 | An entry that no event of a run names is still present and unchanged. |
| `Server.RepeatedRightMoves` | server.js:105-108 | n `right` moves add exactly 5n to `x` and change nothing else. |
| `Server.RightMovesLeaveField` | server.js:107-115 | No bounds are enforced: 100 `right` moves take any player on the field to x ≥ 500. |
| `Client.OverlayLookup` | public/game.mjs:14-21 | After storing the listed records, exactly the old and listed ids are present. A listed id holds its last listed record, and any other id keeps its old record. |
| `Client.PlayersListMirrorsServer` | public/game.mjs:13-21 | When the listed values are the server's dictionary, in any order, the client's records become its old records overridden by the server's. |
| `Client.Client.constructor` | public/game.mjs:8-9 | The client starts with an empty dictionary and `myPlayer` null. |
| `Client.Client.OnPlayersList` | public/game.mjs:13-27 | The held records become the overlay of the payload, and every listed id gets a fresh `Player`. An id not listed keeps its very object, so references to it (such as `myPlayer`) still alias the entry. `myPlayer` becomes the entry with the own socket id if it is listed; otherwise it keeps its previous value. |
| `Client.Client.StorePlayer` | public/game.mjs:15-24 | One `forEach` step: the record's id now holds a fresh `Player` with exactly that record, and every other entry keeps its object. `myPlayer` is set to the new object exactly when the id is the own socket id. |
| `Client.NewPlayerView` | public/game.mjs:30-35 | No id is inserted or removed, and no score or id changes. A held id gets the payload's `x` and `y`, and every other entry is unchanged. |
| `Client.NewPlayerIgnoresUnknown` | public/game.mjs:31 | A `newPlayer` notice for an id not held changes nothing. |
| `Client.Client.OnNewPlayer` | public/game.mjs:30-35 | The held records become `NewPlayerView` of the old ones. Only the named object is written, and `myPlayer` still points to the same object. |
| `Client.Client.OnPlayerDisconnected` | public/game.mjs:38-40 | Only the given id is removed. `myPlayer` is not cleared. |
| `Client.KeyDirection` | public/game.mjs:46-54 | `ArrowRight`/`d` send `right`, `ArrowLeft`/`a` send `left`, `ArrowUp`/`w` send `up` and `ArrowDown`/`s` send `down`, each as an if-and-only-if. Every other key sends nothing, and whatever is sent is a direction the server acts on. |
| `Client.Client.OnKeyDown` | public/game.mjs:43-55 | Nothing is sent while `myPlayer` is null. Otherwise the key's direction is sent, or nothing for any other key. |
| `Client.SentMoveMoves` | public/game.mjs:46-54 | Every move a key sends changes the sender's server position by exactly 5 along one axis. |
| `Client.EveryDirectionHasKeys` | public/game.mjs:46-54 | Each of the four directions is sent by two distinct keys. |

## Left out

- The Express middleware, security headers, static serving, CORS, the 404 handler, the test runner and `listen` (`server.js:1-79`). They are HTTP plumbing.
- socket.io transport, event registration and message delivery. Each emit is a returned value. The JSON serialisation of the dictionary is modelled as a sequence of its values in some order.
- `console.log` calls. They produce output only.
- `Math.random()`. The two coordinates are inputs in [0, 500), as `Math.floor(Math.random() * 500)` yields.
- A `movePlayer` message on the server for an id not in `players`. For the four direction names, the source would read a field of `undefined` and throw (`server.js:107-114`). For any other direction the if-chain does nothing, and `server.js:118` broadcasts `playerMoved` with `undefined` without failing. Neither behaviour is modelled: connection being in `players` is a precondition of `OnMovePlayer` and of `Enabled`.
- Canvas rendering, `drawGame` and `requestAnimationFrame` (`public/game.mjs:58-78`). They are UI.
- The Collectible module. It is not part of this model. Of an item, `collision` reads only `x` and `y`, so an item is a `Position`.
- JavaScript numbers are doubles. Coordinates, scores and speeds are modelled as unbounded integers. This is exact for the integer values the game produces below 2^53. Fractional or NaN scores in the sort comparator are not modelled.
- `Players.Player.CalculateRank`: the array's elements are modelled as record values, not object references. The sort only reorders them and never writes their fields, so only aliasing between the elements and other references is lost.
- `Ranking.ParseRankText` also accepts numbers with leading zeros. It exists only to state the round trip of the rank text.
