# GuessWho room and turn engine

A model of the server of a two-player "Guess Who" game. The server keeps every
game room ("party") in an in-memory table `parties`, keyed by a six-character
room code. Each party holds its players, keyed by socket id, with each player's
name, side (`A` for the creator, `B` for the joiner), secret character and
private marks. Each party also holds the current turn holder, the question
awaiting an answer, and whether the game has started.

The socket.io handlers change this table one event at a time:
- `create_party`, `join_party`, `choose_character`, `ask_question`,
  `answer_question`, `mark_character`, `guess_character`, `end_turn` and
  `disconnect`;
- the periodic sweep `cleanupEmptyParties`.

Each handler answers by emitting events to one socket or to a whole room.

The model has five modules:
- `Wrappers`: `Option`, which stands for `null`/`undefined`.
- `Roster`: the server's character list and the `find` lookup over it.
- `Players`: a party's players, kept as a sequence of records in the order
  `Object.keys` lists them, with the object operations the handlers use.
  These are lookup, assignment, `delete`, "the first other key" and pushing
  a mark.
- `Parties`: the party record, the emitted events, the table invariant, how a
  guess is resolved, and the table after a disconnect or a sweep.
- `Engine`: the class `Server`. It owns the `parties` table and an event
  log, and has one method per handler. Each method states the whole new
  table and the events it appends. Each handler method also keeps `Valid()`:
  - a party has one or two players, each socket once;
  - marks never repeat;
  - a started game has a turn holder;
  - a question is pending only in a started game;
  - the turn holder is a player, or a socket that has disconnected.

Randomness is passed in as arguments:
- the room code from `nanoid(6).toUpperCase()` is the `code` argument of
  `CreateParty`;
- the `Math.random` choice of the first player is the `pick < 2` argument of
  `ChooseCharacter`.

The server checks less than the game's rules suggest; the model follows the
code:
- `choose_character` accepts any id, and lets a player choose again. Every
  choice made while both players have chosen restarts the game with a new
  `game_start`.
- `ask_question` does not stop a second question in the same turn.
- `answer_question` does not check who answers.
- `guess_character` and `end_turn` do not check that the sender holds the
  turn.
- A wrong guess changes only `turn`. It does not clear a pending question.
- A guess is the display name. It is compared with the name of the roster
  entry for the opponent's chosen id, not with the id.
  `Parties.GuessByNameIsGuessById` shows the two agree when the roster
  repeats neither ids nor names.
- `party_update` sends whole player records, chosen ids included.
- `join_party` replaces the record of a socket that is already in the room
  with a fresh side-`B` record. A room whose creator left holds one side-`B`
  player, and the next joiner is also side `B`.
- There is no code-collision retry: a new party under an existing code
  overwrites the old one.
- `disconnect` scans every room.

## Model

| member | source | states |
|---|---|---|
| `Roster.Find` | server/server.js:208 | `CHARACTERS.find(c => c.id === id)`: the result is the first entry with that id, and it is absent exactly when no entry has the id |
| `Roster.FindEntry` | server/server.js:7-32 | when a roster repeats no id, looking up entry k's id finds entry k |
| `Players.IndexOf` | server/server.js:122-123 | `players[id]` exists exactly when some record has that id, and the index found is the first such record |
| `Players.Get` | server/server.js:184 | the record found for a present id carries that id and belongs to the party |
| `Players.Put` | server/server.js:101-107 | `players[id] = rec` keeps every other record and every key's position. A new key is appended at the end. Key distinctness is preserved |
| `Players.SetChosen` | server/server.js:125 | only the caller's record changes, and only its `chosen` field. Keys and order stay the same |
| `Players.Remove` | server/server.js:254 | `delete players[id]` removes exactly that key. Every other record is unchanged, and any two remaining keys keep their relative order. With distinct keys the count drops by one exactly when the key was present |
| `Players.OtherIndex` | server/server.js:154 | `Object.keys(players).find(k => k !== id)` is the first position whose key differs. It is absent exactly when every key equals `id` |
| `Players.OtherId` | server/server.js:198 | the other id is the FIRST key, in key order, that differs from the caller's id, so every key before it is the caller's. It is absent exactly when no player other than the caller exists |
| `Players.OtherOfPair` | server/server.js:240-243 | in a two-player party each player's "other" is the opponent, and the opponent's "other" is the player, so two turn hand-offs return the turn |
| `Players.AddMark` | server/server.js:187-189 | after marking, the character is present and nothing earlier is lost or reordered. Re-marking changes nothing, and a duplicate-free list stays duplicate-free |
| `Parties.PutKeepsInv` | server/server.js:125 | replacing a present player's record keeps the party invariant |
| `Parties.StartKeepsInv` | server/server.js:133-137 | starting the game with a player's id as the turn keeps the party invariant |
| `Parties.ClassifyGuess` | server/server.js:194-234 | a guess is resolved against the first other player's chosen id, looked up in the roster. The cases are: no opponent; unknown secret; correct (names the secret, sender is a player); wrong (a different name); and the sender-missing case |
| `Parties.GuessByNameIsGuessById` | server/server.js:208-214 | with distinct roster ids and names, guessing entry k's name is correct exactly when the opponent chose entry k's id |
| `Parties.OutsiderNamingSecretHasNoGuesser` | server/server.js:202-219 | a socket outside the party that names the first player's secret reaches the `guesser.name` read with no guesser |
| `Parties.OutsiderGuessExample` | server/server.js:219 | a concrete outsider guess on the server roster (player "a" chose `c1`, outsider "x" guesses "Chatterbox") lands in that case |
| `Parties.AfterDisconnect` | server/server.js:251-263 | after a disconnect no room holds the socket. Rooms without it are unchanged, a room it leaves empty is deleted, and any other room it was in loses only that player |
| `Parties.DisconnectKeepsInv` | server/server.js:247-264 | the table after a disconnect satisfies the invariant, with the socket added to the departed set |
| `Parties.Swept` | server/server.js:50-58 | the sweep keeps exactly the non-empty rooms, each unchanged, and deletes every empty room |
| `Parties.SweepFindsNothing` | server/server.js:50-58 | in any table the handlers can reach, the sweep removes nothing, because handlers never leave an empty room behind |
| `Engine.Server.constructor` | server/server.js:44 | the table and the event log start empty |
| `Engine.Server.CreateParty` | server/server.js:63-86 | the table gains, under `code`, a party holding exactly one side-A player (no choice, no marks) with no turn, no pending question and no started game. The log gains `party_created` to the caller, then `party_update` to the room |
| `Engine.Server.JoinParty` | server/server.js:88-116 | an unknown code acks "Party not found" and a room with 2 or more players acks "Party is full"; both change nothing. Otherwise a side-B record is put in, then `party_update`, the ok-ack and `need_choose_character` follow. No room ever exceeds two players |
| `Engine.Server.ChooseCharacter` | server/server.js:118-142 | a missing room or non-member changes nothing. Otherwise only the caller's `chosen` changes, and `party_update` is emitted. The game starts exactly when there are two players and both have chosen. The turn is then one of the two player ids, and `game_start` names it |
| `Engine.Server.AskQuestion` | server/server.js:144-166 | ignored when the room is missing or not started. A non-holder only gets "Not your turn". For the holder, the pending question becomes (holder, text), and `question_asked` goes to the other player and `question_sent` to the room when there is one |
| `Engine.Server.AnswerQuestion` | server/server.js:168-178 | does nothing without a pending question. Otherwise the question is cleared and `question_answered` and `allow_actions` go to the stored asker, whoever answered |
| `Engine.Server.MarkCharacter` | server/server.js:180-192 | only the caller's marks change, by `AddMark`, and the caller gets `marks_updated`. Marking something already marked leaves the table unchanged |
| `Engine.Server.GuessCharacter` | server/server.js:194-234 | a correct guess deletes the room and emits `game_over` with the guesser's name and the secret's name. A wrong guess makes the opponent the turn holder and emits `wrong_guess` to the guesser and `turn_changed` to the room. An unknown secret only emits the error. No opponent changes nothing |
| `Engine.Server.EndTurn` | server/server.js:236-245 | the turn passes to the first other player and `turn_changed` is emitted. It is a no-op when the room is missing or the sender is its only player |
| `Engine.Server.LeaveRoom` | server/server.js:252-262 | one loop step: the socket leaves the room, `player_left` is emitted, and the room is deleted when left empty |
| `Engine.Server.Disconnect` | server/server.js:247-264 | the table becomes `AfterDisconnect` of the old one. Each room the socket was in is told exactly once |
| `Engine.Server.CleanupEmptyParties` | server/server.js:50-58 | the table becomes `Swept` of the old one and nothing is emitted. From a valid state nothing changes |

## Left out

- Express, HTTP, CORS, the socket.io server, `socket.join`, transport delivery of `io.to(...).emit`, `console.log` and `server.listen`. Emits are appended to an event log with their audience (one socket or one room). Who is in a socket.io room is not modelled.
- `nanoid` and `Math.random`: the room code and the first-player index are arguments.
- The 30-minute `setInterval` timer: only the sweep it calls is modelled.
- Concurrency: Node runs one handler at a time, so each handler is one atomic method call.
- Payload types: names, character ids, questions, answers and guesses are strings. A missing `name` is the empty string, which takes the default name. A non-string payload (`undefined`, a number) is not modelled, so an absent `character` that would leave `chosen` falsy is only covered as the empty string.
- The roster's image file names: presentation only.
- Engine.Server.Disconnect: `for...in` visits rooms in insertion order. The model visits them in an unspecified order and returns that order as the ghost sequence `left`, so the order of the `player_left` events is stated through `left`.
- Engine.Server: every handler requires that the sending socket has not disconnected (the ghost set `gone`), since the transport delivers no events from a closed socket.
- The `parties` table is a map, so a room code that names a property inherited from `Object.prototype` (`constructor`, `toString`, `__proto__`, ...) is treated as an absent room. In the source, `parties[code]` then yields that inherited value. For such a code, `join_party` (server/server.js:96), `choose_character` (:122), `mark_character` (:184), `guess_character` (:198) and `end_turn` (:240) throw a TypeError, while `ask_question` and `answer_question` return. The shipped client upper-cases codes, so only another client can send one.
- Socket ids that look like array indices, which `Object.keys` would list first, are not modelled. Keys keep insertion order.

## Findings

| source | as written | input that shows it | evidently intended | confidence | as-written member | corrected member |
|---|---|---|---|---|---|---|
| server/server.js:202-219 | `guess_character` takes `guesser = party.players[socket.id]` without checking that it exists, then reads `guesser.name` when the guess is correct | a socket not in room R sends `guess_character` for R naming the secret of R's first player (player "a" chose `c1`, guess "Chatterbox"): `guesser` is `undefined` and the read throws a TypeError | a guess from a socket outside the room must not reach the winner announcement; the handler should leave the room and the log unchanged | medium, not executed | `Parties.OutsiderNamingSecretHasNoGuesser` | `Engine.Server.GuessCharacter` |
