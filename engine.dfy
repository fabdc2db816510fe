/**
 * The socket.io handlers of server/server.js as methods of one object that
 * owns the `parties` table.  Each handler runs to completion before the next
 * one starts (Node's event loop), so each is one method call.  Randomness
 * (the room code, the first player) comes in as arguments, and every emit is
 * appended to `log`.
 */
module Engine {
  import opened Wrappers
  import opened Roster
  import opened Players
  import opened Parties

  const DefaultCreatorName := "Player 1"
  const DefaultJoinerName := "Player 2"

  class Server {
    /** Where secrets are looked up; the server itself uses Roster.Characters. */
    const roster: seq<Character>
    /** The `parties` table (server/server.js:44). */
    var parties: map<Code, Party>
    /** Every emit and join acknowledgement, in the order the handlers send them. */
    var log: seq<Event>
    /** Sockets that have disconnected; the transport delivers nothing more from them. */
    ghost var gone: set<SocketId>

    ghost predicate Valid()
      reads this
    {
      TableInv(parties, gone)
    }

    constructor (roster: seq<Character>)
      ensures Valid() && this.roster == roster
      ensures parties == map[] && log == [] && gone == {}
    {
      this.roster := roster;
      parties := map[];
      log := [];
      gone := {};
    }

    /**
     * `create_party` (server/server.js:63-86).  `code` is what `makeCode`
     * produced; an existing party under the same code is overwritten.
     */
    method CreateParty(sid: SocketId, name: string, code: Code)
      requires Valid() && sid !in gone
      modifies this
      ensures Valid() && gone == old(gone)
      ensures parties == old(parties)[code := Party(code, [Player(sid, NameOr(name, DefaultCreatorName), A, None, [])],
                                                    None, None, false)]
      ensures log == old(log) + [Event(ToSocket(sid), PartyCreated(code, A)),
                                 Event(ToRoom(code), PartyUpdate(parties[code].players))]
    {
      var party := Party(code, [Player(sid, NameOr(name, DefaultCreatorName), A, None, [])], None, None, false);
      parties := parties[code := party];
      log := log + [Event(ToSocket(sid), PartyCreated(code, A))];
      log := log + [Event(ToRoom(code), PartyUpdate(party.players))];
    }

    /**
     * `join_party` (server/server.js:88-116).  `ok` is the acknowledgement
     * passed to the caller's callback, which is also logged.
     */
    method JoinParty(sid: SocketId, code: Code, name: string) returns (ok: bool)
      requires Valid() && sid !in gone
      modifies this
      ensures Valid() && gone == old(gone)
      ensures ok <==> code in old(parties) && |old(parties)[code].players| < 2
      ensures !ok ==> parties == old(parties)
      ensures code !in old(parties) ==>
                log == old(log) + [Event(ToSocket(sid), JoinAck(Some(PartyNotFound)))]
      ensures code in old(parties) && !ok ==>
                log == old(log) + [Event(ToSocket(sid), JoinAck(Some(PartyIsFull)))]
      ensures ok ==>
                var p := old(parties)[code];
                var joiner := Player(sid, NameOr(name, DefaultJoinerName), B, None, []);
                && parties == old(parties)[code := p.(players := Put(p.players, joiner))]
                && log == old(log) + [Event(ToRoom(code), PartyUpdate(parties[code].players)),
                                      Event(ToSocket(sid), JoinAck(None)),
                                      Event(ToRoom(code), NeedChooseCharacter)]
      ensures ok ==> |parties[code].players| == 2 || Has(old(parties)[code].players, sid)
    {
      if code !in parties {
        log := log + [Event(ToSocket(sid), JoinAck(Some(PartyNotFound)))];
        return false;
      }
      var party := parties[code];
      if |party.players| >= 2 {
        log := log + [Event(ToSocket(sid), JoinAck(Some(PartyIsFull)))];
        return false;
      }
      party := party.(players := Put(party.players, Player(sid, NameOr(name, DefaultJoinerName), B, None, [])));
      parties := parties[code := party];
      log := log + [Event(ToRoom(code), PartyUpdate(party.players))];
      log := log + [Event(ToSocket(sid), JoinAck(None))];
      log := log + [Event(ToRoom(code), NeedChooseCharacter)];
      ok := true;
    }

    /**
     * `choose_character` (server/server.js:118-142).  `pick` is the index
     * `Math.floor(Math.random() * 2)` selects when the game starts.
     */
    method ChooseCharacter(sid: SocketId, code: Code, character: CharacterId, pick: nat)
      requires Valid() && sid !in gone
      requires pick < 2
      modifies this
      ensures Valid() && gone == old(gone)
      ensures code !in old(parties) || !Has(old(parties)[code].players, sid) ==>
                parties == old(parties) && log == old(log)
      ensures code in old(parties) && Has(old(parties)[code].players, sid) ==>
                var p := old(parties)[code];
                var ps := SetChosen(p.players, sid, character);
                var starts := ReadyToStart(ps);
                && parties == old(parties)[code := p.(players := ps,
                                                      turn := if starts then Some(ps[pick].id) else p.turn,
                                                      gameStarted := p.gameStarted || starts)]
                && log == old(log) + [Event(ToRoom(code), PartyUpdate(ps))]
                                   + (if starts then [Event(ToRoom(code), GameStart(ps[pick].id))] else [])
      ensures code in parties && parties[code].gameStarted && !(code in old(parties) && old(parties)[code].gameStarted) ==>
                var p := parties[code];
                ReadyToStart(p.players) && Has(p.players, p.turn.value)
    {
      if code !in parties {
        return;
      }
      var party := parties[code];
      if !Has(party.players, sid) {
        return;
      }
      PutKeepsInv(party, code, gone, Get(party.players, sid).(chosen := Some(character)));
      party := party.(players := SetChosen(party.players, sid, character));
      var events := [Event(ToRoom(code), PartyUpdate(party.players))];
      if ReadyToStart(party.players) {
        StartKeepsInv(party, code, gone, pick);
        var firstPlayer := party.players[pick].id;
        party := party.(turn := Some(firstPlayer), gameStarted := true);
        events := events + [Event(ToRoom(code), GameStart(firstPlayer))];
      }
      parties := parties[code := party];
      log := log + events;
    }

    /** `ask_question` (server/server.js:144-166). */
    method AskQuestion(sid: SocketId, code: Code, question: string)
      requires Valid() && sid !in gone
      modifies this
      ensures Valid() && gone == old(gone)
      ensures code !in old(parties) || !old(parties)[code].gameStarted ==>
                parties == old(parties) && log == old(log)
      ensures code in old(parties) && old(parties)[code].gameStarted && old(parties)[code].turn != Some(sid) ==>
                parties == old(parties) && log == old(log) + [Event(ToSocket(sid), ErrorMessage(NotYourTurn))]
      ensures code in old(parties) && old(parties)[code].gameStarted && old(parties)[code].turn == Some(sid) ==>
                var p := old(parties)[code];
                && Has(p.players, sid)
                && parties == old(parties)[code := p.(pendingQuestion := Some(Question(sid, question)))]
                && log == old(log) + match OtherId(p.players, sid)
                                     case None => []
                                     case Some(other) =>
                                       [Event(ToSocket(other), QuestionAsked(question, Get(p.players, sid).name)),
                                        Event(ToRoom(code), QuestionSent(question, Get(p.players, sid).name))]
    {
      if code !in parties || !parties[code].gameStarted {
        return;
      }
      var party := parties[code];
      if party.turn != Some(sid) {
        log := log + [Event(ToSocket(sid), ErrorMessage(NotYourTurn))];
        return;
      }
      party := party.(pendingQuestion := Some(Question(sid, question)));
      parties := parties[code := party];
      var other := OtherId(party.players, sid);
      if other.Some? {
        var from := Get(party.players, sid).name;
        log := log + [Event(ToSocket(other.value), QuestionAsked(question, from))];
        log := log + [Event(ToRoom(code), QuestionSent(question, from))];
      }
    }

    /**
     * `answer_question` (server/server.js:168-178).  The answer goes to
     * whoever asked; the answering socket is not checked.
     */
    method AnswerQuestion(sid: SocketId, code: Code, answer: string)
      requires Valid() && sid !in gone
      modifies this
      ensures Valid() && gone == old(gone)
      ensures code !in old(parties) || old(parties)[code].pendingQuestion.None? ==>
                parties == old(parties) && log == old(log)
      ensures code in old(parties) && old(parties)[code].pendingQuestion.Some? ==>
                var p := old(parties)[code];
                var q := p.pendingQuestion.value;
                && parties == old(parties)[code := p.(pendingQuestion := None)]
                && log == old(log) + [Event(ToSocket(q.from), QuestionAnswered(q.question, answer)),
                                      Event(ToSocket(q.from), AllowActions)]
    {
      if code !in parties || parties[code].pendingQuestion.None? {
        return;
      }
      var party := parties[code];
      var q := party.pendingQuestion.value;
      log := log + [Event(ToSocket(q.from), QuestionAnswered(q.question, answer))];
      party := party.(pendingQuestion := None);
      parties := parties[code := party];
      log := log + [Event(ToSocket(q.from), AllowActions)];
    }

    /** `mark_character` (server/server.js:180-192). */
    method MarkCharacter(sid: SocketId, code: Code, character: CharacterId)
      requires Valid() && sid !in gone
      modifies this
      ensures Valid() && gone == old(gone)
      ensures code !in old(parties) || !Has(old(parties)[code].players, sid) ==>
                parties == old(parties) && log == old(log)
      ensures code in old(parties) && Has(old(parties)[code].players, sid) ==>
                var p := old(parties)[code];
                var marks := AddMark(Get(p.players, sid).marks, character);
                && parties == old(parties)[code := p.(players := Put(p.players, Get(p.players, sid).(marks := marks)))]
                && log == old(log) + [Event(ToSocket(sid), MarksUpdated(marks))]
      ensures code in old(parties) && Has(old(parties)[code].players, sid) &&
              character in Get(old(parties)[code].players, sid).marks ==>
                parties == old(parties)
    {
      if code !in parties {
        return;
      }
      var party := parties[code];
      if !Has(party.players, sid) {
        return;
      }
      var player := Get(party.players, sid);
      if character !in player.marks {
        player := player.(marks := AddMark(player.marks, character));
        PutKeepsInv(party, code, gone, player);
        party := party.(players := Put(party.players, player));
        parties := parties[code := party];
      } else {
        assert Put(party.players, player) == party.players by {
          var k := IndexOf(party.players, sid).value;
          assert party.players[k := player] == party.players;
        }
      }
      log := log + [Event(ToSocket(sid), MarksUpdated(player.marks))];
    }

    /**
     * `guess_character` (server/server.js:194-234).  Whoever sends it, the
     * guess is judged against the first other player's secret.  When a
     * socket that is not a player names that secret, the source reads
     * `guesser.name` of `undefined` and the handler throws before it emits
     * or deletes anything; here that case changes nothing.
     */
    method GuessCharacter(sid: SocketId, code: Code, character: string)
      requires Valid() && sid !in gone
      modifies this
      ensures Valid() && gone == old(gone)
      ensures code !in old(parties) ==> parties == old(parties) && log == old(log)
      ensures code in old(parties) ==>
                var p := old(parties)[code];
                var g := ClassifyGuess(p.players, sid, character, roster);
                && (g.NoOpponent? || g.GuesserMissing? ==> parties == old(parties) && log == old(log))
                && (g.SecretUnknown? ==>
                      parties == old(parties) && log == old(log) + [Event(ToSocket(sid), ErrorMessage(GuessFailed))])
                && (g.Correct? ==>
                      && parties == old(parties) - {code}
                      && log == old(log) + [Event(ToRoom(code), GameOver(sid, Get(p.players, sid).name, g.secret.name))])
                && (g.Wrong? ==>
                      && parties == old(parties)[code := p.(turn := Some(g.opponent))]
                      && log == old(log) + [Event(ToSocket(sid), WrongGuess(character)),
                                            Event(ToRoom(code), TurnChanged(g.opponent))])
    {
      if code !in parties {
        return;
      }
      var party := parties[code];
      match ClassifyGuess(party.players, sid, character, roster)
      case NoOpponent =>
      case SecretUnknown(_) =>
        log := log + [Event(ToSocket(sid), ErrorMessage(GuessFailed))];
      case Correct(_, secret) =>
        log := log + [Event(ToRoom(code), GameOver(sid, Get(party.players, sid).name, secret.name))];
        parties := parties - {code};
      case Wrong(opponent, _) =>
        log := log + [Event(ToSocket(sid), WrongGuess(character))];
        party := party.(turn := Some(opponent));
        parties := parties[code := party];
        log := log + [Event(ToRoom(code), TurnChanged(opponent))];
      case GuesserMissing(_, _) =>
    }

    /**
     * `end_turn` (server/server.js:236-245): the turn passes to the first
     * other player, whoever sends it.
     */
    method EndTurn(sid: SocketId, code: Code)
      requires Valid() && sid !in gone
      modifies this
      ensures Valid() && gone == old(gone)
      ensures code !in old(parties) || OtherId(old(parties)[code].players, sid).None? ==>
                parties == old(parties) && log == old(log)
      ensures code in old(parties) && OtherId(old(parties)[code].players, sid).Some? ==>
                var p := old(parties)[code];
                var other := OtherId(p.players, sid).value;
                && other != sid
                && parties == old(parties)[code := p.(turn := Some(other))]
                && log == old(log) + [Event(ToRoom(code), TurnChanged(other))]
    {
      if code !in parties {
        return;
      }
      var party := parties[code];
      var other := OtherId(party.players, sid);
      if other.None? {
        return;
      }
      party := party.(turn := other);
      parties := parties[code := party];
      log := log + [Event(ToRoom(code), TurnChanged(other.value))];
    }

    /** One step of `disconnect`'s loop (server/server.js:252-262): leave room `c` if in it. */
    method LeaveRoom(c: Code, sid: SocketId)
      requires c in parties
      modifies this
      ensures gone == old(gone)
      ensures parties == if Emptied(old(parties)[c], sid) then old(parties) - {c}
                         else old(parties)[c := Leave(old(parties)[c], sid)]
      ensures log == old(log) + if Has(old(parties)[c].players, sid) then [Event(ToRoom(c), PlayerLeft(sid))] else []
    {
      var party := parties[c];
      if Has(party.players, sid) {
        party := party.(players := Remove(party.players, sid));
        parties := parties[c := party];
        log := log + [Event(ToRoom(c), PlayerLeft(sid))];
        if |party.players| == 0 {
          parties := parties - {c};
        }
      }
    }

    /**
     * `disconnect` (server/server.js:247-264).  `left` lists, in the order
     * the loop visited them, the rooms the socket was in; each is told once.
     */
    method Disconnect(sid: SocketId) returns (ghost left: seq<Code>)
      requires Valid() && sid !in gone
      modifies this
      ensures Valid() && gone == old(gone) + {sid}
      ensures parties == AfterDisconnect(old(parties), sid)
      ensures forall c :: c in left <==> c in old(parties) && Has(old(parties)[c].players, sid)
      ensures forall i, j :: 0 <= i < j < |left| ==> left[i] != left[j]
      ensures log == old(log) + LeftEvents(left, sid)
    {
      left := [];
      var todo := parties.Keys;
      ghost var done: set<Code> := {};
      PartialNone(parties, sid);
      while todo != {}
        invariant done !! todo && done + todo == old(parties).Keys
        invariant gone == old(gone)
        invariant parties == Partial(old(parties), done, sid)
        invariant forall c :: c in left <==> c in done && Has(old(parties)[c].players, sid)
        invariant forall i, j :: 0 <= i < j < |left| ==> left[i] != left[j]
        invariant log == old(log) + LeftEvents(left, sid)
        decreases todo
      {
        var c :| c in todo;
        PartialStep(old(parties), done, c, sid);
        if Has(parties[c].players, sid) {
          assert LeftEvents(left + [c], sid) == LeftEvents(left, sid) + [Event(ToRoom(c), PlayerLeft(sid))];
          left := left + [c];
        }
        LeaveRoom(c, sid);
        todo, done := todo - {c}, done + {c};
      }
      PartialAll(old(parties), sid);
      DisconnectKeepsInv(old(parties), gone, sid);
      gone := gone + {sid};
    }

    /**
     * `cleanupEmptyParties` (server/server.js:50-58), the sweep the server
     * runs every 30 minutes.
     */
    method CleanupEmptyParties()
      modifies this
      ensures gone == old(gone) && log == old(log)
      ensures parties == Swept(old(parties))
      ensures old(Valid()) ==> Valid() && parties == old(parties)
    {
      var todo := parties.Keys;
      while todo != {}
        invariant todo <= old(parties).Keys && parties.Keys <= old(parties).Keys
        invariant gone == old(gone)
        invariant forall c :: c in todo ==> c in parties && parties[c] == old(parties)[c]
        invariant forall c :: c in old(parties) && c !in todo ==>
                    (c in parties <==> |old(parties)[c].players| > 0) &&
                    (c in parties ==> parties[c] == old(parties)[c])
        invariant log == old(log)
        decreases todo
      {
        var c :| c in todo;
        todo := todo - {c};
        if |parties[c].players| == 0 {
          parties := parties - {c};
        }
      }
      assert parties == Swept(old(parties));
      if old(Valid()) {
        SweepFindsNothing(old(parties), gone);
      }
    }
  }
}
