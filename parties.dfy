/**
 * A party (game room) record, the events the server emits, and the pure
 * decisions the handlers of server/server.js take on a party's contents.
 */
module Parties {
  import opened Wrappers
  import opened Roster
  import opened Players

  type Code = string

  /** `party.pendingQuestion`: who asked, and what. */
  datatype Question = Question(from: SocketId, question: string)

  /** One entry of the `parties` table (server/server.js:65-71). */
  datatype Party = Party(code: Code, players: seq<Player>, turn: Option<SocketId>,
                         pendingQuestion: Option<Question>, gameStarted: bool)

  /** Who an emit is addressed to: one socket, or every socket in a room. */
  datatype Audience = ToSocket(id: SocketId) | ToRoom(room: Code)

  /** The payloads the server sends, named after their socket.io events. */
  datatype Message =
    | PartyCreated(code: Code, side: Side)
    | PartyUpdate(players: seq<Player>)
    | JoinAck(error: Option<string>)
    | NeedChooseCharacter
    | GameStart(firstPlayer: SocketId)
    | ErrorMessage(text: string)
    | QuestionAsked(question: string, from: string)
    | QuestionSent(question: string, from: string)
    | QuestionAnswered(question: string, answer: string)
    | AllowActions
    | MarksUpdated(marks: seq<CharacterId>)
    | GameOver(winner: SocketId, winnerName: string, secretCharacter: string)
    | WrongGuess(character: string)
    | TurnChanged(turn: SocketId)
    | PlayerLeft(playerId: SocketId)

  datatype Event = Event(to: Audience, msg: Message)

  const PartyNotFound := "Party not found"
  const PartyIsFull := "Party is full"
  const NotYourTurn := "Not your turn"
  const GuessFailed := "Error processing guess"

  /**
   * What must hold of every party in the table, for the socket ids `gone`
   * that have disconnected: the key is the party's own code; one or two
   * players, each socket once; marks without repeats; a started game has a
   * turn holder; a question is only ever pending in a started game; the
   * turn holder is a player or a socket that has left; no departed socket is
   * still a player.
   */
  ghost predicate PartyInv(p: Party, code: Code, gone: set<SocketId>) {
    && p.code == code
    && 1 <= |p.players| <= 2
    && DistinctIds(p.players)
    && (forall k :: 0 <= k < |p.players| ==> NoDuplicates(p.players[k].marks))
    && (p.gameStarted ==> p.turn.Some?)
    && (p.pendingQuestion.Some? ==> p.gameStarted)
    && (p.turn.Some? ==> Has(p.players, p.turn.value) || p.turn.value in gone)
    && (forall k :: 0 <= k < |p.players| ==> p.players[k].id !in gone)
  }

  ghost predicate TableInv(t: map<Code, Party>, gone: set<SocketId>) {
    forall c :: c in t ==> PartyInv(t[c], c, gone)
  }

  /** Replacing an existing player's record keeps the party invariant. */
  lemma PutKeepsInv(p: Party, code: Code, gone: set<SocketId>, q: Player)
    requires PartyInv(p, code, gone) && Has(p.players, q.id) && NoDuplicates(q.marks)
    ensures PartyInv(p.(players := Put(p.players, q)), code, gone)
  {
    var ps := Put(p.players, q);
    forall k | 0 <= k < |ps| ensures NoDuplicates(ps[k].marks) && ps[k].id !in gone {
      assert ps[k] == q || ps[k] == p.players[k];
    }
  }

  /** Setting the turn to one of the players and starting the game keeps the invariant. */
  lemma StartKeepsInv(p: Party, code: Code, gone: set<SocketId>, k: nat)
    requires PartyInv(p, code, gone) && k < |p.players|
    ensures PartyInv(p.(turn := Some(p.players[k].id), gameStarted := true), code, gone)
  {
    assert IndexOf(p.players, p.players[k].id).Some?;
  }

  /** How `guess_character` (server/server.js:194-234) resolves a guess. */
  datatype GuessOutcome =
    | NoOpponent
    | SecretUnknown(opponent: SocketId)
    | Correct(opponent: SocketId, secret: Character)
    | Wrong(opponent: SocketId, secret: Character)
    /** The guess names the secret but the guessing socket is not a player:
        the source then reads `guesser.name` of `undefined` and throws. */
    | GuesserMissing(opponent: SocketId, secret: Character)

  /**
   * The guess is checked, as the source does, against the first other
   * player's secret: its chosen id is looked up in the roster and the guess
   * is compared with that entry's display name.
   */
  function ClassifyGuess(ps: seq<Player>, sid: SocketId, character: string,
                         roster: seq<Character>): (r: GuessOutcome)
    ensures r.NoOpponent? <==> OtherId(ps, sid).None?
    ensures !r.NoOpponent? ==> OtherId(ps, sid) == Some(r.opponent)
    ensures r.SecretUnknown? <==>
              OtherId(ps, sid).Some? &&
              (var chosen := Get(ps, OtherId(ps, sid).value).chosen;
               chosen.None? || Find(roster, chosen.value).None?)
    ensures (r.Correct? || r.Wrong? || r.GuesserMissing?) ==>
              Get(ps, r.opponent).chosen == Some(r.secret.id) &&
              Find(roster, r.secret.id) == Some(r.secret)
    ensures r.Correct? <==> !r.NoOpponent? && !r.SecretUnknown? && Has(ps, sid) && r.secret.name == character
    ensures r.Wrong? <==> !r.NoOpponent? && !r.SecretUnknown? && r.secret.name != character
    ensures r.GuesserMissing? <==> !r.NoOpponent? && !r.SecretUnknown? && !Has(ps, sid) && r.secret.name == character
  {
    match OtherId(ps, sid)
    case None => NoOpponent
    case Some(opp) =>
      var chosen := Get(ps, opp).chosen;
      var secret := if chosen.None? then None else Find(roster, chosen.value);
      match secret
      case None => SecretUnknown(opp)
      case Some(s) =>
        if character != s.name then Wrong(opp, s)
        else if Has(ps, sid) then Correct(opp, s)
        else GuesserMissing(opp, s)
  }

  /**
   * The comparison by display name agrees with a comparison by id whenever
   * the roster repeats neither ids nor names: guessing the name of roster
   * entry k wins exactly when the opponent chose entry k's id.
   */
  lemma GuessByNameIsGuessById(ps: seq<Player>, sid: SocketId, roster: seq<Character>, k: nat)
    requires DistinctCharacterIds(roster) && DistinctCharacterNames(roster) && k < |roster|
    requires Has(ps, sid) && OtherId(ps, sid).Some?
    requires !ClassifyGuess(ps, sid, roster[k].name, roster).SecretUnknown?
    ensures ClassifyGuess(ps, sid, roster[k].name, roster).Correct? <==>
            Get(ps, OtherId(ps, sid).value).chosen == Some(roster[k].id)
  {
    var r := ClassifyGuess(ps, sid, roster[k].name, roster);
    var m :| 0 <= m < |roster| && roster[m] == r.secret
             && forall j :: 0 <= j < m ==> roster[j].id != r.secret.id;
    if r.Correct? {
      assert roster[k].name == roster[m].name;
      assert k == m;
    }
    if Get(ps, OtherId(ps, sid).value).chosen == Some(roster[k].id) {
      FindEntry(roster, k);
      assert r.secret == roster[k];
    }
  }

  /**
   * The as-written defect of `guess_character`: a socket that is not in the
   * party, naming the secret of the party's first player, reaches the
   * `guesser.name` read (server/server.js:219) with `guesser` undefined.
   */
  lemma {:induction false} OutsiderNamingSecretHasNoGuesser(ps: seq<Player>, sid: SocketId,
                                                            roster: seq<Character>, k: nat)
    requires |ps| >= 1 && !Has(ps, sid)
    requires DistinctCharacterIds(roster) && k < |roster|
    requires ps[0].chosen == Some(roster[k].id)
    ensures ClassifyGuess(ps, sid, roster[k].name, roster).GuesserMissing?
  {
    assert ps[0].id != sid;
    assert OtherIndex(ps, sid) == Some(0);
    assert IndexOf(ps, ps[0].id) == Some(0);
    FindEntry(roster, k);
  }

  /** A concrete instance on the server's roster: one player "a" who chose
      "c1", and an outsider "x" guessing "Chatterbox". */
  lemma OutsiderGuessExample()
    ensures ClassifyGuess([Player("a", "Player 1", A, Some("c1"), [])], "x", "Chatterbox", Characters).GuesserMissing?
  {
    var ps := [Player("a", "Player 1", A, Some("c1"), [])];
    assert IndexOf(ps, "x") == None;
    assert Characters[0] == Character("c1", "Chatterbox");
    assert Find(Characters, "c1") == Some(Characters[0]);
  }

  /** `delete party.players[sid]` when the socket is in the party. */
  function Leave(p: Party, sid: SocketId): Party {
    if Has(p.players, sid) then p.(players := Remove(p.players, sid)) else p
  }

  /** A party that `sid` was in and that has no players once it leaves. */
  predicate Emptied(p: Party, sid: SocketId) {
    Has(p.players, sid) && |Remove(p.players, sid)| == 0
  }

  /**
   * The table after `disconnect` (server/server.js:247-264): the socket is
   * taken out of every party it is in, and a party it leaves empty is
   * deleted; no other party changes.
   */
  function AfterDisconnect(t: map<Code, Party>, sid: SocketId): (r: map<Code, Party>)
    ensures forall c :: c in r ==> !Has(r[c].players, sid)
    ensures forall c :: c in t && !Has(t[c].players, sid) ==> c in r && r[c] == t[c]
    ensures forall c :: c in r <==> c in t && !Emptied(t[c], sid)
    ensures forall c :: c in r && Has(t[c].players, sid) ==>
              r[c] == t[c].(players := Remove(t[c].players, sid))
  {
    map c | c in t && !Emptied(t[c], sid) :: Leave(t[c], sid)
  }

  /** The table part-way through `disconnect`'s loop, once the rooms `done` are visited. */
  function Partial(t: map<Code, Party>, done: set<Code>, sid: SocketId): map<Code, Party> {
    map c | c in t && !(c in done && Emptied(t[c], sid)) :: if c in done then Leave(t[c], sid) else t[c]
  }

  lemma PartialNone(t: map<Code, Party>, sid: SocketId)
    ensures Partial(t, {}, sid) == t
  {
    assert Partial(t, {}, sid).Keys == t.Keys;
  }

  /** Visiting one more room does exactly what the loop body does to it. */
  lemma PartialStep(t: map<Code, Party>, done: set<Code>, c: Code, sid: SocketId)
    requires c in t && c !in done
    ensures c in Partial(t, done, sid) && Partial(t, done, sid)[c] == t[c]
    ensures Partial(t, done + {c}, sid) ==
              if Emptied(t[c], sid) then Partial(t, done, sid) - {c}
              else Partial(t, done, sid)[c := Leave(t[c], sid)]
  {
    var s, s' := Partial(t, done, sid), Partial(t, done + {c}, sid);
    var e := if Emptied(t[c], sid) then s - {c} else s[c := Leave(t[c], sid)];
    assert s'.Keys == e.Keys;
  }

  lemma PartialAll(t: map<Code, Party>, sid: SocketId)
    ensures Partial(t, t.Keys, sid) == AfterDisconnect(t, sid)
  {
    assert Partial(t, t.Keys, sid).Keys == AfterDisconnect(t, sid).Keys;
  }

  /** The `player_left` notices for the rooms `rooms`, in that order. */
  function LeftEvents(rooms: seq<Code>, sid: SocketId): (r: seq<Event>)
    ensures |r| == |rooms|
    ensures forall i :: 0 <= i < |rooms| ==> r[i] == Event(ToRoom(rooms[i]), PlayerLeft(sid))
  {
    seq(|rooms|, i requires 0 <= i < |rooms| => Event(ToRoom(rooms[i]), PlayerLeft(sid)))
  }

  /** Disconnecting keeps the table invariant, with the socket now gone. */
  lemma DisconnectKeepsInv(t: map<Code, Party>, gone: set<SocketId>, sid: SocketId)
    requires TableInv(t, gone)
    ensures TableInv(AfterDisconnect(t, sid), gone + {sid})
  {
    var r := AfterDisconnect(t, sid);
    forall c | c in r ensures PartyInv(r[c], c, gone + {sid}) {
      var p, q := t[c], r[c];
      assert q == Leave(p, sid);
      if Has(p.players, sid) {
        var ps, qs := p.players, q.players;
        assert |qs| > 0;
        forall k | 0 <= k < |qs| ensures NoDuplicates(qs[k].marks) && qs[k].id !in gone + {sid} {
          assert IndexOf(qs, qs[k].id).Some?;
          var x := qs[k].id;
          assert Get(qs, x) == qs[k] by { assert IndexOf(qs, x).value == k; }
          var i := IndexOf(ps, x).value;
          assert ps[i] == Get(ps, x);
        }
        if q.turn.Some? && q.turn.value != sid && q.turn.value !in gone {
          assert Has(qs, q.turn.value);
        }
      }
    }
  }

  /** `cleanupEmptyParties` (server/server.js:50-58): drop every room with no players. */
  function Swept(t: map<Code, Party>): (r: map<Code, Party>)
    ensures forall c :: c in r ==> |r[c].players| > 0
    ensures forall c :: c in t && |t[c].players| > 0 ==> c in r && r[c] == t[c]
    ensures forall c :: c in r ==> c in t && r[c] == t[c]
  {
    map c | c in t && |t[c].players| > 0 :: t[c]
  }

  /** Because every handler deletes a room as soon as it is empty, the sweep never removes one. */
  lemma SweepFindsNothing(t: map<Code, Party>, gone: set<SocketId>)
    requires TableInv(t, gone)
    ensures Swept(t) == t
  {
    assert Swept(t).Keys == t.Keys;
  }
}
