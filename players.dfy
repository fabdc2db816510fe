/**
 * A party's players (server/server.js:73-79, 101-107).  The source keeps them
 * in a JavaScript object keyed by socket id; `Object.keys`/`Object.values`
 * list them in insertion order, so the model keeps them as a sequence of
 * records in that order, each record carrying its own key (`id`).
 */
module Players {
  import opened Wrappers
  import opened Roster

  type SocketId = string

  /** The two side labels: the creator is 'A', a joiner is 'B'. */
  datatype Side = A | B

  datatype Player = Player(id: SocketId, name: string, side: Side,
                           chosen: Option<CharacterId>, marks: seq<CharacterId>)

  /** No socket id occurs twice: a JavaScript object has each key once. */
  ghost predicate DistinctIds(ps: seq<Player>) {
    forall i, j :: 0 <= i < j < |ps| ==> ps[i].id != ps[j].id
  }

  ghost predicate NoDuplicates(marks: seq<CharacterId>) {
    forall i, j :: 0 <= i < j < |marks| ==> marks[i] != marks[j]
  }

  /** Where `players[id]` lives, or nothing when `players[id]` is undefined. */
  function IndexOf(ps: seq<Player>, id: SocketId): (r: Option<nat>)
    ensures r.Some? ==> r.value < |ps| && ps[r.value].id == id
                        && forall k :: 0 <= k < r.value ==> ps[k].id != id
    ensures r.None? <==> forall k :: 0 <= k < |ps| ==> ps[k].id != id
  {
    if |ps| == 0 then None
    else if ps[0].id == id then Some(0)
    else match IndexOf(ps[1..], id)
      case None => None
      case Some(k) => Some(k + 1)
  }

  /** `id in players`. */
  predicate Has(ps: seq<Player>, id: SocketId) {
    IndexOf(ps, id).Some?
  }

  /** `players[id]`, for an id that is present. */
  function Get(ps: seq<Player>, id: SocketId): (p: Player)
    requires Has(ps, id)
    ensures p.id == id && p in ps
  {
    ps[IndexOf(ps, id).value]
  }

  /** Key `x` comes before key `y` in `Object.keys(players)`. */
  predicate Before(ps: seq<Player>, x: SocketId, y: SocketId) {
    Has(ps, x) && Has(ps, y) && IndexOf(ps, x).value < IndexOf(ps, y).value
  }

  /**
   * `players[p.id] = p`: an existing key keeps its place and gets the new
   * record; a new key is added at the end.
   */
  function Put(ps: seq<Player>, p: Player): (r: seq<Player>)
    ensures |r| == if Has(ps, p.id) then |ps| else |ps| + 1
    ensures Has(r, p.id) && Get(r, p.id) == p
    ensures forall k :: 0 <= k < |ps| && ps[k].id != p.id ==> r[k] == ps[k]
    ensures forall k :: 0 <= k < |ps| ==> r[k].id == ps[k].id
    ensures forall k :: 0 <= k < |r| ==> r[k] == p || (k < |ps| && r[k] == ps[k])
    ensures forall x :: Has(r, x) <==> Has(ps, x) || x == p.id
    ensures DistinctIds(ps) ==> DistinctIds(r)
  {
    match IndexOf(ps, p.id)
    case Some(k) =>
      var r := ps[k := p];
      assert IndexOf(r, p.id) == Some(k) by {
        assert r[k] == p;
        var j := IndexOf(r, p.id);
        assert j.Some?;
        assert j.value <= k;
      }
      assert forall x :: Has(r, x) <==> Has(ps, x) || x == p.id by {
        forall x ensures Has(r, x) <==> Has(ps, x) || x == p.id {
          if Has(ps, x) { assert r[IndexOf(ps, x).value].id == x; }
          if Has(r, x) { assert ps[IndexOf(r, x).value].id == x; }
        }
      }
      r
    case None =>
      var r := ps + [p];
      assert r[|ps|].id == p.id;
      assert IndexOf(r, p.id) == Some(|ps|);
      assert forall x :: Has(r, x) <==> Has(ps, x) || x == p.id by {
        forall x ensures Has(r, x) <==> Has(ps, x) || x == p.id {
          if Has(ps, x) { assert r[IndexOf(ps, x).value].id == x; }
          if Has(r, x) && x != p.id { assert ps[IndexOf(r, x).value].id == x; }
        }
      }
      r
  }

  /**
   * `players[id].chosen = c`: only that player's record changes, and in it
   * only the choice; every key keeps its place.
   */
  function SetChosen(ps: seq<Player>, id: SocketId, c: CharacterId): (r: seq<Player>)
    requires Has(ps, id)
    ensures |r| == |ps|
    ensures forall k :: 0 <= k < |ps| ==> r[k].id == ps[k].id
    ensures forall k :: 0 <= k < |ps| && ps[k].id != id ==> r[k] == ps[k]
    ensures Has(r, id) && Get(r, id) == Get(ps, id).(chosen := Some(c))
    ensures forall x :: Has(r, x) <==> Has(ps, x)
    ensures DistinctIds(ps) ==> DistinctIds(r)
  {
    Put(ps, Get(ps, id).(chosen := Some(c)))
  }

  /** Two players, both with a truthy choice: the condition that starts a game. */
  predicate ReadyToStart(ps: seq<Player>) {
    |ps| == 2 && AllChosen(ps)
  }

  /**
   * `delete players[id]`: the key disappears, every other record stays, in
   * the same relative order.
   */
  function Remove(ps: seq<Player>, id: SocketId): (r: seq<Player>)
    ensures forall x :: Has(r, x) <==> Has(ps, x) && x != id
    ensures forall x :: Has(r, x) ==> Get(r, x) == Get(ps, x)
    ensures |r| <= |ps|
    ensures DistinctIds(ps) ==> DistinctIds(r) && |r| == if Has(ps, id) then |ps| - 1 else |ps|
    ensures forall x, y :: Has(r, x) && Has(r, y) ==> (Before(r, x, y) <==> Before(ps, x, y))
  {
    if |ps| == 0 then []
    else
      var rest := Remove(ps[1..], id);
      HasCons(ps);
      if ps[0].id == id then
        DropHeadKeepsOrder(ps, rest);
        rest
      else
        var r := [ps[0]] + rest;
        assert r[1..] == rest;
        HasCons(r);
        ConsKeepsDistinct(ps, rest);
        ConsKeepsOrder(ps, rest);
        r
  }

  /** The keys of a non-empty list are its first key and the keys of its tail. */
  lemma HasCons(ps: seq<Player>)
    requires |ps| > 0
    ensures forall x :: Has(ps, x) <==> ps[0].id == x || Has(ps[1..], x)
  {
    forall x ensures Has(ps, x) <==> ps[0].id == x || Has(ps[1..], x) {
      if Has(ps[1..], x) { assert ps[IndexOf(ps[1..], x).value + 1].id == x; }
    }
  }

  /** Putting back the first record in front of a subset of the tail keeps keys distinct. */
  lemma ConsKeepsDistinct(ps: seq<Player>, rest: seq<Player>)
    requires |ps| > 0
    requires forall x :: Has(rest, x) ==> Has(ps[1..], x)
    requires DistinctIds(ps) ==> DistinctIds(rest)
    ensures DistinctIds(ps) ==> DistinctIds([ps[0]] + rest)
  {
    var r := [ps[0]] + rest;
    if DistinctIds(ps) {
      assert !Has(ps[1..], ps[0].id) by {
        forall k | 0 <= k < |ps[1..]| ensures ps[1..][k].id != ps[0].id {
          assert ps[1..][k] == ps[k + 1];
        }
      }
      forall i, j | 0 <= i < j < |r| ensures r[i].id != r[j].id {
        if i == 0 {
          assert Has(rest, r[j].id) by { assert rest[j - 1] == r[j]; assert IndexOf(rest, r[j].id).Some?; }
        }
      }
    }
  }

  /** Dropping the first record keeps the order of the keys that remain. */
  lemma DropHeadKeepsOrder(ps: seq<Player>, rest: seq<Player>)
    requires |ps| > 0
    requires forall x :: Has(rest, x) ==> x != ps[0].id
    requires forall x, y :: Has(rest, x) && Has(rest, y) ==> (Before(rest, x, y) <==> Before(ps[1..], x, y))
    ensures forall x, y :: Has(rest, x) && Has(rest, y) ==> (Before(rest, x, y) <==> Before(ps, x, y))
  {
    forall x, y | Has(rest, x) && Has(rest, y) ensures Before(rest, x, y) <==> Before(ps, x, y) {
      BeforeTail(ps, x, y);
    }
  }

  /** Keeping the first record in front keeps the order of every key. */
  lemma ConsKeepsOrder(ps: seq<Player>, rest: seq<Player>)
    requires |ps| > 0
    requires forall x :: Has(rest, x) ==> Has(ps[1..], x)
    requires forall x, y :: Has(rest, x) && Has(rest, y) ==> (Before(rest, x, y) <==> Before(ps[1..], x, y))
    ensures forall x, y :: Has([ps[0]] + rest, x) && Has([ps[0]] + rest, y) ==>
              (Before([ps[0]] + rest, x, y) <==> Before(ps, x, y))
  {
    var r, h := [ps[0]] + rest, ps[0].id;
    assert r[1..] == rest;
    HasCons(r);
    HasCons(ps);
    forall x, y | Has(r, x) && Has(r, y) ensures Before(r, x, y) <==> Before(ps, x, y) {
      if x != h && y != h {
        BeforeTail(r, x, y);
        BeforeTail(ps, x, y);
      } else if x == h && y != h {
        BeforeHead(r, y);
        BeforeHead(ps, y);
      } else if x != h {
        BeforeHead(r, x);
        BeforeHead(ps, x);
      }
    }
  }

  /** Past the first record, the order of the other keys is the order in the tail. */
  lemma BeforeTail(ps: seq<Player>, x: SocketId, y: SocketId)
    requires |ps| > 0 && x != ps[0].id && y != ps[0].id
    ensures Before(ps, x, y) <==> Before(ps[1..], x, y)
  {
  }

  /** The first record's key comes before every other key. */
  lemma BeforeHead(ps: seq<Player>, y: SocketId)
    requires |ps| > 0 && Has(ps, y) && y != ps[0].id
    ensures Before(ps, ps[0].id, y) && !Before(ps, y, ps[0].id)
  {
  }

  /**
   * `Object.keys(players).find(k => k !== id)`: the first player whose
   * socket id differs from `id`.
   */
  function OtherIndex(ps: seq<Player>, id: SocketId): (r: Option<nat>)
    ensures r.Some? ==> r.value < |ps| && ps[r.value].id != id
                        && forall k :: 0 <= k < r.value ==> ps[k].id == id
    ensures r.None? <==> forall k :: 0 <= k < |ps| ==> ps[k].id == id
  {
    if |ps| == 0 then None
    else if ps[0].id != id then Some(0)
    else match OtherIndex(ps[1..], id)
      case None => None
      case Some(k) => Some(k + 1)
  }

  function OtherId(ps: seq<Player>, id: SocketId): (r: Option<SocketId>)
    ensures r.Some? ==> r.value != id && Has(ps, r.value)
    ensures r.Some? ==> exists k :: 0 <= k < |ps| && ps[k].id == r.value
                                   && forall j :: 0 <= j < k ==> ps[j].id == id
    ensures r.None? <==> forall k :: 0 <= k < |ps| ==> ps[k].id == id
  {
    match OtherIndex(ps, id)
    case None => None
    case Some(k) => assert IndexOf(ps, ps[k].id).Some?; Some(ps[k].id)
  }

  /** The two players of a full party are each other's opponent. */
  lemma {:induction false} OtherOfPair(ps: seq<Player>, id: SocketId)
    requires |ps| == 2 && DistinctIds(ps) && Has(ps, id)
    ensures OtherId(ps, id).Some?
    ensures OtherId(ps, OtherId(ps, id).value) == Some(id)
  {
    var i := IndexOf(ps, id).value;
    assert ps[0].id != ps[1].id;
    if i == 0 {
      assert OtherIndex(ps, id) == Some(1);
      assert OtherIndex(ps, ps[1].id) == Some(0);
    } else {
      assert OtherIndex(ps, id) == Some(0);
      assert OtherIndex(ps, ps[0].id) == Some(1);
    }
  }

  /**
   * `if (!marks.includes(c)) marks.push(c)`: the mark is present afterwards,
   * nothing already marked is lost or reordered, and marking twice is the
   * same as marking once.
   */
  function AddMark(marks: seq<CharacterId>, c: CharacterId): (r: seq<CharacterId>)
    ensures c in r
    ensures forall x :: x in r <==> x in marks || x == c
    ensures |marks| <= |r| <= |marks| + 1 && r[..|marks|] == marks
    ensures c in marks ==> r == marks
    ensures NoDuplicates(marks) ==> NoDuplicates(r)
  {
    if c in marks then marks else marks + [c]
  }

  /** JavaScript truthiness of `p.chosen`: set, and not the empty string. */
  predicate HasChosen(p: Player) {
    p.chosen.Some? && p.chosen.value != ""
  }

  /** `Object.values(players).every(p => p.chosen)`. */
  predicate AllChosen(ps: seq<Player>) {
    forall k :: 0 <= k < |ps| ==> HasChosen(ps[k])
  }

  /** `name || fallback`: an empty display name falls back to the default. */
  function NameOr(name: string, fallback: string): (r: string)
    ensures name != "" ==> r == name
    ensures name == "" ==> r == fallback
  {
    if name == "" then fallback else name
  }
}
