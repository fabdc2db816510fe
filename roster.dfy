/**
 * The server's character roster (server/server.js:7-32): an ordered list of
 * (id, display name) pairs.  The image file names are presentation only and
 * are not modelled.
 */
module Roster {
  import opened Wrappers

  type CharacterId = string

  datatype Character = Character(id: CharacterId, name: string)

  /** The roster exactly as the server declares it. */
  const Characters: seq<Character> := [
    Character("c1", "Chatterbox"),
    Character("c2", "Twinkles"),
    Character("c3", "Mr. Ratchet"),
    Character("c4", "Tessa"),
    Character("c5", "Kirk"),
    Character("c6", "Bozo"),
    Character("c7", "Bubblegum"),
    Character("c8", "Derpy"),
    Character("c9", "Ember"),
    Character("c10", "Happy"),
    Character("c11", "Hiccups"),
    Character("c12", "Moose"),
    Character("c13", "Mumbles"),
    Character("c14", "Party Hardy"),
    Character("c15", "Scruffy"),
    Character("c16", "Stumbles"),
    Character("c17", "Wendy"),
    Character("c18", "Yappy"),
    Character("c19", "Osvaldo"),
    Character("c20", "Reina"),
    Character("c21", "Sneaky"),
    Character("c22", "Tandy"),
    Character("c23", "Windsong"),
    Character("c24", "Fredrick")
  ]

  ghost predicate DistinctCharacterIds(roster: seq<Character>) {
    forall i, j :: 0 <= i < j < |roster| ==> roster[i].id != roster[j].id
  }

  ghost predicate DistinctCharacterNames(roster: seq<Character>) {
    forall i, j :: 0 <= i < j < |roster| ==> roster[i].name != roster[j].name
  }

  /**
   * `roster.find(c => c.id === id)`: the first entry carrying `id`, or
   * nothing when no entry does.
   */
  function Find(roster: seq<Character>, id: CharacterId): (r: Option<Character>)
    ensures r.Some? ==> exists k :: 0 <= k < |roster| && roster[k] == r.value && r.value.id == id
                                   && forall j :: 0 <= j < k ==> roster[j].id != id
    ensures r.None? <==> forall k :: 0 <= k < |roster| ==> roster[k].id != id
  {
    if |roster| == 0 then None
    else if roster[0].id == id then Some(roster[0])
    else
      var r := Find(roster[1..], id);
      assert r.Some? ==> exists k :: 0 <= k < |roster| && roster[k] == r.value && r.value.id == id
                                   && forall j :: 0 <= j < k ==> roster[j].id != id by {
        if r.Some? {
          var k :| 0 <= k < |roster[1..]| && roster[1..][k] == r.value && r.value.id == id
                   && forall j :: 0 <= j < k ==> roster[1..][j].id != id;
          assert roster[k + 1] == r.value;
          assert forall j :: 0 <= j < k + 1 ==> roster[j].id != id by {
            forall j | 0 <= j < k + 1 ensures roster[j].id != id {
              if j > 0 { assert roster[j] == roster[1..][j - 1]; }
            }
          }
        }
      }
      assert r.None? ==> forall k :: 0 <= k < |roster| ==> roster[k].id != id by {
        if r.None? {
          forall k | 0 <= k < |roster| ensures roster[k].id != id {
            if k > 0 { assert roster[k] == roster[1..][k - 1]; }
          }
        }
      }
      r
  }

  /** With distinct ids, looking up an entry's own id finds that entry. */
  lemma {:induction false} FindEntry(roster: seq<Character>, k: nat)
    requires DistinctCharacterIds(roster)
    requires k < |roster|
    ensures Find(roster, roster[k].id) == Some(roster[k])
  {
    if k > 0 {
      assert roster[0].id != roster[k].id;
      assert DistinctCharacterIds(roster[1..]) by {
        forall i, j | 0 <= i < j < |roster[1..]| ensures roster[1..][i].id != roster[1..][j].id {
          assert roster[1..][i] == roster[i + 1] && roster[1..][j] == roster[j + 1];
        }
      }
      assert roster[1..][k - 1] == roster[k];
      FindEntry(roster[1..], k - 1);
    }
  }
}
