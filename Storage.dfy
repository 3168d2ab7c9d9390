/**
 * The browser store of users, races and the signed-in user
 * (src/utils/storage.ts).  Each list lives under its own key as JSON; here the
 * decoded lists are fields of one object and every save or delete reassigns
 * them.  Saves are upserts by id: the first record with the same id is
 * replaced where it stands, otherwise the record is appended.
 */
module Storage {
  import opened Wrappers
  import opened Types

  function UserId(u: User): string { u.id }
  function UserEmail(u: User): string { u.email }
  function RaceId(r: Race): string { r.id }

  /** Array.prototype.findIndex on a string key: the first position holding `k`. */
  function IndexOfKey<T>(s: seq<T>, key: T -> string, k: string): (r: Option<nat>)
    ensures r.Some? ==> r.value < |s| && key(s[r.value]) == k
    ensures r.Some? ==> forall j | 0 <= j < r.value :: key(s[j]) != k
    ensures r.None? <==> forall j | 0 <= j < |s| :: key(s[j]) != k
  {
    if s == [] then None
    else if key(s[0]) == k then Some(0)
    else
      match IndexOfKey(s[1..], key, k)
      case None => None
      case Some(i) => Some(i + 1)
  }

  /** Array.prototype.find on a string key, `null` when nothing matches. */
  function FindByKey<T>(s: seq<T>, key: T -> string, k: string): Option<T> {
    match IndexOfKey(s, key, k)
    case Some(i) => Some(s[i])
    case None => None
  }

  /** What `find` returns: the first element carrying the key, or nothing when no element does. */
  lemma FindByKeyFirst<T>(s: seq<T>, key: T -> string, k: string)
    ensures var r := FindByKey(s, key, k);
      && (r.Some? ==> exists i | 0 <= i < |s| :: s[i] == r.value && key(s[i]) == k && forall j | 0 <= j < i :: key(s[j]) != k)
      && (r.None? <==> forall j | 0 <= j < |s| :: key(s[j]) != k)
  {
    if IndexOfKey(s, key, k).Some? {
      var i := IndexOfKey(s, key, k).value;
      assert s[i] == FindByKey(s, key, k).value;
    }
  }

  /**
   * The save step of saveUser and saveRace: a record whose key is already
   * stored replaces one in place, so the length stays; a new key is appended.
   * Every record with another key stays where it was, and the saved record is
   * in the result.  The replaced record is the first with the key: every other
   * position, later ones with the same key included, is left as it was.
   */
  function Upsert<T>(s: seq<T>, key: T -> string, x: T): (r: seq<T>)
    ensures (exists j | 0 <= j < |s| :: key(s[j]) == key(x)) ==> |r| == |s|
    ensures IndexOfKey(s, key, key(x)).Some? ==>
      var i := IndexOfKey(s, key, key(x)).value;
      r[i] == x && forall j | 0 <= j < |s| && j != i :: r[j] == s[j]
    ensures (forall j | 0 <= j < |s| :: key(s[j]) != key(x)) ==> r == s + [x]
    ensures forall j | 0 <= j < |s| && key(s[j]) != key(x) :: r[j] == s[j]
    ensures x in r
  {
    match IndexOfKey(s, key, key(x))
    case Some(i) =>
      assert s[i := x][i] == x;
      s[i := x]
    case None =>
      assert (s + [x])[|s|] == x;
      s + [x]
  }

  /** Array.prototype.filter. */
  function KeepWhere<T(!new)>(s: seq<T>, p: T -> bool): (r: seq<T>)
    ensures |r| <= |s|
  {
    if s == [] then []
    else if p(s[0]) then [s[0]] + KeepWhere(s[1..], p)
    else KeepWhere(s[1..], p)
  }

  /** The filtered list holds exactly the elements that pass the test. */
  lemma {:induction false} KeepWhereIn<T(!new)>(s: seq<T>, p: T -> bool)
    ensures forall x :: x in KeepWhere(s, p) <==> x in s && p(x)
  {
    if s != [] {
      KeepWhereIn(s[1..], p);
      assert s == [s[0]] + s[1..];
    }
  }

  /** Filtering keeps the order: the kept part of a concatenation is the concatenation of the kept parts. */
  lemma {:induction false} KeepWhereConcat<T(!new)>(a: seq<T>, b: seq<T>, p: T -> bool)
    ensures KeepWhere(a + b, p) == KeepWhere(a, p) + KeepWhere(b, p)
  {
    if a == [] {
      assert a + b == b;
    } else {
      var x, tail := a[0], a[1..];
      KeepWhereConcat(tail, b, p);
      ConsSplit(a, b);
      KeepWhereCons(x, tail + b, p);
      KeepWhereCons(x, tail, p);
      ConcatAssoc(if p(x) then [x] else [], KeepWhere(tail, p), KeepWhere(b, p));
    }
  }

  lemma ConsSplit<T>(a: seq<T>, b: seq<T>)
    requires a != []
    ensures a == [a[0]] + a[1..] && a + b == [a[0]] + (a[1..] + b)
  {
    assert a + b == [a[0]] + (a[1..] + b);
  }

  lemma ConcatAssoc<T>(u: seq<T>, v: seq<T>, w: seq<T>)
    ensures u + (v + w) == u + v + w
  {
  }

  lemma KeepWhereCons<T(!new)>(x: T, rest: seq<T>, p: T -> bool)
    ensures KeepWhere([x] + rest, p) == (if p(x) then [x] else []) + KeepWhere(rest, p)
  {
    assert ([x] + rest)[0] == x && ([x] + rest)[1..] == rest;
  }

  /** Filtering a list whose keys are unique leaves them unique. */
  lemma {:induction false} KeepWhereUnique<T(!new)>(s: seq<T>, key: T -> string, p: T -> bool)
    requires Unique(s, key)
    ensures Unique(KeepWhere(s, p), key)
  {
    if s != [] {
      var rest := s[1..];
      forall i, j | 0 <= i < j < |rest| ensures key(rest[i]) != key(rest[j]) {
        assert rest[i] == s[i + 1] && rest[j] == s[j + 1];
      }
      KeepWhereUnique(rest, key, p);
      if p(s[0]) {
        var k := KeepWhere(rest, p);
        KeepWhereIn(rest, p);
        forall j | 0 <= j < |k| ensures key(s[0]) != key(k[j]) {
          assert k[j] in rest;
          var m :| 0 <= m < |rest| && rest[m] == k[j];
          assert s[m + 1] == k[j];
        }
        var r := [s[0]] + k;
        forall i, j | 0 <= i < j < |r| ensures key(r[i]) != key(r[j]) {
          assert r[j] == k[j - 1];
          if i > 0 {
            assert r[i] == k[i - 1];
          }
        }
      }
    }
  }

  /** No two records share a key. */
  ghost predicate Unique<T>(s: seq<T>, key: T -> string) {
    forall i, j | 0 <= i < j < |s| :: key(s[i]) != key(s[j])
  }

  /** A saved record is what a lookup by its id finds next. */
  lemma UpsertThenFind<T>(s: seq<T>, key: T -> string, x: T)
    ensures FindByKey(Upsert(s, key, x), key, key(x)) == Some(x)
  {
    var r := Upsert(s, key, x);
    match IndexOfKey(s, key, key(x))
    case Some(i) =>
      assert forall j | 0 <= j < i :: r[j] == s[j];
      IndexOfKeyIs(r, key, key(x), i);
    case None =>
      assert forall j | 0 <= j < |s| :: r[j] == s[j];
      IndexOfKeyIs(r, key, key(x), |s|);
  }

  /** findIndex is determined by where the first match is. */
  lemma IndexOfKeyIs<T>(s: seq<T>, key: T -> string, k: string, i: nat)
    requires i < |s| && key(s[i]) == k
    requires forall j | 0 <= j < i :: key(s[j]) != k
    ensures IndexOfKey(s, key, k) == Some(i)
  {
    var r := IndexOfKey(s, key, k);
    assert r.Some? && !(r.value < i) && !(r.value > i);
  }

  /** Saving keeps ids unique. */
  lemma UpsertKeepsUnique<T>(s: seq<T>, key: T -> string, x: T)
    requires Unique(s, key)
    ensures Unique(Upsert(s, key, x), key)
  {
    var r := Upsert(s, key, x);
    match IndexOfKey(s, key, key(x))
    case Some(i) =>
      forall a, b | 0 <= a < b < |r| ensures key(r[a]) != key(r[b]) {
        if a != i && b != i {
          assert r[a] == s[a] && r[b] == s[b];
        } else if a == i {
          assert key(r[a]) == key(s[i]) && r[b] == s[b];
        } else {
          assert key(r[b]) == key(s[i]) && r[a] == s[a];
        }
      }
    case None =>
      forall a, b | 0 <= a < b < |r| ensures key(r[a]) != key(r[b]) {
        if b < |s| {
          assert r[a] == s[a] && r[b] == s[b];
        } else {
          assert r[a] == s[a] && r[b] == x;
        }
      }
  }

  /** The delete step of deleteRace: keep the records whose key is not `k`. */
  function WithoutKey<T(!new)>(s: seq<T>, key: T -> string, k: string): (r: seq<T>)
    ensures forall x :: x in r <==> x in s && key(x) != k
  {
    KeepWhereIn(s, (x: T) => key(x) != k);
    KeepWhere(s, (x: T) => key(x) != k)
  }

  /** A delete keeps ids unique. */
  lemma WithoutKeyUnique<T(!new)>(s: seq<T>, key: T -> string, k: string)
    requires Unique(s, key)
    ensures Unique(WithoutKey(s, key, k), key)
  {
    KeepWhereUnique(s, key, (x: T) => key(x) != k);
  }

  /** Filtering out one id removes every record with it and keeps all the others. */
  lemma DeleteRemoves<T(!new)>(s: seq<T>, key: T -> string, k: string)
    ensures var r := WithoutKey(s, key, k);
      && FindByKey(r, key, k) == None
      && forall x :: x in r <==> x in s && key(x) != k
  {
    var r := WithoutKey(s, key, k);
    KeepWhereIn(s, (x: T) => key(x) != k);
    forall j | 0 <= j < |r| ensures key(r[j]) != k {
      assert r[j] in r;
    }
  }

  /** Filtering with a test every element passes changes nothing. */
  lemma {:induction false} KeepAll<T(!new)>(s: seq<T>, p: T -> bool)
    requires forall j | 0 <= j < |s| :: p(s[j])
    ensures KeepWhere(s, p) == s
  {
    if s != [] {
      KeepAll(s[1..], p);
      assert [s[0]] + s[1..] == s;
    }
  }

  /** Deleting an id no record carries leaves the list as it was. */
  lemma DeleteAbsent<T(!new)>(s: seq<T>, key: T -> string, k: string)
    requires FindByKey(s, key, k) == None
    ensures WithoutKey(s, key, k) == s
  {
    KeepAll(s, (x: T) => key(x) != k);
  }

  /** getRaces: all races, or, given a non-empty user id, that user's races in stored order. */
  function RacesOf(races: seq<Race>, userId: Option<string>): (r: seq<Race>)
    ensures userId.None? || userId == Some("") ==> r == races
    ensures userId.Some? && userId.value != "" ==> forall x :: x in r <==> x in races && x.userId == userId.value
  {
    if userId.Some? && userId.value != "" then
      KeepWhereIn(races, (x: Race) => x.userId == userId.value);
      KeepWhere(races, (x: Race) => x.userId == userId.value)
    else races
  }

  /** A user's races in a list made of two parts are that user's races in the first part, then in the second. */
  lemma RacesOfConcat(a: seq<Race>, b: seq<Race>, userId: Option<string>)
    ensures RacesOf(a + b, userId) == RacesOf(a, userId) + RacesOf(b, userId)
  {
    if userId.Some? && userId.value != "" {
      KeepWhereConcat(a, b, (x: Race) => x.userId == userId.value);
    }
  }

  class Store {
    var users: seq<User>
    var races: seq<Race>
    var currentUser: Option<User>

    /** User ids and race ids are unique: saves keep it that way. */
    ghost predicate Valid()
      reads this
    {
      Unique(users, UserId) && Unique(races, RaceId)
    }

    /** Nothing stored yet: reading an absent key gives an empty list or `null`. */
    constructor ()
      ensures users == [] && races == [] && currentUser == None
      ensures Valid()
    {
      users := [];
      races := [];
      currentUser := None;
    }

    method SaveUser(user: User)
      modifies this
      ensures users == Upsert(old(users), UserId, user)
      ensures races == old(races) && currentUser == old(currentUser)
      ensures FindByKey(users, UserId, user.id) == Some(user)
      ensures old(Valid()) ==> Valid()
    {
      UpsertThenFind(users, UserId, user);
      if Unique(users, UserId) {
        UpsertKeepsUnique(users, UserId, user);
      }
      users := Upsert(users, UserId, user);
    }

    /** The first user registered with the email, or `null`. */
    method GetUserByEmail(email: string) returns (u: Option<User>)
      ensures u.Some? ==> u.value in users && u.value.email == email
      ensures u.Some? ==> exists i | 0 <= i < |users| :: users[i] == u.value && forall j | 0 <= j < i :: users[j].email != email
      ensures u.None? <==> forall j | 0 <= j < |users| :: users[j].email != email
    {
      FindByKeyFirst(users, UserEmail, email);
      u := FindByKey(users, UserEmail, email);
    }

    /** Stores the signed-in user, or forgets it when given `null`. */
    method SetCurrentUser(user: Option<User>)
      modifies this
      ensures currentUser == user
      ensures users == old(users) && races == old(races)
    {
      currentUser := user;
    }

    method GetCurrentUser() returns (u: Option<User>)
      ensures u == currentUser
    {
      u := currentUser;
    }

    method SaveRace(race: Race)
      modifies this
      ensures races == Upsert(old(races), RaceId, race)
      ensures users == old(users) && currentUser == old(currentUser)
      ensures FindByKey(races, RaceId, race.id) == Some(race)
      ensures old(Valid()) ==> Valid()
    {
      UpsertThenFind(races, RaceId, race);
      if Unique(races, RaceId) {
        UpsertKeepsUnique(races, RaceId, race);
      }
      races := Upsert(races, RaceId, race);
    }

    /** All races, or only those of the user when a non-empty user id is given. */
    method GetRaces(userId: Option<string>) returns (r: seq<Race>)
      ensures r == RacesOf(races, userId)
      ensures |r| <= |races|
      ensures userId.None? || userId == Some("") ==> r == races
      ensures userId.Some? && userId.value != "" ==> forall x :: x in r <==> x in races && x.userId == userId.value
    {
      r := RacesOf(races, userId);
    }

    /** The first race with the id, or `null`. */
    method GetRaceById(id: string) returns (r: Option<Race>)
      ensures r == FindByKey(races, RaceId, id)
      ensures r.Some? ==> r.value in races && r.value.id == id
      ensures r.Some? ==> exists i | 0 <= i < |races| :: races[i] == r.value && forall j | 0 <= j < i :: races[j].id != id
      ensures r.None? <==> forall j | 0 <= j < |races| :: races[j].id != id
    {
      FindByKeyFirst(races, RaceId, id);
      r := FindByKey(races, RaceId, id);
    }

    /** Drops every race with the id and keeps the others in order. */
    method DeleteRace(id: string)
      modifies this
      ensures races == WithoutKey(old(races), RaceId, id)
      ensures users == old(users) && currentUser == old(currentUser)
      ensures FindByKey(races, RaceId, id) == None
      ensures forall x :: x in races <==> x in old(races) && x.id != id
      ensures FindByKey(old(races), RaceId, id) == None ==> races == old(races)
      ensures old(Valid()) ==> Valid()
    {
      DeleteRemoves(races, RaceId, id);
      if Unique(races, RaceId) {
        WithoutKeyUnique(races, RaceId, id);
      }
      if FindByKey(races, RaceId, id) == None {
        DeleteAbsent(races, RaceId, id);
      }
      races := WithoutKey(races, RaceId, id);
    }
  }
}
