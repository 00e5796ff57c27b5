/**
 * `DbServices`: the `users` and `Birds` collections as in-memory tables in
 * insertion order, with the driver's id handling for birds (ids are
 * ObjectIds, kept in lower-case hexadecimal, generated when empty, unique).
 */
module Database {
  import opened Wrappers
  import opened Models
  import Text

  /** The first position whose element satisfies `p` (the driver's `FirstOrDefault` in natural order). */
  function FirstIndex<T>(s: seq<T>, p: T -> bool): (r: Option<nat>)
    ensures r.Some? ==> r.value < |s| && p(s[r.value]) && forall k :: 0 <= k < r.value ==> !p(s[k])
    ensures r.None? ==> forall k :: 0 <= k < |s| ==> !p(s[k])
  {
    if s == [] then None
    else if p(s[0]) then Some(0)
    else match FirstIndex(s[1..], p)
      case None => None
      case Some(i) => Some(i + 1)
  }

  // ---------------------------------------------------------------------------
  // ObjectIds.

  predicate IsHexDigit(c: char) {
    '0' <= c <= '9' || 'a' <= c <= 'f' || 'A' <= c <= 'F'
  }

  predicate IsLowerHexDigit(c: char) {
    '0' <= c <= '9' || 'a' <= c <= 'f'
  }

  /** `ObjectId.TryParse`: exactly 24 hexadecimal digits, in either case. */
  predicate IsObjectId(s: string) {
    |s| == 24 && forall i :: 0 <= i < |s| ==> IsHexDigit(s[i])
  }

  /** The text form the store gives back for an ObjectId: lower-case hexadecimal. */
  predicate IsCanonicalId(s: string) {
    |s| == 24 && forall i :: 0 <= i < |s| ==> IsLowerHexDigit(s[i])
  }

  /** The ObjectId a valid id text denotes, in its stored form. */
  function CanonicalId(id: string): (c: string)
    requires IsObjectId(id)
    ensures IsCanonicalId(c) && IsObjectId(c)
    ensures forall i :: 0 <= i < |id| && IsLowerHexDigit(id[i]) ==> c[i] == id[i]
  {
    Text.ToLower(id)
  }

  /** Stored ids parse, and name themselves. */
  lemma CanonicalIdFixed(c: string)
    requires IsCanonicalId(c)
    ensures IsObjectId(c) && CanonicalId(c) == c
  {
  }

  function HexDigit(d: nat): (c: char)
    requires d < 16
    ensures IsLowerHexDigit(c)
  {
    if d < 10 then ('0' as int + d) as char else ('a' as int + d - 10) as char
  }

  /** The low `width` hexadecimal digits of `n`, most significant first. */
  function HexText(n: nat, width: nat): (s: string)
    ensures |s| == width
    ensures forall i :: 0 <= i < |s| ==> IsLowerHexDigit(s[i])
  {
    if width == 0 then "" else HexText(n / 16, width - 1) + [HexDigit(n % 16)]
  }

  /** The id the driver generates for the `n`-th insert that brings no id. */
  function GeneratedId(n: nat): (id: string)
    ensures IsCanonicalId(id)
  {
    HexText(n, 24)
  }

  // ---------------------------------------------------------------------------
  // The tables and their queries.

  datatype DbError = InvalidObjectId | DuplicateKey

  /** No two users share a name, and no present e-mail address is used twice. */
  ghost predicate UniqueUsers(users: seq<UserModel>) {
    forall i, j :: 0 <= i < j < |users| ==>
      users[i].userName != users[j].userName &&
      (users[i].userEmail.Some? ==> users[i].userEmail != users[j].userEmail)
  }

  /** Every stored bird has a stored-form ObjectId, and no two share one. */
  ghost predicate WellKeyed(rows: seq<Bird>) {
    (forall i :: 0 <= i < |rows| ==> IsCanonicalId(rows[i].id)) &&
    (forall i, j :: 0 <= i < j < |rows| ==> rows[i].id != rows[j].id)
  }

  predicate HasUserName(username: string, u: UserModel) {
    u.userName == username
  }

  /** `AuthenticateUserAsync`'s query: the first user with exactly this name. */
  function FindUser(users: seq<UserModel>, username: string): (found: Option<UserModel>)
    ensures found.Some? ==> found.value in users && found.value.userName == username
    ensures found.None? <==> forall u :: u in users ==> u.userName != username
  {
    match FirstIndex(users, u => HasUserName(username, u))
    case None => None
    case Some(i) => Some(users[i])
  }

  predicate SameNameOrNumber(name: Option<string>, number: Option<string>, b: Bird) {
    b.birdName == name || b.birdNumber == number
  }

  /**
   * `FindByNameOrNumberAsync`: the first bird with the same name or the same
   * number; an absent value matches a bird whose field is absent too.
   */
  function FindByNameOrNumber(rows: seq<Bird>, name: Option<string>, number: Option<string>): (found: Option<Bird>)
    ensures found.Some? ==> found.value in rows && (found.value.birdName == name || found.value.birdNumber == number)
    ensures found.None? <==> forall b :: b in rows ==> b.birdName != name && b.birdNumber != number
  {
    match FirstIndex(rows, b => SameNameOrNumber(name, number, b))
    case None => None
    case Some(i) => Some(rows[i])
  }

  predicate HasId(id: string, b: Bird) {
    b.id == id
  }

  function IndexOfId(rows: seq<Bird>, id: string): (r: Option<nat>)
    ensures r.Some? ==> r.value < |rows| && rows[r.value].id == id
    ensures r.None? <==> forall b :: b in rows ==> b.id != id
  {
    FirstIndex(rows, b => HasId(id, b))
  }

  /** `GetByIdAsync` on a stored-form id. */
  function FindById(rows: seq<Bird>, id: string): (found: Option<Bird>)
    ensures found.Some? ==> found.value in rows && found.value.id == id
    ensures found.None? <==> forall b :: b in rows ==> b.id != id
  {
    match IndexOfId(rows, id)
    case None => None
    case Some(i) => Some(rows[i])
  }

  /** The birds table after an insert attempt, and the id generator's next value. */
  datatype Insertion = Insertion(outcome: Result<Bird, DbError>, rows: seq<Bird>, nextObjectId: nat)

  /**
   * `CreateAsync`: an empty id is generated, any other id must parse as an
   * ObjectId, and an id already stored is a duplicate-key error.
   */
  function InsertBird(rows: seq<Bird>, nextObjectId: nat, bird: Bird): (ins: Insertion)
    ensures WellKeyed(rows) ==> WellKeyed(ins.rows)
    ensures ins.outcome.Failure? ==> ins.rows == rows
    ensures ins.outcome.Success? ==>
      && ins.rows == rows + [ins.outcome.value]
      && ins.outcome.value == bird.(id := ins.outcome.value.id)
      && (bird.id != "" ==> IsObjectId(bird.id) && ins.outcome.value.id == CanonicalId(bird.id))
      && (forall i :: 0 <= i < |rows| ==> rows[i].id != ins.outcome.value.id)
    ensures ins.outcome == Failure(InvalidObjectId) <==> bird.id != "" && !IsObjectId(bird.id)
    ensures ins.outcome == Failure(DuplicateKey) <==>
      (bird.id == "" || IsObjectId(bird.id)) &&
      exists i :: 0 <= i < |rows| && rows[i].id == (if bird.id == "" then GeneratedId(nextObjectId) else CanonicalId(bird.id))
    ensures ins.outcome.Success? && bird.id == "" ==> ins.outcome.value.id == GeneratedId(nextObjectId)
    ensures ins.nextObjectId == if bird.id == "" then nextObjectId + 1 else nextObjectId
  {
    var generated := bird.id == "";
    if !generated && !IsObjectId(bird.id) then Insertion(Failure(InvalidObjectId), rows, nextObjectId)
    else
      var id := if generated then GeneratedId(nextObjectId) else CanonicalId(bird.id);
      var next := if generated then nextObjectId + 1 else nextObjectId;
      if IndexOfId(rows, id).Some? then Insertion(Failure(DuplicateKey), rows, next)
      else
        assert IsCanonicalId(id);
        assert forall i :: 0 <= i < |rows| ==> (rows + [bird.(id := id)])[i].id == rows[i].id != id;
        Insertion(Success(bird.(id := id)), rows + [bird.(id := id)], next)
  }

  /** `ReplaceOneAsync` on the row holding `id`. */
  function ReplaceById(rows: seq<Bird>, id: string, bird: Bird): (r: seq<Bird>)
    ensures |r| == |rows|
    ensures forall i :: 0 <= i < |rows| ==> r[i] == if rows[i].id == id then bird else rows[i]
    requires WellKeyed(rows)
  {
    match IndexOfId(rows, id)
    case None => rows
    case Some(i) => rows[..i] + [bird] + rows[i + 1..]
  }

  /** `DeleteOneAsync` on the row holding `id`. */
  function RemoveById(rows: seq<Bird>, id: string): (r: seq<Bird>)
    requires WellKeyed(rows)
    ensures forall b :: b in r <==> b in rows && b.id != id
    ensures |r| == if IndexOfId(rows, id).Some? then |rows| - 1 else |rows|
    ensures WellKeyed(r)
  {
    match IndexOfId(rows, id)
    case None => rows
    case Some(i) =>
      assert forall b :: b in rows[..i] + rows[i + 1..] <==> b in rows && b.id != id by {
        forall b ensures b in rows[..i] + rows[i + 1..] <==> b in rows && b.id != id {
          if b in rows && b.id != id {
            var k :| 0 <= k < |rows| && rows[k] == b;
            if k < i { assert rows[..i][k] == b; } else { assert rows[i + 1..][k - i - 1] == b; }
          }
        }
      }
      rows[..i] + rows[i + 1..]
  }

  // ---------------------------------------------------------------------------
  // The service.

  class DbServices {
    var users: seq<UserModel>
    var birds: seq<Bird>
    /** The driver's ObjectId generator, abstracted to a counter. */
    var nextObjectId: nat

    ghost predicate Valid()
      reads this
    {
      UniqueUsers(users) && WellKeyed(birds)
    }

    constructor (users: seq<UserModel>, birds: seq<Bird>)
      requires UniqueUsers(users) && WellKeyed(birds)
      ensures Valid() && this.users == users && this.birds == birds
    {
      this.users := users;
      this.birds := birds;
      nextObjectId := 0;
    }

    /**
     * `RegisterUserAsync`: refused when the name or the e-mail address is
     * taken; otherwise the user is stored with the hash of the password and
     * the default role.
     */
    method RegisterUser(username: string, email: string, password: string, hash: string -> string)
      returns (registered: bool)
      requires Valid()
      modifies this
      ensures Valid() && birds == old(birds) && nextObjectId == old(nextObjectId)
      ensures registered <==> forall u :: u in old(users) ==> u.userName != username && u.userEmail != Some(email)
      ensures users == if registered
        then old(users) + [UserModel(username, Some(email), hash(password), DefaultRole)]
        else old(users)
    {
      var existing := FirstIndex(users, (u: UserModel) => u.userName == username || u.userEmail == Some(email));
      if existing.Some? {
        return false;
      }
      users := users + [UserModel(username, Some(email), hash(password), DefaultRole)];
      registered := true;
    }

    /** `AuthenticateUserAsync`: looks the user up by name only; the password is not consulted here. */
    method AuthenticateUser(username: string, password: string) returns (user: Option<UserModel>)
      ensures user == FindUser(users, username)
      ensures user.Some? ==> user.value in users && user.value.userName == username
    {
      user := FindUser(users, username);
    }

    method FindByNameOrNumberAsync(name: Option<string>, number: Option<string>) returns (bird: Option<Bird>)
      ensures bird == FindByNameOrNumber(birds, name, number)
    {
      bird := FindByNameOrNumber(birds, name, number);
    }

    /** `GetByIdAsync`: an id that is not an ObjectId cannot even be put in the query. */
    method GetById(id: string) returns (found: Result<Option<Bird>, DbError>)
      ensures !IsObjectId(id) ==> found == Failure(InvalidObjectId)
      ensures IsObjectId(id) ==> found == Success(FindById(birds, CanonicalId(id)))
    {
      if !IsObjectId(id) {
        return Failure(InvalidObjectId);
      }
      found := Success(FindById(birds, CanonicalId(id)));
    }

    method Create(bird: Bird) returns (created: Result<Bird, DbError>)
      requires Valid()
      modifies this
      ensures Valid() && users == old(users)
      ensures Insertion(created, birds, nextObjectId) == InsertBird(old(birds), old(nextObjectId), bird)
    {
      var ins := InsertBird(birds, nextObjectId, bird);
      birds := ins.rows;
      nextObjectId := ins.nextObjectId;
      created := ins.outcome;
    }

    /**
     * `UpdateAsync`: replaces the bird stored under `id`.  The replacement
     * carries that same id (the store refuses to change an id).
     */
    method Update(id: string, bird: Bird) returns (updated: Result<(), DbError>)
      requires Valid()
      requires IsObjectId(id) ==> bird.id == CanonicalId(id)
      modifies this
      ensures Valid() && users == old(users) && nextObjectId == old(nextObjectId)
      ensures !IsObjectId(id) <==> updated.Failure?
      ensures birds == if IsObjectId(id) then ReplaceById(old(birds), bird.id, bird) else old(birds)
    {
      if !IsObjectId(id) {
        return Failure(InvalidObjectId);
      }
      var rows := ReplaceById(birds, bird.id, bird);
      assert forall i :: 0 <= i < |rows| ==> rows[i].id == birds[i].id;
      birds := rows;
      updated := Success(());
    }

    /** `DeleteAsync`: removes the bird stored under `id`, if any. */
    method Delete(id: string) returns (deleted: Result<(), DbError>)
      requires Valid()
      modifies this
      ensures Valid() && users == old(users) && nextObjectId == old(nextObjectId)
      ensures !IsObjectId(id) <==> deleted.Failure?
      ensures birds == if IsObjectId(id) then RemoveById(old(birds), CanonicalId(id)) else old(birds)
    {
      if !IsObjectId(id) {
        return Failure(InvalidObjectId);
      }
      birds := RemoveById(birds, CanonicalId(id));
      deleted := Success(());
    }
  }
}
