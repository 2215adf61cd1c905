/**
 * The user handlers of the REST backend (`/api/users`), over the
 * `profil_adatlap` table. The table is a map from the auto-increment id to a
 * row; the read-only handlers are functions of that map, the writing ones are
 * methods of `UserStore`, which owns the map. The password hash
 * (`bcrypt.hash`) is an arbitrary function fixed when the store is built, and
 * each salt (`bcrypt.genSalt`) is a value the caller supplies.
 */
module UserController {
  import opened Http

  const DefaultLimit: nat := 50
  const DefaultOffset: nat := 0

  const MissingFieldsError := "Email, felhasználónév és jelszó megadása kötelező!"
  const UserNotFoundError := "Felhasználó nem található"
  const DeletedMessage := "Felhasználó sikeresen törölve"

  /** The two columns no response may carry. */
  const Credentials: set<string> := {"jelszo", "salt"}

  /** One row of `profil_adatlap` (the id is the table's key). */
  datatype UserRecord = UserRecord(
    email: string,
    felhasznalonev: string,
    jelszo: string,
    salt: string,
    profilkep: Option<string>,
    jogosultsag: int)

  type Table = map<nat, UserRecord>

  /** A request body: each column may be sent or not; `profilkep` may be sent as null. */
  datatype UserBody = UserBody(
    email: Field<string>,
    felhasznalonev: Field<string>,
    jelszo: Field<string>,
    salt: Field<string>,
    profilkep: Field<Option<string>>,
    jogosultsag: Field<int>)

  const EmptyBody := UserBody(Absent, Absent, Absent, Absent, Absent, Absent)

  /** The `limit` and `offset` query parameters, already read as numbers. */
  datatype ListQuery = ListQuery(limit: Field<nat>, offset: Field<nat>)

  function Limit(q: ListQuery): nat { Override(q.limit, DefaultLimit) }
  function Offset(q: ListQuery): nat { Override(q.offset, DefaultOffset) }

  ghost predicate Injective(hash: string -> string) {
    forall a, b :: hash(a) == hash(b) ==> a == b
  }

  /** `findByPk(id)` finds a row. */
  predicate Exists(t: Table, id: int) {
    id >= 0 && id in t
  }

  // ---------------------------------------------------------------------------
  // Serialisation and redaction

  /** `toJSON()` of a row: every column, credentials included. */
  function ToJson(id: nat, u: UserRecord): JsonObject {
    map[
      "id" := Num(id),
      "email" := Str(u.email),
      "felhasznalonev" := Str(u.felhasznalonev),
      "jelszo" := Str(u.jelszo),
      "salt" := Str(u.salt),
      "profilkep" := (match u.profilkep case None => Null case Some(p) => Str(p)),
      "jogosultsag" := Num(u.jogosultsag)]
  }

  /** A row read with `attributes: { exclude: ['jelszo', 'salt'] }`. */
  function PublicView(id: nat, u: UserRecord): JsonObject {
    map[
      "id" := Num(id),
      "email" := Str(u.email),
      "felhasznalonev" := Str(u.felhasznalonev),
      "profilkep" := (match u.profilkep case None => Null case Some(p) => Str(p)),
      "jogosultsag" := Num(u.jogosultsag)]
  }

  /** No user object in the body carries a `jelszo` or a `salt` key. */
  predicate NoCredentials(r: Response<JsonObject>) {
    match r.body
    case Item(o) => o.Keys !! Credentials
    case Items(_, os) => forall i :: 0 <= i < |os| ==> os[i].Keys !! Credentials
    case _ => true
  }

  /**
   * The projection the read handlers ask the database for is exactly what the
   * writing handlers get by deleting the two credential keys from `toJSON()`,
   * and it has no credential key: every path to a response shows the same
   * public columns.
   */
  lemma RedactionMatchesExclusion(id: nat, u: UserRecord)
    ensures ToJson(id, u) - {"jelszo"} - {"salt"} == PublicView(id, u)
    ensures PublicView(id, u).Keys !! Credentials
    ensures PublicView(id, u)["id"] == Num(id)
  {
  }

  // ---------------------------------------------------------------------------
  // Read-only handlers

  /** `m` is the smallest key of `ks`. */
  predicate IsMin(m: nat, ks: set<nat>) {
    m in ks && forall k :: k in ks ==> m <= k
  }

  lemma {:induction false} MinExists(ks: set<nat>)
    requires ks != {}
    ensures exists m :: IsMin(m, ks)
    decreases |ks|
  {
    var x :| x in ks;
    if ks == {x} {
      assert IsMin(x, ks);
    } else {
      var rest := ks - {x};
      assert rest != {} by { var z :| z in ks && z != x; assert z in rest; }
      MinExists(rest);
      var m :| IsMin(m, rest);
      var y := if x < m then x else m;
      forall k | k in ks ensures y <= k {
        if k != x { assert k in rest; }
      }
      assert IsMin(y, ks);
    }
  }

  function MinOf(ks: set<nat>): (m: nat)
    requires ks != {}
    ensures IsMin(m, ks)
  {
    MinExists(ks);
    var m :| IsMin(m, ks);
    m
  }

  predicate StrictlyIncreasing(s: seq<nat>) {
    forall i, j :: 0 <= i < j < |s| ==> s[i] < s[j]
  }

  /** The ids of the table in the order `order: [['id', 'ASC']]` gives them. */
  function AscendingIds(ks: set<nat>): (s: seq<nat>)
    ensures StrictlyIncreasing(s)
    ensures forall k :: k in s <==> k in ks
    ensures |s| == |ks|
    decreases |ks|
  {
    if ks == {} then []
    else
      var m := MinOf(ks);
      var rest := AscendingIds(ks - {m});
      assert forall k :: k in rest ==> m < k;
      [m] + rest
  }

  function Min(a: nat, b: nat): nat { if a <= b then a else b }

  /** SQL `LIMIT limit OFFSET offset` over an ordered result. */
  function Page<T>(s: seq<T>, offset: nat, limit: nat): (p: seq<T>)
    ensures |p| == if offset >= |s| then 0 else Min(limit, |s| - offset)
    ensures forall i :: 0 <= i < |p| ==> p[i] == s[offset + i]
  {
    if offset >= |s| then [] else s[offset .. offset + Min(limit, |s| - offset)]
  }

  /** The public views of the rows with the given ids, in that order. */
  function PublicRows(t: Table, ids: seq<nat>): (r: seq<JsonObject>)
    requires forall i :: 0 <= i < |ids| ==> ids[i] in t
    ensures |r| == |ids|
    ensures forall i :: 0 <= i < |ids| ==> r[i] == PublicView(ids[i], t[ids[i]])
  {
    if ids == [] then [] else [PublicView(ids[0], t[ids[0]])] + PublicRows(t, ids[1..])
  }

  /**
   * `GET /api/users`: skips `offset` rows, returns at most `limit` of the
   * rest in ascending id order, with `count` equal to the number returned and
   * no credential column.
   */
  function GetAllUsers(t: Table, q: ListQuery): (r: Response<JsonObject>)
    ensures r.status == OK && r.body.Items?
    ensures r.body.count == |r.body.items| <= Limit(q)
    ensures |r.body.items| == if Offset(q) >= |t| then 0 else Min(Limit(q), |t| - Offset(q))
    ensures forall i :: 0 <= i < |r.body.items| ==>
      var id := AscendingIds(t.Keys)[Offset(q) + i];
      id in t && r.body.items[i] == PublicView(id, t[id])
    ensures NoCredentials(r)
  {
    var ids := Page(AscendingIds(t.Keys), Offset(q), Limit(q));
    var rows := PublicRows(t, ids);
    forall i | 0 <= i < |rows| ensures rows[i].Keys !! Credentials {
      RedactionMatchesExclusion(ids[i], t[ids[i]]);
    }
    Response(OK, Items(|rows|, rows))
  }

  /** `GET /api/users/:id`: the public columns of the row, or 404 when there is none. */
  function GetUserById(t: Table, id: int): (r: Response<JsonObject>)
    ensures r.status == OK <==> Exists(t, id)
    ensures Exists(t, id) ==> r.body == Item(PublicView(id, t[id]))
    ensures !Exists(t, id) ==> r.status == NotFound && r.body == Error(UserNotFoundError)
    ensures NoCredentials(r)
  {
    if Exists(t, id) then
      RedactionMatchesExclusion(id, t[id]);
      Response(OK, Item(PublicView(id, t[id])))
    else
      Response(NotFound, Error(UserNotFoundError))
  }

  /** Listed users come in strictly ascending id order. */
  lemma ListedInAscendingIdOrder(t: Table, q: ListQuery)
    ensures var items := GetAllUsers(t, q).body.items;
      forall i, j :: 0 <= i < j < |items| ==>
        "id" in items[i] && "id" in items[j] && items[i]["id"].Num? && items[j]["id"].Num?
        && items[i]["id"].n < items[j]["id"].n
  {
    var ids := AscendingIds(t.Keys);
    var items := GetAllUsers(t, q).body.items;
    forall k | 0 <= k < |items| ensures "id" in items[k] && items[k]["id"] == Num(ids[Offset(q) + k]) {
      RedactionMatchesExclusion(ids[Offset(q) + k], t[ids[Offset(q) + k]]);
    }
  }

  /** With offset 0 and a limit no smaller than the table, every user is listed. */
  lemma EveryUserListed(t: Table, q: ListQuery, id: nat)
    requires Offset(q) == 0 && Limit(q) >= |t| && id in t
    ensures PublicView(id, t[id]) in GetAllUsers(t, q).body.items
  {
  }

  /** Without query parameters the first 50 users by id are listed. */
  lemma DefaultPage(t: Table)
    ensures var items := GetAllUsers(t, ListQuery(Absent, Absent)).body.items;
      |items| == Min(50, |t|)
      && forall i :: 0 <= i < |items| ==>
           var id := AscendingIds(t.Keys)[i]; id in t && items[i] == PublicView(id, t[id])
  {
  }

  // ---------------------------------------------------------------------------
  // Writing handlers as record transformations

  /** `!email || !felhasznalonev || !jelszo` is false. */
  predicate HasRequiredFields(b: UserBody) {
    Truthy(b.email) && Truthy(b.felhasznalonev) && Truthy(b.jelszo)
  }

  /** The row `createUser` inserts: hashed password, fresh salt, defaults for the optional columns. */
  function CreatedRecord(b: UserBody, hash: string -> string, salt: string): UserRecord
    requires HasRequiredFields(b)
  {
    UserRecord(
      email := b.email.value,
      felhasznalonev := b.felhasznalonev.value,
      jelszo := hash(b.jelszo.value),
      salt := salt,
      profilkep := match b.profilkep
                   case Given(Some(p)) => if p == "" then None else Some(p)
                   case _ => None,
      jogosultsag := Override(b.jogosultsag, 0))
  }

  /**
   * The row `updateUser` leaves: each sent column overwrites the stored one;
   * a truthy `jelszo` is stored hashed with a fresh salt, while a falsy one
   * (the empty string) is stored as sent and leaves the salt to the body.
   */
  function UpdatedRecord(u: UserRecord, b: UserBody, hash: string -> string, salt: string): UserRecord {
    var rehash := Truthy(b.jelszo);
    UserRecord(
      email := Override(b.email, u.email),
      felhasznalonev := Override(b.felhasznalonev, u.felhasznalonev),
      jelszo := if rehash then hash(b.jelszo.value) else Override(b.jelszo, u.jelszo),
      salt := if rehash then salt else Override(b.salt, u.salt),
      profilkep := Override(b.profilkep, u.profilkep),
      jogosultsag := Override(b.jogosultsag, u.jogosultsag))
  }

  /** `instance.update(values)`: every key sent overwrites its column. */
  function Apply(u: UserRecord, b: UserBody): UserRecord {
    UserRecord(
      Override(b.email, u.email),
      Override(b.felhasznalonev, u.felhasznalonev),
      Override(b.jelszo, u.jelszo),
      Override(b.salt, u.salt),
      Override(b.profilkep, u.profilkep),
      Override(b.jogosultsag, u.jogosultsag))
  }

  /** Created rows store the hash of the password and the given salt, never the body's own salt. */
  lemma CreateStoresHash(b: UserBody, hash: string -> string, salt: string)
    requires HasRequiredFields(b)
    ensures CreatedRecord(b, hash, salt).jelszo == hash(b.jelszo.value)
    ensures CreatedRecord(b, hash, salt).salt == salt
    ensures CreatedRecord(b, hash, salt).email == b.email.value
    ensures CreatedRecord(b, hash, salt).felhasznalonev == b.felhasznalonev.value
  {
  }

  /** `profilkep || null` and `jogosultsag || 0`. */
  lemma CreateDefaults(b: UserBody, hash: string -> string, salt: string)
    requires HasRequiredFields(b)
    ensures var u := CreatedRecord(b, hash, salt);
      && (u.profilkep == None <==> b.profilkep.Absent? || b.profilkep.value == None || b.profilkep.value == Some(""))
      && (u.profilkep != None ==> b.profilkep == Given(u.profilkep))
      && (u.jogosultsag == if b.jogosultsag.Given? then b.jogosultsag.value else 0)
  {
  }

  /** With an injective hash, different passwords are stored as different hashes. */
  lemma DistinctPasswordsDistinctHashes(hash: string -> string, b1: UserBody, b2: UserBody, s1: string, s2: string)
    requires Injective(hash)
    requires HasRequiredFields(b1) && HasRequiredFields(b2)
    requires b1.jelszo.value != b2.jelszo.value
    ensures CreatedRecord(b1, hash, s1).jelszo != CreatedRecord(b2, hash, s2).jelszo
  {
  }

  /** An update that sends neither `jelszo` nor `salt` keeps the stored hash and salt. */
  lemma UpdateWithoutPasswordKeepsCredential(u: UserRecord, b: UserBody, hash: string -> string, salt: string)
    requires b.jelszo.Absent? && b.salt.Absent?
    ensures UpdatedRecord(u, b, hash, salt).jelszo == u.jelszo
    ensures UpdatedRecord(u, b, hash, salt).salt == u.salt
  {
  }

  /** A truthy `jelszo` replaces the hash and the salt, whatever salt the body sent. */
  lemma UpdateRehashes(u: UserRecord, b: UserBody, hash: string -> string, salt: string)
    requires Truthy(b.jelszo)
    ensures UpdatedRecord(u, b, hash, salt).jelszo == hash(b.jelszo.value)
    ensures UpdatedRecord(u, b, hash, salt).salt == salt
  {
  }

  /** The truthiness test: `jelszo: ""` is not hashed, and the empty string is stored as the password. */
  lemma UpdateEmptyPasswordStoredRaw(u: UserRecord, b: UserBody, hash: string -> string, salt: string)
    requires b.jelszo == Given("")
    ensures UpdatedRecord(u, b, hash, salt).jelszo == ""
    ensures UpdatedRecord(u, b, hash, salt).salt == Override(b.salt, u.salt)
  {
  }

  /** Without a truthy `jelszo`, a `salt` key in the body is written to the row. */
  lemma UpdateStoresClientSalt(u: UserRecord, b: UserBody, hash: string -> string, salt: string)
    requires !Truthy(b.jelszo) && b.salt.Given?
    ensures UpdatedRecord(u, b, hash, salt).salt == b.salt.value
  {
  }

  /** Sent columns are overwritten and the others keep their stored values. */
  lemma UpdateOverwritesOnlySent(u: UserRecord, b: UserBody, hash: string -> string, salt: string)
    ensures var v := UpdatedRecord(u, b, hash, salt);
      && (v.email == if b.email.Given? then b.email.value else u.email)
      && (v.felhasznalonev == if b.felhasznalonev.Given? then b.felhasznalonev.value else u.felhasznalonev)
      && (v.profilkep == if b.profilkep.Given? then b.profilkep.value else u.profilkep)
      && (v.jogosultsag == if b.jogosultsag.Given? then b.jogosultsag.value else u.jogosultsag)
  {
  }

  /** An empty body changes nothing. */
  lemma EmptyUpdateIsIdentity(u: UserRecord, hash: string -> string, salt: string)
    ensures UpdatedRecord(u, EmptyBody, hash, salt) == u
  {
  }

  /**
   * Sending the same body again, when it has no truthy `jelszo`, leaves the
   * row as the first time. With a truthy `jelszo` each request hashes with a
   * new bcrypt salt and draws a new `genSalt` value, so no such promise holds.
   */
  lemma UpdateIdempotent(u: UserRecord, b: UserBody, hash: string -> string, salt: string)
    requires !Truthy(b.jelszo)
    ensures UpdatedRecord(UpdatedRecord(u, b, hash, salt), b, hash, salt) == UpdatedRecord(u, b, hash, salt)
  {
  }

  /** With an injective hash, a new password different from the stored one changes the stored hash. */
  lemma NewPasswordChangesHash(u: UserRecord, previous: string, b: UserBody, hash: string -> string, salt: string)
    requires Injective(hash) && u.jelszo == hash(previous)
    requires Truthy(b.jelszo) && b.jelszo.value != previous
    ensures UpdatedRecord(u, b, hash, salt).jelszo != u.jelszo
  {
  }

  /** After a delete, the id is not found and every other id answers as before. */
  lemma GetAfterDelete(t: Table, id: nat, other: int)
    requires id in t
    ensures GetUserById(t - {id}, id).status == NotFound
    ensures other != id ==> GetUserById(t - {id}, other) == GetUserById(t, other)
  {
  }

  // ---------------------------------------------------------------------------
  // The store

  class UserStore {
    /** The `profil_adatlap` table. */
    var table: Table
    /** The next auto-increment id. */
    var nextId: nat
    /** `bcrypt.hash(·, 10)`. */
    const hash: string -> string

    ghost predicate Valid()
      reads this
    {
      1 <= nextId && forall id :: id in table ==> 1 <= id < nextId
    }

    constructor (hash: string -> string)
      ensures Valid()
      ensures table == map[] && nextId == 1 && this.hash == hash
    {
      table := map[];
      nextId := 1;
      this.hash := hash;
    }

    /**
     * `POST /api/users`. A body without a truthy email, username and password
     * gets 400 and nothing is written; otherwise the row of `CreatedRecord` is
     * inserted under a new id and 201 carries its public columns.
     */
    method CreateUser(body: UserBody, freshSalt: string) returns (r: Response<JsonObject>)
      requires Valid()
      modifies this
      ensures Valid()
      ensures !HasRequiredFields(body) ==>
        r == Response(BadRequest, Error(MissingFieldsError)) && table == old(table) && nextId == old(nextId)
      ensures HasRequiredFields(body) ==>
        && old(nextId) !in old(table)
        && table == old(table)[old(nextId) := CreatedRecord(body, hash, freshSalt)]
        && nextId == old(nextId) + 1
        && r == Response(Created, Item(PublicView(old(nextId), table[old(nextId)])))
        && GetUserById(table, old(nextId)) == Response(OK, r.body)
      ensures NoCredentials(r)
    {
      if !Truthy(body.email) || !Truthy(body.felhasznalonev) || !Truthy(body.jelszo) {
        return Response(BadRequest, Error(MissingFieldsError));
      }
      var hashedPassword := hash(body.jelszo.value);
      var salt := freshSalt;
      var profilkep := if body.profilkep.Given? && body.profilkep.value.Some? && body.profilkep.value.value != ""
                       then body.profilkep.value else None;
      var jogosultsag := if body.jogosultsag.Given? && body.jogosultsag.value != 0
                         then body.jogosultsag.value else 0;
      var newUser := UserRecord(body.email.value, body.felhasznalonev.value, hashedPassword, salt, profilkep, jogosultsag);
      var id := nextId;
      table := table[id := newUser];
      nextId := nextId + 1;
      var userData := ToJson(id, newUser);
      userData := userData - {"jelszo"};
      userData := userData - {"salt"};
      RedactionMatchesExclusion(id, newUser);
      r := Response(Created, Item(userData));
    }

    /**
     * `PUT /api/users/:id`. An unknown id gets 404 and nothing is written;
     * otherwise the row becomes `UpdatedRecord` of the old one and 200
     * carries its public columns.
     */
    method UpdateUser(id: int, body: UserBody, freshSalt: string) returns (r: Response<JsonObject>)
      requires Valid()
      modifies this
      ensures Valid() && nextId == old(nextId)
      ensures !Exists(old(table), id) ==>
        r == Response(NotFound, Error(UserNotFoundError)) && table == old(table)
      ensures Exists(old(table), id) ==>
        && table == old(table)[id := UpdatedRecord(old(table)[id], body, hash, freshSalt)]
        && r == Response(OK, Item(PublicView(id, table[id])))
        && GetUserById(table, id) == r
      ensures NoCredentials(r)
    {
      if id < 0 || id !in table {
        return Response(NotFound, Error(UserNotFoundError));
      }
      var updateData := body;
      if Truthy(updateData.jelszo) {
        updateData := updateData.(jelszo := Given(hash(updateData.jelszo.value)));
        updateData := updateData.(salt := Given(freshSalt));
      }
      var user := Apply(table[id], updateData);
      table := table[id := user];
      var userData := ToJson(id, user);
      userData := userData - {"jelszo"};
      userData := userData - {"salt"};
      RedactionMatchesExclusion(id, user);
      r := Response(OK, Item(userData));
    }

    /**
     * `DELETE /api/users/:id`. An unknown id gets 404 and nothing is written;
     * otherwise exactly that row is removed and 200 carries the confirmation.
     */
    method DeleteUser(id: int) returns (r: Response<JsonObject>)
      requires Valid()
      modifies this
      ensures Valid() && nextId == old(nextId)
      ensures !Exists(old(table), id) ==>
        r == Response(NotFound, Error(UserNotFoundError)) && table == old(table)
      ensures Exists(old(table), id) ==>
        && table == old(table) - {id as nat}
        && r == Response(OK, Message(DeletedMessage))
        && GetUserById(table, id).status == NotFound
    {
      if id < 0 || id !in table {
        return Response(NotFound, Error(UserNotFoundError));
      }
      table := table - {id as nat};
      r := Response(OK, Message(DeletedMessage));
    }
  }
}
