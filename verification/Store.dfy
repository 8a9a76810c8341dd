/** The credential store: a table of users and a table of credentials, shared by all server contexts. */
module Store {
  import opened Bytes
  import opened Packets

  const PUBLIC_KEY_TYPE := "public-key"

  datatype User = User(id: bytes, name: bytes)

  datatype Credential = Credential(id: bytes, kind: string, rpId: bytes, pubkey: bytes, signCount: int, userId: bytes)

  /** The rows in the order of their insertion, which is the order in which they are selected. */
  datatype Db = Db(users: seq<User>, creds: seq<Credential>)

  const EMPTY := Db([], [])

  // ---------------------------------------------------------------- queries

  predicate HasUser(db: Db, id: bytes) {
    exists u <- db.users :: u.id == id
  }

  predicate NameTaken(db: Db, name: bytes) {
    exists u <- db.users :: u.name == name
  }

  predicate HasCred(db: Db, credId: bytes) {
    exists c <- db.creds :: c.id == credId
  }

  function FindName(users: seq<User>, name: bytes): (r: Option<bytes>)
    ensures r.Some? ==> User(r.value, name) in users
    ensures r.None? ==> forall u <- users :: u.name != name
  {
    if users == [] then None
    else if users[0].name == name then Some(users[0].id)
    else FindName(users[1..], name)
  }

  /** What `get_user_id` finds. */
  function UserIdOf(db: Db, name: bytes): Option<bytes> {
    FindName(db.users, name)
  }

  function FindCred(creds: seq<Credential>, userId: bytes, credId: bytes): (r: Option<Credential>)
    ensures r.Some? ==> r.value in creds && r.value.userId == userId && r.value.id == credId
    ensures r.None? ==> forall c <- creds :: c.userId != userId || c.id != credId
  {
    if creds == [] then None
    else if creds[0].userId == userId && creds[0].id == credId then Some(creds[0])
    else FindCred(creds[1..], userId, credId)
  }

  /** What `get_credential` finds. */
  function CredentialOf(db: Db, userId: bytes, credId: bytes): Option<Credential> {
    FindCred(db.creds, userId, credId)
  }

  /** Selects the credentials of a user at a relying party; a row of any other type is an error. */
  function Chosen(creds: seq<Credential>, userId: bytes, rpId: bytes): Option<seq<Descriptor>> {
    if creds == [] then Some([])
    else
      var c := creds[|creds| - 1];
      var before :- Chosen(creds[..|creds| - 1], userId, rpId);
      if c.userId != userId || c.rpId != rpId then Some(before)
      else if c.kind != PUBLIC_KEY_TYPE then None
      else Some(before + [Descriptor(PUBLIC_KEY, c.id)])
  }

  /** What `get_credential_descriptors` returns. */
  function Descriptors(db: Db, userId: bytes, rpId: bytes): Option<seq<Descriptor>> {
    Chosen(db.creds, userId, rpId)
  }

  /** A list of descriptors holds exactly the credential ids of that user at that relying party. */
  lemma {:induction false} ChosenExactly(creds: seq<Credential>, userId: bytes, rpId: bytes)
    ensures Chosen(creds, userId, rpId).Some? <==>
            forall c <- creds :: c.userId == userId && c.rpId == rpId ==> c.kind == PUBLIC_KEY_TYPE
    ensures var ds := Chosen(creds, userId, rpId);
            ds.Some? ==> forall d :: d in ds.value <==>
              d.kind == PUBLIC_KEY && exists c <- creds :: c.userId == userId && c.rpId == rpId && c.id == d.id
  {
    if creds != [] {
      var n := |creds| - 1;
      var rest, c := creds[..n], creds[n];
      ChosenExactly(rest, userId, rpId);
      assert creds == rest + [c];
      assert forall x :: x in creds <==> x in rest || x == c;
      if Chosen(creds, userId, rpId).Some? {
        forall d ensures d in Chosen(creds, userId, rpId).value <==>
          d.kind == PUBLIC_KEY && exists x <- creds :: x.userId == userId && x.rpId == rpId && x.id == d.id
        {
          if d in Chosen(creds, userId, rpId).value && d !in Chosen(rest, userId, rpId).value {
            assert c.id == d.id;
          }
        }
      }
    }
  }

  // ---------------------------------------------------------------- updates

  datatype Added = Added(db: Db, ok: bool)

  /** Inserts a user row, unless the name belongs to someone else. */
  function AddUser(db: Db, id: bytes, name: bytes): Added {
    if HasUser(db, id) then Added(db, true)
    else if NameTaken(db, name) then Added(db, false)
    else Added(db.(users := db.users + [User(id, name)]), true)
  }

  /** What `add_creds` leaves behind: the user row stays when the credential cannot be inserted. */
  function AddCreds(db: Db, id: bytes, name: bytes, rpId: bytes, credId: bytes, pubkey: Option<bytes>, count: int): Added {
    var a := AddUser(db, id, name);
    if !a.ok || HasCred(db, credId) || pubkey.None? then a.(ok := false)
    else
      Added(a.db.(creds := db.creds + [Credential(credId, PUBLIC_KEY_TYPE, rpId, pubkey.value, count, id)]), true)
  }

  function SetCount(creds: seq<Credential>, credId: bytes, count: int): (r: seq<Credential>)
    ensures |r| == |creds|
    ensures forall i :: 0 <= i < |creds| ==>
              r[i] == if creds[i].id == credId then creds[i].(signCount := count) else creds[i]
  {
    if creds == [] then []
    else [if creds[0].id == credId then creds[0].(signCount := count) else creds[0]] + SetCount(creds[1..], credId, count)
  }

  /** What `update_sign_count` leaves behind. */
  function UpdateSignCount(db: Db, credId: bytes, count: int): Db {
    db.(creds := SetCount(db.creds, credId, count))
  }

  // ---------------------------------------------------------------- integrity

  predicate DistinctUsers(users: seq<User>) {
    forall i, j :: 0 <= i < j < |users| ==> users[i].id != users[j].id && users[i].name != users[j].name
  }

  predicate DistinctCreds(creds: seq<Credential>) {
    forall i, j :: 0 <= i < j < |creds| ==> creds[i].id != creds[j].id
  }

  /** Unique ids and names, and every credential belongs to a user. */
  predicate DbInv(db: Db) {
    && DistinctUsers(db.users) && DistinctCreds(db.creds)
    && forall c <- db.creds :: HasUser(db, c.userId) && c.kind == PUBLIC_KEY_TYPE && c.id != []
  }

  /** Names and ids of users correspond one to one. */
  lemma {:induction false} NamesAndIdsCorrespond(db: Db, u: User, v: User)
    requires DbInv(db) && u in db.users && v in db.users
    ensures u.name == v.name <==> u.id == v.id
  {
    var i :| 0 <= i < |db.users| && db.users[i] == u;
    var j :| 0 <= j < |db.users| && db.users[j] == v;
    if i != j {
      assert u.id != v.id && u.name != v.name;
    }
  }

  lemma {:induction false} FoundByName(db: Db, u: User)
    requires DbInv(db) && u in db.users
    ensures UserIdOf(db, u.name) == Some(u.id)
  {
    var r := UserIdOf(db, u.name);
    NamesAndIdsCorrespond(db, u, User(r.value, u.name));
  }

  lemma {:induction false} FoundByCredId(db: Db, c: Credential)
    requires DbInv(db) && c in db.creds
    ensures CredentialOf(db, c.userId, c.id) == Some(c)
  {
    var r := CredentialOf(db, c.userId, c.id);
    var i :| 0 <= i < |db.creds| && db.creds[i] == c;
    var j :| 0 <= j < |db.creds| && db.creds[j] == r.value;
    assert i == j;
  }

  /** Equal in everything but the signature counter. */
  predicate SameCredential(c: Credential, d: Credential) {
    c == d.(signCount := c.signCount)
  }

  /** Rows are only ever appended, and nothing but counters changes in the old ones. */
  predicate Extends(db: Db, later: Db) {
    && db.users <= later.users && |db.creds| <= |later.creds|
    && forall i :: 0 <= i < |db.creds| ==> SameCredential(db.creds[i], later.creds[i])
  }

  lemma {:induction false} AddCredsKeeps(db: Db, id: bytes, name: bytes, rpId: bytes, credId: bytes, pubkey: Option<bytes>, count: int)
    requires DbInv(db) && credId != []
    ensures var later := AddCreds(db, id, name, rpId, credId, pubkey, count).db; DbInv(later) && Extends(db, later)
  {
    var a := AddUser(db, id, name);
    assert DistinctUsers(a.db.users);
    assert forall u <- db.users :: u in a.db.users;
    assert forall x :: HasUser(db, x) ==> HasUser(a.db, x);
    assert a.ok ==> HasUser(a.db, id) by {
      if a.ok && !HasUser(db, id) {
        assert a.db.users[|db.users|].id == id;
      }
    }
    assert DbInv(a.db);
  }

  lemma {:induction false} UpdateKeeps(db: Db, credId: bytes, count: int)
    requires DbInv(db)
    ensures DbInv(UpdateSignCount(db, credId, count)) && Extends(db, UpdateSignCount(db, credId, count))
  {
    var later := UpdateSignCount(db, credId, count);
    forall c | c in later.creds ensures HasUser(later, c.userId) && c.kind == PUBLIC_KEY_TYPE && c.id != [] {
      var i :| 0 <= i < |later.creds| && later.creds[i] == c;
      assert db.creds[i] in db.creds;
    }
  }

  lemma {:induction false} ExtendsTransitive(a: Db, b: Db, c: Db)
    requires Extends(a, b) && Extends(b, c)
    ensures Extends(a, c)
  {
    forall i | 0 <= i < |a.creds| ensures SameCredential(a.creds[i], c.creds[i]) {
      assert SameCredential(a.creds[i], b.creds[i]) && SameCredential(b.creds[i], c.creds[i]);
    }
  }

  /** When two contexts race for one name with new ids, only the first gets it; the other leaves no trace. */
  lemma {:induction false} SecondRegistrationOfNameFails(db: Db, first: bytes, second: bytes, name: bytes, rpId: bytes,
                                                         x: bytes, xKey: Option<bytes>, y: bytes, yKey: Option<bytes>,
                                                         count: int)
    requires !HasUser(db, first) && !HasUser(db, second) && !NameTaken(db, name) && first != second
    ensures var raced := AddCreds(db, first, name, rpId, x, xKey, count).db;
            && User(first, name) in raced.users
            && AddCreds(raced, second, name, rpId, y, yKey, count) == Added(raced, false)
  {
    var raced := AddCreds(db, first, name, rpId, x, xKey, count).db;
    assert raced.users == db.users + [User(first, name)];
    assert raced.users[|db.users|].name == name;
  }

  // ---------------------------------------------------------------- the tables

  class Database {
    var users: seq<User>
    var creds: seq<Credential>

    function View(): Db
      reads this
    {
      Db(users, creds)
    }

    constructor ()
      ensures View() == EMPTY
    {
      users, creds := [], [];
    }

    /** `get_user_id`. */
    method GetUserId(name: bytes) returns (r: Option<bytes>)
      ensures r == UserIdOf(View(), name)
    {
      for i := 0 to |users|
        invariant FindName(users, name) == FindName(users[i..], name)
      {
        if users[i].name == name { return Some(users[i].id); }
      }
      return None;
    }

    /** `get_credential`. */
    method GetCredential(userId: bytes, credId: bytes) returns (r: Option<Credential>)
      ensures r == CredentialOf(View(), userId, credId)
    {
      for i := 0 to |creds|
        invariant FindCred(creds, userId, credId) == FindCred(creds[i..], userId, credId)
      {
        if creds[i].userId == userId && creds[i].id == credId { return Some(creds[i]); }
      }
      return None;
    }

    /** `get_credential_descriptors`: the list grows by one element for every selected row. */
    method GetCredentialDescriptors(userId: bytes, rpId: bytes) returns (r: Option<seq<Descriptor>>)
      ensures r == Descriptors(View(), userId, rpId)
    {
      var ds: seq<Descriptor> := [];
      var i := 0;
      while i < |creds|
        invariant i <= |creds|
        invariant Chosen(creds[..i], userId, rpId) == Some(ds)
      {
        var c := creds[i];
        assert creds[..i + 1][..i] == creds[..i] && creds[..i + 1][i] == c;
        if c.userId == userId && c.rpId == rpId {
          if c.kind != PUBLIC_KEY_TYPE {
            ChosenFails(creds, i + 1, userId, rpId);
            return None;
          }
          ds := ds + [Descriptor(PUBLIC_KEY, c.id)];
        }
        i := i + 1;
      }
      assert creds[..i] == creds;
      return Some(ds);
    }

    /** `add_creds`. */
    method AddCredential(id: bytes, name: bytes, rpId: bytes, credId: bytes, pubkey: Option<bytes>, count: int)
      returns (ok: bool)
      modifies this
      ensures AddCreds(old(View()), id, name, rpId, credId, pubkey, count) == Added(View(), ok)
    {
      var known := exists u <- users :: u.id == id;
      if !known {
        var taken := exists u <- users :: u.name == name;
        if taken { return false; }
        users := users + [User(id, name)];
      }
      var used := exists c <- creds :: c.id == credId;
      if used || pubkey.None? { return false; }
      creds := creds + [Credential(credId, PUBLIC_KEY_TYPE, rpId, pubkey.value, count, id)];
      return true;
    }

    /** `update_sign_count`. */
    method UpdateCount(credId: bytes, count: int)
      modifies this`creds
      ensures View() == UpdateSignCount(old(View()), credId, count)
    {
      var rows := creds;
      for i := 0 to |rows|
        invariant |creds| == |rows|
        invariant forall k :: 0 <= k < i ==> creds[k] == SetCount(rows, credId, count)[k]
        invariant forall k :: i <= k < |rows| ==> creds[k] == rows[k]
      {
        if creds[i].id == credId {
          creds := creds[i := creds[i].(signCount := count)];
        }
      }
    }
  }

  lemma {:induction false} ChosenFails(creds: seq<Credential>, i: nat, userId: bytes, rpId: bytes)
    requires i <= |creds| && Chosen(creds[..i], userId, rpId).None?
    ensures Chosen(creds, userId, rpId).None?
    decreases |creds| - i
  {
    if i < |creds| {
      assert creds[..i + 1][..i] == creds[..i];
      ChosenFails(creds, i + 1, userId, rpId);
    } else {
      assert creds[..i] == creds;
    }
  }
}
