/**
 * The account records, the builder that assembles a new account, and the in-memory
 * user table keyed by account id (src/user.rs).
 */
module Users {
  import opened Wrappers
  import opened Foreign
  import Decimal

  type UserId = u64

  /** One account.  The credential is a bcrypt hash, never the plaintext password. */
  datatype User = User(id: UserId, name: string, email: string, bcryptPassword: string)

  /** The work factor every `bcrypt::hash` call in the source passes. */
  const BCRYPT_COST: nat := 4

  /** `User::reset_password`: replace the credential by the hash of the new password. */
  function ResetPassword(lib: Primitives, user: User, newPassword: string): (r: User)
    ensures r.id == user.id && r.name == user.name && r.email == user.email
    ensures r.bcryptPassword == lib.bcrypt(newPassword, BCRYPT_COST)
  {
    user.(bcryptPassword := lib.bcrypt(newPassword, BCRYPT_COST))
  }

  /** The three values `User::from` draws from the random generator, in drawing order. */
  datatype Draw = Draw(password: u64, emailNumber: u16, id: u64)

  /** The address `User::from` gives a test account. */
  function TestEmail(n: u16): string {
    "user-" + Decimal.ToString(n) + "@spookysoftware.dev"
  }

  /** Different numbers give different test addresses. */
  lemma TestEmailInjective(a: u16, b: u16)
    requires TestEmail(a) == TestEmail(b)
    ensures a == b
  {
    var da, db := Decimal.ToString(a), Decimal.ToString(b);
    var s := TestEmail(a);
    assert |da| == |db|;
    assert da == s[5..5 + |da|];
    assert db == s[5..5 + |db|];
    Decimal.ToStringInjective(a, b);
  }

  /** `User::from`: a test account with a random id, address and password. */
  function UserFrom(lib: Primitives, draw: Draw, name: string): (u: User)
    ensures u.id == draw.id && u.name == name && u.email == TestEmail(draw.emailNumber)
    ensures u.bcryptPassword == lib.bcrypt(Decimal.ToString(draw.password), BCRYPT_COST)
  {
    User(draw.id, name, TestEmail(draw.emailNumber),
         lib.bcrypt(Decimal.ToString(draw.password), BCRYPT_COST))
  }

  /**
   * `UserBuilder::build` on the builder's three optional fields and the id it draws:
   * an account exactly when all three are present, holding the hash of the password.
   */
  function BuildUser(lib: Primitives, name: Option<string>, email: Option<string>,
                     password: Option<string>, id: UserId): (r: Option<User>)
    ensures r.Some? <==> name.Some? && email.Some? && password.Some?
    ensures r.Some? ==> r.value.id == id && r.value.name == name.value && r.value.email == email.value
    ensures r.Some? ==> r.value.bcryptPassword == lib.bcrypt(password.value, BCRYPT_COST)
  {
    if name.None? || email.None? || password.None? then None
    else Some(User(id, name.value, email.value, lib.bcrypt(password.value, BCRYPT_COST)))
  }

  class UserBuilder {
    var requestedName: Option<string>
    var requestedEmail: Option<string>
    var requestedPassword: Option<string>

    /** `UserBuilder::new`: nothing requested yet. */
    constructor ()
      ensures requestedName == None && requestedEmail == None && requestedPassword == None
    {
      requestedName, requestedEmail, requestedPassword := None, None, None;
    }

    method WithEmail(email: string)
      modifies this
      ensures requestedEmail == Some(email)
      ensures requestedName == old(requestedName) && requestedPassword == old(requestedPassword)
    {
      requestedEmail := Some(email);
    }

    method WithName(name: string)
      modifies this
      ensures requestedName == Some(name)
      ensures requestedEmail == old(requestedEmail) && requestedPassword == old(requestedPassword)
    {
      requestedName := Some(name);
    }

    method WithPassword(password: string)
      modifies this
      ensures requestedPassword == Some(password)
      ensures requestedName == old(requestedName) && requestedEmail == old(requestedEmail)
    {
      requestedPassword := Some(password);
    }

    /**
     * `UserBuilder::build`, with the id it draws passed in: an account exactly when all three
     * fields were requested, holding the requested name and address and the hash of the password.
     */
    function Build(lib: Primitives, id: UserId): (r: Option<User>)
      reads this
      ensures r.Some? <==> requestedName.Some? && requestedEmail.Some? && requestedPassword.Some?
      ensures r.Some? ==> r.value.id == id && r.value.name == requestedName.value
                          && r.value.email == requestedEmail.value
      ensures r.Some? ==> r.value.bcryptPassword == lib.bcrypt(requestedPassword.value, BCRYPT_COST)
    {
      BuildUser(lib, requestedName, requestedEmail, requestedPassword, id)
    }
  }

  type UserTable = map<UserId, User>

  /** Every account is stored under its own id, as every insert in the source does. */
  ghost predicate KeysMatchIds(t: UserTable) {
    forall id :: id in t ==> t[id].id == id
  }

  /** No two accounts share an e-mail address. */
  ghost predicate UniqueEmails(t: UserTable) {
    forall i, j :: i in t && j in t && i != j ==> t[i].email != t[j].email
  }

  /** The ids of the accounts stored with this address. */
  ghost function HoldersOf(t: UserTable, email: string): set<UserId> {
    set id | id in t && t[id].email == email
  }

  lemma HoldersWitness(t: UserTable, email: string)
    ensures HoldersOf(t, email) != {} <==> exists id :: id in t && t[id].email == email
  {
    if exists id :: id in t && t[id].email == email {
      var id :| id in t && t[id].email == email;
      assert id in HoldersOf(t, email);
    }
  }

  /** The duplicate check of `add_user`: some stored account has this address. */
  predicate HasEmail(t: UserTable, email: string): (has: bool)
    ensures has <==> HoldersOf(t, email) != {}
  {
    HoldersWitness(t, email);
    exists id :: id in t && t[id].email == email
  }

  /** What `add_user` reports and the table it leaves behind. */
  datatype AddOutcome = AddOutcome(ok: bool, table: UserTable)

  /** `UserDatabase::add_user` on a table, given what the builder produced. */
  function AddTo(t: UserTable, built: Option<User>): (o: AddOutcome)
    ensures o.ok <==> built.Some? && !HasEmail(t, built.value.email)
    ensures !o.ok ==> o.table == t
    ensures o.ok ==> o.table.Keys == t.Keys + {built.value.id}
    ensures o.ok ==> o.table[built.value.id] == built.value
    ensures o.ok ==> forall id :: id in t && id != built.value.id ==> o.table[id] == t[id]
  {
    if built.None? then AddOutcome(false, t)
    else if HasEmail(t, built.value.email) then AddOutcome(false, t)
    else AddOutcome(true, t[built.value.id := built.value])
  }

  lemma AddKeepsEmailsUnique(t: UserTable, built: Option<User>)
    requires UniqueEmails(t)
    ensures UniqueEmails(AddTo(t, built).table)
  {
    var o := AddTo(t, built);
    if o.ok {
      var u := built.value;
      forall i, j | i in o.table && j in o.table && i != j
        ensures o.table[i].email != o.table[j].email
      {
        if i == u.id {
          assert j in t && o.table[j] == t[j];
        } else if j == u.id {
          assert i in t && o.table[i] == t[i];
        }
      }
    }
  }

  lemma AddKeepsKeysMatchingIds(t: UserTable, built: Option<User>)
    requires KeysMatchIds(t)
    ensures KeysMatchIds(AddTo(t, built).table)
  {
  }

  /**
   * The insert does not check the id: a new account whose id is already taken replaces the
   * account stored there, which is then gone from the table.
   */
  lemma AddOverwritesOnIdCollision(t: UserTable, u: User)
    requires UniqueEmails(t) && u.id in t
    requires AddTo(t, Some(u)).ok
    ensures |AddTo(t, Some(u)).table| == |t|
    ensures !HasEmail(AddTo(t, Some(u)).table, t[u.id].email)
  {
    var o := AddTo(t, Some(u));
    assert o.table.Keys == t.Keys;
    forall id | id in o.table
      ensures o.table[id].email != t[u.id].email
    {
      if id != u.id {
        assert o.table[id] == t[id];
      }
    }
  }

  /** A series of `add_user` calls, one after the other: the number that succeed and the final table. */
  ghost function AddAll(t: UserTable, us: seq<User>): (nat, UserTable)
    decreases |us|
  {
    if us == [] then (0, t)
    else
      var o := AddTo(t, Some(us[0]));
      var rest := AddAll(o.table, us[1..]);
      ((if o.ok then 1 else 0) + rest.0, rest.1)
  }

  lemma {:induction false} AddAllPresentEmailFails(t: UserTable, us: seq<User>, email: string)
    requires HasEmail(t, email)
    requires forall i :: 0 <= i < |us| ==> us[i].email == email
    ensures AddAll(t, us) == (0, t)
    decreases |us|
  {
    if us != [] {
      AddAllPresentEmailFails(t, us[1..], email);
    }
  }

  /**
   * However many accounts with one new address are added in turn, exactly one of the calls
   * succeeds, and afterwards the address is present and still unique.
   */
  lemma {:induction false} SameEmailAddedOnce(t: UserTable, us: seq<User>, email: string)
    requires !HasEmail(t, email)
    requires |us| > 0 && forall i :: 0 <= i < |us| ==> us[i].email == email
    ensures AddAll(t, us).0 == 1
    ensures HoldersOf(AddAll(t, us).1, email) == {us[0].id}
    ensures UniqueEmails(t) ==> UniqueEmails(AddAll(t, us).1)
  {
    var o := AddTo(t, Some(us[0]));
    assert o.table[us[0].id].email == email;
    if UniqueEmails(t) {
      AddKeepsEmailsUnique(t, Some(us[0]));
    }
    AddAllPresentEmailFails(o.table, us[1..], email);
  }

  /** A table whose accounts come from a list with pairwise different addresses has unique addresses. */
  lemma DistinctAccountsUnique(t: UserTable, accounts: seq<User>)
    requires KeysMatchIds(t)
    requires StoredAmong(t, accounts)
    requires forall m, n :: 0 <= m < n < |accounts| ==> accounts[m].email != accounts[n].email
    ensures UniqueEmails(t)
  {
    forall i, j | i in t && j in t && i != j
      ensures t[i].email != t[j].email
    {
      var m :| 0 <= m < |accounts| && accounts[m] == t[i];
      var n :| 0 <= n < |accounts| && accounts[n] == t[j];
      assert m != n;
    }
  }

  ghost predicate StoredAmong(t: UserTable, inserted: seq<User>) {
    forall id :: id in t ==> t[id] in inserted
  }

  /** Inserting an account at its own id keeps every stored account among those inserted so far. */
  lemma InsertAmong(t: UserTable, inserted: seq<User>, u: User)
    requires KeysMatchIds(t) && StoredAmong(t, inserted)
    ensures KeysMatchIds(t[u.id := u]) && StoredAmong(t[u.id := u], inserted + [u])
  {
  }

  const TEST_NAMES: seq<string> := ["Eric", "Linus", "Michelle", "Rogan", "Lily", "Neo"]

  /** The user table shared by every request handler, behind one lock in the source. */
  class UserDatabase {
    var users: UserTable

    ghost predicate Valid()
      reads this
    {
      KeysMatchIds(users)
    }

    /**
     * `UserDatabase::create_test_db`: six test accounts inserted one by one, the last
     * ("Neo") forced to id 1.  A later account with a colliding random id replaces an earlier one.
     */
    constructor CreateTestDb(lib: Primitives, draws: seq<Draw>)
      requires |draws| == |TEST_NAMES|
      ensures Valid()
      ensures users == map[][draws[0].id := UserFrom(lib, draws[0], TEST_NAMES[0])]
                           [draws[1].id := UserFrom(lib, draws[1], TEST_NAMES[1])]
                           [draws[2].id := UserFrom(lib, draws[2], TEST_NAMES[2])]
                           [draws[3].id := UserFrom(lib, draws[3], TEST_NAMES[3])]
                           [draws[4].id := UserFrom(lib, draws[4], TEST_NAMES[4])]
                           [1 := UserFrom(lib, draws[5], TEST_NAMES[5]).(id := 1)]
      ensures 1 in users && users[1] == UserFrom(lib, draws[5], TEST_NAMES[5]).(id := 1)
      ensures forall id :: id in users ==> users[id].name in TEST_NAMES
      ensures (forall i, j :: 0 <= i < j < |draws| ==> draws[i].emailNumber != draws[j].emailNumber)
                ==> UniqueEmails(users)
    {
      var table: UserTable := map[];
      ghost var created: seq<User> := [];
      var eric := UserFrom(lib, draws[0], TEST_NAMES[0]);
      InsertAmong(table, created, eric);
      table, created := table[eric.id := eric], created + [eric];
      var linus := UserFrom(lib, draws[1], TEST_NAMES[1]);
      InsertAmong(table, created, linus);
      table, created := table[linus.id := linus], created + [linus];
      var michelle := UserFrom(lib, draws[2], TEST_NAMES[2]);
      InsertAmong(table, created, michelle);
      table, created := table[michelle.id := michelle], created + [michelle];
      var rogan := UserFrom(lib, draws[3], TEST_NAMES[3]);
      InsertAmong(table, created, rogan);
      table, created := table[rogan.id := rogan], created + [rogan];
      var lily := UserFrom(lib, draws[4], TEST_NAMES[4]);
      InsertAmong(table, created, lily);
      table, created := table[lily.id := lily], created + [lily];
      var neo := UserFrom(lib, draws[5], TEST_NAMES[5]).(id := 1);
      InsertAmong(table, created, neo);
      table, created := table[1 := neo], created + [neo];
      users := table;

      assert forall m :: 0 <= m < |created| ==> created[m].name == TEST_NAMES[m];
      forall id | id in table
        ensures table[id].name in TEST_NAMES
      {
        var m :| 0 <= m < |created| && created[m] == table[id];
      }
      assert forall m :: 0 <= m < |created| ==> created[m].email == TestEmail(draws[m].emailNumber);
      if forall i, j :: 0 <= i < j < |draws| ==> draws[i].emailNumber != draws[j].emailNumber {
        forall m, n | 0 <= m < n < |created|
          ensures created[m].email != created[n].email
        {
          if created[m].email == created[n].email {
            TestEmailInjective(draws[m].emailNumber, draws[n].emailNumber);
          }
        }
        DistinctAccountsUnique(table, created);
      }
    }

    /**
     * `UserDatabase::add_user` as one step: build the account (with the random id passed in),
     * reject a duplicate address, otherwise insert at its id.  The build runs before the lock
     * is taken, but it reads no table state, so one atomic step loses nothing.
     */
    method AddUser(lib: Primitives, builtUser: UserBuilder, id: UserId) returns (r: Result<(), ()>)
      requires Valid()
      modifies this
      ensures Valid()
      ensures r.Ok? <==> AddTo(old(users), builtUser.Build(lib, id)).ok
      ensures users == AddTo(old(users), builtUser.Build(lib, id)).table
      ensures old(UniqueEmails(users)) ==> UniqueEmails(users)
    {
      if UniqueEmails(users) {
        AddKeepsEmailsUnique(users, builtUser.Build(lib, id));
      }
      var built := builtUser.Build(lib, id);
      if built.None? {
        return Err(());
      }
      var realUser := built.value;
      var duplicate := HasEmail(users, realUser.email);
      if duplicate {
        r := Err(());
      } else {
        users := users[realUser.id := realUser];
        r := Ok(());
      }
    }
  }
}
