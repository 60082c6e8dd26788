/**
 * The user records and the user table with its record operations. The database is
 * an in-memory table from primary key to row; its two unique constraints (username
 * and email) are part of the table invariant, and a commit that would break one is
 * rejected with an integrity error.
 */
module Users {
  import opened Common
  import opened Crypto

  /** A user row. Only the hash of the password is ever stored. */
  datatype User = User(
    id: int,
    username: string,
    hashedPassword: Digest,
    email: string,
    name: string,
    surname: string,
    patronymic: string,
    phoneNumber: string,
    address: string,
    disabled: bool,
    role: string)

  /** The role a row gets when none is given. */
  const DefaultRole := "user"

  /** The failure of a commit that would break a unique constraint. */
  datatype DbError = IntegrityError

  ghost predicate UniqueUsernames(rows: map<int, User>) {
    forall i, j :: i in rows && j in rows && rows[i].username == rows[j].username ==> i == j
  }

  ghost predicate UniqueEmails(rows: map<int, User>) {
    forall i, j :: i in rows && j in rows && rows[i].email == rows[j].email ==> i == j
  }

  /** Storing `u` under key `id` would repeat the username or email of another row. */
  predicate Clashes(rows: map<int, User>, id: int, u: User) {
    exists j | j in rows :: j != id && (rows[j].username == u.username || rows[j].email == u.email)
  }

  // ---------------------------------------------------------------------------
  // Queries

  /** The row with this username, if there is one. */
  function UserByUsername(rows: map<int, User>, username: string): (r: Option<User>)
    requires UniqueUsernames(rows)
    ensures r.Some? <==> exists id :: id in rows && rows[id].username == username
    ensures r.Some? ==> r.value in rows.Values && r.value.username == username
  {
    if exists id :: id in rows && rows[id].username == username then
      var id :| id in rows && rows[id].username == username;
      Some(rows[id])
    else
      None
  }

  /** The row with this primary key, if there is one. */
  function UserById(rows: map<int, User>, id: int): (r: Option<User>)
    ensures r.Some? <==> id in rows
    ensures r.Some? ==> r.value == rows[id]
  {
    if id in rows then Some(rows[id]) else None
  }

  // ---------------------------------------------------------------------------
  // Field updates

  /** The row with its `disabled` flag flipped. */
  function Toggled(u: User): User {
    u.(disabled := !u.disabled)
  }

  /** Flipping twice restores the row; flipping once changes nothing but the flag. */
  lemma ToggleTwice(u: User)
    ensures Toggled(Toggled(u)) == u
    ensures Toggled(u).disabled != u.disabled && Toggled(u).(disabled := u.disabled) == u
  {
  }

  /** The profile changes a caller asks for; None means "leave as it is". */
  datatype InfoChanges = InfoChanges(
    username: Option<string>,
    password: Option<string>,
    email: Option<string>,
    phoneNumber: Option<string>,
    name: Option<string>,
    surname: Option<string>,
    patronymic: Option<string>,
    address: Option<string>)

  /** One entry of the update dictionary: a field and its new value. */
  datatype Update =
    | NewUsername(text: string)
    | NewHashedPassword(digest: Digest)
    | NewEmail(text: string)
    | NewPhoneNumber(text: string)
    | NewName(text: string)
    | NewSurname(text: string)
    | NewPatronymic(text: string)
    | NewAddress(text: string)

  /** Setting one attribute. */
  function SetAttr(u: User, upd: Update): User {
    match upd
    case NewUsername(s) => u.(username := s)
    case NewHashedPassword(d) => u.(hashedPassword := d)
    case NewEmail(s) => u.(email := s)
    case NewPhoneNumber(s) => u.(phoneNumber := s)
    case NewName(s) => u.(name := s)
    case NewSurname(s) => u.(surname := s)
    case NewPatronymic(s) => u.(patronymic := s)
    case NewAddress(s) => u.(address := s)
  }

  /** Setting the attributes one after the other, in order. */
  function ApplyAll(u: User, updates: seq<Update>): User
    decreases |updates|
  {
    if updates == [] then u else ApplyAll(SetAttr(u, updates[0]), updates[1..])
  }

  function Optional(present: bool, upd: Update): seq<Update> {
    if present then [upd] else []
  }

  /** The dictionary entries for the sign-in fields: username, password (as its hash), email, phone. */
  function AccountEntries(c: InfoChanges, salt: nat): seq<Update> {
    Optional(c.username.Some?, NewUsername(c.username.GetOr(""))) +
    (Optional(c.password.Some?, NewHashedPassword(Hash(c.password.GetOr(""), salt))) +
    (Optional(c.email.Some?, NewEmail(c.email.GetOr(""))) +
     Optional(c.phoneNumber.Some?, NewPhoneNumber(c.phoneNumber.GetOr("")))))
  }

  /** The dictionary entries for the personal fields: name, surname, patronymic, address. */
  function PersonalEntries(c: InfoChanges): seq<Update> {
    Optional(c.name.Some?, NewName(c.name.GetOr(""))) +
    (Optional(c.surname.Some?, NewSurname(c.surname.GetOr(""))) +
    (Optional(c.patronymic.Some?, NewPatronymic(c.patronymic.GetOr(""))) +
     Optional(c.address.Some?, NewAddress(c.address.GetOr("")))))
  }

  /**
   * The update dictionary built from the changes, in the order the fields are
   * checked: one entry per given field, the password replaced by its hash under `salt`.
   */
  function Collect(c: InfoChanges, salt: nat): seq<Update> {
    AccountEntries(c, salt) + PersonalEntries(c)
  }

  /**
   * The row after the changes, field by field: a given field takes its new value
   * (the password as its hash), every other field keeps its old one.
   */
  function Revised(u: User, c: InfoChanges, salt: nat): (v: User)
    ensures v.id == u.id && v.disabled == u.disabled && v.role == u.role
    ensures c.password.None? ==> v.hashedPassword == u.hashedPassword
    ensures c.password.Some? ==> Verify(c.password.value, v.hashedPassword)
  {
    u.(username := c.username.GetOr(u.username),
       hashedPassword := if c.password.Some? then Hash(c.password.value, salt) else u.hashedPassword,
       email := c.email.GetOr(u.email),
       phoneNumber := c.phoneNumber.GetOr(u.phoneNumber),
       name := c.name.GetOr(u.name),
       surname := c.surname.GetOr(u.surname),
       patronymic := c.patronymic.GetOr(u.patronymic),
       address := c.address.GetOr(u.address))
  }

  /** Asking for no change leaves the row as it is. */
  lemma NoChangesKeepsRow(u: User, salt: nat)
    ensures Revised(u, InfoChanges(None, None, None, None, None, None, None, None), salt) == u
  {
  }

  /** A new password is stored only as a digest that verifies exactly that password. */
  lemma NewPasswordStoredHashed(u: User, c: InfoChanges, salt: nat, attempt: string)
    requires c.password.Some?
    ensures Revised(u, c, salt).hashedPassword == Hash(c.password.value, salt)
    ensures Verify(attempt, Revised(u, c, salt).hashedPassword) <==> attempt == c.password.value
  {
    VerifyOnlyHashedPassword(c.password.value, attempt, salt);
  }

  lemma ApplyOptionalThen(u: User, present: bool, upd: Update, rest: seq<Update>)
    ensures ApplyAll(u, Optional(present, upd) + rest)
         == ApplyAll(if present then SetAttr(u, upd) else u, rest)
  {
    if present {
      assert ([upd] + rest)[0] == upd && ([upd] + rest)[1..] == rest;
    } else {
      assert [] + rest == rest;
    }
  }

  lemma {:induction false} ApplyAllAppend(u: User, a: seq<Update>, b: seq<Update>)
    ensures ApplyAll(u, a + b) == ApplyAll(ApplyAll(u, a), b)
    decreases |a|
  {
    if a == [] {
      assert a + b == b;
    } else {
      assert (a + b)[0] == a[0] && (a + b)[1..] == a[1..] + b;
      ApplyAllAppend(SetAttr(u, a[0]), a[1..], b);
    }
  }

  lemma AccountEntriesApply(u: User, c: InfoChanges, salt: nat)
    ensures ApplyAll(u, AccountEntries(c, salt))
         == u.(username := c.username.GetOr(u.username),
               hashedPassword := if c.password.Some? then Hash(c.password.value, salt) else u.hashedPassword,
               email := c.email.GetOr(u.email),
               phoneNumber := c.phoneNumber.GetOr(u.phoneNumber))
  {
    var e1 := Optional(c.username.Some?, NewUsername(c.username.GetOr("")));
    var e2 := Optional(c.password.Some?, NewHashedPassword(Hash(c.password.GetOr(""), salt)));
    var e3 := Optional(c.email.Some?, NewEmail(c.email.GetOr("")));
    var e4 := Optional(c.phoneNumber.Some?, NewPhoneNumber(c.phoneNumber.GetOr("")));
    var u1 := u.(username := c.username.GetOr(u.username));
    var u2 := u1.(hashedPassword := if c.password.Some? then Hash(c.password.value, salt) else u.hashedPassword);
    var u3 := u2.(email := c.email.GetOr(u.email));
    var u4 := u3.(phoneNumber := c.phoneNumber.GetOr(u.phoneNumber));
    ApplyOptionalThen(u, c.username.Some?, NewUsername(c.username.GetOr("")), e2 + (e3 + e4));
    ApplyOptionalThen(u1, c.password.Some?, NewHashedPassword(Hash(c.password.GetOr(""), salt)), e3 + e4);
    ApplyOptionalThen(u2, c.email.Some?, NewEmail(c.email.GetOr("")), e4);
    ApplyOptionalThen(u3, c.phoneNumber.Some?, NewPhoneNumber(c.phoneNumber.GetOr("")), []);
    assert e4 + [] == e4;
  }

  lemma PersonalEntriesApply(u: User, c: InfoChanges)
    ensures ApplyAll(u, PersonalEntries(c))
         == u.(name := c.name.GetOr(u.name),
               surname := c.surname.GetOr(u.surname),
               patronymic := c.patronymic.GetOr(u.patronymic),
               address := c.address.GetOr(u.address))
  {
    var e1 := Optional(c.name.Some?, NewName(c.name.GetOr("")));
    var e2 := Optional(c.surname.Some?, NewSurname(c.surname.GetOr("")));
    var e3 := Optional(c.patronymic.Some?, NewPatronymic(c.patronymic.GetOr("")));
    var e4 := Optional(c.address.Some?, NewAddress(c.address.GetOr("")));
    var u1 := u.(name := c.name.GetOr(u.name));
    var u2 := u1.(surname := c.surname.GetOr(u.surname));
    var u3 := u2.(patronymic := c.patronymic.GetOr(u.patronymic));
    ApplyOptionalThen(u, c.name.Some?, NewName(c.name.GetOr("")), e2 + (e3 + e4));
    ApplyOptionalThen(u1, c.surname.Some?, NewSurname(c.surname.GetOr("")), e3 + e4);
    ApplyOptionalThen(u2, c.patronymic.Some?, NewPatronymic(c.patronymic.GetOr("")), e4);
    ApplyOptionalThen(u3, c.address.Some?, NewAddress(c.address.GetOr("")), []);
    assert e4 + [] == e4;
  }

  /** Applying the collected dictionary attribute by attribute yields the field-by-field revision. */
  lemma CollectApplies(u: User, c: InfoChanges, salt: nat)
    ensures ApplyAll(u, Collect(c, salt)) == Revised(u, c, salt)
  {
    ApplyAllAppend(u, AccountEntries(c, salt), PersonalEntries(c));
    var v := ApplyAll(u, AccountEntries(c, salt));
    AccountEntriesApply(u, c, salt);
    PersonalEntriesApply(v, c);
    assert ApplyAll(v, PersonalEntries(c)) == Revised(u, c, salt);
  }

  // ---------------------------------------------------------------------------
  // The table

  class UserTable {
    var rows: map<int, User>
    /** The next primary key the table hands out. */
    var nextId: int

    ghost predicate Valid()
      reads this
    {
      && 0 < nextId
      && (forall id :: id in rows ==> rows[id].id == id && 0 < id < nextId)
      && UniqueUsernames(rows)
      && UniqueEmails(rows)
    }

    constructor()
      ensures Valid() && rows == map[]
    {
      rows := map[];
      nextId := 1;
    }

    /** Inserts `u` under a fresh primary key, unless it repeats a username or email. */
    method AddNewUser(u: User) returns (r: Result<int, DbError>)
      requires Valid()
      modifies this
      ensures Valid()
      ensures Clashes(old(rows), old(nextId), u) ==>
        r == Err(IntegrityError) && rows == old(rows) && nextId == old(nextId)
      ensures !Clashes(old(rows), old(nextId), u) ==>
        && r == Ok(old(nextId))
        && old(nextId) !in old(rows)
        && rows == old(rows)[old(nextId) := u.(id := old(nextId))]
        && nextId == old(nextId) + 1
    {
      if Clashes(rows, nextId, u) {
        return Err(IntegrityError);
      }
      r := Ok(nextId);
      rows := rows[nextId := u.(id := nextId)];
      nextId := nextId + 1;
    }

    /** Deletes the row with this username; reports whether there was one. */
    method DeleteAccountByUsername(username: string) returns (found: bool)
      requires Valid()
      modifies this
      ensures Valid() && nextId == old(nextId)
      ensures found <==> exists id :: id in old(rows) && old(rows)[id].username == username
      ensures forall id :: id in rows <==> id in old(rows) && old(rows)[id].username != username
      ensures forall id :: id in rows ==> rows[id] == old(rows)[id]
    {
      var user := UserByUsername(rows, username);
      if user.Some? {
        var id :| id in rows && rows[id] == user.value;
        rows := rows - {id};
        found := true;
      } else {
        found := false;
      }
    }

    /** Deletes the row with this primary key; reports whether there was one. */
    method DeleteUserById(id: int) returns (found: bool)
      requires Valid()
      modifies this
      ensures Valid() && nextId == old(nextId)
      ensures found <==> id in old(rows)
      ensures rows == old(rows) - {id}
    {
      var user := UserById(rows, id);
      if user.Some? {
        rows := rows - {id};
        found := true;
      } else {
        found := false;
      }
    }

    /** Flips the `disabled` flag of the row with this primary key. */
    method ChangeUsersActivity(id: int) returns (found: bool)
      requires Valid()
      modifies this
      ensures Valid() && nextId == old(nextId)
      ensures found <==> id in old(rows)
      ensures rows == if found then old(rows)[id := Toggled(old(rows)[id])] else old(rows)
    {
      var user := UserById(rows, id);
      if user.Some? {
        rows := rows[id := Toggled(user.value)];
        found := true;
      } else {
        found := false;
      }
    }

    /** Sets the role of the row with this primary key to exactly `role`. */
    method ChangeUsersRole(id: int, role: string) returns (found: bool)
      requires Valid()
      modifies this
      ensures Valid() && nextId == old(nextId)
      ensures found <==> id in old(rows)
      ensures rows == if found then old(rows)[id := old(rows)[id].(role := role)] else old(rows)
    {
      var user := UserById(rows, id);
      if user.Some? {
        rows := rows[id := user.value.(role := role)];
        found := true;
      } else {
        found := false;
      }
    }

    /**
     * Applies the given profile changes to the row with this username: builds the
     * update dictionary, sets its attributes one by one, then commits. Unknown
     * username: Ok(false), nothing changes. A commit that would repeat another
     * row's username or email is rejected and nothing changes.
     */
    method ChangeUserInfo(username: string, c: InfoChanges, salt: nat) returns (r: Result<bool, DbError>)
      requires Valid()
      modifies this
      ensures Valid() && nextId == old(nextId)
      ensures UserByUsername(old(rows), username).None? ==> r == Ok(false) && rows == old(rows)
      ensures UserByUsername(old(rows), username).Some? ==>
        var u := UserByUsername(old(rows), username).value;
        var v := Revised(u, c, salt);
        && u.id in old(rows) && old(rows)[u.id] == u
        && (Clashes(old(rows), u.id, v) ==> r == Err(IntegrityError) && rows == old(rows))
        && (!Clashes(old(rows), u.id, v) ==> r == Ok(true) && rows == old(rows)[u.id := v])
    {
      var found := UserByUsername(rows, username);
      if found.None? {
        return Ok(false);
      }
      var original := found.value;
      var id :| id in rows && rows[id] == original;
      var updates := Collect(c, salt);
      var user := original;
      for i := 0 to |updates|
        invariant ApplyAll(user, updates[i..]) == ApplyAll(original, updates)
      {
        assert updates[i..][1..] == updates[i + 1..];
        user := SetAttr(user, updates[i]);
      }
      CollectApplies(original, c, salt);
      if Clashes(rows, id, user) {
        return Err(IntegrityError);
      }
      rows := rows[id := user];
      r := Ok(true);
    }
  }
}
