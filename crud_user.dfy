/** The user table and its create / update / delete operations
    (app/crud/crud_user.py over app/models/user.py, with the request schemas
    of app/schemas/user.py). */
module CrudUser {
  import opened Common
  import Security

  /** A row of `users`, or the object `update_user` returns.
      `hashesPassword` is the attribute `update_user` sets by its misspelt
      key: it is not a column, so the returned object carries it but the
      stored row never does (it is None on every row of the table). */
  datatype User = User(
    id: nat,
    email: string,
    name: Option<string>,
    hashedPassword: string,
    isActive: bool,
    isSuperuser: bool,
    roles: string,
    refreshToken: Option<string>,
    hashesPassword: Option<string>)

  /** `UserCreate`. */
  datatype UserCreate = UserCreate(
    email: string,
    name: Option<string>,
    password: string,
    isSuperuser: bool,
    roles: string,
    isActive: bool)

  /** A `UserCreate` with only the required fields given: the schema's
      defaults False / "user" / True and no name. */
  function UserCreateWithDefaults(email: string, password: string): (u: UserCreate)
    ensures u.email == email && u.password == password && u.name == None
    ensures !u.isSuperuser && u.roles == "user" && u.isActive
  {
    UserCreate(email, None, password, false, "user", true)
  }

  /** `UserUpdate`: the e-mail is required (it comes from the base schema),
      every other field may be left out of the request; the password may
      also be given as null. */
  datatype UserUpdate = UserUpdate(
    email: string,
    name: Patch<Option<string>>,
    password: Patch<Option<string>>,
    isActive: Patch<bool>,
    isSuperuser: Patch<bool>,
    roles: Patch<string>)

  const EMAIL_TAKEN: string := "Email already registered"
  const CREATE_FAILED: string := "Error creatinguser: "
  const USER_NOT_FOUND: string := "User not found"

  /** No two rows share an e-mail (the unique index on `email`). */
  predicate EmailsDistinct(rows: seq<User>) {
    forall i, j :: 0 <= i < j < |rows| ==> rows[i].email != rows[j].email
  }

  predicate IdsDistinct(rows: seq<User>) {
    forall i, j :: 0 <= i < j < |rows| ==> rows[i].id != rows[j].id
  }

  /** `get_user_by_email`: the first row, in table order, whose e-mail is
      exactly `email`. */
  function UserByEmail(rows: seq<User>, email: string): (r: Option<User>)
    ensures r.Some? ==> (r.value.email == email
      && exists i :: (0 <= i < |rows| && rows[i] == r.value
         && forall j :: 0 <= j < i ==> rows[j].email != email))
    ensures r.None? <==> forall j :: 0 <= j < |rows| ==> rows[j].email != email
  {
    First(rows, (u: User) => u.email == email)
  }

  /** Position of the row with id `id`. */
  function IndexOfId(rows: seq<User>, id: nat): (r: Option<nat>)
    ensures r.Some? ==> (r.value < |rows| && rows[r.value].id == id
      && forall j :: 0 <= j < r.value ==> rows[j].id != id)
    ensures r.None? ==> forall j :: 0 <= j < |rows| ==> rows[j].id != id
  {
    FirstIndex(rows, (u: User) => u.id == id)
  }

  /** The row `create_user` builds: the hash of the password, never the
      password itself; no refresh token. */
  function NewUser(id: nat, user: UserCreate, hash: string -> string): User {
    User(id, user.email, user.name, hash(user.password), user.isActive, user.isSuperuser,
         user.roles, None, None)
  }

  /** Appending a row whose e-mail is new keeps e-mails distinct. */
  lemma AppendKeepsEmailsDistinct(rows: seq<User>, u: User)
    requires EmailsDistinct(rows)
    requires UserByEmail(rows, u.email).None?
    ensures EmailsDistinct(rows + [u])
  {
    var rows' := rows + [u];
    forall i, j | 0 <= i < j < |rows'| ensures rows'[i].email != rows'[j].email {
      if j == |rows| {
        assert rows'[i] == rows[i];
      } else {
        assert rows'[i] == rows[i] && rows'[j] == rows[j];
      }
    }
  }

  // ---------------------------------------------------------------------
  // update_user
  // ---------------------------------------------------------------------

  /** One `setattr(db_user, field, value)` of the update loop. */
  datatype FieldValue =
    | EmailField(email: string)
    | NameField(name: Option<string>)
    | IsActiveField(isActive: bool)
    | IsSuperuserField(isSuperuser: bool)
    | RolesField(roles: string)
    | HashesPasswordField(hash: string)

  function SetAttr(u: User, f: FieldValue): User {
    match f
    case EmailField(e) => u.(email := e)
    case NameField(n) => u.(name := n)
    case IsActiveField(b) => u.(isActive := b)
    case IsSuperuserField(b) => u.(isSuperuser := b)
    case RolesField(r) => u.(roles := r)
    case HashesPasswordField(h) => u.(hashesPassword := Some(h))
  }

  function SetAttrs(u: User, fields: seq<FieldValue>): User {
    if |fields| == 0 then u else SetAttr(SetAttrs(u, fields[..|fields| - 1]), fields[|fields| - 1])
  }

  /** The dumped entries of `user_in.model_dump(exclude_unset=True)`, one
      field at a time: nothing when the field was left out. */
  function NameData(p: Patch<Option<string>>): seq<FieldValue> {
    if p.Set? then [NameField(p.value)] else []
  }

  function IsActiveData(p: Patch<bool>): seq<FieldValue> {
    if p.Set? then [IsActiveField(p.value)] else []
  }

  function IsSuperuserData(p: Patch<bool>): seq<FieldValue> {
    if p.Set? then [IsSuperuserField(p.value)] else []
  }

  function RolesData(p: Patch<string>): seq<FieldValue> {
    if p.Set? then [RolesField(p.value)] else []
  }

  function PasswordData(p: Patch<Option<string>>, hash: string -> string): seq<FieldValue> {
    if p.Set? && p.value.Some? then [HashesPasswordField(hash(p.value.value))] else []
  }

  /** `user_in.model_dump(exclude_unset=True)` with the password replaced by
      its hash under the key `hashes_password` (which goes last). */
  function UserData(userIn: UserUpdate, hash: string -> string): seq<FieldValue> {
    [EmailField(userIn.email)] + NameData(userIn.name) + IsActiveData(userIn.isActive)
      + IsSuperuserData(userIn.isSuperuser) + RolesData(userIn.roles)
      + PasswordData(userIn.password, hash)
  }

  /** Reference reading of `update_user`, field by field. */
  function Patched(u: User, userIn: UserUpdate, hash: string -> string): User {
    User(u.id, userIn.email, userIn.name.Apply(u.name), u.hashedPassword,
         userIn.isActive.Apply(u.isActive), userIn.isSuperuser.Apply(u.isSuperuser),
         userIn.roles.Apply(u.roles), u.refreshToken,
         if userIn.password.Set? && userIn.password.value.Some? then Some(hash(userIn.password.value.value))
         else u.hashesPassword)
  }

  lemma SetAttrsSnoc(u: User, fields: seq<FieldValue>, more: seq<FieldValue>)
    ensures SetAttrs(u, fields + more) == SetAttrs(SetAttrs(u, fields), more)
    decreases |more|
  {
    if |more| > 0 {
      assert (fields + more)[..|fields + more| - 1] == fields + more[..|more| - 1];
      SetAttrsSnoc(u, fields, more[..|more| - 1]);
    } else {
      assert fields + more == fields;
    }
  }

  /** One more optional field: it sets its attribute, or does nothing. */
  lemma SetAttrsStep(u: User, fields: seq<FieldValue>, more: seq<FieldValue>)
    requires |more| <= 1
    ensures SetAttrs(u, fields + more) ==
      if |more| == 0 then SetAttrs(u, fields) else SetAttr(SetAttrs(u, fields), more[0])
  {
    if |more| == 0 {
      assert fields + more == fields;
    } else {
      assert (fields + more)[..|fields + more| - 1] == fields;
    }
  }

  /** The first five dumped fields give the update of everything but the password. */
  lemma UserDataAppliesUpToPassword(u: User, userIn: UserUpdate)
    ensures SetAttrs(u, [EmailField(userIn.email)] + NameData(userIn.name) + IsActiveData(userIn.isActive)
      + IsSuperuserData(userIn.isSuperuser) + RolesData(userIn.roles))
      == u.(email := userIn.email, name := userIn.name.Apply(u.name),
            isActive := userIn.isActive.Apply(u.isActive),
            isSuperuser := userIn.isSuperuser.Apply(u.isSuperuser),
            roles := userIn.roles.Apply(u.roles))
  {
    var f0 := [EmailField(userIn.email)];
    var f1 := f0 + NameData(userIn.name);
    var f2 := f1 + IsActiveData(userIn.isActive);
    var f3 := f2 + IsSuperuserData(userIn.isSuperuser);
    assert SetAttrs(u, f0) == u.(email := userIn.email) by {
      assert f0[..0] == [];
    }
    SetAttrsStep(u, f0, NameData(userIn.name));
    SetAttrsStep(u, f1, IsActiveData(userIn.isActive));
    SetAttrsStep(u, f2, IsSuperuserData(userIn.isSuperuser));
    SetAttrsStep(u, f3, RolesData(userIn.roles));
  }

  /** Applying the dumped fields one after another is the field-wise update. */
  lemma UserDataApplies(u: User, userIn: UserUpdate, hash: string -> string)
    ensures SetAttrs(u, UserData(userIn, hash)) == Patched(u, userIn, hash)
  {
    var f4 := [EmailField(userIn.email)] + NameData(userIn.name) + IsActiveData(userIn.isActive)
      + IsSuperuserData(userIn.isSuperuser) + RolesData(userIn.roles);
    UserDataAppliesUpToPassword(u, userIn);
    SetAttrsStep(u, f4, PasswordData(userIn.password, hash));
  }

  /** Only the fields given in the request change; `hashed_password`, the id
      and the refresh token never do, and a new password lands in
      `hashes_password` without any complexity check. */
  lemma UpdateChangesOnlyGivenFields(u: User, userIn: UserUpdate, hash: string -> string)
    ensures Patched(u, userIn, hash).id == u.id
    ensures Patched(u, userIn, hash).hashedPassword == u.hashedPassword
    ensures Patched(u, userIn, hash).refreshToken == u.refreshToken
    ensures Patched(u, userIn, hash).email == userIn.email
    ensures userIn.name.Unset? ==> Patched(u, userIn, hash).name == u.name
    ensures userIn.isActive.Unset? ==> Patched(u, userIn, hash).isActive == u.isActive
    ensures userIn.isSuperuser.Unset? ==> Patched(u, userIn, hash).isSuperuser == u.isSuperuser
    ensures userIn.roles.Unset? ==> Patched(u, userIn, hash).roles == u.roles
    ensures userIn.password.Unset? ==> Patched(u, userIn, hash).hashesPassword == u.hashesPassword
    ensures userIn.password.Set? && userIn.password.value.Some? ==>
      Patched(u, userIn, hash).hashesPassword == Some(hash(userIn.password.value.value))
    ensures userIn.name.Set? ==> Patched(u, userIn, hash).name == userIn.name.value
    ensures userIn.roles.Set? ==> Patched(u, userIn, hash).roles == userIn.roles.value
  {
  }

  /** An update that sets nothing but the same e-mail leaves the row as it is. */
  lemma EmptyUpdateIsIdentity(u: User, hash: string -> string)
    ensures Patched(u, UserUpdate(u.email, Unset, Unset, Unset, Unset, Unset), hash) == u
  {
  }

  /** The in-memory `users` table.  Rows keep insertion order; new ids come
      from `nextId`. */
  class UserTable {
    var rows: seq<User>
    var nextId: nat

    ghost predicate Valid()
      reads this
    {
      EmailsDistinct(rows) && IdsDistinct(rows)
      && (forall i :: 0 <= i < |rows| ==> rows[i].id < nextId)
      && forall i :: 0 <= i < |rows| ==> rows[i].hashesPassword.None?
    }

    constructor ()
      ensures rows == [] && nextId == 1 && Valid()
    {
      rows := [];
      nextId := 1;
    }

    /** `create_user`: refuse a registered e-mail (outside the try), then
        check the password; a rejected password is rolled back and re-raised
        wrapped; otherwise one row is appended. */
    method CreateUser(user: UserCreate, hash: string -> string) returns (r: Result<User>)
      requires Valid()
      modifies this
      ensures Valid()
      ensures UserByEmail(old(rows), user.email).Some? ==>
        r == Err(ValueError(EMAIL_TAKEN)) && rows == old(rows) && nextId == old(nextId)
      ensures UserByEmail(old(rows), user.email).None? && Security.ValidatePasswordComplexity(user.password).Err? ==>
        r == Err(ValueError(CREATE_FAILED + Security.ValidatePasswordComplexity(user.password).error.message))
        && rows == old(rows) && nextId == old(nextId)
      ensures UserByEmail(old(rows), user.email).None? && Security.ValidatePasswordComplexity(user.password).Ok? ==>
        r == Ok(NewUser(old(nextId), user, hash))
        && rows == old(rows) + [r.value] && nextId == old(nextId) + 1
    {
      if UserByEmail(rows, user.email).Some? {
        return Err(ValueError(EMAIL_TAKEN));
      }
      var check := Security.ValidatePasswordComplexity(user.password);
      if check.Err? {
        return Err(ValueError(CREATE_FAILED + check.error.message));
      }
      var u := NewUser(nextId, user, hash);
      AppendKeepsEmailsDistinct(rows, u);
      rows := rows + [u];
      nextId := nextId + 1;
      return Ok(u);
    }

    /** The `setattr` loop of `update_user` on one record. */
    static method ApplyUserData(u: User, fields: seq<FieldValue>) returns (v: User)
      ensures v == SetAttrs(u, fields)
    {
      v := u;
      var i := 0;
      while i < |fields|
        invariant 0 <= i <= |fields|
        invariant v == SetAttrs(u, fields[..i])
      {
        assert fields[..i + 1][..i] == fields[..i];
        v := SetAttr(v, fields[i]);
        i := i + 1;
      }
      assert fields[..i] == fields;
    }

    /** `update_user` on the row with id `id` (the `db_user` the caller
        looked up): a null password makes the hash raise before any
        `setattr`; otherwise apply the given fields and commit, which writes
        the columns and so drops `hashes_password`; a commit that would give
        two rows the same e-mail is refused and changes nothing. */
    method UpdateUser(id: nat, userIn: UserUpdate, hash: string -> string) returns (r: Result<User>)
      requires Valid()
      requires IndexOfId(rows, id).Some?
      modifies this
      ensures Valid() && nextId == old(nextId)
      ensures var i := IndexOfId(old(rows), id).value;
        if GivesNull(userIn.password) then
          r == Err(TypeError("secret")) && rows == old(rows)
        else if exists j :: 0 <= j < |old(rows)| && j != i && old(rows)[j].email == userIn.email then
          r == Err(IntegrityError("email")) && rows == old(rows)
        else
          r == Ok(Patched(old(rows)[i], userIn, hash))
          && rows == old(rows)[i := r.value.(hashesPassword := None)]
    {
      if GivesNull(userIn.password) {
        return Err(TypeError("secret"));
      }
      var i := IndexOfId(rows, id).value;
      var v := ApplyUserData(rows[i], UserData(userIn, hash));
      UserDataApplies(rows[i], userIn, hash);
      if exists j :: 0 <= j < |rows| && j != i && rows[j].email == userIn.email {
        return Err(IntegrityError("email"));
      }
      rows := rows[i := v.(hashesPassword := None)];
      return Ok(v);
    }

    /** `delete_user`: remove the row with that id, or raise "User not found". */
    method DeleteUser(id: nat) returns (r: Outcome)
      requires Valid()
      modifies this
      ensures Valid() && nextId == old(nextId)
      ensures IndexOfId(old(rows), id).None? ==> r == Fail(ValueError(USER_NOT_FOUND)) && rows == old(rows)
      ensures IndexOfId(old(rows), id).Some? ==>
        r == Pass && rows == RemoveAt(old(rows), IndexOfId(old(rows), id).value)
    {
      var found := IndexOfId(rows, id);
      if found.None? {
        return Fail(ValueError(USER_NOT_FOUND));
      }
      rows := RemoveAt(rows, found.value);
      return Pass;
    }
  }

  /** After a delete no row has the id any more (ids are distinct). */
  lemma DeleteRemovesTheId(rows: seq<User>, id: nat)
    requires IdsDistinct(rows)
    requires IndexOfId(rows, id).Some?
    ensures IndexOfId(RemoveAt(rows, IndexOfId(rows, id).value), id).None?
    ensures |RemoveAt(rows, IndexOfId(rows, id).value)| == |rows| - 1
  {
  }

  /** Whatever sequence of successful creates runs, e-mails stay distinct:
      the second registration of an address is refused. */
  method RegisterTwice(hash: string -> string, email: string, password: string) returns (first: Result<User>, second: Result<User>)
    requires Security.StrongPassword(password)
    ensures first.Ok? && first.value.email == email && first.value.hashedPassword == hash(password)
    ensures second == Err(ValueError(EMAIL_TAKEN))
  {
    var table := new UserTable();
    first := table.CreateUser(UserCreateWithDefaults(email, password), hash);
    second := table.CreateUser(UserCreateWithDefaults(email, password), hash);
  }
}
