/** The user manager of the custom User model: `create_user` checks the
    email, derives a missing username from the normalised email, sets the
    password only when one is given and saves the row; `create_superuser`
    only adds the two staff flags as defaults. Email normalisation is
    Django's and is passed in as a function. */
module UserManager {
  import opened Prelude
  import opened Store

  const EmailRequiredMsg: string := "Email обязателен"

  /** The `**extra_fields` the model understands; `None` is "not passed". */
  datatype ExtraFields = ExtraFields(
    firstName: Option<string>, lastName: Option<string>,
    isStaff: Option<bool>, isSuperuser: Option<bool>)

  /** `ValueError` raised by the manager, or the database refusing the row
      because the email or the username is already taken. */
  datatype CreateUserError = ValueError(message: string) | IntegrityError

  /** `s.split('@')[0]`: the text before the first '@', or all of `s`. */
  function LocalPart(s: string): (r: string)
    ensures |r| <= |s| && r == s[..|r|]
    ensures '@' !in r
    ensures |r| < |s| ==> s[|r|] == '@'
  {
    if s == [] || s[0] == '@' then [] else [s[0]] + LocalPart(s[1..])
  }

  /** The unique constraints on `email` and `username` leave room for `u`. */
  predicate Saveable(db: Db, u: User) {
    forall v :: v in db.users ==> v.email != u.email && v.username != u.username
  }

  /** `create_user(email, username, password, **extra_fields)`. The new row
      gets the next primary key; the result carries the store afterwards. */
  function CreateUser(
    db: Db, normalize: string -> string, email: Option<string>,
    username: Option<string>, password: Option<string>, extra: ExtraFields
  ): (r: (Result<User, CreateUserError>, Db))
    ensures !Truthy(email) ==> r == (Err(ValueError(EmailRequiredMsg)), db)
    ensures r.0.Err? ==> r.1 == db
    ensures r.0.Ok? ==>
      && Truthy(email)
      && r.0.value.id == db.nextUserId
      && r.0.value.email == normalize(email.value)
      && r.0.value.username ==
           (if Truthy(username) then username.value else LocalPart(normalize(email.value)))
      && r.0.value.hasPassword == Truthy(password)
      && r.0.value.isStaff == extra.isStaff.GetOr(false)
      && r.0.value.isSuperuser == extra.isSuperuser.GetOr(false)
      && r.1 == db.(users := db.users + [r.0.value], nextUserId := db.nextUserId + 1)
    ensures Truthy(email) && r.0.Err? ==> r.0 == Err(IntegrityError)
    ensures Truthy(email) ==> (r.0.Ok? <==>
      var name := if Truthy(username) then username.value else LocalPart(normalize(email.value));
      forall v :: v in db.users ==> v.email != normalize(email.value) && v.username != name)
  {
    if !Truthy(email) then
      (Err(ValueError(EmailRequiredMsg)), db)
    else
      var name := if Truthy(username) then username.value else LocalPart(normalize(email.value));
      var u := User(
        db.nextUserId, normalize(email.value), name,
        extra.firstName.GetOr(""), extra.lastName.GetOr(""), None,
        Truthy(password), extra.isStaff.GetOr(false), extra.isSuperuser.GetOr(false));
      if Saveable(db, u) then
        (Ok(u), db.(users := db.users + [u], nextUserId := db.nextUserId + 1))
      else
        (Err(IntegrityError), db)
  }

  /** A saveable row with the next primary key keeps the user table valid. */
  lemma AppendUserValid(db: Db, u: User)
    requires UsersValid(db) && Saveable(db, u) && u.id == db.nextUserId
    ensures UsersValid(db.(users := db.users + [u], nextUserId := db.nextUserId + 1))
  {
    assert u !in db.users;
    AppendNoDup(db.users, u);
  }

  /** Creating a user keeps every constraint of the store. */
  lemma CreateUserValid(
    db: Db, normalize: string -> string, email: Option<string>,
    username: Option<string>, password: Option<string>, extra: ExtraFields)
    requires Valid(db)
    ensures Valid(CreateUser(db, normalize, email, username, password, extra).1)
  {
    var r := CreateUser(db, normalize, email, username, password, extra);
    if r.0.Ok? {
      var u := r.0.value;
      var d := r.1;
      AppendUserValid(db, u);
      assert UserIds(db) <= UserIds(d);
      assert TagIds(d) == TagIds(db) && RecipeIds(d) == RecipeIds(db);
      assert IngredientIds(d) == IngredientIds(db);
      assert RecipesValid(d);
      assert RecipeIngredientsValid(d);
      assert LinksValid(d.favorites, UserIds(d), RecipeIds(d));
      assert LinksValid(d.carts, UserIds(d), RecipeIds(d));
      assert SubscriptionsValid(d);
    }
  }

  /** The `setdefault` of both staff flags to True. */
  function SuperuserFields(extra: ExtraFields): (r: ExtraFields)
    ensures r.isStaff == Some(extra.isStaff.GetOr(true))
    ensures r.isSuperuser == Some(extra.isSuperuser.GetOr(true))
    ensures r.firstName == extra.firstName && r.lastName == extra.lastName
  {
    extra.(isStaff := Some(extra.isStaff.GetOr(true)),
           isSuperuser := Some(extra.isSuperuser.GetOr(true)))
  }

  /** `create_superuser`: a superuser is staff and superuser unless the
      caller passed a flag explicitly, which is then kept as given; all
      else is `create_user`. */
  function CreateSuperuser(
    db: Db, normalize: string -> string, email: Option<string>,
    username: Option<string>, password: Option<string>, extra: ExtraFields
  ): (r: (Result<User, CreateUserError>, Db))
    ensures r.0.Ok? ==> r.0.value.isStaff == extra.isStaff.GetOr(true)
    ensures r.0.Ok? ==> r.0.value.isSuperuser == extra.isSuperuser.GetOr(true)
    ensures r.0.Ok? && extra.isStaff.None? && extra.isSuperuser.None? ==>
              r.0.value.isStaff && r.0.value.isSuperuser
    ensures r.0.Err? ==> r.1 == db
  {
    CreateUser(db, normalize, email, username, password, SuperuserFields(extra))
  }

  /** The username derived from an email is its part before the first '@'. */
  lemma {:induction false} LocalPartOfAddress(local: string, domain: string)
    requires '@' !in local
    ensures LocalPart(local + "@" + domain) == local
  {
    if local != [] {
      assert (local + "@" + domain)[1..] == local[1..] + "@" + domain;
      LocalPartOfAddress(local[1..], domain);
    } else {
      assert (local + "@" + domain)[0] == '@';
    }
  }
}
