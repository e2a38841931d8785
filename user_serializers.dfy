/** The user serializers: the `is_subscribed` flag of a user as seen by the
    requester, and the author representation with the author's recipes
    (optionally cut to `recipes_limit`) and `recipes_count`. */
module UserSerializers {
  import opened Prelude
  import opened Decimal
  import opened Store
  import opened RecipeSerializers

  /** `request.user`: anonymous, or the authenticated user with this id. */
  datatype Viewer = Anonymous | Authenticated(id: Id)

  /** `get_is_subscribed`: false for an anonymous viewer, otherwise whether
      the viewer has a Subscription row to `author`. */
  function IsSubscribed(db: Db, viewer: Viewer, author: Id): (b: bool)
    ensures viewer.Anonymous? ==> !b
    ensures viewer.Authenticated? ==> (b <==> Link(viewer.id, author) in db.subscriptions)
  {
    match viewer
    case Anonymous => false
    case Authenticated(u) => HasLink(db.subscriptions, u, author)
  }

  /** `UserSerializer` data. */
  datatype UserView = UserView(
    email: string, id: Id, username: string, firstName: string, lastName: string,
    isSubscribed: bool, avatar: Option<string>)

  function SerializeUser(db: Db, viewer: Viewer, u: User): UserView {
    UserView(u.email, u.id, u.username, u.firstName, u.lastName,
             IsSubscribed(db, viewer, u.id), u.avatar)
  }

  /** `author.recipes.all()`: the author's recipes, newest first. */
  function AuthorRecipes(db: Db, author: Id): (r: seq<Recipe>)
    ensures forall rc :: rc in r <==> rc in db.recipes && rc.author == author
    ensures |r| <= |db.recipes|
  {
    Keep(db.recipes, (rc: Recipe) => rc.author == author)
  }

  /** `RecipeMinifiedSerializer(recipes, many=True)`. */
  function MinifyAll(recipes: seq<Recipe>): (r: seq<MinifiedRecipe>)
    ensures |r| == |recipes|
    ensures forall i :: 0 <= i < |r| ==> r[i] == Minify(recipes[i])
  {
    if recipes == [] then [] else [Minify(recipes[0])] + MinifyAll(recipes[1..])
  }

  /** The cut taken from `recipes_limit`: only a present, non-empty string
      of digits gives one, read as a decimal number. */
  function RecipesLimit(limit: Option<string>): (n: Option<nat>)
    ensures n.Some? <==> limit.Some? && IsDigits(limit.value)
    ensures n.Some? ==> n.value == Parse(limit.value)
  {
    if Truthy(limit) && IsDigits(limit.value) then Some(Parse(limit.value)) else None
  }

  /** Any number written in decimal is taken as the limit it spells. */
  lemma RecipesLimitOfNumber(n: nat)
    ensures RecipesLimit(Some(Show(n))) == Some(n)
  {
    ParseShow(n);
  }

  /** Absent, empty, negative and non-numeric limits give no cut; "0" cuts
      to nothing. */
  lemma RecipesLimitExamples()
    ensures RecipesLimit(None) == None
    ensures RecipesLimit(Some("")) == None
    ensures RecipesLimit(Some("-1")) == None
    ensures RecipesLimit(Some("abc")) == None
    ensures RecipesLimit(Some("0")) == Some(0)
    ensures RecipesLimit(Some("12")) == Some(12)
  {
    assert !IsDigit('-') && !IsDigit('a');
    assert "12"[..1] == "1";
    assert "1"[..0] == "";
  }

  /** `get_recipes`: the author's recipes, cut to the first `n` when the
      limit gives a cut (a cut past the end keeps all). */
  function GetRecipes(db: Db, author: Id, limit: Option<string>): (r: seq<MinifiedRecipe>)
    ensures var all := MinifyAll(AuthorRecipes(db, author));
      && |r| <= |all| && r == all[..|r|]
      && |r| == (if RecipesLimit(limit).Some? && RecipesLimit(limit).value < |all|
                 then RecipesLimit(limit).value else |all|)
  {
    var all := MinifyAll(AuthorRecipes(db, author));
    match RecipesLimit(limit)
    case Some(n) => if n < |all| then all[..n] else all
    case None => all
  }

  /** Without a usable limit every recipe of the author is returned. */
  lemma GetRecipesUncut(db: Db, author: Id, limit: Option<string>)
    requires RecipesLimit(limit).None?
    ensures GetRecipes(db, author, limit) == MinifyAll(AuthorRecipes(db, author))
  {
  }

  /** `UserWithRecipesSerializer` data. */
  datatype AuthorView = AuthorView(user: UserView, recipes: seq<MinifiedRecipe>, recipesCount: int)

  /** The author representation; `count` is the `recipes_count` annotation
      when the queryset carries one, and the field's default 0 otherwise. */
  function SerializeAuthor(db: Db, viewer: Viewer, u: User, limit: Option<string>, count: Option<nat>): (v: AuthorView)
    ensures count.None? ==> v.recipesCount == 0
    ensures count.Some? ==> v.recipesCount == count.value
    ensures v.user.id == u.id && v.user.isSubscribed == IsSubscribed(db, viewer, u.id)
    ensures v.recipes == GetRecipes(db, u.id, limit)
  {
    AuthorView(SerializeUser(db, viewer, u), GetRecipes(db, u.id, limit), count.GetOr(0))
  }
}
