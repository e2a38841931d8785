/** The persisted entities of the recipe backend as rows of a relational
    store, the constraints the Django models declare on them (unique fields
    and pairs, value ranges, foreign keys, no self-subscription), the
    uniqueness of favourite and cart pairs that the API keeps, and the
    effect of the models' CASCADE rules when a row is deleted. */
module Store {
  import opened Prelude

  type Id = nat

  /** Validators of `Recipe.cooking_time`, in minutes. */
  const MinCookingTime: int := 1
  const MaxCookingTime: int := 1440
  /** Validators of `RecipeIngredient.amount`. */
  const MinAmount: int := 1
  const MaxAmount: int := 10000

  /** A user account; the password hash is reduced to "a password was set". */
  datatype User = User(
    id: Id, email: string, username: string, firstName: string, lastName: string,
    avatar: Option<string>, hasPassword: bool, isStaff: bool, isSuperuser: bool)

  datatype Tag = Tag(id: Id, name: string, slug: string)

  datatype Ingredient = Ingredient(id: Id, name: string, measurementUnit: string)

  /** A recipe with the ids of its tags (the many-to-many `tags` field). */
  datatype Recipe = Recipe(
    id: Id, author: Id, name: string, image: string, text: string,
    cookingTime: int, tags: set<Id>)

  /** The through-table row that puts `amount` of an ingredient in a recipe. */
  datatype RecipeIngredient = RecipeIngredient(recipe: Id, ingredient: Id, amount: int)

  /** A row of a user-to-object relation table: Favorite and ShoppingCart
      (the target is a recipe) or Subscription (the target is an author). */
  datatype Link = Link(user: Id, target: Id)

  datatype RelationKind = FavoriteKind | ShoppingCartKind | SubscriptionKind

  /** The whole store. `recipes` is kept newest first, the models' default
      ordering by descending publication date. The counters are the next
      primary keys the database hands out; they never go back. */
  datatype Db = Db(
    users: seq<User>,
    tags: seq<Tag>,
    ingredients: seq<Ingredient>,
    recipes: seq<Recipe>,
    recipeIngredients: seq<RecipeIngredient>,
    favorites: seq<Link>,
    carts: seq<Link>,
    subscriptions: seq<Link>,
    nextUserId: Id,
    nextRecipeId: Id)

  /** The table that holds the rows of relation `kind`. */
  function Rows(db: Db, kind: RelationKind): seq<Link> {
    match kind
    case FavoriteKind => db.favorites
    case ShoppingCartKind => db.carts
    case SubscriptionKind => db.subscriptions
  }

  /** The store with the table of `kind` replaced by `rows`. */
  function WithRows(db: Db, kind: RelationKind, rows: seq<Link>): (r: Db)
    ensures Rows(r, kind) == rows
    ensures forall k :: k != kind ==> Rows(r, k) == Rows(db, k)
    ensures r.users == db.users && r.tags == db.tags && r.ingredients == db.ingredients
    ensures r.recipes == db.recipes && r.recipeIngredients == db.recipeIngredients
    ensures r.nextUserId == db.nextUserId && r.nextRecipeId == db.nextRecipeId
  {
    match kind
    case FavoriteKind => db.(favorites := rows)
    case ShoppingCartKind => db.(carts := rows)
    case SubscriptionKind => db.(subscriptions := rows)
  }

  function UserIds(db: Db): set<Id> {
    set u | u in db.users :: u.id
  }

  function TagIds(db: Db): set<Id> {
    set t | t in db.tags :: t.id
  }

  function IngredientIds(db: Db): set<Id> {
    set i | i in db.ingredients :: i.id
  }

  function RecipeIds(db: Db): set<Id> {
    set rc | rc in db.recipes :: rc.id
  }

  /** The ids a target of relation `kind` is looked up among. */
  function TargetIds(db: Db, kind: RelationKind): set<Id> {
    if kind == SubscriptionKind then UserIds(db) else RecipeIds(db)
  }

  // ----- lookups by primary key (`Model.objects.get(id=...)`)

  function Find<T(==,!new)>(s: seq<T>, key: T -> Id, id: Id): (r: Option<T>)
    ensures r.Some? ==> r.value in s && key(r.value) == id
    ensures r.None? ==> forall x :: x in s ==> key(x) != id
  {
    if s == [] then None
    else if key(s[0]) == id then Some(s[0])
    else Find(s[1..], key, id)
  }

  function FindUser(db: Db, id: Id): (r: Option<User>)
    ensures r.Some? <==> id in UserIds(db)
    ensures r.Some? ==> r.value in db.users && r.value.id == id
  {
    Find(db.users, (u: User) => u.id, id)
  }

  function FindRecipe(db: Db, id: Id): (r: Option<Recipe>)
    ensures r.Some? <==> id in RecipeIds(db)
    ensures r.Some? ==> r.value in db.recipes && r.value.id == id
  {
    Find(db.recipes, (rc: Recipe) => rc.id, id)
  }

  function FindIngredient(db: Db, id: Id): (r: Option<Ingredient>)
    ensures r.Some? <==> id in IngredientIds(db)
    ensures r.Some? ==> r.value in db.ingredients && r.value.id == id
  {
    Find(db.ingredients, (i: Ingredient) => i.id, id)
  }

  /** `Model.objects.filter(user=user, <target field>=target).exists()` on
      a relation table: the filtered queryset is non-empty exactly when the
      pair is a row. */
  function HasLink(rows: seq<Link>, user: Id, target: Id): (b: bool)
    ensures b <==> Link(user, target) in rows
  {
    var hits := Keep(rows, (l: Link) => l.user == user && l.target == target);
    assert Link(user, target) in rows ==> Link(user, target) in hits;
    assert hits != [] ==> hits[0] in hits && hits[0] == Link(user, target);
    hits != []
  }

  // ----- the constraints of the models

  /** `User`: primary key, `email` and `username` are each unique. */
  predicate UsersValid(db: Db) {
    && NoDup(db.users)
    && (forall u, v :: u in db.users && v in db.users && u.id == v.id ==> u == v)
    && (forall u, v :: u in db.users && v in db.users && u.email == v.email ==> u == v)
    && (forall u, v :: u in db.users && v in db.users && u.username == v.username ==> u == v)
    && (forall u :: u in db.users ==> u.id < db.nextUserId)
  }

  /** `Tag`: `name` and `slug` are each unique. */
  predicate TagsValid(db: Db) {
    && NoDup(db.tags)
    && (forall t, s :: t in db.tags && s in db.tags && t.id == s.id ==> t == s)
    && (forall t, s :: t in db.tags && s in db.tags && t.name == s.name ==> t == s)
    && (forall t, s :: t in db.tags && s in db.tags && t.slug == s.slug ==> t == s)
  }

  /** `Ingredient`: the pair (name, measurement_unit) is unique. */
  predicate IngredientsValid(db: Db) {
    && NoDup(db.ingredients)
    && (forall i, j :: i in db.ingredients && j in db.ingredients && i.id == j.id ==> i == j)
    && (forall i, j ::
          (i in db.ingredients && j in db.ingredients &&
           i.name == j.name && i.measurementUnit == j.measurementUnit) ==> i == j)
  }

  /** `Recipe`: cooking time in [1, 1440], an existing author, existing tags. */
  predicate RecipesValid(db: Db) {
    && NoDup(db.recipes)
    && (forall a, b :: a in db.recipes && b in db.recipes && a.id == b.id ==> a == b)
    && (forall rc :: rc in db.recipes ==>
          && MinCookingTime <= rc.cookingTime <= MaxCookingTime
          && rc.author in UserIds(db)
          && rc.tags <= TagIds(db)
          && rc.id < db.nextRecipeId)
  }

  /** `RecipeIngredient`: amount in [1, 10000], (recipe, ingredient) unique. */
  predicate RecipeIngredientsValid(db: Db) {
    && NoDup(db.recipeIngredients)
    && (forall ri :: ri in db.recipeIngredients ==>
          && MinAmount <= ri.amount <= MaxAmount
          && ri.recipe in RecipeIds(db)
          && ri.ingredient in IngredientIds(db))
    && (forall a, b ::
          (a in db.recipeIngredients && b in db.recipeIngredients &&
           a.recipe == b.recipe && a.ingredient == b.ingredient) ==> a == b)
  }

  /** A relation table: (user, target) unique, both ends exist. For
      `Subscription` the pair is a declared constraint; for `Favorite` and
      `ShoppingCart` it is an invariant the API keeps (see `DeclaredValid`). */
  predicate LinksValid(links: seq<Link>, users: set<Id>, targets: set<Id>) {
    && NoDup(links)
    && LinksExist(links, users, targets)
  }

  /** The foreign keys of a relation table: both ends of every row exist. */
  predicate LinksExist(links: seq<Link>, users: set<Id>, targets: set<Id>) {
    forall l :: l in links ==> l.user in users && l.target in targets
  }

  /** `Subscription`: (user, author) unique and user != author. */
  predicate SubscriptionsValid(db: Db) {
    && LinksValid(db.subscriptions, UserIds(db), UserIds(db))
    && (forall l :: l in db.subscriptions ==> l.user != l.target)
  }

  predicate Valid(db: Db) {
    && UsersValid(db)
    && TagsValid(db)
    && IngredientsValid(db)
    && RecipesValid(db)
    && RecipeIngredientsValid(db)
    && LinksValid(db.favorites, UserIds(db), RecipeIds(db))
    && LinksValid(db.carts, UserIds(db), RecipeIds(db))
    && SubscriptionsValid(db)
  }

  /** The constraints the tables declare as written. `Favorite` and
      `ShoppingCart` each declare their own `Meta`, which replaces the
      abstract `UserRecipeRelation.Meta` and with it the unique (user,
      recipe) constraint, so those two tables keep only their foreign keys. */
  predicate DeclaredValid(db: Db) {
    && UsersValid(db)
    && TagsValid(db)
    && IngredientsValid(db)
    && RecipesValid(db)
    && RecipeIngredientsValid(db)
    && LinksExist(db.favorites, UserIds(db), RecipeIds(db))
    && LinksExist(db.carts, UserIds(db), RecipeIds(db))
    && SubscriptionsValid(db)
  }

  /** `Valid` is the declared constraints plus the uniqueness of favourite
      and cart pairs that the lost constraint would have enforced. */
  lemma ValidIsDeclaredAndUnique(db: Db)
    ensures Valid(db) <==> DeclaredValid(db) && NoDup(db.favorites) && NoDup(db.carts)
  {
  }

  /** As written, the tables accept a second favourite row for the same
      pair: this store meets every declared constraint and is not `Valid`. */
  lemma DuplicateFavoriteDeclared()
    ensures var u := User(1, "a@b.c", "a", "A", "B", None, true, false, false);
      var rc := Recipe(1, 1, "Суп", "img", "text", 10, {});
      var db := Db([u], [], [], [rc], [], [Link(1, 1), Link(1, 1)], [], [], 2, 2);
      DeclaredValid(db) && !Valid(db)
  {
    var u := User(1, "a@b.c", "a", "A", "B", None, true, false, false);
    var rc := Recipe(1, 1, "Суп", "img", "text", 10, {});
    var db := Db([u], [], [], [rc], [], [Link(1, 1), Link(1, 1)], [], [], 2, 2);
    assert UserIds(db) == {1} && RecipeIds(db) == {1};
    assert db.favorites[0] == db.favorites[1];
  }

  /** In a valid store a primary key names exactly one row. */
  lemma FindUserUnique(db: Db, u: User)
    requires Valid(db) && u in db.users
    ensures FindUser(db, u.id) == Some(u)
  {
  }

  lemma FindRecipeUnique(db: Db, rc: Recipe)
    requires Valid(db) && rc in db.recipes
    ensures FindRecipe(db, rc.id) == Some(rc)
  {
  }

  /** A write that only touches the recipe and recipe-ingredient tables
      keeps the store valid when those two tables are valid afterwards and
      no recipe some relation row points at has disappeared. */
  lemma RecipeWriteValid(db: Db, after: Db)
    requires Valid(db)
    requires after.users == db.users && after.tags == db.tags && after.ingredients == db.ingredients
    requires after.favorites == db.favorites && after.carts == db.carts
    requires after.subscriptions == db.subscriptions && after.nextUserId == db.nextUserId
    requires RecipeIds(db) <= RecipeIds(after)
    requires RecipesValid(after) && RecipeIngredientsValid(after)
    ensures Valid(after)
  {
    assert UserIds(after) == UserIds(db);
  }

  // ----- CASCADE deletes

  /** Deleting a recipe deletes its ingredient rows and every Favorite and
      ShoppingCart row that points at it. */
  function DeleteRecipe(db: Db, id: Id): (r: Db)
    ensures id !in RecipeIds(r)
    ensures forall rc :: rc in r.recipes <==> rc in db.recipes && rc.id != id
    ensures forall ri :: ri in r.recipeIngredients <==> ri in db.recipeIngredients && ri.recipe != id
    ensures forall l :: l in r.favorites <==> l in db.favorites && l.target != id
    ensures forall l :: l in r.carts <==> l in db.carts && l.target != id
    ensures r.users == db.users && r.tags == db.tags && r.ingredients == db.ingredients
    ensures r.subscriptions == db.subscriptions
    ensures r.nextUserId == db.nextUserId && r.nextRecipeId == db.nextRecipeId
  {
    db.(recipes := Keep(db.recipes, (rc: Recipe) => rc.id != id),
        recipeIngredients := Keep(db.recipeIngredients, (ri: RecipeIngredient) => ri.recipe != id),
        favorites := Keep(db.favorites, (l: Link) => l.target != id),
        carts := Keep(db.carts, (l: Link) => l.target != id))
  }

  lemma DeleteRecipeValid(db: Db, id: Id)
    requires Valid(db)
    ensures Valid(DeleteRecipe(db, id))
  {
    var r := DeleteRecipe(db, id);
    assert UserIds(r) == UserIds(db) && TagIds(r) == TagIds(db);
    assert IngredientIds(r) == IngredientIds(db);
    assert RecipeIds(r) == RecipeIds(db) - {id};
    assert UsersValid(r) && TagsValid(r) && IngredientsValid(r);
    assert RecipesValid(r) by {
      KeepNoDup(db.recipes, (rc: Recipe) => rc.id != id);
    }
    assert RecipeIngredientsValid(r) by {
      KeepNoDup(db.recipeIngredients, (ri: RecipeIngredient) => ri.recipe != id);
    }
    assert LinksValid(r.favorites, UserIds(r), RecipeIds(r)) by {
      KeepNoDup(db.favorites, (l: Link) => l.target != id);
    }
    assert LinksValid(r.carts, UserIds(r), RecipeIds(r)) by {
      KeepNoDup(db.carts, (l: Link) => l.target != id);
    }
    assert SubscriptionsValid(r);
  }

  /** The ids of the recipes `author` wrote. */
  function AuthoredIds(db: Db, author: Id): set<Id> {
    set rc | rc in db.recipes && rc.author == author :: rc.id
  }

  /** Deleting a user deletes their recipes (with those recipes' own
      cascades), their Favorite and ShoppingCart rows, and their
      subscriptions in both directions. */
  function DeleteUser(db: Db, id: Id): (r: Db)
    ensures id !in UserIds(r)
    ensures forall rc :: rc in r.recipes <==> rc in db.recipes && rc.author != id
    ensures forall ri :: ri in r.recipeIngredients <==>
              ri in db.recipeIngredients && ri.recipe !in AuthoredIds(db, id)
    ensures forall l :: l in r.favorites <==>
              l in db.favorites && l.user != id && l.target !in AuthoredIds(db, id)
    ensures forall l :: l in r.carts <==>
              l in db.carts && l.user != id && l.target !in AuthoredIds(db, id)
    ensures forall l :: l in r.subscriptions <==>
              l in db.subscriptions && l.user != id && l.target != id
    ensures forall u :: u in r.users <==> u in db.users && u.id != id
    ensures r.tags == db.tags && r.ingredients == db.ingredients
    ensures r.nextUserId == db.nextUserId && r.nextRecipeId == db.nextRecipeId
  {
    var gone := AuthoredIds(db, id);
    db.(users := Keep(db.users, (u: User) => u.id != id),
        recipes := Keep(db.recipes, (rc: Recipe) => rc.author != id),
        recipeIngredients := Keep(db.recipeIngredients, (ri: RecipeIngredient) => ri.recipe !in gone),
        favorites := Keep(db.favorites, (l: Link) => l.user != id && l.target !in gone),
        carts := Keep(db.carts, (l: Link) => l.user != id && l.target !in gone),
        subscriptions := Keep(db.subscriptions, (l: Link) => l.user != id && l.target != id))
  }

  /** The ids left after deleting a user and what the cascade takes with them. */
  lemma DeleteUserIds(db: Db, id: Id)
    requires RecipesValid(db)
    ensures UserIds(DeleteUser(db, id)) == UserIds(db) - {id}
    ensures RecipeIds(DeleteUser(db, id)) == RecipeIds(db) - AuthoredIds(db, id)
    ensures TagIds(DeleteUser(db, id)) == TagIds(db)
    ensures IngredientIds(DeleteUser(db, id)) == IngredientIds(db)
  {
    var r := DeleteUser(db, id);
    var gone := AuthoredIds(db, id);
    forall x | x in RecipeIds(db) - gone ensures x in RecipeIds(r) {
      var rc :| rc in db.recipes && rc.id == x;
      assert rc.author != id;
    }
    forall x | x in RecipeIds(r) ensures x !in gone {
      var rc :| rc in r.recipes && rc.id == x;
    }
  }

  lemma DeleteUserValid(db: Db, id: Id)
    requires Valid(db)
    ensures Valid(DeleteUser(db, id))
  {
    var r := DeleteUser(db, id);
    var gone := AuthoredIds(db, id);
    DeleteUserIds(db, id);
    assert UsersValid(r) by {
      KeepNoDup(db.users, (u: User) => u.id != id);
    }
    assert TagsValid(r) && IngredientsValid(r);
    assert RecipesValid(r) by {
      KeepNoDup(db.recipes, (rc: Recipe) => rc.author != id);
    }
    assert RecipeIngredientsValid(r) by {
      KeepNoDup(db.recipeIngredients, (ri: RecipeIngredient) => ri.recipe !in gone);
    }
    assert LinksValid(r.favorites, UserIds(r), RecipeIds(r)) by {
      KeepNoDup(db.favorites, (l: Link) => l.user != id && l.target !in gone);
    }
    assert LinksValid(r.carts, UserIds(r), RecipeIds(r)) by {
      KeepNoDup(db.carts, (l: Link) => l.user != id && l.target !in gone);
    }
    assert SubscriptionsValid(r) by {
      KeepNoDup(db.subscriptions, (l: Link) => l.user != id && l.target != id);
    }
  }

  /** Deleting an ingredient deletes the recipe rows that use it. */
  function DeleteIngredient(db: Db, id: Id): (r: Db)
    ensures id !in IngredientIds(r)
    ensures forall i :: i in r.ingredients <==> i in db.ingredients && i.id != id
    ensures forall ri :: ri in r.recipeIngredients <==> ri in db.recipeIngredients && ri.ingredient != id
    ensures r.users == db.users && r.tags == db.tags && r.recipes == db.recipes
    ensures r.favorites == db.favorites && r.carts == db.carts && r.subscriptions == db.subscriptions
  {
    db.(ingredients := Keep(db.ingredients, (i: Ingredient) => i.id != id),
        recipeIngredients := Keep(db.recipeIngredients, (ri: RecipeIngredient) => ri.ingredient != id))
  }

  lemma DeleteIngredientValid(db: Db, id: Id)
    requires Valid(db)
    ensures Valid(DeleteIngredient(db, id))
  {
    var r := DeleteIngredient(db, id);
    assert UserIds(r) == UserIds(db) && TagIds(r) == TagIds(db);
    assert RecipeIds(r) == RecipeIds(db);
    assert IngredientIds(r) == IngredientIds(db) - {id};
    assert UsersValid(r) && TagsValid(r) && RecipesValid(r);
    assert IngredientsValid(r) by {
      KeepNoDup(db.ingredients, (i: Ingredient) => i.id != id);
    }
    assert RecipeIngredientsValid(r) by {
      KeepNoDup(db.recipeIngredients, (ri: RecipeIngredient) => ri.ingredient != id);
    }
    assert LinksValid(r.favorites, UserIds(r), RecipeIds(r));
    assert LinksValid(r.carts, UserIds(r), RecipeIds(r));
    assert SubscriptionsValid(r);
  }
}
