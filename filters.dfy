/** The query-string filters of the recipe and ingredient lists. Each
    filter keeps, in order, the rows of its input that match, or returns its
    input unchanged when its parameter is absent. */
module Filters {
  import opened Prelude
  import opened Store
  import opened UserSerializers

  /** `filter_is_favorited` / `filter_is_in_shopping_cart` over the table
      `rows`: a true value with an authenticated viewer keeps the recipes the
      viewer has a row for; anything else passes the input through. */
  function FilterByRelation(rows: seq<Link>, recipes: seq<Recipe>, viewer: Viewer, value: Option<bool>): (r: seq<Recipe>)
    ensures value == Some(true) && viewer.Authenticated? ==>
              forall rc :: rc in r <==> rc in recipes && Link(viewer.id, rc.id) in rows
    ensures !(value == Some(true) && viewer.Authenticated?) ==> r == recipes
    ensures |r| <= |recipes| && forall rc :: rc in r ==> rc in recipes
  {
    if value == Some(true) && viewer.Authenticated? then
      Keep(recipes, (rc: Recipe) => HasLink(rows, viewer.id, rc.id))
    else recipes
  }

  function FilterIsFavorited(db: Db, recipes: seq<Recipe>, viewer: Viewer, value: Option<bool>): seq<Recipe> {
    FilterByRelation(db.favorites, recipes, viewer, value)
  }

  function FilterIsInShoppingCart(db: Db, recipes: seq<Recipe>, viewer: Viewer, value: Option<bool>): seq<Recipe> {
    FilterByRelation(db.carts, recipes, viewer, value)
  }

  /** `author`: recipes whose author has the given id. */
  function FilterAuthor(recipes: seq<Recipe>, author: Option<int>): (r: seq<Recipe>)
    ensures author.None? ==> r == recipes
    ensures author.Some? ==> forall rc :: rc in r <==> rc in recipes && rc.author == author.value
    ensures |r| <= |recipes|
  {
    if author.None? then recipes else Keep(recipes, (rc: Recipe) => rc.author == author.value)
  }

  /** The slugs the `tags` filter accepts: the values of `tags__slug` over
      the recipes, that is the slugs of tags that some recipe carries. */
  function SlugChoices(db: Db): set<string> {
    set t, rc | t in db.tags && rc in db.recipes && t.id in rc.tags :: t.slug
  }

  /** The recipe has a tag whose slug is one of `slugs`. */
  predicate HasAnySlug(db: Db, rc: Recipe, slugs: seq<string>) {
    exists t :: t in db.tags && t.id in rc.tags && t.slug in slugs
  }

  const InvalidChoiceMsg: string := "Выберите корректный вариант."

  /** `tags`: several slugs may be given and a recipe matches when it has
      any of them; a slug outside the choices makes the request invalid. */
  function FilterTags(db: Db, recipes: seq<Recipe>, slugs: seq<string>): (r: Result<seq<Recipe>, string>)
    ensures slugs == [] ==> r == Ok(recipes)
    ensures r.Err? <==> exists s :: s in slugs && s !in SlugChoices(db)
    ensures r.Ok? && slugs != [] ==>
              forall rc :: rc in r.value <==> rc in recipes && HasAnySlug(db, rc, slugs)
  {
    if exists s :: s in slugs && s !in SlugChoices(db) then Err(InvalidChoiceMsg)
    else if slugs == [] then Ok(recipes)
    else Ok(Keep(recipes, (rc: Recipe) => HasAnySlug(db, rc, slugs)))
  }

  /** The query parameters of the recipe list. */
  datatype RecipeQuery = RecipeQuery(
    author: Option<int>, tags: seq<string>, isFavorited: Option<bool>, isInShoppingCart: Option<bool>)

  /** `RecipeFilter`: the filters in their declared order, each narrowing
      the result of the previous one. */
  function FilterRecipes(db: Db, recipes: seq<Recipe>, viewer: Viewer, q: RecipeQuery): (r: Result<seq<Recipe>, string>)
    ensures r.Err? <==> exists s :: s in q.tags && s !in SlugChoices(db)
    ensures r.Ok? ==> |r.value| <= |recipes|
  {
    match FilterTags(db, recipes, q.tags)
    case Err(m) => Err(m)
    case Ok(tagged) =>
      var byAuthor := FilterAuthor(tagged, q.author);
      var favorited := FilterIsFavorited(db, byAuthor, viewer, q.isFavorited);
      Ok(FilterIsInShoppingCart(db, favorited, viewer, q.isInShoppingCart))
  }

  /** What the recipe filters keep, all together. */
  predicate MatchesQuery(db: Db, rc: Recipe, viewer: Viewer, q: RecipeQuery) {
    && (q.tags != [] ==> HasAnySlug(db, rc, q.tags))
    && (q.author.Some? ==> rc.author == q.author.value)
    && (q.isFavorited == Some(true) && viewer.Authenticated? ==> Link(viewer.id, rc.id) in db.favorites)
    && (q.isInShoppingCart == Some(true) && viewer.Authenticated? ==> Link(viewer.id, rc.id) in db.carts)
  }

  /** The filters combine as a conjunction: a valid query keeps exactly the
      recipes of the input that meet every given condition. */
  lemma FilterRecipesConjunction(db: Db, recipes: seq<Recipe>, viewer: Viewer, q: RecipeQuery)
    requires FilterRecipes(db, recipes, viewer, q).Ok?
    ensures forall rc :: rc in FilterRecipes(db, recipes, viewer, q).value <==>
              rc in recipes && MatchesQuery(db, rc, viewer, q)
  {
    var tagged := FilterTags(db, recipes, q.tags).value;
    var byAuthor := FilterAuthor(tagged, q.author);
    var favorited := FilterIsFavorited(db, byAuthor, viewer, q.isFavorited);
    var result := FilterIsInShoppingCart(db, favorited, viewer, q.isInShoppingCart);
    forall rc ensures rc in result <==> rc in recipes && MatchesQuery(db, rc, viewer, q) {
      assert rc in tagged <==> rc in recipes && (q.tags != [] ==> HasAnySlug(db, rc, q.tags));
    }
  }

  /** `s.startswith(prefix)`, case-sensitive. */
  predicate StartsWith(s: string, prefix: string) {
    |prefix| <= |s| && s[..|prefix|] == prefix
  }

  /** `IngredientFilter.name`: ingredients whose name starts with the given
      text; an absent or empty parameter applies no filter. */
  function FilterIngredientName(ingredients: seq<Ingredient>, name: Option<string>): (r: seq<Ingredient>)
    ensures !Truthy(name) ==> r == ingredients
    ensures Truthy(name) ==> forall i :: i in r <==> i in ingredients && StartsWith(i.name, name.value)
    ensures |r| <= |ingredients|
  {
    if !Truthy(name) then ingredients
    else Keep(ingredients, (i: Ingredient) => StartsWith(i.name, name.value))
  }

  /** The prefix filter is case-sensitive: "Соль" is not kept for "с". */
  lemma IngredientNameCaseSensitive()
    ensures FilterIngredientName([Ingredient(1, "Соль", "г")], Some("с")) == []
  {
    assert !StartsWith("Соль", "с") by {
      assert "Соль"[..1] == "С";
    }
  }
}
