/** The read side of the views: the recipe queryset with its per-viewer
    `Exists` annotations, the list of the requester's subscriptions with
    each author's `recipes_count`, and the wiring of the favourite,
    shopping-cart and subscribe actions to the relation engine. */
module Views {
  import opened Prelude
  import opened Store
  import opened RecipeSerializers
  import opened UserSerializers
  import opened RelationSerializers
  import opened Mixins

  /** `get_queryset`: an authenticated viewer's queryset annotates each
      recipe with whether the viewer has a Favorite and a ShoppingCart row
      for it; an anonymous viewer's queryset carries no annotation. */
  function Annotate(db: Db, viewer: Viewer, rc: Recipe): (a: Annotation)
    ensures viewer.Anonymous? ==> a.isFavorited.None? && a.isInShoppingCart.None?
    ensures viewer.Authenticated? ==>
      && a.isFavorited == Some(Link(viewer.id, rc.id) in db.favorites)
      && a.isInShoppingCart == Some(Link(viewer.id, rc.id) in db.carts)
  {
    match viewer
    case Anonymous => Annotation(None, None)
    case Authenticated(u) =>
      Annotation(Some(HasLink(db.favorites, u, rc.id)), Some(HasLink(db.carts, u, rc.id)))
  }

  /** The recipe list as the read serializer renders it. */
  function ListRecipes(db: Db, viewer: Viewer, recipes: seq<Recipe>): (r: seq<RecipeView>)
    ensures |r| == |recipes|
    ensures forall i :: 0 <= i < |r| ==> r[i] == SerializeRecipe(recipes[i], Annotate(db, viewer, recipes[i]))
  {
    if recipes == [] then []
    else [SerializeRecipe(recipes[0], Annotate(db, viewer, recipes[0]))] + ListRecipes(db, viewer, recipes[1..])
  }

  /** A listed recipe is marked favourited (in the shopping cart) exactly
      when the viewer is authenticated and has that row; an anonymous
      viewer sees both flags false. */
  lemma RecipeFlags(db: Db, viewer: Viewer, recipes: seq<Recipe>, i: nat)
    requires i < |recipes|
    ensures ListRecipes(db, viewer, recipes)[i].isFavorited <==>
              viewer.Authenticated? && Link(viewer.id, recipes[i].id) in db.favorites
    ensures ListRecipes(db, viewer, recipes)[i].isInShoppingCart <==>
              viewer.Authenticated? && Link(viewer.id, recipes[i].id) in db.carts
    ensures ListRecipes(db, viewer, recipes)[i].id == recipes[i].id
  {
  }

  /** `User.objects.filter(subscribers__user=user)`: the users that `user`
      subscribes to, in table order. */
  function SubscribedAuthors(db: Db, user: Id): (r: seq<User>)
    ensures forall a :: a in r <==> a in db.users && Link(user, a.id) in db.subscriptions
  {
    Keep(db.users, (a: User) => HasLink(db.subscriptions, user, a.id))
  }

  /** `Count('recipes')` for one author: the number of recipe rows whose
      author is `author`. */
  function CountAuthored(recipes: seq<Recipe>, author: Id): nat {
    if recipes == [] then 0
    else (if recipes[0].author == author then 1 else 0) + CountAuthored(recipes[1..], author)
  }

  /** The count annotation agrees with the author's recipe list. */
  lemma {:induction false} CountAuthoredIsLength(recipes: seq<Recipe>, author: Id)
    ensures CountAuthored(recipes, author) == |Keep(recipes, (rc: Recipe) => rc.author == author)|
  {
    if recipes != [] {
      CountAuthoredIsLength(recipes[1..], author);
    }
  }

  /** `subscriptions`: every subscribed author, rendered with
      `recipes_count` from the annotation. */
  function Subscriptions(db: Db, user: Id, limit: Option<string>): (r: seq<AuthorView>)
    ensures |r| == |SubscribedAuthors(db, user)|
    ensures forall i :: 0 <= i < |r| ==>
      var a := SubscribedAuthors(db, user)[i];
      r[i] == SerializeAuthor(db, Authenticated(user), a, limit, Some(CountAuthored(db.recipes, a.id)))
  {
    SerializeAll(db, user, SubscribedAuthors(db, user), limit)
  }

  function SerializeAll(db: Db, user: Id, authors: seq<User>, limit: Option<string>): (r: seq<AuthorView>)
    ensures |r| == |authors|
    ensures forall i :: 0 <= i < |r| ==>
      r[i] == SerializeAuthor(db, Authenticated(user), authors[i], limit, Some(CountAuthored(db.recipes, authors[i].id)))
  {
    if authors == [] then []
    else [SerializeAuthor(db, Authenticated(user), authors[0], limit, Some(CountAuthored(db.recipes, authors[0].id)))]
         + SerializeAll(db, user, authors[1..], limit)
  }

  /** Each entry of the subscriptions page is an author the requester
      subscribes to, marked subscribed and with `recipes_count` equal to the
      number of that author's recipes, which is also the number of recipes
      listed when no limit is given. */
  lemma SubscriptionsSpec(db: Db, user: Id, limit: Option<string>, i: nat)
    requires i < |Subscriptions(db, user, limit)|
    ensures var v := Subscriptions(db, user, limit)[i];
      && Link(user, v.user.id) in db.subscriptions
      && v.user.isSubscribed
      && v.recipesCount == |AuthorRecipes(db, v.user.id)|
      && v.recipesCount == |GetRecipes(db, v.user.id, None)|
  {
    var authors := SubscribedAuthors(db, user);
    assert authors[i] in authors;
    CountAuthoredIsLength(db.recipes, authors[i].id);
  }

  /** Every author the requester subscribes to appears on the page: the
      foreign key of a Subscription row always names an existing user. */
  lemma SubscriptionsCover(db: Db, user: Id, limit: Option<string>, author: Id)
    requires Valid(db)
    requires Link(user, author) in db.subscriptions
    ensures exists j :: 0 <= j < |Subscriptions(db, user, limit)| && Subscriptions(db, user, limit)[j].user.id == author
  {
    var authors := SubscribedAuthors(db, user);
    var u :| u in db.users && u.id == author;
    assert u in authors;
    var j :| 0 <= j < |authors| && authors[j] == u;
    assert Subscriptions(db, user, limit)[j].user.id == author;
  }

  /** `favorite`, `shopping_cart` and `subscribe`: each action runs the
      engine with its own table and messages. A second POST of the same
      pair reports the table's own duplicate message, and a DELETE of a pair
      that is not a row reports the table's own not-found message. */
  lemma ActionMessages(db: Db, user: Id, pk: Id)
    ensures pk in RecipeIds(db) && Link(user, pk) in db.favorites ==>
      HandleAction(db, FavoriteRelation, Post, user, pk, None) == Some((BadRequest(FavoriteExistsMsg), db))
    ensures pk in RecipeIds(db) && Link(user, pk) in db.carts ==>
      HandleAction(db, CartRelation, Post, user, pk, None) == Some((BadRequest(CartExistsMsg), db))
    ensures pk in UserIds(db) && user != pk && Link(user, pk) in db.subscriptions ==>
      HandleAction(db, SubscriptionRelation, Post, user, pk, None) == Some((BadRequest(SubscriptionExistsMsg), db))
    ensures Link(user, pk) !in db.favorites ==>
      HandleAction(db, FavoriteRelation, Delete, user, pk, None) == Some((NotFound(FavoriteNotFoundMsg), db))
    ensures Link(user, pk) !in db.carts ==>
      HandleAction(db, CartRelation, Delete, user, pk, None) == Some((NotFound(CartNotFoundMsg), db))
    ensures Link(user, pk) !in db.subscriptions ==>
      HandleAction(db, SubscriptionRelation, Delete, user, pk, None) == Some((NotFound(SubscriptionNotFoundMsg), db))
  {
  }
}
