/** The serializers of the three relation tables: validation of a candidate
    (user, target) row (the framework's primary-key fields, the
    unique-together validator, and for subscriptions the self check), the
    save that appends it, and the response body each renders. */
module RelationSerializers {
  import opened Prelude
  import opened Store
  import opened RecipeSerializers
  import opened UserSerializers

  const FavoriteExistsMsg: string := "Рецепт уже в избранном"
  const CartExistsMsg: string := "Рецепт уже в списке покупок"
  const SubscriptionExistsMsg: string := "Вы уже подписаны на этого автора"
  const SelfSubscriptionMsg: string := "Нельзя подписаться на самого себя"

  /** The message of each table's unique-together validator. */
  function UniqueMessage(kind: RelationKind): string {
    match kind
    case FavoriteKind => FavoriteExistsMsg
    case ShoppingCartKind => CartExistsMsg
    case SubscriptionKind => SubscriptionExistsMsg
  }

  /** `serializer.is_valid()` on `{user, <target field>}`: each field must
      name an existing row, then the pair must not be a row yet, then
      (subscriptions only) `validate` refuses user == author. */
  function ValidateRelation(db: Db, kind: RelationKind, user: Id, target: Id): (r: Result<Link, string>)
    ensures r.Ok? <==>
      && user in UserIds(db) && target in TargetIds(db, kind)
      && Link(user, target) !in Rows(db, kind)
      && (kind == SubscriptionKind ==> user != target)
    ensures r.Ok? ==> r.value == Link(user, target)
    ensures user in UserIds(db) && target in TargetIds(db, kind) && Link(user, target) in Rows(db, kind) ==>
              r == Err(UniqueMessage(kind))
    ensures kind == SubscriptionKind && user in UserIds(db) && Link(user, user) !in Rows(db, kind) && user == target ==>
              r == Err(SelfSubscriptionMsg)
  {
    if user !in UserIds(db) || target !in TargetIds(db, kind) then Err(UnknownPkMsg)
    else if HasLink(Rows(db, kind), user, target) then Err(UniqueMessage(kind))
    else if kind == SubscriptionKind && user == target then Err(SelfSubscriptionMsg)
    else Ok(Link(user, target))
  }

  /** `serializer.save()`: the validated row is inserted. */
  function SaveRelation(db: Db, kind: RelationKind, link: Link): (r: Db)
    ensures Rows(r, kind) == Rows(db, kind) + [link]
    ensures forall k :: k != kind ==> Rows(r, k) == Rows(db, k)
  {
    WithRows(db, kind, Rows(db, kind) + [link])
  }

  /** Saving a row the serializer accepted keeps every constraint of the
      store: the pair stays unique, both ends exist, and no one is
      subscribed to themselves. */
  lemma SaveRelationValid(db: Db, kind: RelationKind, user: Id, target: Id)
    requires Valid(db)
    requires ValidateRelation(db, kind, user, target).Ok?
    ensures Valid(SaveRelation(db, kind, ValidateRelation(db, kind, user, target).value))
  {
    var link := Link(user, target);
    var after := SaveRelation(db, kind, link);
    AppendNoDup(Rows(db, kind), link);
    assert UserIds(after) == UserIds(db) && RecipeIds(after) == RecipeIds(db);
    assert TagIds(after) == TagIds(db) && IngredientIds(after) == IngredientIds(db);
    assert LinksValid(Rows(after, kind), UserIds(after), TargetIds(after, kind));
    match kind {
      case FavoriteKind =>
      case ShoppingCartKind =>
      case SubscriptionKind =>
        assert SubscriptionsValid(after);
    }
  }

  /** A response body: a minified recipe, or an author. */
  datatype RelationBody = RecipeBody(recipe: MinifiedRecipe) | AuthorBody(author: AuthorView)

  /** `to_representation` as written: Favorite and ShoppingCart render their
      recipe, Subscription its author through the author serializer; the
      author row carries no `recipes_count` annotation here, so the field
      falls back to its default. */
  function RepresentAsWritten(db: Db, viewer: Viewer, kind: RelationKind, link: Link, limit: Option<string>): (b: RelationBody)
    requires link.target in TargetIds(db, kind)
    ensures kind != SubscriptionKind ==> b == RecipeBody(Minify(FindRecipe(db, link.target).value))
    ensures kind == SubscriptionKind ==>
      && b.AuthorBody?
      && b.author.user.id == link.target
      && b.author.recipes == GetRecipes(db, link.target, limit)
      && b.author.recipesCount == 0
  {
    if kind == SubscriptionKind then
      AuthorBody(SerializeAuthor(db, viewer, FindUser(db, link.target).value, limit, None))
    else
      RecipeBody(Minify(FindRecipe(db, link.target).value))
  }

  /** `to_representation` with the author's real recipe count, as the list
      of subscriptions reports it. */
  function Represent(db: Db, viewer: Viewer, kind: RelationKind, link: Link, limit: Option<string>): (b: RelationBody)
    requires link.target in TargetIds(db, kind)
    ensures kind != SubscriptionKind ==> b == RecipeBody(Minify(FindRecipe(db, link.target).value))
    ensures kind == SubscriptionKind ==>
      && b.AuthorBody?
      && b.author.user.id == link.target
      && b.author.recipes == GetRecipes(db, link.target, limit)
      && b.author.recipesCount == |AuthorRecipes(db, link.target)|
  {
    if kind == SubscriptionKind then
      AuthorBody(SerializeAuthor(db, viewer, FindUser(db, link.target).value, limit,
                                 Some(|AuthorRecipes(db, link.target)|)))
    else
      RecipeBody(Minify(FindRecipe(db, link.target).value))
  }

  /** The two renderings differ exactly in `recipes_count`; for an author
      with a recipe the as-written body reports 0 recipes. */
  lemma SubscriptionCountAsWritten(db: Db, viewer: Viewer, link: Link, limit: Option<string>, rc: Recipe)
    requires link.target in UserIds(db)
    requires rc in db.recipes && rc.author == link.target
    ensures RepresentAsWritten(db, viewer, SubscriptionKind, link, limit).author.recipesCount == 0
    ensures Represent(db, viewer, SubscriptionKind, link, limit).author.recipesCount > 0
    ensures RepresentAsWritten(db, viewer, SubscriptionKind, link, limit).author.user
         == Represent(db, viewer, SubscriptionKind, link, limit).author.user
  {
    assert rc in AuthorRecipes(db, link.target);
  }

  /** The subscriber sees the author they just subscribed to as subscribed,
      in the body as written and in the corrected one. */
  lemma SubscribedAfterSave(db: Db, user: Id, target: Id, limit: Option<string>)
    requires ValidateRelation(db, SubscriptionKind, user, target).Ok?
    ensures var after := SaveRelation(db, SubscriptionKind, Link(user, target));
      RepresentAsWritten(after, Authenticated(user), SubscriptionKind, Link(user, target), limit).author.user.isSubscribed
    ensures var after := SaveRelation(db, SubscriptionKind, Link(user, target));
      Represent(after, Authenticated(user), SubscriptionKind, Link(user, target), limit).author.user.isSubscribed
  {
    var after := SaveRelation(db, SubscriptionKind, Link(user, target));
    assert Link(user, target) in after.subscriptions;
    assert UserIds(after) == UserIds(db);
  }
}
