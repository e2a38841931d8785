/** The generic relation engine behind the favourite, shopping-cart and
    subscribe actions. `create_relation` looks the target up (404), refuses
    a self relation when asked to (400), refuses an existing pair (400),
    then validates, saves and renders the new row (201); `delete_relation`
    deletes the matching rows and answers 404 when there were none, 204
    otherwise. */
module Mixins {
  import opened Prelude
  import opened Store
  import opened RecipeSerializers
  import opened UserSerializers
  import opened RelationSerializers

  const DefaultSelfMsg: string := "Нельзя подписаться на себя"
  const DefaultExistsMsg: string := "Отношение уже существует"
  const DefaultNotFoundMsg: string := "Отношение не найдено"
  /** Stand-in for the framework's body of a 404 raised by `get_object_or_404`. */
  const ObjectNotFoundMsg: string := "Страница не найдена."

  const FavoriteNotFoundMsg: string := "Рецепт не в избранном"
  const CartNotFoundMsg: string := "Рецепт не в списке покупок"
  const SubscriptionNotFoundMsg: string := "Вы не подписаны на этого автора"

  datatype Response =
    | Created(body: RelationBody)
    | NoContent
    | NotFound(error: string)
    | BadRequest(error: string)

  function Status(r: Response): int {
    match r
    case Created(_) => 201
    case NoContent => 204
    case NotFound(_) => 404
    case BadRequest(_) => 400
  }

  /** Python's `message or default`. */
  function OrDefault(message: Option<string>, default: string): (r: string)
    ensures Truthy(message) ==> r == message.value
    ensures !Truthy(message) ==> r == default
  {
    if Truthy(message) then message.value else default
  }

  /** The keyword arguments one action passes to the engine: which table
      (and so which target model and field), whether to check for a self
      relation, and the messages that override the defaults. */
  datatype Relation = Relation(
    kind: RelationKind, checkSelf: bool,
    errorExists: Option<string>, errorSelf: Option<string>, errorNotFound: Option<string>)

  /** `handle_collection_action` for Favorite: field `recipe`, no self check. */
  const FavoriteRelation: Relation :=
    Relation(FavoriteKind, false, Some(FavoriteExistsMsg), None, Some(FavoriteNotFoundMsg))

  /** `handle_collection_action` for ShoppingCart. */
  const CartRelation: Relation :=
    Relation(ShoppingCartKind, false, Some(CartExistsMsg), None, Some(CartNotFoundMsg))

  /** `handle_subscription_action`: field `author`, target model User, with
      the self check. */
  const SubscriptionRelation: Relation :=
    Relation(SubscriptionKind, true, Some(SubscriptionExistsMsg), Some(SelfSubscriptionMsg),
             Some(SubscriptionNotFoundMsg))

  /** `user == obj`: a model instance equals another only when both are of
      the same model with the same key, so only a user target can equal the
      requester. */
  predicate SameObject(kind: RelationKind, user: Id, target: Id) {
    kind == SubscriptionKind && user == target
  }

  /** `create_relation(request, obj_id, ...)`, for the requester `user`. */
  function CreateRelation(db: Db, rel: Relation, user: Id, objId: Id, limit: Option<string>): (r: (Response, Db))
    ensures objId !in TargetIds(db, rel.kind) ==> r == (NotFound(ObjectNotFoundMsg), db)
    ensures objId in TargetIds(db, rel.kind) && rel.checkSelf && SameObject(rel.kind, user, objId) ==>
              r == (BadRequest(OrDefault(rel.errorSelf, DefaultSelfMsg)), db)
    ensures objId in TargetIds(db, rel.kind) && !(rel.checkSelf && SameObject(rel.kind, user, objId)) &&
            Link(user, objId) in Rows(db, rel.kind) ==>
              r == (BadRequest(OrDefault(rel.errorExists, DefaultExistsMsg)), db)
    ensures !r.0.Created? ==> r.1 == db
    ensures r.0.Created? <==> Rows(r.1, rel.kind) != Rows(db, rel.kind)
    ensures r.0.Created? ==>
      && objId in TargetIds(db, rel.kind) && Link(user, objId) !in Rows(db, rel.kind)
      && r.1 == SaveRelation(db, rel.kind, Link(user, objId))
      && r.0.body == RepresentAsWritten(r.1, Authenticated(user), rel.kind, Link(user, objId), limit)
  {
    if objId !in TargetIds(db, rel.kind) then (NotFound(ObjectNotFoundMsg), db)
    else if rel.checkSelf && SameObject(rel.kind, user, objId) then
      (BadRequest(OrDefault(rel.errorSelf, DefaultSelfMsg)), db)
    else if HasLink(Rows(db, rel.kind), user, objId) then
      (BadRequest(OrDefault(rel.errorExists, DefaultExistsMsg)), db)
    else match ValidateRelation(db, rel.kind, user, objId)
      case Err(m) => (BadRequest(m), db)
      case Ok(link) =>
        var after := SaveRelation(db, rel.kind, link);
        assert |Rows(after, rel.kind)| == |Rows(db, rel.kind)| + 1;
        (Created(RepresentAsWritten(after, Authenticated(user), rel.kind, link, limit)), after)
  }

  /** The rows of a table other than the pair (user, objId). */
  function Unmatched(rows: seq<Link>, user: Id, objId: Id): (r: seq<Link>)
    ensures forall l :: l in r <==> l in rows && l != Link(user, objId)
  {
    Keep(rows, (l: Link) => !(l.user == user && l.target == objId))
  }

  /** The filtered delete removes something exactly when the pair is a
      row, and leaves the table as it was otherwise. */
  lemma UnmatchedCount(rows: seq<Link>, user: Id, objId: Id)
    ensures |Unmatched(rows, user, objId)| < |rows| <==> Link(user, objId) in rows
    ensures Link(user, objId) !in rows ==> Unmatched(rows, user, objId) == rows
  {
    if Link(user, objId) in rows {
      KeepShorter(rows, (l: Link) => !(l.user == user && l.target == objId), Link(user, objId));
    } else {
      KeepAll(rows, (l: Link) => !(l.user == user && l.target == objId));
    }
  }

  /** `delete_relation(request, obj_id, ...)`: the filtered delete runs
      first, and its count of deleted rows decides the answer. No lookup of
      the target is made. */
  function DeleteRelation(db: Db, rel: Relation, user: Id, objId: Id): (r: (Response, Db))
    ensures Link(user, objId) !in Rows(db, rel.kind) ==>
              r == (NotFound(OrDefault(rel.errorNotFound, DefaultNotFoundMsg)), db)
    ensures Link(user, objId) in Rows(db, rel.kind) ==>
              r == (NoContent, WithRows(db, rel.kind, Unmatched(Rows(db, rel.kind), user, objId)))
  {
    var rows := Rows(db, rel.kind);
    var rest := Unmatched(rows, user, objId);
    var deleted := |rows| - |rest|;
    UnmatchedCount(rows, user, objId);
    if deleted == 0 then (NotFound(OrDefault(rel.errorNotFound, DefaultNotFoundMsg)), WithRows(db, rel.kind, rest))
    else (NoContent, WithRows(db, rel.kind, rest))
  }

  /** `handle_collection_action` / `handle_subscription_action`: POST creates,
      DELETE deletes; any other method falls through and returns nothing. */
  function HandleAction(db: Db, rel: Relation, verb: HttpMethod, user: Id, objId: Id, limit: Option<string>): (r: Option<(Response, Db)>)
    ensures verb == Post ==> r == Some(CreateRelation(db, rel, user, objId, limit))
    ensures verb == Delete ==> r == Some(DeleteRelation(db, rel, user, objId))
    ensures verb != Post && verb != Delete ==> r.None?
  {
    if verb == Post then Some(CreateRelation(db, rel, user, objId, limit))
    else if verb == Delete then Some(DeleteRelation(db, rel, user, objId))
    else None
  }

  // ----- properties of the engine

  /** Once the engine's own checks pass, the serializer accepts the pair:
      its validation can only fail for a requester that is not a user. */
  lemma SerializerCheckRedundant(db: Db, rel: Relation, user: Id, objId: Id)
    requires user in UserIds(db)
    requires objId in TargetIds(db, rel.kind) && Link(user, objId) !in Rows(db, rel.kind)
    requires rel.kind == SubscriptionKind ==> rel.checkSelf
    requires !(rel.checkSelf && SameObject(rel.kind, user, objId))
    ensures ValidateRelation(db, rel.kind, user, objId) == Ok(Link(user, objId))
  {
  }

  /** For every wired action, a requester and an existing target that are
      not yet related get exactly one new row and a 201. */
  lemma CreateSucceeds(db: Db, rel: Relation, user: Id, objId: Id, limit: Option<string>)
    requires rel in {FavoriteRelation, CartRelation, SubscriptionRelation}
    requires user in UserIds(db)
    requires objId in TargetIds(db, rel.kind) && Link(user, objId) !in Rows(db, rel.kind)
    requires !SameObject(rel.kind, user, objId)
    ensures Status(CreateRelation(db, rel, user, objId, limit).0) == 201
    ensures Rows(CreateRelation(db, rel, user, objId, limit).1, rel.kind) == Rows(db, rel.kind) + [Link(user, objId)]
  {
    SerializerCheckRedundant(db, rel, user, objId);
  }

  /** Creating the same pair a second time fails as a duplicate and changes
      nothing. */
  lemma CreateTwice(db: Db, rel: Relation, user: Id, objId: Id, limit: Option<string>)
    requires CreateRelation(db, rel, user, objId, limit).0.Created?
    ensures var after := CreateRelation(db, rel, user, objId, limit).1;
      CreateRelation(after, rel, user, objId, limit) ==
        (BadRequest(OrDefault(rel.errorExists, DefaultExistsMsg)), after)
  {
    var after := CreateRelation(db, rel, user, objId, limit).1;
    assert TargetIds(after, rel.kind) == TargetIds(db, rel.kind);
    assert Link(user, objId) in Rows(after, rel.kind);
    assert !(rel.checkSelf && SameObject(rel.kind, user, objId));
  }

  /** A subscription to oneself never succeeds, whatever rows exist. */
  lemma SelfSubscriptionFails(db: Db, user: Id, limit: Option<string>)
    ensures var r := CreateRelation(db, SubscriptionRelation, user, user, limit);
      && r.1 == db
      && (user in UserIds(db) ==> r.0 == BadRequest(SelfSubscriptionMsg))
      && (user !in UserIds(db) ==> Status(r.0) == 404)
  {
  }

  /** The 201 body of a subscription names the new author, shows them as
      subscribed, and, as written, reports a recipe count of 0 whatever the
      author has written. */
  lemma SubscribeBody(db: Db, user: Id, objId: Id, limit: Option<string>)
    requires CreateRelation(db, SubscriptionRelation, user, objId, limit).0.Created?
    ensures var r := CreateRelation(db, SubscriptionRelation, user, objId, limit);
      && r.0.body.AuthorBody?
      && r.0.body.author.user.id == objId
      && r.0.body.author.user.isSubscribed
      && r.0.body.author.recipesCount == 0
  {
    SubscribedAfterSave(db, user, objId, limit);
  }

  /** Deleting what was just created restores the store. */
  lemma DeleteAfterCreate(db: Db, rel: Relation, user: Id, objId: Id, limit: Option<string>)
    requires CreateRelation(db, rel, user, objId, limit).0.Created?
    ensures var after := CreateRelation(db, rel, user, objId, limit).1;
      DeleteRelation(after, rel, user, objId) == (NoContent, db)
  {
    var rows := Rows(db, rel.kind);
    var p := (l: Link) => !(l.user == user && l.target == objId);
    KeepAppend(rows, [Link(user, objId)], p);
    KeepAll(rows, p);
    assert Keep([Link(user, objId)], p) == [];
    var after := CreateRelation(db, rel, user, objId, limit).1;
    assert Unmatched(Rows(after, rel.kind), user, objId) == rows;
    match rel.kind {
      case FavoriteKind =>
      case ShoppingCartKind =>
      case SubscriptionKind =>
    }
  }

  /** A successful delete removes exactly the pair: every row of another
      user or another target stays, and the other tables are untouched. */
  lemma DeleteRemovesOnlyPair(db: Db, rel: Relation, user: Id, objId: Id)
    requires DeleteRelation(db, rel, user, objId).0 == NoContent
    ensures var after := DeleteRelation(db, rel, user, objId).1;
      && Link(user, objId) !in Rows(after, rel.kind)
      && (forall l :: l in Rows(after, rel.kind) <==> l in Rows(db, rel.kind) && l != Link(user, objId))
      && |Rows(after, rel.kind)| < |Rows(db, rel.kind)|
      && (forall k :: k != rel.kind ==> Rows(after, k) == Rows(db, k))
      && after.users == db.users && after.recipes == db.recipes
  {
    UnmatchedCount(Rows(db, rel.kind), user, objId);
  }

  /** A pair that is gone (deleted, or never created) can be created again:
      after a successful delete in a valid store the next POST succeeds. */
  lemma CreateAfterDelete(db: Db, rel: Relation, user: Id, objId: Id, limit: Option<string>)
    requires Valid(db)
    requires rel in {FavoriteRelation, CartRelation, SubscriptionRelation}
    requires DeleteRelation(db, rel, user, objId).0 == NoContent
    ensures var after := DeleteRelation(db, rel, user, objId).1;
      Status(CreateRelation(after, rel, user, objId, limit).0) == 201
  {
    var after := DeleteRelation(db, rel, user, objId).1;
    assert Link(user, objId) in Rows(db, rel.kind);
    assert user in UserIds(after) && objId in TargetIds(after, rel.kind);
    assert !SameObject(rel.kind, user, objId);
    CreateSucceeds(after, rel, user, objId, limit);
  }

  /** Deleting a pair that is not a row answers 404 and changes nothing. */
  lemma DeleteMissing(db: Db, user: Id, objId: Id)
    requires Link(user, objId) !in db.favorites
    ensures DeleteRelation(db, FavoriteRelation, user, objId) == (NotFound(FavoriteNotFoundMsg), db)
  {
  }

  /** The engine keeps every constraint of the store. */
  lemma CreateRelationValid(db: Db, rel: Relation, user: Id, objId: Id, limit: Option<string>)
    requires Valid(db)
    ensures Valid(CreateRelation(db, rel, user, objId, limit).1)
  {
    if CreateRelation(db, rel, user, objId, limit).0.Created? {
      SaveRelationValid(db, rel.kind, user, objId);
    }
  }

  lemma DeleteRelationValid(db: Db, rel: Relation, user: Id, objId: Id)
    requires Valid(db)
    ensures Valid(DeleteRelation(db, rel, user, objId).1)
  {
    var rows := Rows(db, rel.kind);
    KeepNoDup(rows, (l: Link) => !(l.user == user && l.target == objId));
    var after := DeleteRelation(db, rel, user, objId).1;
    assert UserIds(after) == UserIds(db) && RecipeIds(after) == RecipeIds(db);
    assert TagIds(after) == TagIds(db) && IngredientIds(after) == IngredientIds(db);
    match rel.kind {
      case FavoriteKind =>
      case ShoppingCartKind =>
      case SubscriptionKind =>
    }
  }
}
