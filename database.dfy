/** The store as the object the operations change in place: one field per
    table. Each method changes the tables step by step as the source does
    (early returns, appending loops, a filtered delete) and is proved to end
    in the state, and with the answer, of the function that specifies it. */
module Persistence {
  import opened Prelude
  import opened Store
  import opened UserManager
  import opened RecipeSerializers
  import opened UserSerializers
  import opened RelationSerializers
  import opened Mixins

  /** `tags.set(tags)` on the recipe with primary key `id`. */
  function SetTags(recipes: seq<Recipe>, id: Id, tags: set<Id>): (r: seq<Recipe>)
    ensures |r| == |recipes|
    ensures forall i :: 0 <= i < |r| ==>
              r[i] == (if recipes[i].id == id then recipes[i].(tags := tags) else recipes[i])
  {
    if recipes == [] then []
    else [if recipes[0].id == id then recipes[0].(tags := tags) else recipes[0]] + SetTags(recipes[1..], id, tags)
  }

  /** `super().update(instance, validated_data)`: the scalar fields the
      payload carries are saved on the recipe with primary key `id`. */
  function SetFields(recipes: seq<Recipe>, id: Id, d: RecipeInput): (r: seq<Recipe>)
    ensures |r| == |recipes|
    ensures forall i :: 0 <= i < |r| ==>
              r[i] == (if recipes[i].id == id then
                         recipes[i].(name := d.name.GetOr(recipes[i].name),
                                     image := d.image.GetOr(recipes[i].image),
                                     text := d.text.GetOr(recipes[i].text),
                                     cookingTime := d.cookingTime.GetOr(recipes[i].cookingTime))
                       else recipes[i])
  {
    if recipes == [] then []
    else
      var rc := recipes[0];
      [if rc.id == id then
         rc.(name := d.name.GetOr(rc.name), image := d.image.GetOr(rc.image),
             text := d.text.GetOr(rc.text), cookingTime := d.cookingTime.GetOr(rc.cookingTime))
       else rc] + SetFields(recipes[1..], id, d)
  }

  /** Setting the tags and then the fields is the whole update of the row. */
  lemma SetTagsThenFields(recipes: seq<Recipe>, id: Id, d: RecipeInput)
    requires d.tags.Some?
    ensures SetFields(SetTags(recipes, id, ToSet(d.tags.value)), id, d) == ReplaceRecipe(recipes, id, d)
  {
    var a := SetFields(SetTags(recipes, id, ToSet(d.tags.value)), id, d);
    var b := ReplaceRecipe(recipes, id, d);
    assert |a| == |b|;
    forall i | 0 <= i < |a| ensures a[i] == b[i] {
    }
  }

  class Database {
    var users: seq<User>
    var tags: seq<Tag>
    var ingredients: seq<Ingredient>
    var recipes: seq<Recipe>
    var recipeIngredients: seq<RecipeIngredient>
    var favorites: seq<Link>
    var carts: seq<Link>
    var subscriptions: seq<Link>
    var nextUserId: Id
    var nextRecipeId: Id

    /** The tables as a value. */
    function Snapshot(): Db
      reads this
    {
      Db(users, tags, ingredients, recipes, recipeIngredients, favorites, carts, subscriptions,
         nextUserId, nextRecipeId)
    }

    constructor (db: Db)
      ensures Snapshot() == db
    {
      users, tags, ingredients, recipes := db.users, db.tags, db.ingredients, db.recipes;
      recipeIngredients := db.recipeIngredients;
      favorites, carts, subscriptions := db.favorites, db.carts, db.subscriptions;
      nextUserId, nextRecipeId := db.nextUserId, db.nextRecipeId;
    }

    /** The table of relation `kind`. */
    function RelationRows(kind: RelationKind): (r: seq<Link>)
      reads this
      ensures r == Rows(Snapshot(), kind)
    {
      match kind
      case FavoriteKind => favorites
      case ShoppingCartKind => carts
      case SubscriptionKind => subscriptions
    }

    method SetRelationRows(kind: RelationKind, rows: seq<Link>)
      modifies this
      ensures Snapshot() == WithRows(old(Snapshot()), kind, rows)
    {
      match kind {
        case FavoriteKind => favorites := rows;
        case ShoppingCartKind => carts := rows;
        case SubscriptionKind => subscriptions := rows;
      }
    }

    /** `create_relation`: the early returns in the source's order, then
        the serializer's validation and save. */
    method CreateRelation(rel: Relation, user: Id, objId: Id, limit: Option<string>) returns (resp: Response)
      modifies this
      ensures (resp, Snapshot()) == Mixins.CreateRelation(old(Snapshot()), rel, user, objId, limit)
    {
      var db := Snapshot();
      var found := if rel.kind == SubscriptionKind then FindUser(db, objId).Some? else FindRecipe(db, objId).Some?;
      if !found {
        return NotFound(ObjectNotFoundMsg);
      }
      if rel.checkSelf && SameObject(rel.kind, user, objId) {
        return BadRequest(OrDefault(rel.errorSelf, DefaultSelfMsg));
      }
      if HasLink(RelationRows(rel.kind), user, objId) {
        return BadRequest(OrDefault(rel.errorExists, DefaultExistsMsg));
      }
      var checked := ValidateRelation(db, rel.kind, user, objId);
      if checked.Err? {
        return BadRequest(checked.error);
      }
      SetRelationRows(rel.kind, RelationRows(rel.kind) + [checked.value]);
      resp := Created(RepresentAsWritten(Snapshot(), Authenticated(user), rel.kind, checked.value, limit));
    }

    /** `delete_relation`: one pass over the table deletes the matching rows
        and counts them; the count decides the answer. */
    method DeleteRelation(rel: Relation, user: Id, objId: Id) returns (resp: Response)
      modifies this
      ensures (resp, Snapshot()) == Mixins.DeleteRelation(old(Snapshot()), rel, user, objId)
    {
      var rows := RelationRows(rel.kind);
      var kept: seq<Link> := [];
      var deleted := 0;
      var i := 0;
      while i < |rows|
        invariant 0 <= i <= |rows|
        invariant kept == Unmatched(rows[..i], user, objId)
        invariant deleted == i - |kept|
        invariant Snapshot() == old(Snapshot())
      {
        KeepSnoc(rows, i, (l: Link) => !(l.user == user && l.target == objId));
        if rows[i].user == user && rows[i].target == objId {
          deleted := deleted + 1;
        } else {
          kept := kept + [rows[i]];
        }
        i := i + 1;
      }
      assert rows[..i] == rows;
      UnmatchedCount(rows, user, objId);
      SetRelationRows(rel.kind, kept);
      if deleted == 0 {
        return NotFound(OrDefault(rel.errorNotFound, DefaultNotFoundMsg));
      }
      return NoContent;
    }

    /** `create_ingredients`: builds the rows in an appending loop, then
        inserts them all at once. */
    method CreateIngredients(recipe: Id, entries: seq<IngredientAmount>)
      modifies this
      ensures Snapshot() == old(Snapshot()).(recipeIngredients := old(recipeIngredients) + IngredientRows(recipe, entries))
    {
      var rows: seq<RecipeIngredient> := [];
      for i := 0 to |entries|
        invariant rows == IngredientRows(recipe, entries[..i])
        invariant Snapshot() == old(Snapshot())
      {
        IngredientRowsSnoc(recipe, entries, i);
        rows := rows + [RecipeIngredient(recipe, entries[i].id, entries[i].amount)];
      }
      assert entries[..|entries|] == entries;
      recipeIngredients := recipeIngredients + rows;
    }

    /** `RecipeCreateSerializer.create`: the recipe row, then its tags, then
        its ingredient rows. */
    method CreateRecipe(author: Id, d: RecipeInput) returns (id: Id)
      requires Complete(d)
      modifies this
      ensures (id, Snapshot()) == RecipeSerializers.CreateRecipe(old(Snapshot()), author, d)
    {
      ghost var before := Snapshot();
      id := nextRecipeId;
      recipes := [Recipe(id, author, d.name.value, d.image.value, d.text.value, d.cookingTime.value, {})] + recipes;
      nextRecipeId := nextRecipeId + 1;
      recipes := recipes[0 := recipes[0].(tags := ToSet(d.tags.value))];
      assert recipes == [NewRecipe(before, author, d)] + before.recipes;
      CreateIngredients(id, d.ingredients.value);
    }

    /** `RecipeCreateSerializer.update`: the tags, then delete-all and
        re-insert of the ingredient rows, then the remaining fields. */
    method UpdateRecipe(id: Id, d: RecipeInput)
      requires d.tags.Some? && d.ingredients.Some?
      modifies this
      ensures Snapshot() == RecipeSerializers.UpdateRecipe(old(Snapshot()), id, d)
    {
      var before := recipes;
      recipes := SetTags(recipes, id, ToSet(d.tags.value));
      recipeIngredients := DropRows(recipeIngredients, id);
      CreateIngredients(id, d.ingredients.value);
      recipes := SetFields(recipes, id, d);
      SetTagsThenFields(before, id, d);
    }

    /** `create_user`: checks the email, fills in the username, normalises
        the email, builds the user, sets the password when one is given and
        saves the row. */
    method CreateUser(normalize: string -> string, email: Option<string>, username: Option<string>,
                      password: Option<string>, extra: ExtraFields) returns (r: Result<User, CreateUserError>)
      modifies this
      ensures (r, Snapshot()) == UserManager.CreateUser(old(Snapshot()), normalize, email, username, password, extra)
    {
      if !Truthy(email) {
        return Err(ValueError(EmailRequiredMsg));
      }
      var name := username;
      if !Truthy(name) {
        name := Some(LocalPart(normalize(email.value)));
      }
      var address := normalize(email.value);
      var u := User(nextUserId, address, name.value, extra.firstName.GetOr(""), extra.lastName.GetOr(""),
                    None, false, extra.isStaff.GetOr(false), extra.isSuperuser.GetOr(false));
      if Truthy(password) {
        u := u.(hasPassword := true);
      }
      if !Saveable(Snapshot(), u) {
        return Err(IntegrityError);
      }
      users := users + [u];
      nextUserId := nextUserId + 1;
      return Ok(u);
    }

    /** `create_superuser`: both staff flags default to true, then
        `create_user`. */
    method CreateSuperuser(normalize: string -> string, email: Option<string>, username: Option<string>,
                           password: Option<string>, extra: ExtraFields) returns (r: Result<User, CreateUserError>)
      modifies this
      ensures (r, Snapshot()) == UserManager.CreateSuperuser(old(Snapshot()), normalize, email, username, password, extra)
    {
      var fields := extra;
      if fields.isStaff.None? {
        fields := fields.(isStaff := Some(true));
      }
      if fields.isSuperuser.None? {
        fields := fields.(isSuperuser := Some(true));
      }
      assert fields == SuperuserFields(extra);
      r := CreateUser(normalize, email, username, password, fields);
    }
  }
}
