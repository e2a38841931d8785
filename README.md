# Foodgram relation and aggregation layer in Dafny

This project models the core of the foodgram recipe backend, a Django REST
API where users publish recipes, mark recipes as favourites, put recipes in a
shopping cart and subscribe to authors. The model covers five parts:

- **The store.** Users, tags, ingredients, recipes, recipe-ingredient rows and
  the three relation tables (Favorite, ShoppingCart, Subscription) are rows of
  a value `Store.Db`. `Store.Valid` states the constraints the models
  declare: unique fields and pairs, the value ranges of `cooking_time` and
  `amount`, foreign keys that name existing rows, and no self-subscription.
  It also requires each (user, recipe) pair of Favorite and ShoppingCart to
  occur once. The tables do not declare that (see "## Findings"); it is an
  invariant the API keeps, proved by `RelationSerializers.SaveRelationValid`
  and `Mixins.CreateRelationValid`. `Store.DeclaredValid` holds the
  constraints as declared.
  The CASCADE rules of the foreign keys are modelled as delete functions.
- **The relation engine** (`create_relation` / `delete_relation` and the two
  action mixins). It keeps the source's order of early returns and answers
  404, 400, 201 or 204.
- **Recipe composition.** The write serializer's field checks (including
  the blank, length and null-character checks of `name` and `text`, whose
  validated values are stripped), the validation of the ingredient and tag
  lists, the PATCH rule, `create`,
  `create_ingredients` and `update`.
- **The shopping list.** The cart's ingredient rows are grouped by
  (name, unit), summed, ordered by name and rendered as text.
- **Read-side annotations and filters.** The `is_favorited`,
  `is_in_shopping_cart` and `is_subscribed` flags, `recipes_count`, the
  `recipes_limit` cut, and the recipe and ingredient filters. User creation
  in the custom user manager is modelled too.

Pure parts of the source are functions with lemmas. The parts that change the
store step by step are methods of the class `Persistence.Database`: early
returns, an appending loop, and a filtered delete. That class has one field
per table, and each method is proved to end in the state, and return the
answer, of the function that specifies it.

Files, one module each: `prelude.dfy` (Option, Result, order-preserving
filtering `Keep`, distinctness), `decimal.dfy` (Python's `str` / `isdigit` /
`int` on naturals), `store.dfy`, `user_manager.dfy`, `recipe_serializers.dfy`,
`user_serializers.dfy`, `relation_serializers.dfy`, `mixins.dfy`,
`filters.dfy`, `views.dfy`, `shopping_list.dfy` and `database.dfy`.

## Model

| member | source | states |
|---|---|---|
| Store.HasLink | backend/api/mixins.py:22-23 | `filter(user=…, <field>=…).exists()` is true exactly when the pair is a row of the table |
| Store.FindUser | backend/api/mixins.py:13 | the lookup by primary key finds a user exactly when the id is a user's, and the row it finds has that id |
| Store.FindRecipe | backend/api/mixins.py:13 | the lookup by primary key finds a recipe exactly when the id is a recipe's |
| Store.FindUserUnique | backend/users/models.py:44-53 | in a valid store a user's primary key finds that very user |
| Store.FindRecipeUnique | backend/recipes/models.py:42-71 | in a valid store a recipe's primary key finds that very recipe |
| Store.RecipeWriteValid | backend/recipes/models.py:42-114 | a write that touches only the recipe tables and drops no recipe keeps the whole store valid when those two tables are valid |
| Store.DeleteRecipe | backend/recipes/models.py:86-131 | deleting a recipe removes it, its ingredient rows and every Favorite and ShoppingCart row that points at it, and nothing else |
| Store.DeleteRecipeValid | backend/recipes/models.py:83-140 | the recipe cascade keeps every constraint of the store |
| Store.DeleteUser | backend/recipes/models.py:45-50 | deleting a user removes the user, their recipes with those recipes' rows, their relation rows and their subscriptions in both directions; tags, ingredients and the next keys are kept |
| Store.DeleteUserIds | backend/users/models.py:80-91 | after the user cascade the user ids lose exactly that user and the recipe ids lose exactly that user's recipes |
| Store.ValidIsDeclaredAndUnique | backend/recipes/models.py:133-156 | a store is valid exactly when it meets the declared constraints and has no duplicate Favorite or ShoppingCart row |
| Store.DuplicateFavoriteDeclared | backend/recipes/models.py:143-148 | a store holding the same Favorite pair twice meets every declared constraint and is not valid |
| Store.DeleteUserValid | backend/users/models.py:77-104 | the user cascade keeps every constraint of the store |
| Store.DeleteIngredient | backend/recipes/models.py:92-97 | deleting an ingredient removes it and exactly the recipe rows that use it |
| Store.DeleteIngredientValid | backend/recipes/models.py:22-36 | the ingredient cascade keeps every constraint of the store |
| UserManager.LocalPart | backend/users/models.py:18 | `split('@')[0]` is the longest prefix without '@', followed by '@' when shorter than the text |
| UserManager.CreateUser | backend/users/models.py:10-31 | an empty email raises the email error and creates nothing; otherwise the user gets the next id, the normalised email, the given username or the email's local part, a password only when one is given, and is saved exactly when email and username are free |
| UserManager.AppendUserValid | backend/users/models.py:47-53 | a row with free email and username and the next key keeps the user table's unique constraints |
| UserManager.CreateUserValid | backend/users/models.py:10-31 | creating a user keeps every constraint of the store |
| UserManager.SuperuserFields | backend/users/models.py:38-39 | `setdefault` makes both staff flags true unless they were passed, and keeps the names |
| UserManager.CreateSuperuser | backend/users/models.py:33-41 | a created superuser is staff and superuser unless a flag was passed explicitly, which is kept |
| UserManager.LocalPartOfAddress | backend/users/models.py:17-18 | the username derived from `local@domain` is `local` |
| RecipeSerializers.SerializeRecipe | backend/api/serializers/recipe_serializers.py:53-56 | each flag is true exactly when the row was annotated with true, and defaults to false otherwise |
| RecipeSerializers.IngredientIdList | backend/api/serializers/recipe_serializers.py:102 | the id list has one id per entry, in order |
| RecipeSerializers.ValidateIngredients | backend/api/serializers/recipe_serializers.py:97-105 | an empty list fails, then a repeated ingredient id fails (whatever the amounts); otherwise the list passes unchanged, and only then |
| RecipeSerializers.ValidateTags | backend/api/serializers/recipe_serializers.py:107-114 | an empty list fails, then a repeated tag fails; otherwise the list passes unchanged, and only then |
| RecipeSerializers.TagsFieldError | backend/api/serializers/recipe_serializers.py:71-73 | the `tags` field has no error exactly when every id names a tag and the list is non-empty and repeat-free |
| RecipeSerializers.IngredientsFieldError | backend/api/serializers/recipe_serializers.py:37-42 | the `ingredients` field has no error exactly when the list is non-empty, repeat-free, and every entry names an ingredient with an amount in range |
| RecipeSerializers.CharFieldError | backend/recipes/models.py:51-53 | the framework's field for `name` (a model `CharField` with `max_length`) or `text` (a `TextField`) fails as blank exactly for an all-whitespace value, and has no error exactly when the stripped value is non-empty, within the limit when there is one, and free of null characters |
| RecipeSerializers.Strip | backend/recipes/models.py:51-53 | the stripped value has no whitespace at either end and is empty exactly when the value is all whitespace |
| RecipeSerializers.StripKeeps | backend/recipes/models.py:51-53 | stripping removes only whitespace, so a null character is in the stripped value exactly when it is in the value |
| RecipeSerializers.StripIdempotent | backend/recipes/models.py:51-53 | stripping a stripped value changes nothing |
| RecipeSerializers.Cleaned | backend/recipes/models.py:51-53 | the validated data holds the stripped `name` and `text` and every other field as sent |
| RecipeSerializers.Check | backend/api/serializers/recipe_serializers.py:70-82 | one field gives no error exactly when it is present (or the update is partial) and a present value has no error; every error names that field |
| RecipeSerializers.FieldErrors | backend/api/serializers/recipe_serializers.py:70-82 | the field checks give no error exactly when every present field is acceptable (tags, ingredients, name, text, cooking time) and, unless the update is partial, every field is present; every error names a field of the serializer |
| RecipeSerializers.Validate | backend/api/serializers/recipe_serializers.py:84-95 | on PATCH a missing `ingredients` fails first, then a missing `tags`; every other method and a complete PATCH pass the data unchanged |
| RecipeSerializers.ValidateRecipe | backend/api/serializers/recipe_serializers.py:70-114 | `is_valid`: a payload that passes becomes its stripped form; one that fails has at least one error, each naming a field of the serializer |
| RecipeSerializers.ValidateRecipeIff | backend/api/serializers/recipe_serializers.py:70-114 | a payload passes exactly when every present field is acceptable, a non-PATCH request carries every field, and a PATCH carries `ingredients` and `tags` |
| RecipeSerializers.ValidateRecipeSound | backend/api/serializers/recipe_serializers.py:70-114 | a payload that passes becomes its stripped form, which has valid tags, ingredients, name, text and cooking time, and is complete unless the request is a PATCH |
| RecipeSerializers.ValidateAgain | backend/api/serializers/recipe_serializers.py:70-114 | validating the validated data again accepts it unchanged |
| RecipeSerializers.BlankTextReported | backend/recipes/models.py:51 | an empty or all-whitespace `name` is reported as blank on the `name` field for every method |
| RecipeSerializers.PatchNeedsIngredientsThenTags | backend/api/serializers/recipe_serializers.py:86-94 | a PATCH without `ingredients` fails naming `ingredients` only, even when `tags` is missing too; with `ingredients` but no `tags` it fails naming `tags` |
| RecipeSerializers.IngredientErrorsReported | backend/api/serializers/recipe_serializers.py:97-105 | an empty or repeating ingredient list is reported on the `ingredients` field for every method |
| RecipeSerializers.IngredientRows | backend/api/serializers/recipe_serializers.py:116-126 | one row per entry, in order, each with that entry's ingredient and amount |
| RecipeSerializers.IngredientRowsUnique | backend/recipes/models.py:109-114 | rows built from a repeat-free list keep (recipe, ingredient) unique |
| RecipeSerializers.JoinRowsValid | backend/recipes/models.py:98-114 | the kept rows joined by one recipe's new rows satisfy the range and uniqueness constraints of the table |
| RecipeSerializers.CreateRecipe | backend/api/serializers/recipe_serializers.py:128-136 | `create` puts the new recipe, with the next id, first in the table and appends its ingredient rows; no other table changes |
| RecipeSerializers.NextRecipeIdFresh | backend/api/serializers/recipe_serializers.py:131-133 | in a valid store no recipe and no ingredient row uses the next recipe id yet |
| RecipeSerializers.CreateRecipeSpec | backend/api/serializers/recipe_serializers.py:128-136 | the created recipe is the requester's, its tag set is the input's, its rows are exactly the input list in order, and other recipes' rows are untouched |
| RecipeSerializers.CreatedRecipesValid | backend/recipes/models.py:65-71 | the recipe table after `create` keeps the recipe constraints and gains exactly the new id |
| RecipeSerializers.CreateRecipeValid | backend/api/serializers/recipe_serializers.py:128-136 | creating from a validated POST keeps the store valid, and the recipe has at least one tag and one ingredient row |
| RecipeSerializers.ReplaceRecipe | backend/api/serializers/recipe_serializers.py:141-144 | only the row with that id changes: new tag set, and each scalar field the payload carries |
| RecipeSerializers.UpdateRecipe | backend/api/serializers/recipe_serializers.py:138-144 | `update` replaces the recipe row, drops all its ingredient rows and appends the new ones; no other table changes |
| RecipeSerializers.ReplaceKeepsIds | backend/api/serializers/recipe_serializers.py:138-144 | `update` keeps the set of recipe ids |
| RecipeSerializers.ReplaceKeepsOthers | backend/api/serializers/recipe_serializers.py:141-144 | `update` leaves every other recipe as it was |
| RecipeSerializers.ReplaceFinds | backend/api/serializers/recipe_serializers.py:141-144 | the recipe found under the id after `update` is the old row with the new tag set and the given fields |
| RecipeSerializers.UpdateRecipeSpec | backend/api/serializers/recipe_serializers.py:138-144 | after `update` the recipe's tag set equals the new tags, its rows are exactly the new list and the rows of other recipes are unchanged |
| RecipeSerializers.ReplaceKeepsUnique | backend/recipes/models.py:42-71 | replacing a row keeps the recipe rows and their primary keys distinct |
| RecipeSerializers.UpdatedRecipesValid | backend/recipes/models.py:60-71 | the recipe table after `update` keeps the range, author and tag constraints |
| RecipeSerializers.UpdateRecipeValid | backend/api/serializers/recipe_serializers.py:138-144 | updating from a validated payload keeps the store valid, and the recipe keeps at least one tag and one ingredient row (for ingredient entries that carry both `id` and `amount`) |
| UserSerializers.IsSubscribed | backend/api/serializers/user_serializers.py:17-21 | false for an anonymous viewer; otherwise true exactly when the viewer has a Subscription row to the author |
| UserSerializers.AuthorRecipes | backend/api/serializers/user_serializers.py:64 | exactly the author's recipes, in table order |
| UserSerializers.MinifyAll | backend/api/serializers/recipe_serializers.py:153-156 | each recipe is rendered as (id, name, image, cooking_time), in order |
| UserSerializers.RecipesLimit | backend/api/serializers/user_serializers.py:63-65 | a cut is taken exactly when the limit is present and a non-empty string of digits, and it is that number |
| UserSerializers.RecipesLimitOfNumber | backend/api/serializers/user_serializers.py:65-66 | the decimal text of any number gives that number as the cut |
| UserSerializers.RecipesLimitExamples | backend/api/serializers/user_serializers.py:63-66 | absent, "", "-1" and "abc" give no cut; "0" cuts to nothing; "12" cuts to 12 |
| UserSerializers.GetRecipes | backend/api/serializers/user_serializers.py:61-67 | the result is a prefix of the author's recipes, of length min(limit, all) with a cut and all of them without |
| UserSerializers.GetRecipesUncut | backend/api/serializers/user_serializers.py:63-67 | without a usable limit every recipe of the author is returned |
| UserSerializers.SerializeAuthor | backend/api/serializers/user_serializers.py:49-59 | `recipes_count` is the annotation when there is one and 0 otherwise; the recipes are those of `get_recipes` |
| RelationSerializers.ValidateRelation | backend/api/serializers/relation_serializers.py:11-66 | accepts exactly an existing user and target that are not yet a row, and for subscriptions different from each other; a duplicate fails with the table's own message and a self-subscription with the self message |
| RelationSerializers.SaveRelation | backend/api/mixins.py:32 | the save appends the row to its own table and changes no other table |
| RelationSerializers.SaveRelationValid | backend/users/models.py:93-104 | saving an accepted row keeps pairs unique, both ends existing and no self-subscription |
| RelationSerializers.RepresentAsWritten | backend/api/serializers/relation_serializers.py:68-72 | as written: favourites and cart rows render their recipe minified; a subscription renders its author, with `recipes_count` 0 |
| RelationSerializers.Represent | backend/api/serializers/relation_serializers.py:23-72 | favourites and cart rows render their recipe minified; a subscription renders its author with the author's real recipe count |
| RelationSerializers.SubscriptionCountAsWritten | backend/api/serializers/user_serializers.py:51 | for an author with a recipe the as-written subscription body reports 0 recipes, while the corrected body reports more than 0 |
| RelationSerializers.SubscribedAfterSave | backend/api/serializers/relation_serializers.py:68-72 | the author rendered after a subscription is shown as subscribed, in the body as written and in the corrected one |
| Mixins.OrDefault | backend/api/mixins.py:18 | `message or default` is the message when it is non-empty, the default otherwise |
| Mixins.CreateRelation | backend/api/mixins.py:8-34 | a missing target gives 404, then a self relation (when checked) gives 400, then an existing pair gives 400, each with the store unchanged; a 201 happens exactly when the table changed, and it adds the pair once and renders it as the code does (`RepresentAsWritten`: a subscribed author with `recipes_count` 0) |
| Mixins.UnmatchedCount | backend/api/mixins.py:42-45 | the filtered delete deletes something exactly when the pair is a row, and otherwise leaves the table as it was |
| Mixins.DeleteRelation | backend/api/mixins.py:37-51 | with no matching row the answer is 404 with the not-found message and nothing changes; otherwise the pair's rows are removed and the answer is 204 |
| Mixins.HandleAction | backend/api/mixins.py:57-106 | POST runs the create, DELETE runs the delete, and any other method returns nothing |
| Mixins.SerializerCheckRedundant | backend/api/mixins.py:29-31 | once the engine's own checks pass, the serializer accepts the pair |
| Mixins.CreateSucceeds | backend/api/mixins.py:29-34 | for every wired action, an existing requester and target that are not related get 201 and exactly one new row |
| Mixins.SubscribeBody | backend/api/mixins.py:32-34 | the 201 body of a subscription names the author, shows them as subscribed, and reports `recipes_count` 0, as the code does |
| Mixins.CreateTwice | backend/api/mixins.py:22-27 | creating the same pair a second time fails as a duplicate and changes nothing |
| Mixins.SelfSubscriptionFails | backend/api/mixins.py:15-20 | subscribing to oneself never changes the store: 400 with the self message, or 404 for an unknown user, whatever rows exist |
| Mixins.DeleteAfterCreate | backend/api/mixins.py:37-51 | deleting what was just created restores the store exactly |
| Mixins.DeleteRemovesOnlyPair | backend/api/mixins.py:42-43 | a successful delete removes the pair only: other users' and other targets' rows and the other tables stay |
| Mixins.CreateAfterDelete | backend/api/mixins.py:8-51 | after a successful delete in a valid store the same pair can be created again with 201 |
| Mixins.DeleteMissing | backend/api/mixins.py:45-49 | deleting a favourite that is not a row answers 404 with the favourite message and changes nothing |
| Mixins.CreateRelationValid | backend/api/mixins.py:8-34 | the create keeps every constraint of the store |
| Mixins.DeleteRelationValid | backend/api/mixins.py:37-51 | the delete keeps every constraint of the store |
| Filters.FilterByRelation | backend/api/filters.py:18-30 | a true value with an authenticated viewer keeps exactly the recipes the viewer has a row for; otherwise the input is returned unchanged; the result never holds more than the input |
| Filters.FilterAuthor | backend/api/filters.py:9 | keeps exactly the recipes whose author has the given id, and applies no filter when the parameter is absent |
| Filters.FilterTags | backend/api/filters.py:8 | an unknown slug makes the query invalid; otherwise a recipe matches when it has any of the given slugs, and no slugs apply no filter |
| Filters.FilterRecipes | backend/api/filters.py:5-30 | the query is invalid exactly when a `tags` slug is not a choice; a valid query keeps at most the input |
| Filters.FilterRecipesConjunction | backend/api/filters.py:5-30 | a valid query keeps exactly the recipes that meet every given condition |
| Filters.FilterIngredientName | backend/api/filters.py:36 | keeps exactly the ingredients whose name starts with the text, and applies no filter for an absent or empty text |
| Filters.IngredientNameCaseSensitive | backend/api/filters.py:36 | the prefix test is case-sensitive: "Соль" does not match "с" |
| Views.Annotate | backend/api/views.py:174-189 | an authenticated viewer's row is annotated with whether a Favorite and a ShoppingCart row exist; an anonymous viewer's row carries no annotation |
| Views.ListRecipes | backend/api/views.py:164-189 | each listed recipe is its own serialization with its own annotation, in order |
| Views.RecipeFlags | backend/api/views.py:174-189 | a listed recipe is favourited (in the cart) exactly when the viewer is authenticated and has that row |
| Views.SubscribedAuthors | backend/api/views.py:60 | exactly the users the requester subscribes to |
| Views.CountAuthoredIsLength | backend/api/views.py:60-62 | `Count('recipes')` equals the number of the author's recipes |
| Views.Subscriptions | backend/api/views.py:57-67 | one author view per subscribed author, each with the count annotation |
| Views.SerializeAll | backend/api/views.py:64-66 | each author is serialized with the requester as viewer and its own count, in order |
| Views.SubscriptionsSpec | backend/api/views.py:57-67 | each entry is a subscribed author, marked subscribed, whose `recipes_count` is the number of the author's recipes |
| Views.SubscriptionsCover | backend/api/views.py:60 | every author the requester subscribes to appears on the page |
| Views.ActionMessages | backend/api/views.py:202-227 | each action reports its own table's duplicate message on a second POST and its own not-found message on a DELETE of a missing pair |
| ShoppingList.CartRecipeIds | backend/api/views.py:232 | exactly the recipes the user has in the cart |
| ShoppingList.CountedRows | backend/api/views.py:231-233 | exactly the ingredient rows whose recipe is in the user's cart |
| ShoppingList.Items | backend/api/views.py:233-234 | each item comes from a counted row joined with its ingredient's name and unit |
| ShoppingList.ItemsKeepAmount | backend/api/views.py:231-236 | when every row names an existing ingredient the join loses no row and no amount |
| ShoppingList.KeyIdentifiesIngredient | backend/recipes/models.py:31-36 | in a valid store (name, unit) identifies the ingredient, so grouping by it is grouping by ingredient |
| ShoppingList.AddItem | backend/api/views.py:233-236 | adding an item adds at most one group |
| ShoppingList.AddItemKeys | backend/api/views.py:233-236 | adding an item adds its key to the groups' keys |
| ShoppingList.AddItemUnique | backend/api/views.py:233-236 | adding an item keeps one group per key |
| ShoppingList.AddItemTotals | backend/api/views.py:236 | adding an item raises its key's total by its amount and leaves every other total |
| ShoppingList.GroupItems | backend/api/views.py:233-236 | no more groups than items, and none exactly when there is no item |
| ShoppingList.GroupItemsSpec | backend/api/views.py:233-236 | one group per (name, unit) of the items, each totalling the amounts of its key, all totalling every amount |
| ShoppingList.InsertByName | backend/api/views.py:237 | the insertion is a permutation of the groups plus the new one |
| ShoppingList.InsertByNameSorted | backend/api/views.py:237 | inserting into groups ordered by name keeps them ordered |
| ShoppingList.SortByName | backend/api/views.py:237 | the ordering is a permutation of the groups |
| ShoppingList.SortByNameSpec | backend/api/views.py:237 | the ordered groups are sorted by name and keep the grand total |
| ShoppingList.KeysUniquePermuted | backend/api/views.py:237 | reordering keeps one group per key |
| ShoppingList.ShoppingGroups | backend/api/views.py:231-237 | at most one group per counted row, and none exactly when the join yields no item |
| ShoppingList.ShoppingGroupsSpec | backend/api/views.py:231-237 | the groups are ordered by name, one per (name, unit) of a counted row, each totalling its key's amounts, and together total every counted amount |
| ShoppingList.EmptyCartNoGroups | backend/api/views.py:231-237 | an empty cart gives no group |
| ShoppingList.LineListAppend | backend/api/views.py:243-247 | one line per group, in group order, over any split of the groups |
| ShoppingList.Render | backend/api/views.py:239-249 | the text of the list starts with the header |
| ShoppingList.RenderSpec | backend/api/views.py:239-249 | the text is the header followed by the lines, and is exactly the header for no group |
| ShoppingList.RenderSnoc | backend/api/views.py:243-249 | each further group adds its own line at the end of the text |
| ShoppingList.RenderLines | backend/api/views.py:239-249 | the appending loop followed by the join yields the header and then one line per group |
| ShoppingList.CreateShoppingListContent | backend/api/views.py:229-249 | the content is the rendering of the user's ordered, summed groups |
| ShoppingList.EmptyCartText | backend/api/views.py:239-249 | an empty cart yields exactly the header |
| Decimal.Parse | backend/api/serializers/user_serializers.py:65-66 | `int(s)` of a digit string is 0 exactly when every digit is '0' |
| Decimal.Show | backend/api/views.py:247 | `str(n)` is a non-empty digit string with no leading zero unless n is 0 |
| Decimal.ParseShow | backend/api/serializers/user_serializers.py:65-66 | `int(str(n)) == n` for every natural n |
| Decimal.ShowParse | backend/api/serializers/user_serializers.py:65-66 | `str(int(s)) == s` for every digit string without a leading zero |
| Decimal.ShowInt | backend/api/views.py:247 | `str(i)` is digits, with a leading minus sign for a negative i |
| Persistence.SetTags | backend/api/serializers/recipe_serializers.py:141 | `tags.set` changes only the tag set of the recipe with that id |
| Persistence.SetFields | backend/api/serializers/recipe_serializers.py:144 | `super().update` changes only the given scalar fields of the recipe with that id |
| Persistence.SetTagsThenFields | backend/api/serializers/recipe_serializers.py:138-144 | setting the tags and then the fields is the whole replacement of the row |
| Persistence.Database.CreateRelation | backend/api/mixins.py:8-34 | the early returns and the save end in the answer and the state of `Mixins.CreateRelation`, with the subscription body as written |
| Persistence.Database.DeleteRelation | backend/api/mixins.py:37-51 | one pass over the table deletes and counts the matching rows, ending in the answer and the state of `Mixins.DeleteRelation` |
| Persistence.Database.CreateIngredients | backend/api/serializers/recipe_serializers.py:116-126 | the appending loop then the bulk insert add exactly `IngredientRows` to the table and change nothing else |
| Persistence.Database.CreateRecipe | backend/api/serializers/recipe_serializers.py:128-136 | the recipe row, its tags and its rows end in the state of `RecipeSerializers.CreateRecipe` |
| Persistence.Database.UpdateRecipe | backend/api/serializers/recipe_serializers.py:138-144 | tags, delete-all, re-insert, then fields end in the state of `RecipeSerializers.UpdateRecipe` |
| Persistence.Database.CreateUser | backend/users/models.py:10-31 | the step-by-step creation ends in the result and the state of `UserManager.CreateUser` |
| Persistence.Database.CreateSuperuser | backend/users/models.py:33-41 | the two `setdefault` calls then the create end in the result and the state of `UserManager.CreateSuperuser` |

## Left out

- `pub_date` and `ordering = ('-pub_date',)`: the recipe table is kept newest first, and creation puts the new recipe at the front. No clock is modelled.
- `User.Meta.ordering = ('username',)`: user lists (the subscriptions page) come in table order, not sorted by username.
- Pagination of the recipe and subscription lists: `CustomPagination` is not part of this model. The model returns the whole list.
- Images and `Base64ImageField`: an image is an opaque string. The avatar endpoints, `set_password` and `get_link` are left out (file storage, password hashing, request host and scheme).
- Passwords: reduced to a flag saying whether one was set.
- `normalize_email`: a function parameter, since its internals belong to Django.
- Database collation: names are ordered by code point.
- Framework messages: a required field, an unknown primary key, a value out of a validator's range, and a blank, over-long or null-containing text are errors with stand-in texts. The wording of Django REST framework's own messages, and of the 404 body of `get_object_or_404`, is not claimed.
- `MAX_RECIPE_NAME_LENGTH`: the module that defines it (core/constants.py) is not part of this model. The model uses 256 for it.
- RecipeSerializers.Strip: `str.strip` also removes non-ASCII whitespace. The model strips only the ASCII whitespace characters.
- Field order of errors: the write serializer reports the first failing check of each field, in field order. The framework's shape of the error dictionary is not modelled.
- The `author` filter is a `NumberFilter`, which also accepts decimal text. The model takes an integer.
- `str.isdigit` also accepts non-ASCII digits. The model accepts only '0'..'9'.
- UserSerializers.RecipesLimit: a limit made of non-ASCII digits, which Python accepts with `isdigit` and may then fail to read with `int`, is not modelled.
- The shopping-list join counts one row per ingredient row of a carted recipe. The model assumes `Store.Valid`, which excludes duplicate cart rows. The tables as written allow them (see "## Findings"). Two concurrent POSTs, or a row inserted from the admin, can create one. The SQL join then counts that recipe's amounts twice. The `is_favorited` and `is_in_shopping_cart` filters, which use no `distinct`, may then list the recipe twice.
- Order among shopping-list groups with the same name and different units is whatever the insertion gives. The source leaves it unspecified, and the model claims only that groups are ordered by name.
- RecipeSerializers.IngredientAmount: every ingredient entry carries both `id` and `amount`, so a PATCH entry that lacks one is not modelled. A partial update skips missing fields in nested entries too. An entry without `id` then raises `KeyError` at `ingredient['id'].id` (backend/api/serializers/recipe_serializers.py:102), with the store unchanged. An entry without `amount` passes validation. `update` then runs `tags.set` and deletes the recipe's ingredient rows (:141-142), and raises `KeyError` at `ingredient_data['amount']` (:123) before `bulk_create`. With no transaction, the request fails and leaves the new tags and no ingredient rows. RecipeSerializers.UpdateRecipeValid and the update path hold only for entries that carry both keys.
- Transactions and concurrent requests: the source uses no transaction, and each operation is modelled as one atomic step on the store. The one partial write this hides, an update whose ingredient entry lacks `amount`, is described in the RecipeSerializers.IngredientAmount line above. The relation engine's `exists()` check followed by `save` is not atomic either. For Favorite and ShoppingCart no unique constraint backs it, so two concurrent POSTs for the same pair can both insert. `Mixins.CreateRelationValid` covers requests that run one after another.
- Store.Id: the source takes `pk` and `obj_id` from the URL as strings. A non-numeric one makes `get_object_or_404` or `filter` raise `ValueError` (backend/api/mixins.py:13, :42-43). The model takes ids as natural numbers that were already parsed.
- Permissions (`IsAuthorOrReadOnly`, `IsAuthenticated`): the relation actions take the requester as an existing user id. Who may update which recipe is not modelled.
- The HTTP layer: `HttpResponse` and the `Content-Disposition` header of the download, and the djoser user views.
- `backend/api/serializers.py` is an older copy of the serializer package that the package shadows. It is not part of this model.
- The admin configuration and the CSV loader of ingredients are not part of this model.

## Findings

| source | as written | input that shows it | evidently intended | confidence | as-written member | corrected member |
|---|---|---|---|---|---|---|
| backend/api/serializers/relation_serializers.py:68-72 | the subscribe response renders the author through `UserWithRecipesSerializer` on a plain User row with no `recipes_count` annotation, so the field falls back to its default 0 (backend/api/serializers/user_serializers.py:51) | a user subscribes to an author who has one recipe: the 201 body says `recipes_count: 0`, while the subscriptions list says 1 for the same author | `recipes_count` is the author's number of recipes, as in the subscriptions list | not executed | RelationSerializers.RepresentAsWritten, RelationSerializers.SubscriptionCountAsWritten | RelationSerializers.Represent |
| backend/recipes/models.py:133-156 | `Favorite` and `ShoppingCart` each declare their own `class Meta`, which does not inherit from `UserRecipeRelation.Meta`. Both tables therefore lose its unique (user, recipe) constraint and keep only their foreign keys | two concurrent `POST /api/recipes/1/favorite/` requests by one user both pass the `exists()` check and both insert, and the table accepts the second row | each pair occurs once in each table, as the abstract parent declares | not executed | Store.DeclaredValid, Store.DuplicateFavoriteDeclared | Store.Valid |

The relation engine (`Mixins.CreateRelation` and `Persistence.Database.CreateRelation`)
answers a subscription with the body as written, so its `recipes_count` is 0
(`Mixins.SubscribeBody`). `RelationSerializers.Represent` is the corrected
rendering: its count is the author's number of recipes, the same count that
the subscriptions list reports (`Views.SubscriptionsSpec`).
