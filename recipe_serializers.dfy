/** The recipe serializers: the read representation with its two flags, the
    minified representation, and the write serializer that validates a
    payload (its ingredient and tag lists and the PATCH rule) and then
    creates a recipe or replaces an existing recipe's tags and ingredients. */
module RecipeSerializers {
  import opened Prelude
  import opened Store

  datatype HttpMethod = Get | Post | Put | Patch | Delete

  const NoIngredientsMsg: string := "Необходимо добавить хотя бы один ингредиент"
  const RepeatedIngredientsMsg: string := "Ингредиенты повторяются"
  const NoTagsMsg: string := "Необходимо добавить хотя бы один тег"
  const RepeatedTagsMsg: string := "Теги не должны повторяться"
  const RequiredMsg: string := "Обязательное поле."
  /** Stand-ins for the framework's own field messages (an unknown primary
      key, a value outside a model validator's range). */
  const UnknownPkMsg: string := "Недопустимый первичный ключ"
  const OutOfRangeMsg: string := "Значение вне допустимого диапазона"

  /** One entry of the `ingredients` list of a payload: `{id, amount}`. */
  datatype IngredientAmount = IngredientAmount(id: Id, amount: int)

  /** A recipe payload; `None` is a key missing from the request data. */
  datatype RecipeInput = RecipeInput(
    tags: Option<seq<Id>>, ingredients: Option<seq<IngredientAmount>>,
    name: Option<string>, image: Option<string>, text: Option<string>,
    cookingTime: Option<int>)

  datatype FieldError = FieldError(field: string, message: string)

  // ----- read side

  /** `RecipeMinifiedSerializer`: (id, name, image, cooking_time). */
  datatype MinifiedRecipe = MinifiedRecipe(id: Id, name: string, image: string, cookingTime: int)

  function Minify(rc: Recipe): MinifiedRecipe {
    MinifiedRecipe(rc.id, rc.name, rc.image, rc.cookingTime)
  }

  /** The `Exists(...)` annotations a queryset row may carry; `None` when
      the queryset was not annotated (an anonymous viewer). */
  datatype Annotation = Annotation(isFavorited: Option<bool>, isInShoppingCart: Option<bool>)

  /** `RecipeSerializer` data, nested tag, author and ingredient renderings
      reduced to ids. */
  datatype RecipeView = RecipeView(
    id: Id, tags: set<Id>, author: Id, isFavorited: bool, isInShoppingCart: bool,
    name: string, image: string, text: string, cookingTime: int)

  /** Both flags are read-only fields with default False: a flag is true
      only when the row was annotated with true. */
  function SerializeRecipe(rc: Recipe, a: Annotation): (v: RecipeView)
    ensures v.isFavorited <==> a.isFavorited == Some(true)
    ensures v.isInShoppingCart <==> a.isInShoppingCart == Some(true)
    ensures v.id == rc.id && v.tags == rc.tags && v.author == rc.author
    ensures v.name == rc.name && v.cookingTime == rc.cookingTime
  {
    RecipeView(
      rc.id, rc.tags, rc.author,
      a.isFavorited.GetOr(false), a.isInShoppingCart.GetOr(false),
      rc.name, rc.image, rc.text, rc.cookingTime)
  }

  // ----- validation

  /** `[ingredient['id'].id for ingredient in ingredients]` */
  function IngredientIdList(ingredients: seq<IngredientAmount>): (ids: seq<Id>)
    ensures |ids| == |ingredients|
    ensures forall i :: 0 <= i < |ids| ==> ids[i] == ingredients[i].id
  {
    if ingredients == [] then [] else [ingredients[0].id] + IngredientIdList(ingredients[1..])
  }

  /** Some ingredient id occurs at two positions (whatever the amounts). */
  predicate RepeatsIngredient(ingredients: seq<IngredientAmount>) {
    exists i, j :: 0 <= i < j < |ingredients| && ingredients[i].id == ingredients[j].id
  }

  /** `validate_ingredients`: an empty list fails, then a list whose id list
      is longer than its set of ids fails; otherwise the list passes as it is. */
  function ValidateIngredients(ingredients: seq<IngredientAmount>): (r: Result<seq<IngredientAmount>, string>)
    ensures ingredients == [] ==> r == Err(NoIngredientsMsg)
    ensures ingredients != [] && RepeatsIngredient(ingredients) ==> r == Err(RepeatedIngredientsMsg)
    ensures r.Ok? <==> ingredients != [] && !RepeatsIngredient(ingredients)
    ensures r.Ok? ==> r.value == ingredients
  {
    if ingredients == [] then Err(NoIngredientsMsg)
    else
      var ids := IngredientIdList(ingredients);
      DistinctIffSameSize(ids);
      assert NoDup(ids) <==> !RepeatsIngredient(ingredients) by {
        if !NoDup(ids) {
          var i, j :| 0 <= i < j < |ids| && ids[i] == ids[j];
          assert ingredients[i].id == ingredients[j].id;
        }
      }
      if |ids| != |ToSet(ids)| then Err(RepeatedIngredientsMsg) else Ok(ingredients)
  }

  /** `validate_tags`: an empty list fails, then a list with a repeated tag
      fails; otherwise the list passes as it is. */
  function ValidateTags(tags: seq<Id>): (r: Result<seq<Id>, string>)
    ensures tags == [] ==> r == Err(NoTagsMsg)
    ensures tags != [] && !NoDup(tags) ==> r == Err(RepeatedTagsMsg)
    ensures r.Ok? <==> tags != [] && NoDup(tags)
    ensures r.Ok? ==> r.value == tags
  {
    if tags == [] then Err(NoTagsMsg)
    else
      DistinctIffSameSize(tags);
      if |tags| != |ToSet(tags)| then Err(RepeatedTagsMsg) else Ok(tags)
  }

  /** The `tags` field: every id must name a tag (the framework's
      primary-key field), then `validate_tags`. */
  function TagsFieldError(db: Db, tags: seq<Id>): (e: Option<string>)
    ensures e.None? <==> tags != [] && NoDup(tags) && (forall t :: t in tags ==> t in TagIds(db))
  {
    if exists t :: t in tags && t !in TagIds(db) then Some(UnknownPkMsg)
    else match ValidateTags(tags)
      case Err(m) => Some(m)
      case Ok(_) => None
  }

  /** An entry names an existing ingredient with an amount the model's
      validators accept. */
  predicate EntryAcceptable(db: Db, e: IngredientAmount) {
    e.id in IngredientIds(db) && MinAmount <= e.amount <= MaxAmount
  }

  /** The `ingredients` field: each entry is checked by the nested
      serializer (known ingredient, amount in range), then
      `validate_ingredients`. */
  function IngredientsFieldError(db: Db, ingredients: seq<IngredientAmount>): (e: Option<string>)
    ensures e.None? <==>
      && ingredients != [] && !RepeatsIngredient(ingredients)
      && (forall x :: x in ingredients ==> EntryAcceptable(db, x))
  {
    if exists x :: x in ingredients && x.id !in IngredientIds(db) then Some(UnknownPkMsg)
    else if exists x :: x in ingredients && !(MinAmount <= x.amount <= MaxAmount) then Some(OutOfRangeMsg)
    else match ValidateIngredients(ingredients)
      case Err(m) => Some(m)
      case Ok(_) => None
  }

  function CookingTimeError(t: int): Option<string> {
    if MinCookingTime <= t <= MaxCookingTime then None else Some(OutOfRangeMsg)
  }

  // ----- character fields

  /** `MAX_RECIPE_NAME_LENGTH`, the `max_length` of `Recipe.name`; the
      module that defines it (core/constants.py) is not part of this model,
      and 256 stands in for its value. */
  const MaxRecipeNameLength: nat := 256

  /** Stand-ins for the framework's messages of a character field. */
  const BlankMsg: string := "Это поле не может быть пустым."
  const TooLongMsg: string := "Убедитесь, что это значение содержит не более 256 символов."
  const NullCharMsg: string := "Нулевые символы не допускаются."

  /** The whitespace `str.strip()` removes, restricted to ASCII: the space,
      the controls tab to carriage return, and the separators 0x1C to 0x1F. */
  predicate IsSpace(c: char) {
    c == ' ' || ('\t' <= c <= '\r') || ('\U{1C}' <= c <= '\U{1F}')
  }

  /** `s.lstrip()`: the suffix left after the leading whitespace. */
  function StripStart(s: string): (r: string)
    ensures |r| <= |s| && r == s[|s| - |r|..]
    ensures forall i :: 0 <= i < |s| - |r| ==> IsSpace(s[i])
    ensures r != [] ==> !IsSpace(r[0])
  {
    if s != [] && IsSpace(s[0]) then
      var r := StripStart(s[1..]);
      assert forall i :: 1 <= i < |s| - |r| ==> s[i] == s[1..][i - 1];
      r
    else s
  }

  /** `s.rstrip()`: the prefix left before the trailing whitespace. */
  function StripEnd(s: string): (r: string)
    ensures |r| <= |s| && r == s[..|r|]
    ensures forall i :: |r| <= i < |s| ==> IsSpace(s[i])
    ensures r != [] ==> !IsSpace(r[|r| - 1])
  {
    if s != [] && IsSpace(s[|s| - 1]) then
      var r := StripEnd(s[..|s| - 1]);
      assert forall i :: |r| <= i < |s| - 1 ==> s[i] == s[..|s| - 1][i];
      r
    else s
  }

  /** `s.strip()`: no whitespace at either end, and nothing left exactly
      when `s` is all whitespace. */
  function Strip(s: string): (r: string)
    ensures |r| <= |s|
    ensures r != [] ==> !IsSpace(r[0]) && !IsSpace(r[|r| - 1])
    ensures r == [] <==> forall i :: 0 <= i < |s| ==> IsSpace(s[i])
  {
    var t := StripStart(s);
    var r := StripEnd(t);
    assert r != [] ==> r[0] == t[0];
    assert t != [] ==> t[0] == s[|s| - |t|];
    r
  }

  /** The leading whitespace removed is whitespace only. */
  lemma {:induction false} StripStartKeeps(s: string, c: char)
    requires !IsSpace(c)
    ensures c in StripStart(s) <==> c in s
  {
    if s != [] && IsSpace(s[0]) {
      StripStartKeeps(s[1..], c);
      assert c in s <==> c in s[1..] by {
        assert s == [s[0]] + s[1..];
      }
    }
  }

  /** The trailing whitespace removed is whitespace only. */
  lemma {:induction false} StripEndKeeps(s: string, c: char)
    requires !IsSpace(c)
    ensures c in StripEnd(s) <==> c in s
  {
    if s != [] && IsSpace(s[|s| - 1]) {
      StripEndKeeps(s[..|s| - 1], c);
      assert s == s[..|s| - 1] + [s[|s| - 1]];
    }
  }

  /** Stripping keeps every character that is not whitespace. */
  lemma StripKeeps(s: string, c: char)
    requires !IsSpace(c)
    ensures c in Strip(s) <==> c in s
  {
    StripStartKeeps(s, c);
    StripEndKeeps(StripStart(s), c);
  }

  /** Stripping twice is stripping once. */
  lemma StripIdempotent(s: string)
    ensures Strip(Strip(s)) == Strip(s)
  {
    var r := Strip(s);
    assert StripStart(r) == r;
    assert StripEnd(r) == r;
  }

  /** A character field value is acceptable: something is left once it is
      stripped, what is left is within the length limit when there is one,
      and it holds no null character. */
  predicate TextAcceptable(s: string, maxLength: Option<nat>) {
    Strip(s) != "" && (maxLength.Some? ==> |Strip(s)| <= maxLength.value) && '\0' !in s
  }

  /** The framework's `CharField` for a model `CharField` or `TextField`
      (`allow_blank` false, `trim_whitespace` true): a blank value fails
      first, then the stripped value is checked against `max_length` and
      for null characters. */
  function CharFieldError(s: string, maxLength: Option<nat>): (e: Option<string>)
    ensures e == Some(BlankMsg) <==> forall i :: 0 <= i < |s| ==> IsSpace(s[i])
    ensures e.None? <==> TextAcceptable(s, maxLength)
  {
    var v := Strip(s);
    StripKeeps(s, '\0');
    if v == "" then Some(BlankMsg)
    else if maxLength.Some? && |v| > maxLength.value then Some(TooLongMsg)
    else if '\0' in v then Some(NullCharMsg)
    else None
  }

  /** The validated data: the character fields hold their stripped values. */
  function Cleaned(input: RecipeInput): (d: RecipeInput)
    ensures d.tags == input.tags && d.ingredients == input.ingredients
    ensures d.image == input.image && d.cookingTime == input.cookingTime
    ensures d.name.Some? <==> input.name.Some?
    ensures d.text.Some? <==> input.text.Some?
    ensures d.name.Some? ==> d.name.value == Strip(input.name.value)
    ensures d.text.Some? ==> d.text.value == Strip(input.text.value)
  {
    input.(name := if input.name.Some? then Some(Strip(input.name.value)) else None,
           text := if input.text.Some? then Some(Strip(input.text.value)) else None)
  }

  /** A stripped acceptable value stays acceptable and is its own stripping. */
  lemma TextAcceptableStripped(s: string, maxLength: Option<nat>)
    requires TextAcceptable(s, maxLength)
    ensures TextAcceptable(Strip(s), maxLength)
    ensures Strip(Strip(s)) == Strip(s)
  {
    StripIdempotent(s);
    StripKeeps(s, '\0');
  }

  // ----- the whole payload

  /** One field: a missing key is an error unless the update is partial; a
      present value is checked by `err`. */
  function Check(field: string, present: bool, partial: bool, err: Option<string>): (errors: seq<FieldError>)
    ensures errors == [] <==> (present || partial) && (present ==> err.None?)
    ensures forall e :: e in errors ==> e.field == field
  {
    if !present then (if partial then [] else [FieldError(field, RequiredMsg)])
    else if err.Some? then [FieldError(field, err.value)]
    else []
  }

  /** The fields of the write serializer, in declared order. */
  const FieldNames: set<string> := {"tags", "ingredients", "name", "image", "text", "cooking_time"}

  /** Present tags are non-empty, free of repeats and name existing tags. */
  predicate TagsAcceptable(db: Db, d: RecipeInput) {
    d.tags.Some? ==>
      d.tags.value != [] && NoDup(d.tags.value) && (forall t :: t in d.tags.value ==> t in TagIds(db))
  }

  /** Present ingredients are non-empty, free of repeated ids, and name
      existing ingredients with amounts in range. */
  predicate IngredientsAcceptable(db: Db, d: RecipeInput) {
    d.ingredients.Some? ==>
      && d.ingredients.value != [] && !RepeatsIngredient(d.ingredients.value)
      && (forall x :: x in d.ingredients.value ==> EntryAcceptable(db, x))
  }

  /** A present name is not blank and within `MAX_RECIPE_NAME_LENGTH`. */
  predicate NameAcceptable(d: RecipeInput) {
    d.name.Some? ==> TextAcceptable(d.name.value, Some(MaxRecipeNameLength))
  }

  /** A present text is not blank; a `TextField` has no length limit. */
  predicate DescriptionAcceptable(d: RecipeInput) {
    d.text.Some? ==> TextAcceptable(d.text.value, None)
  }

  /** Every field the payload carries holds an acceptable value. */
  predicate FieldsAcceptable(db: Db, d: RecipeInput) {
    && TagsAcceptable(db, d)
    && IngredientsAcceptable(db, d)
    && NameAcceptable(d)
    && DescriptionAcceptable(d)
    && (d.cookingTime.Some? ==> MinCookingTime <= d.cookingTime.value <= MaxCookingTime)
  }

  /** Every field is present (what a non-partial request needs). */
  predicate Complete(d: RecipeInput) {
    d.tags.Some? && d.ingredients.Some? && d.name.Some? && d.image.Some? &&
    d.text.Some? && d.cookingTime.Some?
  }

  /** The `tags` field's errors. */
  function TagsErrors(db: Db, input: RecipeInput, partial: bool): (errors: seq<FieldError>)
    ensures errors == [] <==> (partial || input.tags.Some?) && TagsAcceptable(db, input)
    ensures forall e :: e in errors ==> e.field == "tags"
  {
    Check("tags", input.tags.Some?, partial,
          if input.tags.Some? then TagsFieldError(db, input.tags.value) else None)
  }

  /** The `ingredients` field's errors. */
  function IngredientsErrors(db: Db, input: RecipeInput, partial: bool): (errors: seq<FieldError>)
    ensures errors == [] <==> (partial || input.ingredients.Some?) && IngredientsAcceptable(db, input)
    ensures forall e :: e in errors ==> e.field == "ingredients"
  {
    Check("ingredients", input.ingredients.Some?, partial,
          if input.ingredients.Some? then IngredientsFieldError(db, input.ingredients.value) else None)
  }

  /** The `name` field's errors. */
  function NameErrors(input: RecipeInput, partial: bool): (errors: seq<FieldError>)
    ensures errors == [] <==> (partial || input.name.Some?) && NameAcceptable(input)
    ensures forall e :: e in errors ==> e.field == "name"
  {
    Check("name", input.name.Some?, partial,
          if input.name.Some? then CharFieldError(input.name.value, Some(MaxRecipeNameLength)) else None)
  }

  /** The `text` field's errors. */
  function TextErrors(input: RecipeInput, partial: bool): (errors: seq<FieldError>)
    ensures errors == [] <==> (partial || input.text.Some?) && DescriptionAcceptable(input)
    ensures forall e :: e in errors ==> e.field == "text"
  {
    Check("text", input.text.Some?, partial,
          if input.text.Some? then CharFieldError(input.text.value, None) else None)
  }

  /** The errors of all fields, in the serializer's field order: none
      exactly when every present field is acceptable and, unless the update
      is partial, every field is present. */
  function FieldErrors(db: Db, input: RecipeInput, partial: bool): (errors: seq<FieldError>)
    ensures errors == [] <==> (partial || Complete(input)) && FieldsAcceptable(db, input)
    ensures forall e :: e in errors ==> e.field in FieldNames
  {
    var tags := TagsErrors(db, input, partial);
    var ingredients := IngredientsErrors(db, input, partial);
    var name := NameErrors(input, partial);
    var image := Check("image", input.image.Some?, partial, None);
    var text := TextErrors(input, partial);
    var time := Check("cooking_time", input.cookingTime.Some?, partial,
                      if input.cookingTime.Some? then CookingTimeError(input.cookingTime.value) else None);
    var errors := tags + ingredients + name + image + text + time;
    assert |errors| == |tags| + |ingredients| + |name| + |image| + |text| + |time|;
    errors
  }

  /** `validate`: on PATCH both `ingredients` and `tags` must be in the
      request data, `ingredients` checked first; other methods pass. */
  function Validate(verb: HttpMethod, input: RecipeInput): (r: Result<RecipeInput, FieldError>)
    ensures verb != Patch ==> r == Ok(input)
    ensures verb == Patch && input.ingredients.None? ==> r == Err(FieldError("ingredients", RequiredMsg))
    ensures verb == Patch && input.ingredients.Some? && input.tags.None? ==>
              r == Err(FieldError("tags", RequiredMsg))
    ensures r.Ok? <==> verb != Patch || (input.ingredients.Some? && input.tags.Some?)
    ensures r.Ok? ==> r.value == input
  {
    if verb == Patch && input.ingredients.None? then Err(FieldError("ingredients", RequiredMsg))
    else if verb == Patch && input.tags.None? then Err(FieldError("tags", RequiredMsg))
    else Ok(input)
  }

  /** `is_valid`: the field checks (partial on PATCH), then `validate` on
      the validated data once they all pass. */
  function ValidateRecipe(db: Db, verb: HttpMethod, input: RecipeInput): (r: Result<RecipeInput, seq<FieldError>>)
    ensures r.Ok? ==> r.value == Cleaned(input)
    ensures r.Err? ==> r.error != [] && forall e :: e in r.error ==> e.field in FieldNames
  {
    var errors := FieldErrors(db, input, verb == Patch);
    if errors != [] then Err(errors)
    else match Validate(verb, Cleaned(input))
      case Err(e) => Err([e])
      case Ok(d) => Ok(d)
  }

  /** What a payload that passed validation guarantees. */
  predicate Acceptable(db: Db, d: RecipeInput) {
    d.tags.Some? && d.ingredients.Some? && FieldsAcceptable(db, d)
  }

  /** A payload passes validation as its stripped form, and only when its
      tags and ingredients are present, non-empty, free of repeats and refer
      to existing rows with amounts and cooking time in range, and its name
      and text are not blank; a non-partial request must also carry every
      field. */
  lemma ValidateRecipeSound(db: Db, verb: HttpMethod, input: RecipeInput)
    requires ValidateRecipe(db, verb, input).Ok?
    ensures ValidateRecipe(db, verb, input).value == Cleaned(input)
    ensures Acceptable(db, Cleaned(input))
    ensures verb != Patch ==> Complete(Cleaned(input))
  {
    if input.name.Some? {
      TextAcceptableStripped(input.name.value, Some(MaxRecipeNameLength));
    }
    if input.text.Some? {
      TextAcceptableStripped(input.text.value, None);
    }
  }

  /** A payload passes exactly when every present field is acceptable, a
      non-partial request carries every field, and a PATCH carries both
      `ingredients` and `tags`. */
  lemma ValidateRecipeIff(db: Db, verb: HttpMethod, input: RecipeInput)
    ensures ValidateRecipe(db, verb, input).Ok? <==>
      && (verb == Patch || Complete(input)) && FieldsAcceptable(db, input)
      && (verb != Patch || (input.ingredients.Some? && input.tags.Some?))
  {
  }

  /** Validating the validated data again accepts it unchanged. */
  lemma {:induction false} ValidateAgain(db: Db, verb: HttpMethod, input: RecipeInput)
    requires ValidateRecipe(db, verb, input).Ok?
    ensures ValidateRecipe(db, verb, ValidateRecipe(db, verb, input).value) == ValidateRecipe(db, verb, input)
  {
    var d := Cleaned(input);
    ValidateRecipeSound(db, verb, input);
    if input.name.Some? {
      TextAcceptableStripped(input.name.value, Some(MaxRecipeNameLength));
    }
    if input.text.Some? {
      TextAcceptableStripped(input.text.value, None);
    }
    assert Cleaned(d) == d;
  }

  /** A name or text that is empty or only whitespace is reported on its
      own field, whatever the method. */
  lemma BlankTextReported(db: Db, verb: HttpMethod, input: RecipeInput)
    requires input.name.Some? && forall i :: 0 <= i < |input.name.value| ==> IsSpace(input.name.value[i])
    ensures ValidateRecipe(db, verb, input).Err?
    ensures FieldError("name", BlankMsg) in ValidateRecipe(db, verb, input).error
  {
    var errs := FieldErrors(db, input, verb == Patch);
    assert FieldError("name", BlankMsg) in errs;
  }

  /** On PATCH, with every present field valid: no `ingredients` fails
      naming `ingredients` alone (even when `tags` is missing too), and
      `ingredients` without `tags` fails naming `tags`. */
  lemma PatchNeedsIngredientsThenTags(db: Db, input: RecipeInput)
    requires FieldErrors(db, input, true) == []
    ensures input.ingredients.None? ==>
      ValidateRecipe(db, Patch, input) == Err([FieldError("ingredients", RequiredMsg)])
    ensures input.ingredients.Some? && input.tags.None? ==>
      ValidateRecipe(db, Patch, input) == Err([FieldError("tags", RequiredMsg)])
    ensures input.ingredients.Some? && input.tags.Some? ==>
      ValidateRecipe(db, Patch, input) == Ok(Cleaned(input))
  {
  }

  /** An invalid ingredient list is reported on the `ingredients` field
      whatever the method, before the PATCH rule is looked at. */
  lemma IngredientErrorsReported(db: Db, verb: HttpMethod, input: RecipeInput)
    requires input.ingredients.Some?
    requires input.ingredients.value == [] || RepeatsIngredient(input.ingredients.value)
    ensures ValidateRecipe(db, verb, input).Err?
    ensures exists e :: e in ValidateRecipe(db, verb, input).error && e.field == "ingredients"
  {
    var errs := FieldErrors(db, input, verb == Patch);
    var e := FieldError("ingredients", IngredientsFieldError(db, input.ingredients.value).value);
    assert e in errs;
  }

  // ----- create and update

  /** `create_ingredients`: one row per entry, in order, for `recipe`. */
  function IngredientRows(recipe: Id, ingredients: seq<IngredientAmount>): (rows: seq<RecipeIngredient>)
    ensures |rows| == |ingredients|
    ensures forall i :: 0 <= i < |rows| ==>
              rows[i] == RecipeIngredient(recipe, ingredients[i].id, ingredients[i].amount)
  {
    if ingredients == [] then []
    else [RecipeIngredient(recipe, ingredients[0].id, ingredients[0].amount)]
         + IngredientRows(recipe, ingredients[1..])
  }

  /** The rows for one more entry of the list: what the appending loop of
      `create_ingredients` has built after each step. */
  lemma IngredientRowsSnoc(recipe: Id, ingredients: seq<IngredientAmount>, i: nat)
    requires i < |ingredients|
    ensures IngredientRows(recipe, ingredients[..i + 1]) ==
            IngredientRows(recipe, ingredients[..i]) + [RecipeIngredient(recipe, ingredients[i].id, ingredients[i].amount)]
  {
    var a := IngredientRows(recipe, ingredients[..i + 1]);
    var b := IngredientRows(recipe, ingredients[..i]) + [RecipeIngredient(recipe, ingredients[i].id, ingredients[i].amount)];
    assert |a| == |b|;
    forall k | 0 <= k < |a| ensures a[k] == b[k] {
      if k < i {
        assert ingredients[..i + 1][k] == ingredients[..i][k];
      }
    }
  }

  /** The ingredient rows of `recipe` among `rows`, in order. */
  function RowsIn(rows: seq<RecipeIngredient>, recipe: Id): seq<RecipeIngredient> {
    Keep(rows, (ri: RecipeIngredient) => ri.recipe == recipe)
  }

  /** `recipe.recipe_ingredients.all()`. */
  function RowsOf(db: Db, recipe: Id): seq<RecipeIngredient> {
    RowsIn(db.recipeIngredients, recipe)
  }

  /** `recipe.recipe_ingredients.all().delete()`: the rows of every other recipe. */
  function DropRows(rows: seq<RecipeIngredient>, recipe: Id): seq<RecipeIngredient> {
    Keep(rows, (ri: RecipeIngredient) => ri.recipe != recipe)
  }

  lemma RowsInAppend(s: seq<RecipeIngredient>, t: seq<RecipeIngredient>, recipe: Id)
    ensures RowsIn(s + t, recipe) == RowsIn(s, recipe) + RowsIn(t, recipe)
  {
    KeepAppend(s, t, (ri: RecipeIngredient) => ri.recipe == recipe);
  }

  /** The rows built for `recipe` are all of its rows among themselves and
      none of any other recipe's. */
  lemma RowsInBuilt(recipe: Id, ingredients: seq<IngredientAmount>, other: Id)
    ensures RowsIn(IngredientRows(recipe, ingredients), recipe) == IngredientRows(recipe, ingredients)
    ensures other != recipe ==> RowsIn(IngredientRows(recipe, ingredients), other) == []
  {
    var rows := IngredientRows(recipe, ingredients);
    KeepAll(rows, (ri: RecipeIngredient) => ri.recipe == recipe);
    if other != recipe {
      KeepNone(rows, (ri: RecipeIngredient) => ri.recipe == other);
    }
  }

  /** Dropping the rows of one recipe leaves none of it and does not change
      the rows of another. */
  lemma {:induction false} RowsInDrop(s: seq<RecipeIngredient>, recipe: Id, other: Id)
    ensures RowsIn(DropRows(s, recipe), recipe) == []
    ensures other != recipe ==> RowsIn(DropRows(s, recipe), other) == RowsIn(s, other)
  {
    if s != [] {
      RowsInDrop(s[1..], recipe, other);
    }
  }

  /** The rows built for a list without a repeated ingredient never repeat
      an ingredient. */
  lemma IngredientRowsUnique(recipe: Id, ingredients: seq<IngredientAmount>)
    requires !RepeatsIngredient(ingredients)
    ensures NoDup(IngredientRows(recipe, ingredients))
    ensures forall a, b ::
              (a in IngredientRows(recipe, ingredients) && b in IngredientRows(recipe, ingredients) &&
               a.ingredient == b.ingredient) ==> a == b
  {
    var rows := IngredientRows(recipe, ingredients);
    forall a, b | a in rows && b in rows && a.ingredient == b.ingredient ensures a == b {
      var i :| 0 <= i < |rows| && rows[i] == a;
      var j :| 0 <= j < |rows| && rows[j] == b;
      assert i == j by {
        assert ingredients[i].id == ingredients[j].id;
      }
    }
  }

  /** Every built row carries an accepted amount of a known ingredient. */
  lemma IngredientRowsAcceptable(db: Db, recipe: Id, ingredients: seq<IngredientAmount>)
    requires forall x :: x in ingredients ==> EntryAcceptable(db, x)
    ensures forall ri :: ri in IngredientRows(recipe, ingredients) ==>
              MinAmount <= ri.amount <= MaxAmount && ri.ingredient in IngredientIds(db) && ri.recipe == recipe
  {
    var rows := IngredientRows(recipe, ingredients);
    forall ri | ri in rows
      ensures MinAmount <= ri.amount <= MaxAmount && ri.ingredient in IngredientIds(db) && ri.recipe == recipe
    {
      var i :| 0 <= i < |rows| && rows[i] == ri;
      assert ingredients[i] in ingredients;
    }
  }

  /** Two distinct sequences with no element in common concatenate to a
      distinct sequence. */
  lemma NoDupConcat<T>(s: seq<T>, t: seq<T>)
    requires NoDup(s) && NoDup(t)
    requires forall x :: x in s ==> x !in t
    ensures NoDup(s + t)
  {
    forall i, j | 0 <= i < j < |s + t| ensures (s + t)[i] != (s + t)[j] {
      if j < |s| {
        assert (s + t)[i] == s[i] && (s + t)[j] == s[j];
      } else if i >= |s| {
        assert (s + t)[i] == t[i - |s|] && (s + t)[j] == t[j - |s|];
      } else {
        assert (s + t)[i] == s[i] && s[i] in s;
        assert (s + t)[j] == t[j - |s|] && t[j - |s|] in t;
      }
    }
  }

  /** Old rows of valid recipes joined by the rows of one recipe that had
      none: the row constraints hold for the union over `recipeIds`. */
  lemma JoinRowsValid(db: Db, after: Db, recipe: Id, ingredients: seq<IngredientAmount>)
    requires RecipeIngredientsValid(db)
    requires after.ingredients == db.ingredients
    requires RecipeIds(db) <= RecipeIds(after) && recipe in RecipeIds(after)
    requires after.recipeIngredients == Keep(db.recipeIngredients, (ri: RecipeIngredient) => ri.recipe != recipe) + IngredientRows(recipe, ingredients)
    requires !RepeatsIngredient(ingredients)
    requires forall x :: x in ingredients ==> EntryAcceptable(db, x)
    ensures RecipeIngredientsValid(after)
  {
    var kept := Keep(db.recipeIngredients, (ri: RecipeIngredient) => ri.recipe != recipe);
    var added := IngredientRows(recipe, ingredients);
    KeepNoDup(db.recipeIngredients, (ri: RecipeIngredient) => ri.recipe != recipe);
    IngredientRowsUnique(recipe, ingredients);
    IngredientRowsAcceptable(db, recipe, ingredients);
    NoDupConcat(kept, added);
  }

  /** The recipe `create` saves; `tags.set(tags)` makes its tag set. */
  function NewRecipe(db: Db, author: Id, d: RecipeInput): Recipe
    requires Complete(d)
  {
    Recipe(db.nextRecipeId, author, d.name.value, d.image.value, d.text.value,
           d.cookingTime.value, ToSet(d.tags.value))
  }

  /** `create`: a new recipe by `author`, newest first, with the given tags,
      followed by one ingredient row per entry. */
  function CreateRecipe(db: Db, author: Id, d: RecipeInput): (r: (Id, Db))
    requires Complete(d)
    ensures r.0 == db.nextRecipeId && r.1.nextRecipeId == db.nextRecipeId + 1
    ensures r.1.recipes == [NewRecipe(db, author, d)] + db.recipes
    ensures r.1.recipeIngredients == db.recipeIngredients + IngredientRows(r.0, d.ingredients.value)
    ensures r.1.users == db.users && r.1.tags == db.tags && r.1.ingredients == db.ingredients
    ensures r.1.favorites == db.favorites && r.1.carts == db.carts
    ensures r.1.subscriptions == db.subscriptions && r.1.nextUserId == db.nextUserId
  {
    var rc := NewRecipe(db, author, d);
    (rc.id, db.(recipes := [rc] + db.recipes,
                recipeIngredients := db.recipeIngredients + IngredientRows(rc.id, d.ingredients.value),
                nextRecipeId := db.nextRecipeId + 1))
  }

  /** In a valid store no row refers to the next recipe id yet. */
  lemma NextRecipeIdFresh(db: Db)
    requires Valid(db)
    ensures db.nextRecipeId !in RecipeIds(db)
    ensures RowsOf(db, db.nextRecipeId) == []
    ensures DropRows(db.recipeIngredients, db.nextRecipeId) == db.recipeIngredients
  {
    KeepNone(db.recipeIngredients, (ri: RecipeIngredient) => ri.recipe == db.nextRecipeId);
    KeepAll(db.recipeIngredients, (ri: RecipeIngredient) => ri.recipe != db.nextRecipeId);
  }

  /** What `create` leaves behind: a recipe authored by the requester whose
      tag set is the input's and whose ingredient rows are exactly the
      input list, in order; the rows of every other recipe are untouched. */
  lemma CreateRecipeSpec(db: Db, author: Id, d: RecipeInput)
    requires Valid(db) && Complete(d)
    ensures var (id, after) := CreateRecipe(db, author, d);
      && FindRecipe(after, id).Some?
      && FindRecipe(after, id).value.author == author
      && FindRecipe(after, id).value.tags == ToSet(d.tags.value)
      && RowsOf(after, id) == IngredientRows(id, d.ingredients.value)
      && (forall other :: other != id ==> RowsOf(after, other) == RowsOf(db, other))
  {
    var (id, after) := CreateRecipe(db, author, d);
    var added := IngredientRows(id, d.ingredients.value);
    assert FindRecipe(after, id) == Some(NewRecipe(db, author, d));
    NextRecipeIdFresh(db);
    RowsInAppend(db.recipeIngredients, added, id);
    RowsInBuilt(id, d.ingredients.value, id);
    forall other | other != id ensures RowsOf(after, other) == RowsOf(db, other) {
      RowsInAppend(db.recipeIngredients, added, other);
      RowsInBuilt(id, d.ingredients.value, other);
    }
  }

  /** The recipe table after `create` keeps the recipe constraints. */
  lemma CreatedRecipesValid(db: Db, author: Id, d: RecipeInput)
    requires Valid(db) && author in UserIds(db)
    requires Complete(d) && (forall t :: t in d.tags.value ==> t in TagIds(db))
    requires MinCookingTime <= d.cookingTime.value <= MaxCookingTime
    ensures RecipesValid(CreateRecipe(db, author, d).1)
    ensures RecipeIds(CreateRecipe(db, author, d).1) == RecipeIds(db) + {db.nextRecipeId}
  {
    var after := CreateRecipe(db, author, d).1;
    var rc := NewRecipe(db, author, d);
    assert rc !in db.recipes;
    assert NoDup(after.recipes) by {
      forall i, j | 0 <= i < j < |after.recipes| ensures after.recipes[i] != after.recipes[j] {
        if i == 0 {
          assert after.recipes[j] == db.recipes[j - 1];
        } else {
          assert after.recipes[i] == db.recipes[i - 1] && after.recipes[j] == db.recipes[j - 1];
        }
      }
    }
    assert rc.tags <= TagIds(db);
  }

  /** A recipe created from a validated POST payload by an existing user
      keeps every constraint of the store, and has at least one tag and at
      least one ingredient. */
  lemma CreateRecipeValid(db: Db, author: Id, d: RecipeInput)
    requires Valid(db) && author in UserIds(db)
    requires ValidateRecipe(db, Post, d) == Ok(d)
    ensures Complete(d)
    ensures Valid(CreateRecipe(db, author, d).1)
    ensures CreateRecipe(db, author, d).1.recipes[0].tags != {}
    ensures RowsOf(CreateRecipe(db, author, d).1, CreateRecipe(db, author, d).0) != []
  {
    ValidateRecipeSound(db, Post, d);
    var (id, after) := CreateRecipe(db, author, d);
    CreatedRecipesValid(db, author, d);
    NextRecipeIdFresh(db);
    JoinRowsValid(db, after, id, d.ingredients.value);
    RecipeWriteValid(db, after);
    assert d.tags.value[0] in after.recipes[0].tags;
    CreateRecipeSpec(db, author, d);
    assert IngredientRows(id, d.ingredients.value)[0] in RowsOf(after, id);
  }

  /** `update` on one recipe: the new tag set, and each scalar field that
      the payload carries. */
  function Updated(rc: Recipe, d: RecipeInput): Recipe
    requires d.tags.Some?
  {
    rc.(tags := ToSet(d.tags.value),
        name := d.name.GetOr(rc.name),
        image := d.image.GetOr(rc.image),
        text := d.text.GetOr(rc.text),
        cookingTime := d.cookingTime.GetOr(rc.cookingTime))
  }

  /** The recipe table with the row of `id` updated and the others kept. */
  function ReplaceRecipe(recipes: seq<Recipe>, id: Id, d: RecipeInput): (r: seq<Recipe>)
    requires d.tags.Some?
    ensures |r| == |recipes|
    ensures forall i :: 0 <= i < |r| ==>
              r[i] == (if recipes[i].id == id then Updated(recipes[i], d) else recipes[i])
  {
    if recipes == [] then []
    else [if recipes[0].id == id then Updated(recipes[0], d) else recipes[0]]
         + ReplaceRecipe(recipes[1..], id, d)
  }

  /** `update`: `tags.set`, delete every ingredient row of the recipe, insert
      one row per new entry, then save the scalar fields given. */
  function UpdateRecipe(db: Db, id: Id, d: RecipeInput): (r: Db)
    requires d.tags.Some? && d.ingredients.Some?
    ensures r.recipes == ReplaceRecipe(db.recipes, id, d)
    ensures r.recipeIngredients == DropRows(db.recipeIngredients, id) + IngredientRows(id, d.ingredients.value)
    ensures r.users == db.users && r.tags == db.tags && r.ingredients == db.ingredients
    ensures r.favorites == db.favorites && r.carts == db.carts
    ensures r.subscriptions == db.subscriptions
    ensures r.nextUserId == db.nextUserId && r.nextRecipeId == db.nextRecipeId
  {
    db.(recipes := ReplaceRecipe(db.recipes, id, d),
        recipeIngredients := DropRows(db.recipeIngredients, id) + IngredientRows(id, d.ingredients.value))
  }

  /** Replacing a recipe keeps the set of ids. */
  lemma ReplaceKeepsIds(db: Db, id: Id, d: RecipeInput)
    requires d.tags.Some? && d.ingredients.Some?
    ensures RecipeIds(UpdateRecipe(db, id, d)) == RecipeIds(db)
  {
    var r := ReplaceRecipe(db.recipes, id, d);
    forall x | x in RecipeIds(db) ensures x in RecipeIds(UpdateRecipe(db, id, d)) {
      var i :| 0 <= i < |db.recipes| && db.recipes[i].id == x;
      assert r[i].id == x && r[i] in r;
    }
    forall x | x in RecipeIds(UpdateRecipe(db, id, d)) ensures x in RecipeIds(db) {
      var rc :| rc in r && rc.id == x;
      var i :| 0 <= i < |r| && r[i] == rc;
      assert db.recipes[i].id == x && db.recipes[i] in db.recipes;
    }
  }

  /** Replacing a recipe keeps every other recipe. */
  lemma ReplaceKeepsOthers(recipes: seq<Recipe>, id: Id, d: RecipeInput)
    requires d.tags.Some?
    ensures forall rc :: rc in recipes && rc.id != id ==> rc in ReplaceRecipe(recipes, id, d)
  {
    var r := ReplaceRecipe(recipes, id, d);
    forall rc | rc in recipes && rc.id != id ensures rc in r {
      var i :| 0 <= i < |recipes| && recipes[i] == rc;
      assert r[i] == rc;
    }
  }

  /** After replacing, the recipe found under `id` is the updated one. */
  lemma ReplaceFinds(db: Db, id: Id, d: RecipeInput)
    requires RecipesValid(db) && id in RecipeIds(db)
    requires d.tags.Some? && d.ingredients.Some?
    ensures FindRecipe(UpdateRecipe(db, id, d), id) == Some(Updated(FindRecipe(db, id).value, d))
  {
    var r := ReplaceRecipe(db.recipes, id, d);
    var before := FindRecipe(db, id).value;
    var found := FindRecipe(UpdateRecipe(db, id, d), id).value;
    var k :| 0 <= k < |db.recipes| && db.recipes[k] == before;
    assert r[k] == Updated(before, d) && r[k] in r;
    var m :| 0 <= m < |r| && r[m] == found;
    assert db.recipes[m].id == id && db.recipes[m] in db.recipes;
  }

  /** After `update` the recipe carries the new tag set and fields, its
      ingredient rows are exactly the new list (the old ones are gone), and
      every other recipe and its rows are unchanged. */
  lemma UpdateRecipeSpec(db: Db, id: Id, d: RecipeInput)
    requires Valid(db) && id in RecipeIds(db)
    requires d.tags.Some? && d.ingredients.Some?
    ensures var after := UpdateRecipe(db, id, d);
      && FindRecipe(after, id).Some?
      && FindRecipe(after, id).value == Updated(FindRecipe(db, id).value, d)
      && FindRecipe(after, id).value.tags == ToSet(d.tags.value)
      && RowsOf(after, id) == IngredientRows(id, d.ingredients.value)
      && (forall other :: other != id ==> RowsOf(after, other) == RowsOf(db, other))
      && (forall rc :: rc in db.recipes && rc.id != id ==> rc in after.recipes)
  {
    var after := UpdateRecipe(db, id, d);
    var kept := DropRows(db.recipeIngredients, id);
    var added := IngredientRows(id, d.ingredients.value);
    ReplaceKeepsIds(db, id, d);
    ReplaceFinds(db, id, d);
    ReplaceKeepsOthers(db.recipes, id, d);
    RowsInAppend(kept, added, id);
    RowsInDrop(db.recipeIngredients, id, id);
    RowsInBuilt(id, d.ingredients.value, id);
    forall other | other != id ensures RowsOf(after, other) == RowsOf(db, other) {
      RowsInAppend(kept, added, other);
      RowsInDrop(db.recipeIngredients, id, other);
      RowsInBuilt(id, d.ingredients.value, other);
    }
  }

  /** Replacing a recipe keeps the rows of the table distinct, in value
      and in primary key. */
  lemma ReplaceKeepsUnique(recipes: seq<Recipe>, id: Id, d: RecipeInput)
    requires d.tags.Some?
    requires forall a, b :: a in recipes && b in recipes && a.id == b.id ==> a == b
    requires NoDup(recipes)
    ensures NoDup(ReplaceRecipe(recipes, id, d))
    ensures forall a, b :: a in ReplaceRecipe(recipes, id, d) && b in ReplaceRecipe(recipes, id, d) && a.id == b.id ==> a == b
  {
    var r := ReplaceRecipe(recipes, id, d);
    forall i, j | 0 <= i < j < |r| ensures r[i].id != r[j].id {
      assert recipes[i] != recipes[j];
      assert recipes[i] in recipes && recipes[j] in recipes;
    }
    forall a, b | a in r && b in r && a.id == b.id ensures a == b {
      var i :| 0 <= i < |r| && r[i] == a;
      var j :| 0 <= j < |r| && r[j] == b;
      assert i == j;
    }
  }

  /** The recipe table after `update` keeps the recipe constraints. */
  lemma UpdatedRecipesValid(db: Db, id: Id, d: RecipeInput)
    requires RecipesValid(db)
    requires d.tags.Some? && d.ingredients.Some?
    requires forall t :: t in d.tags.value ==> t in TagIds(db)
    requires d.cookingTime.Some? ==> MinCookingTime <= d.cookingTime.value <= MaxCookingTime
    ensures RecipesValid(UpdateRecipe(db, id, d))
  {
    var after := UpdateRecipe(db, id, d);
    var r := after.recipes;
    ReplaceKeepsUnique(db.recipes, id, d);
    assert UserIds(after) == UserIds(db) && TagIds(after) == TagIds(db);
    forall rc | rc in r
      ensures MinCookingTime <= rc.cookingTime <= MaxCookingTime && rc.author in UserIds(db)
      ensures rc.tags <= TagIds(db) && rc.id < db.nextRecipeId
    {
      var i :| 0 <= i < |r| && r[i] == rc;
      var before := db.recipes[i];
      assert before in db.recipes;
      if before.id == id {
        assert rc == Updated(before, d);
        assert rc.tags == ToSet(d.tags.value);
      } else {
        assert rc == before;
      }
    }
  }

  /** Updating an existing recipe from a validated payload keeps every
      constraint of the store; the recipe keeps at least one tag and one
      ingredient. */
  lemma UpdateRecipeValid(db: Db, id: Id, verb: HttpMethod, d: RecipeInput)
    requires Valid(db) && id in RecipeIds(db)
    requires ValidateRecipe(db, verb, d) == Ok(d)
    ensures d.tags.Some? && d.ingredients.Some?
    ensures Valid(UpdateRecipe(db, id, d))
    ensures RowsOf(UpdateRecipe(db, id, d), id) != []
    ensures FindRecipe(UpdateRecipe(db, id, d), id).value.tags != {}
  {
    ValidateRecipeSound(db, verb, d);
    var after := UpdateRecipe(db, id, d);
    UpdatedRecipesValid(db, id, d);
    ReplaceKeepsIds(db, id, d);
    JoinRowsValid(db, after, id, d.ingredients.value);
    RecipeWriteValid(db, after);
    UpdateRecipeSpec(db, id, d);
    assert d.tags.value[0] in ToSet(d.tags.value);
    assert IngredientRows(id, d.ingredients.value)[0] in RowsOf(after, id);
  }
}
