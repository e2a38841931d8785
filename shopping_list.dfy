/** The downloadable shopping list: the ingredient rows of the recipes in
    the user's cart, grouped by (ingredient name, measurement unit) with
    their amounts summed, ordered by name and rendered as a header followed
    by one line per group. */
module ShoppingList {
  import opened Prelude
  import opened Decimal
  import opened Store

  // ----- the rows that are counted

  /** The recipes `user` has in the shopping cart. */
  function CartRecipeIds(db: Db, user: Id): (r: set<Id>)
    ensures forall id :: id in r <==> Link(user, id) in db.carts
  {
    set l | l in db.carts && l.user == user :: l.target
  }

  /** `RecipeIngredient.objects.filter(recipe__shoppingcart_by__user=user)`. */
  function CountedRows(db: Db, user: Id): (r: seq<RecipeIngredient>)
    ensures forall ri :: ri in r <==> ri in db.recipeIngredients && Link(user, ri.recipe) in db.carts
  {
    Keep(db.recipeIngredients, (ri: RecipeIngredient) => ri.recipe in CartRecipeIds(db, user))
  }

  /** A counted row joined with its ingredient. */
  datatype Item = Item(ingredient: Id, name: string, unit: string, amount: int)

  /** `.values('ingredient__name', 'ingredient__measurement_unit')`: the
      inner join of the rows with their ingredients. */
  function Items(db: Db, rows: seq<RecipeIngredient>): (r: seq<Item>)
    ensures |r| <= |rows|
    ensures forall it :: it in r ==>
      exists ri :: ri in rows && ri.ingredient == it.ingredient && ri.amount == it.amount &&
        FindIngredient(db, ri.ingredient) == Some(Ingredient(it.ingredient, it.name, it.unit))
  {
    if rows == [] then []
    else match FindIngredient(db, rows[0].ingredient)
      case None => Items(db, rows[1..])
      case Some(i) => [Item(i.id, i.name, i.measurementUnit, rows[0].amount)] + Items(db, rows[1..])
  }

  function RowsAmount(rows: seq<RecipeIngredient>): int {
    if rows == [] then 0 else rows[0].amount + RowsAmount(rows[1..])
  }

  function ItemsAmount(items: seq<Item>): int {
    if items == [] then 0 else items[0].amount + ItemsAmount(items[1..])
  }

  /** When every row names an existing ingredient (as in a valid store) the
      join loses no row and no amount. */
  lemma {:induction false} ItemsKeepAmount(db: Db, rows: seq<RecipeIngredient>)
    requires forall ri :: ri in rows ==> ri.ingredient in IngredientIds(db)
    ensures |Items(db, rows)| == |rows|
    ensures ItemsAmount(Items(db, rows)) == RowsAmount(rows)
  {
    if rows != [] {
      ItemsKeepAmount(db, rows[1..]);
    }
  }

  /** In a valid store the name and unit of an ingredient identify it, so
      grouping by (name, unit) is grouping by ingredient. */
  lemma KeyIdentifiesIngredient(db: Db, rows: seq<RecipeIngredient>, a: Item, b: Item)
    requires Valid(db)
    requires a in Items(db, rows) && b in Items(db, rows)
    ensures (a.name, a.unit) == (b.name, b.unit) <==> a.ingredient == b.ingredient
  {
    var ra :| ra in rows && ra.ingredient == a.ingredient &&
      FindIngredient(db, ra.ingredient) == Some(Ingredient(a.ingredient, a.name, a.unit));
    var rb :| rb in rows && rb.ingredient == b.ingredient &&
      FindIngredient(db, rb.ingredient) == Some(Ingredient(b.ingredient, b.name, b.unit));
    assert Ingredient(a.ingredient, a.name, a.unit) in db.ingredients;
    assert Ingredient(b.ingredient, b.name, b.unit) in db.ingredients;
  }

  // ----- grouping

  /** One line of the list before rendering: `total_amount=Sum('amount')`
      for one (name, unit). */
  datatype Group = Group(name: string, unit: string, total: int)

  function ItemKey(it: Item): (string, string) {
    (it.name, it.unit)
  }

  function GroupKey(g: Group): (string, string) {
    (g.name, g.unit)
  }

  /** The sum of the amounts of the items with key `k`. */
  function SumFor(items: seq<Item>, k: (string, string)): int {
    if items == [] then 0
    else (if ItemKey(items[0]) == k then items[0].amount else 0) + SumFor(items[1..], k)
  }

  /** The total of the group with key `k`, or 0 when there is none. */
  function TotalFor(groups: seq<Group>, k: (string, string)): int {
    if groups == [] then 0
    else if GroupKey(groups[0]) == k then groups[0].total
    else TotalFor(groups[1..], k)
  }

  function TotalOf(groups: seq<Group>): int {
    if groups == [] then 0 else groups[0].total + TotalOf(groups[1..])
  }

  function GroupKeys(groups: seq<Group>): set<(string, string)> {
    set g | g in groups :: GroupKey(g)
  }

  function ItemKeys(items: seq<Item>): set<(string, string)> {
    set it | it in items :: ItemKey(it)
  }

  /** No two groups share a key. */
  predicate KeysUnique(groups: seq<Group>) {
    forall i, j :: 0 <= i < j < |groups| ==> GroupKey(groups[i]) != GroupKey(groups[j])
  }

  /** Adds one item: into the group of its key when there is one, as a new
      group at the end otherwise. */
  function AddItem(groups: seq<Group>, it: Item): (r: seq<Group>)
    ensures |groups| <= |r| <= |groups| + 1
  {
    if groups == [] then [Group(it.name, it.unit, it.amount)]
    else if GroupKey(groups[0]) == ItemKey(it) then
      [groups[0].(total := groups[0].total + it.amount)] + groups[1..]
    else [groups[0]] + AddItem(groups[1..], it)
  }

  /** The groups after the first one. */
  lemma TailKeysUnique(groups: seq<Group>)
    requires KeysUnique(groups) && groups != []
    ensures KeysUnique(groups[1..])
    ensures GroupKey(groups[0]) !in GroupKeys(groups[1..])
  {
    var rest := groups[1..];
    forall i, j | 0 <= i < j < |rest| ensures GroupKey(rest[i]) != GroupKey(rest[j]) {
      assert rest[i] == groups[i + 1] && rest[j] == groups[j + 1];
    }
    forall g | g in rest ensures GroupKey(g) != GroupKey(groups[0]) {
      var j :| 0 <= j < |rest| && rest[j] == g;
      assert groups[j + 1] == g;
    }
  }

  lemma GroupKeysCons(g: Group, rest: seq<Group>)
    ensures GroupKeys([g] + rest) == {GroupKey(g)} + GroupKeys(rest)
  {
    var s := [g] + rest;
    forall k | k in GroupKeys(s) ensures k in {GroupKey(g)} + GroupKeys(rest) {
      var x :| x in s && GroupKey(x) == k;
      if x != g {
        assert x in rest;
      }
    }
    forall k | k in GroupKeys(rest) ensures k in GroupKeys(s) {
      var x :| x in rest && GroupKey(x) == k;
      assert x in s;
    }
    assert g in s;
  }

  /** Adding an item adds its key to the keys. */
  lemma {:induction false} AddItemKeys(groups: seq<Group>, it: Item)
    ensures GroupKeys(AddItem(groups, it)) == GroupKeys(groups) + {ItemKey(it)}
  {
    if groups == [] {
      assert GroupKeys([Group(it.name, it.unit, it.amount)]) == {ItemKey(it)} by {
        GroupKeysCons(Group(it.name, it.unit, it.amount), []);
      }
    } else {
      var rest := groups[1..];
      assert groups == [groups[0]] + rest;
      GroupKeysCons(groups[0], rest);
      if GroupKey(groups[0]) == ItemKey(it) {
        GroupKeysCons(groups[0].(total := groups[0].total + it.amount), rest);
      } else {
        AddItemKeys(rest, it);
        GroupKeysCons(groups[0], AddItem(rest, it));
      }
    }
  }

  /** A group whose key the others lack, in front of groups with distinct
      keys, keeps the keys distinct. */
  lemma ConsKeysUnique(g: Group, rest: seq<Group>)
    requires KeysUnique(rest) && GroupKey(g) !in GroupKeys(rest)
    ensures KeysUnique([g] + rest)
  {
    var r := [g] + rest;
    forall i, j | 0 <= i < j < |r| ensures GroupKey(r[i]) != GroupKey(r[j]) {
      assert r[j] == rest[j - 1];
      if i == 0 {
        assert r[j] in rest;
      } else {
        assert r[i] == rest[i - 1];
      }
    }
  }

  /** Adding an item keeps the keys distinct. */
  lemma {:induction false} AddItemUnique(groups: seq<Group>, it: Item)
    requires KeysUnique(groups)
    ensures KeysUnique(AddItem(groups, it))
  {
    if groups != [] {
      var rest := groups[1..];
      TailKeysUnique(groups);
      if GroupKey(groups[0]) == ItemKey(it) {
        ConsKeysUnique(groups[0].(total := groups[0].total + it.amount), rest);
      } else {
        AddItemUnique(rest, it);
        AddItemKeys(rest, it);
        ConsKeysUnique(groups[0], AddItem(rest, it));
      }
    }
  }

  /** Adding an item raises the total of its key by its amount and leaves
      the total of every other key. */
  lemma {:induction false} AddItemTotals(groups: seq<Group>, it: Item, k: (string, string))
    ensures TotalFor(AddItem(groups, it), k) == TotalFor(groups, k) + (if k == ItemKey(it) then it.amount else 0)
  {
    if groups != [] && GroupKey(groups[0]) != ItemKey(it) {
      AddItemTotals(groups[1..], it, k);
    }
  }

  /** Adding an item raises the grand total by its amount. */
  lemma {:induction false} AddItemTotalOf(groups: seq<Group>, it: Item)
    ensures TotalOf(AddItem(groups, it)) == TotalOf(groups) + it.amount
  {
    if groups != [] {
      if GroupKey(groups[0]) == ItemKey(it) {
        assert AddItem(groups, it)[1..] == groups[1..];
      } else {
        AddItemTotalOf(groups[1..], it);
      }
    }
  }

  /** `.annotate(total_amount=Sum('amount'))` over the (name, unit) values. */
  function GroupItems(items: seq<Item>): (r: seq<Group>)
    ensures |r| <= |items|
    ensures r == [] <==> items == []
  {
    if items == [] then [] else AddItem(GroupItems(items[1..]), items[0])
  }

  /** The grouping has one group per key of the items, and each group's
      total is the sum of the amounts of its key, so the totals add up to
      the sum of all amounts. */
  lemma {:induction false} GroupItemsSpec(items: seq<Item>)
    ensures KeysUnique(GroupItems(items))
    ensures GroupKeys(GroupItems(items)) == ItemKeys(items)
    ensures forall k :: TotalFor(GroupItems(items), k) == SumFor(items, k)
    ensures TotalOf(GroupItems(items)) == ItemsAmount(items)
  {
    if items != [] {
      var prev := GroupItems(items[1..]);
      GroupItemsSpec(items[1..]);
      AddItemUnique(prev, items[0]);
      AddItemKeys(prev, items[0]);
      AddItemTotalOf(prev, items[0]);
      forall k ensures TotalFor(GroupItems(items), k) == SumFor(items, k) {
        AddItemTotals(prev, items[0], k);
      }
      assert ItemKeys(items) == {ItemKey(items[0])} + ItemKeys(items[1..]);
    }
  }

  /** With distinct keys, each group's total is the total of its key. */
  lemma {:induction false} TotalForMember(groups: seq<Group>, g: Group)
    requires KeysUnique(groups) && g in groups
    ensures TotalFor(groups, GroupKey(g)) == g.total
  {
    if groups[0] != g {
      var rest := groups[1..];
      assert g in rest;
      var j :| 0 <= j < |rest| && rest[j] == g;
      TailKeysUnique(groups);
      TotalForMember(rest, g);
    }
  }

  // ----- ordering by name

  /** Code-point lexicographic order of names. */
  predicate NameLe(a: string, b: string) {
    a == [] || (b != [] && (a[0] < b[0] || (a[0] == b[0] && NameLe(a[1..], b[1..]))))
  }

  lemma {:induction false} NameLeTotal(a: string, b: string)
    ensures NameLe(a, b) || NameLe(b, a)
  {
    if a != [] && b != [] && a[0] == b[0] {
      NameLeTotal(a[1..], b[1..]);
    }
  }

  lemma {:induction false} NameLeTrans(a: string, b: string, c: string)
    requires NameLe(a, b) && NameLe(b, c)
    ensures NameLe(a, c)
  {
    if a != [] && a[0] == b[0] && b[0] == c[0] {
      NameLeTrans(a[1..], b[1..], c[1..]);
    }
  }

  predicate SortedByName(groups: seq<Group>) {
    forall i, j :: 0 <= i < j < |groups| ==> NameLe(groups[i].name, groups[j].name)
  }

  /** Puts `g` before the first group whose name is not below its own. */
  function InsertByName(g: Group, groups: seq<Group>): (r: seq<Group>)
    ensures multiset(r) == multiset(groups) + multiset{g}
    ensures |r| == |groups| + 1
    ensures forall x :: x in r <==> x == g || x in groups
  {
    if groups == [] || NameLe(g.name, groups[0].name) then [g] + groups
    else
      assert groups == [groups[0]] + groups[1..];
      [groups[0]] + InsertByName(g, groups[1..])
  }

  lemma {:induction false} InsertByNameSorted(g: Group, groups: seq<Group>)
    requires SortedByName(groups)
    ensures SortedByName(InsertByName(g, groups))
  {
    var r := InsertByName(g, groups);
    if groups == [] {
    } else if NameLe(g.name, groups[0].name) {
      forall i, j | 0 <= i < j < |r| ensures NameLe(r[i].name, r[j].name) {
        if i == 0 && j > 1 {
          NameLeTrans(g.name, groups[0].name, groups[j - 1].name);
        }
      }
    } else {
      var rest := groups[1..];
      assert SortedByName(rest) by {
        forall i, j | 0 <= i < j < |rest| ensures NameLe(rest[i].name, rest[j].name) {
          assert rest[i] == groups[i + 1] && rest[j] == groups[j + 1];
        }
      }
      InsertByNameSorted(g, rest);
      var tail := InsertByName(g, rest);
      NameLeTotal(g.name, groups[0].name);
      forall x | x in tail ensures NameLe(groups[0].name, x.name) {
        if x != g {
          var j :| 0 <= j < |rest| && rest[j] == x;
          assert groups[j + 1] == x;
        }
      }
      forall i, j | 0 <= i < j < |r| ensures NameLe(r[i].name, r[j].name) {
        if i == 0 {
          assert r[j] == tail[j - 1] && r[j] in tail;
        } else {
          assert r[i] == tail[i - 1] && r[j] == tail[j - 1];
        }
      }
    }
  }

  lemma {:induction false} InsertByNameTotal(g: Group, groups: seq<Group>)
    ensures TotalOf(InsertByName(g, groups)) == g.total + TotalOf(groups)
  {
    if groups != [] && !NameLe(g.name, groups[0].name) {
      InsertByNameTotal(g, groups[1..]);
    }
  }

  /** `.order_by('ingredient__name')`. */
  function SortByName(groups: seq<Group>): (r: seq<Group>)
    ensures multiset(r) == multiset(groups)
    ensures |r| == |groups|
  {
    if groups == [] then []
    else
      assert groups == [groups[0]] + groups[1..];
      InsertByName(groups[0], SortByName(groups[1..]))
  }

  lemma {:induction false} SortByNameSpec(groups: seq<Group>)
    ensures SortedByName(SortByName(groups))
    ensures TotalOf(SortByName(groups)) == TotalOf(groups)
  {
    if groups != [] {
      SortByNameSpec(groups[1..]);
      InsertByNameSorted(groups[0], SortByName(groups[1..]));
      InsertByNameTotal(groups[0], SortByName(groups[1..]));
    }
  }

  /** The keys of the groups, in order. */
  function KeyList(groups: seq<Group>): (r: seq<(string, string)>)
    ensures |r| == |groups|
    ensures forall i :: 0 <= i < |r| ==> r[i] == GroupKey(groups[i])
  {
    if groups == [] then [] else [GroupKey(groups[0])] + KeyList(groups[1..])
  }

  /** Distinct keys, counted: there are as many keys as groups. */
  lemma KeysUniqueIffCount(groups: seq<Group>)
    ensures KeysUnique(groups) <==> |GroupKeys(groups)| == |groups|
  {
    var ks := KeyList(groups);
    DistinctIffSameSize(ks);
    assert KeysUnique(groups) <==> NoDup(ks);
    assert GroupKeys(groups) == ToSet(ks) by {
      forall k | k in ToSet(ks) ensures k in GroupKeys(groups) {
        var i :| 0 <= i < |ks| && ks[i] == k;
        assert groups[i] in groups;
      }
      forall k | k in GroupKeys(groups) ensures k in ToSet(ks) {
        var g :| g in groups && GroupKey(g) == k;
        var i :| 0 <= i < |groups| && groups[i] == g;
        assert ks[i] == k;
      }
    }
  }

  /** A reordering keeps distinct keys distinct. */
  lemma KeysUniquePermuted(groups: seq<Group>, r: seq<Group>)
    requires KeysUnique(groups) && multiset(r) == multiset(groups)
    ensures KeysUnique(r)
  {
    assert |r| == |groups| by {
      assert |multiset(r)| == |r| && |multiset(groups)| == |groups|;
    }
    forall g ensures g in r <==> g in groups {
      assert g in r <==> g in multiset(r);
      assert g in groups <==> g in multiset(groups);
    }
    assert GroupKeys(r) == GroupKeys(groups);
    KeysUniqueIffCount(groups);
    KeysUniqueIffCount(r);
  }

  /** The groups of the user's list, in output order: at most one per
      counted row, and none exactly when no row is counted. */
  function ShoppingGroups(db: Db, user: Id): (r: seq<Group>)
    ensures |r| <= |CountedRows(db, user)|
    ensures r == [] <==> Items(db, CountedRows(db, user)) == []
  {
    SortByName(GroupItems(Items(db, CountedRows(db, user))))
  }

  /** The groups of the list: ordered by name, one per (name, unit) of a
      counted row, each totalling exactly the amounts of its key, and all
      together totalling every counted amount. */
  lemma ShoppingGroupsSpec(db: Db, user: Id)
    requires Valid(db)
    ensures var groups := ShoppingGroups(db, user);
      var items := Items(db, CountedRows(db, user));
      && SortedByName(groups)
      && KeysUnique(groups)
      && GroupKeys(groups) == ItemKeys(items)
      && (forall g :: g in groups ==> g.total == SumFor(items, GroupKey(g)))
      && TotalOf(groups) == RowsAmount(CountedRows(db, user))
  {
    var rows := CountedRows(db, user);
    var items := Items(db, rows);
    var grouped := GroupItems(items);
    var groups := SortByName(grouped);
    GroupItemsSpec(items);
    SortByNameSpec(grouped);
    KeysUniquePermuted(grouped, groups);
    ItemsKeepAmount(db, rows);
    assert GroupKeys(groups) == GroupKeys(grouped) by {
      forall g ensures g in groups <==> g in grouped {
        assert g in groups <==> g in multiset(groups);
        assert g in grouped <==> g in multiset(grouped);
      }
    }
    forall g | g in groups ensures g.total == SumFor(items, GroupKey(g)) {
      assert g in multiset(grouped);
      TotalForMember(grouped, g);
    }
  }

  /** An empty cart counts no rows and gives no group. */
  lemma EmptyCartNoGroups(db: Db, user: Id)
    requires forall l :: l in db.carts ==> l.user != user
    ensures ShoppingGroups(db, user) == []
  {
    assert CartRecipeIds(db, user) == {};
    KeepNone(db.recipeIngredients, (ri: RecipeIngredient) => ri.recipe in CartRecipeIds(db, user));
  }

  // ----- rendering

  const Header: string := "Список покупок\n\n"

  /** `f'{name} ({unit}) — {amount}\n'` */
  function Line(g: Group): string {
    g.name + " (" + g.unit + ") — " + ShowInt(g.total) + "\n"
  }

  /** One rendered line per group, in group order. */
  function LineList(groups: seq<Group>): (r: seq<string>)
    ensures |r| == |groups|
  {
    if groups == [] then [] else [Line(groups[0])] + LineList(groups[1..])
  }

  lemma {:induction false} LineListAppend(a: seq<Group>, b: seq<Group>)
    ensures LineList(a + b) == LineList(a) + LineList(b)
  {
    if a == [] {
      assert a + b == b;
    } else {
      assert (a + b)[1..] == a[1..] + b;
      LineListAppend(a[1..], b);
    }
  }

  lemma LineListOne(g: Group)
    ensures LineList([g]) == [Line(g)]
  {
    assert [g][1..] == [];
  }

  /** `''.join(parts)` */
  function Join(parts: seq<string>): string {
    if parts == [] then "" else parts[0] + Join(parts[1..])
  }

  lemma {:induction false} JoinAppend(a: seq<string>, b: seq<string>)
    ensures Join(a + b) == Join(a) + Join(b)
  {
    if a == [] {
      assert a + b == b;
    } else {
      assert (a + b)[1..] == a[1..] + b;
      JoinAppend(a[1..], b);
    }
  }

  /** The text of the list for a sequence of groups: it starts with the
      header. */
  function Render(groups: seq<Group>): (r: string)
    ensures |Header| <= |r| && r[..|Header|] == Header
  {
    JoinAppend([Header], LineList(groups));
    assert Join([Header]) == Header + Join([]);
    Join(Parts(groups))
  }

  /** The parts the text is joined from: the header, then the lines. */
  function Parts(groups: seq<Group>): seq<string> {
    [Header] + LineList(groups)
  }

  /** The text is the header followed by the lines, and exactly the
      header when there is no group. */
  lemma RenderSpec(groups: seq<Group>)
    ensures Render(groups) == Header + Join(LineList(groups))
    ensures Render([]) == Header
  {
    JoinAppend([Header], LineList(groups));
    assert Join([Header]) == Header + Join([]);
    assert LineList([]) == [];
  }

  /** Each further group adds its own line at the end. */
  lemma RenderSnoc(groups: seq<Group>, g: Group)
    ensures Render(groups + [g]) == Render(groups) + Line(g)
  {
    LineListAppend(groups, [g]);
    LineListOne(g);
    var lines := LineList(groups + [g]);
    assert [Header] + lines == ([Header] + LineList(groups)) + [Line(g)];
    JoinAppend([Header] + LineList(groups), [Line(g)]);
    assert Join([Line(g)]) == Line(g) + Join([]);
  }

  lemma PartsSnoc(groups: seq<Group>, i: nat)
    requires i < |groups|
    ensures Parts(groups[..i + 1]) == Parts(groups[..i]) + [Line(groups[i])]
  {
    assert groups[..i + 1] == groups[..i] + [groups[i]];
    LineListAppend(groups[..i], [groups[i]]);
    LineListOne(groups[i]);
    assert LineList(groups[..i + 1]) == LineList(groups[..i]) + [Line(groups[i])];
  }

  /** The loop of `_create_shopping_list_content`: starts the parts with the
      header, appends one rendered line per group, and joins the parts. */
  method RenderLines(groups: seq<Group>) returns (content: string)
    ensures content == Render(groups)
  {
    var parts: seq<string> := [Header];
    var i := 0;
    assert parts == Parts(groups[..0]);
    while i < |groups|
      invariant 0 <= i <= |groups|
      invariant parts == Parts(groups[..i])
    {
      PartsSnoc(groups, i);
      parts := parts + [Line(groups[i])];
      i := i + 1;
    }
    assert groups[..i] == groups;
    content := Join(parts);
  }

  /** `_create_shopping_list_content(user)`: the grouped query, then the
      rendering loop. */
  method CreateShoppingListContent(db: Db, user: Id) returns (content: string)
    ensures content == Render(ShoppingGroups(db, user))
  {
    var groups := ShoppingGroups(db, user);
    content := RenderLines(groups);
  }

  /** An empty cart gives exactly the header. */
  lemma EmptyCartText(db: Db, user: Id)
    requires forall l :: l in db.carts ==> l.user != user
    ensures Render(ShoppingGroups(db, user)) == Header
  {
    EmptyCartNoGroups(db, user);
    RenderSpec([]);
  }
}
