/** The recipe filter on the home page. Submitting rewrites a copy of the
    page's query parameters: the filter's own keys are deleted, then the
    non-empty filter values are set again, and the browser navigates to the
    result. The automatic-filter button deletes the same keys except the
    nutrient ones and sets `auto-filter=1`. When the filter opens, its
    defaults are read back out of the query. Ingredient choices toggle in a
    list. */
module RecipeFilter {
  import opened Optional
  import JsText
  import opened UrlSearchParams

  /** The nutrient fields, in the order the submit handler visits them. */
  const Nutrients: seq<string> := [
    "Calories", "Protein", "Calcium", "Carbs", "Fat", "Fiber",
    "Iron", "Potassium", "Sodium", "Sugar", "VitaminA", "VitaminC"]

  /** The keys both handlers delete before writing. */
  const ResetKeys: set<string> := {"title", "budget", "ingredients", "high-to-low", "allergens", "page"}

  function NameSet(names: seq<string>): set<string> {
    set n | n in names
  }

  /** Every key the submit handler deletes. */
  function SubmitKeys(): set<string> {
    ResetKeys + NameSet(Nutrients)
  }

  /** A budget as a number together with its `toString` text. */
  datatype Budget = Budget(amount: real, shown: string)

  /** The filter form's values; `nutrientValues[i]` is the text typed for
      `Nutrients[i]`. */
  datatype FilterForm = FilterForm(
    title: string, budget: Option<Budget>, lowToHigh: bool,
    ingredients: seq<string>, nutrientValues: seq<string>, allergens: bool)

  // ------------------------------------------------------------ ingredients

  /** The list without any occurrence of `value`. */
  function Without(list: seq<string>, value: string): (r: seq<string>)
    ensures value !in r
    ensures forall x :: x in r <==> x in list && x != value
  {
    if list == [] then []
    else if list[0] == value then Without(list[1..], value)
    else [list[0]] + Without(list[1..], value)
  }

  /** The ingredient selection handler: an option that is not selected is
      appended, a selected one is removed everywhere. */
  function ToggleIngredient(list: seq<string>, value: string, selected: bool): seq<string> {
    if !selected then list + [value] else Without(list, value)
  }

  /** Removal keeps the relative order of the rest. */
  lemma {:induction false} WithoutAppend(a: seq<string>, b: seq<string>, value: string)
    ensures Without(a + b, value) == Without(a, value) + Without(b, value)
  {
    if a == [] {
      assert a + b == b;
    } else {
      assert (a + b)[1..] == a[1..] + b;
      WithoutAppend(a[1..], b, value);
    }
  }

  lemma {:induction false} WithoutAbsent(list: seq<string>, value: string)
    requires value !in list
    ensures Without(list, value) == list
  {
    if list != [] {
      WithoutAbsent(list[1..], value);
    }
  }

  /** With the selected flag the option list computes (membership), a
      toggle flips the value's membership and keeps every other value. */
  lemma ToggleFlips(list: seq<string>, value: string)
    ensures value in ToggleIngredient(list, value, value in list) <==> value !in list
    ensures forall x :: x != value ==> (x in ToggleIngredient(list, value, value in list) <==> x in list)
    ensures value !in list ==> ToggleIngredient(list, value, false) == list + [value]
  {
  }

  /** Selecting a new value and then deselecting it restores the list. */
  lemma ToggleTwice(list: seq<string>, value: string)
    requires value !in list
    ensures ToggleIngredient(ToggleIngredient(list, value, false), value, true) == list
  {
    WithoutAppend(list, [value], value);
    WithoutAbsent(list, value);
  }

  // ------------------------------------------------------------ submitting

  /** The nutrient pairs the submit handler appends: one per non-empty value. */
  function NutrientPairs(names: seq<string>, values: seq<string>): (r: seq<Param>)
    requires |names| == |values|
    ensures forall i :: 0 <= i < |r| ==> r[i].name in names
  {
    if names == [] then []
    else
      var k := |names| - 1;
      NutrientPairs(names[..k], values[..k]) + (if values[k] != "" then [Param(names[k], values[k])] else [])
  }

  /** Whether a budget entry is written: the budget is set and not zero. */
  predicate BudgetOn(f: FilterForm) {
    f.budget.Some? && f.budget.value.amount != 0.0
  }

  function TitlePairs(f: FilterForm): seq<Param> {
    if f.title != "" then [Param("title", f.title)] else []
  }

  function BudgetPairs(f: FilterForm): seq<Param> {
    if BudgetOn(f) then
      [Param("budget", f.budget.value.shown)] + (if !f.lowToHigh then [Param("high-to-low", "1")] else [])
    else []
  }

  function IngredientPairs(f: FilterForm): seq<Param> {
    if |f.ingredients| > 0 then [Param("ingredients", JsText.Join(f.ingredients, ','))] else []
  }

  function AllergenPairs(f: FilterForm): seq<Param> {
    if f.allergens then [Param("allergens", "1")] else []
  }

  /** The query a submit produces from the current query `search`: the
      pairs under keys it does not manage, then the nutrient pairs, then
      the title, budget, ingredient and allergen pairs. */
  function SubmitQuery(search: seq<Param>, f: FilterForm): seq<Param>
    requires |f.nutrientValues| == |Nutrients|
  {
    QueryOver(Nutrients, search, f)
  }

  /** The submitted query for a given list of nutrient names. */
  function QueryOver(names: seq<string>, search: seq<Param>, f: FilterForm): seq<Param>
    requires |f.nutrientValues| == |names|
  {
    Drop(search, ResetKeys + NameSet(names)) + NutrientPairs(names, f.nutrientValues) +
    TitlePairs(f) + BudgetPairs(f) + IngredientPairs(f) + AllergenPairs(f)
  }

  predicate Distinct(names: seq<string>) {
    forall j, l :: 0 <= j < l < |names| ==> names[j] != names[l]
  }

  /** The nutrient names are distinct and none is a filter-value key. */
  predicate NamesOk(names: seq<string>) {
    Distinct(names) && forall j :: 0 <= j < |names| ==> names[j] !in ResetKeys
  }

  lemma NutrientsOk()
    ensures NamesOk(Nutrients)
  {
  }

  predicate Lacks(ps: seq<Param>, k: string) {
    forall i :: 0 <= i < |ps| ==> ps[i].name != k
  }

  /** None of the keys the filter values are written under. */
  predicate LacksFilterKeys(ps: seq<Param>) {
    Lacks(ps, "title") && Lacks(ps, "budget") && Lacks(ps, "high-to-low") &&
    Lacks(ps, "ingredients") && Lacks(ps, "allergens")
  }

  lemma LacksAppend(ps: seq<Param>, qs: seq<Param>, k: string)
    requires Lacks(ps, k) && Lacks(qs, k)
    ensures Lacks(ps + qs, k)
  {
  }

  lemma SetAbsent(ps: seq<Param>, k: string, v: string)
    requires Lacks(ps, k)
    ensures SetParam(ps, k, v) == ps + [Param(k, v)]
  {
    SetParamFacts(ps, k, v);
  }

  /** What the nutrient loop leaves holds none of the filter-value keys. */
  lemma SubmitBaseLacks(names: seq<string>, search: seq<Param>, values: seq<string>)
    requires |values| == |names| && NamesOk(names)
    ensures LacksFilterKeys(Drop(search, ResetKeys + NameSet(names)) + NutrientPairs(names, values))
  {
    var a := Drop(search, ResetKeys + NameSet(names));
    var b := NutrientPairs(names, values);
    assert "title" !in names && "budget" !in names && "high-to-low" !in names;
    assert "ingredients" !in names && "allergens" !in names;
    LacksAppend(a, b, "title");
    LacksAppend(a, b, "budget");
    LacksAppend(a, b, "high-to-low");
    LacksAppend(a, b, "ingredients");
    LacksAppend(a, b, "allergens");
  }

  /** The filter-value pairs hold only filter-value keys. */
  lemma PiecesLack(f: FilterForm, k: string)
    requires k !in ResetKeys
    ensures Lacks(TitlePairs(f), k) && Lacks(BudgetPairs(f), k)
    ensures Lacks(IngredientPairs(f), k) && Lacks(AllergenPairs(f), k)
  {
  }

  /** One round of the nutrient loop: deleting the next name only touches
      the carried-over part of the query. */
  lemma NutrientStep(start: seq<Param>, names: seq<string>, values: seq<string>, i: nat)
    requires |values| == |names| && i < |names| && Distinct(names)
    ensures Drop(Drop(start, NameSet(names[..i])) + NutrientPairs(names[..i], values[..i]), {names[i]}) ==
      Drop(start, NameSet(names[..i + 1])) + NutrientPairs(names[..i], values[..i])
    ensures Lacks(Drop(start, NameSet(names[..i + 1])) + NutrientPairs(names[..i], values[..i]), names[i])
    ensures NutrientPairs(names[..i + 1], values[..i + 1]) ==
      NutrientPairs(names[..i], values[..i]) + (if values[i] != "" then [Param(names[i], values[i])] else [])
  {
    var a := Drop(start, NameSet(names[..i]));
    var b := NutrientPairs(names[..i], values[..i]);
    DropAppend(a, b, {names[i]});
    NameSetStep(names, i);
    DropDrop(start, NameSet(names[..i]), {names[i]});
    DropAbsent(b, {names[i]});
    PairsStep(names, values, i);
  }

  lemma NameSetStep(names: seq<string>, i: nat)
    requires i < |names| && Distinct(names)
    ensures NameSet(names[..i + 1]) == NameSet(names[..i]) + {names[i]}
    ensures names[i] !in NameSet(names[..i])
  {
    assert names[..i + 1] == names[..i] + [names[i]];
  }

  lemma PairsStep(names: seq<string>, values: seq<string>, i: nat)
    requires |values| == |names| && i < |names|
    ensures NutrientPairs(names[..i + 1], values[..i + 1]) ==
      NutrientPairs(names[..i], values[..i]) + (if values[i] != "" then [Param(names[i], values[i])] else [])
  {
    assert names[..i + 1][..i] == names[..i];
    assert values[..i + 1][..i] == values[..i];
  }

  /** A whole round of the nutrient loop, from the state before it to the
      state after it. */
  lemma NutrientRound(start: seq<Param>, names: seq<string>, values: seq<string>, i: nat,
                      before: seq<Param>, after: seq<Param>)
    requires |values| == |names| && i < |names| && Distinct(names)
    requires before == Drop(start, NameSet(names[..i])) + NutrientPairs(names[..i], values[..i])
    requires after == if values[i] != "" then SetParam(Drop(before, {names[i]}), names[i], values[i])
                      else Drop(before, {names[i]})
    ensures after == Drop(start, NameSet(names[..i + 1])) + NutrientPairs(names[..i + 1], values[..i + 1])
  {
    NutrientStep(start, names, values, i);
    if values[i] != "" {
      SetAbsent(Drop(before, {names[i]}), names[i], values[i]);
    }
  }

  /** The six deletes both handlers start with. */
  method DeleteResetKeys(params: SearchParams)
    modifies params
    ensures params.pairs == Drop(old(params.pairs), ResetKeys)
  {
    ghost var start := params.pairs;
    params.Delete("title");
    params.Delete("budget");
    params.Delete("ingredients");
    params.Delete("high-to-low");
    params.Delete("allergens");
    params.Delete("page");
    DropSix(start, "title", "budget", "ingredients", "high-to-low", "allergens", "page");
    ResetKeysUnion();
  }

  lemma ResetKeysUnion()
    ensures {"title"} + {"budget"} + {"ingredients"} + {"high-to-low"} + {"allergens"} + {"page"} == ResetKeys
  {
  }

  /** Six deletes in a row drop the six keys at once. */
  lemma DropSix(ps: seq<Param>, a: string, b: string, c: string, d: string, e: string, f: string)
    ensures Drop(Drop(Drop(Drop(Drop(Drop(ps, {a}), {b}), {c}), {d}), {e}), {f}) ==
      Drop(ps, {a} + {b} + {c} + {d} + {e} + {f})
  {
    DropDrop(ps, {a}, {b});
    DropDrop(ps, {a} + {b}, {c});
    DropDrop(ps, {a} + {b} + {c}, {d});
    DropDrop(ps, {a} + {b} + {c} + {d}, {e});
    DropDrop(ps, {a} + {b} + {c} + {d} + {e}, {f});
  }

  /** The nutrient loop: each nutrient key is deleted, then set again when
      its value is not empty. */
  method WriteNutrients(params: SearchParams, names: seq<string>, values: seq<string>)
    requires |values| == |names| && Distinct(names)
    modifies params
    ensures params.pairs == Drop(old(params.pairs), NameSet(names)) + NutrientPairs(names, values)
  {
    ghost var start := params.pairs;
    assert Drop(start, NameSet(names[..0])) == start by {
      DropAbsent(start, NameSet(names[..0]));
    }
    for i := 0 to |names|
      invariant params.pairs == Drop(start, NameSet(names[..i])) + NutrientPairs(names[..i], values[..i])
    {
      ghost var before := params.pairs;
      params.Delete(names[i]);
      if values[i] != "" {
        params.Set(names[i], values[i]);
      }
      NutrientRound(start, names, values, i, before, params.pairs);
    }
    assert names[..|names|] == names;
    assert values[..|names|] == values;
  }

  /** The title, budget, ingredient and allergen writes, onto a query that
      holds none of those keys. */
  method WriteFilterValues(params: SearchParams, f: FilterForm)
    requires LacksFilterKeys(params.pairs)
    modifies params
    ensures params.pairs ==
      old(params.pairs) + TitlePairs(f) + BudgetPairs(f) + IngredientPairs(f) + AllergenPairs(f)
  {
    ghost var p0 := params.pairs;
    WriteTitleAndBudget(params, f);
    LacksAppend(p0, TitlePairs(f), "ingredients");
    LacksAppend(p0, TitlePairs(f), "allergens");
    LacksAppend(p0 + TitlePairs(f), BudgetPairs(f), "ingredients");
    LacksAppend(p0 + TitlePairs(f), BudgetPairs(f), "allergens");
    WriteIngredientsAndAllergens(params, f);
  }

  /** The title, then the budget with its ordering flag. */
  method WriteTitleAndBudget(params: SearchParams, f: FilterForm)
    requires Lacks(params.pairs, "title") && Lacks(params.pairs, "budget") && Lacks(params.pairs, "high-to-low")
    modifies params
    ensures params.pairs == old(params.pairs) + TitlePairs(f) + BudgetPairs(f)
  {
    ghost var p0 := params.pairs;
    if f.title != "" {
      SetAbsent(params.pairs, "title", f.title);
      params.Set("title", f.title);
    }
    ghost var p1 := p0 + TitlePairs(f);
    assert params.pairs == p1;
    LacksAppend(p0, TitlePairs(f), "budget");
    LacksAppend(p0, TitlePairs(f), "high-to-low");
    if BudgetOn(f) {
      SetAbsent(params.pairs, "budget", f.budget.value.shown);
      params.Set("budget", f.budget.value.shown);
      if !f.lowToHigh {
        LacksAppend(p1, [Param("budget", f.budget.value.shown)], "high-to-low");
        SetAbsent(params.pairs, "high-to-low", "1");
        params.Set("high-to-low", "1");
      }
    }
  }

  /** The selected ingredients, then the allergen flag. */
  method WriteIngredientsAndAllergens(params: SearchParams, f: FilterForm)
    requires Lacks(params.pairs, "ingredients") && Lacks(params.pairs, "allergens")
    modifies params
    ensures params.pairs == old(params.pairs) + IngredientPairs(f) + AllergenPairs(f)
  {
    ghost var p0 := params.pairs;
    if |f.ingredients| > 0 {
      SetAbsent(params.pairs, "ingredients", JsText.Join(f.ingredients, ','));
      params.Set("ingredients", JsText.Join(f.ingredients, ','));
    }
    assert params.pairs == p0 + IngredientPairs(f);
    LacksAppend(p0, IngredientPairs(f), "allergens");
    if f.allergens {
      SetAbsent(params.pairs, "allergens", "1");
      params.Set("allergens", "1");
    }
  }

  /** The submit handler. It returns the rewritten query and, when that is
      not empty, the address it navigates to. */
  method OnSubmit(search: seq<Param>, f: FilterForm) returns (query: seq<Param>, target: Option<string>)
    requires |f.nutrientValues| == |Nutrients|
    ensures query == SubmitQuery(search, f)
    ensures target == if |query| > 0 then Some("/home?" + Serialize(query)) else None
  {
    var params := new SearchParams(search);
    DeleteResetKeys(params);
    NutrientsOk();
    WriteNutrients(params, Nutrients, f.nutrientValues);
    DropDrop(search, ResetKeys, NameSet(Nutrients));
    SubmitBaseLacks(Nutrients, search, f.nutrientValues);
    WriteFilterValues(params, f);
    query := params.pairs;
    if params.Size() > 0 {
      target := Some("/home?" + params.ToString());
    } else {
      target := None;
    }
  }

  /** Reading a name back from the nutrient pairs. */
  lemma {:induction false} NutrientPairsGet(names: seq<string>, values: seq<string>, i: nat)
    requires |names| == |values| && i < |names| && Distinct(names)
    ensures Get(NutrientPairs(names, values), names[i]) == if values[i] != "" then Some(values[i]) else None
  {
    var k := |names| - 1;
    var front := NutrientPairs(names[..k], values[..k]);
    var last: seq<Param> := if values[k] != "" then [Param(names[k], values[k])] else [];
    if i == k {
      assert names[k] !in names[..k];
      GetSkip(front, last, names[i]);
    } else {
      NutrientPairsGet(names[..k], values[..k], i);
      GetKeep(front, last, names[i]);
    }
  }

  lemma SubmitTitle(names: seq<string>, search: seq<Param>, f: FilterForm)
    requires |f.nutrientValues| == |names| && NamesOk(names)
    ensures Get(QueryOver(names, search, f), "title") == if f.title != "" then Some(f.title) else None
  {
    var an := Drop(search, (ResetKeys + NameSet(names))) + NutrientPairs(names, f.nutrientValues);
    var t, b, g, l := TitlePairs(f), BudgetPairs(f), IngredientPairs(f), AllergenPairs(f);
    SubmitBaseLacks(names, search, f.nutrientValues);
    GetKeep(an + t + b + g, l, "title");
    GetKeep(an + t + b, g, "title");
    GetKeep(an + t, b, "title");
    GetSkip(an, t, "title");
  }

  lemma SubmitBudget(names: seq<string>, search: seq<Param>, f: FilterForm)
    requires |f.nutrientValues| == |names| && NamesOk(names)
    ensures Get(QueryOver(names, search, f), "budget") == if BudgetOn(f) then Some(f.budget.value.shown) else None
    ensures Get(QueryOver(names, search, f), "high-to-low") == if BudgetOn(f) && !f.lowToHigh then Some("1") else None
  {
    var an := Drop(search, (ResetKeys + NameSet(names))) + NutrientPairs(names, f.nutrientValues);
    var t, b, g, l := TitlePairs(f), BudgetPairs(f), IngredientPairs(f), AllergenPairs(f);
    SubmitBaseLacks(names, search, f.nutrientValues);
    LacksAppend(an, t, "budget");
    LacksAppend(an, t, "high-to-low");
    GetKeep(an + t + b + g, l, "budget");
    GetKeep(an + t + b, g, "budget");
    GetSkip(an + t, b, "budget");
    GetKeep(an + t + b + g, l, "high-to-low");
    GetKeep(an + t + b, g, "high-to-low");
    GetSkip(an + t, b, "high-to-low");
  }

  lemma SubmitIngredients(names: seq<string>, search: seq<Param>, f: FilterForm)
    requires |f.nutrientValues| == |names| && NamesOk(names)
    ensures Get(QueryOver(names, search, f), "ingredients") ==
      if |f.ingredients| > 0 then Some(JsText.Join(f.ingredients, ',')) else None
  {
    var an := Drop(search, (ResetKeys + NameSet(names))) + NutrientPairs(names, f.nutrientValues);
    var t, b, g, l := TitlePairs(f), BudgetPairs(f), IngredientPairs(f), AllergenPairs(f);
    SubmitBaseLacks(names, search, f.nutrientValues);
    LacksAppend(an, t, "ingredients");
    LacksAppend(an + t, b, "ingredients");
    GetKeep(an + t + b + g, l, "ingredients");
    GetSkip(an + t + b, g, "ingredients");
  }

  lemma SubmitAllergens(names: seq<string>, search: seq<Param>, f: FilterForm)
    requires |f.nutrientValues| == |names| && NamesOk(names)
    ensures Get(QueryOver(names, search, f), "allergens") == if f.allergens then Some("1") else None
  {
    var an := Drop(search, (ResetKeys + NameSet(names))) + NutrientPairs(names, f.nutrientValues);
    var t, b, g, l := TitlePairs(f), BudgetPairs(f), IngredientPairs(f), AllergenPairs(f);
    SubmitBaseLacks(names, search, f.nutrientValues);
    LacksAppend(an, t, "allergens");
    LacksAppend(an + t, b, "allergens");
    LacksAppend(an + t + b, g, "allergens");
    GetSkip(an + t + b + g, l, "allergens");
  }

  lemma SubmitPage(names: seq<string>, search: seq<Param>, f: FilterForm)
    requires |f.nutrientValues| == |names| && NamesOk(names)
    ensures Get(QueryOver(names, search, f), "page") == None
  {
    var a := Drop(search, (ResetKeys + NameSet(names)));
    var n := NutrientPairs(names, f.nutrientValues);
    var t, b, g, l := TitlePairs(f), BudgetPairs(f), IngredientPairs(f), AllergenPairs(f);
    assert "page" in (ResetKeys + NameSet(names)) && "page" !in names;
    LacksAppend(a, n, "page");
    LacksAppend(a + n, t, "page");
    LacksAppend(a + n + t, b, "page");
    LacksAppend(a + n + t + b, g, "page");
    LacksAppend(a + n + t + b + g, l, "page");
  }

  lemma SubmitNutrient(names: seq<string>, search: seq<Param>, f: FilterForm, i: nat)
    requires |f.nutrientValues| == |names| && NamesOk(names) && i < |names|
    ensures Get(QueryOver(names, search, f), names[i]) == if f.nutrientValues[i] != "" then Some(f.nutrientValues[i]) else None
  {
    var a := Drop(search, (ResetKeys + NameSet(names)));
    var n := NutrientPairs(names, f.nutrientValues);
    var t, b, g, l := TitlePairs(f), BudgetPairs(f), IngredientPairs(f), AllergenPairs(f);
    var k := names[i];
    NutrientPairsGet(names, f.nutrientValues, i);
    assert k in (ResetKeys + NameSet(names)) && k !in ResetKeys;
    PiecesLack(f, k);
    GetKeep(a + n + t + b + g, l, k);
    GetKeep(a + n + t + b, g, k);
    GetKeep(a + n + t, b, k);
    GetKeep(a + n, t, k);
    GetSkip(a, n, k);
  }

  lemma SubmitKeepsOthers(names: seq<string>, search: seq<Param>, f: FilterForm)
    requires |f.nutrientValues| == |names| && NamesOk(names)
    ensures Drop(QueryOver(names, search, f), (ResetKeys + NameSet(names))) == Drop(search, (ResetKeys + NameSet(names)))
  {
    var ks := ResetKeys + NameSet(names);
    var a := Drop(search, ks);
    var n := NutrientPairs(names, f.nutrientValues);
    var t, b, g, l := TitlePairs(f), BudgetPairs(f), IngredientPairs(f), AllergenPairs(f);
    DropDrop(search, ks, ks);
    assert ks + ks == ks;
    assert ResetKeys <= ks;
    DropAllNamed(n, ks);
    DropAllNamed(t, ks);
    DropAllNamed(b, ks);
    DropAllNamed(g, ks);
    DropAllNamed(l, ks);
    DropAppend(a, n, ks);
    DropAppend(a + n, t, ks);
    DropAppend(a + n + t, b, ks);
    DropAppend(a + n + t + b, g, ks);
    DropAppend(a + n + t + b + g, l, ks);
  }

  /** What a submit writes under the filter-value keys: each value is read
      back from the new query exactly when it is written, and `page` is
      gone. */
  lemma SubmitWritesFilterValues(search: seq<Param>, f: FilterForm)
    requires |f.nutrientValues| == |Nutrients|
    ensures Get(SubmitQuery(search, f), "title") == if f.title != "" then Some(f.title) else None
    ensures Get(SubmitQuery(search, f), "budget") == if BudgetOn(f) then Some(f.budget.value.shown) else None
    ensures Get(SubmitQuery(search, f), "high-to-low") == if BudgetOn(f) && !f.lowToHigh then Some("1") else None
    ensures Get(SubmitQuery(search, f), "ingredients") ==
      if |f.ingredients| > 0 then Some(JsText.Join(f.ingredients, ',')) else None
    ensures Get(SubmitQuery(search, f), "allergens") == if f.allergens then Some("1") else None
    ensures Get(SubmitQuery(search, f), "page") == None
  {
    NutrientsOk();
    SubmitTitle(Nutrients, search, f);
    SubmitBudget(Nutrients, search, f);
    SubmitIngredients(Nutrients, search, f);
    SubmitAllergens(Nutrients, search, f);
    SubmitPage(Nutrients, search, f);
  }

  /** Each nutrient is read back from the new query exactly when its value
      is not empty. */
  lemma SubmitWritesNutrients(search: seq<Param>, f: FilterForm, i: nat)
    requires |f.nutrientValues| == |Nutrients| && i < |Nutrients|
    ensures Get(SubmitQuery(search, f), Nutrients[i]) ==
      if f.nutrientValues[i] != "" then Some(f.nutrientValues[i]) else None
  {
    NutrientsOk();
    SubmitNutrient(Nutrients, search, f, i);
  }

  /** The pairs under every key a submit does not manage, `auto-filter`
      among them, are kept in their order. */
  lemma SubmitKeepsOtherKeys(search: seq<Param>, f: FilterForm)
    requires |f.nutrientValues| == |Nutrients|
    ensures Drop(SubmitQuery(search, f), SubmitKeys()) == Drop(search, SubmitKeys())
  {
    NutrientsOk();
    SubmitKeepsOthers(Nutrients, search, f);
  }

  /** `auto-filter` is not among the keys a submit manages. */
  lemma AutoFilterKeptBySubmit()
    ensures "auto-filter" !in SubmitKeys()
  {
    assert "auto-filter" !in Nutrients;
  }

  // ------------------------------------------------------------ auto filter

  /** The query the automatic-filter button produces. */
  function AutoFilterQuery(search: seq<Param>): seq<Param> {
    SetParam(Drop(search, ResetKeys), "auto-filter", "1")
  }

  /** The automatic-filter handler: it always navigates. */
  method HandleAutoFilter(search: seq<Param>) returns (query: seq<Param>, target: string)
    ensures query == AutoFilterQuery(search)
    ensures target == "/home?" + Serialize(query)
  {
    var params := new SearchParams(search);
    DeleteResetKeys(params);
    params.Set("auto-filter", "1");
    query := params.pairs;
    target := "/home?" + params.ToString();
  }

  /** The automatic filter turns `auto-filter` on. */
  lemma AutoFilterSets(search: seq<Param>)
    ensures Get(AutoFilterQuery(search), "auto-filter") == Some("1")
  {
    SetParamFacts(Drop(search, ResetKeys), "auto-filter", "1");
  }

  /** The automatic filter clears the six keys. */
  lemma AutoFilterClears(search: seq<Param>, k: string)
    requires k in ResetKeys
    ensures Get(AutoFilterQuery(search), k) == None
  {
    AutoFilterKeptBySubmit();
    DropHasName(search, ResetKeys, k);
    SetParamOthers(Drop(search, ResetKeys), "auto-filter", "1", k);
  }

  /** Unlike a submit, the automatic filter keeps every nutrient key as it
      was. */
  lemma AutoFilterKeepsNutrients(search: seq<Param>, i: nat)
    requires i < |Nutrients|
    ensures Get(AutoFilterQuery(search), Nutrients[i]) == Get(search, Nutrients[i])
  {
    NutrientsOk();
    AutoFilterKeptBySubmit();
    var k := Nutrients[i];
    assert k != "auto-filter" && k !in ResetKeys;
    SetParamOthers(Drop(search, ResetKeys), "auto-filter", "1", k);
    GetDrop(search, ResetKeys, k);
  }

  // --------------------------------------------------------------- defaults

  /** The ingredient list read from the `ingredients` entry: none, or an
      empty one, gives no ingredients. */
  function IngredientDefaults(entry: Option<string>): seq<string> {
    if entry.None? || entry.value == "" then [] else JsText.Split(entry.value, ',')
  }

  /** The form's defaults, read from the query. The budget is not read
      back and the order starts as low-to-high. */
  function Defaults(search: seq<Param>): (r: FilterForm)
    ensures |r.nutrientValues| == |Nutrients|
  {
    FilterForm(
      Get(search, "title").GetOr(""),
      None,
      true,
      IngredientDefaults(Get(search, "ingredients")),
      seq(|Nutrients|, i requires 0 <= i < |Nutrients| => Get(search, Nutrients[i]).GetOr("")),
      Get(search, "allergens") == Some("1"))
  }

  /** Reopening the filter on the query a submit produced gives back the
      title, every nutrient value and the allergen box, and the ingredient
      list too when no ingredient holds a comma and the list is not the
      single empty name. */
  lemma DefaultsAfterSubmit(search: seq<Param>, f: FilterForm)
    requires |f.nutrientValues| == |Nutrients|
    ensures Defaults(SubmitQuery(search, f)).title == f.title
    ensures Defaults(SubmitQuery(search, f)).nutrientValues == f.nutrientValues
    ensures Defaults(SubmitQuery(search, f)).allergens == f.allergens
    ensures (forall i :: 0 <= i < |f.ingredients| ==> ',' !in f.ingredients[i]) && f.ingredients != [""] ==>
      Defaults(SubmitQuery(search, f)).ingredients == f.ingredients
  {
    var q := SubmitQuery(search, f);
    SubmitWritesFilterValues(search, f);
    var d := Defaults(q);
    forall i | 0 <= i < |Nutrients|
      ensures d.nutrientValues[i] == f.nutrientValues[i]
    {
      SubmitWritesNutrients(search, f, i);
    }
    if (forall i :: 0 <= i < |f.ingredients| ==> ',' !in f.ingredients[i]) && f.ingredients != [""] {
      if |f.ingredients| > 0 {
        JsText.JoinEmpty(f.ingredients, ',');
        JsText.SplitJoin(f.ingredients, ',');
      }
    }
  }

  /** A single empty ingredient name is the exception: it is written as an
      empty `ingredients` entry, which reads back as no ingredients. */
  lemma EmptyIngredientIsLost(search: seq<Param>, f: FilterForm)
    requires |f.nutrientValues| == |Nutrients| && f.ingredients == [""]
    ensures Get(SubmitQuery(search, f), "ingredients") == Some("")
    ensures Defaults(SubmitQuery(search, f)).ingredients == []
  {
    SubmitWritesFilterValues(search, f);
  }
}
