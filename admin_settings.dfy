/**
 * The selection logic of the administrator settings page: which menu item is active, how the
 * settings of that item are grouped by category, the global search, the favourites list and
 * the choice of the view to show.
 *
 * The menu (`MENU_SECTIONS`), the settings fetched from the server, the favourites and the
 * translation function `t(key, default)` are defined elsewhere; here they are parameters.
 */
module AdminSettings {
  import opened Wrappers
  import opened Seqs
  import opened Text
  import KeyFormat

  datatype Category = Category(key: string)

  datatype Hint = Hint(description: Option<string>)

  /** The fields of a setting definition that the page reads. */
  datatype SettingDefinition = SettingDefinition(
    key: string,
    name: Option<string>,
    category: Category,
    hint: Option<Hint>)

  /** A menu entry; `categories` are the setting categories it shows, if it shows any. */
  datatype MenuItem = MenuItem(id: string, categories: Option<seq<string>>)

  datatype MenuSection = MenuSection(id: string, items: seq<MenuItem>)

  datatype CategoryGroup = CategoryGroup(key: string, labelText: string, settings: seq<SettingDefinition>)

  /** `t(key, default)`: the translation of `key`, or whatever the translation layer returns. */
  type Translate = (string, string) -> string

  // ---------------------------------------------------------------------------------------
  // Menu lookup: `currentMenuItem`

  /** `items.find(i => i.id === id)`. */
  function FindItem(items: seq<MenuItem>, id: string): (r: Option<MenuItem>)
    ensures r.None? <==> forall k :: 0 <= k < |items| ==> items[k].id != id
    ensures r.Some? ==> r.value in items && r.value.id == id
  {
    if items == [] then None
    else if items[0].id == id then Some(items[0])
    else FindItem(items[1..], id)
  }

  /** The item `find` returns is the first one with that id. */
  lemma {:induction false} FindItemIsFirst(items: seq<MenuItem>, id: string)
    ensures FindItem(items, id).Some? ==> exists k :: FirstWithId(items, id, k) && items[k] == FindItem(items, id).value
  {
    if items != [] && items[0].id == id {
      assert FirstWithId(items, id, 0);
    } else if items != [] && FindItem(items, id).Some? {
      FindItemIsFirst(items[1..], id);
      var k :| FirstWithId(items[1..], id, k) && items[1..][k] == FindItem(items, id).value;
      assert FirstWithId(items, id, k + 1);
    }
  }

  /** `items[k]` is the first item whose id is `id`. */
  ghost predicate FirstWithId(items: seq<MenuItem>, id: string, k: int)
  {
    0 <= k < |items| && items[k].id == id && forall j :: 0 <= j < k ==> items[j].id != id
  }

  /** Every menu item, section after section. */
  function AllItems(sections: seq<MenuSection>): seq<MenuItem>
  {
    if sections == [] then [] else sections[0].items + AllItems(sections[1..])
  }

  /** The menu item the page shows for `activeSection`: the section-by-section scan. */
  function MenuLookup(sections: seq<MenuSection>, activeSection: string): (r: Option<MenuItem>)
    ensures r.None? <==>
      forall i, k :: 0 <= i < |sections| && 0 <= k < |sections[i].items| ==> sections[i].items[k].id != activeSection
    ensures r.Some? ==> r.value in AllItems(sections) && r.value.id == activeSection
  {
    if sections == [] then None
    else
      match FindItem(sections[0].items, activeSection)
      case Some(item) => Some(item)
      case None => MenuLookup(sections[1..], activeSection)
  }

  /** `currentMenuItem`: scans the sections in order and returns the first match in one. */
  method CurrentMenuItem(sections: seq<MenuSection>, activeSection: string) returns (r: Option<MenuItem>)
    ensures r == MenuLookup(sections, activeSection)
  {
    for s := 0 to |sections|
      invariant MenuLookup(sections, activeSection) == MenuLookup(sections[s..], activeSection)
    {
      assert sections[s..][1..] == sections[s + 1..];
      var item := FindItem(sections[s].items, activeSection);
      if item.Some? {
        return item;
      }
    }
    return None;
  }

  lemma {:induction false} FindItemAppend(a: seq<MenuItem>, b: seq<MenuItem>, id: string)
    ensures FindItem(a + b, id) == if FindItem(a, id).Some? then FindItem(a, id) else FindItem(b, id)
  {
    if a != [] {
      assert (a + b)[1..] == a[1..] + b;
      FindItemAppend(a[1..], b, id);
    } else {
      assert a + b == b;
    }
  }

  /**
   * The section-by-section scan finds the first item with the active id in the menu read
   * top to bottom, and nothing exactly when no item has that id.
   */
  lemma {:induction false} MenuLookupIsFirstMatch(sections: seq<MenuSection>, activeSection: string)
    ensures MenuLookup(sections, activeSection) == FindItem(AllItems(sections), activeSection)
  {
    if sections != [] {
      MenuLookupIsFirstMatch(sections[1..], activeSection);
      FindItemAppend(sections[0].items, AllItems(sections[1..]), activeSection);
    }
  }

  // ---------------------------------------------------------------------------------------
  // Category grouping: `currentCategories`

  /**
   * The categories of `settings` that `allowed` lists, each once, in the order in which
   * they first occur: the insertion order of the page's `Map`.
   */
  function CategoryOrder(settings: seq<SettingDefinition>, allowed: seq<string>): seq<string>
  {
    if settings == [] then []
    else
      var order := CategoryOrder(settings[..|settings| - 1], allowed);
      var key := settings[|settings| - 1].category.key;
      if key in allowed && key !in order then order + [key] else order
  }

  /** The settings of category `key`, in input order. */
  function InCategory(settings: seq<SettingDefinition>, key: string): seq<SettingDefinition>
  {
    Filter(settings, (s: SettingDefinition) => s.category.key == key)
  }

  /** `t(`admin.settings.categories.${key}`, key)`. */
  function CategoryLabel(t: Translate, key: string): string
  {
    t("admin.settings.categories." + key, key)
  }

  /** One group per key of `keys`, holding the settings of that category. */
  function GroupsFor(keys: seq<string>, settings: seq<SettingDefinition>, t: Translate): (gs: seq<CategoryGroup>)
    ensures |gs| == |keys|
  {
    seq(|keys|, j requires 0 <= j < |keys| => CategoryGroup(keys[j], CategoryLabel(t, keys[j]), InCategory(settings, keys[j])))
  }

  /** What `currentCategories` evaluates to. */
  function Categories(current: Option<MenuItem>, allSettings: Option<seq<SettingDefinition>>, t: Translate)
    : (gs: seq<CategoryGroup>)
    ensures current.None? || current.value.categories.None? || allSettings.None? ==> gs == []
    ensures forall g :: 0 <= g < |gs| ==>
      && allSettings.Some?
      && gs[g].labelText == CategoryLabel(t, gs[g].key)
      && gs[g].settings == InCategory(allSettings.value, gs[g].key)
  {
    if current.None? || current.value.categories.None? || allSettings.None? then []
    else GroupsFor(CategoryOrder(allSettings.value, current.value.categories.value), allSettings.value, t)
  }

  /** `currentCategories`: buckets the settings of the allowed categories in a map. */
  method CurrentCategories(current: Option<MenuItem>, allSettings: Option<seq<SettingDefinition>>, t: Translate)
    returns (groups: seq<CategoryGroup>)
    ensures groups == Categories(current, allSettings, t)
  {
    if current.None? || current.value.categories.None? || allSettings.None? {
      return [];
    }
    var allowed := current.value.categories.value;
    var settings := allSettings.value;
    var keys: seq<string> := [];  // the keys of the map, in insertion order
    var categoryMap: map<string, seq<SettingDefinition>> := map[];
    for i := 0 to |settings|
      invariant keys == CategoryOrder(settings[..i], allowed)
      invariant forall k :: k in categoryMap <==> k in keys
      invariant forall k :: k in categoryMap ==> k in allowed && categoryMap[k] == InCategory(settings[..i], k)
    {
      var setting := settings[i];
      var key := setting.category.key;
      assert settings[..i + 1] == settings[..i] + [setting];
      forall k ensures InCategory(settings[..i + 1], k) == InCategory(settings[..i], k) + (if key == k then [setting] else []) {
        FilterSnoc(settings[..i], setting, (s: SettingDefinition) => s.category.key == k);
      }
      if key in allowed {
        if key !in categoryMap {
          CategoryOrderMembers(settings[..i], allowed);
          assert !HasCategory(settings[..i], key);
          InCategoryEmpty(settings[..i], key);
          categoryMap := categoryMap[key := []];
          keys := keys + [key];
        }
        categoryMap := categoryMap[key := categoryMap[key] + [setting]];
      }
    }
    assert settings[..|settings|] == settings;
    groups := seq(|keys|, j requires 0 <= j < |keys| => CategoryGroup(keys[j], CategoryLabel(t, keys[j]), categoryMap[keys[j]]));
  }

  /** Some setting of `settings` has category `key`. */
  ghost predicate HasCategory(settings: seq<SettingDefinition>, key: string)
  {
    exists i :: 0 <= i < |settings| && settings[i].category.key == key
  }

  /** Some setting before position `j` has category `key`. */
  ghost predicate HasCategoryBefore(settings: seq<SettingDefinition>, key: string, j: int)
  {
    exists i :: 0 <= i < j && i < |settings| && settings[i].category.key == key
  }

  /** No key occurs twice. */
  ghost predicate Distinct(keys: seq<string>)
  {
    forall a, b :: 0 <= a < b < |keys| ==> keys[a] != keys[b]
  }

  /** When `order[a]` comes before `order[b]`, every setting of category `order[b]` has a
      setting of category `order[a]` before it. */
  ghost predicate OrderedByFirstAppearance(settings: seq<SettingDefinition>, order: seq<string>)
  {
    forall a, b, j :: 0 <= a < b < |order| && 0 <= j < |settings| && settings[j].category.key == order[b] ==>
      HasCategoryBefore(settings, order[a], j)
  }

  /** A key is in the order exactly when it is allowed and some setting has it. */
  lemma {:induction false} CategoryOrderMembers(settings: seq<SettingDefinition>, allowed: seq<string>)
    ensures forall k :: k in CategoryOrder(settings, allowed) <==> k in allowed && HasCategory(settings, k)
  {
    if settings != [] {
      var n := |settings| - 1;
      var init := settings[..n];
      CategoryOrderMembers(init, allowed);
      forall k ensures HasCategory(settings, k) <==> HasCategory(init, k) || settings[n].category.key == k {
        if HasCategory(settings, k) {
          var i :| 0 <= i < |settings| && settings[i].category.key == k;
          if i < n { assert init[i].category.key == k; }
        }
        if HasCategory(init, k) {
          var i :| 0 <= i < |init| && init[i].category.key == k;
          assert settings[i].category.key == k;
        }
      }
    }
  }

  lemma InCategoryEmpty(settings: seq<SettingDefinition>, key: string)
    requires !HasCategory(settings, key)
    ensures InCategory(settings, key) == []
  {
    FilterNone(settings, (s: SettingDefinition) => s.category.key == key);
  }

  /** No key occurs twice in the order. */
  lemma {:induction false} CategoryOrderDistinct(settings: seq<SettingDefinition>, allowed: seq<string>)
    ensures Distinct(CategoryOrder(settings, allowed))
  {
    if settings != [] {
      var n := |settings| - 1;
      var order' := CategoryOrder(settings[..n], allowed);
      CategoryOrderDistinct(settings[..n], allowed);
      var key := settings[n].category.key;
      if key in allowed && key !in order' {
        var order := order' + [key];
        forall a, b | 0 <= a < b < |order| ensures order[a] != order[b] {
          assert order[a] == order'[a];
          if b < |order'| { assert order[b] == order'[b]; }
        }
      }
    }
  }

  /** The groups are ordered by the first appearance of their category in the input. */
  lemma {:induction false} CategoryOrderByFirstAppearance(settings: seq<SettingDefinition>, allowed: seq<string>)
    ensures OrderedByFirstAppearance(settings, CategoryOrder(settings, allowed))
  {
    if settings != [] {
      var n := |settings| - 1;
      var init := settings[..n];
      var order := CategoryOrder(settings, allowed);
      var order' := CategoryOrder(init, allowed);
      CategoryOrderByFirstAppearance(init, allowed);
      CategoryOrderMembers(init, allowed);
      CategoryOrderMembers(settings, allowed);
      CategoryOrderDistinct(settings, allowed);
      assert |order'| <= |order| <= |order'| + 1 && order[..|order'|] == order';
      forall a, b, j | 0 <= a < b < |order| && 0 <= j < |settings| && settings[j].category.key == order[b]
        ensures HasCategoryBefore(settings, order[a], j)
      {
        FirstAppearanceStep(settings, allowed, order', order, a, b, j);
      }
    }
  }

  /** One step of the induction above: the input grows by its last setting. */
  lemma FirstAppearanceStep(settings: seq<SettingDefinition>, allowed: seq<string>,
                            order': seq<string>, order: seq<string>, a: int, b: int, j: int)
    requires settings != []
    requires |order'| <= |order| <= |order'| + 1 && order[..|order'|] == order'
    requires Distinct(order)
    requires forall k :: k in order' <==> k in allowed && HasCategory(settings[..|settings| - 1], k)
    requires forall k :: k in order ==> k in allowed
    requires OrderedByFirstAppearance(settings[..|settings| - 1], order')
    requires 0 <= a < b < |order| && 0 <= j < |settings| && settings[j].category.key == order[b]
    ensures HasCategoryBefore(settings, order[a], j)
  {
    var n := |settings| - 1;
    var init := settings[..n];
    assert order[b] in order;
    if j < n {
      assert init[j].category.key == order[b];
      assert HasCategory(init, order[b]);
      var b' :| 0 <= b' < |order'| && order'[b'] == order[b];
      assert order[b'] == order[b];
      assert order'[a] == order[a];
      assert HasCategoryBefore(init, order'[a], j);
      var i :| 0 <= i < j && i < |init| && init[i].category.key == order'[a];
      assert settings[i].category.key == order[a];
    } else if b < |order'| {
      assert order'[b] == order[b];
      assert order[b] in order';
      assert HasCategory(init, order[b]);
      var j' :| 0 <= j' < |init| && init[j'].category.key == order[b];
      assert order'[a] == order[a];
      assert HasCategoryBefore(init, order'[a], j');
      var i :| 0 <= i < j' && i < |init| && init[i].category.key == order'[a];
      assert settings[i].category.key == order[a];
    } else {
      assert order[a] == order'[a];
      assert order[a] in order';
      var i :| 0 <= i < |init| && init[i].category.key == order[a];
      assert settings[i].category.key == order[a];
    }
  }

  /** The settings of all groups, group after group. */
  function Flatten(groups: seq<CategoryGroup>): seq<SettingDefinition>
  {
    if groups == [] then [] else Flatten(groups[..|groups| - 1]) + groups[|groups| - 1].settings
  }

  /** For distinct keys, the groups together hold exactly the settings of those categories. */
  lemma {:induction false} GroupsForPartition(keys: seq<string>, settings: seq<SettingDefinition>, t: Translate)
    requires Distinct(keys)
    ensures multiset(Flatten(GroupsFor(keys, settings, t))) ==
      multiset(Filter(settings, (s: SettingDefinition) => s.category.key in keys))
  {
    if keys == [] {
      FilterNone(settings, (s: SettingDefinition) => s.category.key in keys);
    } else {
      var n := |keys| - 1;
      var init := keys[..n];
      GroupsForPartition(init, settings, t);
      assert GroupsFor(keys, settings, t)[..n] == GroupsFor(init, settings, t);
      assert keys[n] !in init;
      FilterSplit(settings,
        (s: SettingDefinition) => s.category.key in init,
        (s: SettingDefinition) => s.category.key == keys[n],
        (s: SettingDefinition) => s.category.key in keys);
    }
  }

  /** The keys of the groups, in order. */
  function GroupKeys(groups: seq<CategoryGroup>): (keys: seq<string>)
    ensures |keys| == |groups|
  {
    seq(|groups|, g requires 0 <= g < |groups| => groups[g].key)
  }

  /**
   * The groups of `currentCategories`: none when the item lists no categories or the
   * settings are absent; otherwise the group keys are allowed categories, none twice, in order
   * of first appearance in the input, each labelled by its translated name.
   */
  lemma CategoriesKeys(current: Option<MenuItem>, allSettings: Option<seq<SettingDefinition>>, t: Translate)
    ensures current.None? || current.value.categories.None? || allSettings.None? ==> Categories(current, allSettings, t) == []
    ensures current.Some? && current.value.categories.Some? && allSettings.Some? ==>
      var gs := Categories(current, allSettings, t);
      && (forall g :: 0 <= g < |gs| ==> gs[g].key in current.value.categories.value)
      && Distinct(GroupKeys(gs))
      && OrderedByFirstAppearance(allSettings.value, GroupKeys(gs))
      && (forall g :: 0 <= g < |gs| ==> gs[g].labelText == CategoryLabel(t, gs[g].key))
  {
    if current.Some? && current.value.categories.Some? && allSettings.Some? {
      var gs := Categories(current, allSettings, t);
      var order := CategoryOrder(allSettings.value, current.value.categories.value);
      CategoryOrderMembers(allSettings.value, current.value.categories.value);
      CategoryOrderDistinct(allSettings.value, current.value.categories.value);
      CategoryOrderByFirstAppearance(allSettings.value, current.value.categories.value);
      assert GroupKeys(gs) == order;
      forall g | 0 <= g < |gs| ensures gs[g].key in current.value.categories.value {
        assert gs[g].key == order[g];
      }
    }
  }

  /** Each group holds, in input order, exactly the settings of its category, and at least one. */
  lemma CategoriesMembers(current: Option<MenuItem>, allSettings: Option<seq<SettingDefinition>>, t: Translate, g: int)
    requires 0 <= g < |Categories(current, allSettings, t)|
    ensures current.Some? && current.value.categories.Some? && allSettings.Some?
    ensures var group := Categories(current, allSettings, t)[g];
      && group.settings != []
      && IsSubsequence(group.settings, allSettings.value)
      && forall x :: multiset(group.settings)[x] ==
           if x.category.key == group.key then multiset(allSettings.value)[x] else 0
  {
    var settings := allSettings.value;
    var allowed := current.value.categories.value;
    var order := CategoryOrder(settings, allowed);
    var p := (s: SettingDefinition) => s.category.key == order[g];
    FilterMultiset(settings, p);
    FilterIsSubsequence(settings, p);
    CategoryOrderMembers(settings, allowed);
    assert order[g] in order;
    var i :| 0 <= i < |settings| && settings[i].category.key == order[g];
    assert multiset(settings)[settings[i]] > 0;
  }

  /** Together the groups are a permutation of the settings whose category the item allows. */
  lemma CategoriesPermutation(current: Option<MenuItem>, allSettings: Option<seq<SettingDefinition>>, t: Translate)
    requires current.Some? && current.value.categories.Some? && allSettings.Some?
    ensures multiset(Flatten(Categories(current, allSettings, t))) ==
      multiset(Filter(allSettings.value, (s: SettingDefinition) => s.category.key in current.value.categories.value))
  {
    var settings := allSettings.value;
    var allowed := current.value.categories.value;
    var order := CategoryOrder(settings, allowed);
    CategoryOrderMembers(settings, allowed);
    CategoryOrderDistinct(settings, allowed);
    GroupsForPartition(order, settings, t);
    forall i | 0 <= i < |settings| ensures (settings[i].category.key in order) == (settings[i].category.key in allowed) {
      assert HasCategory(settings, settings[i].category.key);
    }
    FilterCongruent(settings,
      (s: SettingDefinition) => s.category.key in order,
      (s: SettingDefinition) => s.category.key in allowed);
  }

  // ---------------------------------------------------------------------------------------
  // Global search: `filteredSettings`

  /** The search query as it is compared: `searchQuery.toLowerCase().trim()`. */
  function NormalizeQuery(searchQuery: string): (q: string)
    ensures q == "" <==> Trim(searchQuery) == ""
  {
    TrimEmptyIgnoresCase(searchQuery);
    Trim(ToLower(searchQuery))
  }

  /** `formatSettingKey(s.name || s.key)`. */
  function DisplayKey(s: SettingDefinition): string
  {
    KeyFormat.FormatSettingKey(if s.name.Some? && s.name.value != "" then s.name.value else s.key)
  }

  /** `t(`admin.settings.settingNames.${formattedKey}`, formattedKey)`. */
  function TranslatedName(s: SettingDefinition, t: Translate): string
  {
    t("admin.settings.settingNames." + DisplayKey(s), DisplayKey(s))
  }

  /** The five places the query is looked for, each lower-cased. The empty query would match
      every setting, which is why the search gives up on a blank query first. */
  predicate Matches(s: SettingDefinition, q: string, t: Translate)
    ensures q == "" ==> Matches(s, q, t)
  {
    || Contains(ToLower(s.key), q)
    || (s.name.Some? && Contains(ToLower(s.name.value), q))
    || Contains(ToLower(TranslatedName(s, t)), q)
    || (s.hint.Some? && s.hint.value.description.Some? && Contains(ToLower(s.hint.value.description.value), q))
    || Contains(ToLower(CategoryLabel(t, s.category.key)), q)
  }

  /**
   * `filteredSettings`: nothing when the settings are absent or the query is empty or blank;
   * otherwise, in input order, every setting that matches the normalised query, as often as
   * it occurs, and no other.
   */
  function FilteredSettings(allSettings: Option<seq<SettingDefinition>>, searchQuery: string, t: Translate)
    : (r: seq<SettingDefinition>)
    ensures allSettings.None? || NormalizeQuery(searchQuery) == "" ==> r == []
    ensures allSettings.Some? ==> IsSubsequence(r, allSettings.value)
    ensures allSettings.Some? && NormalizeQuery(searchQuery) != "" ==>
      forall x :: multiset(r)[x] ==
        if Matches(x, NormalizeQuery(searchQuery), t) then multiset(allSettings.value)[x] else 0
  {
    if allSettings.None? || searchQuery == "" then
      (if allSettings.Some? then assert IsSubsequence([], allSettings.value); [] else [])
    else
      var q := NormalizeQuery(searchQuery);
      if q == "" then
        assert IsSubsequence([], allSettings.value);
        []
      else
        var p := (s: SettingDefinition) => Matches(s, q, t);
        FilterIsSubsequence(allSettings.value, p);
        FilterMultiset(allSettings.value, p);
        Filter(allSettings.value, p)
  }

  /** A setting is found exactly when it is one of the settings and the query occurs in its key,
      name, translated name, description or category label. */
  lemma SearchFinds(allSettings: seq<SettingDefinition>, searchQuery: string, t: Translate, x: SettingDefinition)
    requires NormalizeQuery(searchQuery) != ""
    ensures x in FilteredSettings(Some(allSettings), searchQuery, t) <==>
      x in allSettings && Matches(x, NormalizeQuery(searchQuery), t)
  {
    var r := FilteredSettings(Some(allSettings), searchQuery, t);
    assert x in r <==> multiset(r)[x] > 0;
    assert x in allSettings <==> multiset(allSettings)[x] > 0;
  }

  /** Extending the query can only narrow the results: whatever the longer query finds, the
      shorter one found too, in the same order. */
  lemma SearchNarrows(allSettings: Option<seq<SettingDefinition>>, shorter: string, longer: string, t: Translate)
    requires NormalizeQuery(shorter) != ""
    requires Contains(NormalizeQuery(longer), NormalizeQuery(shorter))
    ensures IsSubsequence(FilteredSettings(allSettings, longer, t), FilteredSettings(allSettings, shorter, t))
  {
    if allSettings.Some? {
      var q1, q2 := NormalizeQuery(shorter), NormalizeQuery(longer);
      assert longer != "";
      var settings := allSettings.value;
      forall i | 0 <= i < |settings| && Matches(settings[i], q2, t) ensures Matches(settings[i], q1, t) {
        var s := settings[i];
        if Contains(ToLower(s.key), q2) {
          ContainsTransitive(ToLower(s.key), q2, q1);
        } else if s.name.Some? && Contains(ToLower(s.name.value), q2) {
          ContainsTransitive(ToLower(s.name.value), q2, q1);
        } else if Contains(ToLower(TranslatedName(s, t)), q2) {
          ContainsTransitive(ToLower(TranslatedName(s, t)), q2, q1);
        } else if s.hint.Some? && s.hint.value.description.Some? && Contains(ToLower(s.hint.value.description.value), q2) {
          ContainsTransitive(ToLower(s.hint.value.description.value), q2, q1);
        } else {
          ContainsTransitive(ToLower(CategoryLabel(t, s.category.key)), q2, q1);
        }
      }
      FilterNarrows(settings, (s: SettingDefinition) => Matches(s, q2, t), (s: SettingDefinition) => Matches(s, q1, t));
    } else {
      assert FilteredSettings(allSettings, longer, t) == [];
    }
  }

  // ---------------------------------------------------------------------------------------
  // Favourites: `favoriteSettings`

  /**
   * `favoriteSettings`: nothing when the settings are absent; otherwise, in the order of the
   * settings (not of the favourites), every setting whose key is a favourite, and no other.
   */
  function FavoriteSettings(allSettings: Option<seq<SettingDefinition>>, favorites: seq<string>): (r: seq<SettingDefinition>)
    ensures allSettings.None? ==> r == []
    ensures allSettings.Some? ==> IsSubsequence(r, allSettings.value)
    ensures allSettings.Some? ==>
      forall x :: multiset(r)[x] == if x.key in favorites then multiset(allSettings.value)[x] else 0
  {
    match allSettings
    case None => []
    case Some(settings) =>
      var p := (s: SettingDefinition) => s.key in favorites;
      FilterIsSubsequence(settings, p);
      FilterMultiset(settings, p);
      Filter(settings, p)
  }

  /** Only which keys are favourites matters, not their order or repetition in the list. */
  lemma FavoritesIgnoreListOrder(allSettings: Option<seq<SettingDefinition>>, f1: seq<string>, f2: seq<string>)
    requires forall k :: k in f1 <==> k in f2
    ensures FavoriteSettings(allSettings, f1) == FavoriteSettings(allSettings, f2)
  {
    if allSettings.Some? {
      FilterCongruent(allSettings.value, (s: SettingDefinition) => s.key in f1, (s: SettingDefinition) => s.key in f2);
    }
  }

  // ---------------------------------------------------------------------------------------
  // View dispatch: `renderContent`

  /** The component `renderContent` returns, with the data it passes. */
  datatype View =
    | SettingsTab(categories: seq<CategoryGroup>, searchQuery: string, filteredSettings: seq<SettingDefinition>)
    | BrandingTab(accentColor: Option<string>)
    | ThemeTab
    | FavoritesTab(settings: seq<SettingDefinition>)
    | Nothing

  /** The page state `renderContent` reads. */
  datatype Page = Page(
    activeSection: string,
    searchQuery: string,
    favorites: seq<string>,
    allSettings: Option<seq<SettingDefinition>>,
    accentColor: Option<string>)

  /** The sections shown as category settings. */
  const SettingsSections: seq<string> :=
    ["payments", "subscriptions", "interface", "notifications", "database", "system", "users"]

  /** `renderContent()`. */
  function RenderContent(menu: seq<MenuSection>, page: Page, t: Translate): (v: View)
    ensures v.SettingsTab? ==>
      && v.searchQuery == page.searchQuery
      && v.filteredSettings == FilteredSettings(page.allSettings, page.searchQuery, t)
    ensures v.SettingsTab? && v.categories != [] ==>
      Trim(page.searchQuery) == "" && page.activeSection in SettingsSections
    ensures v.BrandingTab? ==> v.accentColor == page.accentColor
    ensures v.FavoritesTab? ==> v.settings == FavoriteSettings(page.allSettings, page.favorites)
  {
    if Trim(page.searchQuery) != "" then
      SettingsTab([], page.searchQuery, FilteredSettings(page.allSettings, page.searchQuery, t))
    else if page.activeSection == "branding" then BrandingTab(page.accentColor)
    else if page.activeSection == "theme" then ThemeTab
    else if page.activeSection == "favorites" then FavoritesTab(FavoriteSettings(page.allSettings, page.favorites))
    else if page.activeSection in SettingsSections then
      SettingsTab(
        Categories(MenuLookup(menu, page.activeSection), page.allSettings, t),
        page.searchQuery,
        FilteredSettings(page.allSettings, page.searchQuery, t))
    else Nothing
  }

  /** A non-blank query shows the search results, whatever section is active. */
  lemma SearchOverridesSection(menu: seq<MenuSection>, page: Page, t: Translate, section: string)
    requires Trim(page.searchQuery) != ""
    ensures RenderContent(menu, page.(activeSection := section), t) == RenderContent(menu, page, t)
    ensures RenderContent(menu, page, t) ==
      SettingsTab([], page.searchQuery, FilteredSettings(page.allSettings, page.searchQuery, t))
  {
  }

  /**
   * Without a query, the section decides: branding, theme and favourites have their own views,
   * and the seven category sections show their groups with no search results.
   */
  lemma SectionViews(menu: seq<MenuSection>, page: Page, t: Translate)
    requires Trim(page.searchQuery) == ""
    ensures page.activeSection == "branding" ==> RenderContent(menu, page, t) == BrandingTab(page.accentColor)
    ensures page.activeSection == "theme" ==> RenderContent(menu, page, t) == ThemeTab
    ensures page.activeSection == "favorites" ==>
      RenderContent(menu, page, t) == FavoritesTab(FavoriteSettings(page.allSettings, page.favorites))
    ensures page.activeSection in SettingsSections ==>
      RenderContent(menu, page, t) ==
        SettingsTab(Categories(MenuLookup(menu, page.activeSection), page.allSettings, t), page.searchQuery, [])
  {
    TrimEmptyIgnoresCase(page.searchQuery);
  }

  /** The sections that have a view. */
  const KnownSections: seq<string> := ["branding", "theme", "favorites"] + SettingsSections

  /** Nothing is shown exactly when there is no query and the section has no view. */
  lemma NothingForUnknownSection(menu: seq<MenuSection>, page: Page, t: Translate)
    ensures RenderContent(menu, page, t) == Nothing <==>
      Trim(page.searchQuery) == "" && page.activeSection !in KnownSections
  {
    var section := page.activeSection;
    assert section in KnownSections <==>
      section == "branding" || section == "theme" || section == "favorites" || section in SettingsSections;
  }
}
