/**
  The kitchen rename pass (update_kitchen_names.py): for each entry of a fixed mapping from old
  identifiers to new names, the kitchen items named exactly like the identifier — or, when there
  are none, those whose name contains it — get the new name and a slug regenerated on save. A dry
  run writes nothing and reports the same way.
 */
module KitchenNames {
  import opened Maybe
  import opened Strings
  import opened Catalog

  const KitchenCategoryName := "Кухни"

  /** `get_name_mapping`, in its insertion order (written in blocks of ten entries). */
  const NameMapping: seq<(string, string)> := NameBlock1 + NameBlock2 + NameBlock3 + NameBlock4 + NameBlock5

  const NameBlock1: seq<(string, string)> := [
    ("10", "Дымчатый Минимал"), ("11", "Светлый Рельеф"), ("12", "Графитовая Ночь"),
    ("13", "Лесной Уют"), ("14", "Арктик Вуд"), ("15", "Серый Монолит"),
    ("17", "Лофт Акцент"), ("18", "Венге Элеганс"), ("19", "Нордик Контраст"),
    ("20", "Солнечный Шпон")
  ]
  const NameBlock2: seq<(string, string)> := [
    ("21", "Темный Орех"), ("22", "Пыльная Роза"), ("23", "Графит Спейс"),
    ("24", "Антрацит Лайн"), ("25", "Черный Бархат"), ("26", "Альпийская Свежесть"),
    ("27", "Кантри Модерн"), ("28", "Нуар Марбл"), ("29", "Индустриальный Шик"),
    ("30", "Мраморный Акцент")
  ]
  const NameBlock3: seq<(string, string)> := [
    ("31", "Белоснежный Глянец"), ("32", "Студио Лайт"), ("33", "Кремовый Бриз"),
    ("34", "Синий Горизонт"), ("35", "Урбан Вуд"), ("36", "Компакт Свет"),
    ("37", "Неоклассика Беж"), ("38", "Версаль Крем"), ("39", "Дуэт Текстур"),
    ("4", "Биколор Модерн")
  ]
  const NameBlock4: seq<(string, string)> := [
    ("40", "Серенити Грей"), ("41", "Монохром Грей"), ("42", "Классика Латте"),
    ("43", "Элеганс Лайн"), ("44", "Контраст Вуд"), ("45", "Арктик Блэк"),
    ("46", "Золотой Штрих"), ("47", "Стоун Найт"), ("48", "Винтаж Лофт"),
    ("49", "Капучино Мист")
  ]
  const NameBlock5: seq<(string, string)> := [
    ("5", "Сканди Грейвуд"), ("50", "Белая Волна"), ("51", "Аристократ Марбл"),
    ("8", "Графит Уайт"), ("9", "Жемчужный Минимал"), ("kuhnya 2", "Урбан Грей Лайт"),
    ("kuhnya1", "Престиж Лайн"), ("Кухня 1", "Бейсик Беж"), ("kuhnya3", "Контраст Стоун"),
    ("Кухни 3", "Модерн Графит")
  ]

  /** Some kitchen item is named exactly `oldId`: `kitchen_items.filter(name=old_id).exists()`. */
  predicate AnyExact(items: seq<Item>, kitchen: nat, oldId: string) {
    exists j | 0 <= j < |items| :: items[j].category == kitchen && items[j].name == oldId
  }

  /**
    The filter in force for `oldId`: the exact name when `exact` holds, containment
    (`name__contains`) otherwise, always within the kitchen category.
   */
  predicate Picks(it: Item, kitchen: nat, oldId: string, exact: bool) {
    it.category == kitchen && (if exact then it.name == oldId else Contains(it.name, oldId))
  }

  /** How many items the filter in force selects. */
  function MatchCount(items: seq<Item>, kitchen: nat, oldId: string, exact: bool): (n: nat)
    ensures n <= |items|
  {
    if |items| == 0 then 0
    else MatchCount(items[..|items| - 1], kitchen, oldId, exact) + (if Picks(items[|items| - 1], kitchen, oldId, exact) then 1 else 0)
  }

  /** The count is zero exactly when the filter selects no item: `matching_items.exists()` is false. */
  lemma {:induction false} MatchCountZeroIff(items: seq<Item>, kitchen: nat, oldId: string, exact: bool)
    ensures MatchCount(items, kitchen, oldId, exact) == 0 <==> forall j :: 0 <= j < |items| ==> !Picks(items[j], kitchen, oldId, exact)
  {
    if |items| > 0 {
      var init := items[..|items| - 1];
      MatchCountZeroIff(init, kitchen, oldId, exact);
      assert forall j :: 0 <= j < |init| ==> init[j] == items[j];
    }
  }

  /** `item.name = new_name; item.slug = None; item.save()`, the slug coming from the save hook. */
  function Renamed(it: Item, newName: string, slugOnSave: Item -> string): Item {
    Saved(it.(name := newName, slug := ""), slugOnSave)
  }

  /** One real step: every selected item renamed. */
  function RenameSelected(items: seq<Item>, kitchen: nat, oldId: string, exact: bool, newName: string,
                          slugOnSave: Item -> string): (r: seq<Item>)
    ensures |r| == |items|
  {
    seq(|items|, (j: int) requires 0 <= j < |items| =>
      if Picks(items[j], kitchen, oldId, exact) then Renamed(items[j], newName, slugOnSave) else items[j])
  }

  /** The table, `updated_count` and `not_found_ids` after some mapping entries. */
  datatype Run = Run(items: seq<Item>, updatedCount: nat, notFound: set<string>)

  /**
    The pass over `mapping` in order. Each entry queries the table as the earlier entries left
    it; a dry run never changes the table.
   */
  function RenameAll(items: seq<Item>, kitchen: nat, mapping: seq<(string, string)>, dryRun: bool,
                     slugOnSave: Item -> string): (r: Run)
    ensures |r.items| == |items|
  {
    if |mapping| == 0 then Run(items, 0, {})
    else
      var prev := RenameAll(items, kitchen, mapping[..|mapping| - 1], dryRun, slugOnSave);
      var (oldId, newName) := mapping[|mapping| - 1];
      var cur := prev.items;
      var exact := AnyExact(cur, kitchen, oldId);
      var n := MatchCount(cur, kitchen, oldId, exact);
      Run(if dryRun then cur else RenameSelected(cur, kitchen, oldId, exact, newName, slugOnSave),
          prev.updatedCount + n,
          if n == 0 then prev.notFound + {oldId} else prev.notFound)
  }

  /** Items outside the kitchen category are never touched, and only name and slug ever change. */
  lemma {:induction false} RenameAllOnlyKitchen(items: seq<Item>, kitchen: nat, mapping: seq<(string, string)>,
                                                dryRun: bool, slugOnSave: Item -> string, j: nat)
    requires j < |items|
    ensures var r := RenameAll(items, kitchen, mapping, dryRun, slugOnSave).items[j];
            && r.category == items[j].category && r.id == items[j].id
            && r.(name := items[j].name, slug := items[j].slug) == items[j]
            && (items[j].category != kitchen ==> r == items[j])
  {
    if |mapping| > 0 {
      RenameAllOnlyKitchen(items, kitchen, mapping[..|mapping| - 1], dryRun, slugOnSave, j);
    }
  }

  /** Every id reported as not found is an id of the mapping. */
  lemma {:induction false} NotFoundAreMappingIds(items: seq<Item>, kitchen: nat, mapping: seq<(string, string)>,
                                                 dryRun: bool, slugOnSave: Item -> string, id: string)
    requires id in RenameAll(items, kitchen, mapping, dryRun, slugOnSave).notFound
    ensures exists i :: 0 <= i < |mapping| && mapping[i].0 == id
  {
    var init := mapping[..|mapping| - 1];
    if id in RenameAll(items, kitchen, init, dryRun, slugOnSave).notFound {
      NotFoundAreMappingIds(items, kitchen, init, dryRun, slugOnSave, id);
      var i :| 0 <= i < |init| && init[i].0 == id;
      assert mapping[i] == init[i];
    } else {
      assert mapping[|mapping| - 1].0 == id;
    }
  }

  /** What a dry run reports: every entry matched against the unchanged table. */
  function DryCount(items: seq<Item>, kitchen: nat, mapping: seq<(string, string)>): nat {
    if |mapping| == 0 then 0
    else
      var oldId := mapping[|mapping| - 1].0;
      DryCount(items, kitchen, mapping[..|mapping| - 1]) + MatchCount(items, kitchen, oldId, AnyExact(items, kitchen, oldId))
  }

  /**
    A dry run leaves the table as it is, yet counts every match, and reports as not found exactly
    the ids that nothing in the original table matches.
   */
  lemma {:induction false} DryRunWritesNothing(items: seq<Item>, kitchen: nat, mapping: seq<(string, string)>,
                                               slugOnSave: Item -> string, id: string)
    ensures var r := RenameAll(items, kitchen, mapping, true, slugOnSave);
            && r.items == items
            && r.updatedCount == DryCount(items, kitchen, mapping)
            && (id in r.notFound <==>
                  exists i :: (0 <= i < |mapping| && mapping[i].0 == id
                               && MatchCount(items, kitchen, id, AnyExact(items, kitchen, id)) == 0))
  {
    if |mapping| > 0 {
      var init := mapping[..|mapping| - 1];
      DryRunWritesNothing(items, kitchen, init, slugOnSave, id);
      assert forall i :: 0 <= i < |init| ==> init[i] == mapping[i];
      var last := |mapping| - 1;
      if mapping[last].0 == id && MatchCount(items, kitchen, id, AnyExact(items, kitchen, id)) == 0 {
        assert id in RenameAll(items, kitchen, mapping, true, slugOnSave).notFound;
      }
    }
  }

  /** The entries for "14" and, later, "4" of the mapping: the first id contains the second. */
  const OverlappingEntries: seq<(string, string)> := [("14", "Арктик Вуд"), ("4", "Биколор Модерн")]

  lemma OverlappingEntriesInMapping()
    ensures NameMapping[4] == OverlappingEntries[0] && NameMapping[29] == OverlappingEntries[1]
  {
    assert NameMapping[4] == NameBlock1[4];
    assert NameMapping[29] == NameBlock3[9];
  }

  /**
    Earlier renames change later matches. With one kitchen item named "14", a dry run of the
    entries for "14" and then "4" matches it twice: exactly for "14", by containment for "4".
   */
  lemma DryRunMatchesTwice(it: Item, slugOnSave: Item -> string)
    requires it.name == "14"
    ensures RenameAll([it], it.category, OverlappingEntries, true, slugOnSave) == Run([it], 2, {})
  {
    var k := it.category;
    var one := [it];
    var first := OverlappingEntries[..1];
    assert first == [("14", "Арктик Вуд")] && first[..0] == [];
    assert one[..0] == [] && one[0] == it;
    assert AnyExact(one, k, "14");
    assert MatchCount(one, k, "14", true) == 1;
    assert RenameAll(one, k, first, true, slugOnSave) == Run(one, 1, {});
    assert !AnyExact(one, k, "4");
    assert OccursAt("14", "4", 1);
    assert MatchCount(one, k, "4", false) == 1;
  }

  /**
    In a real run the entry for "14" renames that item first, so the entry for "4" finds nothing
    and is reported as not found: the two modes report different counts.
   */
  lemma RealRunMatchesOnce(it: Item, slugOnSave: Item -> string)
    requires it.name == "14"
    ensures var r := RenameAll([it], it.category, OverlappingEntries, false, slugOnSave);
            r.updatedCount == 1 && r.notFound == {"4"}
  {
    var k := it.category;
    var renamed := RenameSelected([it], k, "14", true, "Арктик Вуд", slugOnSave);
    RealRunFirstEntry(it, slugOnSave);
    assert OverlappingEntries[..2] == OverlappingEntries;
    NothingContainsFour(renamed, k);
  }

  /** The entry for "14" alone renames the one item named "14". */
  lemma RealRunFirstEntry(it: Item, slugOnSave: Item -> string)
    requires it.name == "14"
    ensures RenameAll([it], it.category, OverlappingEntries[..1], false, slugOnSave)
            == Run(RenameSelected([it], it.category, "14", true, "Арктик Вуд", slugOnSave), 1, {})
  {
    var k := it.category;
    var one := [it];
    var first := OverlappingEntries[..1];
    assert first == [("14", "Арктик Вуд")] && first[..0] == [];
    assert one[..0] == [] && one[0] == it;
    assert AnyExact(one, k, "14");
    assert MatchCount(one, k, "14", true) == 1;
  }

  /** After the rename, no kitchen item is selected for "4", by exact name or by containment. */
  lemma NothingContainsFour(renamed: seq<Item>, k: nat)
    requires |renamed| == 1 && renamed[0].name == "Арктик Вуд"
    ensures !AnyExact(renamed, k, "4") && MatchCount(renamed, k, "4", false) == 0
  {
    assert renamed[..0] == [];
    assert !Contains(renamed[0].name, "4") by {
      forall i | 0 <= i <= |renamed[0].name| - 1
        ensures !OccursAt(renamed[0].name, "4", i)
      {
        assert renamed[0].name[i] != '4';
      }
    }
  }

  /**
    The selection loop for one mapping entry: every item the filter selects is renamed (unless
    this is a dry run) and counted.
   */
  method RenameMatching(db: Store, kitchen: nat, oldId: string, exact: bool, newName: string, dryRun: bool,
                        slugOnSave: Item -> string) returns (count: nat)
    requires db.Valid()
    modifies db
    ensures db.Valid() && db.categories == old(db.categories)
    ensures db.items == if dryRun then old(db.items) else RenameSelected(old(db.items), kitchen, oldId, exact, newName, slugOnSave)
    ensures count == MatchCount(old(db.items), kitchen, oldId, exact)
  {
    ghost var start := db.items;
    ghost var target := if dryRun then start else RenameSelected(start, kitchen, oldId, exact, newName, slugOnSave);
    var items := db.items;
    count := 0;
    var j := 0;
    while j < |items|
      invariant 0 <= j <= |items| == |start| == |target|
      invariant db.items == items && db.categories == old(db.categories)
      invariant forall l :: 0 <= l < j ==> items[l] == target[l]
      invariant forall l :: j <= l < |items| ==> items[l] == start[l]
      invariant count == MatchCount(start[..j], kitchen, oldId, exact)
    {
      assert start[..j + 1][..j] == start[..j];
      if Picks(items[j], kitchen, oldId, exact) {
        if !dryRun {
          items := items[j := Renamed(items[j], newName, slugOnSave)];
          db.items := items;
        }
        count := count + 1;
      }
      j := j + 1;
    }
    assert items == target;
    assert start[..j] == start;
    if !dryRun {
      RenameSelectedKeepsIds(start, kitchen, oldId, exact, newName, slugOnSave);
    }
  }

  /** Renaming never touches primary keys. */
  lemma RenameSelectedKeepsIds(items: seq<Item>, kitchen: nat, oldId: string, exact: bool, newName: string,
                               slugOnSave: Item -> string)
    requires ItemIdsDistinct(items)
    ensures ItemIdsDistinct(RenameSelected(items, kitchen, oldId, exact, newName, slugOnSave))
  {
    var r := RenameSelected(items, kitchen, oldId, exact, newName, slugOnSave);
    forall a, b | 0 <= a < b < |r|
      ensures r[a].id != r[b].id
    {
      assert r[a].id == items[a].id && r[b].id == items[b].id;
    }
  }

  /** `update_furniture_names`: the mapping in order, each entry re-querying the current table. */
  method UpdateFurnitureNames(db: Store, kitchen: nat, mapping: seq<(string, string)>, dryRun: bool,
                              slugOnSave: Item -> string) returns (updatedCount: nat, notFound: set<string>)
    requires db.Valid()
    modifies db
    ensures db.Valid() && db.categories == old(db.categories)
    ensures Run(db.items, updatedCount, notFound) == RenameAll(old(db.items), kitchen, mapping, dryRun, slugOnSave)
  {
    ghost var start := db.items;
    updatedCount := 0;
    notFound := {};
    var i := 0;
    while i < |mapping|
      invariant 0 <= i <= |mapping|
      invariant db.Valid() && db.categories == old(db.categories)
      invariant Run(db.items, updatedCount, notFound) == RenameAll(start, kitchen, mapping[..i], dryRun, slugOnSave)
    {
      assert mapping[..i + 1][..i] == mapping[..i];
      var (oldId, newName) := mapping[i];
      var exact := AnyExact(db.items, kitchen, oldId);
      ghost var next := RenameAll(start, kitchen, mapping[..i + 1], dryRun, slugOnSave);
      ghost var cur := db.items;
      assert next.items == if dryRun then cur else RenameSelected(cur, kitchen, oldId, exact, newName, slugOnSave);
      assert next.updatedCount == updatedCount + MatchCount(cur, kitchen, oldId, exact);
      assert next.notFound == if MatchCount(cur, kitchen, oldId, exact) == 0 then notFound + {oldId} else notFound;
      var count := RenameMatching(db, kitchen, oldId, exact, newName, dryRun, slugOnSave);
      if count > 0 {
        updatedCount := updatedCount + count;
      } else {
        notFound := notFound + {oldId};
      }
      assert Run(db.items, updatedCount, notFound) == next;
      i := i + 1;
    }
    assert mapping[..i] == mapping;
  }

  /** How `Command.handle` ends. */
  datatype Outcome =
    | NoKitchenCategory                          // "Kitchen category not found!"
    | SeveralKitchenCategories                   // `get` raises MultipleObjectsReturned, uncaught
    | Done(updatedCount: nat, notFound: set<string>)

  /**
    `Command.handle`: a missing kitchen category stops before any update; otherwise the fixed
    mapping (never empty, so its emptiness check never fires) is applied.
   */
  method Handle(db: Store, dryRun: bool, slugOnSave: Item -> string) returns (outcome: Outcome)
    requires db.Valid()
    modifies db
    ensures db.Valid() && db.categories == old(db.categories)
    ensures !outcome.Done? ==> db.items == old(db.items)
    ensures GetCategory(db.categories, KitchenCategoryName).NotFound? <==> outcome == NoKitchenCategory
    ensures GetCategory(db.categories, KitchenCategoryName).Multiple? <==> outcome == SeveralKitchenCategories
    ensures outcome.Done? ==>
              var kitchen := db.categories[GetCategory(db.categories, KitchenCategoryName).value].id;
              Run(db.items, outcome.updatedCount, outcome.notFound) == RenameAll(old(db.items), kitchen, NameMapping, dryRun, slugOnSave)
  {
    var found := GetCategory(db.categories, KitchenCategoryName);
    if found.NotFound? {
      return NoKitchenCategory;
    } else if found.Multiple? {
      return SeveralKitchenCategories;
    }
    var kitchen := db.categories[found.value].id;
    var updatedCount, notFound := UpdateFurnitureNames(db, kitchen, NameMapping, dryRun, slugOnSave);
    outcome := Done(updatedCount, notFound);
  }
}
