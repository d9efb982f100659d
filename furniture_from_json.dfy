/**
  The JSON-driven catalogue update (update_furniture_from_json.py): for each category of the
  file, each listed item found by its old name in that category gets its new name, its
  description and a slug from the new name. Three counters report the run.
 */
module FurnitureFromJson {
  import opened Maybe
  import opened Strings
  import opened Dicts
  import opened Catalog

  /** One listed item: the JSON object with its string fields. */
  type Entry = Dict<string>

  /** The JSON file: absent, not parseable (`json.load` raises, uncaught), or its top-level object. */
  datatype Source = NoFile | Malformed | Data(categories: Dict<seq<Entry>>)

  /** `item_data.get(key, "")`. */
  function Field(entry: Entry, key: string): string {
    Get(entry, key).GetOr("")
  }

  /** `slugify(new_name)`, or `item-<id>` when that is empty. */
  function NewSlug(id: nat, newName: string, slugify: string -> string): (s: string)
    ensures s != ""
    ensures slugify(newName) != "" ==> s == slugify(newName)
    ensures slugify(newName) == "" ==> s == ItemSlug(id)
  {
    if slugify(newName) != "" then slugify(newName) else ItemSlug(id)
  }

  /** What one listed item does to the table. */
  datatype ItemStep =
    | Skipped                          // old_name or new_name missing or empty
    | Missing                          // DoesNotExist: not_found += 1
    | Ambiguous                        // MultipleObjectsReturned, uncaught
    | Update(index: nat, row: Item)    // the row at `index` is saved as `row`

  /** The effect of one listed item on the table `items`, within the category with key `cat`. */
  function EntryStep(items: seq<Item>, cat: nat, entry: Entry, slugify: string -> string): (s: ItemStep)
    ensures s.Skipped? <==> Field(entry, "old_name") == "" || Field(entry, "new_name") == ""
    ensures s.Missing? ==> forall j :: 0 <= j < |items| ==> !(items[j].name == Field(entry, "old_name") && items[j].category == cat)
    ensures s.Ambiguous? ==> exists i, j :: 0 <= i < j < |items| && items[i].name == items[j].name == Field(entry, "old_name")
                                           && items[i].category == items[j].category == cat
    ensures s.Update? ==>
              && s.index < |items|
              && items[s.index].name == Field(entry, "old_name") && items[s.index].category == cat
              && (forall j :: 0 <= j < |items| && items[j].name == Field(entry, "old_name") && items[j].category == cat ==> j == s.index)
              && s.row == items[s.index].(name := Field(entry, "new_name"), description := Field(entry, "description"),
                                          slug := NewSlug(items[s.index].id, Field(entry, "new_name"), slugify))
  {
    var oldName := Field(entry, "old_name");
    var newName := Field(entry, "new_name");
    if oldName == "" || newName == "" then Skipped
    else
      match GetItem(items, oldName, cat)
      case NotFound => Missing
      case Multiple => Ambiguous
      case Found(ix) =>
        var it := items[ix];
        Update(ix, it.(name := newName, description := Field(entry, "description"), slug := NewSlug(it.id, newName, slugify)))
  }

  /** The `stats` dictionary. */
  datatype Stats = Stats(updated: nat, notFound: nat, categoriesProcessed: nat)

  /** The table and counters so far, and whether an uncaught error has ended the run. */
  datatype Pass = Pass(items: seq<Item>, stats: Stats, crashed: bool)

  /** One listed item applied to a run that is still going. */
  function AfterStep(p: Pass, cat: nat, entry: Entry, slugify: string -> string): (q: Pass)
    ensures |q.items| == |p.items|
  {
    match EntryStep(p.items, cat, entry, slugify)
    case Skipped => p
    case Missing => p.(stats := p.stats.(notFound := p.stats.notFound + 1))
    case Ambiguous => p.(crashed := true)
    case Update(ix, row) => p.(items := p.items[ix := row], stats := p.stats.(updated := p.stats.updated + 1))
  }

  /** The listed items of one found category, in order, stopping at an uncaught error. */
  function ApplyItems(p: Pass, cat: nat, entries: seq<Entry>, slugify: string -> string): (q: Pass)
    ensures |q.items| == |p.items|
  {
    if |entries| == 0 then p
    else
      var prev := ApplyItems(p, cat, entries[..|entries| - 1], slugify);
      if prev.crashed then prev else AfterStep(prev, cat, entries[|entries| - 1], slugify)
  }

  /**
    The categories of the file, in order: each is counted, a missing one skips its items, a name
    held by several categories is an uncaught error, a found one has its items applied.
   */
  function ApplyCategories(cats: seq<Category>, items: seq<Item>, data: Dict<seq<Entry>>, slugify: string -> string): (q: Pass)
    ensures |q.items| == |items|
  {
    if |data| == 0 then Pass(items, Stats(0, 0, 0), false)
    else
      var prev := ApplyCategories(cats, items, data[..|data| - 1], slugify);
      var (name, entries) := data[|data| - 1];
      var counted := prev.(stats := prev.stats.(categoriesProcessed := prev.stats.categoriesProcessed + 1));
      if prev.crashed then prev
      else
        match GetCategory(cats, name)
        case NotFound => counted
        case Multiple => counted.(crashed := true)
        case Found(ix) => ApplyItems(counted, cats[ix].id, entries, slugify)
  }

  /** Number of items listed under the categories of the file that exist exactly once. */
  function ListedUnderFound(cats: seq<Category>, data: Dict<seq<Entry>>): nat {
    if |data| == 0 then 0
    else
      var (name, entries) := data[|data| - 1];
      ListedUnderFound(cats, data[..|data| - 1]) + (if GetCategory(cats, name).Found? then |entries| else 0)
  }

  /**
    Within one category: the category counter stays, `updated + not_found` grows by at most the
    number of listed items, only rows of that category change, and a changed row carries a
    non-empty slug.
   */
  lemma {:induction false} ApplyItemsEffect(p: Pass, cat: nat, entries: seq<Entry>, slugify: string -> string, j: nat)
    requires !p.crashed && j < |p.items|
    ensures var q := ApplyItems(p, cat, entries, slugify);
            && q.stats.categoriesProcessed == p.stats.categoriesProcessed
            && q.stats.updated + q.stats.notFound <= p.stats.updated + p.stats.notFound + |entries|
            && q.stats.updated >= p.stats.updated && q.stats.notFound >= p.stats.notFound
            && (q.items[j] != p.items[j] ==> q.items[j].category == cat && q.items[j].id == p.items[j].id && q.items[j].slug != "")
  {
    if |entries| > 0 {
      var init := entries[..|entries| - 1];
      ApplyItemsEffect(p, cat, init, slugify, j);
      var prev := ApplyItems(p, cat, init, slugify);
      if !prev.crashed {
        var s := EntryStep(prev.items, cat, entries[|entries| - 1], slugify);
        if s.Update? && s.index == j {
          assert prev.items[j].category == cat;
        }
      }
    }
  }

  /**
    Over the whole file: every top-level key is counted unless an uncaught error stopped the run
    early, and `updated + not_found` never exceeds the items listed under found categories.
   */
  lemma {:induction false} ApplyCategoriesCounts(cats: seq<Category>, items: seq<Item>, data: Dict<seq<Entry>>, slugify: string -> string)
    ensures var q := ApplyCategories(cats, items, data, slugify);
            && q.stats.categoriesProcessed <= |data|
            && (!q.crashed ==> q.stats.categoriesProcessed == |data|)
            && q.stats.updated + q.stats.notFound <= ListedUnderFound(cats, data)
  {
    if |data| > 0 {
      var init := data[..|data| - 1];
      ApplyCategoriesCounts(cats, items, init, slugify);
      var prev := ApplyCategories(cats, items, init, slugify);
      var (name, entries) := data[|data| - 1];
      if !prev.crashed && GetCategory(cats, name).Found? {
        var counted := prev.(stats := prev.stats.(categoriesProcessed := prev.stats.categoriesProcessed + 1));
        if |items| > 0 {
          ApplyItemsEffect(counted, cats[GetCategory(cats, name).value].id, entries, slugify, 0);
        } else {
          ApplyItemsBoundEmpty(counted, cats[GetCategory(cats, name).value].id, entries, slugify);
        }
      }
    }
  }

  /** The counter facts of `ApplyItemsEffect`, for an empty table. */
  lemma {:induction false} ApplyItemsBoundEmpty(p: Pass, cat: nat, entries: seq<Entry>, slugify: string -> string)
    requires !p.crashed
    ensures var q := ApplyItems(p, cat, entries, slugify);
            && q.stats.categoriesProcessed == p.stats.categoriesProcessed
            && q.stats.updated + q.stats.notFound <= p.stats.updated + p.stats.notFound + |entries|
  {
    if |entries| > 0 {
      ApplyItemsBoundEmpty(p, cat, entries[..|entries| - 1], slugify);
    }
  }

  /** The inner loop of `Command.handle` over one found category's items. */
  method ProcessItems(db: Store, cat: nat, entries: seq<Entry>, slugify: string -> string, stats0: Stats)
    returns (stats: Stats, crashed: bool)
    requires db.Valid()
    modifies db
    ensures db.Valid() && db.categories == old(db.categories)
    ensures Pass(db.items, stats, crashed) == ApplyItems(Pass(old(db.items), stats0, false), cat, entries, slugify)
  {
    ghost var start := Pass(db.items, stats0, false);
    stats := stats0;
    crashed := false;
    var i := 0;
    while i < |entries|
      invariant 0 <= i <= |entries|
      invariant db.Valid() && db.categories == old(db.categories)
      invariant Pass(db.items, stats, false) == ApplyItems(start, cat, entries[..i], slugify)
    {
      assert entries[..i + 1][..i] == entries[..i];
      stats, crashed := ProcessEntry(db, cat, entries[i], slugify, stats);
      if crashed {
        assert entries[..i + 1] == entries[..|entries|][..i + 1];
        ApplyItemsStopped(start, cat, entries, i + 1, slugify);
        return;
      }
      i := i + 1;
    }
    assert entries[..i] == entries;
  }

  /** One listed item: `old_name` looked up in the category and, when found once, renamed and saved. */
  method ProcessEntry(db: Store, cat: nat, entry: Entry, slugify: string -> string, stats0: Stats)
    returns (stats: Stats, crashed: bool)
    requires db.Valid()
    modifies db
    ensures db.Valid() && db.categories == old(db.categories)
    ensures Pass(db.items, stats, crashed) == AfterStep(Pass(old(db.items), stats0, false), cat, entry, slugify)
  {
    stats := stats0;
    crashed := false;
    var oldName := Field(entry, "old_name");
    var newName := Field(entry, "new_name");
    var description := Field(entry, "description");
    if oldName == "" || newName == "" {
      return;
    }
    var found := GetItem(db.items, oldName, cat);
    if found.Multiple? {
      crashed := true;
    } else if found.NotFound? {
      stats := stats.(notFound := stats.notFound + 1);
    } else {
      var item := db.items[found.value];
      item := item.(name := newName, description := description);
      var newSlug := slugify(newName);
      if newSlug == "" {
        newSlug := ItemSlug(item.id);
      }
      item := item.(slug := newSlug);
      ghost var before := db.items;
      db.items := db.items[found.value := item];
      stats := stats.(updated := stats.updated + 1);
      assert ItemIdsDistinct(db.items) by {
        forall a, b | 0 <= a < b < |db.items|
          ensures db.items[a].id != db.items[b].id
        {
          assert db.items[a].id == before[a].id && db.items[b].id == before[b].id;
        }
      }
    }
  }

  /** Once a run has crashed, the remaining items change nothing. */
  lemma {:induction false} ApplyItemsStopped(p: Pass, cat: nat, entries: seq<Entry>, k: nat, slugify: string -> string)
    requires k <= |entries| && ApplyItems(p, cat, entries[..k], slugify).crashed
    ensures ApplyItems(p, cat, entries, slugify) == ApplyItems(p, cat, entries[..k], slugify)
  {
    if k < |entries| {
      assert entries[..|entries| - 1][..k] == entries[..k];
      ApplyItemsStopped(p, cat, entries[..|entries| - 1], k, slugify);
    } else {
      assert entries[..k] == entries;
    }
  }

  /** How `Command.handle` ends. */
  datatype Outcome =
    | FileMissing                 // "File ... does not exist"
    | MalformedJson               // `json.load` raises, uncaught, before any write
    | Crashed(stats: Stats)       // MultipleObjectsReturned, uncaught; earlier saves stay
    | Completed(stats: Stats)     // the summary line

  /** `Command.handle`. */
  method Handle(db: Store, source: Source, slugify: string -> string) returns (outcome: Outcome)
    requires db.Valid()
    modifies db
    ensures db.Valid() && db.categories == old(db.categories)
    ensures !source.Data? ==> db.items == old(db.items) && outcome == (if source.NoFile? then FileMissing else MalformedJson)
    ensures source.Data? ==>
              var q := ApplyCategories(old(db.categories), old(db.items), source.categories, slugify);
              && db.items == q.items
              && outcome == if q.crashed then Crashed(q.stats) else Completed(q.stats)
  {
    if source.NoFile? {
      return FileMissing;
    } else if source.Malformed? {
      return MalformedJson;
    }
    var data := source.categories;
    ghost var start := db.items;
    var stats := Stats(0, 0, 0);
    var i := 0;
    while i < |data|
      invariant 0 <= i <= |data|
      invariant db.Valid() && db.categories == old(db.categories)
      invariant Pass(db.items, stats, false) == ApplyCategories(db.categories, start, data[..i], slugify)
    {
      assert data[..i + 1][..i] == data[..i];
      var (name, entries) := data[i];
      ghost var counted := Pass(db.items, stats.(categoriesProcessed := stats.categoriesProcessed + 1), false);
      ghost var next := ApplyCategories(db.categories, start, data[..i + 1], slugify);
      stats := stats.(categoriesProcessed := stats.categoriesProcessed + 1);
      var found := GetCategory(db.categories, name);
      if found.NotFound? {
        assert next == counted;
        i := i + 1;
        continue;
      } else if found.Multiple? {
        assert next == counted.(crashed := true);
        ApplyCategoriesStopped(db.categories, start, data, i + 1, slugify);
        return Crashed(stats);
      }
      assert next == ApplyItems(counted, db.categories[found.value].id, entries, slugify);
      var crashed;
      stats, crashed := ProcessItems(db, db.categories[found.value].id, entries, slugify, stats);
      assert Pass(db.items, stats, crashed) == next;
      if crashed {
        ApplyCategoriesStopped(db.categories, start, data, i + 1, slugify);
        return Crashed(stats);
      }
      i := i + 1;
    }
    assert data[..i] == data;
    outcome := Completed(stats);
  }

  /** Once a run has crashed, the remaining categories change nothing. */
  lemma {:induction false} ApplyCategoriesStopped(cats: seq<Category>, items: seq<Item>, data: Dict<seq<Entry>>, k: nat,
                                                  slugify: string -> string)
    requires k <= |data| && ApplyCategories(cats, items, data[..k], slugify).crashed
    ensures ApplyCategories(cats, items, data, slugify) == ApplyCategories(cats, items, data[..k], slugify)
  {
    if k < |data| {
      assert data[..|data| - 1][..k] == data[..k];
      ApplyCategoriesStopped(cats, items, data[..|data| - 1], k, slugify);
    } else {
      assert data[..k] == data;
    }
  }
}
