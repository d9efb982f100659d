/**
  The bulk rename from all_files.json (update_furniture_data.py): each category of the file is
  fetched or created with default fields, and for each listed item every item of that category
  whose name contains the old name, ignoring case — or, failing that, the new name — gets the
  new name, the description and the slugified new name, and is saved.
 */
module FurnitureData {
  import opened Maybe
  import opened Strings
  import opened Dicts
  import opened Catalog
  import Json = FurnitureFromJson

  // ---------------------------------------------------------------------------
  // `get_or_create`
  // ---------------------------------------------------------------------------

  /** The category `get_or_create` inserts, with the defaults of the call. */
  function NewCategory(id: nat, name: string, slugify: string -> string): Category {
    Category(id, name, slugify(name), "Collection of " + Lower(name), 0, true)
  }

  /** What `get_or_create(name=...)` does to the category table. */
  datatype Fetched = Existing(index: nat) | Created(row: Category) | SeveralNamed

  function GetOrCreate(cats: seq<Category>, name: string, slugify: string -> string): (f: Fetched)
    ensures f.Existing? ==> f.index < |cats| && cats[f.index].name == name
                            && forall i :: 0 <= i < |cats| && cats[i].name == name ==> i == f.index
    ensures f.Created? ==> (forall i :: 0 <= i < |cats| ==> cats[i].name != name && cats[i].id != f.row.id)
                           && f.row.name == name && f.row.slug == slugify(name)
                           && f.row.description == "Collection of " + Lower(name)
                           && f.row.order == 0 && f.row.isActive
    ensures f.SeveralNamed? ==> exists i, j :: 0 <= i < j < |cats| && cats[i].name == name && cats[j].name == name
  {
    match GetCategory(cats, name)
    case Found(ix) => Existing(ix)
    case NotFound => Created(NewCategory(MaxCategoryId(cats), name, slugify))
    case Multiple => SeveralNamed
  }

  // ---------------------------------------------------------------------------
  // One listed item
  // ---------------------------------------------------------------------------

  /** `name__icontains=key, category=cat`. */
  predicate MatchesCi(it: Item, cat: nat, key: string) {
    it.category == cat && Contains(Lower(it.name), Lower(key))
  }

  /** `.exists()` of that filter. */
  predicate AnyMatchCi(items: seq<Item>, cat: nat, key: string) {
    exists j | 0 <= j < |items| :: MatchesCi(items[j], cat, key)
  }

  /** The name the item filter uses: the old name, unless nothing matches it. */
  function SearchKey(items: seq<Item>, cat: nat, oldName: string, newName: string): string {
    if AnyMatchCi(items, cat, oldName) then oldName else newName
  }

  /**
    A matched row after its save: new name, description, and slugify of the new name, which the
    save hook replaces only when it is empty.
   */
  function Rewritten(it: Item, newName: string, description: string, slugify: string -> string, slugOnSave: Item -> string): Item {
    Saved(it.(name := newName, description := description, slug := slugify(newName)), slugOnSave)
  }

  /** The table after one listed item (`oldName`/`newName`/`description` keys). */
  function DataStep(items: seq<Item>, cat: nat, entry: Json.Entry, slugify: string -> string, slugOnSave: Item -> string): (r: seq<Item>)
    ensures |r| == |items|
  {
    var oldName := Json.Field(entry, "oldName");
    var newName := Json.Field(entry, "newName");
    if oldName == "" || newName == "" then items
    else
      var key := SearchKey(items, cat, oldName, newName);
      seq(|items|, (j: int) requires 0 <= j < |items| =>
        if MatchesCi(items[j], cat, key) then Rewritten(items[j], newName, Json.Field(entry, "description"), slugify, slugOnSave) else items[j])
  }

  /**
    One listed item: an entry missing either name changes nothing; otherwise the rows matched by
    the old name are rewritten, or, when the old name matches nothing, those matched by the new
    name; a row outside the category, or matched by neither, is unchanged.
   */
  lemma DataStepEffect(items: seq<Item>, cat: nat, entry: Json.Entry, slugify: string -> string, slugOnSave: Item -> string, j: nat)
    requires j < |items|
    ensures var oldName := Json.Field(entry, "oldName");
            var newName := Json.Field(entry, "newName");
            var r := DataStep(items, cat, entry, slugify, slugOnSave);
            && (oldName == "" || newName == "" ==> r == items)
            && (oldName != "" && newName != "" && AnyMatchCi(items, cat, oldName) ==>
                  r[j] == if MatchesCi(items[j], cat, oldName) then Rewritten(items[j], newName, Json.Field(entry, "description"), slugify, slugOnSave) else items[j])
            && (oldName != "" && newName != "" && !AnyMatchCi(items, cat, oldName) ==>
                  r[j] == if MatchesCi(items[j], cat, newName) then Rewritten(items[j], newName, Json.Field(entry, "description"), slugify, slugOnSave) else items[j])
            && (items[j].category != cat ==> r[j] == items[j])
  {
  }

  /**
    All rows a listed item rewrites end with the same name and description, and, unless the new
    name slugifies to "", with the same slug: several matches then share one slug. An empty
    slugify result is left to the save hook, row by row.
   */
  lemma DataStepSharedSlug(items: seq<Item>, cat: nat, entry: Json.Entry, slugify: string -> string, slugOnSave: Item -> string, i: nat, j: nat)
    requires i < |items| && j < |items|
    requires var r := DataStep(items, cat, entry, slugify, slugOnSave); r[i] != items[i] && r[j] != items[j]
    ensures var r := DataStep(items, cat, entry, slugify, slugOnSave);
            var newName := Json.Field(entry, "newName");
            && r[i].name == r[j].name == newName
            && r[i].description == r[j].description == Json.Field(entry, "description")
            && (slugify(newName) != "" ==> r[i].slug == r[j].slug == slugify(newName))
            && (slugify(newName) == "" ==> r[i].slug == slugOnSave(r[i].(slug := "")) && r[j].slug == slugOnSave(r[j].(slug := "")))
  {
  }

  /** When neither name matches any row of the category, nothing changes. */
  lemma DataStepNoMatch(items: seq<Item>, cat: nat, entry: Json.Entry, slugify: string -> string, slugOnSave: Item -> string)
    requires !AnyMatchCi(items, cat, Json.Field(entry, "oldName")) && !AnyMatchCi(items, cat, Json.Field(entry, "newName"))
    ensures DataStep(items, cat, entry, slugify, slugOnSave) == items
  {
    var r := DataStep(items, cat, entry, slugify, slugOnSave);
    if Json.Field(entry, "oldName") != "" && Json.Field(entry, "newName") != "" {
      forall j | 0 <= j < |items|
        ensures r[j] == items[j]
      {
        assert !MatchesCi(items[j], cat, Json.Field(entry, "newName"));
      }
    }
  }

  /** The listed items of one category, in order. */
  function DataSteps(items: seq<Item>, cat: nat, entries: seq<Json.Entry>, slugify: string -> string, slugOnSave: Item -> string): (r: seq<Item>)
    ensures |r| == |items|
  {
    if |entries| == 0 then items
    else DataStep(DataSteps(items, cat, entries[..|entries| - 1], slugify, slugOnSave), cat, entries[|entries| - 1], slugify, slugOnSave)
  }

  /** The two tables, and whether the generic `except Exception` has ended the run. */
  datatype Run = Run(cats: seq<Category>, items: seq<Item>, failed: bool)

  /** One category of the file: fetch or create it, then apply its listed items. */
  function CategoryStep(prev: Run, name: string, entries: seq<Json.Entry>, slugify: string -> string, slugOnSave: Item -> string): (r: Run)
    ensures |r.items| == |prev.items|
  {
    if prev.failed then prev
    else
      match GetOrCreate(prev.cats, name, slugify)
      case SeveralNamed => prev.(failed := true)
      case Existing(ix) => prev.(items := DataSteps(prev.items, prev.cats[ix].id, entries, slugify, slugOnSave))
      case Created(row) => Run(prev.cats + [row], DataSteps(prev.items, row.id, entries, slugify, slugOnSave), false)
  }

  /** The categories of the file in order; a name held by several categories fails the run. */
  function ApplyData(cats: seq<Category>, items: seq<Item>, data: Dict<seq<Json.Entry>>, slugify: string -> string, slugOnSave: Item -> string): (r: Run)
    ensures |r.items| == |items|
  {
    if |data| == 0 then Run(cats, items, false)
    else
      var (name, entries) := data[|data| - 1];
      CategoryStep(ApplyData(cats, items, data[..|data| - 1], slugify, slugOnSave), name, entries, slugify, slugOnSave)
  }

  /**
    Rows keep their key and category throughout, and a row of no category named in the file is
    never changed.
   */
  lemma {:induction false} DataStepsKeepRows(items: seq<Item>, cat: nat, entries: seq<Json.Entry>, slugify: string -> string, slugOnSave: Item -> string, j: nat)
    requires j < |items|
    ensures var r := DataSteps(items, cat, entries, slugify, slugOnSave);
            && r[j].id == items[j].id && r[j].category == items[j].category
            && (items[j].category != cat ==> r[j] == items[j])
  {
    if |entries| > 0 {
      DataStepsKeepRows(items, cat, entries[..|entries| - 1], slugify, slugOnSave, j);
    }
  }

  // ---------------------------------------------------------------------------
  // The imperative passes
  // ---------------------------------------------------------------------------

  /** `for item in items:` over the chosen filter, rewriting each matched row. */
  method RewriteMatching(db: Store, cat: nat, key: string, newName: string, description: string, slugify: string -> string, slugOnSave: Item -> string)
    requires db.Valid()
    modifies db
    ensures db.Valid() && db.categories == old(db.categories)
    ensures |db.items| == |old(db.items)|
    ensures forall j :: 0 <= j < |db.items| ==>
              db.items[j] == if MatchesCi(old(db.items)[j], cat, key) then Rewritten(old(db.items)[j], newName, description, slugify, slugOnSave) else old(db.items)[j]
  {
    ghost var start := db.items;
    var items := db.items;
    var j := 0;
    while j < |items|
      invariant 0 <= j <= |items| == |start|
      invariant db.items == items && db.categories == old(db.categories)
      invariant forall l :: 0 <= l < j ==>
                  items[l] == if MatchesCi(start[l], cat, key) then Rewritten(start[l], newName, description, slugify, slugOnSave) else start[l]
      invariant forall l :: j <= l < |items| ==> items[l] == start[l]
    {
      if MatchesCi(items[j], cat, key) {
        items := items[j := Rewritten(items[j], newName, description, slugify, slugOnSave)];
        db.items := items;
      }
      j := j + 1;
    }
    assert ItemIdsDistinct(db.items) by {
      forall a, b | 0 <= a < b < |db.items|
        ensures db.items[a].id != db.items[b].id
      {
        assert db.items[a].id == start[a].id && db.items[b].id == start[b].id;
      }
    }
  }

  /** The loop over one category's listed items. */
  method ProcessEntries(db: Store, cat: nat, entries: seq<Json.Entry>, slugify: string -> string, slugOnSave: Item -> string)
    requires db.Valid()
    modifies db
    ensures db.Valid() && db.categories == old(db.categories)
    ensures db.items == DataSteps(old(db.items), cat, entries, slugify, slugOnSave)
  {
    ghost var start := db.items;
    var i := 0;
    while i < |entries|
      invariant 0 <= i <= |entries|
      invariant db.Valid() && db.categories == old(db.categories)
      invariant db.items == DataSteps(start, cat, entries[..i], slugify, slugOnSave)
    {
      assert entries[..i + 1][..i] == entries[..i];
      var entry := entries[i];
      var oldName := Json.Field(entry, "oldName");
      var newName := Json.Field(entry, "newName");
      var description := Json.Field(entry, "description");
      if oldName == "" || newName == "" {
        i := i + 1;
        continue;
      }
      var key := oldName;
      if !AnyMatchCi(db.items, cat, key) {
        key := newName;
      }
      ghost var before := db.items;
      if AnyMatchCi(db.items, cat, key) {
        RewriteMatching(db, cat, key, newName, description, slugify, slugOnSave);
      }
      assert db.items == DataStep(before, cat, entry, slugify, slugOnSave);
      i := i + 1;
    }
    assert entries[..i] == entries;
  }

  /** How `Command.handle` ends. */
  datatype Outcome =
    | FileNotFound       // "JSON file not found at ..."
    | InvalidJson        // "Invalid JSON format in the file"
    | Failed             // "Error updating furniture data: ..."; earlier saves stay
    | Completed          // "Furniture data update completed successfully!"

  /**
    `Command.handle`: reading and parsing come before any write, so a missing or malformed file
    changes nothing; a later error stops the run but keeps what was already saved.
   */
  method Handle(db: Store, source: Json.Source, slugify: string -> string, slugOnSave: Item -> string) returns (outcome: Outcome)
    requires db.Valid()
    modifies db
    ensures db.Valid()
    ensures !source.Data? ==> (&& db.items == old(db.items) && db.categories == old(db.categories)
                              && outcome == (if source.NoFile? then FileNotFound else InvalidJson))
    ensures source.Data? ==>
              var r := ApplyData(old(db.categories), old(db.items), source.categories, slugify, slugOnSave);
              && db.categories == r.cats && db.items == r.items
              && outcome == if r.failed then Failed else Completed
  {
    if source.NoFile? {
      return FileNotFound;
    } else if source.Malformed? {
      return InvalidJson;
    }
    var data := source.categories;
    ghost var startCats := db.categories;
    ghost var startItems := db.items;
    var i := 0;
    while i < |data|
      invariant 0 <= i <= |data|
      invariant db.Valid()
      invariant Run(db.categories, db.items, false) == ApplyData(startCats, startItems, data[..i], slugify, slugOnSave)
    {
      assert data[..i + 1][..i] == data[..i];
      var (name, entries) := data[i];
      var failed := ProcessCategory(db, name, entries, slugify, slugOnSave);
      if failed {
        ApplyDataStopped(startCats, startItems, data, i + 1, slugify, slugOnSave);
        return Failed;
      }
      i := i + 1;
    }
    assert data[..i] == data;
    outcome := Completed;
  }

  /** One pass of the outer loop: `get_or_create` the category, then its listed items. */
  method ProcessCategory(db: Store, name: string, entries: seq<Json.Entry>, slugify: string -> string, slugOnSave: Item -> string) returns (failed: bool)
    requires db.Valid()
    modifies db
    ensures db.Valid()
    ensures Run(db.categories, db.items, failed) == CategoryStep(Run(old(db.categories), old(db.items), false), name, entries, slugify, slugOnSave)
  {
    var fetched := GetOrCreate(db.categories, name, slugify);
    if fetched.SeveralNamed? {
      return true;
    }
    var cat;
    if fetched.Created? {
      AppendFreshCategory(db.categories, fetched.row);
      db.categories := db.categories + [fetched.row];
      cat := fetched.row.id;
    } else {
      cat := db.categories[fetched.index].id;
    }
    ProcessEntries(db, cat, entries, slugify, slugOnSave);
    failed := false;
  }

  /** A category whose key differs from every present key keeps the keys distinct. */
  lemma AppendFreshCategory(cats: seq<Category>, row: Category)
    requires CategoryIdsDistinct(cats)
    requires forall i :: 0 <= i < |cats| ==> cats[i].id != row.id
    ensures CategoryIdsDistinct(cats + [row])
  {
    var all := cats + [row];
    forall a, b | 0 <= a < b < |all|
      ensures all[a].id != all[b].id
    {
      assert all[a] == cats[a];
    }
  }

  /** Once the run has failed, the remaining categories change nothing. */
  lemma {:induction false} ApplyDataStopped(cats: seq<Category>, items: seq<Item>, data: Dict<seq<Json.Entry>>, k: nat,
                                            slugify: string -> string, slugOnSave: Item -> string)
    requires k <= |data| && ApplyData(cats, items, data[..k], slugify, slugOnSave).failed
    ensures ApplyData(cats, items, data, slugify, slugOnSave) == ApplyData(cats, items, data[..k], slugify, slugOnSave)
  {
    if k < |data| {
      assert data[..|data| - 1][..k] == data[..k];
      ApplyDataStopped(cats, items, data[..|data| - 1], k, slugify, slugOnSave);
    } else {
      assert data[..k] == data;
    }
  }
}
