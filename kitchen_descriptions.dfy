/**
  The kitchen description import (update_kitchen_descriptions.py): a text file of
  "➔"-separated chunks, each giving an item name on its first line and a description on its
  second, is parsed into an ordered mapping, and every kitchen item whose name is a key gets
  that description.
 */
module KitchenDescriptions {
  import opened Maybe
  import opened Strings
  import opened Dicts
  import opened Catalog

  const KitchenCategoryName := "Кухни"
  const PriceOnRequest := "Цена по запросу"
  const ChunkSeparator := '➔'

  /** Reading kitchen.txt: absent, failing while reading or decoding, or its whole text. */
  datatype FileRead = Missing | Unreadable | Content(text: string)

  // ---------------------------------------------------------------------------
  // `parse_kitchen_file`
  // ---------------------------------------------------------------------------

  /**
    The entry one chunk contributes, if any: none for a blank chunk or one of fewer than two
    lines, and none for a two-line chunk whose second line mentions the price; otherwise the
    stripped first line and the stripped second line (also when a third line follows the price
    line, since the second line is read again).
   */
  function ChunkEntry(chunk: string): Option<(string, string)> {
    if PyStrip(chunk) == "" then None else LinesEntry(Split(PyStrip(chunk), '\n'))
  }

  /** The entry of a stripped, non-blank chunk already split into its lines. */
  function LinesEntry(lines: seq<string>): Option<(string, string)> {
    if |lines| < 2 then None
    else
      var id := PyStrip(lines[0]);
      var description := PyStrip(lines[1]);
      if Contains(description, PriceOnRequest) && |lines| < 3 then None
      else Some((id, description))
  }

  /** The mapping built from the chunks in order: each entry assigns `descriptions[id]`. */
  function ParseEntries(chunks: seq<string>): Dict<string> {
    if |chunks| == 0 then []
    else
      var prev := ParseEntries(chunks[..|chunks| - 1]);
      match ChunkEntry(chunks[|chunks| - 1])
      case None => prev
      case Some(e) => Put(prev, e.0, e.1)
  }

  /** What `parse_kitchen_file` returns: an empty mapping when the file is missing or unreadable. */
  function ParseKitchenFile(file: FileRead): Dict<string> {
    match file
    case Content(text) => ParseEntries(Split(text, ChunkSeparator))
    case _ => []
  }

  /** The reference reading of "the last chunk wins": the entry of the last chunk with that id. */
  function LastEntryFor(chunks: seq<string>, id: string): Option<string> {
    if |chunks| == 0 then None
    else
      var e := ChunkEntry(chunks[|chunks| - 1]);
      if e.Some? && e.value.0 == id then Some(e.value.1)
      else LastEntryFor(chunks[..|chunks| - 1], id)
  }

  /** The parsed mapping has distinct keys, and each id maps to the description of its last chunk. */
  lemma {:induction false} ParseEntriesLastWins(chunks: seq<string>, id: string)
    ensures KeysDistinct(ParseEntries(chunks))
    ensures Get(ParseEntries(chunks), id) == LastEntryFor(chunks, id)
  {
    if |chunks| > 0 {
      var init := chunks[..|chunks| - 1];
      ParseEntriesLastWins(init, id);
      var e := ChunkEntry(chunks[|chunks| - 1]);
      if e.Some? {
        PutGet(ParseEntries(init), e.value.0, e.value.1, id);
      }
    }
  }

  /** A chunk that is blank, or has fewer than two lines, contributes nothing. */
  lemma ChunkSkipped(chunk: string)
    requires PyStrip(chunk) == "" || |Split(PyStrip(chunk), '\n')| < 2
    ensures ChunkEntry(chunk).None?
  {
  }

  /** A chunk that stripping leaves alone is read straight off its lines. */
  lemma ChunkOfLines(chunk: string, lines: seq<string>)
    requires PyStrip(chunk) == chunk && Split(chunk, '\n') == lines && |lines| >= 2
    ensures ChunkEntry(chunk) == LinesEntry(lines)
  {
  }

  /** Lines joined by newlines split back into those lines. */
  lemma SplitLines(a: string, b: string, c: seq<string>, chunk: string)
    requires '\n' !in a && '\n' !in b
    requires c == [] || (|c| == 1 && '\n' !in c[0])
    requires chunk == if c == [] then a + "\n" + b else a + "\n" + b + "\n" + c[0]
    ensures Split(chunk, '\n') == [a, b] + c
  {
    if c == [] {
      assert chunk == a + ['\n'] + b;
      SplitAtSeparator(a, '\n', b);
      SplitNoSeparator(b, '\n');
    } else {
      var rest := b + ['\n'] + c[0];
      assert chunk == a + ['\n'] + rest;
      SplitAtSeparator(a, '\n', rest);
      SplitAtSeparator(b, '\n', c[0]);
      SplitNoSeparator(c[0], '\n');
    }
  }

  /**
    A chunk of first line `a` and second line `b` (no newline in either) becomes the pair of
    their stripped forms, unless the second mentions the price and nothing follows it.
   */
  lemma ChunkTwoLines(a: string, b: string)
    requires '\n' !in a && '\n' !in b
    requires PyStrip(a + "\n" + b) == a + "\n" + b
    ensures ChunkEntry(a + "\n" + b) == if Contains(PyStrip(b), PriceOnRequest) then None else Some((PyStrip(a), PyStrip(b)))
  {
    var chunk := a + "\n" + b;
    SplitLines(a, b, [], chunk);
    ChunkOfLines(chunk, [a, b]);
    LinesTwo(a, b);
  }

  lemma LinesTwo(a: string, b: string)
    ensures LinesEntry([a, b]) == if Contains(PyStrip(b), PriceOnRequest) then None else Some((PyStrip(a), PyStrip(b)))
  {
  }

  /**
    A chunk of three lines is always kept with its stripped second line as the description: a
    second line mentioning the price is read again rather than skipped.
   */
  lemma ChunkThreeLines(a: string, b: string, c: string)
    requires '\n' !in a && '\n' !in b && '\n' !in c
    requires PyStrip(a + "\n" + b + "\n" + c) == a + "\n" + b + "\n" + c
    ensures ChunkEntry(a + "\n" + b + "\n" + c) == Some((PyStrip(a), PyStrip(b)))
  {
    var chunk := a + "\n" + b + "\n" + c;
    SplitLines(a, b, [c], chunk);
    assert |chunk| > 0;
    ChunkOfLines(chunk, [a, b, c]);
  }

  /** A missing or unreadable file parses to the empty mapping. */
  lemma ParseFailureIsEmpty(file: FileRead)
    requires !file.Content?
    ensures ParseKitchenFile(file) == []
  {
  }

  /** `parse_kitchen_file`: the loop over the chunks, assigning into `descriptions`. */
  method ParseKitchenFileLoop(file: FileRead) returns (descriptions: Dict<string>)
    ensures descriptions == ParseKitchenFile(file)
  {
    if !file.Content? {
      return [];
    }
    var chunks := Split(file.text, ChunkSeparator);
    descriptions := [];
    var i := 0;
    while i < |chunks|
      invariant 0 <= i <= |chunks|
      invariant descriptions == ParseEntries(chunks[..i])
    {
      assert chunks[..i + 1][..i] == chunks[..i];
      assert ParseEntries(chunks[..i + 1]) == match ChunkEntry(chunks[i]) case None => descriptions case Some(e) => Put(descriptions, e.0, e.1);
      var chunk := chunks[i];
      if PyStrip(chunk) != "" {
        var lines := Split(PyStrip(chunk), '\n');
        if |lines| >= 2 {
          var id := PyStrip(lines[0]);
          var description := PyStrip(lines[1]);
          if Contains(description, PriceOnRequest) {
            if |lines| >= 3 {
              description := PyStrip(lines[1]);
            } else {
              i := i + 1;
              continue;
            }
          }
          descriptions := Put(descriptions, id, description);
        }
      }
      i := i + 1;
    }
    assert chunks[..i] == chunks;
  }

  // ---------------------------------------------------------------------------
  // `update_furniture_descriptions`
  // ---------------------------------------------------------------------------

  /** Item `it` is in the kitchen category and named `id`: `kitchen_items.filter(name=id)`. */
  predicate Matches(it: Item, kitchen: nat, id: string) {
    it.category == kitchen && it.name == id
  }

  /** Every kitchen item named `id` gets `description` and is saved. */
  function Describe(items: seq<Item>, kitchen: nat, id: string, description: string, slugOnSave: Item -> string): (r: seq<Item>)
    ensures |r| == |items|
  {
    seq(|items|, (j: int) requires 0 <= j < |items| =>
      if Matches(items[j], kitchen, id) then Saved(items[j].(description := description), slugOnSave) else items[j])
  }

  /** The mapping applied entry by entry, in its order. */
  function DescribeAll(items: seq<Item>, kitchen: nat, entries: Dict<string>, slugOnSave: Item -> string): (r: seq<Item>)
    ensures |r| == |items|
  {
    if |entries| == 0 then items
    else
      var e := entries[|entries| - 1];
      Describe(DescribeAll(items, kitchen, entries[..|entries| - 1], slugOnSave), kitchen, e.0, e.1, slugOnSave)
  }

  /** Number of kitchen items named `id`. */
  function CountMatches(items: seq<Item>, kitchen: nat, id: string): (n: nat)
    ensures n <= |items|
  {
    if |items| == 0 then 0
    else CountMatches(items[..|items| - 1], kitchen, id) + (if Matches(items[|items| - 1], kitchen, id) then 1 else 0)
  }

  /** A count per entry, added up: `updated_count`. */
  function TotalMatches(items: seq<Item>, kitchen: nat, entries: Dict<string>): nat {
    if |entries| == 0 then 0
    else TotalMatches(items, kitchen, entries[..|entries| - 1]) + CountMatches(items, kitchen, entries[|entries| - 1].0)
  }

  /** The ids, in mapping order, that no kitchen item is named: `not_found_ids`. */
  function Unmatched(items: seq<Item>, kitchen: nat, entries: Dict<string>): (r: seq<string>)
    ensures |r| <= |entries|
  {
    if |entries| == 0 then []
    else
      var prev := Unmatched(items, kitchen, entries[..|entries| - 1]);
      var id := entries[|entries| - 1].0;
      if CountMatches(items, kitchen, id) == 0 then prev + [id] else prev
  }

  /**
    After the whole mapping, a kitchen item whose name is a key carries that key's description
    and has been saved once, so only an empty slug is filled by the save hook; every other item
    is exactly as before.
   */
  lemma {:induction false} DescribeAllResult(items: seq<Item>, kitchen: nat, entries: Dict<string>, slugOnSave: Item -> string, j: nat)
    requires KeysDistinct(entries) && j < |items|
    ensures var r := DescribeAll(items, kitchen, entries, slugOnSave);
            var d := Get(entries, items[j].name);
            r[j] == if items[j].category == kitchen && d.Some? then Saved(items[j].(description := d.value), slugOnSave) else items[j]
  {
    if |entries| > 0 {
      var init := entries[..|entries| - 1];
      assert KeysDistinct(init);
      DescribeAllResult(items, kitchen, init, slugOnSave, j);
      var e := entries[|entries| - 1];
      if e.0 == items[j].name {
        assert Get(init, items[j].name).None? by {
          forall i | 0 <= i < |init|
            ensures init[i].0 != items[j].name
          {
            assert init[i] == entries[i];
          }
        }
      }
    }
  }

  /** Describing changes no name and no category, so later lookups see the same matches. */
  lemma {:induction false} DescribeKeepsMatches(items: seq<Item>, kitchen: nat, entries: Dict<string>, id: string, slugOnSave: Item -> string)
    ensures CountMatches(DescribeAll(items, kitchen, entries, slugOnSave), kitchen, id) == CountMatches(items, kitchen, id)
  {
    if |entries| > 0 {
      var init := entries[..|entries| - 1];
      DescribeKeepsMatches(items, kitchen, init, id, slugOnSave);
      var e := entries[|entries| - 1];
      var before := DescribeAll(items, kitchen, init, slugOnSave);
      DescribeCount(before, kitchen, e.0, e.1, id, slugOnSave);
    }
  }

  lemma {:induction false} DescribeCount(items: seq<Item>, kitchen: nat, id: string, description: string, id': string, slugOnSave: Item -> string)
    ensures CountMatches(Describe(items, kitchen, id, description, slugOnSave), kitchen, id') == CountMatches(items, kitchen, id')
  {
    if |items| > 0 {
      var init := items[..|items| - 1];
      DescribeCount(init, kitchen, id, description, id', slugOnSave);
      assert Describe(items, kitchen, id, description, slugOnSave)[..|items| - 1] == Describe(init, kitchen, id, description, slugOnSave);
    }
  }

  /** An id is reported unmatched exactly when no kitchen item bears it, and nothing is reported twice. */
  lemma {:induction false} UnmatchedIff(items: seq<Item>, kitchen: nat, entries: Dict<string>, id: string)
    requires KeysDistinct(entries)
    ensures id in Unmatched(items, kitchen, entries) <==> id in Keys(entries) && CountMatches(items, kitchen, id) == 0
  {
    if |entries| > 0 {
      var init := entries[..|entries| - 1];
      assert KeysDistinct(init);
      UnmatchedIff(items, kitchen, init, id);
      assert Keys(entries) == Keys(init) + [entries[|entries| - 1].0];
    }
  }

  /** Describing items never touches their primary keys. */
  lemma DescribeKeepsIds(items: seq<Item>, kitchen: nat, id: string, description: string, slugOnSave: Item -> string)
    requires ItemIdsDistinct(items)
    ensures ItemIdsDistinct(Describe(items, kitchen, id, description, slugOnSave))
  {
    var r := Describe(items, kitchen, id, description, slugOnSave);
    forall a, b | 0 <= a < b < |r|
      ensures r[a].id != r[b].id
    {
      assert r[a].id == items[a].id && r[b].id == items[b].id;
    }
  }

  /**
    `update_furniture_descriptions` for one mapping entry: the loop over the matching items,
    writing each description and counting it.
   */
  method DescribeMatching(db: Store, kitchen: nat, id: string, description: string, slugOnSave: Item -> string) returns (count: nat)
    requires db.Valid()
    modifies db
    ensures db.Valid() && db.categories == old(db.categories)
    ensures db.items == Describe(old(db.items), kitchen, id, description, slugOnSave)
    ensures count == CountMatches(old(db.items), kitchen, id)
  {
    ghost var start := db.items;
    var items := db.items;
    count := 0;
    var j := 0;
    while j < |items|
      invariant 0 <= j <= |items| == |start|
      invariant db.items == items && db.categories == old(db.categories)
      invariant forall i :: 0 <= i < j ==> items[i] == Describe(start, kitchen, id, description, slugOnSave)[i]
      invariant forall i :: j <= i < |items| ==> items[i] == start[i]
      invariant count == CountMatches(start[..j], kitchen, id)
    {
      assert start[..j + 1][..j] == start[..j];
      if Matches(items[j], kitchen, id) {
        items := items[j := Saved(items[j].(description := description), slugOnSave)];
        db.items := items;
        count := count + 1;
      }
      j := j + 1;
    }
    assert start[..j] == start;
    DescribeKeepsIds(start, kitchen, id, description, slugOnSave);
  }

  /**
    `update_furniture_descriptions`: the mapping in order, the matching items described, the
    number of items written and the ids nothing matched.
   */
  method UpdateDescriptions(db: Store, kitchen: nat, descriptions: Dict<string>, slugOnSave: Item -> string) returns (updatedCount: nat, notFound: seq<string>)
    requires db.Valid()
    modifies db
    ensures db.Valid() && db.categories == old(db.categories)
    ensures db.items == DescribeAll(old(db.items), kitchen, descriptions, slugOnSave)
    ensures updatedCount == TotalMatches(old(db.items), kitchen, descriptions)
    ensures notFound == Unmatched(old(db.items), kitchen, descriptions)
  {
    ghost var start := db.items;
    updatedCount := 0;
    notFound := [];
    var i := 0;
    while i < |descriptions|
      invariant 0 <= i <= |descriptions|
      invariant db.Valid() && db.categories == old(db.categories)
      invariant db.items == DescribeAll(start, kitchen, descriptions[..i], slugOnSave)
      invariant updatedCount == TotalMatches(start, kitchen, descriptions[..i])
      invariant notFound == Unmatched(start, kitchen, descriptions[..i])
    {
      var (id, description) := descriptions[i];
      assert descriptions[..i + 1][..i] == descriptions[..i];
      DescribeKeepsMatches(start, kitchen, descriptions[..i], id, slugOnSave);
      var count := DescribeMatching(db, kitchen, id, description, slugOnSave);
      if count > 0 {
        updatedCount := updatedCount + count;
      } else {
        notFound := notFound + [id];
      }
      i := i + 1;
    }
    assert descriptions[..i] == descriptions;
  }

  /** How `Command.handle` ends. */
  datatype Outcome =
    | NoKitchenCategory                          // "Kitchen category not found!"
    | SeveralKitchenCategories                   // `get` raises MultipleObjectsReturned, uncaught
    | NoDescriptions                             // "No descriptions found in kitchen.txt"
    | Updated(updatedCount: nat, notFound: seq<string>)

  /** `Command.handle`: find the kitchen category, parse the file, then update. */
  method Handle(db: Store, file: FileRead, slugOnSave: Item -> string) returns (outcome: Outcome)
    requires db.Valid()
    modifies db
    ensures db.Valid() && db.categories == old(db.categories)
    ensures !outcome.Updated? ==> db.items == old(db.items)
    ensures GetCategory(db.categories, KitchenCategoryName).NotFound? <==> outcome == NoKitchenCategory
    ensures GetCategory(db.categories, KitchenCategoryName).Multiple? <==> outcome == SeveralKitchenCategories
    ensures GetCategory(db.categories, KitchenCategoryName).Found? && ParseKitchenFile(file) == [] <==> outcome == NoDescriptions
    ensures outcome.Updated? ==>
              var kitchen := db.categories[GetCategory(db.categories, KitchenCategoryName).value].id;
              && db.items == DescribeAll(old(db.items), kitchen, ParseKitchenFile(file), slugOnSave)
              && outcome.updatedCount == TotalMatches(old(db.items), kitchen, ParseKitchenFile(file))
              && outcome.notFound == Unmatched(old(db.items), kitchen, ParseKitchenFile(file))
  {
    var found := GetCategory(db.categories, KitchenCategoryName);
    if found.NotFound? {
      return NoKitchenCategory;
    } else if found.Multiple? {
      return SeveralKitchenCategories;
    }
    var kitchen := db.categories[found.value].id;
    var descriptions := ParseKitchenFileLoop(file);
    if |descriptions| == 0 {
      return NoDescriptions;
    }
    var updatedCount, notFound := UpdateDescriptions(db, kitchen, descriptions, slugOnSave);
    outcome := Updated(updatedCount, notFound);
  }
}
