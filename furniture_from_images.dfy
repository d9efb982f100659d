/**
  Bulk item creation from a directory of pictures (create_furniture_from_images.py): the image
  files of the listing are numbered from 1 in listing order; the i-th becomes an item named
  `<prefix>_<i>` whose slug carries one timestamp shared by the whole run, and the picture is
  copied under a file name of at most 80 characters when the slug allows it.
 */
module FurnitureFromImages {
  import opened Maybe
  import opened Strings
  import opened Catalog

  // ---------------------------------------------------------------------------
  // The image filter
  // ---------------------------------------------------------------------------

  /** `file.lower().endswith((".jpg", ".jpeg", ".png", ".gif"))`. */
  predicate IsImage(file: string) {
    var l := Lower(file);
    EndsWith(l, ".jpg") || EndsWith(l, ".jpeg") || EndsWith(l, ".png") || EndsWith(l, ".gif")
  }

  /** The image files of a listing, in listing order. */
  function Images(listing: seq<string>): (r: seq<string>)
    ensures |r| <= |listing|
  {
    if |listing| == 0 then []
    else
      var prev := Images(listing[..|listing| - 1]);
      if IsImage(listing[|listing| - 1]) then prev + [listing[|listing| - 1]] else prev
  }

  /** A name is kept exactly when it is listed and is an image name. */
  lemma {:induction false} ImagesIff(listing: seq<string>, file: string)
    ensures file in Images(listing) <==> file in listing && IsImage(file)
  {
    if |listing| > 0 {
      var init := listing[..|listing| - 1];
      ImagesIff(init, file);
      assert listing == init + [listing[|listing| - 1]];
    }
  }

  /** Every listed name is an image exactly when the filter keeps them all. */
  lemma {:induction false} ImagesAll(listing: seq<string>)
    ensures Images(listing) == listing <==> forall k :: 0 <= k < |listing| ==> IsImage(listing[k])
  {
    if |listing| > 0 {
      var init := listing[..|listing| - 1];
      ImagesAll(init);
      assert listing == init + [listing[|listing| - 1]];
      if !IsImage(listing[|listing| - 1]) {
        assert |Images(listing)| <= |init| < |listing|;
      } else if Images(listing) == listing {
        assert Images(init) == init by {
          assert Images(listing)[..|init|] == Images(init);
        }
      }
    }
  }

  /** The `for file in os.listdir(directory)` loop. */
  method FilterImages(listing: seq<string>) returns (images: seq<string>)
    ensures images == Images(listing)
  {
    images := [];
    var k := 0;
    while k < |listing|
      invariant 0 <= k <= |listing|
      invariant images == Images(listing[..k])
    {
      assert listing[..k + 1][..k] == listing[..k];
      if IsImage(listing[k]) {
        images := images + [listing[k]];
      }
      k := k + 1;
    }
    assert listing[..k] == listing;
  }

  // ---------------------------------------------------------------------------
  // `os.path.splitext`
  // ---------------------------------------------------------------------------

  /** `s.rfind(c)`: the last index holding `c`, or -1. */
  function RFind(s: string, c: char): (r: int)
    ensures -1 <= r < |s|
    ensures r >= 0 ==> s[r] == c
    ensures forall k :: r < k < |s| ==> s[k] != c
  {
    if |s| == 0 then -1
    else if s[|s| - 1] == c then |s| - 1
    else RFind(s[..|s| - 1], c)
  }

  /**
    The extension `os.path.splitext` returns: from the last dot of the last path component to
    the end, in its original case, unless only dots precede that dot in the component (a
    hidden file such as ".png" has no extension).
   */
  function Ext(file: string): string {
    var sep := RFind(file, '/');
    var dot := RFind(file, '.');
    if sep < dot && HasStem(file, sep + 1, dot) then file[dot..] else ""
  }

  /** Something other than a dot lies in `file[from..to]`. */
  predicate HasStem(file: string, from: int, to: int) {
    exists k | from <= k < to && 0 <= k < |file| :: file[k] != '.'
  }

  /** The extension is a final part of the name: empty, or one dot followed by no other dot. */
  lemma ExtIsSuffix(file: string)
    ensures EndsWith(file, Ext(file))
    ensures var ext := Ext(file); ext == "" || (ext[0] == '.' && '.' !in ext[1..])
  {
    var dot := RFind(file, '.');
    var ext := Ext(file);
    if ext != "" {
      assert ext == file[dot..];
      forall m | 0 <= m < |ext[1..]|
        ensures ext[1..][m] != '.'
      {
        assert ext[1..][m] == file[dot + 1 + m];
      }
    }
  }

  /** LowerChar yields a dot exactly for a dot. */
  lemma LowerCharDot(c: char)
    ensures LowerChar(c) == '.' <==> c == '.'
  {
  }

  /**
    For a name ending in a dot followed by dot-free text, with something other than dots before
    that dot and no directory separator, `splitext` gives back exactly that ending, as written.
   */
  lemma ExtOfSuffix(file: string, at: nat)
    requires at < |file| && file[at] == '.'
    requires forall k :: at < k < |file| ==> file[k] != '.'
    requires '/' !in file
    requires exists k | 0 <= k < at :: file[k] != '.'
    ensures Ext(file) == file[at..]
  {
    assert HasStem(file, 0, at);
    assert RFind(file, '.') == at;
    assert RFind(file, '/') == -1;
  }

  /**
    For an accepted name with something other than dots before its suffix, `splitext` gives
    back that suffix as written, and its lower-cased form is the one the filter matched: the
    extension keeps its case although the filter ignores it.
   */
  lemma ImageExt(file: string, suffix: string)
    requires |suffix| > 0 && suffix[0] == '.' && '.' !in suffix[1..]
    requires '/' !in file
    requires EndsWith(Lower(file), suffix)
    requires exists k | 0 <= k < |file| - |suffix| :: file[k] != '.'
    ensures Ext(file) == file[|file| - |suffix|..]
    ensures Lower(Ext(file)) == suffix
  {
    var at := |file| - |suffix|;
    assert Ext(file) == file[at..] by {
      SuffixDots(file, suffix);
      ExtOfSuffix(file, at);
    }
    assert Lower(file[at..]) == suffix by {
      LowerSuffix(file, at);
    }
  }

  /** Where the lower-cased name ends in a dot-led, otherwise dot-free suffix, so does the name. */
  lemma SuffixDots(file: string, suffix: string)
    requires |suffix| > 0 && suffix[0] == '.' && '.' !in suffix[1..]
    requires EndsWith(Lower(file), suffix)
    ensures file[|file| - |suffix|] == '.'
    ensures forall k :: |file| - |suffix| < k < |file| ==> file[k] != '.'
  {
    var at := |file| - |suffix|;
    var l := Lower(file);
    assert l[at] == '.' by { assert l[at..][0] == suffix[0]; }
    LowerCharDot(file[at]);
    forall k | at < k < |file|
      ensures file[k] != '.'
    {
      assert l[k] == suffix[1..][k - at - 1] by { assert l[at..][k - at] == l[k]; }
      LowerCharDot(file[k]);
    }
  }

  /** Lower-casing commutes with taking a suffix. */
  lemma LowerSuffix(s: string, at: nat)
    requires at <= |s|
    ensures Lower(s[at..]) == Lower(s)[at..]
  {
    var a := Lower(s[at..]);
    var b := Lower(s)[at..];
    forall m | 0 <= m < |a| ensures a[m] == b[m] {
      assert s[at..][m] == s[at + m];
    }
  }

  /** "IMG.JPG" passes the filter and keeps ".JPG" as its extension. */
  lemma UpperCaseExtensionKept()
    ensures IsImage("IMG.JPG") && Ext("IMG.JPG") == ".JPG"
  {
    var file := "IMG.JPG";
    assert Lower(file) == "img.jpg";
    assert file[0] != '.';
    assert '.' !in ".jpg"[1..];
    ImageExt(file, ".jpg");
    assert file[3..] == ".JPG";
  }

  /** ".png" passes the filter, yet `splitext` gives it no extension. */
  lemma HiddenImageHasNoExtension()
    ensures IsImage(".png") && Ext(".png") == ""
  {
    var file := ".png";
    assert Lower(file) == file;
    assert file[0] == '.' && file[1] != '.' && file[2] != '.' && file[3] != '.';
    assert RFind(file, '.') == 0;
  }

  // ---------------------------------------------------------------------------
  // Naming
  // ---------------------------------------------------------------------------

  /** `f"{prefix}_{i}"`. */
  function ItemName(prefix: string, i: nat): string {
    prefix + "_" + NatToString(i)
  }

  /** `f"Description for {prefix}_{i}"`. */
  function ItemDescription(prefix: string, i: nat): string {
    "Description for " + ItemName(prefix, i)
  }

  /** `f"{slugify(name)}_{timestamp}"`. */
  function SlugFor(name: string, timestamp: nat, slugify: string -> string): string {
    slugify(name) + "_" + NatToString(timestamp)
  }

  /** Different positions give different names (and descriptions). */
  lemma ItemNameInjective(prefix: string, i: nat, j: nat)
    ensures ItemName(prefix, i) == ItemName(prefix, j) ==> i == j
    ensures ItemDescription(prefix, i) == ItemDescription(prefix, j) ==> i == j
  {
    if ItemDescription(prefix, i) == ItemDescription(prefix, j) {
      CancelPrefix("Description for ", ItemName(prefix, i), ItemName(prefix, j));
    }
    if ItemName(prefix, i) == ItemName(prefix, j) {
      assert (prefix + "_") + NatToString(i) == (prefix + "_") + NatToString(j);
      CancelPrefix(prefix + "_", NatToString(i), NatToString(j));
      NatToStringInjective(i, j);
    }
  }

  /** The longest destination file name kept as is. */
  const MaxFilenameLength := 80

  /** The destination file name, with the slug cut to 30 characters when the name is too long. */
  function DestFilename(slug: string, i: nat, ext: string): string {
    var full := slug + "_" + NatToString(i) + ext;
    if |full| > MaxFilenameLength then slug[..if |slug| < 30 then |slug| else 30] + "_" + NatToString(i) + ext
    else full
  }

  /**
    The destination keeps the index and the extension at its end and a prefix of the slug at
    its start; it is the untruncated name when that fits, and otherwise keeps 30 characters of
    the slug (all of a shorter one), so it is at most 80 characters or at most 31 plus the
    index and extension.
   */
  lemma DestFilenameShape(slug: string, i: nat, ext: string)
    ensures var r := DestFilename(slug, i, ext);
            var tail := "_" + NatToString(i) + ext;
            exists p :: p <= slug && r == p + tail
                        && (|slug + tail| <= MaxFilenameLength ==> p == slug)
                        && (|slug + tail| > MaxFilenameLength ==> |p| == if |slug| < 30 then |slug| else 30)
    ensures var r := DestFilename(slug, i, ext);
            |r| <= MaxFilenameLength || |r| <= 31 + |NatToString(i)| + |ext|
  {
    var tail := "_" + NatToString(i) + ext;
    var n := if |slug| < 30 then |slug| else 30;
    assert slug + "_" + NatToString(i) + ext == slug + tail;
    assert slug[..n] + "_" + NatToString(i) + ext == slug[..n] + tail;
    if |slug + tail| > MaxFilenameLength {
      assert slug[..n] <= slug;
    }
  }

  /** `os.path.join("furniture_images", dest_filename)`. */
  function MediaPath(dest: string): string {
    "furniture_images/" + dest
  }

  // ---------------------------------------------------------------------------
  // The run, as a function of the table
  // ---------------------------------------------------------------------------

  /** The row `objects.create` inserts for the i-th image. */
  function NewRow(id: nat, cat: nat, prefix: string, i: nat, timestamp: nat, slugify: string -> string): Item {
    Item(id, cat, ItemName(prefix, i), SlugFor(ItemName(prefix, i), timestamp, slugify), ItemDescription(prefix, i),
         false, true, "", "", None)
  }

  /** The row after the copy: `main_image` is set only when the copy succeeds. */
  function AfterCopy(row: Item, file: string, i: nat, copyOk: (string, string) -> bool): Item {
    var dest := DestFilename(row.slug, i, Ext(file));
    if copyOk(file, dest) then row.(mainImage := Some(MediaPath(dest))) else row
  }

  /** The row for the i-th image (1-based), created with key `id`. */
  function ImageRow(id: nat, cat: nat, prefix: string, timestamp: nat, file: string, i: nat,
                    slugify: string -> string, copyOk: (string, string) -> bool): Item {
    AfterCopy(NewRow(id, cat, prefix, i, timestamp, slugify), file, i, copyOk)
  }

  /**
    The table after the loop: each `objects.create` takes the key one past the largest, so the
    k-th new row (0-based) has key `MaxItemId(items) + k`.
   */
  function Imported(items: seq<Item>, cat: nat, prefix: string, timestamp: nat, images: seq<string>,
                    slugify: string -> string, copyOk: (string, string) -> bool): (r: seq<Item>)
    ensures |r| == |items| + |images|
  {
    items + NewRows(MaxItemId(items), cat, prefix, timestamp, images, slugify, copyOk)
  }

  /** The rows created for `images`, keyed from `base` on. */
  function NewRows(base: nat, cat: nat, prefix: string, timestamp: nat, images: seq<string>,
                   slugify: string -> string, copyOk: (string, string) -> bool): (r: seq<Item>)
    ensures |r| == |images|
  {
    seq(|images|, (k: int) requires 0 <= k < |images| =>
                    ImageRow(base + k, cat, prefix, timestamp, images[k], k + 1, slugify, copyOk))
  }

  /** One more image adds one row. */
  lemma NewRowsSnoc(base: nat, cat: nat, prefix: string, timestamp: nat, images: seq<string>,
                    slugify: string -> string, copyOk: (string, string) -> bool, i: nat)
    requires i < |images|
    ensures NewRows(base, cat, prefix, timestamp, images[..i + 1], slugify, copyOk)
            == NewRows(base, cat, prefix, timestamp, images[..i], slugify, copyOk)
               + [ImageRow(base + i, cat, prefix, timestamp, images[i], i + 1, slugify, copyOk)]
  {
    var longer := NewRows(base, cat, prefix, timestamp, images[..i + 1], slugify, copyOk);
    var shorter := NewRows(base, cat, prefix, timestamp, images[..i], slugify, copyOk);
    forall k | 0 <= k < i
      ensures longer[k] == shorter[k]
    {
      assert images[..i + 1][k] == images[..i][k];
    }
    assert images[..i + 1][i] == images[i];
  }

  /**
    The existing rows stay; the row for the i-th image (1-based) has the sequential name and
    description, the run's category, the flags the create call sets, a slug ending in the
    run's one timestamp, a key above every earlier row's, and an image path exactly when its
    copy succeeded.
   */
  lemma ImportedRow(items: seq<Item>, cat: nat, prefix: string, timestamp: nat, images: seq<string>,
                    slugify: string -> string, copyOk: (string, string) -> bool, k: nat)
    requires k < |images|
    ensures var r := Imported(items, cat, prefix, timestamp, images, slugify, copyOk);
            var row := r[|items| + k];
            var dest := DestFilename(row.slug, k + 1, Ext(images[k]));
            && r[..|items|] == items
            && row.name == ItemName(prefix, k + 1) && row.description == ItemDescription(prefix, k + 1)
            && row.category == cat && !row.isFeatured && row.isActive && row.dimensions == "" && row.materials == ""
            && row.slug == slugify(row.name) + "_" + NatToString(timestamp)
            && EndsWith(row.slug, "_" + NatToString(timestamp))
            && (forall l :: 0 <= l < |items| + k ==> r[l].id < row.id)
            && row.mainImage == if copyOk(images[k], dest) then Some(MediaPath(dest)) else None
  {
    var r := Imported(items, cat, prefix, timestamp, images, slugify, copyOk);
    var row := r[|items| + k];
    assert r[..|items|] == items;
    var tail := "_" + NatToString(timestamp);
    assert row.slug == slugify(row.name) + tail;
    assert row.slug[|row.slug| - |tail|..] == tail;
  }

  /** Created keys are fresh, so keys stay unique. */
  lemma ImportedKeysDistinct(items: seq<Item>, cat: nat, prefix: string, timestamp: nat, images: seq<string>,
                             slugify: string -> string, copyOk: (string, string) -> bool)
    requires ItemIdsDistinct(items)
    ensures ItemIdsDistinct(Imported(items, cat, prefix, timestamp, images, slugify, copyOk))
  {
    var r := Imported(items, cat, prefix, timestamp, images, slugify, copyOk);
    forall a, b | 0 <= a < b < |r|
      ensures r[a].id != r[b].id
    {
      if b >= |items| {
        ImportedRow(items, cat, prefix, timestamp, images, slugify, copyOk, b - |items|);
      }
    }
  }

  /** Before the first image the table is unchanged. */
  lemma ImportedNone(items: seq<Item>, cat: nat, prefix: string, timestamp: nat, images: seq<string>,
                     slugify: string -> string, copyOk: (string, string) -> bool)
    ensures Imported(items, cat, prefix, timestamp, images[..0], slugify, copyOk) == items
  {
  }

  /** One more image adds its row at the end. */
  lemma ImportedGrows(start: seq<Item>, created: seq<Item>, items: seq<Item>, cat: nat, prefix: string, timestamp: nat,
                      images: seq<string>, slugify: string -> string, copyOk: (string, string) -> bool, i: nat)
    requires i < |images|
    requires created == Imported(start, cat, prefix, timestamp, images[..i], slugify, copyOk)
    requires MaxItemId(created) == MaxItemId(start) + i
    requires items == created + [ImageRow(MaxItemId(created), cat, prefix, timestamp, images[i], i + 1, slugify, copyOk)]
    ensures items == Imported(start, cat, prefix, timestamp, images[..i + 1], slugify, copyOk)
  {
    NewRowsSnoc(MaxItemId(start), cat, prefix, timestamp, images, slugify, copyOk, i);
  }

  /** A row keyed one past the largest key keeps keys unique. */
  lemma FreshRowKeepsKeysDistinct(items: seq<Item>, row: Item)
    requires ItemIdsDistinct(items) && row.id == MaxItemId(items)
    ensures ItemIdsDistinct(items + [row])
  {
    var all := items + [row];
    forall a, b | 0 <= a < b < |all|
      ensures all[a].id != all[b].id
    {
      assert all[a] == items[a];
    }
  }

  /** Creating the row keyed `MaxItemId(items)` moves the next key up by one. */
  lemma MaxItemIdAppend(items: seq<Item>, row: Item)
    requires row.id == MaxItemId(items)
    ensures MaxItemId(items + [row]) == row.id + 1
  {
    assert ItemKeys(items + [row])[..|items|] == ItemKeys(items);
  }

  // ---------------------------------------------------------------------------
  // `Command.handle`
  // ---------------------------------------------------------------------------

  /** One iteration: create the i-th row, then copy its picture and record the path on success. */
  method CreateItem(db: Store, cat: nat, prefix: string, timestamp: nat, file: string, i: nat,
                    slugify: string -> string, copyOk: (string, string) -> bool)
    requires db.Valid()
    modifies db
    ensures db.Valid() && db.categories == old(db.categories)
    ensures db.items == old(db.items) + [ImageRow(MaxItemId(old(db.items)), cat, prefix, timestamp, file, i, slugify, copyOk)]
  {
    var name := ItemName(prefix, i);
    var description := ItemDescription(prefix, i);
    var slug := SlugFor(name, timestamp, slugify);
    var row := Item(db.NextItemId(), cat, name, slug, description, false, true, "", "", None);
    FreshRowKeepsKeysDistinct(db.items, row);
    db.items := db.items + [row];
    var dest := DestFilename(slug, i, Ext(file));
    if copyOk(file, dest) {
      FreshRowKeepsKeysDistinct(old(db.items), row.(mainImage := Some(MediaPath(dest))));
      db.items := db.items[|db.items| - 1 := row.(mainImage := Some(MediaPath(dest)))];
    }
  }

  /** The `for i, image_file in enumerate(image_files, 1)` loop: create the row, then copy. */
  method ImportAll(db: Store, cat: nat, prefix: string, timestamp: nat, images: seq<string>,
                   slugify: string -> string, copyOk: (string, string) -> bool)
    requires db.Valid()
    modifies db
    ensures db.Valid() && db.categories == old(db.categories)
    ensures db.items == Imported(old(db.items), cat, prefix, timestamp, images, slugify, copyOk)
  {
    ghost var start := db.items;
    ImportedNone(start, cat, prefix, timestamp, images, slugify, copyOk);
    var i := 0;
    while i < |images|
      invariant 0 <= i <= |images|
      invariant db.Valid() && db.categories == old(db.categories)
      invariant db.items == Imported(start, cat, prefix, timestamp, images[..i], slugify, copyOk)
      invariant MaxItemId(db.items) == MaxItemId(start) + i
    {
      ghost var created := db.items;
      CreateItem(db, cat, prefix, timestamp, images[i], i + 1, slugify, copyOk);
      MaxItemIdAppend(created, ImageRow(MaxItemId(created), cat, prefix, timestamp, images[i], i + 1, slugify, copyOk));
      ImportedGrows(start, created, db.items, cat, prefix, timestamp, images, slugify, copyOk, i);
      i := i + 1;
    }
    assert images[..i] == images;
  }

  /** How `Command.handle` ends. */
  datatype Outcome =
    | NoDirectory          // "Directory ... does not exist"
    | NoCategory           // "Category ... does not exist"
    | SeveralCategories    // `get` raises MultipleObjectsReturned, which is not caught
    | NoImages             // "No image files found in ..."
    | Created(reported: nat)  // "Successfully created <len(image_files)> furniture items"

  /**
    `Command.handle`. The directory listing, its existence and the outcome of each copy are
    inputs. Every early return comes before any row is created; otherwise the rows of
    `Imported` are added and the message reports the number of images, whatever the copies did.
   */
  method Handle(db: Store, directoryExists: bool, listing: seq<string>, categoryName: string, prefix: string,
                timestamp: nat, slugify: string -> string, copyOk: (string, string) -> bool)
    returns (outcome: Outcome)
    requires db.Valid()
    modifies db
    ensures db.Valid() && db.categories == old(db.categories)
    ensures !directoryExists ==> outcome == NoDirectory && db.items == old(db.items)
    ensures directoryExists && GetCategory(db.categories, categoryName).NotFound? ==>
              outcome == NoCategory && db.items == old(db.items)
    ensures directoryExists && GetCategory(db.categories, categoryName).Multiple? ==>
              outcome == SeveralCategories && db.items == old(db.items)
    ensures directoryExists && GetCategory(db.categories, categoryName).Found? ==>
              var images := Images(listing);
              var cat := db.categories[GetCategory(db.categories, categoryName).value].id;
              && (|images| == 0 ==> outcome == NoImages && db.items == old(db.items))
              && (|images| > 0 ==> outcome == Created(|images|)
                                   && db.items == Imported(old(db.items), cat, prefix, timestamp, images, slugify, copyOk))
  {
    if !directoryExists {
      return NoDirectory;
    }
    var found := GetCategory(db.categories, categoryName);
    if found.NotFound? {
      return NoCategory;
    } else if found.Multiple? {
      return SeveralCategories;
    }
    var cat := db.categories[found.value].id;
    var images := FilterImages(listing);
    if |images| == 0 {
      return NoImages;
    }
    ImportAll(db, cat, prefix, timestamp, images, slugify, copyOk);
    outcome := Created(|images|);
  }
}
