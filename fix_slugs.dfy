/**
  The slug repair pass (fix_furniture_slugs.py): every item gets a non-empty slug, and a slug
  that another item already holds gets the first free "-1", "-2", … suffix.
 */
module FixSlugs {
  import opened Maybe
  import opened Strings
  import opened Catalog

  /**
    Some item with another primary key holds `slug`: the query
    `filter(~Q(pk=item.pk), slug=slug).exists()` for the item at index `i`.
   */
  predicate TakenByOther(items: seq<Item>, i: nat, slug: string)
    requires i < |items|
  {
    exists j :: 0 <= j < |items| && items[j].id != items[i].id && items[j].slug == slug
  }

  /** The slugs of the items with another primary key than the item at `i`. */
  function OtherSlugs(items: seq<Item>, i: nat): set<string>
    requires i < |items|
  {
    set j | 0 <= j < |items| && items[j].id != items[i].id :: items[j].slug
  }

  /** `f"{base_slug}-{counter}"` */
  function Suffixed(base: string, c: nat): string {
    base + "-" + NatToString(c)
  }

  /** Different counters give different slugs, and none of them is the base itself. */
  lemma SuffixedInjective(base: string, a: nat, b: nat)
    ensures Suffixed(base, a) != base
    ensures Suffixed(base, a) == Suffixed(base, b) ==> a == b
  {
    if Suffixed(base, a) == Suffixed(base, b) {
      assert Suffixed(base, a) == base + ("-" + NatToString(a));
      assert Suffixed(base, b) == base + ("-" + NatToString(b));
      CancelPrefix(base, "-" + NatToString(a), "-" + NatToString(b));
      CancelPrefix("-", NatToString(a), NatToString(b));
      NatToStringInjective(a, b);
    }
  }

  /** The suffixed slugs for the counters 1..n. */
  function SuffixesUpTo(base: string, n: nat): set<string> {
    set c | 1 <= c <= n :: Suffixed(base, c)
  }

  lemma {:induction false} SuffixesUpToSize(base: string, n: nat)
    ensures |SuffixesUpTo(base, n)| == n
  {
    if n > 0 {
      SuffixesUpToSize(base, n - 1);
      assert SuffixesUpTo(base, n) == SuffixesUpTo(base, n - 1) + {Suffixed(base, n)};
      if Suffixed(base, n) in SuffixesUpTo(base, n - 1) {
        var c :| 1 <= c <= n - 1 && Suffixed(base, c) == Suffixed(base, n);
        SuffixedInjective(base, c, n);
        assert false;
      }
    }
  }

  /**
    The duplicate check and suffix loop for the item at index `i` whose slug is now `base`:
    a free slug is kept (suffix 0); a taken one becomes `base-c` for the smallest c >= 1 that
    no other item holds.
   */
  method Deduplicate(items: seq<Item>, i: nat, base: string) returns (slug: string, suffix: nat)
    requires i < |items|
    ensures !TakenByOther(items, i, slug)
    ensures suffix == 0 ==> slug == base
    ensures suffix == 0 <==> !TakenByOther(items, i, base)
    ensures suffix > 0 ==> slug == Suffixed(base, suffix)
    ensures forall c :: 1 <= c < suffix ==> TakenByOther(items, i, Suffixed(base, c))
  {
    slug := base;
    suffix := 0;
    if TakenByOther(items, i, slug) {
      var counter := 1;
      ghost var others := OtherSlugs(items, i);
      while TakenByOther(items, i, slug)
        invariant counter >= 1
        invariant slug == if counter == 1 then base else Suffixed(base, counter - 1)
        invariant TakenByOther(items, i, base)
        invariant forall c :: 1 <= c < counter - 1 ==> TakenByOther(items, i, Suffixed(base, c))
        decreases |others| + 1 - counter
      {
        assert forall c :: 1 <= c <= counter - 1 ==> Suffixed(base, c) in others;
        assert SuffixesUpTo(base, counter - 1) <= others;
        SuffixesUpToSize(base, counter - 1);
        SubsetSize(SuffixesUpTo(base, counter - 1), others);
        slug := Suffixed(base, counter);
        counter := counter + 1;
      }
      suffix := counter - 1;
    }
  }

  lemma SubsetSize<T>(a: set<T>, b: set<T>)
    requires a <= b
    ensures |a| <= |b|
  {
    assert b == a + (b - a);
  }

  /** The slug an empty slug is replaced with: the slugified name, else `item-<pk>`. */
  function FallbackSlug(item: Item, slugify: string -> string): (s: string)
    ensures s != ""
    ensures item.name != "" && slugify(item.name) != "" ==> s == slugify(item.name)
    ensures item.name == "" || slugify(item.name) == "" ==> s == ItemSlug(item.id)
  {
    var base := if item.name != "" then slugify(item.name) else ItemSlug(item.id);
    if base == "" then ItemSlug(item.id) else base
  }

  /** Number of positions below `k` where the two tables hold different slugs. */
  function ChangedBelow(a: seq<Item>, b: seq<Item>, k: nat): nat
    requires k <= |a| && k <= |b|
  {
    if k == 0 then 0
    else ChangedBelow(a, b, k - 1) + (if a[k - 1].slug != b[k - 1].slug then 1 else 0)
  }

  lemma {:induction false} ChangedBelowPrefix(a: seq<Item>, b: seq<Item>, b': seq<Item>, k: nat)
    requires k <= |a| && k <= |b| && k <= |b'|
    requires forall l :: 0 <= l < k ==> b[l] == b'[l]
    ensures ChangedBelow(a, b, k) == ChangedBelow(a, b', k)
  {
    if k > 0 {
      ChangedBelowPrefix(a, b, b', k - 1);
    }
  }

  /**
    One pass of the loop body for the item at index `k`, against the table `items` as it stands:
    the new row (only the slug may differ) and whether it needed saving. A non-empty slug that no
    other item holds is kept as it is.
   */
  method FixItem(items: seq<Item>, k: nat, slugify: string -> string) returns (item: Item, changed: bool)
    requires k < |items|
    ensures SameExceptSlug(items[k], item)
    ensures item.slug != ""
    ensures !TakenByOther(items, k, item.slug)
    ensures changed <==> item.slug != items[k].slug
    ensures items[k].slug != "" && !TakenByOther(items, k, items[k].slug) ==> !changed
    ensures items[k].slug == "" ==> StartsWith(item.slug, FallbackSlug(items[k], slugify))
  {
    item := items[k];
    changed := false;
    if item.slug == "" {
      changed := true;
      item := item.(slug := FallbackSlug(item, slugify));
    }
    var slug, suffix := Deduplicate(items, k, item.slug);
    if suffix > 0 {
      changed := true;
      SuffixedInjective(item.slug, suffix, suffix);
      item := item.(slug := slug);
    }
  }

  /**
    What holds after the first `k` items have been handled, starting from the table `start`:
    only slugs changed, the handled items have non-empty pairwise distinct slugs, a handled item
    whose slug was non-empty and unique at its turn kept it, the rest is untouched, and
    `fixedCount` counts the changed rows.
   */
  ghost predicate Progress(start: seq<Item>, items: seq<Item>, k: nat, fixedCount: nat) {
    && k <= |start| == |items|
    && ItemIdsDistinct(items)
    && (forall l :: 0 <= l < |items| ==> SameExceptSlug(start[l], items[l]))
    && (forall l :: k <= l < |items| ==> items[l] == start[l])
    && (forall l :: 0 <= l < k ==> items[l].slug != "")
    && (forall l, m :: 0 <= l < m < k ==> items[l].slug != items[m].slug)
    && (forall l :: 0 <= l < k && KeptAtTurn(start, items, l) ==> items[l].slug == start[l].slug)
    && fixedCount == ChangedBelow(start, items, k)
  }

  /**
    The item at `l` had a non-empty slug that, at its turn, neither an earlier (already fixed)
    item nor a later (not yet visited) item held.
   */
  ghost predicate KeptAtTurn(start: seq<Item>, items: seq<Item>, l: nat)
    requires l < |start| == |items|
  {
    && start[l].slug != ""
    && (forall m :: 0 <= m < l ==> items[m].slug != start[l].slug)
    && (forall m :: l < m < |start| ==> start[m].slug != start[l].slug)
  }

  /** Handling item `k` as `FixItem` does extends `Progress` to `k + 1`. */
  lemma ProgressStep(start: seq<Item>, items: seq<Item>, k: nat, fixedCount: nat, item: Item, changed: bool)
    requires Progress(start, items, k, fixedCount) && k < |items|
    requires SameExceptSlug(items[k], item) && item.slug != ""
    requires !TakenByOther(items, k, item.slug)
    requires changed <==> item.slug != items[k].slug
    requires items[k].slug != "" && !TakenByOther(items, k, items[k].slug) ==> !changed
    ensures var items' := if changed then items[k := item] else items;
            Progress(start, items', k + 1, if changed then fixedCount + 1 else fixedCount)
  {
    var items' := if changed then items[k := item] else items;
    assert items'[k].slug == item.slug;
    ChangedBelowPrefix(start, items, items', k);
    forall l | 0 <= l < k
      ensures items'[l].slug != items'[k].slug
    {
      assert items'[l] == items[l] && items[l].id != items[k].id;
    }
    forall l | 0 <= l <= k && KeptAtTurn(start, items', l)
      ensures items'[l].slug == start[l].slug
    {
      if l == k {
        assert !TakenByOther(items, k, items[k].slug);
      } else {
        assert KeptAtTurn(start, items, l);
      }
    }
  }

  /**
    `Command.handle`: walks the items in order, fills an empty slug, de-duplicates against the
    table as it stands (earlier items already fixed, later ones not yet), saves only the slug,
    and returns how many items it fixed.
   */
  method Handle(db: Store, slugify: string -> string) returns (fixedCount: nat)
    requires db.Valid()
    modifies db
    ensures db.Valid() && db.categories == old(db.categories)
    ensures |db.items| == |old(db.items)|
    ensures forall k :: 0 <= k < |db.items| ==> SameExceptSlug(old(db.items)[k], db.items[k])
    ensures forall k :: 0 <= k < |db.items| ==> db.items[k].slug != ""
    ensures forall k, l :: 0 <= k < l < |db.items| ==> db.items[k].slug != db.items[l].slug
    ensures forall k :: 0 <= k < |db.items| && KeptAtTurn(old(db.items), db.items, k)
              ==> db.items[k].slug == old(db.items)[k].slug
    ensures fixedCount == ChangedBelow(old(db.items), db.items, |db.items|)
  {
    var items := db.items;
    ghost var start := items;
    var n := |items|;
    fixedCount := 0;
    var k := 0;
    while k < n
      invariant 0 <= k <= n
      invariant db.items == items && db.categories == old(db.categories)
      invariant Progress(start, items, k, fixedCount)
    {
      var item, changed := FixItem(items, k, slugify);
      ProgressStep(start, items, k, fixedCount, item, changed);
      if changed {
        items := items[k := item];
        db.items := items;
        fixedCount := fixedCount + 1;
      }
      k := k + 1;
    }
  }
}
