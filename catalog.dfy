/**
  The furniture catalogue tables the maintenance commands work on, as one in-memory store: the
  FurnitureItem rows and the FurnitureCategory rows, each with a primary key. Lookups follow
  Django's `objects.get(...)`: no row, one row, or several rows (an uncaught error).
 */
module Catalog {
  import opened Maybe
  import opened Strings

  /** A FurnitureItem row. `category` is the primary key of its FurnitureCategory. */
  datatype Item = Item(
    id: nat,
    category: nat,
    name: string,
    slug: string,
    description: string,
    isFeatured: bool,
    isActive: bool,
    dimensions: string,
    materials: string,
    mainImage: Option<string>)

  /** A FurnitureCategory row. */
  datatype Category = Category(id: nat, name: string, slug: string, description: string, order: int, isActive: bool)

  /** The two rows agree on every column except the slug. */
  predicate SameExceptSlug(a: Item, b: Item) {
    && a.id == b.id && a.category == b.category && a.name == b.name && a.description == b.description
    && a.isFeatured == b.isFeatured && a.isActive == b.isActive && a.dimensions == b.dimensions
    && a.materials == b.materials && a.mainImage == b.mainImage
  }

  /**
    `item.save()`: the model's save-time hook `slugOnSave` fills in an empty slug; a row whose
    slug is set is stored as it is, and no other column is touched.
   */
  function Saved(row: Item, slugOnSave: Item -> string): (r: Item)
    ensures r == row.(slug := r.slug)
    ensures row.slug != "" ==> r == row
    ensures row.slug == "" ==> r.slug == slugOnSave(row)
  {
    if row.slug == "" then row.(slug := slugOnSave(row)) else row
  }

  predicate ItemIdsDistinct(items: seq<Item>) {
    forall i, j :: 0 <= i < j < |items| ==> items[i].id != items[j].id
  }

  predicate CategoryIdsDistinct(cats: seq<Category>) {
    forall i, j :: 0 <= i < j < |cats| ==> cats[i].id != cats[j].id
  }

  /** `f"item-{pk}"`, the fallback slug the commands use. */
  function ItemSlug(id: nat): (s: string)
    ensures |s| > 0
  {
    "item-" + NatToString(id)
  }

  /** Indices of the categories named `name`. */
  function CategoriesNamed(cats: seq<Category>, name: string): (ix: seq<nat>)
    ensures forall k :: 0 <= k < |ix| ==> ix[k] < |cats| && cats[ix[k]].name == name
    ensures forall i :: 0 <= i < |cats| && cats[i].name == name ==> i in ix
    ensures forall k, l :: 0 <= k < l < |ix| ==> ix[k] < ix[l]
  {
    if |cats| == 0 then []
    else
      var prev := CategoriesNamed(cats[..|cats| - 1], name);
      if cats[|cats| - 1].name == name then prev + [|cats| - 1] else prev
  }

  /** `FurnitureCategory.objects.get(name=name)`, giving the row's index. */
  function GetCategory(cats: seq<Category>, name: string): (r: Lookup<nat>)
    ensures r.NotFound? <==> forall i :: 0 <= i < |cats| ==> cats[i].name != name
    ensures r.Found? ==> r.value < |cats| && cats[r.value].name == name
                         && forall i :: 0 <= i < |cats| && cats[i].name == name ==> i == r.value
    ensures r.Multiple? ==> exists i, j :: 0 <= i < j < |cats| && cats[i].name == name && cats[j].name == name
  {
    var ix := CategoriesNamed(cats, name);
    if |ix| == 0 then NotFound
    else if |ix| == 1 then Found(ix[0])
    else
      assert ix[0] < ix[1];
      Multiple
  }

  /** `FurnitureItem.objects.get(name=name, category=category)`, giving the row's index. */
  function GetItem(items: seq<Item>, name: string, category: nat): (r: Lookup<nat>)
    ensures r.NotFound? <==> forall i :: 0 <= i < |items| ==> !(items[i].name == name && items[i].category == category)
    ensures r.Found? ==> r.value < |items| && items[r.value].name == name && items[r.value].category == category
                         && forall i :: 0 <= i < |items| && items[i].name == name && items[i].category == category ==> i == r.value
    ensures r.Multiple? ==> exists i, j :: 0 <= i < j < |items| && items[i].name == name && items[i].category == category
                                        && items[j].name == name && items[j].category == category
  {
    if |items| == 0 then NotFound
    else
      var prev := GetItem(items[..|items| - 1], name, category);
      var last := |items| - 1;
      if items[last].name == name && items[last].category == category then
        if prev.NotFound? then Found(last)
        else if prev.Found? then
          assert items[prev.value] == items[..last][prev.value];
          Multiple
        else
          Multiple
      else
        assert forall i :: 0 <= i < last ==> items[i] == items[..last][i];
        prev
  }

  /** The two tables, updated in place by the maintenance commands. */
  class Store {
    var items: seq<Item>
    var categories: seq<Category>

    /** Primary keys are unique. */
    ghost predicate Valid()
      reads this
    {
      ItemIdsDistinct(items) && CategoryIdsDistinct(categories)
    }

    constructor (items: seq<Item>, categories: seq<Category>)
      requires ItemIdsDistinct(items) && CategoryIdsDistinct(categories)
      ensures Valid() && this.items == items && this.categories == categories
    {
      this.items := items;
      this.categories := categories;
    }

    /** One past the largest item key, the key the next created row receives. */
    function NextItemId(): (id: nat)
      reads this
      ensures forall i :: 0 <= i < |items| ==> items[i].id < id
    {
      MaxItemId(items)
    }
  }

  /** One past the largest key, at least 1: the key a newly saved row receives. */
  function MaxKey(keys: seq<nat>): (k: nat)
    ensures k >= 1
    ensures forall i :: 0 <= i < |keys| ==> keys[i] < k
  {
    if |keys| == 0 then 1
    else
      var m := MaxKey(keys[..|keys| - 1]);
      var last := keys[|keys| - 1] + 1;
      if m < last then last else m
  }

  /** The primary keys of the items, in table order. */
  function ItemKeys(items: seq<Item>): (keys: seq<nat>)
    ensures |keys| == |items| && forall i :: 0 <= i < |items| ==> keys[i] == items[i].id
  {
    seq(|items|, (i: int) requires 0 <= i < |items| => items[i].id)
  }

  function MaxItemId(items: seq<Item>): (id: nat)
    ensures forall i :: 0 <= i < |items| ==> items[i].id < id
  {
    MaxKey(ItemKeys(items))
  }

  function MaxCategoryId(cats: seq<Category>): (id: nat)
    ensures forall i :: 0 <= i < |cats| ==> cats[i].id < id
  {
    var keys := seq(|cats|, (i: int) requires 0 <= i < |cats| => cats[i].id);
    assert forall i :: 0 <= i < |cats| ==> keys[i] == cats[i].id;
    MaxKey(keys)
  }
}
