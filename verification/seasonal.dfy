/** The summer and winter storefront pages.  The two components are the
    same code with different keywords, so one model serves both, keyed by
    the season. */
module Seasonal {
  import opened Common
  import opened Text
  import opened Js
  import opened Catalog

  datatype Season = Summer | Winter

  /** The two words a season's category name is searched for: English and
      Arabic. */
  function Keywords(season: Season): (string, string) {
    match season
    case Summer => ("summer", "\U{0635}\U{064A}\U{0641}")
    case Winter => ("winter", "\U{0634}\U{062A}\U{0627}\U{0621}")
  }

  /** The lower-cased name contains either keyword anywhere. */
  predicate IsSeasonCategory(season: Season, c: Category) {
    var (en, ar) := Keywords(season);
    Contains(ToLower(c.name), en) || Contains(ToLower(c.name), ar)
  }

  /** `categories.find(...)`: the first category, in fetched order, whose
      name mentions the season. */
  function FindSeasonCategory(season: Season, cats: seq<Category>): (r: Option<Category>)
    ensures r.None? <==> forall i :: 0 <= i < |cats| ==> !IsSeasonCategory(season, cats[i])
    ensures r.Some? ==> exists i :: 0 <= i < |cats| && cats[i] == r.value
                          && IsSeasonCategory(season, cats[i])
                          && forall j :: 0 <= j < i ==> !IsSeasonCategory(season, cats[j])
  {
    match FirstIndex(cats, (c: Category) => IsSeasonCategory(season, c))
    case None => None
    case Some(i) => Some(cats[i])
  }

  /** The test `product.category_id === category.id`. */
  function InCategory(c: Category): Product -> bool {
    (p: Product) => p.categoryId == IdValue(c.id)
  }

  /** The page state. */
  datatype View = View(
    products: seq<Product>,
    subcategories: seq<Subcategory>,
    filtered: seq<Product>,
    selected: string,
    loading: bool)

  /** `loadData`.  The gateway results are inputs: `allProducts` and
      `categories` are the two fetches, `seasonSubs` the subcategory fetch
      for the chosen category (used only when one was chosen).  A failed
      fetch stops the method where it is: what was assigned before it
      stays, nothing after it happens, and loading ends either way. */
  function Load(v: View, season: Season, allProducts: Option<seq<Product>>, categories: Option<seq<Category>>,
                seasonSubs: Option<seq<Subcategory>>): (r: View)
    ensures !r.loading && r.selected == v.selected
    ensures allProducts.None? || categories.None? ==> r == v.(loading := false)
    ensures allProducts.Some? && categories.Some? && FindSeasonCategory(season, categories.value).None? ==>
      r.products == allProducts.value && r.subcategories == [] && r.filtered == allProducts.value
    ensures allProducts.Some? && categories.Some? && FindSeasonCategory(season, categories.value).Some? ==>
      r == LoadSeason(v, allProducts.value, FindSeasonCategory(season, categories.value).value, seasonSubs)
  {
    match (allProducts, categories)
    case (Some(all), Some(cats)) =>
      (match FindSeasonCategory(season, cats)
       case None => v.(products := all, subcategories := [], filtered := all, loading := false)
       case Some(c) => LoadSeason(v, all, c, seasonSubs))
    case _ => v.(loading := false)
  }

  /** The rest of `loadData` once the season's category `c` is found: the
      products under it, in fetched order and with their multiplicities,
      and then the subcategory fetch. */
  function LoadSeason(v: View, all: seq<Product>, c: Category, seasonSubs: Option<seq<Subcategory>>): (r: View)
    ensures !r.loading && r.selected == v.selected
    ensures Subsequence(r.products, all)
    ensures forall i :: 0 <= i < |r.products| ==> r.products[i].categoryId == IdValue(c.id)
    ensures forall i :: 0 <= i < |all| && all[i].categoryId == IdValue(c.id) ==> all[i] in r.products
    ensures forall x :: multiset(r.products)[x] == if x.categoryId == IdValue(c.id) then multiset(all)[x] else 0
    ensures seasonSubs.Some? ==> r.subcategories == seasonSubs.value && r.filtered == r.products
    ensures seasonSubs.None? ==> r.subcategories == v.subcategories && r.filtered == v.filtered
  {
    var mine := Filter(all, InCategory(c));
    FilterIsSubsequence(all, InCategory(c));
    FilterCounts(all, InCategory(c));
    match seasonSubs
    case Some(ss) => v.(products := mine, subcategories := ss, filtered := mine, loading := false)
    case None => v.(products := mine, loading := false)
  }

  /** Whether a product is kept for the selected subcategory:
      `subcategory_id === parseInt(selected)`, which nothing passes when
      the selection does not parse. */
  function MatchesSelection(selected: string): Product -> bool {
    (p: Product) => match ParseInt(selected)
                    case Some(k) => p.subcategoryId == Num(k)
                    case None => false
  }

  /** `onSubcategoryChange`: 'all' shows every product, otherwise the
      products whose subcategory is the selected one, in list order. */
  function OnSubcategoryChange(v: View): (r: View)
    ensures r.products == v.products && r.subcategories == v.subcategories && r.selected == v.selected
    ensures r.loading == v.loading
    ensures v.selected == "all" ==> r.filtered == v.products
    ensures Subsequence(r.filtered, v.products)
    ensures v.selected != "all" ==>
      && (forall i :: 0 <= i < |r.filtered| ==> MatchesSelection(v.selected)(r.filtered[i]))
      && (forall i :: 0 <= i < |v.products| && MatchesSelection(v.selected)(v.products[i])
            ==> v.products[i] in r.filtered)
      && (forall x :: multiset(r.filtered)[x] ==
            if MatchesSelection(v.selected)(x) then multiset(v.products)[x] else 0)
  {
    if v.selected == "all" then
      SubsequenceRefl(v.products);
      v.(filtered := v.products)
    else
      FilterIsSubsequence(v.products, MatchesSelection(v.selected));
      FilterCounts(v.products, MatchesSelection(v.selected));
      v.(filtered := Filter(v.products, MatchesSelection(v.selected)))
  }

  /** Choosing a subcategory from the drop-down, whose option values are
      `String(sub.id)`, shows exactly the products with that numeric id. */
  lemma SelectingSubcategoryId(v: View, n: int)
    requires v.selected == IntToString(n)
    ensures forall i :: 0 <= i < |v.products| ==>
      (v.products[i] in OnSubcategoryChange(v).filtered <== v.products[i].subcategoryId == Num(n))
    ensures forall i :: 0 <= i < |OnSubcategoryChange(v).filtered| ==>
      OnSubcategoryChange(v).filtered[i].subcategoryId == Num(n)
  {
    ParseIntOfIntToString(n);
    assert v.selected != "all" by {
      if n < 0 { assert v.selected[0] == '-'; } else { assert IsDigit(NatToString(n)[0]); }
    }
  }

  /** `getSubcategoryName` on these pages: the first `===` match among the
      season's subcategories, or 'Category'. */
  function GetSubcategoryName(subs: seq<Subcategory>, id: Value): (r: string)
    ensures !Truthy(id) ==> r == "Category"
    ensures r == "Category" || exists i :: 0 <= i < |subs| && IdValue(subs[i].id) == id && subs[i].name == r
    ensures forall i :: 0 <= i < |subs| && Truthy(id) && IdValue(subs[i].id) == id
                        && (forall j :: 0 <= j < i ==> IdValue(subs[j].id) != id)
                        ==> r == subs[i].name
  {
    SubcategoryName(subs, id, "Category")
  }
}
