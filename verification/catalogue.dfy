/** The pure logic inside the product listing page
    (src/components/ProductList/ProductList.tsx): label capitalisation,
    stable category ids, the sale-price mapping of fetched products, the
    five price buckets, the category lookup table and the facet filter. */
module Catalogue {
  import opened Wrappers
  import opened Js
  import opened Text
  import opened Seqs

  /** Upper-cases the first character and lower-cases the rest. */
  function CapitalizeWord(t: string): (r: string)
    ensures |r| == |t|
    ensures r != "" ==> r[0] == UpperChar(t[0])
    ensures forall i :: 1 <= i < |r| ==> r[i] == LowerChar(t[i])
  {
    if t == "" then "" else [UpperChar(t[0])] + ToLower(t[1..])
  }

  /** `capitalize`: the trimmed text with its first character upper-cased
      and the rest lower-cased; `None` stands for `null`/`undefined`. */
  function Capitalize(s: Option<string>): (r: string)
    ensures var t := Trim(s.GetOr(""));
      && (r == "" <==> t == "")
      && |r| == |t|
      && (r != "" ==> r[0] == UpperChar(t[0]))
      && (forall i :: 1 <= i < |r| ==> r[i] == LowerChar(t[i]))
  {
    var str := Trim(s.GetOr(""));
    if str == "" then "" else CapitalizeWord(str)
  }

  /** Capitalising twice is capitalising once. */
  lemma CapitalizeIdempotent(s: Option<string>)
    ensures Capitalize(Some(Capitalize(s))) == Capitalize(s)
  {
    var t := Trim(s.GetOr(""));
    var c := Capitalize(s);
    if c != "" {
      CapitalizedIsTrimmed(t, c);
      CapitalizeOfTrimmed(c);
      RecapitalizeSame(t, c);
    }
  }

  lemma CapitalizeOfTrimmed(c: string)
    requires Trimmed(c) && c != ""
    ensures Capitalize(Some(c)) == [UpperChar(c[0])] + ToLower(c[1..])
  {
    TrimOfTrimmed(c);
    assert Some(c).GetOr("") == c;
  }

  lemma RecapitalizeSame(t: string, c: string)
    requires t != "" && |c| == |t|
    requires c[0] == UpperChar(t[0])
    requires forall i :: 1 <= i < |c| ==> c[i] == LowerChar(t[i])
    ensures [UpperChar(c[0])] + ToLower(c[1..]) == c
  {
    var d := [UpperChar(c[0])] + ToLower(c[1..]);
    LowerOfUpper(t[0]);
    forall i | 1 <= i < |d| ensures d[i] == c[i] {
      assert d[i] == LowerChar(c[i]);
      assert LowerChar(LowerChar(t[i])) == LowerChar(t[i]);
    }
  }

  /** A capitalised trimmed string is still trimmed. */
  lemma CapitalizedIsTrimmed(t: string, c: string)
    requires Trimmed(t) && t != "" && |c| == |t|
    requires c[0] == UpperChar(t[0])
    requires forall i :: 1 <= i < |c| ==> c[i] == LowerChar(t[i])
    ensures Trimmed(c)
  {
    CaseKeepsSpace(t[0]);
    CaseKeepsSpace(t[|t| - 1]);
  }

  /** The property names `stableCatId` tries, in priority order. */
  const CatIdKeys: seq<string> := ["slug", "_id", "id", "name"]

  predicate NonEmptyStringProp(props: map<string, Value>, key: string)
  {
    key in props && props[key].Str? && props[key].s != ""
  }

  /** The first of `keys` whose property is a non-empty string, or "". */
  function FirstStringProp(props: map<string, Value>, keys: seq<string>): (r: string)
    ensures r == "" <==> forall i :: 0 <= i < |keys| ==> !NonEmptyStringProp(props, keys[i])
    ensures r != "" ==> exists i :: (0 <= i < |keys| && NonEmptyStringProp(props, keys[i])
      && props[keys[i]] == Str(r)
      && forall j :: 0 <= j < i ==> !NonEmptyStringProp(props, keys[j]))
  {
    if |keys| == 0 then ""
    else if NonEmptyStringProp(props, keys[0]) then props[keys[0]].s
    else
      var r := FirstStringProp(props, keys[1..]);
      assert forall i :: 1 <= i < |keys| ==> keys[i] == keys[1..][i - 1];
      if r != "" then
        var i :| 0 <= i < |keys[1..]| && NonEmptyStringProp(props, keys[1..][i])
          && props[keys[1..][i]] == Str(r)
          && forall j :: 0 <= j < i ==> !NonEmptyStringProp(props, keys[1..][j]);
        assert forall j :: 0 <= j < i + 1 ==> !NonEmptyStringProp(props, keys[j]) by {
          forall j | 0 <= j < i + 1 ensures !NonEmptyStringProp(props, keys[j]) {
            if j > 0 { assert keys[j] == keys[1..][j - 1]; }
          }
        }
        r
      else r
  }

  /** `stableCatId`: for an object, the first non-empty string among its
      `slug`, `_id`, `id` and `name`; "" for anything else. */
  function StableCatId(c: Value): (r: string)
    ensures !c.Obj? ==> r == ""
    ensures c.Obj? ==> (r == "" <==> forall i :: 0 <= i < |CatIdKeys| ==> !NonEmptyStringProp(c.props, CatIdKeys[i]))
    ensures r != "" ==> c.Obj? && exists i :: (0 <= i < |CatIdKeys| && NonEmptyStringProp(c.props, CatIdKeys[i])
      && c.props[CatIdKeys[i]] == Str(r)
      && forall j :: 0 <= j < i ==> !NonEmptyStringProp(c.props, CatIdKeys[j]))
  {
    if !Truthy(c) || TypeOf(c) != "object" then ""
    else FirstStringProp(c.props, CatIdKeys)
  }

  /** The slug wins over every other field when it is a non-empty string. */
  lemma SlugFirst(props: map<string, Value>, slug: string)
    requires slug != "" && "slug" in props && props["slug"] == Str(slug)
    ensures StableCatId(Obj(props)) == slug
  {
    var r := StableCatId(Obj(props));
    assert NonEmptyStringProp(props, CatIdKeys[0]);
    var i :| 0 <= i < |CatIdKeys| && NonEmptyStringProp(props, CatIdKeys[i]) && props[CatIdKeys[i]] == Str(r)
      && forall j :: 0 <= j < i ==> !NonEmptyStringProp(props, CatIdKeys[j]);
    assert i == 0;
  }

  /** The listed product's `category`: the stable id of the first entry of
      its category list; "" when the list is missing or empty, or its first
      entry is falsy. */
  function ProductCategory(categories: Option<seq<Value>>): (r: string)
    ensures categories.None? || categories.value == [] ==> r == ""
    ensures categories.Some? && categories.value != [] ==> r == StableCatId(categories.value[0])
  {
    if categories.Some? && |categories.value| > 0 && Truthy(categories.value[0])
    then StableCatId(categories.value[0])
    else ""
  }

  /** A product filed under a category object with a non-empty slug gets the
      same id the category list gives that category, so selecting the
      category in the sidebar selects the product. */
  lemma ProductCategoryIsCategoryId(props: map<string, Value>, rest: seq<Value>, c: Category)
    requires "slug" in props && props["slug"].Str? && props["slug"].s != ""
    requires c.slug == Some(props["slug"].s)
    ensures ProductCategory(Some([Obj(props)] + rest)) == CategoryId(c)
  {
    SlugFirst(props, props["slug"].s);
  }

  /** The listing's price pair: what is shown and the struck-through price. */
  datatype Pricing = Pricing(price: Number, originalPrice: Option<Number>)

  /** The sale-price mapping of a fetched product: a positive sale price is
      shown with the regular price as the original; otherwise the regular
      price is shown and there is no original. A missing price reads as 0. */
  function MapPrice(salePrice: Option<Number>, price: Option<Number>): (r: Pricing)
    ensures var sale := salePrice.GetOr(Finite(0.0));
      var regular := price.GetOr(Finite(0.0));
      && (Positive(sale) ==> r.price == sale && r.originalPrice == Some(regular))
      && (!Positive(sale) ==> r.price == regular && r.originalPrice == None)
    ensures r.originalPrice.Some? <==> Positive(r.price) && salePrice.Some? && r.price == salePrice.value
  {
    var sale := salePrice.GetOr(Finite(0.0));
    var regular := price.GetOr(Finite(0.0));
    var shown := if Positive(sale) then sale else regular;
    var original := if Positive(sale) then Some(regular) else None;
    Pricing(shown, original)
  }

  /** A positive sale price below the regular price is shown, with the
      regular price struck through above it. */
  lemma SaleShownBelowOriginal(salePrice: Option<Number>, price: Option<Number>)
    requires IsNumber(FromOption(salePrice)) && IsNumber(FromOption(price))
    requires Positive(salePrice.value) && Less(salePrice.value, price.value)
    ensures var r := MapPrice(salePrice, price);
      r.price == salePrice.value && r.originalPrice == Some(price.value) && Less(r.price, r.originalPrice.value)
  {
  }

  /** The fixed price-range labels, cheapest first. */
  const PriceRangeLabels: seq<string> := [
    "Under \U{09F3}500",
    "\U{09F3}500 \U{2013} \U{09F3}1,000",
    "\U{09F3}1,000 \U{2013} \U{09F3}2,000",
    "\U{09F3}2,000 \U{2013} \U{09F3}5,000",
    "Above \U{09F3}5,000 "
  ]

  /** The bucket thresholds; the first (0) is never consulted. */
  const Thresholds: seq<real> := [0.0, 500.0, 1000.0, 2000.0, 5000.0]

  /** `getRange`: the label of the price's bucket. A price that is not a
      finite number lands in the first bucket. The result is the label of
      the reference bucket `Bucket`, and of no other, so every price gets
      exactly one of the five labels, lower bounds inclusive. */
  function GetRange(price: Number): (r: string)
    ensures r == PriceRangeLabels[Bucket(price)]
    ensures forall i :: 0 <= i < |PriceRangeLabels| && i != Bucket(price) ==> r != PriceRangeLabels[i]
  {
    if !price.Finite? then PriceRangeLabels[0]
    else
      var p := price.value;
      if p < Thresholds[1] then PriceRangeLabels[0]
      else if p >= Thresholds[1] && p < Thresholds[2] then PriceRangeLabels[1]
      else if p >= Thresholds[2] && p < Thresholds[3] then PriceRangeLabels[2]
      else if p >= Thresholds[3] && p < Thresholds[4] then PriceRangeLabels[3]
      else PriceRangeLabels[4]
  }

  /** A reference bucket index: how many of the thresholds 500, 1000, 2000
      and 5000 the price reaches. */
  function Bucket(price: Number): (k: nat)
    ensures k < |PriceRangeLabels|
  {
    if !price.Finite? then 0
    else
      var p := price.value;
      (if p >= 500.0 then 1 else 0) + (if p >= 1000.0 then 1 else 0)
      + (if p >= 2000.0 then 1 else 0) + (if p >= 5000.0 then 1 else 0)
  }

  /** Buckets never go down as the price goes up. */
  lemma BucketMonotone(a: real, b: real)
    requires a <= b
    ensures Bucket(Finite(a)) <= Bucket(Finite(b))
  {
  }

  /** A category as the category list returns it (`_id` is `objectId`,
      `label` is `labelText`). */
  datatype Category = Category(
    slug: Option<string>,
    objectId: Option<string>,
    id: Option<string>,
    name: Option<string>,
    labelText: Option<string>)

  /** `c.slug ?? c._id ?? c.id ?? c.name ?? ""`: unlike `stableCatId`, an
      empty string present in an earlier field is kept. */
  function CategoryId(c: Category): (r: string)
    ensures c.slug.Some? ==> r == c.slug.value
    ensures c.slug.None? && c.objectId.Some? ==> r == c.objectId.value
    ensures c.slug.None? && c.objectId.None? && c.id.Some? ==> r == c.id.value
    ensures c.slug.None? && c.objectId.None? && c.id.None? && c.name.Some? ==> r == c.name.value
    ensures c.slug.None? && c.objectId.None? && c.id.None? && c.name.None? ==> r == ""
  {
    c.slug.GetOr(c.objectId.GetOr(c.id.GetOr(c.name.GetOr(""))))
  }

  /** `c.name ?? c.label ?? id`. */
  function CategoryLabel(c: Category): string
  {
    c.name.GetOr(c.labelText.GetOr(CategoryId(c)))
  }

  /** The category writes key `k` into the lookup table. */
  predicate Names(c: Category, k: string)
  {
    k != "" && (k == CategoryLabel(c) || k == CategoryId(c))
  }

  /** One step of the `forEach`: map the non-empty label, then the non-empty id, to the id. */
  function AddCategory(m: map<string, string>, c: Category): (r: map<string, string>)
    ensures forall k :: k in r <==> k in m || Names(c, k)
    ensures forall k :: k in r ==> r[k] == if Names(c, k) then CategoryId(c) else m[k]
  {
    var id := CategoryId(c);
    var lab := CategoryLabel(c);
    var m1 := if lab != "" then m[lab := id] else m;
    if id != "" then m1[id := id] else m1
  }

  /** `cats[i]` is the last category that writes key `k`. */
  ghost predicate LastNamer(cats: seq<Category>, i: int, k: string)
  {
    0 <= i < |cats| && Names(cats[i], k) && forall j :: i < j < |cats| ==> !Names(cats[j], k)
  }

  /** The table holds exactly the keys some category writes, each mapped to
      the id of the last category that writes it. */
  ghost predicate TableOf(m: map<string, string>, cats: seq<Category>)
  {
    && (forall k :: k in m <==> exists i :: 0 <= i < |cats| && Names(cats[i], k))
    && (forall k :: k in m ==> exists i :: LastNamer(cats, i, k) && m[k] == CategoryId(cats[i]))
  }

  lemma AddCategoryExtends(m: map<string, string>, cats: seq<Category>, c: Category)
    requires TableOf(m, cats)
    ensures TableOf(AddCategory(m, c), cats + [c])
  {
    AddCategoryKeys(m, cats, c);
    AddCategoryValues(m, cats, c);
  }

  lemma AddCategoryKeys(m: map<string, string>, cats: seq<Category>, c: Category)
    requires forall k :: k in m <==> exists i :: 0 <= i < |cats| && Names(cats[i], k)
    ensures var r, cs := AddCategory(m, c), cats + [c];
      forall k :: k in r <==> exists i :: 0 <= i < |cs| && Names(cs[i], k)
  {
    var r := AddCategory(m, c);
    var cs := cats + [c];
    forall k ensures k in r <==> exists i :: 0 <= i < |cs| && Names(cs[i], k) {
      if k in r {
        if Names(c, k) {
          assert Names(cs[|cats|], k);
        } else {
          var i :| 0 <= i < |cats| && Names(cats[i], k);
          assert Names(cs[i], k);
        }
      }
      if exists i :: 0 <= i < |cs| && Names(cs[i], k) {
        var i :| 0 <= i < |cs| && Names(cs[i], k);
        if i < |cats| { assert Names(cats[i], k); }
      }
    }
  }

  lemma AddCategoryValues(m: map<string, string>, cats: seq<Category>, c: Category)
    requires forall k :: k in m ==> exists i :: LastNamer(cats, i, k) && m[k] == CategoryId(cats[i])
    ensures var r, cs := AddCategory(m, c), cats + [c];
      forall k :: k in r ==> exists i :: LastNamer(cs, i, k) && r[k] == CategoryId(cs[i])
  {
    var r := AddCategory(m, c);
    var cs := cats + [c];
    forall k | k in r ensures exists i :: LastNamer(cs, i, k) && r[k] == CategoryId(cs[i]) {
      if Names(c, k) {
        assert LastNamer(cs, |cats|, k);
      } else {
        var i :| LastNamer(cats, i, k) && m[k] == CategoryId(cats[i]);
        assert forall j :: 0 <= j < |cats| ==> cs[j] == cats[j];
        assert LastNamer(cs, i, k);
      }
    }
  }

  /** The lookup table built from a list of categories, in list order. */
  function CategoryMap(cats: seq<Category>): (r: map<string, string>)
    ensures TableOf(r, cats)
  {
    if |cats| == 0 then map[]
    else
      var init := cats[..|cats| - 1];
      assert cats == init + [cats[|cats| - 1]];
      AddCategoryExtends(CategoryMap(init), init, cats[|cats| - 1]);
      AddCategory(CategoryMap(init), cats[|cats| - 1])
  }

  /** `categoryNameToId`: empty until the category list has loaded. */
  function CategoryNameToId(cats: Option<seq<Category>>): (r: map<string, string>)
    ensures cats.None? ==> r == map[]
    ensures cats.Some? ==> TableOf(r, cats.value)
    ensures forall k :: k in r ==> k != ""
  {
    match cats
    case None => map[]
    case Some(cs) => CategoryMap(cs)
  }

  /** A key is sent to the id of the last category that writes it. */
  lemma LastWriterWins(cats: seq<Category>, i: int, k: string)
    requires LastNamer(cats, i, k)
    ensures var m := CategoryNameToId(Some(cats));
      k in m && m[k] == CategoryId(cats[i])
  {
    var m := CategoryMap(cats);
    var j :| LastNamer(cats, j, k) && m[k] == CategoryId(cats[j]);
    assert j == i;
  }

  /** The table sends both the label and the id of the last category to that
      category's id. */
  lemma LastCategoryWins(cats: seq<Category>)
    requires |cats| > 0
    ensures var c := cats[|cats| - 1];
      var m := CategoryNameToId(Some(cats));
      && (CategoryLabel(c) != "" ==> CategoryLabel(c) in m && m[CategoryLabel(c)] == CategoryId(c))
      && (CategoryId(c) != "" ==> CategoryId(c) in m && m[CategoryId(c)] == CategoryId(c))
  {
    var c := cats[|cats| - 1];
    var m := CategoryMap(cats);
    forall k | Names(c, k) ensures k in m && m[k] == CategoryId(c) {
      assert Names(cats[|cats| - 1], k);
      var i :| LastNamer(cats, i, k) && m[k] == CategoryId(cats[i]);
      assert i == |cats| - 1;
    }
  }

  /** A product of the listing page. */
  datatype Product = Product(
    id: string,
    name: string,
    brand: string,
    price: Number,
    originalPrice: Option<Number>,
    category: string,
    sizes: seq<string>,
    colors: seq<string>,
    image: string)

  /** The five facets of the filter sidebar. */
  datatype Facet = Categories | Brands | PriceRanges | Sizes | Colors

  /** The selected values of each facet; categories hold stable ids. */
  datatype FilterState = FilterState(
    categories: seq<string>,
    brands: seq<string>,
    priceRanges: seq<string>,
    sizes: seq<string>,
    colors: seq<string>)
  {
    function Get(facet: Facet): seq<string>
    {
      match facet
      case Categories => categories
      case Brands => brands
      case PriceRanges => priceRanges
      case Sizes => sizes
      case Colors => colors
    }

    /** `{ ...prev, [facet]: values }`. */
    function With(facet: Facet, values: seq<string>): (r: FilterState)
      ensures r.Get(facet) == values
      ensures forall g :: g != facet ==> r.Get(g) == Get(g)
    {
      match facet
      case Categories => this.(categories := values)
      case Brands => this.(brands := values)
      case PriceRanges => this.(priceRanges := values)
      case Sizes => this.(sizes := values)
      case Colors => this.(colors := values)
    }

    /** Only the given facet's selection, every other facet empty. */
    function Only(facet: Facet): (r: FilterState)
      ensures r.Get(facet) == Get(facet)
      ensures forall g :: g != facet ==> r.Get(g) == []
    {
      DefaultFilters.With(facet, Get(facet))
    }
  }

  const DefaultFilters := FilterState([], [], [], [], [])

  /** The values a selected category id may match: the product's category and
      what the lookup table maps it to, each when non-empty. */
  function CategoryCandidates(p: Product, nameToId: map<string, string>): (r: set<string>)
    ensures forall k :: k in r <==> k != "" && (k == p.category || (p.category in nameToId && k == nameToId[p.category]))
  {
    (if p.category != "" then {p.category} else {})
    + (if p.category in nameToId && nameToId[p.category] != "" then {nameToId[p.category]} else {})
  }

  /** Some selected value occurs among the product's values. */
  predicate Overlaps(selected: seq<string>, values: seq<string>)
  {
    exists i :: 0 <= i < |selected| && selected[i] in values
  }

  /** Some selected category id is one of the product's candidates. */
  predicate CategoryMatches(selected: seq<string>, p: Product, nameToId: map<string, string>)
  {
    exists i :: 0 <= i < |selected| && selected[i] in CategoryCandidates(p, nameToId)
  }

  /** The predicate of `filteredProducts`, in the order the source tests the facets. */
  predicate Matches(p: Product, f: FilterState, nameToId: map<string, string>)
  {
    if |f.categories| > 0 && !CategoryMatches(f.categories, p, nameToId) then false
    else if |f.brands| > 0 && p.brand !in f.brands then false
    else if |f.priceRanges| > 0 && GetRange(p.price) !in f.priceRanges then false
    else if |f.sizes| > 0 && !Overlaps(f.sizes, p.sizes) then false
    else if |f.colors| > 0 && !Overlaps(f.colors, p.colors) then false
    else true
  }

  /** `filteredProducts`: the listed products that pass every facet, in order. */
  function FilteredProducts(source: seq<Product>, f: FilterState, nameToId: map<string, string>): (r: seq<Product>)
    ensures IsSubseq(r, source)
    ensures forall x :: multiset(r)[x] == if Matches(x, f, nameToId) then multiset(source)[x] else 0
  {
    Filter(source, p => Matches(p, f, nameToId))
  }

  /** No facet has a selection. */
  predicate NoSelection(f: FilterState)
  {
    forall g :: f.Get(g) == []
  }

  /** With every facet empty the filter keeps every product, in order. */
  lemma NoSelectionKeepsAll(source: seq<Product>, f: FilterState, nameToId: map<string, string>)
    requires NoSelection(f)
    ensures FilteredProducts(source, f, nameToId) == source
  {
    assert f.Get(Categories) == [] && f.Get(Brands) == [] && f.Get(PriceRanges) == []
      && f.Get(Sizes) == [] && f.Get(Colors) == [];
    FilterAll(source, p => Matches(p, f, nameToId));
  }

  /** What each facet demands on its own: an empty selection nothing; brands
      membership; price ranges the label of the product's bucket; sizes and
      colours any overlap; categories a selected id equal to the product's
      category or to what the lookup table maps it to. */
  lemma FacetSemantics(p: Product, f: FilterState, nameToId: map<string, string>)
    ensures Matches(p, f.Only(Categories), nameToId) <==>
      f.categories == [] || exists i :: (0 <= i < |f.categories| && f.categories[i] != "" &&
        (f.categories[i] == p.category || (p.category in nameToId && f.categories[i] == nameToId[p.category])))
    ensures Matches(p, f.Only(Brands), nameToId) <==> f.brands == [] || p.brand in f.brands
    ensures Matches(p, f.Only(PriceRanges), nameToId) <==>
      f.priceRanges == [] || PriceRangeLabels[Bucket(p.price)] in f.priceRanges
    ensures Matches(p, f.Only(Sizes), nameToId) <==>
      f.sizes == [] || exists i :: 0 <= i < |f.sizes| && f.sizes[i] in p.sizes
    ensures Matches(p, f.Only(Colors), nameToId) <==>
      f.colors == [] || exists i :: 0 <= i < |f.colors| && f.colors[i] in p.colors
  {
    var fc, fb, fp, fs, fl := f.Only(Categories), f.Only(Brands), f.Only(PriceRanges), f.Only(Sizes), f.Only(Colors);
    assert fc.categories == f.categories && fc.brands == [] && fc.priceRanges == [] && fc.sizes == [] && fc.colors == [];
    assert fb.categories == [] && fb.brands == f.brands && fb.priceRanges == [] && fb.sizes == [] && fb.colors == [];
    assert fp.categories == [] && fp.brands == [] && fp.priceRanges == f.priceRanges && fp.sizes == [] && fp.colors == [];
    assert fs.categories == [] && fs.brands == [] && fs.priceRanges == [] && fs.sizes == f.sizes && fs.colors == [];
    assert fl.categories == [] && fl.brands == [] && fl.priceRanges == [] && fl.sizes == [] && fl.colors == f.colors;
  }

  /** The facets are independent: a product passes the filter exactly when it
      passes each facet's selection on its own. */
  lemma MatchesEveryFacet(p: Product, f: FilterState, nameToId: map<string, string>)
    ensures Matches(p, f, nameToId) <==> forall g :: Matches(p, f.Only(g), nameToId)
  {
    var fc, fb, fp, fs, fl := f.Only(Categories), f.Only(Brands), f.Only(PriceRanges), f.Only(Sizes), f.Only(Colors);
    assert fc.categories == f.categories && fc.brands == [] && fc.priceRanges == [] && fc.sizes == [] && fc.colors == [];
    assert fb.categories == [] && fb.brands == f.brands && fb.priceRanges == [] && fb.sizes == [] && fb.colors == [];
    assert fp.categories == [] && fp.brands == [] && fp.priceRanges == f.priceRanges && fp.sizes == [] && fp.colors == [];
    assert fs.categories == [] && fs.brands == [] && fs.priceRanges == [] && fs.sizes == f.sizes && fs.colors == [];
    assert fl.categories == [] && fl.brands == [] && fl.priceRanges == [] && fl.sizes == [] && fl.colors == f.colors;
    if forall g :: Matches(p, f.Only(g), nameToId) {
      assert Matches(p, fc, nameToId) && Matches(p, fb, nameToId) && Matches(p, fp, nameToId)
        && Matches(p, fs, nameToId) && Matches(p, fl, nameToId);
    }
  }

  /** Selecting a category's id also selects the products filed under that
      category's label, provided that category is the last in the list to
      write the label into the lookup table. */
  lemma CategoryLabelMatchesId(p: Product, cats: seq<Category>, i: int, f: FilterState)
    requires LastNamer(cats, i, p.category)
    requires CategoryId(cats[i]) != "" && CategoryId(cats[i]) in f.categories
    ensures Matches(p, f.Only(Categories), CategoryNameToId(Some(cats)))
  {
    var m := CategoryNameToId(Some(cats));
    var c := cats[i];
    LastWriterWins(cats, i, p.category);
    assert CategoryId(c) in CategoryCandidates(p, m);
    var j :| 0 <= j < |f.categories| && f.categories[j] == CategoryId(c);
    assert CategoryMatches(f.categories, p, m);
    var fc := f.Only(Categories);
    assert fc.categories == f.categories && fc.brands == [] && fc.priceRanges == [] && fc.sizes == [] && fc.colors == [];
  }

  /** Once a later category has written the product's label with another id,
      selecting an earlier category's id finds the product only if that id is
      the label itself. */
  lemma EarlierIdMisses(p: Product, cats: seq<Category>, i: int, j: int)
    requires 0 <= i < j && LastNamer(cats, j, p.category)
    requires CategoryId(cats[i]) != CategoryId(cats[j]) && CategoryId(cats[i]) != p.category
    ensures !Matches(p, FilterState([CategoryId(cats[i])], [], [], [], []), CategoryNameToId(Some(cats)))
  {
    LastWriterWins(cats, j, p.category);
  }
}
