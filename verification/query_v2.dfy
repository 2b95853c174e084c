/**
 * Version 2 of `Product::ElasticsearchQuery#to_hash`
 * (app/models/spree/product_elasticsearch_decorator.rb), the one loaded last
 * and therefore in effect: one terms filter per requested property, a taxon
 * filter, an availability filter that is always present, and the price range
 * as a top-level filter that does not reach the facets.
 */
module QueryV2 {
  import opened Wrappers
  import opened Documents
  import opened RubyText
  import opened PropertyCodec
  import opened QueryTree
  import opened ProductDocument

  /** One requested property with the values any one of which a product may have. */
  datatype PropertyFilter = PropertyFilter(key: string, values: seq<string>)

  /** The attributes of an `ElasticsearchQuery` that this version reads, already coerced. */
  datatype QueryArgs = QueryArgs(
    query: Option<string>,
    from: int,
    properties: seq<PropertyFilter>,
    taxons: seq<string>,
    priceMin: Option<int>,
    priceMax: Option<int>)

  /** `[k].product(v).map { |prop| prop.join("||") }`: one token per value, in order. */
  function ValueTokens(key: string, values: seq<string>): (r: seq<string>)
    ensures |r| == |values|
    ensures forall j :: 0 <= j < |values| ==> r[j] == Token(key, values[j])
  {
    seq(|values|, j requires 0 <= j < |values| => Token(key, values[j]))
  }

  /** Each requested token splits back into the requested key and value. */
  lemma ValueTokensSplit(key: string, values: seq<string>)
    requires WellFormedName(key)
    requires forall j :: 0 <= j < |values| ==> WellFormedValue(values[j])
    ensures forall j :: 0 <= j < |values| ==> Split(ValueTokens(key, values)[j]) == [key, values[j]]
  {
    forall j | 0 <= j < |values|
      ensures Split(ValueTokens(key, values)[j]) == [key, values[j]]
    {
      SplitToken(key, values[j]);
    }
  }

  function PropertyClauses(fs: seq<PropertyFilter>): (r: seq<Clause>)
    ensures |r| == |fs|
    ensures forall i :: 0 <= i < |fs| ==> r[i] == Terms("properties", ValueTokens(fs[i].key, fs[i].values))
  {
    seq(|fs|, i requires 0 <= i < |fs| => Terms("properties", ValueTokens(fs[i].key, fs[i].values)))
  }

  /** `{ range: { available_on: { lte: "now" } } }`. */
  function AvailableNow(): Clause {
    Range("available_on", [Lte(Word("now"))])
  }

  /** The `and` list: property filters in input order, the taxon filter if any, availability last. */
  function AndFilter(args: QueryArgs): seq<Clause> {
    PropertyClauses(args.properties)
    + (if args.taxons == [] then [] else [Terms("taxons", args.taxons)])
    + [AvailableNow()]
  }

  /** Without property filters the `and` list is the taxon filter, if any, then availability. */
  lemma AndFilterWithoutProperties(args: QueryArgs)
    requires args.properties == []
    ensures AndFilter(args) == (if args.taxons == [] then [] else [Terms("taxons", args.taxons)]) + [AvailableNow()]
  {
    assert PropertyClauses(args.properties) == [];
  }

  function TextQuery(query: Option<string>): Clause {
    match query
    case None => MatchAll
    case Some(q) => QueryString(q, ["name^5", "description", "sku"], "AND", true)
  }

  /** Both price bounds are given and the minimum lies strictly below the maximum. */
  predicate PriceApplies(args: QueryArgs) {
    args.priceMin.Some? && args.priceMax.Some? && args.priceMin.value < args.priceMax.value
  }

  function PriceFilter(args: QueryArgs): Option<Clause> {
    if PriceApplies(args)
    then Some(Range("price", [Gte(Num(args.priceMin.value)), Lte(Num(args.priceMax.value))]))
    else None
  }

  function Facets(): seq<FacetRequest> {
    [ Statistical("price", "price"),
      TermsFacet("properties", "properties", Some("count"), Some(1000000)),
      TermsFacet("taxons", "taxons", None, Some(1000000)) ]
  }

  /**
   * `to_hash`. The statement `query.scan` at line 6 of the source has no
   * pattern argument and is not modelled; the rest of the method is.
   */
  method ToHash(args: QueryArgs, productsPerPage: int) returns (body: SearchBody)
    ensures body.query.query == Some(TextQuery(args.query))
    ensures body.query.andFilter == Some(AndFilter(args))
    ensures body.filter == PriceFilter(args)
    ensures body.sort == [SortKey("name.untouched", "asc")]
    ensures body.from == args.from && body.size == productsPerPage
    ensures body.facets == Facets()
  {
    var q := MatchAll;
    if args.query.Some? {
      q := QueryString(args.query.value, ["name^5", "description", "sku"], "AND", true);
    }

    var andFilter: seq<Clause> := [];
    if args.properties != [] {
      for i := 0 to |args.properties|
        invariant andFilter == PropertyClauses(args.properties[..i])
      {
        var f := args.properties[i];
        var tokens: seq<string> := [];
        for j := 0 to |f.values|
          invariant tokens == ValueTokens(f.key, f.values[..j])
        {
          tokens := tokens + [Token(f.key, f.values[j])];
        }
        assert f.values[..|f.values|] == f.values;
        andFilter := andFilter + [Terms("properties", tokens)];
      }
      assert args.properties[..|args.properties|] == args.properties;
    }

    assert andFilter == PropertyClauses(args.properties);
    var sorting := [SortKey("name.untouched", "asc")];
    body := SearchBody(Filtered(None, None), None, sorting, args.from, productsPerPage, Facets());
    body := body.(query := body.query.(query := Some(q)));
    if args.taxons != [] {
      andFilter := andFilter + [Terms("taxons", args.taxons)];
    }
    andFilter := andFilter + [Range("available_on", [Lte(Word("now"))])];
    assert andFilter == AndFilter(args);
    if andFilter != [] {
      body := body.(query := body.query.(andFilter := Some(andFilter)));
    }
    if args.priceMin.Some? && args.priceMax.Some? && args.priceMin.value < args.priceMax.value {
      body := body.(filter := Some(Range("price", [Gte(Num(args.priceMin.value)), Lte(Num(args.priceMax.value))])));
    }
  }

  /**
   * The `and` list always ends with the availability filter, has one clause per
   * requested property plus one for taxons when there are any, and never
   * constrains price, so price cannot change the facet counts.
   */
  lemma AndFilterShape(args: QueryArgs)
    ensures |AndFilter(args)| == |args.properties| + (if args.taxons == [] then 0 else 1) + 1
    ensures AndFilter(args)[|AndFilter(args)| - 1] == AvailableNow()
    ensures forall i :: 0 <= i < |AndFilter(args)| ==> FilterField(AndFilter(args)[i]) != Some("price")
  {
  }

  /** The top-level price filter keeps exactly the prices in the closed interval `[price_min, price_max]`. */
  lemma PriceFilterInclusive(args: QueryArgs, price: int)
    requires PriceApplies(args)
    ensures WithinBounds(price, PriceFilter(args).value.bounds)
        <==> args.priceMin.value <= price <= args.priceMax.value
  {
    var bounds := PriceFilter(args).value.bounds;
    if args.priceMin.value <= price <= args.priceMax.value {
      forall i | 0 <= i < |bounds|
        ensures match bounds[i]
          case Gte(Num(n)) => price >= n
          case Lte(Num(n)) => price <= n
          case Lt(Num(n)) => price < n
          case _ => false
      {
      }
    } else {
      assert bounds[0] == Gte(Num(args.priceMin.value)) && bounds[1] == Lte(Num(args.priceMax.value));
    }
  }

  /** The document has at least one of the values requested for property `f.key`. */
  predicate HasRequestedValue(doc: Document, f: PropertyFilter) {
    exists v :: v in f.values && Token(f.key, v) in FieldTokens(doc, "properties")
  }

  /** The product has property `f.key` with at least one of the requested values. */
  predicate HasRequestedProperty(p: Product, f: PropertyFilter) {
    exists v :: v in f.values && ProductProperty(f.key, v) in p.properties
  }

  /** The terms filter of one property holds exactly when the document has one of its requested values. */
  lemma PropertyClauseHolds(doc: Document, f: PropertyFilter)
    ensures TermsHold(doc, Terms("properties", ValueTokens(f.key, f.values))) <==> HasRequestedValue(doc, f)
  {
    var c := Terms("properties", ValueTokens(f.key, f.values));
    if HasRequestedValue(doc, f) {
      var v :| v in f.values && Token(f.key, v) in FieldTokens(doc, "properties");
      var j :| 0 <= j < |f.values| && f.values[j] == v;
      assert c.values[j] in FieldTokens(doc, "properties");
    }
  }

  /**
   * AND across properties, OR within one property: a document passes the
   * property filters exactly when, for every requested property, it has at
   * least one of that property's requested values.
   */
  lemma {:induction false} PropertyFiltersAndOr(doc: Document, fs: seq<PropertyFilter>)
    ensures AllTermsHold(doc, PropertyClauses(fs)) <==> forall i :: 0 <= i < |fs| ==> HasRequestedValue(doc, fs[i])
  {
    forall i | 0 <= i < |fs|
      ensures TermsHold(doc, PropertyClauses(fs)[i]) <==> HasRequestedValue(doc, fs[i])
    {
      PropertyClauseHolds(doc, fs[i]);
    }
  }

  /** Property names and requested keys that the `||` split can separate again. */
  predicate WellFormedKeys(p: Product, fs: seq<PropertyFilter>) {
    (forall i :: 0 <= i < |p.properties| ==> WellFormedName(p.properties[i].name))
    && (forall i :: 0 <= i < |fs| ==> WellFormedName(fs[i].key))
  }

  /**
   * End to end with the serialiser: a product's document passes the property
   * filters exactly when, for every requested property, the product has that
   * property with one of the requested values.
   */
  lemma {:induction false} ProductMatchesPropertyFilters(p: Product, fs: seq<PropertyFilter>)
    requires WellFormedKeys(p, fs)
    ensures AllTermsHold(Serialised(p), PropertyClauses(fs)) <==> forall i :: 0 <= i < |fs| ==> HasRequestedProperty(p, fs[i])
  {
    var doc := Serialised(p);
    PropertyFiltersAndOr(doc, fs);
    forall i | 0 <= i < |fs|
      ensures HasRequestedValue(doc, fs[i]) <==> HasRequestedProperty(p, fs[i])
    {
      forall v
        ensures Token(fs[i].key, v) in FieldTokens(doc, "properties") <==> ProductProperty(fs[i].key, v) in p.properties
      {
        PropertyTokenFound(p, fs[i].key, v);
      }
    }
  }

  function Item(name: string, props: seq<ProductProperty>): Product {
    Product(0, name, Nil, Nil, Nil, 0, props, [], [])
  }

  /**
   * spec/models/products_spec.rb, "different property values (OR relation)":
   * with two values requested for `the_prop`, a product having either passes.
   */
  lemma OrWithinOneProperty()
    ensures AllTermsHold(Serialised(Item("a", [ProductProperty("the_prop", "a_value")])),
                         PropertyClauses([PropertyFilter("the_prop", ["a_value", "b_value"])]))
    ensures AllTermsHold(Serialised(Item("b", [ProductProperty("the_prop", "b_value")])),
                         PropertyClauses([PropertyFilter("the_prop", ["a_value", "b_value"])]))
  {
    var fs := [PropertyFilter("the_prop", ["a_value", "b_value"])];
    var a := Item("a", [ProductProperty("the_prop", "a_value")]);
    var b := Item("b", [ProductProperty("the_prop", "b_value")]);
    NoBarIsWellFormed("the_prop");
    ProductMatchesPropertyFilters(a, fs);
    assert HasRequestedProperty(a, fs[0]) by { assert "a_value" in fs[0].values && a.properties[0] == ProductProperty("the_prop", "a_value"); }
    ProductMatchesPropertyFilters(b, fs);
    assert HasRequestedProperty(b, fs[0]) by { assert "b_value" in fs[0].values && b.properties[0] == ProductProperty("the_prop", "b_value"); }
  }

  function BothRequested(): seq<PropertyFilter> {
    [PropertyFilter("the_prop", ["a_value"]), PropertyFilter("another_prop", ["a_value"])]
  }

  /**
   * spec/models/products_spec.rb, "different properties (AND relation)": the
   * product having both requested values passes ...
   */
  lemma AndAcrossPropertiesKeeps()
    ensures AllTermsHold(
              Serialised(Item("a", [ProductProperty("the_prop", "a_value"), ProductProperty("another_prop", "a_value")])),
              PropertyClauses(BothRequested()))
  {
    var fs := BothRequested();
    var a := Item("a", [ProductProperty("the_prop", "a_value"), ProductProperty("another_prop", "a_value")]);
    NoBarIsWellFormed("the_prop");
    NoBarIsWellFormed("another_prop");
    ProductMatchesPropertyFilters(a, fs);
    assert HasRequestedProperty(a, fs[0]) by { assert a.properties[0] == ProductProperty("the_prop", "a_value"); }
    assert HasRequestedProperty(a, fs[1]) by { assert a.properties[1] == ProductProperty("another_prop", "a_value"); }
  }

  /** ... and the product matching only one of them does not. */
  lemma AndAcrossPropertiesDrops()
    ensures !AllTermsHold(
              Serialised(Item("b", [ProductProperty("the_prop", "a_value"), ProductProperty("another_prop", "b_value")])),
              PropertyClauses(BothRequested()))
  {
    var fs := BothRequested();
    var b := Item("b", [ProductProperty("the_prop", "a_value"), ProductProperty("another_prop", "b_value")]);
    NoBarIsWellFormed("the_prop");
    NoBarIsWellFormed("another_prop");
    ProductMatchesPropertyFilters(b, fs);
    assert !HasRequestedProperty(b, fs[1]) by {
      assert fs[1].values == ["a_value"];
      assert b.properties[0] != ProductProperty("another_prop", "a_value");
      assert b.properties[1] != ProductProperty("another_prop", "a_value");
    }
  }
}
