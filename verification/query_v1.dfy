/**
 * Version 1 of `Product::ElasticsearchQuery#to_hash`
 * (app/models/spree/product_decorator.rb), superseded at load time by
 * version 2 but still part of the class: a `bool`/`must` text query, all
 * property pairs in one terms filter, and a half-open price range inside the
 * faceted query.
 */
module QueryV1 {
  import opened Wrappers
  import opened RubyText
  import opened Documents
  import opened PropertyCodec
  import opened QueryTree

  /**
   * One element of the `properties` attribute: a hash of name/value pairs as
   * callers pass it, or the joined string `to_hash` has already put in its place.
   */
  datatype PropertyArg = Pairs(pairs: seq<(string, string)>) | Joined(token: string)

  /** `hash.to_a` flattened, as `Array#join` flattens nested arrays. */
  function Flatten(pairs: seq<(string, string)>): (r: seq<string>)
    ensures |r| == 2 * |pairs|
    ensures forall i :: 0 <= i < |pairs| ==> r[2 * i] == pairs[i].0 && r[2 * i + 1] == pairs[i].1
  {
    if pairs == [] then [] else [pairs[0].0, pairs[0].1] + Flatten(pairs[1..])
  }

  /** `property.to_a.join("||")`. */
  function JoinPairs(pairs: seq<(string, string)>): string {
    Join(Flatten(pairs), "||")
  }

  /** A one-entry hash joins to the same token the document serialiser writes. */
  lemma SinglePairIsToken(name: string, value: string)
    ensures JoinPairs([(name, value)]) == Token(name, value)
  {
    var parts := Flatten([(name, value)]);
    assert parts == [name, value];
    assert Join(parts[1..], "||") == value;
  }

  function Tokenised(p: PropertyArg): PropertyArg {
    match p
    case Pairs(ps) => Joined(JoinPairs(ps))
    case Joined(_) => p
  }

  /** Index of the first element that is already a string (where `to_a` raises), or the length. */
  function FirstJoined(ps: seq<PropertyArg>): (r: nat)
    ensures r <= |ps|
    ensures forall j :: 0 <= j < r ==> ps[j].Pairs?
    ensures r < |ps| ==> ps[r].Joined?
  {
    if ps == [] || ps[0].Joined? then 0 else 1 + FirstJoined(ps[1..])
  }

  /** `ps` with its first `n` elements replaced by their joined strings, as `map!` leaves it after `n` steps. */
  function Converted(ps: seq<PropertyArg>, n: nat): (r: seq<PropertyArg>)
    ensures |r| == |ps|
    ensures forall j :: n <= j < |ps| ==> r[j] == ps[j]
    ensures forall j :: 0 <= j < |ps| && j < n ==> r[j].Joined?
    ensures forall j :: 0 <= j < |ps| && j < n && ps[j].Pairs? ==> r[j].token == JoinPairs(ps[j].pairs)
    ensures forall j :: 0 <= j < |ps| && j < n && ps[j].Joined? ==> r[j] == ps[j]
  {
    seq(|ps|, j requires 0 <= j < |ps| => if j < n then Tokenised(ps[j]) else ps[j])
  }

  function TokensOf(ps: seq<PropertyArg>): seq<string>
    requires forall j :: 0 <= j < |ps| ==> ps[j].Joined?
  {
    seq(|ps|, j requires 0 <= j < |ps| => ps[j].token)
  }

  /** Indexed price bound `price[i]`, `nil` past the end of the array. */
  function PriceAt(price: seq<int>, i: nat): Scalar {
    if i < |price| then Num(price[i]) else Null
  }

  /** The `must` list: free text, then the name match, and `match_all` only when neither is given. */
  function MustMatches(query: Option<string>, name: Option<string>): (r: seq<Clause>)
    ensures r != []
    ensures (MatchAll in r) <==> query.None? && name.None?
  {
    var m := (if query.Some? then [MultiMatch(query.value, ["name", "description"])] else [])
           + (if name.Some? then [Match("name", name.value)] else []);
    if m == [] then [MatchAll] else m
  }

  /** The `and` list: taxons, then all property tokens in one clause, then the price range. */
  function AndFilter(taxons: seq<string>, tokens: seq<string>, price: seq<int>): seq<Clause> {
    (if taxons == [] then [] else [Terms("taxons", taxons)])
    + (if tokens == [] then [] else [Terms("properties", tokens)])
    + (if price == [] then [] else [Range("price", [Gte(PriceAt(price, 0)), Lt(PriceAt(price, 1))])])
  }

  function Facets(): seq<FacetRequest> {
    [ Statistical("price", "price"),
      TermsFacet("properties", "properties", None, None),
      TermsFacet("taxons", "taxons", None, None) ]
  }

  class ElasticsearchQuery {
    var description: Option<string>
    var from: int
    var name: Option<string>
    var price: seq<int>
    var properties: seq<PropertyArg>
    var query: Option<string>
    var taxons: seq<string>

    constructor (description: Option<string>, from: int, name: Option<string>, price: seq<int>,
                 properties: seq<PropertyArg>, query: Option<string>, taxons: seq<string>)
      ensures this.description == description && this.from == from && this.name == name
      ensures this.price == price && this.properties == properties
      ensures this.query == query && this.taxons == taxons
    {
      this.description := description;
      this.from := from;
      this.name := name;
      this.price := price;
      this.properties := properties;
      this.query := query;
      this.taxons := taxons;
    }

    /**
     * `properties.map! { |property| property.to_a.join("||") }`: each hash
     * replaced by its joined string until an element that is already a string
     * makes `to_a` raise.
     */
    method JoinProperties() returns (joined: bool)
      modifies this`properties
      ensures properties == Converted(old(properties), FirstJoined(old(properties)))
      ensures joined <==> FirstJoined(old(properties)) == |old(properties)|
    {
      var i := 0;
      while i < |properties|
        invariant 0 <= i <= |properties| == |old(properties)|
        invariant forall j :: 0 <= j < i ==> old(properties)[j].Pairs?
        invariant properties == Converted(old(properties), i)
      {
        match properties[i]
        case Joined(_) =>
          assert FirstJoined(old(properties)) == i;
          return false;
        case Pairs(ps) =>
          properties := properties[i := Joined(JoinPairs(ps))];
        i := i + 1;
      }
      assert FirstJoined(old(properties)) == |properties|;
      return true;
    }

    /** The `and_filter` part of `to_hash`, which joins the properties in place on the way. */
    method BuildAndFilter() returns (r: Result<seq<Clause>>)
      modifies this`properties
      ensures properties == Converted(old(properties), FirstJoined(old(properties)))
      ensures r.Err? <==> FirstJoined(old(properties)) < |old(properties)|
      ensures r.Err? ==> r.error == "NoMethodError: undefined method `to_a' for String"
      ensures r.Ok? ==>
        (forall j :: 0 <= j < |properties| ==> properties[j].Joined?)
        && r.value == AndFilter(taxons, TokensOf(properties), price)
    {
      var andFilter: seq<Clause> := [];
      if taxons != [] {
        andFilter := andFilter + [Terms("taxons", taxons)];
      }
      if properties != [] {
        var joined := JoinProperties();
        if !joined {
          return Err("NoMethodError: undefined method `to_a' for String");
        }
        assert TokensOf(properties) != [];
        andFilter := andFilter + [Terms("properties", TokensOf(properties))];
      } else {
        assert FirstJoined(old(properties)) == 0;
        assert TokensOf(properties) == [];
      }
      if price != [] {
        andFilter := andFilter + [Range("price", [Gte(PriceAt(price, 0)), Lt(PriceAt(price, 1))])];
      }
      return Ok(andFilter);
    }

    /**
     * `to_hash`. `properties.map!` rewrites the attribute in place, one element
     * at a time; an element that is already a string makes `to_a` raise, which
     * leaves the elements before it rewritten. Every other attribute is only read.
     */
    method ToHash(productsPerPage: int) returns (r: Result<SearchBody>)
      modifies this`properties
      ensures properties == Converted(old(properties), FirstJoined(old(properties)))
      ensures r.Err? <==> FirstJoined(old(properties)) < |old(properties)|
      ensures r.Ok? ==>
        (forall j :: 0 <= j < |properties| ==> properties[j].Joined?)
        && var filter := AndFilter(taxons, TokensOf(properties), price);
           r.value == SearchBody(
             Filtered(Some(BoolMust(MustMatches(query, name))), if filter == [] then None else Some(filter)),
             None, [SortKey("name", "asc")], from, productsPerPage, Facets())
    {
      var mustMatches: seq<Clause> := [];
      if query.Some? {
        mustMatches := mustMatches + [MultiMatch(query.value, ["name", "description"])];
      }
      if name.Some? {
        mustMatches := mustMatches + [Match("name", name.value)];
      }
      if mustMatches == [] {
        mustMatches := mustMatches + [MatchAll];
      }
      assert mustMatches == MustMatches(query, name);
      var q := BoolMust(mustMatches);

      var filter := BuildAndFilter();
      if filter.Err? {
        return Err(filter.error);
      }
      var andFilter := filter.value;
      var sorting := [SortKey("name", "asc")];
      var body := SearchBody(Filtered(None, None), None, sorting, from, productsPerPage, Facets());
      body := body.(query := body.query.(query := Some(q)));
      if andFilter != [] {
        body := body.(query := body.query.(andFilter := Some(andFilter)));
      }
      return Ok(body);
    }
  }

  /**
   * Version 1 requires the document to carry at least one of ALL the requested
   * tokens, whichever property they belong to: an OR across properties.
   */
  lemma FlatPropertyFilterIsOr(doc: Document, tokens: seq<string>)
    ensures TermsHold(doc, Terms("properties", tokens))
        <==> exists t :: t in tokens && t in FieldTokens(doc, "properties")
  {
    if exists t :: t in tokens && t in FieldTokens(doc, "properties") {
      var t :| t in tokens && t in FieldTokens(doc, "properties");
      var i :| 0 <= i < |tokens| && tokens[i] == t;
    }
  }

  /**
   * The scenario of spec/models/products_spec.rb, "different properties (AND
   * relation)", under version 1: the product with `another_prop = b_value`
   * passes the single flat filter although the test expects it excluded.
   */
  lemma FlatFilterAdmitsPartialMatch()
    ensures var tokens := [JoinPairs([("the_prop", "a_value")]), JoinPairs([("another_prop", "a_value")])];
            var doc := map[Str("properties") := TextList([Token("the_prop", "a_value"), Token("another_prop", "b_value")])];
            TermsHold(doc, Terms("properties", tokens))
  {
    SinglePairIsToken("the_prop", "a_value");
    SinglePairIsToken("another_prop", "a_value");
    var tokens := [Token("the_prop", "a_value"), Token("another_prop", "a_value")];
    var doc := map[Str("properties") := TextList([Token("the_prop", "a_value"), Token("another_prop", "b_value")])];
    TextsOfTextList([Token("the_prop", "a_value"), Token("another_prop", "b_value")]);
    assert tokens[0] in FieldTokens(doc, "properties");
  }
}
