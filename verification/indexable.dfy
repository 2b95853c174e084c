/**
 * The result side of `Spree::Concerns::Indexable`
 * (app/models/spree/concerns/indexable.rb): the index type name, the mapping
 * wrapper, the `ResultList` a search returns, turning search hits and `get`
 * responses into models with the excluded keys stripped, and the document
 * preparation and `ok` check of `index`. Client responses are inputs.
 */
module Indexable {
  import opened Wrappers
  import opened Documents
  import opened QueryTree
  import opened ProductDocument
  import QueryV2

  function SlashToUnderscore(c: char): char {
    if c == '/' then '_' else c
  }

  /**
   * `type`: the class name after `underscore` (which is not modelled) with
   * every `/` replaced by `_`.
   */
  function TypeName(underscored: string): (r: string)
    ensures |r| == |underscored|
    ensures forall j :: 0 <= j < |r| ==> r[j] != '/'
    ensures forall j :: 0 <= j < |r| && underscored[j] != '/' ==> r[j] == underscored[j]
    ensures forall j :: 0 <= j < |r| && underscored[j] == '/' ==> r[j] == '_'
  {
    if underscored == [] then []
    else [SlashToUnderscore(underscored[0])] + TypeName(underscored[1..])
  }

  /**
   * A namespaced name `ns/cls` becomes `ns_cls`: `Spree::Product`, underscored
   * to `spree/product`, is indexed as type `spree_product`.
   */
  lemma {:induction false} NamespacedTypeName(ns: string, cls: string)
    requires '/' !in ns && '/' !in cls
    ensures TypeName(ns + "/" + cls) == ns + "_" + cls
  {
    var s := ns + "/" + cls;
    var r := TypeName(s);
    forall j | 0 <= j < |s|
      ensures r[j] == (ns + "_" + cls)[j]
    {
      if j < |ns| {
        assert s[j] == ns[j];
      } else if j > |ns| {
        assert s[j] == cls[j - |ns| - 1];
      }
    }
  }

  /** `{ type.to_sym => { properties: type_mapping } }`. */
  datatype Mapping = Mapping(typeName: string, properties: seq<(string, FieldMapping)>)

  function MappingOf(underscored: string): (m: Mapping)
    ensures m.typeName == TypeName(underscored)
    ensures '/' !in m.typeName && |m.typeName| == |underscored|
    ensures forall f :: f in MappedFields() <==> exists i :: 0 <= i < |m.properties| && m.properties[i].0 == f
  {
    Mapping(TypeName(underscored), TypeMapping())
  }

  /**
   * The mapping registered for a namespaced model such as `Spree::Product`
   * (`spree/product`): its type is `spree_product`, and it names every field
   * the serialiser writes except `variants`.
   */
  lemma ProductMapping(ns: string, cls: string, p: Product)
    requires '/' !in ns && '/' !in cls
    ensures MappingOf(ns + "/" + cls).typeName == ns + "_" + cls
    ensures forall k :: k in Serialised(p) && k != Str("variants") ==>
      exists i :: 0 <= i < |MappingOf(ns + "/" + cls).properties| && MappingOf(ns + "/" + cls).properties[i].0 == k.name
  {
    NamespacedTypeName(ns, cls);
    MappingNamesDocument(ns + "/" + cls, p);
  }

  /** Whatever the type name, the mapping names every serialised field except `variants`. */
  lemma MappingNamesDocument(underscored: string, p: Product)
    ensures forall k :: k in Serialised(p) && k != Str("variants") ==>
      exists i :: 0 <= i < |MappingOf(underscored).properties| && MappingOf(underscored).properties[i].0 == k.name
  {
    var m := MappingOf(underscored);
    MappingCoversDocument(p);
    forall k | k in Serialised(p) && k != Str("variants")
      ensures exists i :: 0 <= i < |m.properties| && m.properties[i].0 == k.name
    {
      assert k.name in MappedFields();
    }
  }

  /** One hit of a search response, or the response of `get`. */
  datatype Hit = Hit(source: Document, version: Value)

  /** A product model built from a stored document, with its `version` accessor set. */
  datatype Model = Model(attributes: Document, version: Value)

  /** `_source` without the keys of `exclude_from_response`; every other key keeps its value. */
  function Stripped(source: Document): (r: Document)
    ensures r.Keys == source.Keys - ExcludedKeys()
    ensures forall k :: k in r ==> r[k] == source[k]
  {
    map k | k in source && k !in ExcludedKeys() :: source[k]
  }

  /** `except!(*exclude_from_response)`: the excluded keys removed one after another. */
  method Except(source: Document) returns (r: Document)
    ensures r == Stripped(source)
  {
    var keys := ExcludeFromResponse();
    r := source;
    for i := 0 to |keys|
      invariant r.Keys == source.Keys - (set j | 0 <= j < i :: Str(keys[j]))
      invariant forall k :: k in r ==> r[k] == source[k]
    {
      r := r - {Str(keys[i])};
    }
    assert (set j | 0 <= j < |keys| :: Str(keys[j])) == ExcludedKeys();
  }

  function Shaped(hit: Hit): Model {
    Model(Stripped(hit.source), hit.version)
  }

  /**
   * The document indexed for a product comes back from a search or `get`
   * with exactly its six fixed fields, unchanged.
   */
  lemma {:induction false} StrippedSerialised(p: Product)
    ensures Stripped(Serialised(p)).Keys == AlwaysKeys()
    ensures forall k :: k in AlwaysKeys() ==> Stripped(Serialised(p))[k] == Serialised(p)[k]
  {
    ExcludedAreTheConditionalKeys(p);
  }

  /** `get`: the stored document, stripped, as a model carrying the response's `_version`. */
  method Get(response: Hit) returns (m: Model)
    ensures m.attributes.Keys == response.source.Keys - ExcludedKeys()
    ensures forall k :: k in m.attributes ==> m.attributes[k] == response.source[k]
    ensures m.version == response.version
  {
    var attributes := Except(response.source);
    m := Model(attributes, response.version);
  }

  /** The block of `search` mapped over `hits.hits`: one model per hit, in hit order. */
  method ShapeHits(hits: seq<Hit>) returns (models: seq<Model>)
    ensures |models| == |hits|
    ensures forall i :: 0 <= i < |hits| ==> models[i] == Shaped(hits[i])
  {
    models := [];
    for i := 0 to |hits|
      invariant |models| == i
      invariant forall j :: 0 <= j < i ==> models[j] == Shaped(hits[j])
    {
      var attributes := Except(hits[i].source);
      models := models + [Model(attributes, hits[i].version)];
    }
  }

  /** The page of models a search returns, with its offset and the total number of hits. */
  class ResultList {
    var results: seq<Model>
    var total: int
    var from: int

    constructor (results: seq<Model>, from: int, total: int)
      ensures this.results == results && this.from == from && this.total == total
    {
      this.results := results;
      this.from := from;
      this.total := total;
    }

    /** `each`: the block sees exactly `results`, in order. */
    method Each() returns (visited: seq<Model>)
      ensures visited == results
    {
      visited := [];
      for i := 0 to |results|
        invariant visited == results[..i]
      {
        visited := visited + [results[i]];
      }
      assert results[..|results|] == results;
    }
  }

  /** The arguments `search` receives; an absent `from` is `None`, absent lists are empty. */
  datatype SearchArgs = SearchArgs(
    query: Option<string>,
    from: Option<int>,
    properties: seq<QueryV2.PropertyFilter>,
    taxons: seq<string>,
    priceMin: Option<int>,
    priceMax: Option<int>)

  /** `ElasticsearchQuery.new(args)`: `from` defaults to 0. */
  function QueryArgsOf(args: SearchArgs): QueryV2.QueryArgs {
    QueryV2.QueryArgs(args.query, args.from.GetOr(0), args.properties, args.taxons, args.priceMin, args.priceMax)
  }

  /** What `search` hands to the client. */
  datatype SearchRequest = SearchRequest(body: SearchBody, index: string, typeName: string)

  /** The part of a search response `search` reads: `hits.hits` and `hits.total`. */
  datatype SearchResponse = SearchResponse(hits: seq<Hit>, total: int)

  /**
   * `search`: builds the request with the version 2 compiler, then shapes the
   * response. `from` is the same offset in the request and in the result list.
   */
  method Search(args: SearchArgs, underscoredName: string, indexName: string, productsPerPage: int,
                response: SearchResponse)
      returns (request: SearchRequest, list: ResultList)
    ensures request.index == indexName && request.typeName == TypeName(underscoredName)
    ensures request.body.query.query == Some(QueryV2.TextQuery(args.query))
    ensures request.body.query.andFilter == Some(QueryV2.AndFilter(QueryArgsOf(args)))
    ensures request.body.filter == QueryV2.PriceFilter(QueryArgsOf(args))
    ensures request.body.from == args.from.GetOr(0) && request.body.size == productsPerPage
    ensures request.body.sort == [SortKey("name.untouched", "asc")]
    ensures request.body.facets == QueryV2.Facets()
    ensures fresh(list)
    ensures |list.results| == |response.hits|
    ensures forall i :: 0 <= i < |response.hits| ==> list.results[i] == Shaped(response.hits[i])
    ensures list.from == request.body.from && list.total == response.total
  {
    var body := QueryV2.ToHash(QueryArgsOf(args), productsPerPage);
    request := SearchRequest(body, indexName, TypeName(underscoredName));
    var models := ShapeHits(response.hits);
    list := new ResultList(models, args.from.GetOr(0), response.total);
  }

  /** What `index` hands to the client. */
  datatype IndexRequest = IndexRequest(id: int, typeName: string, index: string, body: Document)

  /** Deleting Symbol keys from a document whose keys are all Strings changes nothing. */
  lemma SymbolDeleteIsNoOp(doc: Document, name: string)
    requires forall k :: k in doc ==> k.Str?
    ensures doc - {Sym(name)} == doc
  {
    assert Sym(name) !in doc;
  }

  /**
   * `index`: the serialised product minus the Symbol keys `:id` and
   * `:version`, which the String-keyed document does not have, so the body
   * still carries `'id'`. A response without a truthy `'ok'` is an error.
   */
  method Index(p: Product, underscoredName: string, indexName: string, response: Document)
      returns (request: IndexRequest, r: Result<Document>)
    ensures request.id == p.id && request.typeName == TypeName(underscoredName) && request.index == indexName
    ensures request.body == Serialised(p)
    ensures Str("id") in request.body && request.body[Str("id")] == Int(p.id)
    ensures r.Ok? <==> Truthy(Lookup(response, Str("ok")))
    ensures r.Ok? ==> r.value == response
    ensures r.Err? ==> r.error == "Indexing Error"
  {
    var doc := ToHash(p);
    SerialisedKeys(p);
    SymbolDeleteIsNoOp(doc, "id");
    doc := doc - {Sym("id")};
    SymbolDeleteIsNoOp(doc, "version");
    doc := doc - {Sym("version")};
    request := IndexRequest(p.id, TypeName(underscoredName), indexName, doc);
    if !Truthy(Lookup(response, Str("ok"))) {
      return request, Err("Indexing Error");
    }
    r := Ok(response);
  }
}
