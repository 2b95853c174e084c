/**
 * The product side of `app/models/spree/product_decorator.rb`: the document
 * `Product#to_hash` writes into the index, the keys stripped from search
 * responses (`exclude_from_response`) and the field mapping (`type_mapping`).
 */
module ProductDocument {
  import opened Wrappers
  import opened Documents
  import opened RubyText
  import opened PropertyCodec

  /** A product property value together with the name of its property. */
  datatype ProductProperty = ProductProperty(name: string, value: string)

  /**
   * The attributes of a product that the serialiser reads. Dates and the
   * description are kept as opaque values; `variants` holds each variant's
   * `attributes` hash.
   */
  datatype Product = Product(
    id: int,
    name: string,
    description: Value,
    availableOn: Value,
    updatedAt: Value,
    price: int,
    properties: seq<ProductProperty>,
    taxonNames: seq<string>,
    variants: seq<Document>)

  /** One `"#{name}||#{value}"` token per product property, in order. */
  function PropertyTokens(props: seq<ProductProperty>): (r: seq<string>)
    ensures |r| == |props|
    ensures forall i :: 0 <= i < |props| ==> r[i] == Token(props[i].name, props[i].value)
  {
    seq(|props|, i requires 0 <= i < |props| => Token(props[i].name, props[i].value))
  }

  /**
   * The facet expander's `split('||')` gives back each indexed property as
   * its name and value, when neither contains a separator and the value is not empty.
   */
  lemma PropertyTokensSplit(props: seq<ProductProperty>)
    requires forall i :: 0 <= i < |props| ==> WellFormedName(props[i].name) && WellFormedValue(props[i].value)
    ensures forall i :: 0 <= i < |props| ==> Split(PropertyTokens(props)[i]) == [props[i].name, props[i].value]
  {
    forall i | 0 <= i < |props|
      ensures Split(PropertyTokens(props)[i]) == [props[i].name, props[i].value]
    {
      SplitToken(props[i].name, props[i].value);
    }
  }

  /** The keys every serialised product has. */
  function AlwaysKeys(): set<Key> {
    {Str("id"), Str("name"), Str("description"), Str("available_on"), Str("updated_at"), Str("price")}
  }

  /** The six fixed fields of the serialised product. */
  function Base(p: Product): Document {
    map[Str("id") := Int(p.id), Str("name") := Text(p.name), Str("description") := p.description,
        Str("available_on") := p.availableOn, Str("updated_at") := p.updatedAt, Str("price") := Int(p.price)]
  }

  lemma BaseKeys(p: Product)
    ensures Base(p).Keys == AlwaysKeys()
  {
  }

  /** The document `Product#to_hash` builds, stated declaratively. */
  function Serialised(p: Product): Document {
    Base(p)
    + (if p.properties == [] then map[] else map[Str("properties") := TextList(PropertyTokens(p.properties))])
    + (if p.taxonNames == [] then map[] else map[Str("taxons") := TextList(p.taxonNames)])
    + (if p.variants == [] then map[]
       else map[Str("variants") := List(seq(|p.variants|, i requires 0 <= i < |p.variants| => Object(p.variants[i])))])
  }

  /** `Product#to_hash`: the base hash, then the conditional keys, appending one entry per variant. */
  method ToHash(p: Product) returns (d: Document)
    ensures d == Serialised(p)
  {
    d := Base(p);
    if p.properties != [] {
      d := d[Str("properties") := TextList(PropertyTokens(p.properties))];
    }
    if p.taxonNames != [] {
      d := d[Str("taxons") := TextList(p.taxonNames)];
    }
    if |p.variants| > 0 {
      var variants: seq<Value> := [];
      for i := 0 to |p.variants|
        invariant |variants| == i
        invariant forall j :: 0 <= j < i ==> variants[j] == Object(p.variants[j])
      {
        variants := variants + [Object(p.variants[i])];
      }
      assert variants == seq(|p.variants|, i requires 0 <= i < |p.variants| => Object(p.variants[i]));
      d := d[Str("variants") := List(variants)];
    }
  }

  /** The serialised keys: the six fixed ones, and each collection only when it is non-empty. */
  lemma SerialisedKeys(p: Product)
    ensures Serialised(p).Keys ==
      AlwaysKeys()
      + (if p.properties == [] then {} else {Str("properties")})
      + (if p.taxonNames == [] then {} else {Str("taxons")})
      + (if p.variants == [] then {} else {Str("variants")})
    ensures forall k :: k in Serialised(p) ==> k.Str?
  {
    BaseKeys(p);
  }

  /** The indexed `properties` values of a product are its property tokens in order (none without properties). */
  lemma SerialisedPropertyTokens(p: Product)
    ensures FieldTokens(Serialised(p), "properties") == PropertyTokens(p.properties)
  {
    if p.properties != [] {
      TextsOfTextList(PropertyTokens(p.properties));
    }
  }

  /** The indexed `taxons` values of a product are its taxon names in order. */
  lemma SerialisedTaxonNames(p: Product)
    ensures FieldTokens(Serialised(p), "taxons") == p.taxonNames
  {
    if p.taxonNames != [] {
      TextsOfTextList(p.taxonNames);
    }
  }

  /** A product property whose name is well-formed is found in the document exactly through its own token. */
  lemma PropertyTokenFound(p: Product, name: string, value: string)
    requires WellFormedName(name)
    requires forall i :: 0 <= i < |p.properties| ==> WellFormedName(p.properties[i].name)
    ensures Token(name, value) in FieldTokens(Serialised(p), "properties")
        <==> ProductProperty(name, value) in p.properties
  {
    SerialisedPropertyTokens(p);
    var tokens := PropertyTokens(p.properties);
    if Token(name, value) in tokens {
      var i :| 0 <= i < |tokens| && tokens[i] == Token(name, value);
      TokenInjective(p.properties[i].name, p.properties[i].value, name, value);
      assert p.properties[i] == ProductProperty(name, value);
    }
    if ProductProperty(name, value) in p.properties {
      var i :| 0 <= i < |p.properties| && p.properties[i] == ProductProperty(name, value);
      assert tokens[i] == Token(name, value);
    }
  }

  /** `exclude_from_response`: only the optional keys, never one every product has. */
  function ExcludeFromResponse(): (r: seq<string>)
    ensures forall i :: 0 <= i < |r| ==> Str(r[i]) !in AlwaysKeys()
  {
    ["properties", "taxons", "variants"]
  }

  function ExcludedKeys(): (ks: set<Key>)
    ensures forall k :: k in ks <==> k.Str? && k.name in ExcludeFromResponse()
  {
    set n | n in ExcludeFromResponse() :: Str(n)
  }

  lemma ExcludedKeysListed()
    ensures ExcludedKeys() == {Str("properties"), Str("taxons"), Str("variants")}
  {
  }

  /**
   * The excluded keys are exactly the keys the serialiser adds conditionally:
   * stripping them from any serialised product leaves the six fixed keys.
   */
  lemma ExcludedAreTheConditionalKeys(p: Product)
    ensures ExcludedKeys() !! AlwaysKeys()
    ensures Serialised(p).Keys - ExcludedKeys() == AlwaysKeys()
    ensures p.properties != [] && p.taxonNames != [] && p.variants != [] ==> ExcludedKeys() <= Serialised(p).Keys
  {
    SerialisedKeys(p);
    ExcludedKeysListed();
  }

  /** One entry of `type_mapping`; absent options are absent keys of the Ruby hash. */
  datatype FieldMapping = FieldMapping(
    kind: string,
    index: Option<string>,
    analyzer: Option<string>,
    boost: Option<int>,
    format: Option<string>,
    includeInAll: Option<bool>)

  function StringField(index: Option<string>, analyzer: Option<string>, boost: Option<int>): FieldMapping {
    FieldMapping("string", index, analyzer, boost, None, None)
  }

  function DateField(): FieldMapping {
    FieldMapping("date", None, None, None, Some("dateOptionalTime"), Some(false))
  }

  /** `type_mapping`, in its declared order. */
  function TypeMapping(): seq<(string, FieldMapping)> {
    [ ("id", StringField(Some("not_analyzed"), None, None)),
      ("name", StringField(None, Some("snowball"), Some(100))),
      ("description", StringField(None, Some("snowball"), None)),
      ("available_on", DateField()),
      ("updated_at", DateField()),
      ("price", FieldMapping("double", None, None, None, None, None)),
      ("properties", StringField(Some("not_analyzed"), None, None)),
      ("taxons", StringField(Some("not_analyzed"), None, None)) ]
  }

  /** No field is mapped twice, so the hash the mapping becomes keeps all eight entries. */
  lemma TypeMappingDistinct()
    ensures forall i, j :: 0 <= i < j < |TypeMapping()| ==> TypeMapping()[i].0 != TypeMapping()[j].0
  {
  }

  function MappedFields(): (fs: set<string>)
    ensures forall f :: f in fs <==> exists i :: 0 <= i < |TypeMapping()| && TypeMapping()[i].0 == f
  {
    set i | 0 <= i < |TypeMapping()| :: TypeMapping()[i].0
  }

  lemma MappedFieldsListed()
    ensures MappedFields() == {"id", "name", "description", "available_on", "updated_at", "price", "properties", "taxons"}
  {
    assert TypeMapping()[0].0 == "id" && TypeMapping()[1].0 == "name" && TypeMapping()[2].0 == "description";
    assert TypeMapping()[3].0 == "available_on" && TypeMapping()[4].0 == "updated_at" && TypeMapping()[5].0 == "price";
    assert TypeMapping()[6].0 == "properties" && TypeMapping()[7].0 == "taxons";
  }

  /**
   * Every key of a serialised product except `variants` has a mapping, and the
   * two token fields the filters match exactly are not analysed.
   */
  lemma MappingCoversDocument(p: Product)
    ensures forall k :: k in Serialised(p) && k != Str("variants") ==> k.name in MappedFields()
    ensures TypeMapping()[6] == ("properties", StringField(Some("not_analyzed"), None, None))
    ensures TypeMapping()[7] == ("taxons", StringField(Some("not_analyzed"), None, None))
  {
    SerialisedKeys(p);
    MappedFieldsListed();
    forall k | k in Serialised(p) && k != Str("variants")
      ensures k.name in MappedFields()
    {
      assert k in AlwaysKeys() || k == Str("properties") || k == Str("taxons");
    }
  }
}
