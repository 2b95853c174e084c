# spree_elasticsearch search core in Dafny

This is a model of the search core of `spree_elasticsearch`, the Spree
storefront extension that indexes products in Elasticsearch and searches
them. The model covers five pieces:

- **`Spree::Product#to_hash`**: the product document the index stores. It
  has six fixed fields. It also has `properties` (one `name||value` token
  per product property), `taxons` (taxon names) and `variants`, each present
  only when non-empty. The same file holds the field mapping and the keys
  stripped from responses.
- **`Product::ElasticsearchQuery#to_hash`**, in both versions.
  - Version 1 puts all property pairs into one terms filter, which it joins
    in place with `map!`.
  - Version 2 is loaded last, so it is the one in effect. It builds:
    - a `query_string` text query;
    - one terms filter per requested property, which gives OR within a
      property and AND across properties;
    - a taxon filter;
    - an availability filter that is always present;
    - an inclusive price range as a top-level filter, applied only when
      both bounds are given and `price_min < price_max`. Because it is
      top-level, it does not reach the facets.
- **The facet expander of `Spree::BaseHelper`.** It splits each bucket key
  of the `properties` aggregation with `split('||')` and groups the terms by
  property name in first-seen order. It sorts each group by count
  descending, then by the lower-cased term. `process_aggregations` then
  replaces the `properties` entry of the aggregation hash with one entry per
  property name.
- **`Spree::Concerns::Indexable`**:
  - the index type name;
  - `mapping`;
  - `search`, which compiles the query and turns hits into models with the
    excluded keys stripped, in a `ResultList`;
  - `get`;
  - `index`, which sends the document and raises unless the response is `ok`.
- **`Spree::Search::Elasticsearch`**: the storefront's parameters
  normalised with `to_i` and `blank?`, and `retrieve_products`.

Ruby hashes are `map`s whose keys keep Ruby's String and Symbol keys
apart. The query document is a typed tree (`QueryTree`). Operations that
update objects in place are classes with `modifies` clauses:

- the version 1 query object, whose `properties` `to_hash` rewrites;
- the aggregation hash that `process_aggregations` edits;
- `ResultList`;
- the storefront searcher.

Calls to the Elasticsearch client are not modelled. Their responses are
parameters. The requests of `search` and `index` are results; `get` returns only the model built from its response.

Three behaviours of the code are easy to misread:

- `split('||')` cuts a key at every separator, not only the first one. A
  value that contains `||` is therefore truncated
  (`PropertyCodec.ValueWithSeparatorIsCut`).
- A bucket key that splits into fewer than two fields is not skipped. Its
  `nil` term makes `downcase` raise, so the expansion fails, and the model
  returns an error.
- Groups come out in the order their names are first seen among the
  buckets, not sorted by name.

## Model

| member | source | states |
|---|---|---|
| RubyText.FindSep | app/helpers/spree/base_helper_decorator.rb:11 | finds the first double-bar separator of the key, or reports that there is none |
| RubyText.SplitFields | app/helpers/spree/base_helper_decorator.rb:11 | before trailing empties are dropped, `split` yields at least one field, none holding the separator; a string without a separator is its own only field |
| RubyText.SplitFieldsJoin | app/helpers/spree/base_helper_decorator.rb:11 | the fields are the pieces of the string: joined with the double bar again, they give it back |
| RubyText.DropTrailingEmpty | app/helpers/spree/base_helper_decorator.rb:11 | `split` drops exactly the trailing empty fields; the rest is a prefix ending in a non-empty field |
| RubyText.Split | app/helpers/spree/base_helper_decorator.rb:11 | no field of the double-bar split holds the separator; the last field, if any, is not empty; a non-empty string without a separator splits into itself alone |
| RubyText.SplitRebuilds | app/helpers/spree/base_helper_decorator.rb:11 | joining the split fields again gives a prefix of the string, and all that follows it is bar characters, the trailing separators whose empty fields were dropped |
| RubyText.JoinAppend | app/models/spree/product_decorator.rb:52 | joining two non-empty lists is joining each and putting the separator between |
| RubyText.Downcase | app/helpers/spree/base_helper_decorator.rb:27 | `downcase` keeps the length, lower-cases each ASCII letter, and leaves no capital letter |
| RubyText.DowncaseIdempotent | app/helpers/spree/base_helper_decorator.rb:27 | lower-casing twice gives what lower-casing once gives, so the sort key of a term is already lower-case |
| RubyText.LexLeTotal | app/helpers/spree/base_helper_decorator.rb:27 | string comparison orders any two strings |
| RubyText.LexLeTransitive | app/helpers/spree/base_helper_decorator.rb:27 | string comparison is transitive |
| RubyText.LexLeAntisymmetric | app/helpers/spree/base_helper_decorator.rb:27 | two strings that compare both ways are equal |
| PropertyCodec.Token | app/models/spree/product_decorator.rb:117 | the token is the name, then exactly the two bar characters, then the value |
| PropertyCodec.NoBarIsWellFormed | app/models/spree/product_decorator.rb:117 | a name without a bar character can be split off its token; a non-empty value without one survives the split whole |
| PropertyCodec.FirstSepOfToken | app/helpers/spree/base_helper_decorator.rb:11 | in a token of a well-formed name, the first separator sits right after the name |
| PropertyCodec.SplitToken | app/helpers/spree/base_helper_decorator.rb:11-13 | round trip: splitting the token of a well-formed name and value gives back exactly `[name, value]` |
| PropertyCodec.TokenInjective | app/models/spree/product_decorator.rb:117 | tokens of well-formed names are equal only when their names and values are |
| PropertyCodec.ValueWithSeparatorIsCut | app/helpers/spree/base_helper_decorator.rb:11-13 | a value that itself contains the separator comes back cut: the token of `k` and `a`, separator, `b` splits into three fields |
| Documents.Texts | app/models/spree/product_decorator.rb:117-118 | the strings a list field offers to a terms filter are exactly its string items |
| Documents.TextsOfTextList | app/models/spree/product_decorator.rb:117-118 | a field written as an array of strings is read back as the same strings, in order |
| ProductDocument.PropertyTokensSplit | app/models/spree/product_decorator.rb:117 | each indexed token of a property with a well-formed name and value splits back into exactly that name and value |
| ProductDocument.ToHash | app/models/spree/product_decorator.rb:108-127 | `to_hash` builds the base hash, adds the conditional keys, and appends one object per variant; the result is the declarative document |
| ProductDocument.SerialisedKeys | app/models/spree/product_decorator.rb:108-127 | the document has the six fixed keys, plus `properties`, `taxons` and `variants` exactly when each is non-empty; every key is a String key |
| ProductDocument.SerialisedPropertyTokens | app/models/spree/product_decorator.rb:117 | the indexed `properties` values are the product's property tokens, in order |
| ProductDocument.SerialisedTaxonNames | app/models/spree/product_decorator.rb:118 | the indexed `taxons` values are the product's taxon names, in order |
| ProductDocument.PropertyTokenFound | app/models/spree/product_decorator.rb:117 | with well-formed property names, a token is in the document iff the product has that property with that value |
| ProductDocument.ExcludeFromResponse | app/models/spree/product_decorator.rb:89-91 | no excluded name is one of the six fixed keys every product has |
| ProductDocument.ExcludedKeysListed | app/models/spree/product_decorator.rb:89-91 | the excluded keys are `properties`, `taxons` and `variants` |
| ProductDocument.ExcludedAreTheConditionalKeys | app/models/spree/product_decorator.rb:89-91 | the excluded keys are disjoint from the fixed keys; stripping them from any document leaves the six fixed keys; a product with all three collections has all three |
| ProductDocument.TypeMappingDistinct | app/models/spree/product_decorator.rb:94-105 | no field is mapped twice, so the mapping hash keeps all eight entries |
| ProductDocument.MappedFieldsListed | app/models/spree/product_decorator.rb:94-105 | the mapped fields are the eight fields of `type_mapping` |
| ProductDocument.MappingCoversDocument | app/models/spree/product_decorator.rb:94-105 | every document key except `variants` is mapped; `properties` and `taxons` are `not_analyzed` strings |
| QueryV1.Flatten | app/models/spree/product_decorator.rb:52 | `to_a` flattened: each pair contributes its name and then its value, pair after pair |
| QueryV1.SinglePairIsToken | app/models/spree/product_decorator.rb:52 | a one-entry hash joins to the same token the serialiser writes |
| QueryV1.FirstJoined | app/models/spree/product_decorator.rb:51-53 | the first element that is already a string (where `to_a` raises); every element before it is a hash |
| QueryV1.Converted | app/models/spree/product_decorator.rb:51-53 | after `n` steps of `map!`, the array keeps its length; every element from `n` on is untouched; every element before `n` is a string, the joined pairs of a hash or the string that was already there |
| QueryV1.MustMatches | app/models/spree/product_decorator.rb:34-43 | the `must` list is never empty; it holds `match_all` iff neither query nor name is given |
| QueryV1.ElasticsearchQuery.constructor | app/models/spree/product_decorator.rb:7-13 | the attributes hold the given values |
| QueryV1.ElasticsearchQuery.JoinProperties | app/models/spree/product_decorator.rb:51-53 | `map!` joins each hash in place, up to the first element that is already a string; it reports whether it reached the end |
| QueryV1.ElasticsearchQuery.BuildAndFilter | app/models/spree/product_decorator.rb:45-59 | the `and` list is taxons, then all property tokens in one clause, then the half-open price range; it fails iff some property is already a string |
| QueryV1.ElasticsearchQuery.ToHash | app/models/spree/product_decorator.rb:33-83 | the whole body: the `must` query, the `and` filter when non-empty, sort by name, `from`, the page size and the facets; the properties are left joined in place, and a second call fails |
| QueryV1.FlatPropertyFilterIsOr | app/models/spree/product_decorator.rb:54 | the single properties clause holds iff the document has any one of all the requested tokens |
| QueryV1.FlatFilterAdmitsPartialMatch | app/models/spree/product_decorator.rb:49-55 | in the AND scenario of the test suite, version 1 admits the product that has only one of the two requested properties |
| QueryV2.ValueTokensSplit | app/models/spree/product_elasticsearch_decorator.rb:19-20 | each requested token of a well-formed key and value splits back into exactly that key and value |
| QueryV2.ToHash | app/models/spree/product_elasticsearch_decorator.rb:3-56 | the text query (`match_all` without keywords); the `and` list; the price filter only when it applies; sort on `name.untouched`; `from`, the page size and the facets |
| QueryV2.AndFilterWithoutProperties | app/models/spree/product_elasticsearch_decorator.rb:45-47 | without property filters, the `and` list is the taxon filter (if any) followed by the availability filter |
| QueryV2.AndFilterShape | app/models/spree/product_elasticsearch_decorator.rb:13-48 | the `and` list has one clause per property, plus one for taxons when there are any, plus availability last; none of them constrains price, so price cannot change facet counts |
| QueryV2.PriceFilterInclusive | app/models/spree/product_elasticsearch_decorator.rb:51-53 | when the price filter applies, it keeps exactly the prices in `[price_min, price_max]` |
| QueryV2.PropertyClauseHolds | app/models/spree/product_elasticsearch_decorator.rb:19-20 | one property's clause holds iff the document has one of that property's requested values |
| QueryV2.PropertyFiltersAndOr | app/models/spree/product_elasticsearch_decorator.rb:14-22 | AND across properties, OR within one: the filters hold iff every property has one of its requested values |
| QueryV2.ProductMatchesPropertyFilters | app/models/spree/product_elasticsearch_decorator.rb:14-22 | end to end with the serialiser: a product passes iff, for every requested property, it has one of the requested values |
| QueryV2.OrWithinOneProperty | spec/models/products_spec.rb:191-212 | two products having `a_value` and `b_value` of `the_prop` both pass a request for either value |
| QueryV2.AndAcrossPropertiesKeeps | spec/models/products_spec.rb:214-235 | the product having both requested properties passes |
| QueryV2.AndAcrossPropertiesDrops | spec/models/products_spec.rb:214-235 | the product having only one of the requested properties does not pass |
| FacetExpander.Decode | app/helpers/spree/base_helper_decorator.rb:11-15 | a decoded bucket keeps its count and its whole key as search term; its name and term hold no separator; a key without a separator does not decode |
| FacetExpander.DecodeTokenBucket | app/helpers/spree/base_helper_decorator.rb:11-15 | the bucket of a well-formed token decodes to its name, its value, its count and the original key |
| FacetExpander.Names | app/helpers/spree/base_helper_decorator.rb:9-21 | the property names in first-seen order hold no duplicates |
| FacetExpander.NamesMembers | app/helpers/spree/base_helper_decorator.rb:16-20 | a name is listed iff some bucket carries it |
| FacetExpander.NoGroupWithoutName | app/helpers/spree/base_helper_decorator.rb:16-20 | a name that no bucket carries has no terms |
| FacetExpander.BeforeKey | app/helpers/spree/base_helper_decorator.rb:27 | a larger count always sorts first; between equal counts, exactly one order holds unless the lower-cased terms are equal, and then both do |
| FacetExpander.BeforeTotal | app/helpers/spree/base_helper_decorator.rb:27 | the sort key orders any two terms |
| FacetExpander.BeforeTransitive | app/helpers/spree/base_helper_decorator.rb:27 | the sort key order is transitive |
| FacetExpander.InsertTerm | app/helpers/spree/base_helper_decorator.rb:27 | inserting into a sorted group keeps it sorted and adds exactly the new term |
| FacetExpander.SortTerms | app/helpers/spree/base_helper_decorator.rb:27 | `sort_by!` yields the same terms, ordered by count descending, then by lower-cased term |
| FacetExpander.AnyMalformedExists | app/helpers/spree/base_helper_decorator.rb:11-13 | the loop's malformed flag is set iff some bucket key splits into fewer than two fields |
| FacetExpander.MalformedStep | app/helpers/spree/base_helper_decorator.rb:11-13 | a malformed bucket adds to no group |
| FacetExpander.SeenNameStep | app/helpers/spree/base_helper_decorator.rb:16-17 | a bucket of a known name appends its term to that group and leaves every other group alone |
| FacetExpander.NewNameStep | app/helpers/spree/base_helper_decorator.rb:18-19 | a bucket of a new name opens a group holding just its term |
| FacetExpander.AddBucket | app/helpers/spree/base_helper_decorator.rb:10-21 | one loop step keeps the names, the groups and the malformed flag equal to those of the longer prefix |
| FacetExpander.GroupByName | app/helpers/spree/base_helper_decorator.rb:9-21 | the hash holds exactly the first-seen names, each mapped to its terms in bucket order |
| FacetExpander.ExpandProperties | app/helpers/spree/base_helper_decorator.rb:6-34 | succeeds iff no key is malformed; then there is one group per name in first-seen order, and each group is sorted and holds exactly that name's terms |
| FacetExpander.SortedUnique | app/helpers/spree/base_helper_decorator.rb:27 | without ties on both sort keys, the sorted order of a group is unique |
| FacetExpander.NoTiesPermuted | app/helpers/spree/base_helper_decorator.rb:27 | whether terms tie depends only on which terms there are |
| FacetExpander.ExampleOrder | app/helpers/spree/base_helper_decorator.rb:27 | red (3), blue (3) and Azure (1) can only be sorted as blue, red, Azure |
| FacetExpander.Without | app/helpers/spree/base_helper_decorator.rb:50 | deleting a key removes exactly that key from the key order and keeps the rest distinct |
| FacetExpander.WithoutAbsent | app/helpers/spree/base_helper_decorator.rb:50 | deleting a key that is not there leaves the key order as it was |
| FacetExpander.WithoutAppend | app/helpers/spree/base_helper_decorator.rb:50 | deleting from two halves of the key order deletes from each half in place |
| FacetExpander.WithoutKeepsOrder | app/helpers/spree/base_helper_decorator.rb:50 | `delete` keeps the order of the other keys: the keys before and after the deleted one close up |
| FacetExpander.Stored | app/helpers/spree/base_helper_decorator.rb:51 | after storing names, the keys are the old keys and the stored names, and they stay distinct |
| FacetExpander.StoredKeepsKeys | app/helpers/spree/base_helper_decorator.rb:51 | storing keeps the known keys in place as a prefix; every key after them is a stored name that was not a key before |
| FacetExpander.AggregationHash.constructor | app/helpers/spree/base_helper_decorator.rb:39 | the hash holds the given keys and entries |
| FacetExpander.AggregationHash.Delete | app/helpers/spree/base_helper_decorator.rb:50 | `delete` removes the key from the order and from the entries |
| FacetExpander.AggregationHash.Store | app/helpers/spree/base_helper_decorator.rb:51 | storing under a known key keeps its place; a new key goes last |
| FacetExpander.MergedEntries | app/helpers/spree/base_helper_decorator.rb:51 | merging adds exactly the group names, leaves every other entry as it was, and stores each group's own terms |
| FacetExpander.MergeGroups | app/helpers/spree/base_helper_decorator.rb:51 | `merge!` of the expanded groups: keys in order, new entries, and every other entry unchanged |
| FacetExpander.ExpandPropertiesEntry | app/helpers/spree/base_helper_decorator.rb:42-49 | expands the `properties` entry when there is one; with no such entry nothing is expanded; an entry without buckets raises |
| FacetExpander.ExpansionNames | app/helpers/spree/base_helper_decorator.rb:25-32 | an expansion's group names are the first-seen property names |
| FacetExpander.ProcessAggregations | app/helpers/spree/base_helper_decorator.rb:39-52 | on success, `properties` is replaced by one sorted entry per property name, and other entries are kept unless a property name overwrites one; without `properties` nothing changes; on failure the hash is untouched |
| FacetExpander.OccurrencesOfDistinct | app/helpers/spree/base_helper_decorator.rb:9-21 | a distinct name list holds each name at most once |
| FacetExpander.GroupSizesAddUp | app/helpers/spree/base_helper_decorator.rb:9-21 | every decodable bucket lands in exactly one group: the group sizes add up to the number of decodable buckets |
| FacetExpander.DecodedCountAll | app/helpers/spree/base_helper_decorator.rb:11-13 | with no malformed key, every bucket is decodable |
| FacetExpander.ExpansionAccountsForEveryBucket | app/helpers/spree/base_helper_decorator.rb:6-34 | a successful expansion loses no bucket: the sizes add up to the bucket count, and every bucket's name has a group |
| Indexable.TypeName | app/models/spree/concerns/indexable.rb:89-91 | `gsub('/','_')`: same length, no `/` left, every other character kept |
| Indexable.NamespacedTypeName | app/models/spree/concerns/indexable.rb:89-91 | `spree/product` becomes `spree_product`, and in general `ns/cls` becomes `ns_cls` |
| Indexable.MappingOf | app/models/spree/concerns/indexable.rb:61-67 | the mapping is keyed by the `gsub('/','_')` type name, which holds no `/`, and lists exactly the mapped fields |
| Indexable.ProductMapping | app/models/spree/concerns/indexable.rb:61-67 | the mapping of a namespaced model `ns/cls` (such as `spree/product`) has type `ns_cls` and names every field the serialiser writes except `variants` |
| Indexable.MappingNamesDocument | app/models/spree/concerns/indexable.rb:61-67 | whatever the type name, the mapping names every field of a serialised product except `variants` |
| Indexable.Except | app/models/spree/concerns/indexable.rb:53 | removing the excluded keys one after another gives the stripped document |
| Indexable.StrippedSerialised | app/models/spree/concerns/indexable.rb:78-84 | an indexed product comes back with exactly its six fixed fields, unchanged |
| Indexable.Get | app/models/spree/concerns/indexable.rb:48-57 | the model holds the stored document without the excluded keys, and the response's version |
| Indexable.ShapeHits | app/models/spree/concerns/indexable.rb:78-84 | one stripped model per hit, in hit order |
| Indexable.ResultList.constructor | app/models/spree/concerns/indexable.rb:11-15 | the list holds the given results, offset and total |
| Indexable.ResultList.Each | app/models/spree/concerns/indexable.rb:17-19 | `each` visits exactly the results, in order |
| Indexable.Search | app/models/spree/concerns/indexable.rb:70-87 | sends the version 2 body for the arguments (query, `and` list, price filter, sort on `name.untouched`, `from`, page size, facets) to the configured index and type; one shaped model per hit; the same `from` in the request and the list; the response's total |
| Indexable.SymbolDeleteIsNoOp | app/models/spree/concerns/indexable.rb:110-111 | deleting a Symbol key from a String-keyed document changes nothing |
| Indexable.Index | app/models/spree/concerns/indexable.rb:108-123 | the body is the serialised product and still carries `'id'`; the result is the response iff `ok` is truthy, and an error otherwise |
| SearchParams.SkipSpace | lib/spree/search/elasticsearch.rb:34-35 | `to_i` skips exactly the leading whitespace |
| SearchParams.LeadingDigits | lib/spree/search/elasticsearch.rb:34-35 | `to_i` reads the longest run of digits |
| SearchParams.Decimal | lib/spree/search/elasticsearch.rb:34-35 | `to_s` of a number is a non-empty string of digits |
| SearchParams.DecimalValueOfDecimal | lib/spree/search/elasticsearch.rb:34-35 | the digits of a number denote that number |
| SearchParams.LeadingDigitsOfDigits | lib/spree/search/elasticsearch.rb:34-35 | a string of digits is read whole |
| SearchParams.ToI | lib/spree/search/elasticsearch.rb:34-35 | a non-zero result comes from text that, after its whitespace, opens with a digit or a sign and a digit; a negative one from a minus sign |
| SearchParams.ToIOfRadixPrefix | lib/spree/search/elasticsearch.rb:34-35 | the base-10 prefix `0d` or `0D` before a digit string is skipped, with or without a minus sign, so `"0d12".to_i` is 12 |
| SearchParams.ToIOfDigits | lib/spree/search/elasticsearch.rb:34-35 | a digit string reads as its value, negated after a minus sign |
| SearchParams.ToIOfDecimal | lib/spree/search/elasticsearch.rb:34-35 | round trip: `n.to_s.to_i == n`, and `"-#{n}".to_i == -n` |
| SearchParams.ToISkipsSpace | lib/spree/search/elasticsearch.rb:34-35 | leading whitespace does not change what `to_i` reads |
| SearchParams.ToINoNumber | lib/spree/search/elasticsearch.rb:34-35 | `nil`, and text that does not start with a sign or a digit, read as 0 |
| SearchParams.BlankIsAllSpace | lib/spree/search/elasticsearch.rb:32 | `blank?` holds exactly when nothing is left after the leading whitespace, and a blank parameter reads as 0 |
| SearchParams.Elasticsearch.constructor | lib/spree/search/elasticsearch.rb:18-21 | `initialize` leaves the fields as `prepare` sets them |
| SearchParams.Elasticsearch.Prepare | lib/spree/search/elasticsearch.rb:30-36 | keywords unchanged; the taxon subtree unless the taxon is blank; non-positive `per_page` and `page` replaced by their defaults, so the page is at least 1 |
| SearchParams.Elasticsearch.RetrieveProducts | lib/spree/search/elasticsearch.rb:23-25 | only keywords and taxons reach the query: always the first page at the configured size, with no price or property filter, whatever `page` and `per_page` say |

## Left out

- The Elasticsearch client, its configuration and the network are not modelled. Responses are parameters. The requests of `search` and `index` are results. The `get` request (index, type and id) is not modelled, only the model built from its response.
- `delete_all`, `remove_from_index`, `update_index` and the save/destroy hooks are not modelled. This lifecycle decides when documents are written, not what is written.
- The installation generator and the settings class are not modelled.
- ActiveSupport's `underscore` is not modelled. `Indexable.TypeName` takes the already underscored class name.
- `query.scan` at app/models/spree/product_elasticsearch_decorator.rb:6 is not modelled. It has no pattern argument, so Ruby would raise there. `QueryV2.ToHash` models the rest of the method, which is the behaviour the test suite expects.
- Virtus coercion of attributes is not modelled. Arguments arrive already typed. An absent array is `[]` and an absent `from` is 0. A `nil` taxon list is forwarded as `[]`.
- `Integer(args.fetch(:from, 0))` raising on non-numeric input is not modelled. `from` is an integer.
- QueryV2.ToHash: app/models/spree/product_decorator.rb:7-13 declares no `price_min` or `price_max` attribute, so Virtus drops those keys and line 51 of app/models/spree/product_elasticsearch_decorator.rb would raise `NameError` as written. The model takes both as declared optional integer attributes, which is what the price tests expect.
- Prices are integers, not floats. Only their order matters to the filters.
- `QueryV1.ElasticsearchQuery.ToHash`: a `nil` `properties` attribute is not modelled separately from the empty array.
- `SearchParams.Elasticsearch.Prepare`: `Spree::Taxon.find` and `self_and_descendants` are a function parameter. The `RecordNotFound` error for an unknown taxon is not modelled.
- `SearchParams.ToI`: underscores between digits are not modelled.
- `RubyText.Downcase`: only the ASCII letters are lower-cased. Ruby's full Unicode case mapping is not modelled.
- `SearchParams.Blank`: only ASCII whitespace counts as blank. Unicode spaces are not modelled.
- `SearchParams.Elasticsearch.constructor`: `initialize` also sets `current_currency` from `Spree::Config[:currency]`. The model leaves it out, because nothing in the searcher reads it.
- `Indexable.Index`: the error is `"Indexing Error"`, without the `inspect` text of the response that the source appends.
- `FacetExpander.ProcessAggregations`: it assumes the response hash has indifferent access, as `aggregation[:buckets]` requires. The String test `key == 'properties'` and the Symbol `delete(:properties)` then hit the same entry.
- `FacetExpander.SortTerms`: `sort_by!` is modelled on a sequence value, not in place. Ruby's sort is not stable, so only the order by sort key and the multiset of terms are promised. Terms that tie on both keys may come out in any order, and `FacetExpander.SortedUnique` shows that the order is unique when there are no ties.
- `Indexable.Except`: `except!` is modelled on a map value, so aliasing of the response hash is not captured.
- `ResultList` includes `Enumerable`. Only `each` is modelled, because every other method of that module is derived from it.

## Findings

| source | as written | input that shows it | evidently intended | confidence | as-written member | corrected member |
|---|---|---|---|---|---|---|
| app/models/spree/product_decorator.rb:49-55 | all requested property tokens go into one terms filter, which holds when any one token matches (OR across properties) | request `the_prop=a_value` and `another_prop=a_value`; product with `the_prop=a_value` and `another_prop=b_value` | AND across properties, as the test suite's "different properties (AND relation)" expects and version 2 implements | not executed | QueryV1.FlatFilterAdmitsPartialMatch | QueryV2.AndAcrossPropertiesDrops |
