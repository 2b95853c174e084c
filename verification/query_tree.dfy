/**
 * A typed form of the query document both versions of
 * `Product::ElasticsearchQuery#to_hash` build as nested hashes, and the
 * meaning of its terms filters over an indexed document.
 */
module QueryTree {
  import opened Wrappers
  import opened Documents

  /** A bound in a range filter: a number, a date expression such as `"now"`, or `nil`. */
  datatype Scalar = Num(n: int) | Word(s: string) | Null

  datatype Bound = Gte(v: Scalar) | Lte(v: Scalar) | Lt(v: Scalar)

  datatype Clause =
    | MatchAll
    | QueryString(query: string, fields: seq<string>, defaultOperator: string, useDisMax: bool)
    | MultiMatch(text: string, matchFields: seq<string>)
    | Match(field: string, value: string)
    | BoolMust(must: seq<Clause>)
    | Terms(field: string, values: seq<string>)
    | Range(field: string, bounds: seq<Bound>)

  datatype SortKey = SortKey(field: string, order: string)

  datatype FacetRequest =
    | Statistical(name: string, field: string)
    | TermsFacet(name: string, field: string, order: Option<string>, size: Option<nat>)

  /** `query: { filtered: { query: ..., filter: { "and" => [...] } } }`; either entry may be absent. */
  datatype Filtered = Filtered(query: Option<Clause>, andFilter: Option<seq<Clause>>)

  /** The whole request body; `filter` is the top-level filter applied after faceting. */
  datatype SearchBody = SearchBody(
    query: Filtered,
    filter: Option<Clause>,
    sort: seq<SortKey>,
    from: int,
    size: int,
    facets: seq<FacetRequest>)

  /** The field a filter clause constrains, if it constrains one. */
  function FilterField(c: Clause): Option<string> {
    match c
    case Terms(f, _) => Some(f)
    case Range(f, _) => Some(f)
    case Match(f, _) => Some(f)
    case _ => None
  }

  /** A terms filter holds when one of its values equals one of the field's indexed values. */
  predicate TermsHold(doc: Document, c: Clause) {
    c.Terms? && exists i :: 0 <= i < |c.values| && c.values[i] in FieldTokens(doc, c.field)
  }

  /** An `and` list of terms filters holds when every one of them holds. */
  predicate AllTermsHold(doc: Document, cs: seq<Clause>) {
    forall i :: 0 <= i < |cs| ==> TermsHold(doc, cs[i])
  }

  /** Whether a numeric field value lies within every bound of a range filter. */
  predicate WithinBounds(x: int, bounds: seq<Bound>) {
    forall i :: 0 <= i < |bounds| ==>
      match bounds[i]
      case Gte(Num(n)) => x >= n
      case Lte(Num(n)) => x <= n
      case Lt(Num(n)) => x < n
      case _ => false
  }
}
