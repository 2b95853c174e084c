/**
 * `Spree::Search::Elasticsearch` (lib/spree/search/elasticsearch.rb): the
 * storefront's search parameters normalised into the searcher's fields, and
 * `retrieve_products`, which hands only the keywords and the taxon subtree
 * to `Spree::Product.search`.
 */
module SearchParams {
  import opened Wrappers
  import opened QueryTree
  import QueryV2
  import Indexable

  /** The whitespace `String#to_i` skips and `blank?` ignores: space, tab, newline, vertical tab, form feed, return. */
  predicate IsSpace(c: char) {
    c == ' ' || 9 <= c as int <= 13
  }

  predicate IsDigit(c: char) {
    '0' <= c <= '9'
  }

  predicate AllDigits(s: string) {
    forall j :: 0 <= j < |s| ==> IsDigit(s[j])
  }

  /** The input without its leading whitespace. */
  function SkipSpace(s: string): (r: string)
    ensures |r| <= |s| && r == s[|s| - |r|..]
    ensures r != [] ==> !IsSpace(r[0])
    ensures forall j :: 0 <= j < |s| - |r| ==> IsSpace(s[j])
    decreases |s|
  {
    if s != [] && IsSpace(s[0]) then SkipSpace(s[1..]) else s
  }

  /** The longest prefix made of decimal digits. */
  function LeadingDigits(s: string): (r: string)
    ensures |r| <= |s| && r == s[..|r|]
    ensures AllDigits(r)
    ensures |r| < |s| ==> !IsDigit(s[|r|])
  {
    if s != [] && IsDigit(s[0]) then [s[0]] + LeadingDigits(s[1..]) else []
  }

  /** The number a string of decimal digits denotes; the empty string denotes 0. */
  function DecimalValue(ds: string): nat
    requires AllDigits(ds)
  {
    if ds == [] then 0
    else DecimalValue(ds[..|ds| - 1]) * 10 + (ds[|ds| - 1] as int - '0' as int)
  }

  /**
   * `to_i` on a parameter: `nil` gives 0; a string gives its leading
   * optionally signed decimal number after any whitespace, and 0 when there
   * is none.
   */
  function ToI(v: Option<string>): (r: int)
    ensures r != 0 ==> v.Some? && StartsNumber(SkipSpace(v.value))
    ensures r < 0 ==> v.Some? && SkipSpace(v.value)[0] == '-'
  {
    match v
    case None => 0
    case Some(s) => SignedValue(SkipSpace(s))
  }

  /** `t` opens with a digit, or with a sign followed by a digit. */
  predicate StartsNumber(t: string) {
    t != [] && (IsDigit(t[0]) || (|t| >= 2 && (t[0] == '-' || t[0] == '+') && IsDigit(t[1])))
  }

  /** `u` opens with the base-10 radix prefix `0d` or `0D`, which `to_i` skips. */
  predicate HasRadixPrefix(u: string) {
    |u| >= 2 && u[0] == '0' && (u[1] == 'd' || u[1] == 'D')
  }

  /** The decimal number at the start of `u`, after an optional `0d` prefix; 0 when there is none. */
  function UnsignedValue(u: string): (r: nat)
    ensures r != 0 ==> u != [] && IsDigit(u[0])
  {
    if HasRadixPrefix(u) then DecimalValue(LeadingDigits(u[2..]))
    else DecimalValue(LeadingDigits(u))
  }

  /** The optionally signed decimal number at the start of `t`, 0 when there is none. */
  function SignedValue(t: string): (r: int)
    ensures r != 0 ==> StartsNumber(t)
    ensures r < 0 ==> t[0] == '-'
  {
    if t != [] && t[0] == '-' then 0 - UnsignedValue(t[1..])
    else if t != [] && t[0] == '+' then UnsignedValue(t[1..])
    else UnsignedValue(t)
  }

  function DigitChar(d: nat): char
    requires d < 10
  {
    ('0' as int + d) as char
  }

  /** The decimal rendering of a natural number (`Integer#to_s`), without leading zeros. */
  function Decimal(n: nat): (r: string)
    ensures r != [] && AllDigits(r)
  {
    (if n < 10 then [] else Decimal(n / 10)) + [DigitChar(n % 10)]
  }

  lemma {:induction false} DecimalValueOfDecimal(n: nat)
    ensures DecimalValue(Decimal(n)) == n
  {
    var r := Decimal(n);
    var prefix := if n < 10 then [] else Decimal(n / 10);
    assert r[..|r| - 1] == prefix;
    if n >= 10 {
      DecimalValueOfDecimal(n / 10);
    }
  }

  lemma {:induction false} LeadingDigitsOfDigits(s: string)
    requires AllDigits(s)
    ensures LeadingDigits(s) == s
    decreases |s|
  {
    if s != [] {
      LeadingDigitsOfDigits(s[1..]);
    }
  }

  lemma SkipSpaceNone(s: string)
    requires s != [] && !IsSpace(s[0])
    ensures SkipSpace(s) == s
  {
  }

  lemma SignedValueUnsigned(t: string)
    requires t != [] && IsDigit(t[0])
    ensures SignedValue(t) == UnsignedValue(t)
  {
  }

  lemma SignedValueNegative(t: string)
    requires t != [] && t[0] == '-'
    ensures SignedValue(t) == 0 - UnsignedValue(t[1..])
  {
  }

  /** A digit string reads as its decimal value, unsigned or after a minus sign. */
  lemma {:induction false} ToIOfDigits(d: string)
    requires d != [] && AllDigits(d)
    ensures ToI(Some(d)) == DecimalValue(d)
    ensures ToI(Some(['-'] + d)) == 0 - DecimalValue(d)
  {
    LeadingDigitsOfDigits(d);
    assert IsDigit(d[0]);
    assert !HasRadixPrefix(d) by {
      if |d| >= 2 {
        assert IsDigit(d[1]);
      }
    }
    SkipSpaceNone(d);
    SignedValueUnsigned(d);
    var m := ['-'] + d;
    assert m[0] == '-' && m[1..] == d;
    SkipSpaceNone(m);
    SignedValueNegative(m);
  }

  /** The base-10 radix prefix `0d` or `0D` is skipped, after an optional minus sign. */
  lemma {:induction false} ToIOfRadixPrefix(x: char, d: string)
    requires x == 'd' || x == 'D'
    requires AllDigits(d)
    ensures ToI(Some(['0', x] + d)) == DecimalValue(d)
    ensures ToI(Some(['-', '0', x] + d)) == 0 - DecimalValue(d)
  {
    LeadingDigitsOfDigits(d);
    var p := ['0', x] + d;
    assert HasRadixPrefix(p) && p[2..] == d;
    SkipSpaceNone(p);
    SignedValueUnsigned(p);
    var m := ['-'] + p;
    assert ['-', '0', x] + d == m;
    assert m[0] == '-' && m[1..] == p;
    SkipSpaceNone(m);
    SignedValueNegative(m);
  }

  /** `to_i` reads back what `to_s` writes, with or without a minus sign. */
  lemma {:induction false} ToIOfDecimal(n: nat)
    ensures ToI(Some(Decimal(n))) == n
    ensures ToI(Some(['-'] + Decimal(n))) == 0 - n
  {
    DecimalValueOfDecimal(n);
    ToIOfDigits(Decimal(n));
  }

  /** Leading whitespace does not change what `to_i` reads. */
  lemma {:induction false} ToISkipsSpace(ws: string, s: string)
    requires forall j :: 0 <= j < |ws| ==> IsSpace(ws[j])
    ensures ToI(Some(ws + s)) == ToI(Some(s))
    decreases |ws|
  {
    if ws != [] {
      assert SkipSpace(ws + s) == SkipSpace(ws[1..] + s) by {
        assert (ws + s)[0] == ws[0];
        assert (ws + s)[1..] == ws[1..] + s;
      }
      ToISkipsSpace(ws[1..], s);
    } else {
      assert ws + s == s;
    }
  }

  /** Text that does not start with a sign or a digit after its whitespace reads as 0, and so does `nil`. */
  lemma ToINoNumber(v: Option<string>)
    requires v.Some? ==> var t := SkipSpace(v.value); t == [] || (!IsDigit(t[0]) && t[0] != '-' && t[0] != '+')
    ensures ToI(v) == 0
  {
  }

  /** `blank?` on a parameter: `nil`, empty, or whitespace only. */
  predicate Blank(v: Option<string>) {
    v.None? || forall j :: 0 <= j < |v.value| ==> IsSpace(v.value[j])
  }

  /**
   * A parameter is blank exactly when nothing is left after its leading
   * whitespace, so a blank parameter also reads as 0.
   */
  lemma BlankIsAllSpace(v: Option<string>)
    ensures Blank(v) <==> v.None? || SkipSpace(v.value) == []
    ensures Blank(v) ==> ToI(v) == 0
  {
    if v.Some? && !Blank(v) {
      var j :| 0 <= j < |v.value| && !IsSpace(v.value[j]);
      assert SkipSpace(v.value) != [];
    }
  }

  /** The request parameters `prepare` reads; each is `nil` when absent. */
  datatype Params = Params(
    keywords: Option<string>,
    taxon: Option<string>,
    perPage: Option<string>,
    page: Option<string>)

  /**
   * The searcher the storefront builds from the request parameters.
   * `subtreeIds` stands for `Spree::Taxon.find(id).self_and_descendants.map(&:id)`.
   */
  class Elasticsearch {
    var query: Option<string>
    var taxons: Option<seq<string>>
    var perPage: int
    var page: int

    /** `initialize`: `prepare(params)`. */
    constructor (params: Params, productsPerPage: int, subtreeIds: string -> seq<string>)
      ensures query == params.keywords
      ensures taxons == (if Blank(params.taxon) then None else Some(subtreeIds(params.taxon.value)))
      ensures perPage == (if ToI(params.perPage) <= 0 then productsPerPage else ToI(params.perPage))
      ensures page == (if ToI(params.page) <= 0 then 1 else ToI(params.page))
      ensures page >= 1 && (productsPerPage > 0 ==> perPage > 0)
    {
      new;
      Prepare(params, productsPerPage, subtreeIds);
    }

    /**
     * `prepare`: the keywords unchanged, the taxon subtree unless the taxon
     * parameter is blank, and page size and page number with non-positive
     * values replaced by their defaults.
     */
    method Prepare(params: Params, productsPerPage: int, subtreeIds: string -> seq<string>)
      modifies this
      ensures query == params.keywords
      ensures taxons == (if Blank(params.taxon) then None else Some(subtreeIds(params.taxon.value)))
      ensures perPage == (if ToI(params.perPage) <= 0 then productsPerPage else ToI(params.perPage))
      ensures page == (if ToI(params.page) <= 0 then 1 else ToI(params.page))
      ensures page >= 1 && (productsPerPage > 0 ==> perPage > 0)
    {
      query := params.keywords;
      var taxon: Option<string> := if Blank(params.taxon) then None else params.taxon;
      taxons := if taxon.Some? then Some(subtreeIds(taxon.value)) else None;
      perPage := if ToI(params.perPage) <= 0 then productsPerPage else ToI(params.perPage);
      page := if ToI(params.page) <= 0 then 1 else ToI(params.page);
    }

    /** `{ query: query, taxons: taxons }` as `search` receives it. */
    function ForwardedArgs(): Indexable.SearchArgs
      reads this
    {
      Indexable.SearchArgs(query, None, [], taxons.GetOr([]), None, None)
    }

    /**
     * `retrieve_products`: only the keywords and the taxon subtree reach the
     * query, so the first page is always requested, with the configured page
     * size, no price filter and no property filter, whatever `page` and
     * `per_page` say.
     */
    method RetrieveProducts(indexName: string, productsPerPage: int, response: Indexable.SearchResponse)
        returns (request: Indexable.SearchRequest, results: seq<Indexable.Model>)
      ensures request.body.from == 0 && request.body.size == productsPerPage
      ensures request.body.filter == None
      ensures request.body.query.query == Some(QueryV2.TextQuery(query))
      ensures request.body.query.andFilter
           == Some((if taxons.None? || taxons.value == [] then [] else [Terms("taxons", taxons.value)])
                   + [QueryV2.AvailableNow()])
      ensures |results| == |response.hits|
      ensures forall i :: 0 <= i < |results| ==> results[i] == Indexable.Shaped(response.hits[i])
    {
      var args := ForwardedArgs();
      var qargs := Indexable.QueryArgsOf(args);
      QueryV2.AndFilterWithoutProperties(qargs);
      var list;
      request, list := Indexable.Search(args, "spree/product", indexName, productsPerPage, response);
      results := list.results;
    }
  }
}
