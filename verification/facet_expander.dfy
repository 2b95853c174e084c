/**
 * The facet expander of app/helpers/spree/base_helper_decorator.rb: it splits
 * each `properties` bucket key on `||`, groups the values by property name in
 * first-seen order, sorts each group by count descending and then by the
 * lower-cased term, and splices the groups into the aggregation hash in place
 * of `properties`.
 */
module FacetExpander {
  import opened Wrappers
  import opened RubyText
  import opened PropertyCodec

  /** One bucket of the raw `properties` aggregation. */
  datatype Bucket = Bucket(key: string, docCount: int)

  /** `{ term:, count:, search_term: }`: a value of one property, its count and the original key. */
  datatype FacetTerm = FacetTerm(term: string, count: int, searchTerm: string)

  /** The values of one property name, as they end up under `result[name]['terms']`. */
  datatype Group = Group(name: string, terms: seq<FacetTerm>)

  /** The property name and term a bucket key splits into, or `None` when its term would be `nil`. */
  function Decode(b: Bucket): (r: Option<(string, FacetTerm)>)
    ensures r.Some? ==> r.value.1.count == b.docCount && r.value.1.searchTerm == b.key
    ensures r.Some? ==> NoSep(r.value.0) && NoSep(r.value.1.term)
    ensures NoSep(b.key) ==> r.None?
  {
    var t := Split(b.key);
    if |t| >= 2 then Some((t[0], FacetTerm(t[1], b.docCount, b.key))) else None
  }

  predicate Malformed(b: Bucket) {
    Decode(b).None?
  }

  predicate HasName(b: Bucket, name: string) {
    Decode(b).Some? && Decode(b).value.0 == name
  }

  /** A bucket whose key is a token of a well-formed name and value decodes to exactly that pair. */
  lemma DecodeTokenBucket(name: string, value: string, count: int)
    requires WellFormedName(name) && WellFormedValue(value)
    ensures Decode(Bucket(Token(name, value), count)) == Some((name, FacetTerm(value, count, Token(name, value))))
  {
    SplitToken(name, value);
  }

  predicate Distinct(ns: seq<string>) {
    forall i, j :: 0 <= i < j < |ns| ==> ns[i] != ns[j]
  }

  /** The property names in the order in which they first occur among the buckets. */
  function Names(bs: seq<Bucket>): (r: seq<string>)
    ensures Distinct(r)
  {
    if bs == [] then []
    else
      var prev := Names(bs[..|bs| - 1]);
      var last := bs[|bs| - 1];
      match Decode(last)
      case None => prev
      case Some(d) => if d.0 in prev then prev else prev + [d.0]
  }

  /** The terms of the buckets named `name`, in bucket order. */
  function GroupOf(bs: seq<Bucket>, name: string): seq<FacetTerm> {
    if bs == [] then []
    else
      var prev := GroupOf(bs[..|bs| - 1], name);
      var last := bs[|bs| - 1];
      prev + (if HasName(last, name) then [Decode(last).value.1] else [])
  }

  /** A name is listed exactly when some bucket carries it. */
  lemma {:induction false} NamesMembers(bs: seq<Bucket>)
    ensures forall n :: n in Names(bs) <==> exists j :: 0 <= j < |bs| && HasName(bs[j], n)
    decreases |bs|
  {
    if bs != [] {
      var init := bs[..|bs| - 1];
      NamesMembers(init);
      assert forall j :: 0 <= j < |bs| - 1 ==> init[j] == bs[j];
    }
  }

  /** A name that no bucket carries has no terms. */
  lemma {:induction false} NoGroupWithoutName(bs: seq<Bucket>, name: string)
    requires name !in Names(bs)
    ensures GroupOf(bs, name) == []
    decreases |bs|
  {
    if bs != [] {
      var init := bs[..|bs| - 1];
      assert name !in Names(init);
      NoGroupWithoutName(init, name);
    }
  }

  /** Ruby's `[-a[:count], a[:term].downcase] <=> [-b[:count], b[:term].downcase]` is not positive. */
  predicate Before(a: FacetTerm, b: FacetTerm) {
    a.count > b.count || (a.count == b.count && LexLe(Downcase(a.term), Downcase(b.term)))
  }

  predicate SortedTerms(s: seq<FacetTerm>) {
    forall i, j :: 0 <= i < j < |s| ==> Before(s[i], s[j])
  }

  /**
   * The sort key is the count, descending, then the lower-cased term: a larger
   * count always comes first, and between equal counts exactly one order holds
   * unless the lower-cased terms are equal.
   */
  lemma BeforeKey(a: FacetTerm, b: FacetTerm)
    ensures a.count > b.count ==> Before(a, b) && !Before(b, a)
    ensures a.count == b.count && Downcase(a.term) != Downcase(b.term) ==> (Before(a, b) <==> !Before(b, a))
    ensures a.count == b.count && Downcase(a.term) == Downcase(b.term) ==> Before(a, b) && Before(b, a)
  {
    var x, y := Downcase(a.term), Downcase(b.term);
    LexLeTotal(x, y);
    LexLeTotal(x, x);
    if LexLe(x, y) && LexLe(y, x) {
      LexLeAntisymmetric(x, y);
    }
  }

  lemma BeforeTotal(a: FacetTerm, b: FacetTerm)
    ensures Before(a, b) || Before(b, a)
  {
    LexLeTotal(Downcase(a.term), Downcase(b.term));
  }

  lemma BeforeTransitive(a: FacetTerm, b: FacetTerm, c: FacetTerm)
    requires Before(a, b) && Before(b, c)
    ensures Before(a, c)
  {
    if a.count == b.count == c.count {
      LexLeTransitive(Downcase(a.term), Downcase(b.term), Downcase(c.term));
    }
  }

  /** Inserts `x` after every element that sorts before or level with it. */
  method InsertTerm(s: seq<FacetTerm>, x: FacetTerm) returns (r: seq<FacetTerm>)
    requires SortedTerms(s)
    ensures SortedTerms(r)
    ensures multiset(r) == multiset(s) + multiset{x}
  {
    var k := 0;
    while k < |s| && Before(s[k], x)
      invariant 0 <= k <= |s|
      invariant forall j :: 0 <= j < k ==> Before(s[j], x)
    {
      k := k + 1;
    }
    if k < |s| {
      BeforeTotal(s[k], x);
      forall j | k < j < |s|
        ensures Before(x, s[j])
      {
        BeforeTransitive(x, s[k], s[j]);
      }
    }
    r := s[..k] + [x] + s[k..];
    assert s == s[..k] + s[k..];
  }

  /**
   * `sort_by!` on the key `[-count, term.downcase]`: the result is ordered by
   * that key and holds the same terms. Ruby's sort is not stable, so terms
   * equal on both keys may come out in any order; nothing more is promised.
   */
  method SortTerms(s: seq<FacetTerm>) returns (r: seq<FacetTerm>)
    ensures SortedTerms(r)
    ensures multiset(r) == multiset(s)
  {
    r := [];
    for i := 0 to |s|
      invariant SortedTerms(r)
      invariant multiset(r) == multiset(s[..i])
    {
      r := InsertTerm(r, s[i]);
      assert s[..i + 1] == s[..i] + [s[i]];
    }
    assert s[..|s|] == s;
  }

  /** `gs` is what expanding the buckets `bs` yields: one sorted group per name, in first-seen order. */
  predicate IsExpansion(gs: seq<Group>, bs: seq<Bucket>) {
    |gs| == |Names(bs)|
    && forall i :: 0 <= i < |gs| ==>
         gs[i].name == Names(bs)[i]
         && SortedTerms(gs[i].terms)
         && multiset(gs[i].terms) == multiset(GroupOf(bs, Names(bs)[i]))
  }

  /** Some bucket of `bs` is malformed (stated on the prefix, as the loop sees it). */
  predicate AnyMalformed(bs: seq<Bucket>) {
    if bs == [] then false
    else AnyMalformed(bs[..|bs| - 1]) || Malformed(bs[|bs| - 1])
  }

  lemma {:induction false} AnyMalformedExists(bs: seq<Bucket>)
    ensures AnyMalformed(bs) <==> exists j :: 0 <= j < |bs| && Malformed(bs[j])
    decreases |bs|
  {
    if bs != [] {
      var init := bs[..|bs| - 1];
      AnyMalformedExists(init);
      assert forall j :: 0 <= j < |bs| - 1 ==> init[j] == bs[j];
    }
  }

  /** What adding one more bucket does to the names of a prefix and to its malformed flag. */
  lemma PrefixStep(bs: seq<Bucket>, i: nat)
    requires i < |bs|
    ensures Names(bs[..i + 1]) ==
      (match Decode(bs[i])
       case None => Names(bs[..i])
       case Some(d) => if d.0 in Names(bs[..i]) then Names(bs[..i]) else Names(bs[..i]) + [d.0])
    ensures AnyMalformed(bs[..i + 1]) == (AnyMalformed(bs[..i]) || Malformed(bs[i]))
  {
    assert bs[..i + 1][..i] == bs[..i] && bs[..i + 1][i] == bs[i];
  }

  /** One more bucket adds its term to its own group and leaves every other group as it was. */
  lemma GroupStep(bs: seq<Bucket>, i: nat, n: string)
    requires i < |bs|
    ensures GroupOf(bs[..i + 1], n) == GroupOf(bs[..i], n) + (if HasName(bs[i], n) then [Decode(bs[i]).value.1] else [])
  {
    assert bs[..i + 1][..i] == bs[..i] && bs[..i + 1][i] == bs[i];
  }

  /** The groups of a prefix, kept for every name seen so far. */
  ghost predicate GroupsAgree(bs: seq<Bucket>, names: seq<string>, groups: map<string, seq<FacetTerm>>) {
    (forall n :: n in groups <==> n in names)
    && forall n :: n in names ==> groups[n] == GroupOf(bs, n)
  }

  /** A malformed bucket adds to no group. */
  lemma MalformedStep(bs: seq<Bucket>, i: nat, names: seq<string>, groups: map<string, seq<FacetTerm>>)
    requires i < |bs| && Malformed(bs[i])
    requires GroupsAgree(bs[..i], names, groups)
    ensures GroupsAgree(bs[..i + 1], names, groups)
  {
    forall n | n in names
      ensures groups[n] == GroupOf(bs[..i + 1], n)
    {
      GroupStep(bs, i, n);
    }
  }

  /** A well-formed bucket of a name already seen appends its term to that name's group. */
  lemma SeenNameStep(bs: seq<Bucket>, i: nat, names: seq<string>, groups: map<string, seq<FacetTerm>>,
                     name: string, term: FacetTerm)
    requires i < |bs| && Decode(bs[i]) == Some((name, term))
    requires GroupsAgree(bs[..i], names, groups) && name in groups
    ensures GroupsAgree(bs[..i + 1], names, groups[name := groups[name] + [term]])
  {
    var groups' := groups[name := groups[name] + [term]];
    forall n | n in names
      ensures groups'[n] == GroupOf(bs[..i + 1], n)
    {
      GroupStep(bs, i, n);
    }
  }

  /** A well-formed bucket of a new name opens a group holding just its term. */
  lemma NewNameStep(bs: seq<Bucket>, i: nat, names: seq<string>, groups: map<string, seq<FacetTerm>>,
                    name: string, term: FacetTerm)
    requires i < |bs| && Decode(bs[i]) == Some((name, term))
    requires names == Names(bs[..i])
    requires GroupsAgree(bs[..i], names, groups) && name !in groups
    ensures GroupsAgree(bs[..i + 1], names + [name], groups[name := [term]])
  {
    var groups' := groups[name := [term]];
    assert HasName(bs[i], name);
    GroupStep(bs, i, name);
    NoGroupWithoutName(bs[..i], name);
    assert groups'[name] == GroupOf(bs[..i + 1], name);
    forall n | n in names
      ensures groups'[n] == GroupOf(bs[..i + 1], n)
    {
      OtherGroupStep(bs, i, name, n);
    }
    assert forall n :: n in groups' <==> n in names + [name];
  }

  /** A bucket of one name leaves the group of every other name as it was. */
  lemma OtherGroupStep(bs: seq<Bucket>, i: nat, name: string, n: string)
    requires i < |bs| && HasName(bs[i], name) && n != name
    ensures GroupOf(bs[..i + 1], n) == GroupOf(bs[..i], n)
  {
    GroupStep(bs, i, n);
  }

  method AddBucket(buckets: seq<Bucket>, i: nat, names: seq<string>, groups: map<string, seq<FacetTerm>>, malformed: bool)
      returns (names': seq<string>, groups': map<string, seq<FacetTerm>>, malformed': bool)
    requires i < |buckets|
    requires names == Names(buckets[..i])
    requires GroupsAgree(buckets[..i], names, groups)
    requires malformed == AnyMalformed(buckets[..i])
    ensures names' == Names(buckets[..i + 1])
    ensures GroupsAgree(buckets[..i + 1], names', groups')
    ensures malformed' == AnyMalformed(buckets[..i + 1])
  {
    names', groups', malformed' := names, groups, malformed;
    var b := buckets[i];
    var t := Split(b.key);
    PrefixStep(buckets, i);
    if |t| >= 2 {
      var property := FacetTerm(t[1], b.docCount, b.key);
      assert Decode(b) == Some((t[0], property));
      if t[0] in groups {
        SeenNameStep(buckets, i, names, groups, t[0], property);
        groups' := groups[t[0] := groups[t[0]] + [property]];
      } else {
        NewNameStep(buckets, i, names, groups, t[0], property);
        names' := names + [t[0]];
        groups' := groups[t[0] := [property]];
      }
    } else {
      assert Malformed(b);
      MalformedStep(buckets, i, names, groups);
      malformed' := true;
    }
  }


  /** The grouping loop (lines 9-21): names in first-seen order and each name's terms in bucket order. */
  method GroupByName(buckets: seq<Bucket>) returns (names: seq<string>, groups: map<string, seq<FacetTerm>>, malformed: bool)
    ensures names == Names(buckets)
    ensures forall n :: n in groups <==> n in names
    ensures forall n :: n in names ==> groups[n] == GroupOf(buckets, n)
    ensures malformed == AnyMalformed(buckets)
  {
    names := [];
    groups := map[];
    malformed := false;
    for i := 0 to |buckets|
      invariant names == Names(buckets[..i])
      invariant GroupsAgree(buckets[..i], names, groups)
      invariant malformed == AnyMalformed(buckets[..i])
    {
      names, groups, malformed := AddBucket(buckets, i, names, groups, malformed);
    }
    assert buckets[..|buckets|] == buckets;
  }

  /**
   * `expand_properties_aggregation_to_aggregation_array`. A bucket whose key
   * splits into fewer than two fields gives a `nil` term, and `downcase` on it
   * raises while sorting; the whole expansion then fails.
   */
  method ExpandProperties(buckets: seq<Bucket>) returns (r: Result<seq<Group>>)
    ensures r.Ok? <==> forall j :: 0 <= j < |buckets| ==> !Malformed(buckets[j])
    ensures r.Ok? ==> IsExpansion(r.value, buckets)
  {
    var names, groups, malformed := GroupByName(buckets);
    AnyMalformedExists(buckets);
    if malformed {
      return Err("NoMethodError: undefined method `downcase' for nil");
    }
    var result: seq<Group> := [];
    for k := 0 to |names|
      invariant |result| == k
      invariant forall i :: 0 <= i < k ==> result[i].name == names[i]
      invariant forall i :: 0 <= i < k ==> SortedTerms(result[i].terms)
      invariant forall i :: 0 <= i < k ==> multiset(result[i].terms) == multiset(GroupOf(buckets, names[i]))
    {
      var sorted := SortTerms(groups[names[k]]);
      result := result + [Group(names[k], sorted)];
    }
    return Ok(result);
  }

  /** No two different terms of `s` tie on both sort keys. */
  predicate NoTies(s: seq<FacetTerm>) {
    forall x, y :: x in s && y in s && Before(x, y) && Before(y, x) ==> x == y
  }

  /**
   * Without ties, sorting is determined: two sorted arrangements of the same
   * terms are equal. With ties, Ruby's unstable sort leaves their order open.
   */
  lemma {:induction false} SortedUnique(a: seq<FacetTerm>, b: seq<FacetTerm>)
    requires SortedTerms(a) && SortedTerms(b) && multiset(a) == multiset(b) && NoTies(a)
    ensures a == b
    decreases |a|
  {
    if a != [] {
      assert |b| == |multiset(b)| == |multiset(a)| == |a|;
      assert a[0] in multiset(b);
      var k :| 0 <= k < |b| && b[k] == a[0];
      assert b[0] in multiset(a);
      var m :| 0 <= m < |a| && a[m] == b[0];
      var x, y := a[0], b[0];
      assert Before(x, y) by {
        if m != 0 { assert Before(a[0], a[m]); } else { BeforeTotal(x, x); }
      }
      assert Before(y, x) by {
        if k != 0 { assert Before(b[0], b[k]); } else { BeforeTotal(x, x); }
      }
      assert x in a && y in a;
      assert x == y;
      SameTails(a, b);
      assert SortedTerms(a[1..]) && SortedTerms(b[1..]);
      assert NoTies(a[1..]) by {
        assert forall t :: t in a[1..] ==> t in a;
      }
      SortedUnique(a[1..], b[1..]);
    }
  }

  lemma SameTails<T>(a: seq<T>, b: seq<T>)
    requires a != [] && b != [] && a[0] == b[0] && multiset(a) == multiset(b)
    ensures multiset(a[1..]) == multiset(b[1..])
  {
    assert a == [a[0]] + a[1..] && b == [b[0]] + b[1..];
    assert multiset(a) == multiset([a[0]]) + multiset(a[1..]);
    assert multiset(b) == multiset([a[0]]) + multiset(b[1..]);
    forall t ensures multiset(a[1..])[t] == multiset(b[1..])[t] {
      assert multiset(a)[t] == multiset([a[0]])[t] + multiset(a[1..])[t];
      assert multiset(b)[t] == multiset([a[0]])[t] + multiset(b[1..])[t];
    }
  }

  /** Whether terms tie depends only on which terms there are. */
  lemma NoTiesPermuted(a: seq<FacetTerm>, b: seq<FacetTerm>)
    requires multiset(a) == multiset(b) && NoTies(b)
    ensures NoTies(a)
  {
    forall x, y | x in a && y in a && Before(x, y) && Before(y, x)
      ensures x == y
    {
      assert x in multiset(b) && y in multiset(b);
    }
  }

  /**
   * Count descending, then the lower-cased term ascending: the terms red (3),
   * blue (3) and Azure (1) of one property can only be sorted as blue, red,
   * Azure.
   */
  lemma {:induction false} ExampleOrder(ts: seq<FacetTerm>)
    requires multiset(ts) == multiset([FacetTerm("red", 3, "color||red"), FacetTerm("blue", 3, "color||blue"),
                                       FacetTerm("Azure", 1, "color||Azure")])
    requires SortedTerms(ts)
    ensures ts == [FacetTerm("blue", 3, "color||blue"), FacetTerm("red", 3, "color||red"),
                   FacetTerm("Azure", 1, "color||Azure")]
  {
    var red := FacetTerm("red", 3, "color||red");
    var blue := FacetTerm("blue", 3, "color||blue");
    var azure := FacetTerm("Azure", 1, "color||Azure");
    var expected := [blue, red, azure];
    assert Downcase("blue") == "blue" && Downcase("red") == "red";
    assert LexLe("blue", "red") && !LexLe("red", "blue");
    assert SortedTerms(expected);
    assert NoTies(expected);
    NoTiesPermuted(ts, expected);
    SortedUnique(ts, expected);
  }

  /** One entry of the aggregation hash of a search response. */
  datatype Aggregation =
    | Raw(buckets: seq<Bucket>)              // a terms aggregation as the backend returns it
    | Statistics(stats: seq<(string, int)>)  // a statistical aggregation, such as the one on price
    | Expanded(terms: seq<FacetTerm>)        // `{ 'terms' => [...] }`, as the expander writes it

  /** `keys` with `k` taken out. */
  function Without(keys: seq<string>, k: string): (r: seq<string>)
    ensures forall x :: x in r <==> x in keys && x != k
    ensures Distinct(keys) ==> Distinct(r)
  {
    if keys == [] then []
    else
      var rest := Without(keys[1..], k);
      assert Distinct(keys) ==> keys[0] !in keys[1..] && Distinct(keys[1..]);
      (if keys[0] == k then [] else [keys[0]]) + rest
  }

  /** Taking out a key that is not there changes nothing. */
  lemma {:induction false} WithoutAbsent(keys: seq<string>, k: string)
    requires k !in keys
    ensures Without(keys, k) == keys
  {
    if keys != [] {
      WithoutAbsent(keys[1..], k);
      assert keys == [keys[0]] + keys[1..];
    }
  }

  lemma {:induction false} WithoutAppend(a: seq<string>, b: seq<string>, k: string)
    ensures Without(a + b, k) == Without(a, k) + Without(b, k)
  {
    if a == [] {
      assert a + b == b;
    } else {
      var head := if a[0] == k then [] else [a[0]];
      assert (a + b)[0] == a[0] && (a + b)[1..] == a[1..] + b;
      WithoutAppend(a[1..], b, k);
      assert Without(a + b, k) == head + Without(a[1..] + b, k);
      assert Without(a, k) == head + Without(a[1..], k);
    }
  }

  /** `Hash#delete` keeps the order of the other keys: the keys before and after `k` close up. */
  lemma WithoutKeepsOrder(a: seq<string>, k: string, b: seq<string>)
    requires k !in a && k !in b
    ensures Without(a + [k] + b, k) == a + b
  {
    var ak := a + [k];
    WithoutAppend(ak, b, k);
    WithoutAppend(a, [k], k);
    assert Without([k], k) == [] by {
      assert [k][1..] == [];
    }
    WithoutAbsent(a, k);
    WithoutAbsent(b, k);
    assert Without(ak, k) == a;
  }

  /** The key order after storing each of `ns` in turn: a known key keeps its place, a new one goes last. */
  function Stored(keys: seq<string>, ns: seq<string>): (r: seq<string>)
    ensures forall x :: x in r <==> x in keys || x in ns
    ensures Distinct(keys) ==> Distinct(r)
  {
    if ns == [] then keys
    else
      var p := Stored(keys, ns[..|ns| - 1]);
      assert forall x :: x in ns <==> x in ns[..|ns| - 1] || x == ns[|ns| - 1];
      if ns[|ns| - 1] in p then p else p + [ns[|ns| - 1]]
  }

  /** Known keys keep their places as a prefix; every key after them is a stored name that was new. */
  lemma {:induction false} StoredKeepsKeys(keys: seq<string>, ns: seq<string>)
    ensures |keys| <= |Stored(keys, ns)| && Stored(keys, ns)[..|keys|] == keys
    ensures forall j :: |keys| <= j < |Stored(keys, ns)| ==> Stored(keys, ns)[j] in ns && Stored(keys, ns)[j] !in keys
    decreases |ns|
  {
    if ns != [] {
      var init := ns[..|ns| - 1];
      StoredKeepsKeys(keys, init);
      assert forall x :: x in init ==> x in ns;
    }
  }

  /** A Ruby hash from aggregation name to aggregation, with its insertion order. */
  class AggregationHash {
    var keys: seq<string>
    var entries: map<string, Aggregation>

    ghost predicate Valid()
      reads this
    {
      Distinct(keys) && forall k :: k in entries <==> k in keys
    }

    constructor (keys: seq<string>, entries: map<string, Aggregation>)
      requires Distinct(keys) && forall k :: k in entries <==> k in keys
      ensures Valid() && this.keys == keys && this.entries == entries
    {
      this.keys := keys;
      this.entries := entries;
    }

    /** `Hash#delete`. */
    method Delete(k: string)
      requires Valid()
      modifies this
      ensures Valid()
      ensures keys == Without(old(keys), k) && entries == old(entries) - {k}
    {
      keys := Without(keys, k);
      entries := entries - {k};
    }

    /** `hash[k] = v`. */
    method Store(k: string, v: Aggregation)
      requires Valid()
      modifies this
      ensures Valid()
      ensures keys == (if k in old(entries) then old(keys) else old(keys) + [k])
      ensures entries == old(entries)[k := v]
    {
      if k !in entries {
        keys := keys + [k];
      }
      entries := entries[k := v];
    }
  }

  function GroupNames(gs: seq<Group>): (ns: seq<string>)
    ensures |ns| == |gs| && forall i :: 0 <= i < |gs| ==> ns[i] == gs[i].name
  {
    seq(|gs|, i requires 0 <= i < |gs| => gs[i].name)
  }

  /** The entries after storing each group in turn under its name. */
  function Merged(entries: map<string, Aggregation>, gs: seq<Group>): map<string, Aggregation> {
    if gs == [] then entries
    else Merged(entries, gs[..|gs| - 1])[gs[|gs| - 1].name := Expanded(gs[|gs| - 1].terms)]
  }

  /**
   * Merging adds exactly the group names, leaves every other entry as it was,
   * and, when the names are distinct, stores each group's own terms.
   */
  lemma {:induction false} MergedEntries(entries: map<string, Aggregation>, gs: seq<Group>)
    requires Distinct(GroupNames(gs))
    ensures forall k :: k in Merged(entries, gs) <==> k in entries || k in GroupNames(gs)
    ensures forall k :: k in entries && k !in GroupNames(gs) ==> Merged(entries, gs)[k] == entries[k]
    ensures forall i :: 0 <= i < |gs| ==> Merged(entries, gs)[gs[i].name] == Expanded(gs[i].terms)
    decreases |gs|
  {
    if gs != [] {
      var init, last := gs[..|gs| - 1], gs[|gs| - 1];
      assert GroupNames(init) == GroupNames(gs)[..|gs| - 1];
      MergedEntries(entries, init);
      var before := Merged(entries, init);
      assert Merged(entries, gs) == before[last.name := Expanded(last.terms)];
      assert forall x :: x in GroupNames(gs) <==> x in GroupNames(init) || x == last.name;
      forall i | 0 <= i < |gs| - 1
        ensures Merged(entries, gs)[gs[i].name] == Expanded(gs[i].terms)
      {
        assert GroupNames(gs)[i] != GroupNames(gs)[|gs| - 1];
        assert gs[i] == init[i];
      }
    }
  }

  lemma StoredStep(keys: seq<string>, ns: seq<string>, j: nat)
    requires j < |ns|
    ensures Stored(keys, ns[..j + 1])
         == (if ns[j] in Stored(keys, ns[..j]) then Stored(keys, ns[..j]) else Stored(keys, ns[..j]) + [ns[j]])
  {
    assert ns[..j + 1][..j] == ns[..j];
  }

  lemma MergedStep(entries: map<string, Aggregation>, gs: seq<Group>, j: nat)
    requires j < |gs|
    ensures Merged(entries, gs[..j + 1]) == Merged(entries, gs[..j])[gs[j].name := Expanded(gs[j].terms)]
  {
    assert gs[..j + 1][..j] == gs[..j];
  }

  /** `aggregations.merge! new_aggregations`, with the expanded groups as the new entries. */
  method MergeGroups(aggs: AggregationHash, groups: seq<Group>)
    requires aggs.Valid() && Distinct(GroupNames(groups))
    modifies aggs
    ensures aggs.Valid()
    ensures aggs.keys == Stored(old(aggs.keys), GroupNames(groups))
    ensures aggs.entries == Merged(old(aggs.entries), groups)
    ensures forall k :: k in aggs.entries <==> k in old(aggs.entries) || k in GroupNames(groups)
    ensures forall k :: k in old(aggs.entries) && k !in GroupNames(groups) ==> aggs.entries[k] == old(aggs.entries)[k]
    ensures forall i :: 0 <= i < |groups| ==> aggs.entries[groups[i].name] == Expanded(groups[i].terms)
  {
    ghost var names := GroupNames(groups);
    for j := 0 to |groups|
      invariant aggs.Valid()
      invariant aggs.keys == Stored(old(aggs.keys), names[..j])
      invariant aggs.entries == Merged(old(aggs.entries), groups[..j])
    {
      StoredStep(old(aggs.keys), names, j);
      MergedStep(old(aggs.entries), groups, j);
      aggs.Store(groups[j].name, Expanded(groups[j].terms));
    }
    assert names[..|groups|] == names && groups[..|groups|] == groups;
    MergedEntries(old(aggs.entries), groups);
  }

  /**
   * The loop at lines 42-49 of `process_aggregations`: visits every entry and
   * expands the one named `properties`; reading `:buckets` of an entry that
   * has none gives `nil`, and iterating it raises.
   */
  method ExpandPropertiesEntry(keys: seq<string>, entries: map<string, Aggregation>) returns (r: Result<seq<Group>>)
    requires forall k :: k in entries <==> k in keys
    ensures "properties" !in entries ==> r == Ok([])
    ensures "properties" in entries && !entries["properties"].Raw? ==> r.Err?
    ensures "properties" in entries && entries["properties"].Raw? ==>
      var bs := entries["properties"].buckets;
      && (r.Ok? <==> forall j :: 0 <= j < |bs| ==> !Malformed(bs[j]))
      && (r.Ok? ==> IsExpansion(r.value, bs))
  {
    var newGroups: seq<Group> := [];
    var found := false;
    for i := 0 to |keys|
      invariant found <==> "properties" in keys[..i]
      invariant !found ==> newGroups == []
      invariant found ==> entries["properties"].Raw? && IsExpansion(newGroups, entries["properties"].buckets)
      invariant found ==> forall j :: 0 <= j < |entries["properties"].buckets| ==> !Malformed(entries["properties"].buckets[j])
    {
      assert keys[..i + 1] == keys[..i] + [keys[i]];
      if keys[i] == "properties" {
        match entries["properties"]
        case Raw(buckets) =>
          var expanded := ExpandProperties(buckets);
          if expanded.Err? {
            return Err(expanded.error);
          }
          newGroups := expanded.value;
          found := true;
        case _ =>
          return Err("NoMethodError: undefined method `each' for nil");
      }
    }
    assert keys[..|keys|] == keys;
    return Ok(newGroups);
  }

  /** Every expansion names its groups after the distinct property names, in first-seen order. */
  lemma ExpansionNames(gs: seq<Group>, bs: seq<Bucket>)
    requires IsExpansion(gs, bs)
    ensures GroupNames(gs) == Names(bs)
  {
  }

  /**
   * `process_aggregations`: expands the `properties` entry, deletes it and
   * merges one entry per property name into the same hash. A property name
   * that equals another aggregation's name overwrites that entry in place.
   * Without a `properties` entry nothing changes. When the expansion raises,
   * the hash is left as it was.
   */
  method ProcessAggregations(aggs: AggregationHash) returns (r: Result<()>)
    requires aggs.Valid()
    modifies aggs
    ensures aggs.Valid()
    ensures "properties" !in old(aggs.entries) ==> r.Ok? && aggs.keys == old(aggs.keys) && aggs.entries == old(aggs.entries)
    ensures "properties" in old(aggs.entries) && !old(aggs.entries)["properties"].Raw? ==> r.Err?
    ensures r.Err? ==> aggs.keys == old(aggs.keys) && aggs.entries == old(aggs.entries)
    ensures "properties" in old(aggs.entries) && old(aggs.entries)["properties"].Raw? ==>
      var bs := old(aggs.entries)["properties"].buckets;
      && (r.Ok? <==> forall j :: 0 <= j < |bs| ==> !Malformed(bs[j]))
      && (r.Ok? ==>
           && aggs.keys == Stored(Without(old(aggs.keys), "properties"), Names(bs))
           && (forall k :: k in old(aggs.entries) && k != "properties" && k !in Names(bs) ==> aggs.entries[k] == old(aggs.entries)[k])
           && (forall i :: 0 <= i < |Names(bs)| ==>
                 && aggs.entries[Names(bs)[i]].Expanded?
                 && SortedTerms(aggs.entries[Names(bs)[i]].terms)
                 && multiset(aggs.entries[Names(bs)[i]].terms) == multiset(GroupOf(bs, Names(bs)[i]))))
  {
    var expanded := ExpandPropertiesEntry(aggs.keys, aggs.entries);
    if expanded.Err? {
      return Err(expanded.error);
    }
    ghost var bs := if "properties" in aggs.entries && aggs.entries["properties"].Raw? then aggs.entries["properties"].buckets else [];
    if "properties" in aggs.entries {
      ExpansionNames(expanded.value, bs);
      aggs.Delete("properties");
    }
    MergeGroups(aggs, expanded.value);
    return Ok(());
  }

  /** How many times `n` occurs in `ns`. */
  function Occurrences(ns: seq<string>, n: string): nat {
    if ns == [] then 0 else (if ns[0] == n then 1 else 0) + Occurrences(ns[1..], n)
  }

  lemma {:induction false} OccurrencesOfDistinct(ns: seq<string>, n: string)
    requires Distinct(ns)
    ensures Occurrences(ns, n) == if n in ns then 1 else 0
    decreases |ns|
  {
    if ns != [] {
      OccurrencesOfDistinct(ns[1..], n);
    }
  }

  /** The sizes of the groups named in `ns`, added up. */
  function GroupSizes(bs: seq<Bucket>, ns: seq<string>): nat {
    if ns == [] then 0 else |GroupOf(bs, ns[0])| + GroupSizes(bs, ns[1..])
  }

  function DecodedCount(bs: seq<Bucket>): nat {
    if bs == [] then 0 else DecodedCount(bs[..|bs| - 1]) + (if Malformed(bs[|bs| - 1]) then 0 else 1)
  }

  lemma {:induction false} GroupSizesStep(bs: seq<Bucket>, ns: seq<string>)
    requires bs != []
    ensures GroupSizes(bs, ns) == GroupSizes(bs[..|bs| - 1], ns)
      + (match Decode(bs[|bs| - 1]) case None => 0 case Some(d) => Occurrences(ns, d.0))
    decreases |ns|
  {
    if ns != [] {
      GroupSizesStep(bs, ns[1..]);
    }
  }

  lemma {:induction false} GroupSizesAppend(bs: seq<Bucket>, ns: seq<string>, n: string)
    ensures GroupSizes(bs, ns + [n]) == GroupSizes(bs, ns) + |GroupOf(bs, n)|
    decreases |ns|
  {
    if ns != [] {
      assert (ns + [n])[1..] == ns[1..] + [n];
      GroupSizesAppend(bs, ns[1..], n);
    }
  }

  /** Every decodable bucket lands in exactly one group: the group sizes add up to the bucket count. */
  lemma {:induction false} GroupSizesAddUp(bs: seq<Bucket>)
    ensures GroupSizes(bs, Names(bs)) == DecodedCount(bs)
    decreases |bs|
  {
    if bs != [] {
      var prev := bs[..|bs| - 1];
      var last := bs[|bs| - 1];
      GroupSizesAddUp(prev);
      GroupSizesStep(bs, Names(bs));
      match Decode(last)
      case None =>
      case Some(d) =>
        if d.0 in Names(prev) {
          OccurrencesOfDistinct(Names(prev), d.0);
        } else {
          OccurrencesOfDistinct(Names(prev), d.0);
          GroupSizesAppend(bs, Names(prev), d.0);
          GroupSizesStep(bs, Names(prev));
          NoGroupWithoutName(prev, d.0);
          assert GroupOf(bs, d.0) == [d.1];
        }
    }
  }

  lemma {:induction false} DecodedCountAll(bs: seq<Bucket>)
    requires forall j :: 0 <= j < |bs| ==> !Malformed(bs[j])
    ensures DecodedCount(bs) == |bs|
    decreases |bs|
  {
    if bs != [] {
      DecodedCountAll(bs[..|bs| - 1]);
    }
  }

  /**
   * For an expansion that succeeds, the group sizes add up to the number of
   * buckets, and there is one group per distinct property name.
   */
  lemma {:induction false} ExpansionAccountsForEveryBucket(gs: seq<Group>, bs: seq<Bucket>)
    requires forall j :: 0 <= j < |bs| ==> !Malformed(bs[j])
    requires IsExpansion(gs, bs)
    ensures GroupSizes(bs, Names(bs)) == |bs|
    ensures forall i :: 0 <= i < |gs| ==> |gs[i].terms| == |GroupOf(bs, gs[i].name)|
    ensures forall j :: 0 <= j < |bs| ==> exists i :: 0 <= i < |gs| && HasName(bs[j], gs[i].name)
  {
    GroupSizesAddUp(bs);
    DecodedCountAll(bs);
    NamesMembers(bs);
    forall i | 0 <= i < |gs|
      ensures |gs[i].terms| == |GroupOf(bs, gs[i].name)|
    {
      assert |multiset(gs[i].terms)| == |multiset(GroupOf(bs, gs[i].name))|;
    }
    forall j | 0 <= j < |bs|
      ensures exists i :: 0 <= i < |gs| && HasName(bs[j], gs[i].name)
    {
      var n := Decode(bs[j]).value.0;
      assert HasName(bs[j], n);
      assert n in Names(bs);
      var i :| 0 <= i < |Names(bs)| && Names(bs)[i] == n;
      assert gs[i].name == n;
    }
  }
}
