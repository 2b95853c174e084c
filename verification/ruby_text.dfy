/**
 * The parts of Ruby's String and Array library that the search code relies on:
 * `String#split` with a string separator, `Array#join`, ASCII `downcase` and
 * the byte-wise ordering used by `<=>` when `sort_by!` compares strings.
 */
module RubyText {
  import opened Wrappers

  /** True when `s` holds the two-character separator `||` at position `j`. */
  predicate IsSepAt(s: string, j: int) {
    0 <= j && j + 1 < |s| && s[j] == '|' && s[j + 1] == '|'
  }

  /** `s` contains no `||` anywhere. */
  predicate NoSep(s: string) {
    forall j :: 0 <= j < |s| ==> !IsSepAt(s, j)
  }

  /** Position of the first `||` in `s`, as `String#split` finds it when scanning left to right. */
  function FindSep(s: string): (r: Option<nat>)
    ensures r.Some? ==> IsSepAt(s, r.value) && forall j :: 0 <= j < r.value ==> !IsSepAt(s, j)
    ensures r.None? ==> NoSep(s)
  {
    if |s| < 2 then None
    else if s[0] == '|' && s[1] == '|' then Some(0)
    else
      assert forall j :: 1 <= j < |s| ==> (IsSepAt(s, j) <==> IsSepAt(s[1..], j - 1));
      match FindSep(s[1..])
      case Some(k) => Some(k + 1)
      case None => None
  }

  /** The fields between separators, before Ruby drops trailing empty fields. */
  function SplitFields(s: string): (r: seq<string>)
    ensures |r| >= 1
    ensures forall i :: 0 <= i < |r| ==> NoSep(r[i])
    ensures NoSep(s) ==> r == [s]
    decreases |s|
  {
    match FindSep(s)
    case None => [s]
    case Some(k) =>
      assert NoSep(s[..k]) by {
        forall j | 0 <= j < k
          ensures !IsSepAt(s[..k], j)
        {
          assert !IsSepAt(s, j);
        }
      }
      [s[..k]] + SplitFields(s[k + 2..])
  }

  /** The fields are the pieces of `s`: joined with `||` again, they give back `s`. */
  lemma {:induction false} SplitFieldsJoin(s: string)
    ensures Join(SplitFields(s), "||") == s
    decreases |s|
  {
    match FindSep(s)
    case None =>
    case Some(k) =>
      var rest := SplitFields(s[k + 2..]);
      SplitFieldsJoin(s[k + 2..]);
      assert s == s[..k] + "||" + s[k + 2..];
      assert ([s[..k]] + rest)[1..] == rest;
  }

  function DropTrailingEmpty(fields: seq<string>): (r: seq<string>)
    ensures |r| <= |fields| && r == fields[..|r|]
    ensures r == [] || r[|r| - 1] != ""
    ensures forall j :: |r| <= j < |fields| ==> fields[j] == ""
  {
    if fields != [] && fields[|fields| - 1] == "" then DropTrailingEmpty(fields[..|fields| - 1])
    else fields
  }

  /** Ruby's `s.split('||')`: cut at every separator, then drop trailing empty fields. */
  function Split(s: string): (r: seq<string>)
    ensures forall i :: 0 <= i < |r| ==> NoSep(r[i])
    ensures r == [] || r[|r| - 1] != ""
    ensures NoSep(s) && s != "" ==> r == [s]
  {
    DropTrailingEmpty(SplitFields(s))
  }

  /**
   * Joining the fields of a split with `||` rebuilds `s`, up to the trailing
   * separators whose empty fields were dropped.
   */
  lemma SplitRebuilds(s: string)
    ensures |Join(Split(s), "||")| <= |s| && s[..|Join(Split(s), "||")|] == Join(Split(s), "||")
    ensures forall j :: |Join(Split(s), "||")| <= j < |s| ==> s[j] == '|'
  {
    SplitFieldsJoin(s);
    KeptFieldsRebuild(s, SplitFields(s), Split(s));
  }

  /** Dropping only empty trailing fields loses only trailing separators. */
  lemma KeptFieldsRebuild(s: string, fields: seq<string>, r: seq<string>)
    requires Join(fields, "||") == s
    requires |r| <= |fields| && r == fields[..|r|]
    requires forall j :: |r| <= j < |fields| ==> fields[j] == ""
    ensures |Join(r, "||")| <= |s| && s[..|Join(r, "||")|] == Join(r, "||")
    ensures forall j :: |Join(r, "||")| <= j < |s| ==> s[j] == '|'
  {
    if r == [] {
      JoinOfEmpties(fields);
      PrefixThenBars(s, "", s);
    } else if |r| == |fields| {
      assert r == fields;
      PrefixThenBars(s, s, "");
    } else {
      assert fields == r + fields[|r|..];
      DroppedFieldsRebuild(s, r, fields[|r|..]);
    }
  }

  lemma DroppedFieldsRebuild(s: string, r: seq<string>, dropped: seq<string>)
    requires r != [] && dropped != []
    requires Join(r + dropped, "||") == s
    requires forall j :: 0 <= j < |dropped| ==> dropped[j] == ""
    ensures |Join(r, "||")| <= |s| && s[..|Join(r, "||")|] == Join(r, "||")
    ensures forall j :: |Join(r, "||")| <= j < |s| ==> s[j] == '|'
  {
    JoinAppend(r, dropped, "||");
    JoinOfEmpties(dropped);
    SeparatorThenBars(s, Join(r, "||"), Join(dropped, "||"));
  }

  lemma SeparatorThenBars(s: string, a: string, b: string)
    requires s == a + "||" + b
    requires forall j :: 0 <= j < |b| ==> b[j] == '|'
    ensures |a| <= |s| && s[..|a|] == a
    ensures forall j :: |a| <= j < |s| ==> s[j] == '|'
  {
    var bars := "||" + b;
    assert s == a + bars;
    forall j | 0 <= j < |bars|
      ensures bars[j] == '|'
    {
      if j >= 2 {
        assert bars[j] == b[j - 2];
      }
    }
    PrefixThenBars(s, a, bars);
  }

  lemma PrefixThenBars(s: string, a: string, bars: string)
    requires s == a + bars
    requires forall j :: 0 <= j < |bars| ==> bars[j] == '|'
    ensures |a| <= |s| && s[..|a|] == a
    ensures forall j :: |a| <= j < |s| ==> s[j] == '|'
  {
    forall j | |a| <= j < |s|
      ensures s[j] == '|'
    {
      assert s[j] == bars[j - |a|];
    }
  }

  /** Ruby's `parts.join(sep)`. */
  function Join(parts: seq<string>, sep: string): (r: string)
    ensures |parts| == 1 ==> r == parts[0]
  {
    if parts == [] then ""
    else if |parts| == 1 then parts[0]
    else parts[0] + sep + Join(parts[1..], sep)
  }

  lemma {:induction false} JoinAppend(a: seq<string>, b: seq<string>, sep: string)
    requires a != [] && b != []
    ensures Join(a + b, sep) == Join(a, sep) + sep + Join(b, sep)
    decreases |a|
  {
    if |a| > 1 {
      assert (a + b)[1..] == a[1..] + b;
      JoinAppend(a[1..], b, sep);
    } else {
      assert (a + b)[1..] == b;
    }
  }

  /** Joining empty fields with `||` leaves only bars. */
  lemma {:induction false} JoinOfEmpties(fields: seq<string>)
    requires forall i :: 0 <= i < |fields| ==> fields[i] == ""
    ensures forall j :: 0 <= j < |Join(fields, "||")| ==> Join(fields, "||")[j] == '|'
    decreases |fields|
  {
    if |fields| > 1 {
      JoinOfEmpties(fields[1..]);
      assert Join(fields, "||") == "||" + Join(fields[1..], "||");
    }
  }

  function DowncaseChar(c: char): char {
    if 'A' <= c <= 'Z' then (c as int + 32) as char else c
  }

  /** `String#downcase`, restricted to the ASCII letters. */
  function Downcase(s: string): (r: string)
    ensures |r| == |s|
    ensures forall j :: 0 <= j < |s| ==> r[j] == DowncaseChar(s[j])
    ensures forall j :: 0 <= j < |r| ==> !('A' <= r[j] <= 'Z')
  {
    seq(|s|, j requires 0 <= j < |s| => DowncaseChar(s[j]))
  }

  /** Lower-casing twice is lower-casing once. */
  lemma DowncaseIdempotent(s: string)
    ensures Downcase(Downcase(s)) == Downcase(s)
  {
    var d := Downcase(s);
    forall j | 0 <= j < |d|
      ensures Downcase(d)[j] == d[j]
    {
      assert !('A' <= d[j] <= 'Z');
    }
  }

  /** `a <= b` under Ruby's `String#<=>`: lexicographic by character, a proper prefix first. */
  predicate LexLe(a: string, b: string)
    decreases |a|
  {
    a == [] || (b != [] && (a[0] < b[0] || (a[0] == b[0] && LexLe(a[1..], b[1..]))))
  }

  lemma {:induction false} LexLeTotal(a: string, b: string)
    ensures LexLe(a, b) || LexLe(b, a)
    decreases |a|
  {
    if a != [] && b != [] && a[0] == b[0] {
      LexLeTotal(a[1..], b[1..]);
    }
  }

  lemma {:induction false} LexLeTransitive(a: string, b: string, c: string)
    requires LexLe(a, b) && LexLe(b, c)
    ensures LexLe(a, c)
    decreases |a|
  {
    if a != [] && a[0] == b[0] && b[0] == c[0] {
      LexLeTransitive(a[1..], b[1..], c[1..]);
    }
  }

  lemma {:induction false} LexLeAntisymmetric(a: string, b: string)
    requires LexLe(a, b) && LexLe(b, a)
    ensures a == b
    decreases |a|
  {
    if a != [] {
      LexLeAntisymmetric(a[1..], b[1..]);
      assert a == [a[0]] + a[1..] && b == [b[0]] + b[1..];
    }
  }
}
