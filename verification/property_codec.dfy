/**
 * The `name||value` property token. The document serialiser writes it for each
 * product property, the version 2 query compiler writes it for each requested
 * property value, and the facet expander splits it again with `split('||')`.
 */
module PropertyCodec {
  import opened Wrappers
  import opened RubyText

  /** `"#{name}||#{value}"`. */
  function Token(name: string, value: string): (t: string)
    ensures |t| == |name| + 2 + |value|
    ensures t[..|name|] == name && t[|name| + 2..] == value
    ensures t[|name|..|name| + 2] == "||"
  {
    name + "||" + value
  }

  /** A property name whose token the first separator cuts right after the name. */
  predicate WellFormedName(name: string) {
    NoSep(name) && (name == [] || name[|name| - 1] != '|')
  }

  /** A property value that `split('||')` gives back whole as the second field. */
  predicate WellFormedValue(value: string) {
    value != [] && NoSep(value)
  }

  /** A string without any `|` is a well-formed name, and a well-formed value when non-empty. */
  lemma NoBarIsWellFormed(s: string)
    requires forall j :: 0 <= j < |s| ==> s[j] != '|'
    ensures WellFormedName(s)
    ensures s != [] ==> WellFormedValue(s)
  {
  }

  /** In a token of a well-formed name, the first separator sits right after the name. */
  lemma FirstSepOfToken(name: string, value: string)
    requires WellFormedName(name)
    ensures FindSep(Token(name, value)) == Some(|name|)
  {
    var t := Token(name, value);
    assert IsSepAt(t, |name|);
    forall j | 0 <= j < |name|
      ensures !IsSepAt(t, j)
    {
      if j + 1 < |name| {
        assert t[j] == name[j] && t[j + 1] == name[j + 1];
        assert !IsSepAt(name, j);
      } else {
        assert t[j] == name[|name| - 1];
      }
    }
  }

  /**
   * Round trip: splitting the token of a well-formed pair gives back exactly
   * the name and the value.
   */
  lemma SplitToken(name: string, value: string)
    requires WellFormedName(name) && WellFormedValue(value)
    ensures Split(Token(name, value)) == [name, value]
  {
    var t := Token(name, value);
    FirstSepOfToken(name, value);
    assert t[..|name|] == name && t[|name| + 2..] == value;
    assert SplitFields(value) == [value];
    assert SplitFields(t) == [name, value];
  }

  /** Two tokens of well-formed names are equal only when their names and values are. */
  lemma TokenInjective(n1: string, v1: string, n2: string, v2: string)
    requires WellFormedName(n1) && WellFormedName(n2)
    requires Token(n1, v1) == Token(n2, v2)
    ensures n1 == n2 && v1 == v2
  {
    FirstSepOfToken(n1, v1);
    FirstSepOfToken(n2, v2);
    var t := Token(n1, v1);
    assert n1 == t[..|n1|] && n2 == t[..|n2|];
    assert v1 == t[|n1| + 2..] && v2 == t[|n2| + 2..];
  }

  /**
   * A value that itself contains `||` does not survive the split: the expander
   * keeps only the text up to the value's own separator.
   */
  lemma ValueWithSeparatorIsCut()
    ensures Split(Token("k", "a||b")) == ["k", "a", "b"]
  {
    var t := Token("k", "a||b");
    assert t == "k||a||b";
    assert FindSep(t) == Some(1);
    assert t[3..] == "a||b";
    assert FindSep("a||b") == Some(1);
    assert "a||b"[3..] == "b";
    assert FindSep("b") == None;
    assert SplitFields("b") == ["b"];
    assert "a||b"[..1] == "a";
    assert SplitFields("a||b") == ["a", "b"];
    assert t[..1] == "k";
    assert SplitFields(t) == ["k", "a", "b"];
  }
}
