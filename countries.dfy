/** The country dataset and the name and attribute tests evaluated over it
    (src/App.tsx:4-21, 105-154, 228-230, 305). */
module Countries {
  import opened Text
  import opened Sequences

  /** A field of a country record: booleans, numbers (floating point is not
      modelled; integers stand in) and strings. */
  datatype Value = BoolValue(b: bool) | NumberValue(x: int) | StringValue(s: string)

  type CountryRecord = map<string, Value>

  /** A `Record<string, CountryData>`: `names` lists its keys in the order a
      `for…in` loop visits them, `records` maps each key to its fields. */
  datatype Dataset = Dataset(names: seq<string>, records: map<string, CountryRecord>)
  {
    ghost predicate WellFormed()
    {
      NoDuplicates(names) && forall n :: n in names <==> n in records
    }
  }

  /** The tests a name can be put to: the five name-shape tests of
      checkChallenge (parameters already drawn) and the attribute filter of
      the narrowing step. */
  datatype Criterion =
    | LengthIs(n: nat)
    | ContainsVowel(v: char)
    | SingleVowel(v: char)
    | EndsWithLetter(c: char)
    | BeginsWithLetter(c: char)
    | HasAttribute(key: string)

  /** `countriesData[country][key] === true`: a missing field or a field of
      another type does not match. */
  predicate Flagged(data: Dataset, name: string, key: string)
  {
    name in data.records && key in data.records[name] && data.records[name][key] == BoolValue(true)
  }

  predicate Holds(data: Dataset, c: Criterion, name: string)
  {
    match c
    case LengthIs(n) => |name| == n
    case ContainsVowel(v) => v in Lower(name)
    case SingleVowel(v) => SingleOccurrence(Lower(name), v)
    case EndsWithLetter(l) => EndsWith(Lower(name), [l])
    case BeginsWithLetter(l) => StartsWith(Lower(name), [l])
    case HasAttribute(key) => Flagged(data, name, key)
  }

  /** The names of `s` that pass `c`, in the order of `s`. */
  function Select(data: Dataset, s: seq<string>, c: Criterion): (r: seq<string>)
    decreases |s|
  {
    if s == [] then []
    else
      var last := s[|s| - 1];
      Select(data, s[..|s| - 1], c) + (if Holds(data, c, last) then [last] else [])
  }

  /** A test every name passes selects the whole input. */
  lemma {:induction false} SelectAll(data: Dataset, s: seq<string>, c: Criterion)
    requires forall x :: x in s ==> Holds(data, c, x)
    ensures Select(data, s, c) == s
    decreases |s|
  {
    if s != [] {
      var t, last := s[..|s| - 1], s[|s| - 1];
      assert s == t + [last];
      assert last in s;
      forall x | x in t
        ensures Holds(data, c, x)
      {
        assert x in s;
      }
      SelectAll(data, t, c);
    }
  }

  /** A name is selected exactly when it is in the input and passes the test. */
  lemma {:induction false} SelectMembers(data: Dataset, s: seq<string>, c: Criterion, x: string)
    ensures x in Select(data, s, c) <==> x in s && Holds(data, c, x)
    decreases |s|
  {
    if s != [] {
      SelectMembers(data, s[..|s| - 1], c, x);
      assert s == s[..|s| - 1] + [s[|s| - 1]];
    }
  }

  lemma {:induction false} SelectIsSubsequence(data: Dataset, s: seq<string>, c: Criterion)
    ensures IsSubsequence(Select(data, s, c), s)
    decreases |s|
  {
    if s != [] {
      var s' := s[..|s| - 1];
      var r' := Select(data, s', c);
      SelectIsSubsequence(data, s', c);
      if Holds(data, c, s[|s| - 1]) {
        var r := Select(data, s, c);
        assert r[..|r| - 1] == r';
      } else {
        assert Select(data, s, c) == r';
      }
    }
  }

  /** `answers.filter((answer) => answer !== input)`. */
  function Without(s: seq<string>, x: string): (r: seq<string>)
    decreases |s|
  {
    if s == [] then []
    else
      var last := s[|s| - 1];
      Without(s[..|s| - 1], x) + (if last != x then [last] else [])
  }

  /** Removing keeps every other entry, in order, and drops every copy of `x`. */
  lemma {:induction false} WithoutMembers(s: seq<string>, x: string, y: string)
    ensures y in Without(s, x) <==> y in s && y != x
    decreases |s|
  {
    if s != [] {
      WithoutMembers(s[..|s| - 1], x, y);
      assert s == s[..|s| - 1] + [s[|s| - 1]];
    }
  }

  lemma {:induction false} WithoutIsSubsequence(s: seq<string>, x: string)
    ensures IsSubsequence(Without(s, x), s)
    decreases |s|
  {
    if s != [] {
      var s' := s[..|s| - 1];
      WithoutIsSubsequence(s', x);
      if s[|s| - 1] != x {
        var r := Without(s, x);
        assert r[..|r| - 1] == Without(s', x);
      } else {
        assert Without(s, x) == Without(s', x);
      }
    }
  }

  /** The number of entries removed is the number of copies of `x`; in a
      duplicate-free list that is one entry when `x` is present. */
  lemma {:induction false} WithoutLength(s: seq<string>, x: string)
    ensures x !in s ==> Without(s, x) == s
    ensures x in s ==> |Without(s, x)| < |s|
    ensures x in s && NoDuplicates(s) ==> |Without(s, x)| == |s| - 1
    decreases |s|
  {
    if s != [] {
      var s' := s[..|s| - 1];
      WithoutLength(s', x);
      assert s == s' + [s[|s| - 1]];
      if s[|s| - 1] == x && NoDuplicates(s) {
        assert x !in s';
      }
      if x in s && NoDuplicates(s) {
        assert NoDuplicates(s');
      }
    }
  }
}
