/** The pure half of the typeahead: a JSON-like value, the dotted-path
    resolver `getValueByPath` (`path.split('.').reduce((acc, key) => acc?.[key], data)`)
    and the filter/truncate step applied to a lookup response. */
module JsonPath {
  import opened Sequences

  /** A value as `response.json()` can produce it, plus `undefined`. Numbers
      are integers (see README, "Left out"). */
  datatype Json =
    | Undefined
    | Null
    | Bool(b: bool)
    | Num(n: int)
    | Str(s: string)
    | Arr(items: seq<Json>)
    | Obj(fields: map<string, Json>)

  predicate IsNullish(v: Json) {
    v.Undefined? || v.Null?
  }

  /** JavaScript truthiness: `undefined`, `null`, `false`, `0` and `""` are falsy. */
  predicate Truthy(v: Json) {
    match v
    case Undefined => false
    case Null => false
    case Bool(b) => b
    case Num(n) => n != 0
    case Str(s) => s != ""
    case Arr(_) => true
    case Obj(_) => true
  }

  /** One step of the reduce: `acc?.[key]`. A nullish `acc` short-circuits to
      `undefined`; an object yields its own property or `undefined`. */
  function Member(acc: Json, key: string): Json {
    match acc
    case Obj(fields) => if key in fields then fields[key] else Undefined
    case _ => Undefined
  }

  /** `s.split(sep)` for a one-character separator: never empty, and no part
      contains the separator. */
  function Split(s: string, sep: char): (parts: seq<string>)
    ensures |parts| >= 1
    decreases |s|
  {
    if |s| == 0 then [""]
    else
      var rest := Split(s[1..], sep);
      if s[0] == sep then [""] + rest
      else [[s[0]] + rest[0]] + rest[1..]
  }

  /** No part of a split contains the separator. */
  lemma {:induction false} SplitPartsNoSeparator(s: string, sep: char)
    ensures forall i :: 0 <= i < |Split(s, sep)| ==> sep !in Split(s, sep)[i]
    decreases |s|
  {
    if |s| > 0 {
      SplitPartsNoSeparator(s[1..], sep);
    }
  }

  /** `parts.join(sep)`, the inverse of `Split`. */
  function Join(parts: seq<string>, sep: char): string
    requires |parts| >= 1
    decreases |parts|
  {
    if |parts| == 1 then parts[0] else parts[0] + [sep] + Join(parts[1..], sep)
  }

  /** Splitting and joining back gives the original path. */
  lemma {:induction false} JoinSplit(s: string, sep: char)
    ensures Join(Split(s, sep), sep) == s
    decreases |s|
  {
    if |s| > 0 {
      var rest := Split(s[1..], sep);
      JoinSplit(s[1..], sep);
      if s[0] == sep {
        assert Split(s, sep)[1..] == rest;
      } else {
        var parts := Split(s, sep);
        assert parts[0] == [s[0]] + rest[0];
        if |rest| == 1 {
          assert s == [s[0]] + s[1..];
        } else {
          assert parts[1..] == rest[1..];
          assert s == [s[0]] + s[1..];
        }
      }
    }
  }

  /** A segment followed by the separator splits off as one part. */
  lemma {:induction false} SplitSegment(w: string, sep: char, t: string)
    requires sep !in w
    ensures Split(w + [sep] + t, sep) == [w] + Split(t, sep)
    decreases |w|
  {
    if w == [] {
      assert w + [sep] + t == [sep] + t;
      assert ([sep] + t)[1..] == t;
    } else {
      SplitSegment(w[1..], sep, t);
      assert (w + [sep] + t)[1..] == w[1..] + [sep] + t;
      assert [w[0]] + w[1..] == w;
    }
  }

  /** A string without the separator is a single part. */
  lemma {:induction false} SplitNoSeparator(w: string, sep: char)
    requires sep !in w
    ensures Split(w, sep) == [w]
    decreases |w|
  {
    if w != [] {
      SplitNoSeparator(w[1..], sep);
      assert [w[0]] + w[1..] == w;
    }
  }

  /** Joining separator-free parts and splitting again gives the parts back. */
  lemma {:induction false} SplitJoin(parts: seq<string>, sep: char)
    requires |parts| >= 1
    requires forall i :: 0 <= i < |parts| ==> sep !in parts[i]
    ensures Split(Join(parts, sep), sep) == parts
    decreases |parts|
  {
    if |parts| == 1 {
      SplitNoSeparator(parts[0], sep);
    } else {
      SplitJoin(parts[1..], sep);
      SplitSegment(parts[0], sep, Join(parts[1..], sep));
      assert [parts[0]] + parts[1..] == parts;
    }
  }

  /** Splitting a string that starts with a separator opens an empty part. */
  lemma SplitConsSeparator(t: string, sep: char)
    ensures Split([sep] + t, sep) == [""] + Split(t, sep)
  {
    assert ([sep] + t)[1..] == t;
  }

  /** Any other first character joins the first part. */
  lemma SplitConsOther(c: char, t: string, sep: char)
    requires c != sep
    ensures Split([c] + t, sep) == [[c] + Split(t, sep)[0]] + Split(t, sep)[1..]
  {
    assert ([c] + t)[1..] == t;
  }

  /** Extending the first part commutes with appending further parts. */
  lemma ExtendFirstPart(c: char, p: seq<string>, q: seq<string>)
    requires |p| >= 1
    ensures [[c] + (p + q)[0]] + (p + q)[1..] == ([[c] + p[0]] + p[1..]) + q
  {
    assert (p + q)[0] == p[0];
    assert (p + q)[1..] == p[1..] + q;
  }

  /** Splitting `a + sep + b` splits `a` and `b` separately. */
  lemma {:induction false} SplitConcat(a: string, sep: char, b: string)
    ensures Split(a + [sep] + b, sep) == Split(a, sep) + Split(b, sep)
    decreases |a|
  {
    if a == [] {
      assert a + [sep] + b == [sep] + b;
      SplitConsSeparator(b, sep);
    } else {
      var rest := a[1..] + [sep] + b;
      assert a + [sep] + b == [a[0]] + rest;
      assert a == [a[0]] + a[1..];
      SplitConcat(a[1..], sep, b);
      if a[0] == sep {
        SplitConsSeparator(rest, sep);
        SplitConsSeparator(a[1..], sep);
      } else {
        SplitConsOther(a[0], rest, sep);
        SplitConsOther(a[0], a[1..], sep);
        ExtendFirstPart(a[0], Split(a[1..], sep), Split(b, sep));
      }
    }
  }

  /** The reduce over path segments, starting from `acc`. */
  function Resolve(acc: Json, keys: seq<string>): Json
    decreases |keys|
  {
    if keys == [] then acc else Resolve(Member(acc, keys[0]), keys[1..])
  }

  /** `getValueByPath(data, path)`. Total: no path and no value make it fail. */
  function GetValueByPath(data: Json, path: string): Json {
    Resolve(data, Split(path, '.'))
  }

  /** Resolving two runs of segments one after the other. */
  lemma {:induction false} ResolveConcat(acc: Json, ks1: seq<string>, ks2: seq<string>)
    ensures Resolve(acc, ks1 + ks2) == Resolve(Resolve(acc, ks1), ks2)
    decreases |ks1|
  {
    if ks1 == [] {
      assert ks1 + ks2 == ks2;
    } else {
      ResolveConcat(Member(acc, ks1[0]), ks1[1..], ks2);
      assert (ks1 + ks2)[0] == ks1[0];
      assert (ks1 + ks2)[1..] == ks1[1..] + ks2;
    }
  }

  /** Once the value is nullish, every further segment yields `undefined`. */
  lemma {:induction false} ResolveNullish(acc: Json, keys: seq<string>)
    requires IsNullish(acc)
    requires keys != []
    ensures Resolve(acc, keys) == Undefined
    decreases |keys|
  {
    if |keys| > 1 {
      ResolveNullish(Member(acc, keys[0]), keys[1..]);
    }
  }

  /** A nullish value resolves to `undefined` under every path. */
  lemma NullishPath(data: Json, path: string)
    requires IsNullish(data)
    ensures GetValueByPath(data, path) == Undefined
  {
    ResolveNullish(data, Split(path, '.'));
  }

  /** A path without dots is a direct property lookup. */
  lemma SingleSegmentPath(data: Json, key: string)
    requires '.' !in key
    ensures GetValueByPath(data, key) == Member(data, key)
  {
    SplitNoSeparator(key, '.');
    assert [key][1..] == [];
    assert Resolve(data, [key]) == Resolve(Member(data, key), []);
  }

  /** `a.b` is `b` resolved in the value found at `a`. */
  lemma DottedPath(data: Json, a: string, b: string)
    ensures GetValueByPath(data, a + "." + b) == GetValueByPath(GetValueByPath(data, a), b)
  {
    SplitConcat(a, '.', b);
    ResolveConcat(data, Split(a, '.'), Split(b, '.'));
  }

  /** When the prefix `a` resolves to a nullish value, `a.b` is `undefined`
      whatever `b` is. */
  lemma NullishPrefix(data: Json, a: string, b: string)
    requires IsNullish(GetValueByPath(data, a))
    ensures GetValueByPath(data, a + "." + b) == Undefined
  {
    DottedPath(data, a, b);
    NullishPath(GetValueByPath(data, a), b);
  }

  /** The path `'name.official'`, written as its two segments joined by the
      separator. */
  const RequiredDataPath: string := "name" + "." + "official"
  const MaxResults: nat := 30

  /** `'name.official'.split('.')`. */
  lemma RequiredPathSegments()
    ensures Split(RequiredDataPath, '.') == ["name", "official"]
  {
    SplitSegment("name", '.', "official");
    SplitNoSeparator("official", '.');
  }

  /** `getValueByPath(item, 'name.official')` is `item?.name?.official`. */
  lemma RequiredPathLookup(item: Json)
    ensures GetValueByPath(item, RequiredDataPath) == Member(Member(item, "name"), "official")
  {
    RequiredPathSegments();
    assert ["name", "official"][1..] == ["official"];
    assert ["official"][1..] == [];
  }

  /** The filter callback: the item's `name.official` is truthy. */
  predicate HasRequiredData(item: Json) {
    Truthy(GetValueByPath(item, RequiredDataPath))
  }

  /** `data.filter(item => getValueByPath(item, REQUIRED_DATA_PATH))`. */
  function FilterRequired(items: seq<Json>): (r: seq<Json>)
    ensures forall i :: 0 <= i < |r| ==> HasRequiredData(r[i])
    ensures forall x :: x in items && HasRequiredData(x) ==> x in r
    ensures IsSubsequence(r, items)
    decreases |items|
  {
    if items == [] then []
    else if HasRequiredData(items[0]) then [items[0]] + FilterRequired(items[1..])
    else FilterRequired(items[1..])
  }

  /** The filter keeps every copy of a qualifying item and no copy of any
      other: it is the response with exactly the non-qualifying items taken
      out. */
  lemma {:induction false} FilterRequiredCounts(items: seq<Json>)
    ensures forall x :: multiset(FilterRequired(items))[x] == if HasRequiredData(x) then multiset(items)[x] else 0
    decreases |items|
  {
    if items != [] {
      FilterRequiredCounts(items[1..]);
      assert items == [items[0]] + items[1..];
    }
  }

  /** Line 94 of the typeahead: keep the items with a truthy `name.official`,
      at most `MaxResults` of them, and nothing when the response is not an
      array. */
  function RequiredResults(data: Json): (r: seq<Json>)
    ensures |r| <= MaxResults
    ensures forall i :: 0 <= i < |r| ==> HasRequiredData(r[i])
    ensures !data.Arr? ==> r == []
    ensures data.Arr? ==> IsSubsequence(r, data.items)
    ensures data.Arr? ==> |r| <= |FilterRequired(data.items)| && r == FilterRequired(data.items)[..|r|]
    ensures data.Arr? ==> |r| == if |FilterRequired(data.items)| < MaxResults then |FilterRequired(data.items)| else MaxResults
  {
    if data.Arr? then
      var kept := FilterRequired(data.items);
      var n := if |kept| < MaxResults then |kept| else MaxResults;
      PrefixOfSubsequence(kept, data.items, n);
      assert forall i :: 0 <= i < n ==> kept[..n][i] == kept[i];
      kept[..n]
    else []
  }

  /** When at most `MaxResults` items qualify, none of them is dropped. */
  lemma RequiredResultsComplete(data: Json, x: Json)
    requires data.Arr?
    requires |FilterRequired(data.items)| <= MaxResults
    requires x in data.items && HasRequiredData(x)
    ensures x in RequiredResults(data)
  {
    var kept := FilterRequired(data.items);
    assert kept[..|kept|] == kept;
  }

  /** An item whose `name.official` is the empty string is dropped. */
  lemma EmptyNameDropped(data: Json, x: Json)
    requires GetValueByPath(x, RequiredDataPath) == Str("")
    ensures x !in RequiredResults(data)
  {
  }
}
