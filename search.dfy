/**
 * The generic search-and-filter hook: a free-text term matched against a
 * list of (possibly dotted) field paths, and per-key filters whose values
 * are either a list of accepted values or a single value, compared with
 * strict equality. Items and filter values are JavaScript values.
 */
module Search {
  import opened Seqs
  import opened Text
  import opened Employees
  import opened Wrappers

  /** The JavaScript values the hook handles. */
  datatype JsValue =
    | Undefined
    | Null
    | Bool(b: bool)
    | Num(n: int)
    | Str(s: string)
    | Obj(fields: map<string, JsValue>)
    | Arr(elems: seq<JsValue>)

  /** JavaScript truthiness. */
  predicate Truthy(v: JsValue)
  {
    match v
    case Undefined => false
    case Null => false
    case Bool(b) => b
    case Num(n) => n != 0
    case Str(s) => s != ""
    case Obj(_) => true
    case Arr(_) => true
  }

  /** `current?.[key]`: a property read that yields `undefined` on a nullish
      value or a missing property. */
  function Step(current: JsValue, key: string): (r: JsValue)
    ensures current.Undefined? || current.Null? ==> r.Undefined?
  {
    match current
    case Obj(fields) => if key in fields then fields[key] else Undefined
    case Arr(elems) => if key == "length" then Num(|elems|) else Undefined
    case Str(s) => if key == "length" then Num(|s|) else Undefined
    case _ => Undefined
  }

  /** The `reduce` over the path's keys. */
  function Walk(v: JsValue, keys: seq<string>): JsValue
    decreases |keys|
  {
    if keys == [] then v else Walk(Step(v, keys[0]), keys[1..])
  }

  /** `getNestedValue(obj, path)`: the path always has at least one
      segment, so on `null` or `undefined` the first read already gives
      `undefined`. */
  function GetNestedValue(obj: JsValue, path: string): (r: JsValue)
    ensures obj.Undefined? || obj.Null? ==> r.Undefined?
  {
    var keys := Split(path, '.');
    WalkFromUndefined(keys[1..]);
    Walk(obj, keys)
  }

  /** Walking a concatenated path walks the first part, then the second. */
  lemma {:induction false} WalkAppend(v: JsValue, a: seq<string>, b: seq<string>)
    ensures Walk(v, a + b) == Walk(Walk(v, a), b)
    decreases |a|
  {
    if a == [] {
      assert a + b == b;
    } else {
      assert (a + b)[1..] == a[1..] + b;
      WalkAppend(Step(v, a[0]), a[1..], b);
    }
  }

  /** Once the walk reaches `undefined`, it stays there. */
  lemma {:induction false} WalkFromUndefined(keys: seq<string>)
    ensures Walk(Undefined, keys) == Undefined
  {
    if keys != [] {
      WalkFromUndefined(keys[1..]);
    }
  }

  /** A missing step anywhere along the path makes the lookup `undefined`. */
  lemma MissingStepIsUndefined(obj: JsValue, path: string, k: nat)
    requires k < |Split(path, '.')|
    requires Step(Walk(obj, Split(path, '.')[..k]), Split(path, '.')[k]).Undefined?
    ensures GetNestedValue(obj, path) == Undefined
  {
    var keys := Split(path, '.');
    assert keys == keys[..k] + [keys[k]] + keys[k + 1..];
    WalkAppend(obj, keys[..k] + [keys[k]], keys[k + 1..]);
    WalkAppend(obj, keys[..k], [keys[k]]);
    WalkFromUndefined(keys[k + 1..]);
  }

  /** A path without dots reads a single property. */
  lemma PlainKeyLookup(obj: JsValue, key: string)
    requires '.' !in key
    ensures GetNestedValue(obj, key) == Step(obj, key)
  {
    SplitWithoutSeparator(key, '.');
    assert Walk(obj, [key]) == Walk(Step(obj, key), [key][1..]);
    assert [key][1..] == [];
  }

  /** A dotted path reads one property per segment. */
  lemma DottedLookup(obj: JsValue, first: string, rest: string)
    requires '.' !in first
    ensures GetNestedValue(obj, first + "." + rest) == GetNestedValue(Step(obj, first), rest)
  {
    var path := first + "." + rest;
    SplitDotted(first, rest);
    WalkAppend(obj, [first], Split(rest, '.'));
  }

  lemma {:induction false} SplitDotted(first: string, rest: string)
    requires '.' !in first
    ensures Split(first + "." + rest, '.') == [first] + Split(rest, '.')
  {
    if first == [] {
      assert first + "." + rest == ['.'] + rest;
      assert (['.'] + rest)[1..] == rest;
    } else {
      assert (first + "." + rest)[1..] == first[1..] + "." + rest;
      assert '.' !in first[1..] by {
        forall k | 0 <= k < |first[1..]| ensures first[1..][k] != '.' {
          assert first[1..][k] == first[k + 1];
        }
      }
      SplitDotted(first[1..], rest);
      assert first[0] != '.';
      assert [first[0]] + first[1..] == first;
    }
  }

  /** `value?.toString()`: `None` for a nullish value (the optional chain
      then yields `undefined`). */
  function ToJsString(v: JsValue): (r: Option<string>)
    ensures r.None? <==> v.Undefined? || v.Null?
    decreases v
  {
    match v
    case Undefined => None
    case Null => None
    case Bool(b) => Some(if b then "true" else "false")
    case Num(n) => Some(IntToString(n))
    case Str(s) => Some(s)
    case Obj(_) => Some("[object Object]")
    case Arr(elems) =>
      if elems == [] then Some("")
      else
        var parts := seq(|elems|, i requires 0 <= i < |elems| =>
          match ToJsString(elems[i]) case Some(t) => t case None => "");
        Some(Join(parts, ','))
  }

  /** One search field of `item` contains the term, both lower-cased. */
  predicate FieldMatches(item: JsValue, field: string, term: string)
  {
    var text := ToJsString(GetNestedValue(item, field));
    text.Some? && Contains(Lower(text.value), Lower(term))
  }

  /** `searchFields.some(...)`. */
  predicate TermMatches(item: JsValue, searchFields: seq<string>, term: string)
  {
    exists k | 0 <= k < |searchFields| :: FieldMatches(item, searchFields[k], term)
  }

  /** `value && value.length > 0`: a filter value that takes part. */
  predicate Active(value: JsValue)
  {
    Truthy(value) && match Step(value, "length") case Num(n) => n > 0 case _ => false
  }

  /** `===`. Objects and arrays are references; the model compares no two of
      them equal. */
  predicate StrictEq(a: JsValue, b: JsValue)
  {
    match (a, b)
    case (Undefined, Undefined) => true
    case (Null, Null) => true
    case (Bool(x), Bool(y)) => x == y
    case (Num(x), Num(y)) => x == y
    case (Str(x), Str(y)) => x == y
    case _ => false
  }

  /** One filter's test: an array accepts an item whose value equals one of
      its elements; any other value accepts an item whose value equals it. */
  predicate FilterAccepts(item: JsValue, key: string, value: JsValue)
  {
    var itemValue := GetNestedValue(item, key);
    if value.Arr? then exists e | e in value.elems :: StrictEq(e, itemValue)
    else StrictEq(itemValue, value)
  }

  /** The filters are the entries of an object in insertion order. */
  type Filters = seq<(string, JsValue)>

  /** The item passes every active filter among `fs`. */
  predicate PassesFilters(item: JsValue, fs: Filters)
  {
    if fs == [] then true
    else
      var last := fs[|fs| - 1];
      PassesFilters(item, fs[..|fs| - 1]) && (Active(last.1) ==> FilterAccepts(item, last.0, last.1))
  }

  /** The whole test `filteredData` applies to one item. */
  predicate Kept(item: JsValue, searchFields: seq<string>, term: string, fs: Filters)
  {
    (term == "" || TermMatches(item, searchFields, term)) && PassesFilters(item, fs)
  }

  /** What `filteredData` holds: the items that pass, in their order. */
  function Filtered(data: seq<JsValue>, searchFields: seq<string>, term: string, fs: Filters): (r: seq<JsValue>)
    ensures IsSubseq(r, data)
    ensures forall x :: x in r <==> x in data && Kept(x, searchFields, term, fs)
  {
    FilterIsSubseq(data, (x: JsValue) => Kept(x, searchFields, term, fs));
    Filter(data, (x: JsValue) => Kept(x, searchFields, term, fs))
  }

  /** The `filteredData` computation: the search stage, then one `filter`
      per active entry, reassigning `filtered` as it goes. */
  method FilteredData(data: seq<JsValue>, searchFields: seq<string>, term: string, fs: Filters)
    returns (filtered: seq<JsValue>)
    ensures filtered == Filtered(data, searchFields, term, fs)
  {
    filtered := data;
    if term != "" {
      filtered := Filter(filtered, (item: JsValue) => TermMatches(item, searchFields, term));
    }
    SearchStageAsFilter(data, searchFields, term, filtered);
    for i := 0 to |fs|
      invariant filtered == Filter(data, (x: JsValue) => Kept(x, searchFields, term, fs[..i]))
    {
      var (key, value) := fs[i];
      var before := filtered;
      if Active(value) {
        filtered := Filter(filtered, (item: JsValue) => FilterAccepts(item, key, value));
      }
      FilterStep(data, searchFields, term, fs, i, before, filtered);
    }
    assert fs[..|fs|] == fs;
  }

  lemma SearchStageAsFilter(data: seq<JsValue>, searchFields: seq<string>, term: string, filtered: seq<JsValue>)
    requires filtered == if term != "" then Filter(data, (item: JsValue) => TermMatches(item, searchFields, term)) else data
    ensures filtered == Filter(data, (x: JsValue) => Kept(x, searchFields, term, []))
  {
    if term == "" {
      FilterKeepsAll(data, (x: JsValue) => Kept(x, searchFields, term, []));
    } else {
      FilterAgree(data, (item: JsValue) => TermMatches(item, searchFields, term), (x: JsValue) => Kept(x, searchFields, term, []));
    }
  }

  lemma FilterStep(data: seq<JsValue>, searchFields: seq<string>, term: string, fs: Filters, i: int,
                   before: seq<JsValue>, after: seq<JsValue>)
    requires 0 <= i < |fs|
    requires before == Filter(data, (x: JsValue) => Kept(x, searchFields, term, fs[..i]))
    requires after == if Active(fs[i].1) then Filter(before, (item: JsValue) => FilterAccepts(item, fs[i].0, fs[i].1)) else before
    ensures after == Filter(data, (x: JsValue) => Kept(x, searchFields, term, fs[..i + 1]))
  {
    assert fs[..i + 1][..i] == fs[..i];
    var p := (x: JsValue) => Kept(x, searchFields, term, fs[..i]);
    var pq := (x: JsValue) => Kept(x, searchFields, term, fs[..i + 1]);
    if Active(fs[i].1) {
      var q := (item: JsValue) => FilterAccepts(item, fs[i].0, fs[i].1);
      assert forall x :: pq(x) == (p(x) && q(x));
      FilterTwice(data, p, q, pq);
    } else {
      FilterAgree(data, p, pq);
    }
  }

  /** `hasActiveFilters`: a term, or some filter value that takes part.
      Without either, every item passes every filter. */
  predicate HasActiveFilters(term: string, fs: Filters)
    ensures !HasActiveFilters(term, fs) ==> term == "" && forall x :: PassesFilters(x, fs)
  {
    if exists k | 0 <= k < |fs| :: Active(fs[k].1) then true
    else
      InactivePassesAll(fs);
      term != ""
  }

  lemma InactivePassesAll(fs: Filters)
    requires forall k | 0 <= k < |fs| :: !Active(fs[k].1)
    ensures forall x :: PassesFilters(x, fs)
  {
    forall x ensures PassesFilters(x, fs) {
      InactivePasses(x, fs);
    }
  }

  /** With no term and no active filter value, every item is kept, in order. */
  lemma InactiveKeepsAll(data: seq<JsValue>, searchFields: seq<string>, term: string, fs: Filters)
    requires !HasActiveFilters(term, fs)
    ensures Filtered(data, searchFields, term, fs) == data
  {
    FilterKeepsAll(data, (x: JsValue) => Kept(x, searchFields, term, fs));
  }

  lemma {:induction false} InactivePasses(x: JsValue, fs: Filters)
    requires forall k | 0 <= k < |fs| :: !Active(fs[k].1)
    ensures PassesFilters(x, fs)
  {
    if fs != [] {
      var init := fs[..|fs| - 1];
      assert forall k | 0 <= k < |init| :: init[k] == fs[k];
      InactivePasses(x, init);
    }
  }

  /** Numbers are never active filter values: they have no `length`. */
  lemma NumberFilterIgnored(n: int)
    ensures !Active(Num(n))
  {
  }

  /** With a term to look for and no fields to look in, nothing is kept. */
  lemma NoSearchFieldsKeepsNothing(data: seq<JsValue>, term: string, fs: Filters)
    requires term != ""
    ensures Filtered(data, [], term, fs) == []
  {
    FilterRejectsAll(data, (x: JsValue) => Kept(x, [], term, fs));
  }

  /** An `undefined` field never matches the term. */
  lemma UndefinedFieldNeverMatches(item: JsValue, field: string, term: string)
    requires GetNestedValue(item, field) == Undefined
    ensures !FieldMatches(item, field, term)
  {
  }

  /** `resultsCount`. */
  function ResultsCount(data: seq<JsValue>, searchFields: seq<string>, term: string, fs: Filters): (n: nat)
    ensures n <= |data|
  {
    |Filtered(data, searchFields, term, fs)|
  }

  // ---------------------------------------------------------------------
  // `filteredData` as the hook evaluates it

  /** The error the hook raises as written: `getNestedValue` is a `const`
      declared below the `useMemo` whose factory calls it, and the factory
      runs while the hook body has not yet reached that declaration. */
  const LookupBeforeInit := "ReferenceError: Cannot access 'getNestedValue' before initialization"

  /** Whether evaluating `filteredData` calls `getNestedValue` at all. With
      a term, the search stage does on a non-empty list with a field to look
      in, and otherwise empties the list. Without one, the first active filter
      entry does on a non-empty list. */
  predicate CallsLookup(data: seq<JsValue>, searchFields: seq<string>, term: string, fs: Filters)
  {
    data != [] && (if term != "" then searchFields != [] else exists k | 0 <= k < |fs| :: Active(fs[k].1))
  }

  /** `filteredData` as written: the first call of `getNestedValue` throws.
      It returns only where no lookup happens, and then agrees with
      `Filtered`. */
  method FilteredDataAsWritten(data: seq<JsValue>, searchFields: seq<string>, term: string, fs: Filters)
    returns (r: Result<seq<JsValue>>)
    ensures r.Failure? <==> CallsLookup(data, searchFields, term, fs)
    ensures r.Failure? ==> r.error == LookupBeforeInit
    ensures r.Success? ==> r.value == Filtered(data, searchFields, term, fs)
  {
    var filtered := data;
    if term != "" {
      // `filter` tests the first item, whose `some` looks up the first field;
      // with no item or no field nothing is looked up and nothing passes.
      if filtered != [] && searchFields != [] {
        return Failure(LookupBeforeInit);
      }
      filtered := [];
    }
    for i := 0 to |fs|
      invariant filtered == if term != "" then [] else data
      invariant term != "" && data != [] ==> searchFields == []
      invariant term == "" && data != [] ==> forall k | 0 <= k < i :: !Active(fs[k].1)
    {
      // An active entry filters `filtered`, looking up its key on the first
      // item; filtering an empty list looks nothing up and changes nothing.
      if Active(fs[i].1) && filtered != [] {
        return Failure(LookupBeforeInit);
      }
    }
    if data == [] {
      assert Filtered(data, searchFields, term, fs) == [];
    } else if term != "" {
      NoSearchFieldsKeepsNothing(data, term, fs);
    } else {
      InactiveKeepsAll(data, searchFields, term, fs);
    }
    return Success(filtered);
  }

  /** One object, one field, a term it contains: the hook as written throws,
      while the intended filter keeps the object. */
  lemma SearchTermThrowsAsWritten()
    ensures CallsLookup([Obj(map["firstName" := Str("Ann")])], ["firstName"], "a", [])
    ensures Filtered([Obj(map["firstName" := Str("Ann")])], ["firstName"], "a", []) == [Obj(map["firstName" := Str("Ann")])]
  {
    var item := Obj(map["firstName" := Str("Ann")]);
    AnnMatches(item);
    FilterKeepsAll([item], (x: JsValue) => Kept(x, ["firstName"], "a", []));
  }

  lemma AnnMatches(item: JsValue)
    requires item == Obj(map["firstName" := Str("Ann")])
    ensures Kept(item, ["firstName"], "a", [])
  {
    PlainKeyLookup(item, "firstName");
    assert ToJsString(GetNestedValue(item, "firstName")) == Some("Ann");
    var hay, needle := Lower("Ann"), Lower("a");
    assert hay[0] == LowerChar('A') == 'a';
    assert needle[0] == 'a' && |needle| == 1;
    assert hay[0..1] == needle;
    assert OccursAt(hay, needle, 0);
    var fields := ["firstName"];
    assert FieldMatches(item, fields[0], "a");
    assert TermMatches(item, fields, "a");
    assert PassesFilters(item, []);
  }

  // ---------------------------------------------------------------------
  // The hook's own state

  /** The first value stored under `key`, if any. */
  function Lookup(fs: Filters, key: string): (r: Option<JsValue>)
    ensures r.Some? <==> exists k | 0 <= k < |fs| :: fs[k].0 == key
  {
    if fs == [] then None else if fs[0].0 == key then Some(fs[0].1) else Lookup(fs[1..], key)
  }

  /** The filter object's keys, in order. */
  function KeysOf(fs: Filters): (ks: seq<string>)
    ensures |ks| == |fs|
  {
    if fs == [] then [] else [fs[0].0] + KeysOf(fs[1..])
  }

  /** `{...prev, [key]: value}`: an existing key keeps its place and takes the
      new value; a new key goes last. */
  function Updated(fs: Filters, key: string, value: JsValue): (r: Filters)
    ensures Lookup(r, key) == Some(value)
    ensures forall k :: k != key ==> Lookup(r, k) == Lookup(fs, k)
  {
    if fs == [] then [(key, value)]
    else if fs[0].0 == key then [(key, value)] + fs[1..]
    else [fs[0]] + Updated(fs[1..], key, value)
  }

  /** The update keeps every key in place and appends a new one. */
  lemma {:induction false} KeysOfUpdated(fs: Filters, key: string, value: JsValue)
    ensures KeysOf(Updated(fs, key, value)) == if key in KeysOf(fs) then KeysOf(fs) else KeysOf(fs) + [key]
  {
    if fs != [] {
      var r := Updated(fs, key, value);
      if fs[0].0 == key {
        assert KeysOf(r) == [key] + KeysOf(fs[1..]);
      } else {
        KeysOfUpdated(fs[1..], key, value);
        assert KeysOf(r) == [fs[0].0] + KeysOf(Updated(fs[1..], key, value));
      }
    }
  }

  /** The update keeps the keys distinct. */
  lemma UpdatedKeys(fs: Filters, key: string, value: JsValue)
    requires NoDups(KeysOf(fs))
    ensures NoDups(KeysOf(Updated(fs, key, value)))
  {
    KeysOfUpdated(fs, key, value);
    if key !in KeysOf(fs) {
      SnocNoDups(KeysOf(fs), key);
    }
  }

  /** The hook's state: the term and the filter object. */
  class SearchState {
    var searchTerm: string
    var filters: Filters

    ghost predicate Valid()
      reads this
    {
      NoDups(KeysOf(filters))
    }

    constructor()
      ensures Valid()
      ensures searchTerm == "" && filters == []
    {
      searchTerm := "";
      filters := [];
    }

    method SetSearchTerm(term: string)
      modifies this
      ensures searchTerm == term && filters == old(filters)
    {
      searchTerm := term;
    }

    /** `updateFilter(key, value)`: only `key` changes. */
    method UpdateFilter(key: string, value: JsValue)
      requires Valid()
      modifies this
      ensures Valid()
      ensures searchTerm == old(searchTerm)
      ensures filters == Updated(old(filters), key, value)
    {
      UpdatedKeys(filters, key, value);
      filters := Updated(filters, key, value);
    }

    /** `clearFilters`: back to the empty term and the empty object. */
    method ClearFilters()
      modifies this
      ensures Valid()
      ensures searchTerm == "" && filters == []
      ensures !HasActiveFilters(searchTerm, filters)
    {
      searchTerm := "";
      filters := [];
    }
  }

  // ---------------------------------------------------------------------
  // Employees as items

  /** An employee as the object the bookmarks page searches. */
  function UserObject(u: User): JsValue
  {
    Obj(map["id" := Num(u.id), "firstName" := Str(u.firstName), "lastName" := Str(u.lastName),
            "email" := Str(u.email), "department" := Str(u.department), "rating" := Num(u.rating)])
  }

  /** A rating filter whose options are strings (`['5']`) matches no employee:
      the rating is a number and `===` does not convert. */
  lemma StringRatingOptionsMatchNothing(u: User, options: seq<string>)
    ensures !FilterAccepts(UserObject(u), "rating", Arr(MapSeq(options, (o: string) => Str(o))))
  {
    PlainKeyLookup(UserObject(u), "rating");
  }
}
