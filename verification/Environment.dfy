/**
 Environment transforms. Names are compared by a folded key, so every table of
 variables is kept beside an index from keys to spellings; filters drop
 variables without telling the index.
 */
module Environment {
  import opened Wrappers

  type Name = string
  type Key = string
  type Value = string

  /** The folding of names, and which names are text; both come from the platform. */
  datatype Folding = Folding(key: Name -> Key, text: Name -> bool)

  // ----- a table and its index -----

  datatype Table<V> = Table(values: map<Name, V>, names: map<Key, Name>)

  /** At most one variable per folded name. */
  ghost predicate UniqueKeys<V>(f: Folding, values: map<Name, V>) {
    forall a, b :: a in values && b in values && f.key(a) == f.key(b) ==> a == b
  }

  /** The index finds every variable; it may also hold names whose variable is gone. */
  ghost predicate Covers<V>(f: Folding, t: Table<V>) {
    && (forall n :: n in t.values ==> f.key(n) in t.names && t.names[f.key(n)] == n)
    && (forall k :: k in t.names ==> f.key(t.names[k]) == k)
  }

  /** The index holds nothing else. */
  ghost predicate Exact<V>(f: Folding, t: Table<V>) {
    Covers(f, t) && forall k :: k in t.names ==> t.names[k] in t.values
  }

  lemma CoveredIsUnique<V>(f: Folding, t: Table<V>)
    requires Covers(f, t)
    ensures UniqueKeys(f, t.values)
  {
  }

  /** Removes the variable whose name folds like `name`, through the index. */
  method RemoveName<V>(f: Folding, t: Table<V>, name: Name) returns (r: Table<V>)
    requires Covers(f, t)
    ensures Covers(f, r)
    ensures r.names == t.names - {f.key(name)}
    ensures r.values == map n | n in t.values && f.key(n) != f.key(name) :: t.values[n]
    ensures Exact(f, t) ==> Exact(f, r)
  {
    var key := f.key(name);
    if key in t.names {
      var existing := t.names[key];
      r := Table(t.values - {existing}, t.names - {key});
    } else {
      r := t;
    }
  }

  /** Removes, then inserts under the new spelling. */
  method Put<V>(f: Folding, t: Table<V>, name: Name, value: V) returns (r: Table<V>)
    requires Covers(f, t)
    ensures Covers(f, r)
    ensures r.values == (map n | n in t.values && f.key(n) != f.key(name) :: t.values[n])[name := value]
    ensures r.names == t.names[f.key(name) := name]
    ensures Exact(f, t) ==> Exact(f, r)
  {
    var removed := RemoveName(f, t, name);
    r := Table(removed.values[name := value], removed.names[f.key(name) := name]);
  }

  // ----- names and values a caller may give -----

  datatype NameError = EmptyName | NameContainsNul | NameContainsEquals | ValueContainsNul

  function ValidateName(name: Name): (r: Outcome<NameError>) {
    if name == [] then Fail(EmptyName)
    else if '\0' in name then Fail(NameContainsNul)
    else if '=' in name then Fail(NameContainsEquals)
    else Pass
  }

  /** Names are checked before values, and their faults in a fixed order. */
  function ValidateEntry(name: Name, value: Value): (r: Outcome<NameError>)
    ensures r.Pass? <==> ValidEntry(name, value)
  {
    if ValidateName(name).Fail? then ValidateName(name)
    else if '\0' in value then Fail(ValueContainsNul)
    else Pass
  }

  predicate ValidEntry(name: Name, value: Value) {
    name != [] && '\0' !in name && '=' !in name && '\0' !in value
  }

  /** The last of the entries whose names fold alike. */
  ghost predicate LastOfItsName(f: Folding, entries: seq<(Name, Value)>, i: nat) {
    i < |entries| && forall j :: i < j < |entries| ==> f.key(entries[j].0) != f.key(entries[i].0)
  }

  ghost predicate SurvivesAs(f: Folding, entries: seq<(Name, Value)>, name: Name, value: Value) {
    exists i: nat :: LastOfItsName(f, entries, i) && entries[i] == (name, value)
  }

  /** The variables are exactly the last entries of their names. */
  ghost predicate Collects(f: Folding, entries: seq<(Name, Value)>, variables: map<Name, Value>) {
    && (forall n :: n in variables ==> SurvivesAs(f, entries, n, variables[n]))
    && (forall i: nat :: LastOfItsName(f, entries, i) ==>
          entries[i].0 in variables && variables[entries[i].0] == entries[i].1)
  }

  /** Appending an entry keeps last exactly those entries that do not fold like it. */
  lemma LastGrows(f: Folding, entries: seq<(Name, Value)>, k: nat, i: nat)
    requires i < k < |entries|
    ensures LastOfItsName(f, entries[..k + 1], i)
        <==> LastOfItsName(f, entries[..k], i) && f.key(entries[k].0) != f.key(entries[i].0)
  {
    var shorter, longer := entries[..k], entries[..k + 1];
    assert longer[i] == shorter[i] == entries[i] && longer[k] == entries[k];
    if LastOfItsName(f, longer, i) {
      forall j | i < j < k ensures f.key(shorter[j].0) != f.key(shorter[i].0) {
        assert longer[j] == shorter[j];
      }
    }
    if LastOfItsName(f, shorter, i) && f.key(entries[k].0) != f.key(entries[i].0) {
      forall j | i < j < k + 1 ensures f.key(longer[j].0) != f.key(longer[i].0) {
        if j < k { assert longer[j] == shorter[j]; }
      }
    }
  }

  lemma CollectsStep(f: Folding, entries: seq<(Name, Value)>, k: nat, before: map<Name, Value>, after: map<Name, Value>)
    requires k < |entries| && Collects(f, entries[..k], before)
    requires after == (map n | n in before && f.key(n) != f.key(entries[k].0) :: before[n])[entries[k].0 := entries[k].1]
    ensures Collects(f, entries[..k + 1], after)
  {
    var shorter, longer := entries[..k], entries[..k + 1];
    assert longer[k] == entries[k] && LastOfItsName(f, longer, k);
    forall n | n in after ensures SurvivesAs(f, longer, n, after[n]) {
      if n == entries[k].0 {
        assert longer[k] == (n, after[n]);
      } else {
        assert SurvivesAs(f, shorter, n, before[n]);
        var i: nat :| LastOfItsName(f, shorter, i) && shorter[i] == (n, before[n]);
        LastGrows(f, entries, k, i);
        assert longer[i] == (n, after[n]);
      }
    }
    forall i: nat | LastOfItsName(f, longer, i) ensures longer[i].0 in after && after[longer[i].0] == longer[i].1 {
      if i < k {
        LastGrows(f, entries, k, i);
        assert shorter[i] == longer[i];
      }
    }
  }

  predicate AllValid(entries: seq<(Name, Value)>, n: nat) {
    n <= |entries| && forall i :: 0 <= i < n ==> ValidEntry(entries[i].0, entries[i].1)
  }

  /** Entry `i` is the first that is not valid, and this is its fault. */
  predicate FirstFault(entries: seq<(Name, Value)>, i: nat, error: NameError) {
    i < |entries| && AllValid(entries, i) && ValidateEntry(entries[i].0, entries[i].1) == Fail(error)
  }

  lemma CollectsNothing(f: Folding)
    ensures Collects(f, [], map[])
  {
  }

  /** Fails exactly on an invalid entry, with the first fault; otherwise the last entry of each folded name survives. */
  method CollectEnvironment(f: Folding, entries: seq<(Name, Value)>) returns (r: Result<map<Name, Value>, NameError>)
    ensures r.Success? <==> AllValid(entries, |entries|)
    ensures r.Failure? ==> exists i: nat :: FirstFault(entries, i, r.error)
    ensures r.Success? ==> UniqueKeys(f, r.value) && Collects(f, entries, r.value)
  {
    hide LastOfItsName, Collects, UniqueKeys;
    var t: Table<Value> := Table(map[], map[]);
    CollectsNothing(f);
    assert entries[..0] == [];
    for k := 0 to |entries|
      invariant Covers(f, t) && Collects(f, entries[..k], t.values)
      invariant AllValid(entries, k)
    {
      hide Covers;
      var (name, value) := entries[k];
      var checked := ValidateName(name);
      if checked.Fail? {
        assert FirstFault(entries, k, checked.error);
        return Failure(checked.error);
      }
      if '\0' in value {
        assert FirstFault(entries, k, ValueContainsNul);
        return Failure(ValueContainsNul);
      }
      ghost var before := t.values;
      t := Put(f, t, name, value);
      CollectsStep(f, entries, k, before, t.values);
    }
    assert entries[..|entries|] == entries;
    CoveredIsUnique(f, t);
    return Success(t.values);
  }

  // ----- specifications -----

  datatype Base = NoBase | Core | All

  function Rank(base: Base): (r: nat) {
    match base
    case NoBase => 0
    case Core => 1
    case All => 2
  }

  predicate BaseIsAtMost(supplied: Base, required: Base)
    ensures BaseIsAtMost(supplied, required) <==> Rank(supplied) <= Rank(required)
  {
    match required
    case NoBase => supplied.NoBase?
    case Core => !supplied.All?
    case All => true
  }

  datatype Override = Set(value: Value) | Remove

  datatype Filter = Filter(includes: bool, matches: Name -> bool)

  datatype Spec = Spec(base: Base, overrides: Table<Override>, filters: seq<Filter>)

  datatype Input = Input(base: Base, variables: map<Name, Value>)

  function OverrideFor(f: Folding, spec: Spec, name: Name): (r: Option<Override>) {
    var key := f.key(name);
    if key in spec.overrides.names && spec.overrides.names[key] in spec.overrides.values then
      Some(spec.overrides.values[spec.overrides.names[key]])
    else None
  }

  /** Sets one variable: names that fold like it see the new override, all others what they saw before. */
  method WithVar(f: Folding, spec: Spec, name: Name, value: Value) returns (r: Result<Spec, NameError>)
    requires Exact(f, spec.overrides)
    ensures r.Success? <==> ValidEntry(name, value)
    ensures r.Failure? ==> ValidateEntry(name, value) == Fail(r.error)
    ensures r.Success? ==>
      && Exact(f, r.value.overrides) && r.value.base == spec.base && r.value.filters == spec.filters
      && name in r.value.overrides.values
      && forall n :: OverrideFor(f, r.value, n)
           == if f.key(n) == f.key(name) then Some(Set(value)) else OverrideFor(f, spec, n)
    ensures r.Success? && ValidOverrides(spec.overrides.values) ==> ValidOverrides(r.value.overrides.values)
  {
    var checked := ValidateName(name);
    if checked.Fail? {
      return Failure(checked.error);
    }
    if '\0' in value {
      return Failure(ValueContainsNul);
    }
    var overrides := Put(f, spec.overrides, name, Set(value));
    return Success(spec.(overrides := overrides));
  }

  /** Removes one variable, in the same way. */
  method WithoutVar(f: Folding, spec: Spec, name: Name) returns (r: Result<Spec, NameError>)
    requires Exact(f, spec.overrides)
    ensures r.Success? <==> ValidEntry(name, "")
    ensures r.Failure? ==> ValidateEntry(name, "") == Fail(r.error)
    ensures r.Success? ==>
      && Exact(f, r.value.overrides) && r.value.base == spec.base && r.value.filters == spec.filters
      && name in r.value.overrides.values
      && forall n :: OverrideFor(f, r.value, n)
           == if f.key(n) == f.key(name) then Some(Remove) else OverrideFor(f, spec, n)
    ensures r.Success? && ValidOverrides(spec.overrides.values) ==> ValidOverrides(r.value.overrides.values)
  {
    var checked := ValidateName(name);
    if checked.Fail? {
      return Failure(checked.error);
    }
    var overrides := Put(f, spec.overrides, name, Remove);
    return Success(spec.(overrides := overrides));
  }

  // ----- what a specification means -----

  predicate Matched(filters: seq<Filter>, includes: bool, name: Name) {
    exists i :: 0 <= i < |filters| && filters[i].includes == includes && filters[i].matches(name)
  }

  predicate HasInclude(filters: seq<Filter>) {
    exists i :: 0 <= i < |filters| && filters[i].includes
  }

  /** An inherited variable survives exclusion. */
  predicate Inherits(f: Folding, filters: seq<Filter>, name: Name) {
    filters == [] || (f.text(name) && !Matched(filters, false, name))
  }

  /** Any variable survives the final selection. */
  predicate Selected(f: Folding, filters: seq<Filter>, name: Name) {
    if HasInclude(filters) then f.text(name) && Matched(filters, true, name) else filters == [] || f.text(name)
  }

  ghost predicate Overridden(f: Folding, overrides: map<Name, Override>, name: Name) {
    exists o :: o in overrides && f.key(o) == f.key(name)
  }

  /** The value of a variable after exclusion and overrides, if it has one. */
  ghost function Effective(f: Folding, filters: seq<Filter>, overrides: map<Name, Override>, input: map<Name, Value>,
                           name: Name): (r: Option<Value>)
  {
    if name in overrides && overrides[name].Set? then Some(overrides[name].value)
    else if name in input && Inherits(f, filters, name) && !Overridden(f, overrides, name) then Some(input[name])
    else None
  }

  /** `output` is the meaning of the specification: exclusion, then overrides, then selection, of each name by itself. */
  ghost predicate Means(f: Folding, spec: Spec, input: map<Name, Value>, output: map<Name, Value>) {
    forall n :: Lookup(output, n) == Meaning(f, spec, input, n)
  }

  function Lookup(variables: map<Name, Value>, name: Name): (r: Option<Value>) {
    if name in variables then Some(variables[name]) else None
  }

  ghost function Meaning(f: Folding, spec: Spec, input: map<Name, Value>, name: Name): (r: Option<Value>) {
    if Selected(f, spec.filters, name) then Effective(f, spec.filters, spec.overrides.values, input, name) else None
  }

  lemma MeaningIsUnique(f: Folding, spec: Spec, input: map<Name, Value>, left: map<Name, Value>, right: map<Name, Value>)
    requires Means(f, spec, input, left) && Means(f, spec, input, right)
    ensures left == right
  {
    hide Meaning;
    forall n | n in left ensures n in right && left[n] == right[n] {
      assert Lookup(left, n) == Lookup(right, n);
    }
    forall n | n in right ensures n in left {
      assert Lookup(left, n) == Lookup(right, n);
    }
  }

  // ----- what filters do -----

  /** Filter `i` is one to include, or to exclude, and matches the name. */
  predicate Hits(filters: seq<Filter>, i: nat, includes: bool, name: Name) {
    i < |filters| && filters[i].includes == includes && filters[i].matches(name)
  }

  predicate Includes(filters: seq<Filter>, i: nat) { i < |filters| && filters[i].includes }

  /** No filter to include, or one of them matches. */
  ghost predicate Listed(filters: seq<Filter>, name: Name) {
    (forall i: nat :: !Includes(filters, i)) || exists i: nat :: Hits(filters, i, true, name)
  }

  ghost predicate Unhit(filters: seq<Filter>, name: Name) {
    forall i: nat :: !Hits(filters, i, false, name)
  }

  /** Of any meaning of a specification: a name that is no text passes no filters at all; a name that some filter excludes
      passes only where it is set outright; one that no filter to include lists never passes; and any other name
      passes, with the value it is set to or, where nothing overrides it, the one it came with. */
  lemma FiltersDecide(f: Folding, spec: Spec, input: map<Name, Value>, output: map<Name, Value>, name: Name)
    requires Means(f, spec, input, output)
    ensures spec.filters != [] && !f.text(name) ==> name !in output
    ensures (exists i: nat :: Hits(spec.filters, i, false, name)) && name in output ==>
      name in spec.overrides.values && spec.overrides.values[name] == Set(output[name])
    ensures !Listed(spec.filters, name) ==> name !in output
    ensures (spec.filters == [] || f.text(name)) && Listed(spec.filters, name) ==>
      forall value ::
        name in spec.overrides.values && spec.overrides.values[name] == Set(value) ==> name in output && output[name] == value
    ensures (spec.filters == [] || f.text(name)) && Listed(spec.filters, name) && Unhit(spec.filters, name) ==>
      (name in input && !Overridden(f, spec.overrides.values, name) ==> name in output && output[name] == input[name])
    ensures Overridden(f, spec.overrides.values, name) && name in output ==>
      name in spec.overrides.values && spec.overrides.values[name] == Set(output[name])
  {
    assert Lookup(output, name) == Meaning(f, spec, input, name);
    var filters := spec.filters;
    forall includes ensures Matched(filters, includes, name) <==> exists i: nat :: Hits(filters, i, includes, name) {
      if i :| 0 <= i < |filters| && filters[i].includes == includes && filters[i].matches(name) {
        assert Hits(filters, i, includes, name);
      }
    }
    assert HasInclude(filters) <==> exists i: nat :: Includes(filters, i) by {
      if i :| 0 <= i < |filters| && filters[i].includes {
        assert Includes(filters, i);
      }
    }
    assert filters == [] ==> forall i: nat :: !Includes(filters, i);
  }

  // ----- application -----

  lemma LoadStep(f: Folding, input: map<Name, Value>, rest: set<Name>, name: Name, before: map<Name, Value>)
    requires UniqueKeys(f, input) && name in rest && name in input
    requires before == map n | n in input && n !in rest :: input[n]
    ensures (map n | n in before && f.key(n) != f.key(name) :: before[n])[name := input[name]]
         == map n | n in input && n !in rest - {name} :: input[n]
  {
  }

  /** The variables in whatever order the platform lists them, entered one by one. */
  method Load(f: Folding, input: map<Name, Value>) returns (t: Table<Value>)
    requires UniqueKeys(f, input)
    ensures Covers(f, t) && t.values == input
  {
    t := Table(map[], map[]);
    var rest := input.Keys;
    while rest != {}
      invariant rest <= input.Keys && Covers(f, t)
      invariant t.values == map n | n in input && n !in rest :: input[n]
      decreases rest
    {
      var name :| name in rest;
      LoadStep(f, input, rest, name, t.values);
      hide UniqueKeys, Covers;
      t := Put(f, t, name, input[name]);
      rest := rest - {name};
    }
  }

  ghost function Restrict(overrides: map<Name, Override>, rest: set<Name>): (r: map<Name, Override>) {
    map n | n in overrides && n !in rest :: overrides[n]
  }

  /** The table after exclusion and some of the overrides. */
  ghost predicate Holds(f: Folding, filters: seq<Filter>, overrides: map<Name, Override>, input: map<Name, Value>,
                        values: map<Name, Value>) {
    forall n :: Lookup(values, n) == Effective(f, filters, overrides, input, n)
  }

  lemma HoldsStep(f: Folding, filters: seq<Filter>, overrides: map<Name, Override>, rest: set<Name>, o: Name,
                  input: map<Name, Value>, before: map<Name, Value>, after: map<Name, Value>)
    requires UniqueKeys(f, overrides) && o in overrides && o in rest
    requires Holds(f, filters, Restrict(overrides, rest), input, before)
    requires var kept := map n | n in before && f.key(n) != f.key(o) :: before[n];
      after == if overrides[o].Set? then kept[o := overrides[o].value] else kept
    ensures Holds(f, filters, Restrict(overrides, rest - {o}), input, after)
  {
    hide Inherits;
    var fewer, more := Restrict(overrides, rest), Restrict(overrides, rest - {o});
    forall n ensures Lookup(after, n) == Effective(f, filters, more, input, n) {
      assert Lookup(before, n) == Effective(f, filters, fewer, input, n);
      assert o in more;
      if n == o {
        assert Overridden(f, more, n);
      } else if f.key(n) == f.key(o) {
        assert n !in overrides;
        assert Overridden(f, more, n);
      } else {
        assert Overridden(f, more, n) <==> Overridden(f, fewer, n) by {
          if Overridden(f, more, n) {
            var p :| p in more && f.key(p) == f.key(n);
            assert p in fewer;
          }
          if Overridden(f, fewer, n) {
            var p :| p in fewer && f.key(p) == f.key(n);
            assert p in more;
          }
        }
      }
    }
  }

  /** Applies overrides in any order; the index may be stale on entry. */
  method ApplyOverrides(f: Folding, ghost filters: seq<Filter>, ghost input: map<Name, Value>,
                        overrides: map<Name, Override>, t: Table<Value>) returns (r: Table<Value>)
    requires Covers(f, t) && UniqueKeys(f, overrides)
    requires Holds(f, filters, map[], input, t.values)
    ensures Covers(f, r) && Holds(f, filters, overrides, input, r.values)
  {
    hide Inherits;
    r := t;
    var rest := overrides.Keys;
    assert Restrict(overrides, rest) == map[];
    while rest != {}
      invariant rest <= overrides.Keys && Covers(f, r)
      invariant Holds(f, filters, Restrict(overrides, rest), input, r.values)
      decreases rest
    {
      hide Holds;
      var o :| o in rest;
      ghost var before := r.values;
      match overrides[o] {
        case Set(value) => r := Put(f, r, o, value);
        case Remove => r := RemoveName(f, r, o);
      }
      HoldsStep(f, filters, overrides, rest, o, input, before, r.values);
      rest := rest - {o};
    }
    assert Restrict(overrides, {}) == overrides;
  }

  lemma RetainedCovers(f: Folding, t: Table<Value>, kept: map<Name, Value>)
    requires Covers(f, t) && forall n :: n in kept ==> n in t.values
    ensures Covers(f, Table(kept, t.names))
  {
  }

  lemma ExclusionHolds(f: Folding, filters: seq<Filter>, input: map<Name, Value>, kept: map<Name, Value>)
    requires kept == map n | n in input && Inherits(f, filters, n) :: input[n]
    ensures Holds(f, filters, map[], input, kept)
  {
    hide Inherits;
  }

  lemma SelectionMeans(f: Folding, spec: Spec, input: map<Name, Value>, values: map<Name, Value>, output: map<Name, Value>)
    requires Holds(f, spec.filters, spec.overrides.values, input, values)
    requires output == map n | n in values && Selected(f, spec.filters, n) :: values[n]
    ensures Means(f, spec, input, output)
  {
    hide Selected, Effective;
  }

  datatype BaseError = BaseTooPermissive(required: Base, supplied: Base)

  /** Succeeds exactly on a base the specification admits, keeps that base, and yields the meaning
      of the specification with at most one variable per folded name. */
  method ApplyTo(f: Folding, spec: Spec, input: Input) returns (r: Result<Input, BaseError>)
    requires Exact(f, spec.overrides) && UniqueKeys(f, input.variables)
    ensures r.Success? <==> Rank(input.base) <= Rank(spec.base)
    ensures r.Failure? ==> r.error == BaseTooPermissive(spec.base, input.base)
    ensures r.Success? ==> r.value.base == input.base
    ensures r.Success? ==> Means(f, spec, input.variables, r.value.variables)
    ensures r.Success? ==> UniqueKeys(f, r.value.variables)
  {
    if !BaseIsAtMost(input.base, spec.base) {
      return Failure(BaseTooPermissive(spec.base, input.base));
    }
    hide Inherits, Selected, Means, Holds;
    var t := Load(f, input.variables);
    var kept := map n | n in t.values && Inherits(f, spec.filters, n) :: t.values[n];
    RetainedCovers(f, t, kept);
    ExclusionHolds(f, spec.filters, input.variables, kept);
    CoveredIsUnique(f, spec.overrides);
    var o := ApplyOverrides(f, spec.filters, input.variables, spec.overrides.values, Table(kept, t.names));
    var output := map n | n in o.values && Selected(f, spec.filters, n) :: o.values[n];
    SelectionMeans(f, spec, input.variables, o.values, output);
    RetainedCovers(f, o, output);
    CoveredIsUnique(f, Table(output, o.names));
    return Success(Input(input.base, output));
  }

  // ----- two composed specifications -----

  function LeastPermissive(left: Base, right: Base): (r: Base)
    ensures Rank(r) == if Rank(left) <= Rank(right) then Rank(left) else Rank(right)
  {
    if left.NoBase? || right.NoBase? then NoBase
    else if left.Core? || right.Core? then Core
    else All
  }

  ghost predicate SomeFoldsLike(f: Folding, variables: map<Name, Value>, name: Name) {
    exists n :: n in variables && f.key(n) == f.key(name)
  }

  method FoldedNames(f: Folding, variables: map<Name, Value>) returns (r: set<Key>)
    ensures forall name :: f.key(name) in r <==> SomeFoldsLike(f, variables, name)
  {
    r := set n | n in variables :: f.key(n);
    forall name ensures f.key(name) in r <==> SomeFoldsLike(f, variables, name) {
    }
  }

  /** The requested specification yields some variable that folds like the name. */
  ghost predicate Yields(f: Folding, requested: Spec, input: map<Name, Value>, name: Name) {
    exists n :: f.key(n) == f.key(name) && Meaning(f, requested, input, n).Some?
  }

  /** The composed value of one name, from the two specifications and the input alone: the ceiling selects among names
      the request yields; it may set them, remove them or exclude them; the rest keep their requested value. */
  ghost function Composed(f: Folding, requested: Spec, ceiling: Spec, input: map<Name, Value>, name: Name)
    : (r: Option<Value>)
  {
    var overrides := ceiling.overrides.values;
    if !Selected(f, ceiling.filters, name) || !Yields(f, requested, input, name) then None
    else if name in overrides && overrides[name].Set? then Some(overrides[name].value)
    else if Overridden(f, overrides, name) || !Inherits(f, ceiling.filters, name) then None
    else Meaning(f, requested, input, name)
  }

  ghost predicate Composes(f: Folding, requested: Spec, ceiling: Spec, input: map<Name, Value>, output: map<Name, Value>) {
    forall n :: Lookup(output, n) == Composed(f, requested, ceiling, input, n)
  }

  lemma YieldsIsFolded(f: Folding, requested: Spec, input: map<Name, Value>, inner: map<Name, Value>, name: Name)
    requires Means(f, requested, input, inner)
    ensures Yields(f, requested, input, name) <==> SomeFoldsLike(f, inner, name)
  {
    hide Meaning;
    if Yields(f, requested, input, name) {
      var n :| f.key(n) == f.key(name) && Meaning(f, requested, input, n).Some?;
      assert Lookup(inner, n).Some?;
    }
    if SomeFoldsLike(f, inner, name) {
      var n :| n in inner && f.key(n) == f.key(name);
      assert Lookup(inner, n).Some?;
    }
  }

  /** Applying one specification after the other and keeping the requested names is the composed value of each name. */
  lemma TwoStepsCompose(f: Folding, requested: Spec, ceiling: Spec, input: map<Name, Value>,
                        inner: map<Name, Value>, outer: map<Name, Value>, output: map<Name, Value>)
    requires Means(f, requested, input, inner) && Means(f, ceiling, inner, outer)
    requires output == map n | n in outer && SomeFoldsLike(f, inner, n) :: outer[n]
    ensures Composes(f, requested, ceiling, input, output)
  {
    hide Selected, Inherits, Overridden, SomeFoldsLike, Yields;
    forall n ensures Lookup(output, n) == Composed(f, requested, ceiling, input, n) {
      YieldsIsFolded(f, requested, input, inner, n);
      assert Lookup(inner, n) == Meaning(f, requested, input, n);
      assert Lookup(outer, n) == Meaning(f, ceiling, inner, n);
      SetIsOverridden(f, ceiling.overrides.values, n);
    }
  }

  lemma SetIsOverridden(f: Folding, overrides: map<Name, Override>, name: Name)
    ensures name in overrides ==> Overridden(f, overrides, name)
  {
  }

  /** Applies both specifications; it succeeds exactly when the base is at most the least permissive of the two. */
  method ApplyComposed(f: Folding, requested: Spec, ceiling: Spec, input: Input)
    returns (r: Result<map<Name, Value>, BaseError>)
    requires Exact(f, requested.overrides) && Exact(f, ceiling.overrides) && UniqueKeys(f, input.variables)
    ensures r.Success? <==> Rank(input.base) <= Rank(LeastPermissive(requested.base, ceiling.base))
    ensures r.Failure? ==> r.error == BaseTooPermissive(LeastPermissive(requested.base, ceiling.base), input.base)
    ensures r.Success? ==> Composes(f, requested, ceiling, input.variables, r.value)
    ensures r.Success? ==> UniqueKeys(f, r.value)
  {
    hide Means, Composes;
    var base := LeastPermissive(requested.base, ceiling.base);
    if !BaseIsAtMost(input.base, base) {
      return Failure(BaseTooPermissive(base, input.base));
    }
    var first := ApplyTo(f, requested, input);        // cannot fail: the base was checked above
    var inner := first.value;
    var names := FoldedNames(f, inner.variables);
    var second := ApplyTo(f, ceiling, inner);         // nor can this, for the base is kept
    var outer := second.value;
    var output := map n | n in outer.variables && f.key(n) in names :: outer.variables[n];
    assert output == map n | n in outer.variables && SomeFoldsLike(f, inner.variables, n) :: outer.variables[n];
    TwoStepsCompose(f, requested, ceiling, input.variables, inner.variables, outer.variables, output);
    return Success(output);
  }

  /** A composed result names only what the requested specification alone yields, up to folding, and where the ceiling
      does not set the name itself, with the very spelling and value it has there. */
  lemma CompositionAddsNothing(f: Folding, requested: Spec, ceiling: Spec, input: map<Name, Value>,
                               inner: map<Name, Value>, output: map<Name, Value>, name: Name)
    requires Composes(f, requested, ceiling, input, output) && Means(f, requested, input, inner) && name in output
    ensures SomeFoldsLike(f, inner, name)
    ensures (name in inner && output[name] == inner[name])
         || (name in ceiling.overrides.values && ceiling.overrides.values[name] == Set(output[name]))
  {
    hide Selected, Inherits, Overridden, SomeFoldsLike, Yields, Meaning;
    YieldsIsFolded(f, requested, input, inner, name);
    assert Lookup(output, name) == Composed(f, requested, ceiling, input, name);
    assert Lookup(inner, name) == Meaning(f, requested, input, name);
  }

  /** A variable the ceiling does not override passes unchanged exactly when the ceiling's filters let it. */
  lemma CompositionKeeps(f: Folding, requested: Spec, ceiling: Spec, input: map<Name, Value>,
                         inner: map<Name, Value>, output: map<Name, Value>, name: Name)
    requires Composes(f, requested, ceiling, input, output) && Means(f, requested, input, inner) && name in inner
    requires !Overridden(f, ceiling.overrides.values, name)
    ensures name in output <==> Inherits(f, ceiling.filters, name) && Selected(f, ceiling.filters, name)
    ensures name in output ==> output[name] == inner[name]
  {
    hide Selected, Inherits, Yields, Meaning, Overridden;
    YieldsIsFolded(f, requested, input, inner, name);
    assert SomeFoldsLike(f, inner, name);
    SetIsOverridden(f, ceiling.overrides.values, name);
    assert Lookup(output, name) == Composed(f, requested, ceiling, input, name);
    assert Lookup(inner, name) == Meaning(f, requested, input, name);
  }

  /** What the ceiling removes is gone under every spelling, whatever the request says; what it sets is set under its own
      spelling alone, exactly when the request yields the name in some spelling and the ceiling selects it. */
  lemma CeilingDecides(f: Folding, requested: Spec, ceiling: Spec, input: map<Name, Value>, output: map<Name, Value>,
                       name: Name, given: Name)
    requires Composes(f, requested, ceiling, input, output) && Exact(f, ceiling.overrides)
    requires given in ceiling.overrides.values && f.key(given) == f.key(name)
    ensures ceiling.overrides.values[given].Remove? ==> name !in output
    ensures ceiling.overrides.values[given].Set? ==>
      (name in output <==>
         name == given && Selected(f, ceiling.filters, name) && Yields(f, requested, input, name))
    ensures name in output ==> ceiling.overrides.values[given] == Set(output[name])
  {
    hide Selected, Inherits, Yields, Meaning;
    assert Overridden(f, ceiling.overrides.values, name);
    assert Lookup(output, name) == Composed(f, requested, ceiling, input, name);
  }

  // ----- validity is kept -----

  predicate ValidVariables(variables: map<Name, Value>) {
    forall n :: n in variables ==> ValidEntry(n, variables[n])
  }

  predicate ValidOverrides(overrides: map<Name, Override>) {
    forall n :: n in overrides && overrides[n].Set? ==> ValidEntry(n, overrides[n].value)
  }

  /** What is collected from valid entries is valid. */
  lemma CollectedIsValid(f: Folding, entries: seq<(Name, Value)>, variables: map<Name, Value>)
    requires AllValid(entries, |entries|) && Collects(f, entries, variables)
    ensures ValidVariables(variables)
  {
    forall n | n in variables ensures ValidEntry(n, variables[n]) {
      assert SurvivesAs(f, entries, n, variables[n]);
    }
  }

  /** Valid inputs and overrides compose to valid variables. */
  lemma ComposedIsValid(f: Folding, requested: Spec, ceiling: Spec, input: map<Name, Value>, output: map<Name, Value>)
    requires Composes(f, requested, ceiling, input, output) && ValidVariables(input)
    requires ValidOverrides(requested.overrides.values) && ValidOverrides(ceiling.overrides.values)
    ensures ValidVariables(output)
  {
    hide Selected, Inherits, Yields, Overridden, ValidEntry;
    forall n | n in output ensures ValidEntry(n, output[n]) {
      assert Lookup(output, n) == Composed(f, requested, ceiling, input, n);
    }
  }
}
