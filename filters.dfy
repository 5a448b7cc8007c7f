/** Filters (liqp.filters.Filter): named transformations applied in an output
    pipe, the per-thread registry that maps names to filters, and the two
    parameter helpers every filter uses. */
module Filters {
  import opened Results
  import opened Names
  import Registry

  /** A Java `int`. */
  type Int32 = x: int | -0x8000_0000 <= x < 0x8000_0000

  /** Java's `int` addition, which wraps around modulo 2^32. */
  function AddInt32(a: Int32, b: Int32): (r: Int32)
    ensures -0x8000_0000 <= a + b < 0x8000_0000 ==> r == a + b
    ensures (r - (a + b)) % 0x1_0000_0000 == 0
  {
    var s := a + b;
    if s >= 0x8000_0000 then s - 0x1_0000_0000
    else if s < -0x8000_0000 then s + 0x1_0000_0000
    else s
  }

  /** The exception `checkParams` throws:
      "Liquid error: wrong number of arguments (<given> for <expected>)". */
  datatype ArityError = WrongArgumentCount(given: Int32, expected: Int32)

  /** The exceptions `get` raises: its own message
      "error in filter '<filter>': cannot get param index: <index> from: <params>",
      or the array access's own exception for a negative index. */
  datatype ParamError<V> =
    | CannotGetParam(filter: string, index: Int32, params: seq<V>)
    | IndexOutOfBounds(index: Int32)

  /** The exception `getFilter` throws: "unknown filter: <name>". */
  datatype LookupError = UnknownFilter(name: string)

  /** A filter. `impl` names the class whose `apply` the filter runs. */
  datatype Filter = Filter(impl: ClassName, name: string) {

    /** `checkParams`: passes exactly when there are `expected` parameters.
        The error reports both counts plus one, because the left-hand value
        counts as the filter's first argument. */
    function CheckParams<V>(params: seq<V>, expected: Int32): (r: Outcome<ArityError>)
      requires |params| < 0x8000_0000
      ensures r.Pass? <==> |params| == expected
      ensures r.Fail? && |params| < 0x7fff_ffff ==> r.error.given == |params| + 1
      ensures r.Fail? && |params| == 0x7fff_ffff ==> r.error.given == -0x8000_0000
      ensures r.Fail? && expected < 0x7fff_ffff ==> r.error.expected == expected + 1
      ensures r.Fail? && expected == 0x7fff_ffff ==> r.error.expected == -0x8000_0000
    {
      if |params| != expected then
        Fail(WrongArgumentCount(AddInt32(|params|, 1), AddInt32(expected, 1)))
      else
        Pass
    }

    /** `get`: the parameter at `index`. An index past the end fails with a
        message naming this filter, the index and the parameters; a negative
        index passes that guard and fails at the array access. */
    function Get<V>(index: Int32, params: seq<V>): (r: Result<V, ParamError<V>>)
      ensures r.Ok? <==> 0 <= index < |params|
      ensures r.Ok? ==> r.value == params[index]
      ensures index >= |params| ==> r.error == CannotGetParam(name, index, params)
      ensures index < 0 ==> r.error == IndexOutOfBounds(index)
    {
      if index >= |params| then Err(CannotGetParam(name, index, params))
      else if index < 0 then Err(IndexOutOfBounds(index))
      else Ok(params[index])
    }
  }

  /** The explicit-name constructor `Filter(String name)`: the name is kept
      exactly as given, whatever the class. */
  function Named(cls: ClassName, name: string): (f: Filter)
    ensures f.impl == cls && f.name == name
  {
    Filter(cls, name)
  }

  /** The no-argument constructor `Filter()`: the filter is named after the
      simple name of its class, lower-cased. */
  function OfClass(cls: ClassName): (f: Filter)
    ensures f.impl == cls && f.name == LowerCase(cls)
  {
    Filter(cls, LowerCase(cls))
  }

  /** The key under which the registry stores a filter. */
  function NameOf(f: Filter): string {
    f.name
  }

  /** The classes of `standardFiltersList`, in the source's order. */
  const StandardFilterClasses: seq<ClassName> :=
    [ "Append", "Capitalize", "Date", "Divided_By", "Downcase", "Escape", "Escape_Once",
      "First", "H", "Join", "Last", "Map", "Minus", "Modulo", "Plus", "Prepend", "Remove",
      "Remove_First", "Replace", "Replace_First", "Size", "Sort", "Split", "Strip_HTML",
      "Strip_Newlines", "Times", "Truncate", "Truncatewords", "Upcase" ]

  /** `standardFiltersList`: one instance of every standard filter class,
      each built by the no-argument constructor. */
  function StandardFilters(): (fs: seq<Filter>)
    ensures |fs| == |StandardFilterClasses|
    ensures forall i :: 0 <= i < |fs| ==> fs[i] == OfClass(StandardFilterClasses[i])
  {
    seq(|StandardFilterClasses|, i requires 0 <= i < |StandardFilterClasses| => OfClass(StandardFilterClasses[i]))
  }

  /** The names of the standard filters, as the template language spells them. */
  const StandardFilterNames: seq<string> :=
    [ "append", "capitalize", "date", "divided_by", "downcase", "escape", "escape_once",
      "first", "h", "join", "last", "map", "minus", "modulo", "plus", "prepend", "remove",
      "remove_first", "replace", "replace_first", "size", "sort", "split", "strip_html",
      "strip_newlines", "times", "truncate", "truncatewords", "upcase" ]

  /** The default names of the standard filter classes are the 29 standard
      filter names. */
  lemma StandardFilterNamesDerived()
    ensures Registry.Keys(StandardFilters(), NameOf) == StandardFilterNames
  {
    Registry.KeysAt(StandardFilters(), NameOf);
    StandardFilterNamesDerived0();
    StandardFilterNamesDerived1();
    StandardFilterNamesDerived2();
  }

  // The three parts of StandardFilterNamesDerived, split to keep each proof small.

  lemma StandardFilterNamesDerived0()
    ensures forall i :: 0 <= i < 10 ==> LowerCase(StandardFilterClasses[i]) == StandardFilterNames[i]
  {
  }

  lemma StandardFilterNamesDerived1()
    ensures forall i :: 10 <= i < 20 ==> LowerCase(StandardFilterClasses[i]) == StandardFilterNames[i]
  {
  }

  lemma StandardFilterNamesDerived2()
    ensures forall i :: 20 <= i < 29 ==> LowerCase(StandardFilterClasses[i]) == StandardFilterNames[i]
  {
  }

  /** No two standard filters share a name: any two of them differ in their
      length or in their first two characters. */
  lemma StandardFilterNamesDistinct()
    ensures Registry.Distinct(StandardFilterNames)
  {
    var ks := StandardFilterNames;
    forall i, j | 0 <= i < j < |ks| ensures ks[i] != ks[j] {
      assert Registry.Sketch(ks[i]) != Registry.Sketch(ks[j]);
    }
  }

  /** `initialValue`: a fresh map with every standard filter put under its
      name, in list order. */
  method InitialValue() returns (m: map<string, Filter>)
    ensures m == Registry.PutAll(map[], StandardFilters(), NameOf)
    ensures forall n :: n in m <==> n in StandardFilterNames
    ensures forall i :: 0 <= i < |StandardFilters()| ==>
              StandardFilterNames[i] in m && m[StandardFilterNames[i]] == StandardFilters()[i]
  {
    var list := StandardFilters();
    m := map[];
    for i := 0 to |list|
      invariant m == Registry.PutAll(map[], list[..i], NameOf)
    {
      assert list[..i + 1][..i] == list[..i];
      m := m[list[i].name := list[i]];
    }
    assert list[..|list|] == list;
    StandardFilterNamesDerived();
    StandardFilterNamesDistinct();
    Registry.SeededFromDistinct(list, NameOf, StandardFilterNames);
  }

  /** The filter map of one thread (the value of the `FILTERS` thread-local
      on that thread). `registered` is the history of `registerFilter` calls
      on it, oldest first. */
  class FilterRegistry {
    var filters: map<string, Filter>
    ghost var registered: seq<Filter>

    /** The map is what seeding and then every registration, in order, put. */
    ghost predicate Valid()
      reads this
    {
      filters == Registry.PutAll(map[], StandardFilters() + registered, NameOf)
    }

    /** The first use of the thread-local: the map `initialValue` builds. */
    constructor ()
      ensures Valid() && registered == []
      ensures forall n :: n in filters <==> n in StandardFilterNames
    {
      var m := InitialValue();
      filters := m;
      registered := [];
      assert StandardFilters() + [] == StandardFilters();
    }

    /** `getFilter`: the filter registered under `name`, which carries that
        name; a miss fails with "unknown filter" and there is no fallback. */
    function GetFilter(name: string): (r: Result<Filter, LookupError>)
      reads this
      requires Valid()
      ensures r.Ok? <==> name in filters
      ensures r.Ok? ==> r.value == filters[name] && r.value.name == name
      ensures r.Err? ==> r.error == UnknownFilter(name)
    {
      if name in filters then
        Registry.PutAllKeyed(map[], StandardFilters() + registered, NameOf);
        Ok(filters[name])
      else
        Err(UnknownFilter(name))
    }

    /** `registerFilter`: put `f` under its name, replacing any filter of the
        same name; every other name keeps its mapping. */
    method RegisterFilter(f: Filter)
      requires Valid()
      modifies this
      ensures Valid() && registered == old(registered) + [f]
      ensures filters == old(filters)[f.name := f]
      ensures filters.Keys == old(filters.Keys) + {f.name}
      ensures GetFilter(f.name) == Ok(f)
      ensures forall n :: n != f.name ==> GetFilter(n) == old(GetFilter(n))
    {
      filters := filters[f.name := f];
      registered := registered + [f];
      assert StandardFilters() + registered == (StandardFilters() + old(registered)) + [f];
    }
  }

  /** A registry's names are the standard names and the names registered on
      it, and no others. */
  lemma FilterDomain(reg: FilterRegistry)
    requires reg.Valid()
    ensures forall n :: reg.GetFilter(n).Ok? <==>
              n in StandardFilterNames || n in Registry.Keys(reg.registered, NameOf)
  {
    StandardFilterNamesDerived();
    Registry.PutAllKeys(map[], StandardFilters() + reg.registered, NameOf);
    assert Registry.Keys(StandardFilters() + reg.registered, NameOf)
        == StandardFilterNames + Registry.Keys(reg.registered, NameOf);
  }

  /** Last registration wins: a name resolves to the last filter registered
      under it. */
  lemma LastFilterRegistrationWins(reg: FilterRegistry, i: nat)
    requires reg.Valid()
    requires i < |reg.registered|
    requires forall j :: i < j < |reg.registered| ==> reg.registered[j].name != reg.registered[i].name
    ensures reg.GetFilter(reg.registered[i].name) == Ok(reg.registered[i])
  {
    var std := StandardFilters();
    Registry.PutAllLastWins(map[], std + reg.registered, NameOf, |std| + i);
  }

  /** A standard filter is found under its name until a filter of that name
      is registered. */
  lemma StandardFilterFound(reg: FilterRegistry, i: nat)
    requires reg.Valid()
    requires i < |StandardFilters()|
    requires forall g :: g in reg.registered ==> g.name != StandardFilterNames[i]
    ensures reg.GetFilter(StandardFilterNames[i]) == Ok(StandardFilters()[i])
  {
    var std := StandardFilters();
    var n := StandardFilterNames[i];
    StandardFilterNamesDerived();
    StandardFilterNamesDistinct();
    Registry.PutAllAppend(map[], std, reg.registered, NameOf);
    Registry.DistinctAllFound(map[], std, NameOf);
    Registry.PutAllUntouched(Registry.PutAll(map[], std, NameOf), reg.registered, NameOf, n);
  }

  /** On a fresh thread a name outside the standard set is unknown. */
  lemma NonexistentFilterUnknown(reg: FilterRegistry)
    requires reg.Valid() && reg.registered == []
    ensures reg.GetFilter("__nonexistent__") == Err(UnknownFilter("__nonexistent__"))
  {
    FilterDomain(reg);
    var ks := StandardFilterNames;
    forall i | 0 <= i < |ks| ensures ks[i] != "__nonexistent__" {
      assert Registry.Sketch(ks[i]) != Registry.Sketch("__nonexistent__");
    }
  }

  /** The arity error for two parameters where three are expected reports
      "3 for 4". */
  lemma CheckParamsReportsPlusOne(f: Filter, a: int, b: int)
    ensures f.CheckParams([a, b], 3) == Fail(WrongArgumentCount(3, 4))
  {
  }

  /** What `checkParams` lets through, `get` can read: every index below the
      expected count succeeds and the next one fails. */
  lemma CheckedParamsAreReadable<V>(f: Filter, params: seq<V>, k: Int32)
    requires |params| < 0x8000_0000
    requires f.CheckParams(params, k) == Pass
    ensures forall i: Int32 :: 0 <= i < k ==> f.Get(i, params) == Ok(params[i])
    ensures f.Get(k, params).Err?
  {
  }
}
