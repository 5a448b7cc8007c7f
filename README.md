# Liqp filter and tag registries, in Dafny

This project models the extension core of Liqp, a Java interpreter for
Shopify's Liquid template language:

- `liqp.filters.Filter` — a filter is a named transformation in an output pipe
  (`{{ 'AAA' | f:1,2,3 }}`). Each thread has a map from name to filter, seeded
  with the 29 standard filters. `getFilter` looks a name up and fails on a
  miss. `registerFilter` puts a filter under its name, replacing any filter
  already there. The helpers `checkParams` (an arity check) and `get`
  (bounds-checked parameter access) are modelled too.
- `liqp.tags.Tag` — the same registry shape for tags, seeded with the 11
  standard tags (`getTag`, `registerTag`). Also the `Statement` enum
  `{BREAK, CONTINUE}`, whose text form is the empty string.

Files:

- `results.dfy` — `Option`, `Result` and `Outcome`. These stand in for the
  source's unchecked exceptions.
- `names.dfy` — ASCII lower-casing. The no-argument constructors use it to
  name an extension after its class.
- `registry.dfy` — the part both registries share. `PutAll(m, xs, key)` is the
  map left by putting each element of `xs` under its key, in order. Its
  lemmas cover the domain, last-put-wins, untouched keys, and splitting a
  history into seeding followed by registrations.
- `filters.dfy` — the `Filter` datatype with `CheckParams` and `Get`, the
  standard list, the seeding loop `InitialValue`, and the class
  `FilterRegistry`.
- `tags.dfy` — `Statement`, the `Tag` datatype, the standard list, the seeding
  loop, and the class `TagRegistry`.

How the model is built:

- Filters and tags are values `Filter(impl, name)` and `Tag(impl, name)`.
  `impl` is the simple name of the implementing class. It stands for the
  class's `apply` or `render` method, which is not modelled.
- The explicit-name Java constructors `Filter(String)` and `Tag(String)` are
  `Named`: the name is kept exactly as given.
- The no-argument constructors are `OfClass`: the name is the class name,
  lower-cased.
- The per-thread map (the `ThreadLocal`'s value on one thread) is an object of
  `FilterRegistry` or `TagRegistry`. Its constructor is the thread-local's
  first use, which runs `initialValue`.
- Each registry keeps a ghost history, `registered`, of its registrations. Its
  invariant `Valid()` says the map is exactly what seeding followed by those
  registrations, in order, puts.
- Java `int` is the subset type `Int32`. The `+ 1` in the arity message wraps
  around as Java's does.

`standardFiltersList` (Filter.java:23-53) has 29 entries and `STANDARD_TAGS`
(Tag.java:24-36) has 11.

## Model

| member | source | states |
|---|---|---|
| `Names.LowerCase` | src/main/java/liqp/filters/Filter.java:82 | `toLowerCase()` on ASCII: the result has the same length as the class name; what happens to each character is stated by `Names.LowerCaseSpec` |
| `Names.LowerCaseSpec` | src/main/java/liqp/filters/Filter.java:81-83 | lower-casing a class name keeps its length, turns each upper-case letter into its own lower-case letter (code + 32), changes no other character, leaves no upper-case letter, and leaves a lower-case name unchanged |
| `Names.LowerCaseIdempotent` | src/main/java/liqp/tags/Tag.java:61-63 | lower-casing an already derived name changes nothing |
| `Registry.PutAll` | src/main/java/liqp/filters/Filter.java:64-67 | the map left by a run of `put(key(x), x)` calls in order; a put never removes a name that was already there |
| `Registry.PutAllKeys` | src/main/java/liqp/filters/Filter.java:64-67 | after a sequence of puts, the domain is the old domain plus the key of every put, and nothing else |
| `Registry.PutAllKeyed` | src/main/java/liqp/filters/Filter.java:66 | putting each value under its own name keeps every entry stored under its own name |
| `Registry.PutAllLastWins` | src/main/java/liqp/filters/Filter.java:170-172 | the value under a name is the last value put under that name |
| `Registry.PutAllUntouched` | src/main/java/liqp/tags/Tag.java:100-102 | a name that no put uses keeps its old mapping, or stays absent |
| `Registry.PutAllAppend` | src/main/java/liqp/filters/Filter.java:58-70 | seeding and then registering equals one run of puts over the concatenated list |
| `Registry.SameKeyLastWins` | src/main/java/liqp/filters/Filter.java:171 | of two puts under one name only the second is visible, so putting the same value twice equals putting it once |
| `Registry.DistinctAllFound` | src/main/java/liqp/tags/Tag.java:45-47 | when names are distinct, every seeded value is found under its own name |
| `Registry.SeededFromDistinct` | src/main/java/liqp/tags/Tag.java:43-49 | seeding an empty map from a list with distinct names gives exactly those names as the domain, each element under its own name |
| `Filters.AddInt32` | src/main/java/liqp/filters/Filter.java:118 | Java `int` addition equals the exact sum when that sum fits, and otherwise agrees with it modulo 2^32 |
| `Filters.Filter.CheckParams` | src/main/java/liqp/filters/Filter.java:115-120 | passes if and only if the parameter count equals `expected`; on failure it reports count+1 for expected+1 (the left-hand value counts as an argument), and the +1 wraps at `Integer.MAX_VALUE` |
| `Filters.CheckParamsReportsPlusOne` | src/main/java/liqp/filters/Filter.java:117-118 | two parameters where three are expected are reported as "3 for 4" |
| `Filters.Filter.Get` | src/main/java/liqp/filters/Filter.java:134-143 | succeeds if and only if 0 <= index < count, with `params[index]`; an index past the end fails with an error naming the filter, the index and the parameters; a negative index passes the guard and fails at the array access |
| `Filters.CheckedParamsAreReadable` | src/main/java/liqp/filters/Filter.java:115-143 | after `checkParams(params, k)` passes, `get(i)` succeeds for every i < k and fails for i = k |
| `Filters.Named` | src/main/java/liqp/filters/Filter.java:91-93 | the explicit-name constructor keeps the given name unchanged, whatever the class |
| `Filters.OfClass` | src/main/java/liqp/filters/Filter.java:81-83 | the no-argument constructor names the filter after its class, lower-cased |
| `Filters.StandardFilters` | src/main/java/liqp/filters/Filter.java:23-53 | the standard list holds one no-argument instance of each of the 29 standard classes, in source order |
| `Filters.StandardFilterNamesDerived` | src/main/java/liqp/filters/Filter.java:23-53 | the derived names of the standard classes are append, capitalize, …, upcase (for example `Divided_By` becomes `divided_by` and `Upcase` becomes `upcase`) |
| `Filters.StandardFilterNamesDistinct` | src/main/java/liqp/filters/Filter.java:23-53 | no two standard filters share a name |
| `Filters.InitialValue` | src/main/java/liqp/filters/Filter.java:62-69 | the seeding loop gives a map whose domain is exactly the 29 standard names, with each standard filter under its own name |
| `Filters.FilterRegistry.constructor` | src/main/java/liqp/filters/Filter.java:58-70 | a thread's first map is the seeded map, with an empty registration history |
| `Filters.FilterRegistry.GetFilter` | src/main/java/liqp/filters/Filter.java:153-162 | returns the filter mapped to the name, and that filter carries the name; a miss fails with `UnknownFilter(name)`, with no fallback |
| `Filters.FilterRegistry.RegisterFilter` | src/main/java/liqp/filters/Filter.java:170-172 | afterwards `GetFilter(f.name)` returns `f`, every other name resolves as before, and the domain grows by at most `f.name` |
| `Filters.FilterDomain` | src/main/java/liqp/filters/Filter.java:153-172 | a name resolves if and only if it is a standard name or was registered |
| `Filters.LastFilterRegistrationWins` | src/main/java/liqp/filters/Filter.java:170-172 | after any history of registrations, a name resolves to the last filter registered under it |
| `Filters.StandardFilterFound` | src/main/java/liqp/filters/Filter.java:62-69 | a standard filter is found under its name until a filter of that name is registered |
| `Filters.NonexistentFilterUnknown` | src/main/java/liqp/filters/Filter.java:153-162 | on a fresh thread `getFilter("__nonexistent__")` fails with `UnknownFilter` |
| `Tags.Statement.ToString` | src/main/java/liqp/tags/Tag.java:18-21 | both sentinels print as the empty string |
| `Tags.StatementsPrintAlike` | src/main/java/liqp/tags/Tag.java:14-22 | the enum has exactly the two values `Break` and `Continue`; they are different values that print the same |
| `Tags.Named` | src/main/java/liqp/tags/Tag.java:71-73 | the explicit-name constructor keeps the given name unchanged, whatever the class |
| `Tags.OfClass` | src/main/java/liqp/tags/Tag.java:61-63 | the no-argument constructor names the tag after its class, lower-cased |
| `Tags.StandardTags` | src/main/java/liqp/tags/Tag.java:24-36 | the standard list holds one no-argument instance of each of the 11 standard classes, in source order |
| `Tags.StandardTagNamesDerived` | src/main/java/liqp/tags/Tag.java:24-36 | the derived names are assign, case, capture, comment, cycle, for, if, include, raw, tablerow, unless |
| `Tags.StandardTagNamesDistinct` | src/main/java/liqp/tags/Tag.java:24-36 | no two standard tags share a name |
| `Tags.InitialValue` | src/main/java/liqp/tags/Tag.java:43-49 | the seeding loop gives a map whose domain is exactly the 11 standard names, with each standard tag under its own name |
| `Tags.TagRegistry.constructor` | src/main/java/liqp/tags/Tag.java:41-50 | a thread's first map is the seeded map, with an empty registration history |
| `Tags.TagRegistry.GetTag` | src/main/java/liqp/tags/Tag.java:83-92 | returns the tag mapped to the name, and that tag carries the name; a miss fails with `UnknownTag(name)` |
| `Tags.TagRegistry.RegisterTag` | src/main/java/liqp/tags/Tag.java:100-102 | afterwards `GetTag(t.name)` returns `t`, every other name resolves as before, and the domain grows by at most `t.name` |
| `Tags.TagDomain` | src/main/java/liqp/tags/Tag.java:83-102 | a name resolves if and only if it is a standard name or was registered |
| `Tags.LastTagRegistrationWins` | src/main/java/liqp/tags/Tag.java:100-102 | after any history of registrations, a name resolves to the last tag registered under it |
| `Tags.StandardTagFound` | src/main/java/liqp/tags/Tag.java:43-49 | a standard tag is found under its name until a tag of that name is registered |

## Left out

- Thread isolation (`ThreadLocal`): each thread's map is a separate registry object. Isolation is then the fact that `RegisterFilter` and `RegisterTag` modify only their own object.
- `ConcurrentHashMap` versus `HashMap`: this matters only for concurrent or reentrant access. One consequence is also left out: a `null` name would throw in the filter map but is a valid key in the tag map. Names are non-null strings here.
- `apply` and `render`, and so the concrete filters and tags and the Break/Continue propagation they carry out: `impl` stands for the implementing class, and its behaviour is not modelled.
- `LValue`, the base class of both, and `LNode`, the tree the tags render: external collaborators.
- `String.toLowerCase` is modelled for ASCII letters only. Locale-specific and non-ASCII case mappings are not modelled.
- Error messages are modelled as error values that carry the names and numbers the message reports. The exact text, including `Arrays.toString` of the parameters, is not modelled.
- `Filters.Filter.CheckParams`, `Filters.Filter.Get`: a `null` parameter array is not modelled. `checkParams` dereferences it while building its message and `get` reads its length in the guard, so both would throw `NullPointerException`. Parameters are a non-null sequence whose length fits in a Java `int`.
- Class names of anonymous subclasses (Java gives them an empty simple name) are not distinguished from other class names. `impl` is just a string.
