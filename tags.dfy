/** Tags (liqp.tags.Tag): named constructs that render a subtree of the
    template, the per-thread registry that maps names to tags, and the
    Break/Continue sentinel that loop-interrupting tags return. */
module Tags {
  import opened Results
  import opened Names
  import Registry

  /** `Tag.Statement`: the closed set of loop-interrupting sentinels. */
  datatype Statement = Break | Continue {

    /** `toString`: both sentinels print as the empty string, so neither
        can show up in rendered output. */
    function ToString(): (s: string)
      ensures |s| == 0
    {
      ""
    }
  }

  /** The two sentinels are different values with the same text: printing
      cannot tell them apart, only a comparison can. */
  lemma StatementsPrintAlike(s: Statement, t: Statement)
    ensures s.ToString() == t.ToString()
    ensures s == Break || s == Continue
    ensures Break != Continue
  {
  }

  /** The exception `getTag` throws: "unknown tag: <name>". */
  datatype LookupError = UnknownTag(name: string)

  /** A tag. `impl` names the class whose `render` the tag runs. */
  datatype Tag = Tag(impl: ClassName, name: string)

  /** The explicit-name constructor `Tag(String name)`: the name is kept
      exactly as given, whatever the class. */
  function Named(cls: ClassName, name: string): (t: Tag)
    ensures t.impl == cls && t.name == name
  {
    Tag(cls, name)
  }

  /** The no-argument constructor `Tag()`: the tag is named after the simple
      name of its class, lower-cased. */
  function OfClass(cls: ClassName): (t: Tag)
    ensures t.impl == cls && t.name == LowerCase(cls)
  {
    Tag(cls, LowerCase(cls))
  }

  /** The key under which the registry stores a tag. */
  function NameOf(t: Tag): string {
    t.name
  }

  /** The classes of `STANDARD_TAGS`, in the source's order. */
  const StandardTagClasses: seq<ClassName> :=
    [ "Assign", "Case", "Capture", "Comment", "Cycle", "For", "If", "Include", "Raw",
      "Tablerow", "Unless" ]

  /** `STANDARD_TAGS`: one instance of every standard tag class, each built
      by the no-argument constructor. */
  function StandardTags(): (ts: seq<Tag>)
    ensures |ts| == |StandardTagClasses|
    ensures forall i :: 0 <= i < |ts| ==> ts[i] == OfClass(StandardTagClasses[i])
  {
    seq(|StandardTagClasses|, i requires 0 <= i < |StandardTagClasses| => OfClass(StandardTagClasses[i]))
  }

  /** The names of the standard tags, as the template language spells them. */
  const StandardTagNames: seq<string> :=
    [ "assign", "case", "capture", "comment", "cycle", "for", "if", "include", "raw",
      "tablerow", "unless" ]

  /** The default names of the standard tag classes are the 11 standard tag
      names. */
  lemma StandardTagNamesDerived()
    ensures Registry.Keys(StandardTags(), NameOf) == StandardTagNames
  {
    Registry.KeysAt(StandardTags(), NameOf);
    assert LowerCase("Assign") == "assign";
    assert LowerCase("Case") == "case";
    assert LowerCase("Capture") == "capture";
    assert LowerCase("Comment") == "comment";
    assert LowerCase("Cycle") == "cycle";
    assert LowerCase("For") == "for";
    assert LowerCase("If") == "if";
    assert LowerCase("Include") == "include";
    assert LowerCase("Raw") == "raw";
    assert LowerCase("Tablerow") == "tablerow";
    assert LowerCase("Unless") == "unless";
  }

  /** No two standard tags share a name: any two of them differ in their
      length or in their first two characters. */
  lemma StandardTagNamesDistinct()
    ensures Registry.Distinct(StandardTagNames)
  {
    var ks := StandardTagNames;
    forall i, j | 0 <= i < j < |ks| ensures ks[i] != ks[j] {
      assert Registry.Sketch(ks[i]) != Registry.Sketch(ks[j]);
    }
  }

  /** `initialValue`: a fresh map with every standard tag put under its
      name, in list order. */
  method InitialValue() returns (m: map<string, Tag>)
    ensures m == Registry.PutAll(map[], StandardTags(), NameOf)
    ensures forall n :: n in m <==> n in StandardTagNames
    ensures forall i :: 0 <= i < |StandardTags()| ==>
              StandardTagNames[i] in m && m[StandardTagNames[i]] == StandardTags()[i]
  {
    var list := StandardTags();
    m := map[];
    for i := 0 to |list|
      invariant m == Registry.PutAll(map[], list[..i], NameOf)
    {
      assert list[..i + 1][..i] == list[..i];
      m := m[list[i].name := list[i]];
    }
    assert list[..|list|] == list;
    StandardTagNamesDerived();
    StandardTagNamesDistinct();
    Registry.SeededFromDistinct(list, NameOf, StandardTagNames);
  }

  /** The tag map of one thread (the value of the `TAGS` thread-local on
      that thread). `registered` is the history of `registerTag` calls on
      it, oldest first. */
  class TagRegistry {
    var tags: map<string, Tag>
    ghost var registered: seq<Tag>

    /** The map is what seeding and then every registration, in order, put. */
    ghost predicate Valid()
      reads this
    {
      tags == Registry.PutAll(map[], StandardTags() + registered, NameOf)
    }

    /** The first use of the thread-local: the map `initialValue` builds. */
    constructor ()
      ensures Valid() && registered == []
      ensures forall n :: n in tags <==> n in StandardTagNames
    {
      var m := InitialValue();
      tags := m;
      registered := [];
      assert StandardTags() + [] == StandardTags();
    }

    /** `getTag`: the tag registered under `name`, which carries that name;
        a miss fails with "unknown tag" and there is no fallback. */
    function GetTag(name: string): (r: Result<Tag, LookupError>)
      reads this
      requires Valid()
      ensures r.Ok? <==> name in tags
      ensures r.Ok? ==> r.value == tags[name] && r.value.name == name
      ensures r.Err? ==> r.error == UnknownTag(name)
    {
      if name in tags then
        Registry.PutAllKeyed(map[], StandardTags() + registered, NameOf);
        Ok(tags[name])
      else
        Err(UnknownTag(name))
    }

    /** `registerTag`: put `t` under its name, replacing any tag of the same
        name; every other name keeps its mapping. */
    method RegisterTag(t: Tag)
      requires Valid()
      modifies this
      ensures Valid() && registered == old(registered) + [t]
      ensures tags == old(tags)[t.name := t]
      ensures tags.Keys == old(tags.Keys) + {t.name}
      ensures GetTag(t.name) == Ok(t)
      ensures forall n :: n != t.name ==> GetTag(n) == old(GetTag(n))
    {
      tags := tags[t.name := t];
      registered := registered + [t];
      assert StandardTags() + registered == (StandardTags() + old(registered)) + [t];
    }
  }

  /** A registry's names are the standard names and the names registered on
      it, and no others. */
  lemma TagDomain(reg: TagRegistry)
    requires reg.Valid()
    ensures forall n :: reg.GetTag(n).Ok? <==>
              n in StandardTagNames || n in Registry.Keys(reg.registered, NameOf)
  {
    StandardTagNamesDerived();
    Registry.PutAllKeys(map[], StandardTags() + reg.registered, NameOf);
    assert Registry.Keys(StandardTags() + reg.registered, NameOf)
        == StandardTagNames + Registry.Keys(reg.registered, NameOf);
  }

  /** Last registration wins: a name resolves to the last tag registered
      under it. */
  lemma LastTagRegistrationWins(reg: TagRegistry, i: nat)
    requires reg.Valid()
    requires i < |reg.registered|
    requires forall j :: i < j < |reg.registered| ==> reg.registered[j].name != reg.registered[i].name
    ensures reg.GetTag(reg.registered[i].name) == Ok(reg.registered[i])
  {
    var std := StandardTags();
    Registry.PutAllLastWins(map[], std + reg.registered, NameOf, |std| + i);
  }

  /** A standard tag is found under its name until a tag of that name is
      registered. */
  lemma StandardTagFound(reg: TagRegistry, i: nat)
    requires reg.Valid()
    requires i < |StandardTags()|
    requires forall t :: t in reg.registered ==> t.name != StandardTagNames[i]
    ensures reg.GetTag(StandardTagNames[i]) == Ok(StandardTags()[i])
  {
    var std := StandardTags();
    var n := StandardTagNames[i];
    StandardTagNamesDerived();
    StandardTagNamesDistinct();
    Registry.PutAllAppend(map[], std, reg.registered, NameOf);
    Registry.DistinctAllFound(map[], std, NameOf);
    Registry.PutAllUntouched(Registry.PutAll(map[], std, NameOf), reg.registered, NameOf, n);
  }
}
