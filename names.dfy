/** ASCII lower-casing, used for the default names of filters and tags:
    an extension created without an explicit name is named after its
    implementing class, lower-cased. */
module Names {

  /** The simple (unqualified) name of a Java class, e.g. "Divided_By". */
  type ClassName = string

  predicate IsUpper(c: char) {
    'A' <= c <= 'Z'
  }

  /** True when no character of `s` is an ASCII upper-case letter. */
  predicate IsLowerCase(s: string) {
    forall i :: 0 <= i < |s| ==> !IsUpper(s[i])
  }

  /** ASCII lower-casing of one character; every other character is kept. */
  function LowerChar(c: char): char {
    if IsUpper(c) then (c as int + ('a' as int - 'A' as int)) as char else c
  }

  /** `String.toLowerCase`, restricted to ASCII letters. */
  function LowerCase(s: string): (r: string)
    ensures |r| == |s|
  {
    seq(|s|, i requires 0 <= i < |s| => LowerChar(s[i]))
  }

  /** Lower-casing keeps the length, leaves no upper-case letter, changes
      only upper-case letters, and leaves a lower-case string as it is. */
  lemma LowerCaseSpec(s: string)
    ensures |LowerCase(s)| == |s|
    ensures IsLowerCase(LowerCase(s))
    ensures forall i :: 0 <= i < |s| && !IsUpper(s[i]) ==> LowerCase(s)[i] == s[i]
    ensures forall i :: 0 <= i < |s| && IsUpper(s[i]) ==> 'a' <= LowerCase(s)[i] <= 'z'
    ensures forall i :: 0 <= i < |s| && IsUpper(s[i]) ==> LowerCase(s)[i] as int == s[i] as int + 32
    ensures IsLowerCase(s) ==> LowerCase(s) == s
  {
  }

  /** Lower-casing twice is lower-casing once. */
  lemma LowerCaseIdempotent(s: string)
    ensures LowerCase(LowerCase(s)) == LowerCase(s)
  {
    LowerCaseSpec(s);
    LowerCaseSpec(LowerCase(s));
  }
}
