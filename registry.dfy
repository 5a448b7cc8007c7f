/** The shape shared by the filter and the tag registry: a map from name to
    extension, filled by `put(key(x), x)` calls in order, so that a later put
    under a name replaces an earlier one. */
module Registry {

  /** The map that the puts of `xs`, in order, leave behind when they start
      from `m`. */
  function PutAll<T>(m: map<string, T>, xs: seq<T>, key: T -> string): (r: map<string, T>)
    ensures m.Keys <= r.Keys
    decreases |xs|
  {
    if xs == [] then m
    else
      var last := xs[|xs| - 1];
      PutAll(m, xs[..|xs| - 1], key)[key(last) := last]
  }

  /** Every entry of `m` is stored under its own key. */
  ghost predicate KeyedBy<T>(m: map<string, T>, key: T -> string) {
    forall n :: n in m ==> key(m[n]) == n
  }

  /** The keys of `xs`, in order. */
  function Keys<T>(xs: seq<T>, key: T -> string): seq<string> {
    seq(|xs|, i requires 0 <= i < |xs| => key(xs[i]))
  }

  /** The i-th key is the key of the i-th element. */
  lemma KeysAt<T>(xs: seq<T>, key: T -> string)
    ensures |Keys(xs, key)| == |xs|
    ensures forall i :: 0 <= i < |xs| ==> Keys(xs, key)[i] == key(xs[i])
  {
  }

  /** No two elements of `ks` are equal. */
  predicate Distinct(ks: seq<string>) {
    forall i, j :: 0 <= i < j < |ks| ==> ks[i] != ks[j]
  }

  /** The length and the first two characters of a string: strings with
      different sketches differ. */
  function Sketch(s: string): (int, char, char) {
    (|s|, if |s| > 0 then s[0] else ' ', if |s| > 1 then s[1] else ' ')
  }

  /** The domain after the puts is the old domain plus the key of every put. */
  lemma {:induction false} PutAllKeys<T>(m: map<string, T>, xs: seq<T>, key: T -> string)
    ensures forall n :: n in PutAll(m, xs, key) <==> n in m || n in Keys(xs, key)
    decreases |xs|
  {
    if xs != [] {
      var init := xs[..|xs| - 1];
      PutAllKeys(m, init, key);
      assert Keys(xs, key) == Keys(init, key) + [key(xs[|xs| - 1])];
    }
  }

  /** Putting every value under its own key keeps a map keyed by name. */
  lemma {:induction false} PutAllKeyed<T>(m: map<string, T>, xs: seq<T>, key: T -> string)
    requires KeyedBy(m, key)
    ensures KeyedBy(PutAll(m, xs, key), key)
    decreases |xs|
  {
    if xs != [] {
      PutAllKeyed(m, xs[..|xs| - 1], key);
    }
  }

  /** Last put wins: the value found under a key is the last element of `xs`
      with that key. */
  lemma {:induction false} PutAllLastWins<T>(m: map<string, T>, xs: seq<T>, key: T -> string, i: nat)
    requires i < |xs|
    requires forall j :: i < j < |xs| ==> key(xs[j]) != key(xs[i])
    ensures key(xs[i]) in PutAll(m, xs, key)
    ensures PutAll(m, xs, key)[key(xs[i])] == xs[i]
    decreases |xs|
  {
    if i < |xs| - 1 {
      PutAllLastWins(m, xs[..|xs| - 1], key, i);
    }
  }

  /** A key that no element of `xs` carries keeps its old mapping, or stays
      absent. */
  lemma {:induction false} PutAllUntouched<T>(m: map<string, T>, xs: seq<T>, key: T -> string, n: string)
    requires forall j :: 0 <= j < |xs| ==> key(xs[j]) != n
    ensures n in PutAll(m, xs, key) <==> n in m
    ensures n in m ==> PutAll(m, xs, key)[n] == m[n]
    decreases |xs|
  {
    if xs != [] {
      PutAllUntouched(m, xs[..|xs| - 1], key, n);
    }
  }

  /** Putting `xs` and then `ys` is putting `xs + ys`. */
  lemma {:induction false} PutAllAppend<T>(m: map<string, T>, xs: seq<T>, ys: seq<T>, key: T -> string)
    ensures PutAll(m, xs + ys, key) == PutAll(PutAll(m, xs, key), ys, key)
    decreases |ys|
  {
    if ys == [] {
      assert xs + ys == xs;
    } else {
      var init := ys[..|ys| - 1];
      assert (xs + ys)[..|xs + ys| - 1] == xs + init;
      PutAllAppend(m, xs, init, key);
    }
  }

  /** Of two puts under the same key only the second one is visible; in
      particular, putting the same value twice is putting it once. */
  lemma SameKeyLastWins<T>(m: map<string, T>, xs: seq<T>, x: T, y: T, key: T -> string)
    requires key(x) == key(y)
    ensures PutAll(m, xs + [x, y], key) == PutAll(m, xs + [y], key)
  {
    assert (xs + [x, y])[..|xs| + 1] == xs + [x];
    assert (xs + [x])[..|xs|] == xs;
    assert (xs + [y])[..|xs|] == xs;
  }

  /** With distinct keys every element is found under its own key. */
  lemma DistinctAllFound<T>(m: map<string, T>, xs: seq<T>, key: T -> string)
    requires Distinct(Keys(xs, key))
    ensures forall i :: 0 <= i < |xs| ==> key(xs[i]) in PutAll(m, xs, key) && PutAll(m, xs, key)[key(xs[i])] == xs[i]
  {
    forall i | 0 <= i < |xs|
      ensures key(xs[i]) in PutAll(m, xs, key) && PutAll(m, xs, key)[key(xs[i])] == xs[i]
    {
      KeysAt(xs, key);
      PutAllLastWins(m, xs, key, i);
    }
  }

  /** Seeding an empty map from a list with distinct keys `ks` gives a map
      whose domain is exactly `ks`, with each element under its own key. */
  lemma SeededFromDistinct<T>(xs: seq<T>, key: T -> string, ks: seq<string>)
    requires Keys(xs, key) == ks && Distinct(ks)
    ensures forall n :: n in PutAll(map[], xs, key) <==> n in ks
    ensures forall i :: 0 <= i < |xs| ==> ks[i] in PutAll(map[], xs, key) && PutAll(map[], xs, key)[ks[i]] == xs[i]
  {
    KeysAt(xs, key);
    PutAllKeys(map[], xs, key);
    DistinctAllFound(map[], xs, key);
  }
}
