/**
 * Python's `dict` with string keys: a finite map together with the order in
 * which its keys were first inserted. Every dictionary the client keeps (the
 * command queue, each entity store, a cache file's `data`) iterates in that
 * order, and `find` and the commit loop depend on it.
 */
module OrderedDict {

  datatype Dict<V> = Dict(keys: seq<string>, entries: map<string, V>)

  /** No key is listed twice. */
  ghost predicate Distinct(s: seq<string>) {
    forall i, j :: 0 <= i < j < |s| ==> s[i] != s[j]
  }

  /** The keys are listed once each, and exactly the keys of the map are listed. */
  ghost predicate Valid<V>(d: Dict<V>) {
    && Distinct(d.keys)
    && (forall k :: k in d.entries <==> k in d.keys)
  }

  function Empty<V>(): (d: Dict<V>)
    ensures Valid(d) && d.keys == [] && d.entries == map[]
  {
    Dict([], map[])
  }

  /** `d[k] = v`: a new key goes to the end, an existing key keeps its place. */
  function Put<V>(d: Dict<V>, k: string, v: V): (r: Dict<V>)
    requires Valid(d)
    ensures Valid(r)
    ensures r.entries == d.entries[k := v]
    ensures k in d.entries ==> r.keys == d.keys
    ensures k !in d.entries ==> r.keys == d.keys + [k]
  {
    if k in d.entries then Dict(d.keys, d.entries[k := v])
    else
      assert (d.keys + [k])[..|d.keys|] == d.keys;
      Dict(d.keys + [k], d.entries[k := v])
  }

  /** The elements of `s` that `keep` accepts, in their order in `s`. */
  function Select(s: seq<string>, keep: string -> bool): (r: seq<string>)
    ensures forall x :: x in r <==> x in s && keep(x)
    ensures Distinct(s) ==> Distinct(r)
    ensures |r| <= |s|
    decreases |s|
  {
    if s == [] then []
    else
      var init := Select(s[..|s| - 1], keep);
      assert forall x :: x in s[..|s| - 1] ==> x in s;
      if keep(s[|s| - 1]) then init + [s[|s| - 1]] else init
  }

  /** Selecting from one more element of `s` appends it when `keep` accepts it. */
  lemma SelectNext(s: seq<string>, j: nat, keep: string -> bool)
    requires j < |s|
    ensures Select(s[..j + 1], keep) == if keep(s[j]) then Select(s[..j], keep) + [s[j]] else Select(s[..j], keep)
  {
    assert s[..j + 1][..j] == s[..j];
  }

  /** The entries whose key `keep` accepts, in the same order. */
  function Restrict<V>(d: Dict<V>, keep: string -> bool): (r: Dict<V>)
    requires Valid(d)
    ensures Valid(r)
    ensures r.keys == Select(d.keys, keep)
    ensures forall k :: k in r.entries <==> k in d.entries && keep(k)
    ensures forall k :: k in r.entries ==> r.entries[k] == d.entries[k]
  {
    Dict(Select(d.keys, keep), map k | k in d.entries && keep(k) :: d.entries[k])
  }

  /** The keys other than `k`. */
  function Except(k: string): string -> bool {
    x => x != k
  }

  /** `d.pop(k)` on a present key: the entry is gone. */
  function Pop<V>(d: Dict<V>, k: string): (r: Dict<V>)
    requires Valid(d)
    ensures Valid(r)
    ensures r.entries == d.entries - {k}
  {
    var r := Restrict(d, Except(k));
    assert r.entries == d.entries - {k};
    r
  }

  /** After `d.pop(k)` the other keys keep their order. */
  lemma PopKeys<V>(d: Dict<V>, k: string)
    requires Valid(d)
    ensures Pop(d, k).keys == Select(d.keys, Except(k))
  {
  }

  /** The keys in `s`. */
  function InSet(s: set<string>): string -> bool {
    x => x in s
  }

  /** A listed key occurs nowhere before its own position. */
  lemma {:induction false} DistinctAt(s: seq<string>, j: nat)
    requires Distinct(s) && j < |s|
    ensures s[j] !in s[..j]
    decreases |s|
  {
    if j < |s| - 1 {
      assert s[..|s| - 1][..j] == s[..j];
      DistinctAt(s[..|s| - 1], j);
    }
  }

  /** The first `j` entries of `d`, in order. */
  function Take<V>(d: Dict<V>, j: nat): (r: Dict<V>)
    requires Valid(d) && j <= |d.keys|
    ensures r.keys == d.keys[..j]
    ensures forall k :: k in r.entries <==> k in d.keys[..j]
    ensures forall k :: k in r.entries ==> r.entries[k] == d.entries[k]
  {
    Dict(d.keys[..j], map k | k in d.keys[..j] :: d.entries[k])
  }

  /** Taking one more entry puts `d`'s next key at the end. */
  lemma TakeNext<V>(d: Dict<V>, j: nat)
    requires Valid(d) && j < |d.keys|
    ensures Valid(Take(d, j)) && Valid(Take(d, j + 1))
    ensures Take(d, j + 1) == Put(Take(d, j), d.keys[j], d.entries[d.keys[j]])
  {
    DistinctAt(d.keys, j);
    assert d.keys[..j + 1] == d.keys[..j] + [d.keys[j]];
    DistinctPrefix(d.keys, j);
    DistinctPrefix(d.keys, j + 1);
  }

  lemma {:induction false} DistinctPrefix(s: seq<string>, j: nat)
    requires Distinct(s) && j <= |s|
    ensures Distinct(s[..j])
    decreases |s|
  {
    if j < |s| {
      assert s[..|s| - 1][..j] == s[..j];
      DistinctPrefix(s[..|s| - 1], j);
    } else {
      assert s[..j] == s;
    }
  }

  /** Taking every entry gives back the whole dict. */
  lemma TakeAll<V>(d: Dict<V>)
    requires Valid(d)
    ensures Take(d, |d.keys|) == d
  {
    assert d.keys[..|d.keys|] == d.keys;
  }

  /** `d.values()`, in key order. */
  function Values<V>(d: Dict<V>): (vs: seq<V>)
    requires Valid(d)
    ensures |vs| == |d.keys|
    ensures forall i :: 0 <= i < |d.keys| ==> vs[i] == d.entries[d.keys[i]]
  {
    seq(|d.keys|, i requires 0 <= i < |d.keys| => d.entries[d.keys[i]])
  }

  /** `result` holds, in order, the entries of `d` under the keys of `prefix` that `keep` accepts. */
  ghost predicate Copied<V>(d: Dict<V>, keep: string -> bool, prefix: seq<string>, result: Dict<V>) {
    && Valid(result)
    && result.keys == Select(prefix, keep)
    && forall k :: k in result.entries ==> k in d.entries && result.entries[k] == d.entries[k]
  }

  /** Copying the next entry of `d` when `keep` accepts its key extends the copy by one key. */
  lemma KeepStep<V>(d: Dict<V>, keep: string -> bool, j: nat, result: Dict<V>)
    requires Valid(d) && j < |d.keys| && Copied(d, keep, d.keys[..j], result)
    ensures var key := d.keys[j];
      Copied(d, keep, d.keys[..j + 1], if keep(key) then Put(result, key, d.entries[key]) else result)
  {
    var key := d.keys[j];
    DistinctAt(d.keys, j);
    SelectNext(d.keys, j, keep);
    assert key !in result.keys;
  }

  /** A copy over all of `d`'s keys is the restriction of `d`. */
  lemma KeepDone<V>(d: Dict<V>, keep: string -> bool, result: Dict<V>)
    requires Valid(d) && Copied(d, keep, d.keys, result)
    ensures result == Restrict(d, keep)
  {
    assert result.entries.Keys == Restrict(d, keep).entries.Keys;
  }
}
