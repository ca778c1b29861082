/** The dict search of dict.c, from both ends of the node list towards its middle. */
module DictSearch {
  import opened Text

  /** `strcasecmp` finds no difference. */
  predicate SameKey(a: string, b: string) {
    Lower(a) == Lower(b)
  }

  /** The search when the left node is at `l` and the right node as far from the other end. */
  function Search(keys: seq<string>, key: string, l: nat): Option<nat>
    requires 2 * l < |keys|
    decreases |keys| - l
  {
    var r := |keys| - 1 - l;
    if SameKey(keys[l], key) then Some(l)
    else if SameKey(keys[r], key) then Some(r)
    else if l == r || l == r - 1 then None
    else Search(keys, key, l + 1)
  }

  /** `dict_find_node`: the index of the node found. */
  function Find(keys: seq<string>, key: string): Option<nat> {
    if keys == [] then None else Search(keys, key, 0)
  }

  lemma {:induction false} SearchExact(keys: seq<string>, key: string, l: nat)
    requires 2 * l < |keys|
    requires forall i :: 0 <= i < l || |keys| - l <= i < |keys| ==> !SameKey(keys[i], key)
    ensures var f := Search(keys, key, l);
      && (f.Some? ==> f.value < |keys| && SameKey(keys[f.value], key))
      && (f.None? ==> forall i :: 0 <= i < |keys| ==> !SameKey(keys[i], key))
    decreases |keys| - l
  {
    hide SameKey;
    var r := |keys| - 1 - l;
    if !SameKey(keys[l], key) && !SameKey(keys[r], key) && l + 1 < r {
      SearchExact(keys, key, l + 1);
    }
  }

  /** A node is found exactly when one with that key exists. */
  lemma FindExact(keys: seq<string>, key: string)
    ensures var f := Find(keys, key);
      && (f.Some? ==> f.value < |keys| && SameKey(keys[f.value], key))
      && (f.None? <==> forall i :: 0 <= i < |keys| ==> !SameKey(keys[i], key))
  {
    hide SameKey, Search;
    if keys != [] {
      SearchExact(keys, key, 0);
    }
  }

  predicate Unique(keys: seq<string>) {
    forall i, j :: 0 <= i < j < |keys| ==> !SameKey(keys[i], keys[j])
  }

  /** With unique keys, the node with the key is the one found. */
  lemma FindUnique(keys: seq<string>, key: string, i: nat)
    requires Unique(keys) && i < |keys| && SameKey(keys[i], key)
    ensures Find(keys, key) == Some(i)
  {
    FindExact(keys, key);
    var j := Find(keys, key).value;
    assert SameKey(keys[i], keys[j]) && SameKey(keys[j], keys[i]);
  }
}
