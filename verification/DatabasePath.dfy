/** Where a path leads in a database tree: key by key down to a node, or nowhere. */
module DatabasePath {
  import opened DatabaseFormat
  import opened DatabaseFetch
  import DictSearch
  import opened Text

  function Join(keys: seq<string>): string
    requires keys != []
  {
    if |keys| == 1 then keys[0] else keys[0] + ("/" + Join(keys[1..]))
  }

  predicate NoSlash(keys: seq<string>) {
    forall i :: 0 <= i < |keys| ==> '/' !in keys[i]
  }

  predicate EntryHas(entries: seq<Entry>, i: nat, key: string) {
    i < |entries| && DictSearch.SameKey(entries[i].key, key)
  }

  /** The keys lead to `node`, through objects. */
  ghost predicate Reaches(entries: seq<Entry>, keys: seq<string>, node: Node)
    requires keys != []
    decreases |keys|
  {
    exists i: nat ::
      && EntryHas(entries, i, keys[0])
      && if |keys| == 1 then entries[i].node == node
         else entries[i].node.Obj? && Reaches(entries[i].node.entries, keys[1..], node)
  }

  /** A key is missing, or leads to something that is no object before the last one. */
  ghost predicate Blocked(entries: seq<Entry>, keys: seq<string>)
    requires keys != []
    decreases |keys|
  {
    || (forall i: nat :: !EntryHas(entries, i, keys[0]))
    || (|keys| > 1 && exists i: nat ::
          && EntryHas(entries, i, keys[0])
          && (!entries[i].node.Obj? || Blocked(entries[i].node.entries, keys[1..])))
  }

  lemma LookupAt(entries: seq<Entry>, key: string, i: nat)
    requires DictSearch.Unique(Keys(entries)) && EntryHas(entries, i, key)
    ensures Lookup(entries, key) == Some(entries[i].node)
  {
    hide DictSearch.SameKey, DictSearch.Search;
    assert Keys(entries)[i] == entries[i].key;
    DictSearch.FindUnique(Keys(entries), key, i);
  }

  lemma LookupNone(entries: seq<Entry>, key: string)
    ensures Lookup(entries, key) == None <==> forall i: nat :: !EntryHas(entries, i, key)
  {
    hide DictSearch.SameKey, DictSearch.Search;
    DictSearch.FindExact(Keys(entries), key);
    assert forall i :: 0 <= i < |entries| ==> Keys(entries)[i] == entries[i].key;
    if f :| DictSearch.Find(Keys(entries), key) == Some(f) {
      assert EntryHas(entries, f, key);
    }
  }

  /** Up to the next slash the path is one key. */
  lemma {:induction false} WalkElement(entries: seq<Entry>, key: string, path: string, buf: string)
    requires '/' !in key
    ensures Walk(entries, key + ("/" + path), buf) == match Lookup(entries, buf + key)
              case Some(Obj(inner)) => Walk(inner, path, "")
              case _ => None
    decreases |key|
  {
    hide Lookup;
    var whole := key + ("/" + path);
    assert whole[|key|] == '/';
    if key == "" {
      assert whole == "/" + path && whole[1..] == path && buf + key == buf;
    } else {
      assert whole[0] == key[0] && whole[1..] == key[1..] + ("/" + path);
      assert buf + key == buf + [key[0]] + key[1..];
      WalkElement(entries, key[1..], path, buf + [key[0]]);
    }
  }

  lemma JoinNoSlash(key: string)
    requires '/' !in key
    ensures Join([key]) == key
  {
  }

  lemma {:induction false} WalkReaches(entries: seq<Entry>, keys: seq<string>)
    requires UniqueTree(entries) && keys != [] && NoSlash(keys)
    ensures forall node :: Walk(entries, Join(keys), "") == Some(node) <==> Reaches(entries, keys, node)
    ensures Walk(entries, Join(keys), "") == None <==> Blocked(entries, keys)
    decreases |keys|
  {
    hide Lookup;
    var key := keys[0];
    LookupNone(entries, key);
    if |keys| > 1 {
      WalkElement(entries, key, Join(keys[1..]), "");
      assert "" + key == key;
    }
    if Lookup(entries, key).Some? {
      var i: nat :| EntryHas(entries, i, key);
      OnlyEntry(entries, key, i);
      if |keys| > 1 && entries[i].node.Obj? {
        BelowUnique(entries, i);
        WalkReaches(entries[i].node.entries, keys[1..]);
      }
    }
  }

  lemma OnlyEntry(entries: seq<Entry>, key: string, i: nat)
    requires DictSearch.Unique(Keys(entries)) && EntryHas(entries, i, key)
    ensures Lookup(entries, key) == Some(entries[i].node)
    ensures forall j: nat :: EntryHas(entries, j, key) ==> entries[j].node == entries[i].node
  {
    LookupAt(entries, key, i);
    forall j: nat | EntryHas(entries, j, key) ensures entries[j].node == entries[i].node {
      LookupAt(entries, key, j);
    }
  }

  lemma BelowUnique(entries: seq<Entry>, i: nat)
    requires UniqueTree(entries) && i < |entries| && entries[i].node.Obj?
    ensures UniqueTree(entries[i].node.entries)
  {
    assert UniqueNode(entries[i].node);
  }

  // ----- whole paths -----

  function Slash(there: bool): string {
    if there then "/" else ""
  }

  lemma {:induction false} JoinEnds(keys: seq<string>)
    requires keys != [] && NoSlash(keys) && keys[0] != "" && keys[|keys| - 1] != ""
    ensures var p := Join(keys); p != "" && p[0] != '/' && p[|p| - 1] != '/'
    decreases |keys|
  {
    LastKey(keys);
  }

  lemma {:induction false} LastKey(keys: seq<string>)
    requires keys != [] && NoSlash(keys) && keys[|keys| - 1] != ""
    ensures Join(keys) != "" && Join(keys)[|Join(keys)| - 1] != '/'
    decreases |keys|
  {
    if |keys| > 1 {
      LastKey(keys[1..]);
    }
  }

  lemma TrimmedIs(p: string, lead: bool, trail: bool)
    requires p != "" && p[0] != '/' && p[|p| - 1] != '/'
    ensures Trimmed(Slash(lead) + p + Slash(trail)) == p
  {
    var path := Slash(lead) + p + Slash(trail);
    assert lead ==> path[1..] == p + Slash(trail);
    assert p + "" == p && (p + "/")[..|p|] == p;
  }

  /** A path of keys, with or without a slash at either end, leads to the node that is reached by going
      down key by key, and nowhere exactly if the way is blocked. */
  lemma FetchReaches(entries: seq<Entry>, keys: seq<string>, lead: bool, trail: bool)
    requires UniqueTree(entries) && keys != [] && NoSlash(keys) && keys[0] != "" && keys[|keys| - 1] != ""
    ensures var path := Slash(lead) + Join(keys) + Slash(trail);
      && (forall node :: FetchPath(entries, path) == Some(node) <==> Reaches(entries, keys, node))
      && (FetchPath(entries, path) == None <==> Blocked(entries, keys))
  {
    hide Walk, Trimmed, Reaches, Blocked;
    JoinEnds(keys);
    TrimmedIs(Join(keys), lead, trail);
    WalkReaches(entries, keys);
  }

  /** No key is no path. */
  lemma FetchNothing(entries: seq<Entry>)
    ensures FetchPath(entries, "") == FetchPath(entries, "/") == FetchPath(entries, "//") == None
  {
  }

  /** The first key of a path, and the path from there. */
  lemma FetchStep(entries: seq<Entry>, i: nat, key: string, path: string)
    requires DictSearch.Unique(Keys(entries)) && EntryHas(entries, i, key) && key != "" && '/' !in key
    ensures FetchPath(entries, key) == Some(entries[i].node)
    ensures entries[i].node.Obj? && path != "" && path[0] != '/' ==>
      FetchPath(entries, key + ("/" + path)) == FetchPath(entries[i].node.entries, path)
  {
    hide Lookup;
    LookupAt(entries, key, i);
    TrimmedIs(key, false, false);
    assert "" + key + "" == key;
    assert Walk(entries, key, "") == Lookup(entries, key);
    if path != "" && path[0] != '/' {
      TrimmedStep(key, path);
      WalkElement(entries, key, Trimmed(path), "");
      assert "" + key == key;
    }
    hide Walk, Trimmed;
  }

  lemma TrimmedStep(key: string, path: string)
    requires key != "" && '/' !in key && path != "" && path[0] != '/'
    ensures Trimmed(path) != "" && Trimmed(key + ("/" + path)) == key + ("/" + Trimmed(path))
  {
    var whole := key + ("/" + path);
    assert whole[0] == key[0] && whole[|whole| - 1] == path[|path| - 1];
    if path[|path| - 1] == '/' {
      assert whole[..|whole| - 1] == key + ("/" + path[..|path| - 1]);
    }
  }
}
