/** Looking up a path in a database tree does not notice that siblings come back reversed. */
module DatabaseFetch {
  import opened DatabaseFormat
  import opened DatabaseRoundTrip
  import DictSearch
  import opened Text

  function Keys(entries: seq<Entry>): seq<string> {
    seq(|entries|, i requires 0 <= i < |entries| => entries[i].key)
  }

  /** `dict_find` on an object's entries. */
  function Lookup(entries: seq<Entry>, key: string): Option<Node> {
    var i := DictSearch.Find(Keys(entries), key);
    if i.None? then None
    else
      DictSearch.FindExact(Keys(entries), key);
      Some(entries[i.value].node)
  }

  /** The loop of `database_fetch_path`: `buf` is the path element read so far. */
  function Walk(entries: seq<Entry>, path: string, buf: string): Option<Node>
    decreases |path|
  {
    if '/' !in path then Lookup(entries, path)
    else if path[0] == '/' then
      match Lookup(entries, buf)
      case Some(Obj(inner)) => Walk(inner, path[1..], "")
      case _ => None
    else Walk(entries, path[1..], buf + [path[0]])
  }

  /** One leading and one trailing slash do not count. */
  function Trimmed(path: string): string {
    var tail := if path != "" && path[0] == '/' then path[1..] else path;
    if tail != "" && tail[|tail| - 1] == '/' then tail[..|tail| - 1] else tail
  }

  function FetchPath(entries: seq<Entry>, path: string): Option<Node> {
    if Trimmed(path) == "" then None else Walk(entries, Trimmed(path), "")
  }

  /** Sibling keys differ, ignoring case, at every level. */
  predicate UniqueNode(node: Node) {
    match node
    case Obj(entries) => DictSearch.Unique(Keys(entries)) && UniqueBelow(entries)
    case _ => true
  }

  predicate UniqueBelow(entries: seq<Entry>) {
    forall i :: 0 <= i < |entries| ==> UniqueNode(entries[i].node)
  }

  predicate UniqueTree(entries: seq<Entry>) {
    DictSearch.Unique(Keys(entries)) && UniqueBelow(entries)
  }

  /** Position by position, the reversed entries. */
  lemma {:induction false} ReversedAt(entries: seq<Entry>)
    requires TypedEntries(entries)
    ensures |ReversedEntries(entries)| == |entries|
    ensures forall i :: 0 <= i < |entries| ==>
              Typed(entries[i].node)
              && ReversedEntries(entries)[|entries| - 1 - i] == Entry(entries[i].key, Reversed(entries[i].node))
    decreases |entries|
  {
    if entries != [] {
      ReversedAt(entries[1..]);
      forall i | 0 < i < |entries|
        ensures Typed(entries[i].node)
        ensures ReversedEntries(entries)[|entries| - 1 - i] == Entry(entries[i].key, Reversed(entries[i].node))
      {
        assert entries[i] == entries[1..][i - 1];
      }
    }
  }

  function ReversedResult(r: Option<Node>): Option<Node> {
    if r.None? then None else Some(Reversed(r.value))
  }

  lemma LookupReversed(entries: seq<Entry>, key: string)
    requires DictSearch.Unique(Keys(entries)) && TypedEntries(entries)
    ensures Lookup(ReversedEntries(entries), key) == ReversedResult(Lookup(entries, key))
  {
    hide DictSearch.SameKey, DictSearch.Search;
    var back := ReversedEntries(entries);
    var keys, backKeys := Keys(entries), Keys(back);
    ReversedAt(entries);
    assert forall i :: 0 <= i < |keys| ==> backKeys[|keys| - 1 - i] == keys[i];
    BackUnique(keys, backKeys);
    DictSearch.FindExact(keys, key);
    DictSearch.FindExact(backKeys, key);
    if f :| DictSearch.Find(keys, key) == Some(f) {
      DictSearch.FindUnique(backKeys, key, |keys| - 1 - f);
    } else {
      forall i | 0 <= i < |backKeys| ensures !DictSearch.SameKey(backKeys[i], key) {
        assert backKeys[i] == keys[|keys| - 1 - i];
      }
    }
  }

  lemma BackUnique(keys: seq<string>, back: seq<string>)
    requires DictSearch.Unique(keys) && |back| == |keys|
    requires forall i :: 0 <= i < |keys| ==> back[|keys| - 1 - i] == keys[i]
    ensures DictSearch.Unique(back)
  {
    forall i, j | 0 <= i < j < |back| ensures !DictSearch.SameKey(back[i], back[j]) {
      assert back[i] == keys[|keys| - 1 - i] && back[j] == keys[|keys| - 1 - j];
      assert !DictSearch.SameKey(keys[|keys| - 1 - j], keys[|keys| - 1 - i]);
    }
  }

  lemma LookupBelow(entries: seq<Entry>, key: string)
    requires UniqueTree(entries) && TypedEntries(entries) && Lookup(entries, key).Some?
    ensures UniqueNode(Lookup(entries, key).value) && Typed(Lookup(entries, key).value)
  {
    ReversedAt(entries);
    DictSearch.FindExact(Keys(entries), key);
  }

  lemma {:induction false} WalkReversed(entries: seq<Entry>, path: string, buf: string)
    requires UniqueTree(entries) && TypedEntries(entries)
    ensures Walk(ReversedEntries(entries), path, buf) == ReversedResult(Walk(entries, path, buf))
    decreases |path|
  {
    hide Lookup;
    if '/' !in path {
      LookupReversed(entries, path);
    } else if path[0] == '/' {
      LookupReversed(entries, buf);
      if Lookup(entries, buf).Some? {
        LookupBelow(entries, buf);
        if Lookup(entries, buf).value.Obj? {
          WalkReversed(Lookup(entries, buf).value.entries, path[1..], "");
        }
      }
    } else {
      WalkReversed(entries, path[1..], buf + [path[0]]);
    }
  }

  /** After a round trip every path leads to what it led to before. */
  lemma FetchAfterRoundTrip(entries: seq<Entry>, path: string)
    requires UniqueTree(entries) && TypedEntries(entries) && CEntries(entries)
    ensures var read := ReadAll(PrintEntries(entries, 0), 0, []);
      read.Ok? && FetchPath(read.value, path) == ReversedResult(FetchPath(entries, path))
  {
    hide Walk, ReadAll, PrintEntries, ReversedEntries;
    RoundTrip(entries);
    WalkReversed(entries, Trimmed(path), "");
  }

  /** `database_fetch_path`. */
  method DatabaseFetchPath(entries: seq<Entry>, nodePath: string) returns (node: Option<Node>)
    ensures node == FetchPath(entries, nodePath)
  {
    var path := nodePath;
    if path != "" && path[0] == '/' {
      path := path[1..];
    }
    if |path| > 0 && path[|path| - 1] == '/' {
      path := path[..|path| - 1];
    }
    if |path| == 0 {
      return None;
    }
    var record, buf := entries, "";
    while '/' in path
      invariant FetchPath(entries, nodePath) == Walk(record, path, buf)
      decreases |path|
    {
      if path[0] == '/' {
        node := Lookup(record, buf);
        if node.None? || !node.value.Obj? {
          return None;
        }
        record, buf, path := node.value.entries, "", path[1..];
      } else {
        buf, path := buf + [path[0]], path[1..];
      }
    }
    node := Lookup(record, path);
  }
}
