/** The dict of dict.c: a doubly linked list of nodes whose last deleted node is freed only with
    the next deletion. */
module Dict {
  import opened Text
  import DictSearch

  class DictNode<T> {
    var key: string
    var data: T
    var prev: DictNode?<T>
    var next: DictNode?<T>
    /** The memory was given back; nothing may look at the node any more. */
    ghost var freed: bool

    constructor (key: string, data: T, next: DictNode?<T>)
      ensures this.key == key && this.data == data && prev == null && this.next == next && !freed
    {
      this.key, this.data, prev, this.next, freed := key, data, null, next, false;
    }
  }

  class Dict<T> {
    var count: nat
    var head: DictNode?<T>
    var tail: DictNode?<T>
    /** The last deleted node. */
    var free: DictNode?<T>
    ghost var nodes: seq<DictNode<T>>
    ghost var repr: set<object>

    ghost predicate Valid()
      reads this, repr
    {
      && this in repr && (forall n :: n in nodes ==> n in repr) && (free != null ==> free in repr)
      && count == |nodes|
      && Linked(nodes)
      && head == Nth(nodes, 0) && tail == Nth(nodes, |nodes| - 1)
      && (free != null ==> free !in nodes && !free.freed)
    }

    constructor ()
      ensures Valid() && nodes == [] && free == null && repr == {this}
    {
      count, head, tail, free, nodes, repr := 0, null, null, null, [], {this};
    }

    /** `dict_insert`: the new node becomes the head. */
    method Insert(key: string, data: T) returns (node: DictNode<T>)
      requires Valid()
      modifies repr
      ensures Valid() && repr == old(repr) + {node}
      ensures fresh(node) && node.key == key && node.data == data
      ensures nodes == [node] + old(nodes) && free == old(free)
      ensures forall n :: n in old(nodes) ==> n.key == old(n.key) && n.data == old(n.data)
    {
      node := new DictNode(key, data, head);
      head := node;
      if node.next != null {
        node.next.prev := node;
      }
      if tail == null {
        tail := node;
      }
      count := count + 1;
      nodes, repr := [node] + nodes, repr + {node};
    }

    ghost function Keys(): seq<string>
      reads this, nodes
    {
      KeysOf(nodes)
    }

    /** `dict_find_node`: one pointer runs from the head, one from the tail, until they meet. */
    method FindNode(key: string) returns (node: DictNode?<T>)
      requires Valid()
      ensures var f := DictSearch.Find(Keys(), key);
        node == if f.None? then null else Nth(nodes, f.value)
      ensures node == null <==> forall n :: n in nodes ==> !DictSearch.SameKey(n.key, key)
      ensures node != null ==> node in nodes && DictSearch.SameKey(node.key, key)
    {
      FoundIff(key);
      var lnode, rnode := head, tail;
      ghost var l := 0;
      while lnode != null && rnode != null
        invariant 0 <= l <= |nodes| && (|nodes| > 0 ==> 2 * l < |nodes|)
        invariant |nodes| == 0 ==> lnode == null
        invariant |nodes| > 0 ==> lnode == nodes[l] && rnode == nodes[|nodes| - 1 - l]
        invariant |nodes| > 0 ==> DictSearch.Find(Keys(), key) == DictSearch.Search(Keys(), key, l)
        decreases |nodes| - l
      {
        ghost var r := |nodes| - 1 - l;
        assert Keys()[l] == lnode.key && Keys()[r] == rnode.key;
        if DictSearch.SameKey(lnode.key, key) {
          return lnode;
        }
        if DictSearch.SameKey(rnode.key, key) {
          return rnode;
        }
        if lnode == rnode || lnode == rnode.prev {
          return null;
        }
        lnode, rnode, l := lnode.next, rnode.prev, l + 1;
      }
      return null;
    }

    lemma FoundIff(key: string)
      requires Valid()
      ensures var f := DictSearch.Find(Keys(), key);
        && (f.Some? ==> f.value < |nodes| && DictSearch.SameKey(nodes[f.value].key, key))
        && (f.None? <==> forall n :: n in nodes ==> !DictSearch.SameKey(n.key, key))
    {
      hide DictSearch.SameKey, DictSearch.Find;
      DictSearch.FindExact(Keys(), key);
      forall i | 0 <= i < |nodes| ensures Keys()[i] == nodes[i].key {
      }
    }

    /** The neighbours, and the ends of the list, are led past the node. */
    method Unlink(node: DictNode<T>, ghost i: nat)
      requires Linked(nodes) && head == Nth(nodes, 0) && tail == Nth(nodes, |nodes| - 1)
      requires i < |nodes| && nodes[i] == node
      modifies this`head, this`tail, set n | n in nodes :: n`prev, set n | n in nodes :: n`next
      ensures head == Nth(nodes, if i == 0 then 1 else 0)
      ensures tail == Nth(nodes, if i == |nodes| - 1 then i - 1 else |nodes| - 1)
      ensures Skipping(nodes, i)
    {
      assert node.prev == Nth(nodes, i - 1) && node.next == Nth(nodes, i + 1);
      assert node.prev != null ==> node.prev in nodes;
      assert node.next != null ==> node.next in nodes;
      if head == node {
        head := node.next;
      }
      if tail == node {
        tail := node.prev;
      }
      if node.prev != null {
        node.prev.next := node.next;
      }
      if node.next != null {
        node.next.prev := node.prev;
      }
    }

    /** `dict_delete_node`: the node is unlinked and its memory kept until the next deletion. */
    method DeleteNode(node: DictNode<T>, ghost i: nat)
      requires Valid() && i < |nodes| && nodes[i] == node
      modifies repr
      ensures Valid() && repr == old(repr) && nodes == Drop(old(nodes), i)
      ensures free == node && node.next == old(node.next)
      ensures old(free) != null ==> old(free).freed
      ensures forall n :: n in old(nodes) ==> n.key == old(n.key) && n.data == old(n.data) && !n.freed
    {
      hide Drop;
      DropMembers(nodes, i);
      Unlink(node, i);
      Relinked(nodes, i);
      DropNth(nodes, i, 0);
      DropNth(nodes, i, |nodes| - 2);
      hide Linked, Skipping, Nth;
      nodes := Drop(nodes, i);
      Retire(node);
    }

    /** `dict_clear`. */
    method Clear()
      requires Valid()
      modifies repr
      ensures Valid() && repr == old(repr) && nodes == [] && count == 0
    {
      while count > 0
        invariant Valid() && repr == old(repr)
        decreases count
      {
        DropMembers(nodes, 0);
        DeleteNode(head, 0);
      }
    }

    /** A `dict_iter` loop over the nodes `was` has come to node `k`: of those before it, the ones
        not doomed are left, and those from it on are untouched. */
    ghost predicate Iterating(was: seq<DictNode<T>>, doom: seq<bool>, k: nat)
      reads this, repr, was
    {
      && Valid() && |doom| == |was| && k <= |was|
      && nodes == Survivors(was[..k], doom[..k]) + was[k..]
    }

    lemma IterationStarts(doom: seq<bool>)
      requires Valid() && |doom| == |nodes|
      ensures Iterating(nodes, doom, 0) && head == Nth(nodes, 0)
    {
    }

    lemma IterationEnds(was: seq<DictNode<T>>, doom: seq<bool>, k: nat)
      requires Iterating(was, doom, k) && Nth(was, k) == null
      ensures k == |was| && was[..k] == was && nodes == Survivors(was, doom)
    {
      assert doom[..k] == doom;
    }

    /** DictNode `k` of an iteration is in the list after the kept ones, with its successor after it. */
    lemma Current(was: seq<DictNode<T>>, doom: seq<bool>, k: nat) returns (p: nat)
      requires Iterating(was, doom, k) && k < |was|
      ensures p == |Survivors(was[..k], doom[..k])| && p < |nodes| && nodes[p] == was[k]
      ensures !was[k].freed && was[k].next == Nth(was, k + 1)
      ensures Drop(nodes, p) == Survivors(was[..k], doom[..k]) + was[k + 1..]
      ensures nodes == Survivors(was[..k], doom[..k]) + [was[k]] + was[k + 1..]
      ensures forall i :: k <= i < |was| ==> was[i] in nodes
    {
      hide Survivors, Drop;
      var kept := Survivors(was[..k], doom[..k]);
      p := |kept|;
      assert nodes[p] == was[k] && Nth(nodes, p + 1) == Nth(was, k + 1);
      assert forall i :: k <= i < |was| ==> was[i] == nodes[p + i - k];
      DropMiddle(kept, was, k);
    }

    /** One round: the body deletes the node it is at, or nothing, and its link is still good. */
    method Visit(node: DictNode<T>, delete: bool,
                 ghost was: seq<DictNode<T>>, ghost doom: seq<bool>, ghost k: nat)
      requires Iterating(was, doom, k) && k < |was| && node == was[k] && delete == doom[k]
      modifies repr
      ensures Iterating(was, doom, k + 1) && repr == old(repr)
      ensures !node.freed && node.next == Nth(was, k + 1)
    {
      hide Valid, Survivors, Drop;
      SurvivorsStep(was, doom, k);
      ghost var p := Current(was, doom, k);
      if delete {
        DeleteNode(node, p);
        assert Survivors(was[..k], doom[..k]) + [] == Survivors(was[..k], doom[..k]);
      }
    }

    /** A `dict_iter` loop whose body deletes the node it is at, or nothing, as it likes in each round:
        every node that was there is visited once, in order, and its link is read before its memory
        is given back. */
    method Iterate(doom: seq<bool>) returns (ghost visited: seq<DictNode<T>>)
      requires Valid() && |doom| == |nodes|
      modifies repr
      ensures Valid() && repr == old(repr) && visited == old(nodes)
      ensures nodes == Survivors(visited, doom)
    {
      ghost var was := nodes;
      IterationStarts(doom);
      visited := [];
      var node, k: nat := head, 0;
      hide Valid, Survivors;
      while node != null
        invariant Iterating(was, doom, k) && visited == was[..k] && node == Nth(was, k)
        invariant repr == old(repr)
        decreases |was| - k
      {
        var here: DictNode<T> := node;
        TakeMore(was, k);
        visited := visited + [here];
        Visit(here, doom[k], was, doom, k);
        assert !here.freed;
        node, k := here.next, k + 1;
      }
      IterationEnds(was, doom, k);
    }

    /** The node deleted before is freed, and this one takes its place. */
    method Retire(node: DictNode<T>)
      requires count > 0 && free != node
      modifies this`count, this`free, free
      ensures count == old(count) - 1 && free == node
      ensures old(free) != null ==> old(free).freed
    {
      count := count - 1;
      if free != null {
        free.freed := true;
      }
      free := node;
    }
  }

  /** Everybody but node `i` itself leads past it. */
  ghost predicate Skipping<T>(was: seq<DictNode<T>>, i: nat)
    reads was
  {
    && (forall j {:trigger was[j].next} :: 0 <= j < |was| ==> was[j].next == Nth(was, if j == i - 1 then i + 1 else j + 1))
    && (forall j {:trigger was[j].prev} :: 0 <= j < |was| ==> was[j].prev == Nth(was, if j == i + 1 then i - 1 else j - 1))
    && (forall j {:trigger was[j].freed} :: 0 <= j < |was| ==> !was[j].freed)
  }

  /** The list without node `i`. */
  function Drop<T>(was: seq<DictNode<T>>, i: nat): seq<DictNode<T>>
    requires i < |was|
  {
    was[..i] + was[i + 1..]
  }

  lemma DropNth<T>(was: seq<DictNode<T>>, i: nat, j: int)
    requires i < |was|
    ensures Nth(Drop(was, i), j) == Nth(was, if j < i then j else j + 1)
  {
  }

  /** The nodes left after unlinking node `i` are linked. */
  lemma Relinked<T>(was: seq<DictNode<T>>, i: nat)
    requires i < |was| && Skipping(was, i)
    requires forall j, k :: 0 <= j < k < |was| ==> was[j] != was[k]
    ensures Linked(Drop(was, i)) && was[i] !in Drop(was, i) && |Drop(was, i)| == |was| - 1
  {
    var nodes := Drop(was, i);
    DropDistinct(was, i);
    hide Drop;
    forall j | 0 <= j < |nodes|
      ensures nodes[j].prev == Nth(nodes, j - 1) && nodes[j].next == Nth(nodes, j + 1) && !nodes[j].freed
    {
      DropNth(was, i, j - 1);
      DropNth(was, i, j);
      DropNth(was, i, j + 1);
      var from := if j < i then j else j + 1;
      assert nodes[j] == was[from];
      assert was[from].next == Nth(was, if from == i - 1 then i + 1 else from + 1);
      assert was[from].prev == Nth(was, if from == i + 1 then i - 1 else from - 1);
    }
  }

  lemma DropMembers<T>(was: seq<DictNode<T>>, i: nat)
    requires i < |was|
    ensures forall n :: n in Drop(was, i) ==> n in was
  {
  }

  lemma DropDistinct<T>(was: seq<DictNode<T>>, i: nat)
    requires i < |was| && forall j, k :: 0 <= j < k < |was| ==> was[j] != was[k]
    ensures forall j, k :: 0 <= j < k < |Drop(was, i)| ==> Drop(was, i)[j] != Drop(was, i)[k]
    ensures was[i] !in Drop(was, i) && |Drop(was, i)| == |was| - 1
  {
  }

  function Survivors<T>(s: seq<T>, doom: seq<bool>): (r: seq<T>)
    requires |s| == |doom|
    ensures forall n :: n in r ==> n in s
  {
    if s == [] then []
    else
      var k := |s| - 1;
      Survivors(s[..k], doom[..k]) + if doom[k] then [] else [s[k]]
  }

  /** Deleting the node between what was kept and what is still to come. */
  lemma DropMiddle<T>(kept: seq<DictNode<T>>, was: seq<DictNode<T>>, k: nat)
    requires k < |was|
    ensures Drop(kept + was[k..], |kept|) == kept + was[k + 1..]
  {
  }

  lemma TakeMore<T>(s: seq<T>, k: nat)
    requires k < |s|
    ensures s[..k + 1] == s[..k] + [s[k]]
  {
  }

  lemma SurvivorsStep<T>(s: seq<T>, doom: seq<bool>, k: nat)
    requires k < |s| == |doom|
    ensures Survivors(s[..k + 1], doom[..k + 1]) == Survivors(s[..k], doom[..k]) + if doom[k] then [] else [s[k]]
  {
    assert s[..k + 1][..k] == s[..k] && doom[..k + 1][..k] == doom[..k];
  }

  /** DictNode `i`, or none outside the list. */
  ghost function Nth<T>(nodes: seq<DictNode<T>>, i: int): DictNode?<T> {
    if 0 <= i < |nodes| then nodes[i] else null
  }

  ghost predicate Linked<T>(nodes: seq<DictNode<T>>)
    reads nodes
  {
    && (forall i, j :: 0 <= i < j < |nodes| ==> nodes[i] != nodes[j])
    && (forall i {:trigger nodes[i].prev} :: 0 <= i < |nodes| ==> nodes[i].prev == Nth(nodes, i - 1))
    && (forall i {:trigger nodes[i].next} :: 0 <= i < |nodes| ==> nodes[i].next == Nth(nodes, i + 1))
    && (forall i {:trigger nodes[i].freed} :: 0 <= i < |nodes| ==> !nodes[i].freed)
  }

  ghost function KeysOf<T>(nodes: seq<DictNode<T>>): seq<string>
    reads nodes
  {
    seq(|nodes|, i requires 0 <= i < |nodes| reads nodes => nodes[i].key)
  }
}
