/**
 * The trie (stl_trie.c). Memory is explicit: calloc adds a node, free removes it, pointers are stored and cleared.
 * A node is named by the prefix it was created for, the only place that ever points to it.
 * A key of the text operations is one without zero bytes; the binary operations take any key.
 */
module Trie {
  import opened Bytes

  type Value = nat

  /** A node: its value, its use count, and the characters under which it has a child. */
  datatype Node = Node(data: Option<Value>, use: int, next: set<Byte>)

  type Memory = map<Bytes, Node>

  /** Where a pointer is stored: in the trie, in a node, or nowhere any more. */
  datatype Place = Root | NextOf(node: Bytes, c: Byte) | Nowhere

  type Content = map<Bytes, Value>

  // ---- counting ----

  function Below(content: Content, p: Bytes): set<Bytes> {
    set k | k in content && p <= k
  }

  /** The number of keys stored at or below a prefix. */
  function Count(content: Content, p: Bytes): nat {
    |Below(content, p)|
  }

  lemma {:induction false} SubsetCount<T>(a: set<T>, b: set<T>)
    requires a <= b
    ensures |a| <= |b|
    decreases b
  {
    if a != {} {
      var x :| x in a;
      SubsetCount(a - {x}, b - {x});
    }
  }

  /** Fewer keys lie below a longer prefix. */
  lemma CountDeeper(content: Content, p: Bytes, q: Bytes)
    requires p <= q
    ensures Count(content, q) <= Count(content, p)
  {
    SubsetCount(Below(content, q), Below(content, p));
  }

  lemma CountAdd(content: Content, key: Bytes, v: Value, p: Bytes)
    requires key !in content
    ensures Count(content[key := v], p) == Count(content, p) + if p <= key then 1 else 0
  {
    if p <= key {
      assert Below(content[key := v], p) == Below(content, p) + {key};
    } else {
      assert Below(content[key := v], p) == Below(content, p);
    }
  }

  lemma CountSame(content: Content, key: Bytes, v: Value, p: Bytes)
    requires key in content
    ensures Count(content[key := v], p) == Count(content, p)
  {
    assert Below(content[key := v], p) == Below(content, p);
  }

  lemma CountAll(content: Content)
    ensures Count(content, []) == |content|
  {
    assert Below(content, []) == content.Keys;
  }

  lemma CountKey(content: Content, key: Bytes)
    requires key in content
    ensures Count(content, key) > 0
  {
    assert key in Below(content, key);
  }

  // ---- the invariant ----

  /** The nodes an unfinished operation on `key` still holds: those at depths lo to hi - 1. */
  predicate Held(p: Bytes, key: Bytes, lo: nat, hi: nat) {
    p <= key && lo <= |p| < hi
  }

  predicate Present(p: Bytes, content: Content, key: Bytes, lo: nat, hi: nat) {
    Count(content, p) > 0 || Held(p, key, lo, hi)
  }

  function Uses(p: Bytes, content: Content, key: Bytes, lo: nat, hi: nat): nat {
    Count(content, p) + if Held(p, key, lo, hi) then 1 else 0
  }

  function DataAt(content: Content, p: Bytes): Option<Value> {
    if p in content then Some(content[p]) else None
  }

  ghost predicate NodeOk(node: Node, p: Bytes, content: Content, key: Bytes, lo: nat, hi: nat) {
    node.data == DataAt(content, p) && node.use == Uses(p, content, key, lo, hi)
  }

  /** No dangling pointer, and no node without one. */
  ghost predicate LinksOk(mem: Memory) {
    forall p, c: Byte :: p in mem ==> (c in mem[p].next <==> p + [c] in mem)
  }

  ghost predicate Nodes(mem: Memory, content: Content, key: Bytes, lo: nat, hi: nat) {
    && (forall p :: p in mem <==> Present(p, content, key, lo, hi))
    && (forall p :: p in mem ==> NodeOk(mem[p], p, content, key, lo, hi))
  }

  /**
   * The memory holds a trie of these keys: a node for each prefix of a key, counting the keys below it, and no others,
   * up to the nodes an unfinished operation holds.
   */
  ghost predicate Tree(mem: Memory, root: bool, content: Content, key: Bytes, lo: nat, hi: nat) {
    Nodes(mem, content, key, lo, hi) && LinksOk(mem) && (root <==> [] in mem)
  }

  /** The node a place points to. */
  function Load(mem: Memory, root: bool, place: Place): Option<Bytes> {
    match place
    case Root => if root then Some([]) else None
    case NextOf(p, c) => if p in mem && c in mem[p].next then Some(p + [c]) else None
    case Nowhere => None
  }

  function StoreIn(mem: Memory, place: Place, present: bool): Memory {
    match place
    case NextOf(p, c) =>
      if p in mem then mem[p := mem[p].(next := if present then mem[p].next + {c} else mem[p].next - {c})] else mem
    case _ => mem
  }

  /** The place that holds the pointer to the node of a prefix. */
  function PlaceOf(p: Bytes): Place {
    if p == [] then Root else NextOf(p[..|p| - 1], p[|p| - 1])
  }

  lemma Extends(p: Bytes, c: Byte)
    ensures PlaceOf(p + [c]) == NextOf(p, c)
  {
    assert (p + [c])[..|p|] == p;
  }

  lemma PlaceDecides(p: Bytes, q: Bytes, c: Byte)
    ensures PlaceOf(p) == NextOf(q, c) <==> p == q + [c]
  {
    if p != [] {
      assert p == p[..|p| - 1] + [p[|p| - 1]];
    }
    Extends(q, c);
  }

  /** Following a pointer leads to the node of the prefix, if there is one. */
  lemma LoadFinds(mem: Memory, root: bool, content: Content, key: Bytes, lo: nat, hi: nat, p: Bytes)
    requires Tree(mem, root, content, key, lo, hi) && (p == [] || p[..|p| - 1] in mem)
    ensures Load(mem, root, PlaceOf(p)) == if p in mem then Some(p) else None
  {
    hide Nodes;
    if p != [] {
      assert p == p[..|p| - 1] + [p[|p| - 1]];
    }
  }

  /** No node without its parent. */
  lemma Parent(mem: Memory, content: Content, key: Bytes, hi: nat, p: Bytes, c: Byte)
    requires Nodes(mem, content, key, 0, hi) && p + [c] in mem
    ensures p in mem
  {
    CountDeeper(content, p, p + [c]);
    if Held(p + [c], key, 0, hi) {
      assert p <= p + [c] <= key;
    }
  }

  // ---- one node at a time ----

  lemma HeldGrows(key: Bytes, d: nat)
    requires d <= |key|
    ensures forall p :: Held(p, key, 0, d + 1) <==> Held(p, key, 0, d) || p == key[..d]
    ensures !Held(key[..d], key, 0, d)
  {
    forall p ensures Held(p, key, 0, d + 1) <==> Held(p, key, 0, d) || p == key[..d] {
      if p <= key && |p| == d {
        assert p == key[..d];
      }
    }
  }

  /** A node is used once more. */
  lemma UseMore(mem: Memory, root: bool, content: Content, key: Bytes, d: nat)
    requires Tree(mem, root, content, key, 0, d) && d <= |key| && key[..d] in mem
    ensures var p := key[..d];
            Tree(mem[p := mem[p].(use := mem[p].use + 1)], root, content, key, 0, d + 1)
  {
    hide Count, Held, DataAt;
    HeldGrows(key, d);
  }

  /** A fresh node at a missing prefix, linked in. */
  lemma NewNode(mem: Memory, root: bool, content: Content, key: Bytes, d: nat)
    requires Tree(mem, root, content, key, 0, d) && d <= |key| && key[..d] !in mem
    requires d > 0 ==> key[..d - 1] in mem
    ensures var p := key[..d];
            Tree(StoreIn(mem[p := Node(None, 1, {})], PlaceOf(p), true), root || p == [], content, key, 0, d + 1)
  {
    var p := key[..d];
    var mem' := StoreIn(mem[p := Node(None, 1, {})], PlaceOf(p), true);
    assert p !in content by {
      if p in content {
        CountKey(content, p);
      }
    }
    assert forall c: Byte :: p + [c] !in mem by {
      forall c: Byte | p + [c] in mem ensures false {
        Parent(mem, content, key, d, p, c);
      }
    }
    assert d > 0 ==> p[..|p| - 1] == key[..d - 1];
    NewLinks(mem, p);
    hide LinksOk, Count, Held;
    HeldGrows(key, d);
  }

  lemma NewLinks(mem: Memory, p: Bytes)
    requires LinksOk(mem) && p !in mem && (p == [] || p[..|p| - 1] in mem)
    requires forall c: Byte :: p + [c] !in mem
    ensures LinksOk(StoreIn(mem[p := Node(None, 1, {})], PlaceOf(p), true))
  {
    var mem' := StoreIn(mem[p := Node(None, 1, {})], PlaceOf(p), true);
    forall q, c: Byte | q in mem' ensures c in mem'[q].next <==> q + [c] in mem' {
      PlaceDecides(p, q, c);
    }
  }

  lemma HeldShrinks(key: Bytes, lo: nat, hi: nat)
    requires lo < hi && lo <= |key|
    ensures forall p :: Held(p, key, lo, hi) <==> Held(p, key, lo + 1, hi) || p == key[..lo]
    ensures !Held(key[..lo], key, lo + 1, hi)
  {
    forall p | p <= key && |p| == lo ensures p == key[..lo] {
    }
  }

  /** A node is used once less, and stays. */
  lemma UseLess(mem: Memory, root: bool, content: Content, key: Bytes, lo: nat, hi: nat)
    requires Tree(mem, root, content, key, lo, hi) && lo < hi && lo <= |key| && key[..lo] in mem
    ensures var p := key[..lo];
            && (mem[p].use - 1 == 0 <==> Count(content, p) == 0)
            && (mem[p].use - 1 != 0 ==> Tree(mem[p := mem[p].(use := mem[p].use - 1)], root, content, key, lo + 1, hi))
  {
    hide Count, Held, DataAt;
    HeldShrinks(key, lo, hi);
  }

  /** A node is used no more: it is freed, and the pointer to it cleared if that still exists. */
  lemma FreeNode(mem: Memory, root: bool, content: Content, key: Bytes, lo: nat, hi: nat)
    requires Tree(mem, root, content, key, lo, hi) && lo < hi && lo <= |key| && key[..lo] in mem
    requires Count(content, key[..lo]) == 0
    ensures var p := key[..lo];
            Tree(StoreIn(mem - {p}, PlaceOf(p), false), root && p != [], content, key, lo + 1, hi)
  {
    var p := key[..lo];
    GoneLinks(mem, p);
    hide LinksOk, Count, Held, DataAt;
    HeldShrinks(key, lo, hi);
  }

  lemma GoneLinks(mem: Memory, p: Bytes)
    requires LinksOk(mem) && p in mem
    ensures LinksOk(StoreIn(mem - {p}, PlaceOf(p), false))
  {
    var mem' := StoreIn(mem - {p}, PlaceOf(p), false);
    forall q, c: Byte | q in mem' ensures c in mem'[q].next <==> q + [c] in mem' {
      PlaceDecides(p, q, c);
    }
  }

  /** The memory is determined by what it stores. */
  lemma SameTree(a: Memory, b: Memory, ra: bool, rb: bool, content: Content, key: Bytes, d: nat)
    requires Tree(a, ra, content, key, 0, 0) && Tree(b, rb, content, key, d, d)
    ensures a == b && ra == rb
  {
    hide Count;
    forall p ensures p in a <==> p in b {
    }
    forall p | p in a ensures a[p] == b[p] {
      assert a[p].next == b[p].next by {
        forall c: Byte ensures c in a[p].next <==> c in b[p].next {
          assert c in a[p].next <==> p + [c] in a;
          assert c in b[p].next <==> p + [c] in b;
        }
      }
    }
  }

  lemma DataKeepsLinks(mem: Memory, p: Bytes, data: Option<Value>)
    requires LinksOk(mem) && p in mem
    ensures LinksOk(mem[p := mem[p].(data := data)])
  {
  }

  /** With every node on the way counted, setting the value stores the key. */
  lemma Stored(mem: Memory, root: bool, content: Content, key: Bytes, v: Value)
    requires Tree(mem, root, content, key, 0, |key| + 1) && key !in content && key in mem
    ensures Tree(mem[key := mem[key].(data := Some(v))], root, content[key := v], key, 0, 0)
  {
    var after, hi := content[key := v], |key| + 1;
    forall p ensures Count(after, p) == Uses(p, content, key, 0, hi) {
      CountAdd(content, key, v, p);
    }
    DataKeepsLinks(mem, key, Some(v));
    hide Count, LinksOk, Held;
  }

  /** Clearing the value leaves the nodes on the way counted once too often. */
  lemma Cleared(mem: Memory, root: bool, content: Content, key: Bytes)
    requires Tree(mem, root, content, key, 0, 0) && key in content && key in mem
    ensures Tree(mem[key := mem[key].(data := None)], root, content - {key}, key, 0, |key| + 1)
  {
    var rest := content - {key};
    assert rest[key := content[key]] == content;
    forall p ensures Count(content, p) == Uses(p, rest, key, 0, |key| + 1) {
      CountAdd(rest, key, content[key], p);
    }
    DataKeepsLinks(mem, key, None);
    hide Count, LinksOk, Held;
  }

  lemma Replaced(mem: Memory, root: bool, content: Content, key: Bytes, v: Value)
    requires Tree(mem, root, content, key, 0, 0) && key in content && key in mem
    ensures Tree(mem[key := mem[key].(data := Some(v))], root, content[key := v], key, 0, 0)
  {
    forall p ensures Count(content[key := v], p) == Count(content, p) {
      CountSame(content, key, v, p);
    }
    DataKeepsLinks(mem, key, Some(v));
    hide Count, LinksOk, Held;
  }

  lemma KeyIrrelevant(mem: Memory, root: bool, content: Content, key: Bytes, other: Bytes, d: nat)
    requires Tree(mem, root, content, key, d, d)
    ensures Tree(mem, root, content, other, 0, 0)
  {
    hide Count;
  }

  // ---- the code ----

  class Trie {
    var root: bool              // the root pointer is not NULL
    var mem: Memory
    ghost var content: Content

    ghost predicate Valid()
      reads this
    {
      Tree(mem, root, content, [], 0, 0)
    }

    /** stl_trie_new. */
    constructor ()
      ensures Valid() && content == map[]
    {
      root, mem, content := false, map[], map[];
    }

    /** stl_trie_find_end and its binary twin. */
    method FindEnd(key: Bytes) returns (node: Option<Bytes>)
      requires Valid()
      ensures node == if key in mem then Some(key) else None
    {
      hide Nodes;
      node := if root then Some([]) else None;
      for d := 0 to |key|
        invariant node == if key[..d] in mem then Some(key[..d]) else None
      {
        NextPrefix(key, d);
        if node.None? {
          Missing(mem, root, content, key, d);
          return;
        }
        node := Load(mem, root, NextOf(node.value, key[d]));
      }
      assert key[..|key|] == key;
    }

    /** stl_trie_insert_rollback: undoes the counts and nodes of an insert that got no further than depth `reached`. */
    method Rollback(key: Bytes, ghost reached: nat)
      requires reached <= |key| && key[..reached] !in mem && Tree(mem, root, content, key, 0, reached)
      modifies this`mem, this`root
      ensures Tree(mem, root, content, key, reached, reached)
    {
      hide Tree;
      Absent(mem, root, content, key, 0, reached);
      var node := if root then Some([]) else None;
      var place, p := Root, 0;
      RootIs(mem, root, content, key, 0, reached);
      while node.Some?
        invariant p <= reached && Tree(mem, root, content, key, p, reached) && Count(content, key[..reached]) == 0
        invariant node == if key[..p] in mem then Some(key[..p]) else None
        invariant place == PlaceOf(key[..p]) || (place == Nowhere && p > 0 && key[..p - 1] !in mem)
        decreases reached - p
      {
        InReach(mem, root, content, key, p, reached);
        NextPrefix(key, p);
        var nextPlace := NextOf(node.value, key[p]);
        var next := Load(mem, root, nextPlace);
        ChildOf(mem, root, content, key, p, reached);
        UseLess(mem, root, content, key, p, reached);
        LowerKeeps(mem, root, content, key, p, reached);
        mem := mem[node.value := mem[node.value].(use := mem[node.value].use - 1)];
        if mem[node.value].use == 0 {
          mem := mem - {node.value};
          if place != Nowhere {
            mem := StoreIn(mem, place, false);
            root := root && place != Root;
          }
          nextPlace := Nowhere;
        }
        node, place, p := next, nextPlace, p + 1;
      }
      if p < reached {
        InReach(mem, root, content, key, p, reached);
      }
    }

    /**
     * stl_trie_insert and its binary twin; `memory` is how many allocations succeed. The key is stored, or the trie
     * is exactly as it was.
     */
    method Insert(key: Bytes, value: Option<Value>, memory: nat) returns (ok: bool)
      requires Valid()
      modifies this
      ensures Valid()
      ensures ok ==> value.Some? && content == old(content)[key := value.value]
      ensures !ok ==> mem == old(mem) && root == old(root) && content == old(content)
      ensures !ok && value.Some? ==> key !in content && memory <= |key|
    {
      hide Tree, StoreIn, PlaceOf, Load, Count;
      if value.None? {
        return false;
      }
      var found := FindEnd(key);
      Filled(mem, root, content, key);
      if found.Some? && mem[key].data.Some? {
        Replaced(mem, root, content, key, value.value) by { KeyIrrelevant(mem, root, content, [], key, 0); }
        mem := mem[key := mem[key].(data := value)];
        content := content[key := value.value];
        KeyIrrelevant(mem, root, content, key, [], 0);
        return true;
      }
      RootIs(mem, root, content, [], 0, 0);
      assert key[..0] == [];
      var rover, d, left := Root, 0, memory;
      KeyIrrelevant(mem, root, content, [], key, 0);
      while true
        invariant d <= |key| && Tree(mem, root, content, key, 0, d) && rover == PlaceOf(key[..d])
        invariant (d > 0 ==> key[..d - 1] in mem) && content == old(content) && memory <= left + d
        decreases |key| - d
      {
        var p := key[..d];
        Follow(mem, root, content, key, d);
        var node := Load(mem, root, rover);
        if node.None? {
          if left == 0 {
            Rollback(key, d);
            SameTree(old(mem), mem, old(root), root, content, key, d) by { KeyIrrelevant(old(mem), old(root), content, [], key, 0); }
            return false;
          }
          left := left - 1;
          NewNode(mem, root, content, key, d);
          Linked(mem, p);
          mem := StoreIn(mem[p := Node(None, 0, {})], rover, true);
          root := root || p == [];
        } else {
          UseMore(mem, root, content, key, d);
        }
        mem := mem[p := mem[p].(use := mem[p].use + 1)];
        if d == |key| {
          assert key[..|key|] == key;
          Stored(mem, root, content, key, value.value);
          mem := mem[key := mem[key].(data := value)];
          content := content[key := value.value];
          KeyIrrelevant(mem, root, content, key, [], 0);
          return true;
        }
        NextPrefix(key, d);
        rover := NextOf(p, key[d]);
        d := d + 1;
      }
    }

    /** stl_trie_remove and its binary twin. */
    method Remove(key: Bytes) returns (ok: bool)
      requires Valid()
      modifies this
      ensures Valid()
      ensures ok == (key in old(content)) && content == old(content) - {key}
    {
      hide Tree, StoreIn, PlaceOf, Load, Count, Held, Uses;
      var end := FindEnd(key);
      Filled(mem, root, content, key);
      if end.None? || mem[key].data.None? {
        assert content == content - {key};
        return false;
      }
      Cleared(mem, root, content, key) by { KeyIrrelevant(mem, root, content, [], key, 0); }
      mem := mem[key := mem[key].(data := None)];
      content := content - {key};
      ghost var reached := |key| + 1;
      var node, place, p := [], Root, 0;
      RootIs(mem, root, content, key, 0, reached);
      HeldIn(mem, root, content, key, 0, reached);
      while true
        invariant p <= |key| && Tree(mem, root, content, key, p, reached) && content == old(content) - {key}
        invariant node == key[..p] && node in mem
        invariant place == PlaceOf(node) || (place == Nowhere && p > 0 && key[..p - 1] !in mem)
        decreases |key| - p
      {
        UseLess(mem, root, content, key, p, reached);
        LowerKeeps(mem, root, content, key, p, reached);
        mem := mem[node := mem[node].(use := mem[node].use - 1)];
        if mem[node].use <= 0 {
          mem := mem - {node};
          if place != Nowhere {
            mem := StoreIn(mem, place, false);
            root := root && place != Root;
            place := Nowhere;
          }
        }
        if p == |key| {
          break;
        }
        NextPrefix(key, p);
        HeldIn(mem, root, content, key, p + 1, reached);
        if place != Nowhere {
          place := NextOf(node, key[p]);
        }
        node := key[..p + 1];
        p := p + 1;
      }
      KeyIrrelevant(mem, root, content, key, [], reached);
      return true;
    }

    /** stl_trie_lookup: NULL when the key is not stored. */
    method Lookup(key: Bytes) returns (value: Option<Value>)
      requires Valid()
      ensures value == if key in content then Some(content[key]) else None
    {
      var node := FindEnd(key);
      Filled(mem, root, content, key);
      value := if node.Some? then mem[key].data else None;
    }

    /** stl_trie_num_entries: the use count of the root. */
    method NumEntries() returns (n: int)
      requires Valid()
      ensures n == |content|
    {
      CountAll(content);
      RootIs(mem, root, content, [], 0, 0);
      if !root {
        return 0;
      }
      assert NodeOk(mem[[]], [], content, [], 0, 0);
      return mem[[]].use;
    }
  }

  lemma NextPrefix(key: Bytes, d: nat)
    requires d < |key|
    ensures key[..d + 1] == key[..d] + [key[d]] && PlaceOf(key[..d + 1]) == NextOf(key[..d], key[d])
  {
    Extends(key[..d], key[d]);
  }

  /** A missing node has no nodes below it. */
  lemma {:induction false} Missing(mem: Memory, root: bool, content: Content, key: Bytes, d: nat)
    requires Tree(mem, root, content, [], 0, 0) && d <= |key| && key[..d] !in mem
    ensures key !in mem
  {
    CountDeeper(content, key[..d], key);
  }

  lemma Absent(mem: Memory, root: bool, content: Content, key: Bytes, lo: nat, hi: nat)
    requires Tree(mem, root, content, key, lo, hi) && hi <= |key| && key[..hi] !in mem
    ensures Count(content, key[..hi]) == 0
  {
  }

  lemma RootIs(mem: Memory, root: bool, content: Content, key: Bytes, lo: nat, hi: nat)
    requires Tree(mem, root, content, key, lo, hi)
    ensures root <==> [] in mem
    ensures key[..0] == [] && PlaceOf([]) == Root
  {
  }

  lemma HeldIn(mem: Memory, root: bool, content: Content, key: Bytes, lo: nat, hi: nat)
    requires Tree(mem, root, content, key, lo, hi) && lo < hi && lo <= |key|
    ensures key[..lo] in mem
  {
    assert Held(key[..lo], key, lo, hi);
  }

  /** While nodes are held, the next one is there; at the end it is not. */
  lemma InReach(mem: Memory, root: bool, content: Content, key: Bytes, p: nat, reached: nat)
    requires Tree(mem, root, content, key, p, reached) && p <= reached <= |key| && Count(content, key[..reached]) == 0
    ensures p < reached <==> key[..p] in mem
  {
    if p < reached {
      HeldIn(mem, root, content, key, p, reached);
    }
  }

  lemma ChildOf(mem: Memory, root: bool, content: Content, key: Bytes, p: nat, hi: nat)
    requires Tree(mem, root, content, key, p, hi) && p < |key| && key[..p] in mem
    ensures Load(mem, root, NextOf(key[..p], key[p])) == if key[..p + 1] in mem then Some(key[..p + 1]) else None
  {
    NextPrefix(key, p);
  }

  /** What one turn of the unwinding loops leaves. */
  lemma LowerKeeps(mem: Memory, root: bool, content: Content, key: Bytes, p: nat, hi: nat)
    requires Tree(mem, root, content, key, p, hi) && p < hi && p <= |key| && key[..p] in mem
    ensures var node := key[..p];
            var less := mem[node := mem[node].(use := mem[node].use - 1)];
            && less - {node} == mem - {node} && (less[node].use <= 0 ==> less[node].use == 0)
            && (p > 0 && key[..p - 1] !in mem ==>
                  Count(content, node) == 0 && StoreIn(mem - {node}, PlaceOf(node), false) == mem - {node} && node != [])
            && (less[node].use == 0 ==>
                  Tree(StoreIn(mem - {node}, PlaceOf(node), false), root && node != [], content, key, p + 1, hi))
            && (less[node].use == 0 ==> node !in StoreIn(mem - {node}, PlaceOf(node), false))
            && (PlaceOf(node) == Root <==> node == []) && PlaceOf(node) != Nowhere
            && (p + 1 <= |key| ==>
                  (key[..p + 1] in mem <==> key[..p + 1] in less)
                  && (key[..p + 1] in mem <==> key[..p + 1] in StoreIn(mem - {node}, PlaceOf(node), false)))
  {
    var node := key[..p];
    assert NodeOk(mem[node], node, content, key, p, hi);
    if p > 0 && key[..p - 1] !in mem {
      CountDeeper(content, key[..p - 1], node);
      assert node[..|node| - 1] == key[..p - 1];
    }
    if Count(content, node) == 0 {
      FreeNode(mem, root, content, key, p, hi);
    }
  }

  /** The node the insert looks at. */
  lemma Follow(mem: Memory, root: bool, content: Content, key: Bytes, d: nat)
    requires Tree(mem, root, content, key, 0, d) && d <= |key| && (d > 0 ==> key[..d - 1] in mem)
    ensures Load(mem, root, PlaceOf(key[..d])) == if key[..d] in mem then Some(key[..d]) else None
  {
    var p := key[..d];
    if d > 0 {
      assert p[..|p| - 1] == key[..d - 1];
    }
    LoadFinds(mem, root, content, key, 0, d, p);
  }

  /** A fresh node, linked and then counted once. */
  lemma Linked(mem: Memory, p: Bytes)
    requires p !in mem
    ensures var linked := StoreIn(mem[p := Node(None, 0, {})], PlaceOf(p), true);
            && p in linked
            && linked[p := linked[p].(use := linked[p].use + 1)] == StoreIn(mem[p := Node(None, 1, {})], PlaceOf(p), true)
  {
    if p != [] {
      assert |p[..|p| - 1]| < |p|;
    }
  }

  /** A key is stored exactly when its node has a value. */
  lemma Filled(mem: Memory, root: bool, content: Content, key: Bytes)
    requires Tree(mem, root, content, [], 0, 0)
    ensures key in content <==> key in mem && mem[key].data.Some?
    ensures key in content ==> mem[key].data == Some(content[key])
  {
    if key in content {
      CountKey(content, key);
    }
    if key in mem {
      assert NodeOk(mem[key], key, content, [], 0, 0);
    }
  }

  /** Every node counts the keys stored at or below it, and is there because of at least one. */
  lemma EveryNodeCounts(mem: Memory, root: bool, content: Content, p: Bytes)
    requires Tree(mem, root, content, [], 0, 0)
    ensures p in mem <==> exists k :: k in content && p <= k
    ensures p in mem ==> mem[p].use == |set k | k in content && p <= k| && mem[p].use >= 1
  {
    assert Below(content, p) == set k | k in content && p <= k;
    if k :| k in content && p <= k {
      assert k in Below(content, p);
    }
    if p in mem {
      assert NodeOk(mem[p], p, content, [], 0, 0);
    }
  }
}
