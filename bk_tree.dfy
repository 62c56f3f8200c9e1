/**
 * The Burkhard-Keller tree of perceptual hashes: Hamming distance, the
 * recursive insert that files a hash under the child keyed by its distance
 * to the node, the radius-5 search that prunes keys outside
 * [d - 5, d + 5], and the tree object with its memo cache of search results.
 */
module BKTrees {
  import opened SeqUtil

  // ---------------------------------------------------------------------
  // Hamming distance.

  /** The number of positions i < |s1| where s1 and s2 differ (`charAt` on s2 needs |s2| >= |s1|). */
  function Hamming(s1: string, s2: string): (d: nat)
    requires |s1| <= |s2|
    ensures d <= |s1|
  {
    if s1 == [] then 0
    else Hamming(s1[..|s1| - 1], s2) + (if s1[|s1| - 1] != s2[|s1| - 1] then 1 else 0)
  }

  /** Only the first |s1| characters of s2 matter. */
  lemma {:induction false} HammingPrefix(s1: string, s2: string)
    requires |s1| <= |s2|
    ensures Hamming(s1, s2) == Hamming(s1, s2[..|s1|])
  {
    if s1 != [] {
      var n := |s1| - 1;
      HammingPrefix(s1[..n], s2);
      HammingPrefix(s1[..n], s2[..|s1|]);
      assert s2[..|s1|][..n] == s2[..n];
    }
  }

  /** Distance zero exactly for equal strings (of equal length). */
  lemma {:induction false} HammingZero(s1: string, s2: string)
    requires |s1| == |s2|
    ensures Hamming(s1, s2) == 0 <==> s1 == s2
  {
    if s1 != [] {
      var n := |s1| - 1;
      HammingZero(s1[..n], s2[..n]);
      HammingPrefix(s1[..n], s2);
      assert s1 == s1[..n] + [s1[n]] && s2 == s2[..n] + [s2[n]];
    }
  }

  lemma {:induction false} HammingSymmetric(s1: string, s2: string)
    requires |s1| == |s2|
    ensures Hamming(s1, s2) == Hamming(s2, s1)
  {
    if s1 != [] {
      var n := |s1| - 1;
      HammingSymmetric(s1[..n], s2[..n]);
      HammingPrefix(s1[..n], s2);
      HammingPrefix(s2[..n], s1);
    }
  }

  /** The triangle inequality, which makes the search's pruning sound. */
  lemma {:induction false} HammingTriangle(a: string, b: string, c: string)
    requires |a| == |b| == |c|
    ensures Hamming(a, c) <= Hamming(a, b) + Hamming(b, c)
  {
    if a != [] {
      var n := |a| - 1;
      HammingTriangle(a[..n], b[..n], c[..n]);
      HammingPrefix(a[..n], b);
      HammingPrefix(a[..n], c);
      HammingPrefix(b[..n], c);
    }
  }

  // ---------------------------------------------------------------------
  // Nodes.

  /** A `BKTreeNode`: its hash and its children keyed by distance. */
  datatype Node = Node(hash: string, children: map<nat, Node>)

  /** Every hash stored in the subtree. */
  function Hashes(t: Node): set<string>
  {
    {t.hash} + set d, x | d in t.children && x in Hashes(t.children[d]) :: x
  }

  /** No stored hash is longer than n, so computing distances to an n-character hash never throws. */
  predicate AtMost(t: Node, n: nat) {
    forall x :: x in Hashes(t) ==> |x| <= n
  }

  /**
   * The Burkhard-Keller invariant: every hash in the subtree under key d is at
   * distance d from the node (and at least as long as the node's hash).
   */
  predicate BK(t: Node) {
    forall d :: d in t.children ==> AtDistance(t.hash, d, Hashes(t.children[d])) && BK(t.children[d])
  }

  /** Every hash in s is at distance d from p (and at least as long as p). */
  predicate AtDistance(p: string, d: nat, s: set<string>) {
    forall x :: x in s ==> |p| <= |x| && Hamming(p, x) == d
  }

  lemma ChildHashes(t: Node, d: nat)
    requires d in t.children
    ensures Hashes(t.children[d]) <= Hashes(t)
  {
  }

  /**
   * `BKTreeNode.insert`: compute the distance d, take the child under d
   * (creating it with the new hash if absent), and recurse into it unless
   * its hash equals the new hash.
   */
  function NodeInsert(t: Node, h: string): (r: Node)
    requires AtMost(t, |h|)
    ensures r.hash == t.hash
  {
    var d := Hamming(t.hash, h);
    if d in t.children then
      var child := t.children[d];
      if child.hash == h then t
      else
        ChildHashes(t, d);
        Node(t.hash, t.children[d := NodeInsert(child, h)])
    else Node(t.hash, t.children[d := Node(h, map[])])
  }

  /** Membership in a subtree: the node's own hash, or a hash under one of its keys. */
  lemma HashesMember(t: Node, x: string)
    ensures x in Hashes(t) <==> x == t.hash || exists d :: d in t.children && x in Hashes(t.children[d])
  {
  }

  /** Replacing the child under d by c adds what c adds to the stored set. */
  lemma ReplaceChild(t: Node, d: nat, c: Node, extra: set<string>)
    requires d in t.children ==> Hashes(c) == Hashes(t.children[d]) + extra
    requires d !in t.children ==> Hashes(c) == extra + {c.hash}
    requires d !in t.children ==> c.hash in extra
    ensures Hashes(Node(t.hash, t.children[d := c])) == Hashes(t) + extra
  {
    var r := Node(t.hash, t.children[d := c]);
    forall x ensures x in Hashes(r) <==> x in Hashes(t) + extra {
      HashesMember(r, x);
      HashesMember(t, x);
      if x in Hashes(r) && x != t.hash {
        var e :| e in r.children && x in Hashes(r.children[e]);
        if e != d {
          ChildHashes(t, e);
        }
      }
      if x in Hashes(t) && x != t.hash {
        var e :| e in t.children && x in Hashes(t.children[e]);
        if e != d {
          ChildHashes(r, e);
        } else {
          ChildHashes(r, d);
        }
      }
      if x in extra {
        ChildHashes(r, d);
      }
    }
  }

  /** Inserting adds exactly the new hash to the stored set. */
  lemma {:induction false} InsertHashes(t: Node, h: string)
    requires AtMost(t, |h|)
    ensures Hashes(NodeInsert(t, h)) == Hashes(t) + {h}
  {
    var d := Hamming(t.hash, h);
    if d in t.children {
      var child := t.children[d];
      ChildHashes(t, d);
      if child.hash != h {
        InsertHashes(child, h);
        ReplaceChild(t, d, NodeInsert(child, h), {h});
      } else {
        HashesMember(child, h);
      }
    } else {
      HashesMember(Node(h, map[]), h);
      ReplaceChild(t, d, Node(h, map[]), {h});
    }
  }

  /** Replacing the child under d by a BK subtree whose hashes are all at distance d keeps the invariant. */
  lemma ReplaceChildBK(t: Node, d: nat, c: Node)
    requires BK(t) && BK(c)
    requires AtDistance(t.hash, d, Hashes(c))
    ensures BK(Node(t.hash, t.children[d := c]))
  {
  }

  /** Adding a hash at distance d to a set of hashes at distance d keeps them all at distance d. */
  lemma AddAtDistance(p: string, d: nat, s: set<string>, h: string, r: set<string>)
    requires AtDistance(p, d, s)
    requires |p| <= |h| && Hamming(p, h) == d && r == s + {h}
    ensures AtDistance(p, d, r)
  {
  }

  /** Insertion keeps the Burkhard-Keller invariant. */
  lemma {:induction false} InsertKeepsBK(t: Node, h: string)
    requires AtMost(t, |h|) && BK(t)
    ensures BK(NodeInsert(t, h))
  {
    var d := Hamming(t.hash, h);
    HashesMember(t, t.hash);
    if d in t.children {
      if t.children[d].hash != h {
        ChildHashes(t, d);
        InsertKeepsBK(t.children[d], h);
        InsertHashes(t.children[d], h);
        InsertBelowBK(t, d, h, NodeInsert(t.children[d], h));
      }
    } else {
      InsertLeafBK(t, d, h);
    }
  }

  /** The recursive case: the child under d = Hamming(node, h) is replaced by a BK subtree holding h as well. */
  lemma InsertBelowBK(t: Node, d: nat, h: string, c: Node)
    requires BK(t) && d in t.children && BK(c)
    requires |t.hash| <= |h| && Hamming(t.hash, h) == d
    requires Hashes(c) == Hashes(t.children[d]) + {h}
    ensures BK(Node(t.hash, t.children[d := c]))
  {
    AddAtDistance(t.hash, d, Hashes(t.children[d]), h, Hashes(c));
    ReplaceChildBK(t, d, c);
  }

  /** The base case: a new leaf under d = Hamming(node, h). */
  lemma InsertLeafBK(t: Node, d: nat, h: string)
    requires BK(t) && |t.hash| <= |h| && Hamming(t.hash, h) == d
    ensures BK(Node(t.hash, t.children[d := Node(h, map[])]))
  {
    var leaf := Node(h, map[]);
    assert Hashes(leaf) == {h} by {
      forall x ensures x in Hashes(leaf) <==> x == h {
        HashesMember(leaf, x);
      }
    }
    ReplaceChildBK(t, d, leaf);
  }

  /** Inserting a hash twice in a row changes nothing the second time. */
  lemma {:induction false} InsertIdempotent(t: Node, h: string)
    requires AtMost(t, |h|)
    ensures AtMost(NodeInsert(t, h), |h|)
    ensures NodeInsert(NodeInsert(t, h), h) == NodeInsert(t, h)
  {
    InsertHashes(t, h);
    var d := Hamming(t.hash, h);
    if d in t.children {
      var child := t.children[d];
      ChildHashes(t, d);
      if child.hash != h {
        InsertIdempotent(child, h);
      }
    }
  }

  /** Inserting the root's own hash files a copy of it under key 0. */
  lemma InsertRootHash(t: Node)
    requires AtMost(t, |t.hash|) && 0 !in t.children
    ensures NodeInsert(t, t.hash).children == t.children[0 := Node(t.hash, map[])]
  {
    HammingZero(t.hash, t.hash);
  }

  // ---------------------------------------------------------------------
  // Search.

  /** The search radius `maxDistance`. */
  const MaxDistance: nat := 5

  /**
   * `BKTreeNode.search`, as the list it appends: the node's hash if it is
   * within the radius, then the results of the children keyed
   * max(0, d - 5) .. d + 5, in key order.
   */
  function SearchOf(t: Node, q: string): seq<string>
    requires AtMost(t, |q|)
    decreases t, 1
  {
    var d := Hamming(t.hash, q);
    (if d <= MaxDistance then [t.hash] else []) + KeysFrom(t, q, Lo(d), d + MaxDistance + 1)
  }

  function Lo(d: nat): nat {
    if d >= MaxDistance then d - MaxDistance else 0
  }

  /** The results of children keyed lo .. k - 1, in key order. */
  function KeysFrom(t: Node, q: string, lo: nat, k: nat): seq<string>
    requires AtMost(t, |q|)
    decreases t, 0, k
  {
    if k <= lo then []
    else
      KeysFrom(t, q, lo, k - 1)
      + (if k - 1 in t.children then ChildHashes(t, k - 1); SearchOf(t.children[k - 1], q) else [])
  }

  /** Everything the search reports is stored in the tree and within the radius of the query. */
  lemma {:induction false} SearchSound(t: Node, q: string, x: string)
    requires AtMost(t, |q|)
    ensures x in SearchOf(t, q) ==> x in Hashes(t) && Hamming(x, q) <= MaxDistance
    decreases t, 1
  {
    var d := Hamming(t.hash, q);
    KeysSound(t, q, Lo(d), d + MaxDistance + 1, x);
  }

  lemma {:induction false} KeysSound(t: Node, q: string, lo: nat, k: nat, x: string)
    requires AtMost(t, |q|)
    ensures x in KeysFrom(t, q, lo, k) ==> x in Hashes(t) && Hamming(x, q) <= MaxDistance
    decreases t, 0, k
  {
    if k > lo {
      KeysSound(t, q, lo, k - 1, x);
      if k - 1 in t.children {
        ChildHashes(t, k - 1);
        SearchSound(t.children[k - 1], q, x);
      }
    }
  }

  /** Every hash of one fixed length n. */
  predicate Uniform(t: Node, n: nat) {
    forall x :: x in Hashes(t) ==> |x| == n
  }

  /**
   * For a tree with the Burkhard-Keller invariant whose hashes all have the
   * query's length, the search reports every stored hash within the radius.
   */
  lemma {:induction false} SearchComplete(t: Node, q: string, x: string)
    requires BK(t) && Uniform(t, |q|)
    requires x in Hashes(t) && Hamming(x, q) <= MaxDistance
    ensures x in SearchOf(t, q)
    decreases t
  {
    HashesMember(t, x);
    if x != t.hash {
      var e :| e in t.children && x in Hashes(t.children[e]);
      ChildHashes(t, e);
      SearchComplete(t.children[e], q, x);
      ChildInWindow(t, q, x, e);
      FoundAmongKeys(t, q, x, e);
    } else {
      SearchParts(t, q, x);
    }
  }

  /** A hash within the radius that is stored under key e lies under a key the search visits. */
  lemma ChildInWindow(t: Node, q: string, x: string, e: nat)
    requires BK(t) && Uniform(t, |q|)
    requires e in t.children && x in Hashes(t.children[e]) && Hamming(x, q) <= MaxDistance
    ensures Lo(Hamming(t.hash, q)) <= e < Hamming(t.hash, q) + MaxDistance + 1
  {
    HashesMember(t, t.hash);
    ChildHashes(t, e);
    KeyInWindow(t.hash, x, q, e);
  }

  /** What the child under a visited key reports, the node reports. */
  lemma FoundAmongKeys(t: Node, q: string, x: string, e: nat)
    requires AtMost(t, |q|) && e in t.children
    requires Lo(Hamming(t.hash, q)) <= e < Hamming(t.hash, q) + MaxDistance + 1
    requires AtMost(t.children[e], |q|) && x in SearchOf(t.children[e], q)
    ensures x in SearchOf(t, q)
  {
    var d := Hamming(t.hash, q);
    KeysContain(t, q, Lo(d), d + MaxDistance + 1, e, x);
    SearchParts(t, q, x);
  }

  /** A hash is reported when it is the node's own (within the radius) or comes from a visited key. */
  lemma SearchParts(t: Node, q: string, x: string)
    requires AtMost(t, |q|)
    ensures x == t.hash && Hamming(t.hash, q) <= MaxDistance ==> x in SearchOf(t, q)
    ensures x in KeysFrom(t, q, Lo(Hamming(t.hash, q)), Hamming(t.hash, q) + MaxDistance + 1) ==> x in SearchOf(t, q)
  {
  }

  /**
   * A hash x at distance e from the node and within the radius of q lies under
   * a key the search visits: |e - d| <= Hamming(x, q) by the triangle inequality.
   */
  lemma KeyInWindow(p: string, x: string, q: string, e: nat)
    requires |p| == |x| == |q| && Hamming(p, x) == e && Hamming(x, q) <= MaxDistance
    ensures Lo(Hamming(p, q)) <= e < Hamming(p, q) + MaxDistance + 1
  {
    HammingTriangle(p, x, q);
    HammingTriangle(p, q, x);
    HammingSymmetric(x, q);
  }

  /** A result of the child under key e (lo <= e < k) is among the results for keys lo .. k - 1. */
  lemma {:induction false} KeysContain(t: Node, q: string, lo: nat, k: nat, e: nat, x: string)
    requires AtMost(t, |q|)
    requires lo <= e < k && e in t.children
    requires AtMost(t.children[e], |q|) && x in SearchOf(t.children[e], q)
    ensures x in KeysFrom(t, q, lo, k)
    decreases k
  {
    if e < k - 1 {
      KeysContain(t, q, lo, k - 1, e, x);
    }
    KeysStep(t, q, lo, k - 1);
  }

  // ---------------------------------------------------------------------
  // The searching method.

  /** `search(query, results)`: append this subtree's results to `results`. */
  method Search(t: Node, q: string, results: seq<string>) returns (out: seq<string>)
    requires AtMost(t, |q|)
    ensures out == results + SearchOf(t, q)
    decreases t, 1
  {
    var distance := Hamming(t.hash, q);
    var own := if distance <= MaxDistance then [t.hash] else [];
    out := SearchKeys(t, q, Lo(distance), distance + MaxDistance + 1, results + own);
    ConcatAssoc(results, own, KeysFrom(t, q, Lo(distance), distance + MaxDistance + 1));
  }

  /** The loop of `search` over the keys lo .. hi - 1, appending each child's results. */
  method SearchKeys(t: Node, q: string, lo: nat, hi: nat, acc: seq<string>) returns (out: seq<string>)
    requires AtMost(t, |q|) && lo <= hi
    ensures out == acc + KeysFrom(t, q, lo, hi)
    decreases t, 0
  {
    out := acc;
    for d := lo to hi
      invariant out == acc + KeysFrom(t, q, lo, d)
    {
      KeysStep(t, q, lo, d);
      if d in t.children {
        ChildHashes(t, d);
        out := Search(t.children[d], q, out);
        ConcatAssoc(acc, KeysFrom(t, q, lo, d), SearchOf(t.children[d], q));
      }
    }
  }

  lemma KeysStep(t: Node, q: string, lo: nat, k: nat)
    requires AtMost(t, |q|) && lo <= k
    ensures k in t.children ==> (AtMost(t.children[k], |q|) &&
      KeysFrom(t, q, lo, k + 1) == KeysFrom(t, q, lo, k) + SearchOf(t.children[k], q))
    ensures k !in t.children ==> KeysFrom(t, q, lo, k + 1) == KeysFrom(t, q, lo, k)
  {
    if k in t.children {
      ChildHashes(t, k);
    }
  }

  // ---------------------------------------------------------------------
  // The tree object.

  /** `BKTree`: the root node and the memo cache of `findSimilar`. */
  class BKTree {
    var root: Node
    var cache: map<string, seq<string>>

    /** Every cached list is what a search of the current tree would return. */
    ghost predicate Fresh()
      reads this
    {
      forall q :: q in cache ==> AtMost(root, |q|) && cache[q] == SearchOf(root, q)
    }

    /** `new BKTree(initialHash)`: a single root node and an empty cache. */
    constructor (initialHash: string)
      ensures root == Node(initialHash, map[]) && cache == map[]
      ensures BK(root) && Fresh()
    {
      root := Node(initialHash, map[]);
      cache := map[];
    }

    /** `insert(hash)`: insert at the root; the cache is left as it is. */
    method Insert(h: string)
      requires AtMost(root, |h|)
      modifies this
      ensures root == NodeInsert(old(root), h) && cache == old(cache)
      ensures Hashes(root) == Hashes(old(root)) + {h}
      ensures BK(old(root)) ==> BK(root)
    {
      InsertHashes(root, h);
      if BK(root) {
        InsertKeepsBK(root, h);
      }
      root := NodeInsert(root, h);
    }

    /** `findSimilar(hash)`: the cached list if there is one, otherwise search and cache the result. */
    method FindSimilar(q: string) returns (similar: seq<string>)
      requires AtMost(root, |q|)
      modifies this
      ensures root == old(root)
      ensures q in old(cache) ==> similar == old(cache)[q] && cache == old(cache)
      ensures q !in old(cache) ==> similar == SearchOf(root, q) && cache == old(cache)[q := similar]
      ensures old(Fresh()) ==> Fresh() && similar == SearchOf(root, q)
    {
      if q in cache {
        similar := cache[q];
      } else {
        similar := Search(root, q, []);
        cache := cache[q := similar];
      }
    }
  }
}
