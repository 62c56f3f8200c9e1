/**
 * `groupSimilarFiles`: every hashed file, in list order, asks the BK tree for
 * the stored hashes within the radius, joins the group of the first of them
 * that an earlier file has already been filed under, and otherwise opens a
 * new group numbered by the running counter.
 */
module MediaGrouping {
  import opened Wrappers
  import opened BKTrees
  import opened SeqUtil

  /** A `HashingFile` whose perceptual hash was computed (files with a null hash are filtered out before grouping). */
  datatype HashingFile = HashingFile(path: string, hash: string)

  /**
   * The state grouping works on: `similarityGroups`, `groupCounter`, and the
   * local `hashToGroupMap` from a hash to the group of the last file filed with it.
   */
  datatype Grouping = Grouping(groups: map<nat, seq<HashingFile>>, counter: nat, index: map<string, nat>)

  /**
   * The groups are numbered 1 .. counter - 1 without gaps, none is empty, and
   * every hash is filed under one of them.
   */
  ghost predicate Numbered(g: Grouping) {
    g.counter >= 1
    && (forall id :: id in g.groups <==> 1 <= id < g.counter)
    && (forall id :: id in g.groups ==> g.groups[id] != [])
    && (forall h :: h in g.index ==> g.index[h] in g.groups)
  }

  /** Every filed hash maps to a group holding a file with that hash. */
  ghost predicate Filed(g: Grouping) {
    forall h :: h in g.index ==> g.index[h] in g.groups && exists f :: f in g.groups[g.index[h]] && f.hash == h
  }

  /** The group of the first hash of `similar` that is already filed, if any. */
  function FirstMapped(similar: seq<string>, index: map<string, nat>): Option<nat>
  {
    if similar == [] then None
    else if similar[0] in index then Some(index[similar[0]])
    else FirstMapped(similar[1..], index)
  }

  /** FirstMapped finds the filed hash of smallest position, and None means no hash of `similar` is filed. */
  lemma {:induction false} FirstMappedSpec(similar: seq<string>, index: map<string, nat>)
    ensures FirstMapped(similar, index).None? <==> forall k :: 0 <= k < |similar| ==> similar[k] !in index
    ensures FirstMapped(similar, index).Some? ==>
      exists k :: 0 <= k < |similar| && similar[k] in index && FirstMapped(similar, index).value == index[similar[k]]
        && forall j :: 0 <= j < k ==> similar[j] !in index
  {
    if similar != [] && similar[0] !in index {
      var rest := similar[1..];
      FirstMappedSpec(rest, index);
      if FirstMapped(rest, index).Some? {
        var k :| 0 <= k < |rest| && rest[k] in index && FirstMapped(rest, index).value == index[rest[k]]
          && forall j :: 0 <= j < k ==> rest[j] !in index;
        assert similar[k + 1] == rest[k];
        forall j | 0 <= j < k + 1 ensures similar[j] !in index {
          if j > 0 {
            assert similar[j] == rest[j - 1];
          }
        }
      } else {
        forall k | 0 <= k < |similar| ensures similar[k] !in index {
          if k > 0 {
            assert similar[k] == rest[k - 1];
          }
        }
      }
    }
  }

  /** One iteration of the outer loop: file `f`, whose similar hashes are `similar`. */
  function Place(g: Grouping, f: HashingFile, similar: seq<string>): Grouping
  {
    match FirstMapped(similar, g.index)
    case Some(id) => Join(g, f, id)
    case None => Join(Open(g), f, g.counter)
  }

  /** `groupId = groupCounter++; similarityGroups.put(groupId, new ArrayList<>())`. */
  function Open(g: Grouping): Grouping
  {
    Grouping(g.groups[g.counter := []], g.counter + 1, g.index)
  }

  /** `similarityGroups.get(groupId).add(hf); hashToGroupMap.put(hash, groupId)`. */
  function Join(g: Grouping, f: HashingFile, id: nat): Grouping
  {
    Grouping(g.groups[id := (if id in g.groups then g.groups[id] else []) + [f]], g.counter, g.index[f.hash := id])
  }

  /** Place as the source runs it: open a group when none was found, then join. */
  lemma PlaceSteps(g: Grouping, f: HashingFile, similar: seq<string>, groupId: Option<nat>)
    requires groupId == FirstMapped(similar, g.index)
    ensures groupId.Some? ==> Place(g, f, similar) == Join(g, f, groupId.value)
    ensures groupId.None? ==> Place(g, f, similar) == Join(Open(g), f, g.counter)
  {
  }

  /**
   * Filing a file keeps the numbering; the file ends up last in the group its
   * hash now maps to; that group is the one of the first filed similar hash when
   * there is one, and otherwise the new group numbered by the old counter.
   */
  lemma PlaceSpec(g: Grouping, f: HashingFile, similar: seq<string>)
    requires Numbered(g)
    ensures var r := Place(g, f, similar);
      Numbered(r)
      && f.hash in r.index && r.index[f.hash] in r.groups
      && r.groups[r.index[f.hash]] == (if r.index[f.hash] in g.groups then g.groups[r.index[f.hash]] else []) + [f]
      && (forall id :: id in g.groups && id != r.index[f.hash] ==> id in r.groups && r.groups[id] == g.groups[id])
      && (FirstMapped(similar, g.index).Some? ==> r.counter == g.counter && r.index[f.hash] == FirstMapped(similar, g.index).value)
      && (FirstMapped(similar, g.index).None? ==> r.counter == g.counter + 1 && r.index[f.hash] == g.counter)
  {
    FirstMappedFiled(similar, g.index);
    match FirstMapped(similar, g.index)
    case Some(id) =>
      assert id in g.groups;
      assert Join(g, f, id).groups.Keys == g.groups.Keys;
    case None =>
      var o := Open(g);
      assert o.groups[g.counter] == [];
      assert Join(o, f, g.counter).groups.Keys == g.groups.Keys + {g.counter};
  }

  /** The group FirstMapped reports is one the index maps to. */
  lemma {:induction false} FirstMappedFiled(similar: seq<string>, index: map<string, nat>)
    ensures FirstMapped(similar, index).Some? ==> FirstMapped(similar, index).value in index.Values
  {
    if similar != [] && similar[0] !in index {
      FirstMappedFiled(similar[1..], index);
    }
  }

  /** Filing a file keeps every filed hash pointing at a group with a file of that hash. */
  lemma PlaceFiled(g: Grouping, f: HashingFile, similar: seq<string>)
    requires Numbered(g) && Filed(g)
    ensures Filed(Place(g, f, similar))
  {
    PlaceSpec(g, f, similar);
    var r := Place(g, f, similar);
    var id := r.index[f.hash];
    forall h | h in r.index ensures r.index[h] in r.groups && exists e :: e in r.groups[r.index[h]] && e.hash == h {
      if h == f.hash {
        assert f in r.groups[id];
      } else {
        var e :| e in g.groups[g.index[h]] && e.hash == h;
        assert r.index[h] == g.index[h];
        assert e in r.groups[g.index[h]];
      }
    }
  }

  // ---------------------------------------------------------------------
  // Group membership, counted.

  /** How many times x is filed in groups 1 .. n - 1. */
  function Count(groups: map<nat, seq<HashingFile>>, n: nat, x: HashingFile): nat
  {
    if n <= 1 then 0 else Count(groups, n - 1, x) + PartCount(groups, n - 1, x)
  }

  /** How many times x is filed in group k (none when there is no group k). */
  function PartCount(groups: map<nat, seq<HashingFile>>, k: nat, x: HashingFile): nat
  {
    if k in groups then multiset(groups[k])[x] else 0
  }

  /** Appending f to group id (below n) files f once more and leaves every other file's count alone. */
  lemma {:induction false} CountAppend(groups: map<nat, seq<HashingFile>>, n: nat, id: nat, f: HashingFile, x: HashingFile)
    requires id in groups && 1 <= id < n
    ensures Count(groups[id := groups[id] + [f]], n, x) == Count(groups, n, x) + (if x == f then 1 else 0)
  {
    if n - 1 != id {
      CountAppend(groups, n - 1, id, f, x);
    } else {
      CountFrame(groups, n - 1, id, groups[id] + [f], x);
      assert multiset(groups[id] + [f]) == multiset(groups[id]) + multiset{f};
    }
  }

  /** Groups numbered n or above do not count among the groups below n. */
  lemma {:induction false} CountFrame(groups: map<nat, seq<HashingFile>>, n: nat, id: nat, v: seq<HashingFile>, x: HashingFile)
    requires id >= n
    ensures Count(groups[id := v], n, x) == Count(groups, n, x)
  {
    if n > 1 {
      CountFrame(groups, n - 1, id, v, x);
    }
  }

  /** Filing a file adds it to exactly one group. */
  lemma PlaceCount(g: Grouping, f: HashingFile, similar: seq<string>, x: HashingFile)
    requires Numbered(g)
    ensures Count(Place(g, f, similar).groups, Place(g, f, similar).counter, x) == Count(g.groups, g.counter, x) + (if x == f then 1 else 0)
  {
    FirstMappedFiled(similar, g.index);
    match FirstMapped(similar, g.index)
    case Some(id) =>
      CountAppend(g.groups, g.counter, id, f, x);
    case None =>
      CountFrame(g.groups, g.counter, g.counter, [], x);
      CountAppend(Open(g).groups, g.counter + 1, g.counter, f, x);
  }

  // ---------------------------------------------------------------------
  // The whole pass.

  /** The state after filing `files` in order, file k against the similar hashes sims[k]. */
  function GroupWith(files: seq<HashingFile>, sims: seq<seq<string>>, start: Grouping): Grouping
    requires |sims| == |files|
  {
    if files == [] then start
    else Place(GroupWith(files[..|files| - 1], sims[..|sims| - 1], start), files[|files| - 1], sims[|sims| - 1])
  }

  /** One more file extends the pass by one Place. */
  lemma GroupWithStep(files: seq<HashingFile>, sims: seq<seq<string>>, start: Grouping, i: nat)
    requires |sims| == |files| && i < |files|
    ensures GroupWith(files[..i + 1], sims[..i + 1], start) == Place(GroupWith(files[..i], sims[..i], start), files[i], sims[i])
  {
    assert files[..i + 1][..i] == files[..i];
    assert sims[..i + 1][..i] == sims[..i];
  }

  /**
   * The pass keeps the numbering, puts every file into exactly one group, and
   * opens at most one group per file.
   */
  lemma {:induction false} GroupWithSpec(files: seq<HashingFile>, sims: seq<seq<string>>, start: Grouping)
    requires |sims| == |files| && Numbered(start) && Filed(start)
    ensures var r := GroupWith(files, sims, start);
      Numbered(r) && Filed(r)
      && start.counter <= r.counter <= start.counter + |files|
  {
    if files != [] {
      var init := files[..|files| - 1];
      var last := files[|files| - 1];
      var g := GroupWith(init, sims[..|sims| - 1], start);
      GroupWithSpec(init, sims[..|sims| - 1], start);
      PlaceSpec(g, last, sims[|sims| - 1]);
      PlaceFiled(g, last, sims[|sims| - 1]);
    }
  }

  /**
   * Every file is filed exactly once: after the pass, each file is in the
   * groups as many times as before plus as often as it occurs in `files`.
   */
  lemma {:induction false} GroupWithCount(files: seq<HashingFile>, sims: seq<seq<string>>, start: Grouping, x: HashingFile)
    requires |sims| == |files| && Numbered(start) && Filed(start)
    ensures var r := GroupWith(files, sims, start);
      Count(r.groups, r.counter, x) == Count(start.groups, start.counter, x) + multiset(files)[x]
  {
    if files != [] {
      var init := files[..|files| - 1];
      var last := files[|files| - 1];
      var g := GroupWith(init, sims[..|sims| - 1], start);
      GroupWithCount(init, sims[..|sims| - 1], start, x);
      GroupWithSpec(init, sims[..|sims| - 1], start);
      PlaceCount(g, last, sims[|sims| - 1], x);
      MultisetLast(files);
    }
  }

  /** Every hash of the pass's files is filed once the pass is over. */
  lemma {:induction false} GroupWithIndexed(files: seq<HashingFile>, sims: seq<seq<string>>, start: Grouping, k: nat)
    requires |sims| == |files| && k < |files|
    ensures files[k].hash in GroupWith(files, sims, start).index
  {
    var init := files[..|files| - 1];
    if k < |init| {
      GroupWithIndexed(init, sims[..|sims| - 1], start, k);
      assert files[k] == init[k];
    }
  }

  /** The similar hashes of each file: the tree's search result for its hash. */
  function SimilarLists(root: Node, files: seq<HashingFile>): (sims: seq<seq<string>>)
    requires forall k :: 0 <= k < |files| ==> AtMost(root, |files[k].hash|)
    ensures |sims| == |files|
    ensures forall k :: 0 <= k < |files| ==> sims[k] == SearchOf(root, files[k].hash)
  {
    seq(|files|, k requires 0 <= k < |files| => SearchOf(root, files[k].hash))
  }

  /**
   * A file whose hash is already filed and stored in a Burkhard-Keller tree of
   * same-length hashes finds it among its similar hashes (at distance 0), so it
   * joins an existing group instead of opening one.
   */
  lemma RepeatJoinsExisting(root: Node, g: Grouping, f: HashingFile)
    requires BK(root) && Uniform(root, |f.hash|) && f.hash in Hashes(root)
    requires f.hash in g.index
    ensures Place(g, f, SearchOf(root, f.hash)).counter == g.counter
    ensures Place(g, f, SearchOf(root, f.hash)).index[f.hash] in g.index.Values
  {
    HammingZero(f.hash, f.hash);
    SearchComplete(root, f.hash, f.hash);
    var similar := SearchOf(root, f.hash);
    var k :| 0 <= k < |similar| && similar[k] == f.hash;
    FirstMappedSpec(similar, g.index);
  }

  // ---------------------------------------------------------------------
  // The static state of `DuplicateMediaFinder` and the grouping pass.

  /** `similarityGroups` and `groupCounter`. */
  class DuplicateMediaFinder {
    var groups: map<nat, seq<HashingFile>>
    var counter: nat

    /** The static initialisers: no groups, counter 1. */
    constructor ()
      ensures groups == map[] && counter == 1
      ensures Numbered(Grouping(groups, counter, map[]))
    {
      groups := map[];
      counter := 1;
    }

    /**
     * `groupSimilarFiles(hashingFiles)`: file every hashed file in order against
     * `bkTree.findSimilar`, with a fresh `hashToGroupMap`.
     */
    method GroupSimilarFiles(files: seq<HashingFile>, tree: BKTree)
      requires tree.Fresh()
      requires forall k :: 0 <= k < |files| ==> AtMost(tree.root, |files[k].hash|)
      modifies this, tree
      ensures tree.root == old(tree.root) && tree.Fresh()
      ensures var r := GroupWith(files, SimilarLists(tree.root, files), Grouping(old(groups), old(counter), map[]));
        groups == r.groups && counter == r.counter
    {
      var index: map<string, nat> := map[];
      ghost var root := tree.root;
      ghost var sims := SimilarLists(root, files);
      ghost var start := Grouping(groups, counter, map[]);
      for i := 0 to |files|
        invariant tree.root == root && tree.Fresh()
        invariant Grouping(groups, counter, index) == GroupWith(files[..i], sims[..i], start)
      {
        GroupWithStep(files, sims, start, i);
        ghost var before := Grouping(groups, counter, index);
        var f := files[i];
        var similar := tree.FindSimilar(f.hash);
        assert similar == sims[i];
        var groupId := LookupGroup(similar, index);
        var id: nat;
        if groupId.None? {
          id := counter;
          counter := counter + 1;
          groups := groups[id := []];
        } else {
          id := groupId.value;
        }
        ghost var mid := Grouping(groups, counter, index);
        assert mid == if groupId.None? then Open(before) else before;
        PlaceSteps(before, f, similar, groupId);
        groups := groups[id := (if id in groups then groups[id] else []) + [f]];
        index := index[f.hash := id];
        assert Grouping(groups, counter, index) == Join(mid, f, id);
      }
      assert files[..|files|] == files && sims[..|sims|] == sims;
    }
  }

  /** The inner loop: scan the similar hashes for the first one already filed. */
  method LookupGroup(similar: seq<string>, index: map<string, nat>) returns (groupId: Option<nat>)
    ensures groupId == FirstMapped(similar, index)
  {
    groupId := None;
    var k := 0;
    while k < |similar|
      invariant 0 <= k <= |similar|
      invariant FirstMapped(similar, index) == FirstMapped(similar[k..], index)
    {
      if similar[k] in index {
        groupId := Some(index[similar[k]]);
        return;
      }
      assert similar[k..][1..] == similar[k + 1..];
      k := k + 1;
    }
  }
}
