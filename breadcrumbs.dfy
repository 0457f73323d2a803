/** The breadcrumb trail (client/src/components/breadcrumbs/Breadcrumbs.tsx): the path of
    folder ids becomes the items those ids name,
    `path.map(id => items.find(x => x.id === id)).filter(Boolean)`. */
module Breadcrumbs {
  import opened Wrappers
  import opened FileItems

  /** `items.find(x => x.id === id)`: the first item carrying the id. */
  function FindById(items: seq<FileItem>, id: string): (r: Option<FileItem>)
    ensures r.None? <==> forall k :: 0 <= k < |items| ==> items[k].id != id
    ensures r.Some? ==> r.value.id == id
                        && exists k :: 0 <= k < |items| && items[k] == r.value && forall j :: 0 <= j < k ==> items[j].id != id
  {
    if items == [] then None
    else if items[0].id == id then Some(items[0])
    else
      var r := FindById(items[1..], id);
      if r.Some? then
        var k :| 0 <= k < |items[1..]| && items[1..][k] == r.value && forall j :: 0 <= j < k ==> items[1..][j].id != id;
        assert items[k + 1] == r.value;
        assert forall j :: 1 <= j < k + 1 ==> items[j].id != id by {
          forall j | 1 <= j < k + 1
            ensures items[j].id != id
          {
            assert items[j] == items[1..][j - 1];
          }
        }
        r
      else
        assert forall k :: 1 <= k < |items| ==> items[k] == items[1..][k - 1];
        r
  }

  /** The crumbs: one per path id that names an item, in path order; ids that name no
      item are dropped. */
  function Nodes(path: seq<string>, items: seq<FileItem>): (nodes: seq<FileItem>)
    ensures |nodes| <= |path|
  {
    if path == [] then []
    else
      var init := Nodes(path[..|path| - 1], items);
      match FindById(items, path[|path| - 1])
      case Some(n) => init + [n]
      case None => init
  }

  /** The positions on the path whose id names an item. */
  ghost function FoundAt(path: seq<string>, items: seq<FileItem>): seq<int> {
    if path == [] then []
    else
      var init := FoundAt(path[..|path| - 1], items);
      if FindById(items, path[|path| - 1]).Some? then init + [|path| - 1] else init
  }

  /** The k-th crumb is the item found for the k-th path position that names one; those
      positions increase along the path and include every position whose id is found. */
  lemma NodesFollowPath(path: seq<string>, items: seq<FileItem>)
    ensures var nodes, pos := Nodes(path, items), FoundAt(path, items);
            && |nodes| == |pos|
            && (forall k :: 0 <= k < |pos| ==> 0 <= pos[k] < |path| && FindById(items, path[pos[k]]) == Some(nodes[k]))
            && (forall k, l :: 0 <= k < l < |pos| ==> pos[k] < pos[l])
            && (forall i :: 0 <= i < |path| ==> (FindById(items, path[i]).Some? <==> i in pos))
  {
    FoundAtIncreasing(path, items);
    NodesAtFound(path, items);
    FoundAtComplete(path, items);
  }

  lemma {:induction false} FoundAtIncreasing(path: seq<string>, items: seq<FileItem>)
    ensures forall k :: 0 <= k < |FoundAt(path, items)| ==> 0 <= FoundAt(path, items)[k] < |path|
    ensures forall k, l :: 0 <= k < l < |FoundAt(path, items)| ==> FoundAt(path, items)[k] < FoundAt(path, items)[l]
    decreases |path|
  {
    if path != [] {
      var init := path[..|path| - 1];
      FoundAtIncreasing(init, items);
      var pos0 := FoundAt(init, items);
      if FindById(items, path[|path| - 1]).Some? {
        var pos := pos0 + [|path| - 1];
        assert FoundAt(path, items) == pos;
        forall k, l | 0 <= k < l < |pos|
          ensures pos[k] < pos[l]
        {
          assert pos[k] == pos0[k];
        }
      } else {
        assert FoundAt(path, items) == pos0;
      }
    }
  }

  lemma {:induction false} NodesAtFound(path: seq<string>, items: seq<FileItem>)
    ensures var nodes, pos := Nodes(path, items), FoundAt(path, items);
            && |nodes| == |pos|
            && forall k :: 0 <= k < |pos| ==> 0 <= pos[k] < |path| && FindById(items, path[pos[k]]) == Some(nodes[k])
    decreases |path|
  {
    if path != [] {
      var n := |path|;
      var init := path[..n - 1];
      NodesAtFound(init, items);
      var nodes0, pos0 := Nodes(init, items), FoundAt(init, items);
      assert forall k :: 0 <= k < |pos0| ==> path[pos0[k]] == init[pos0[k]];
      var found := FindById(items, path[n - 1]);
      if found.Some? {
        assert Nodes(path, items) == nodes0 + [found.value];
        assert FoundAt(path, items) == pos0 + [n - 1];
      }
    }
  }

  lemma {:induction false} FoundAtComplete(path: seq<string>, items: seq<FileItem>)
    ensures forall i :: 0 <= i < |path| ==> (FindById(items, path[i]).Some? <==> i in FoundAt(path, items))
    decreases |path|
  {
    if path != [] {
      var n := |path|;
      var init := path[..n - 1];
      FoundAtComplete(init, items);
      FoundAtIncreasing(init, items);
      var pos0 := FoundAt(init, items);
      var pos := FoundAt(path, items);
      assert n - 1 !in pos0;
      assert pos == pos0 + [n - 1] || pos == pos0;
      forall i | 0 <= i < n - 1
        ensures FindById(items, path[i]).Some? <==> i in pos
      {
        assert path[i] == init[i];
        assert i in pos <==> i in pos0;
      }
    }
  }

  /** When every id on the path names an item, there is one crumb per id, in path order. */
  lemma AllFound(path: seq<string>, items: seq<FileItem>)
    requires forall i :: 0 <= i < |path| ==> exists k :: 0 <= k < |items| && items[k].id == path[i]
    ensures var nodes := Nodes(path, items);
            |nodes| == |path| && forall k :: 0 <= k < |path| ==> nodes[k].id == path[k]
  {
    NodesFollowPath(path, items);
    var nodes, pos := Nodes(path, items), FoundAt(path, items);
    forall i | 0 <= i < |path|
      ensures i in pos
    {
      var k :| 0 <= k < |items| && items[k].id == path[i];
      assert FindById(items, path[i]).Some?;
    }
    StrictlyIncreasingCover(pos, |path|);
  }

  /** A strictly increasing sequence of positions below n that contains every position
      below n is 0, 1, ..., n - 1. */
  lemma StrictlyIncreasingCover(pos: seq<int>, n: nat)
    requires forall k :: 0 <= k < |pos| ==> 0 <= pos[k] < n
    requires forall k, l :: 0 <= k < l < |pos| ==> pos[k] < pos[l]
    requires forall i :: 0 <= i < n ==> i in pos
    ensures |pos| == n && forall k :: 0 <= k < n ==> pos[k] == k
  {
    forall k | 0 <= k < n
      ensures k < |pos| && pos[k] == k
    {
      IdentityUpTo(pos, n, k);
    }
    if |pos| > n {
      LowerBound(pos, |pos| - 1);
    } else if n > 0 {
      IdentityUpTo(pos, n, n - 1);
    }
  }

  lemma {:induction false} IdentityUpTo(pos: seq<int>, n: nat, k: nat)
    requires forall j :: 0 <= j < |pos| ==> 0 <= pos[j] < n
    requires forall j, l :: 0 <= j < l < |pos| ==> pos[j] < pos[l]
    requires forall i :: 0 <= i < n ==> i in pos
    requires k < n
    ensures k < |pos| && pos[k] == k
  {
    assert k in pos;
    var j :| 0 <= j < |pos| && pos[j] == k;
    LowerBound(pos, j);
    if j < k {
      IdentityUpTo(pos, n, j);
    }
  }

  lemma {:induction false} LowerBound(pos: seq<int>, k: nat)
    requires 0 <= k < |pos|
    requires forall j :: 0 <= j < |pos| ==> 0 <= pos[j]
    requires forall j, l :: 0 <= j < l < |pos| ==> pos[j] < pos[l]
    ensures pos[k] >= k
  {
    if k > 0 {
      LowerBound(pos, k - 1);
    }
  }
}
