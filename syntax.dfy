/**
 * The syntax tree the C++ parser returns for the synthetic translation
 * unit, reduced to what the detector looks at: every cursor's ordered
 * children. Measures of the tree and the verdict drawn from them.
 */
module Syntax {

  /** A cursor of the parsed translation unit and its children, in the
      order the parser lists them. */
  datatype Node = Node(children: seq<Node>)

  function Max(a: int, b: int): int {
    if a < b then b else a
  }

  /** The number of cursors in the tree, root included. */
  function Size(t: Node): nat
    decreases t, 1
  {
    1 + ForestSize(t.children)
  }

  function ForestSize(ts: seq<Node>): nat
    decreases ts, 0
  {
    if ts == [] then 0 else ForestSize(ts[..|ts| - 1]) + Size(ts[|ts| - 1])
  }

  /** The length of the longest path from the root down to a cursor, so a
      lone root has height 0. */
  function Height(t: Node): nat
    decreases t, 1
  {
    if t.children == [] then 0 else 1 + ForestHeight(t.children)
  }

  /** The greatest height among the trees, 0 when there are none. */
  function ForestHeight(ts: seq<Node>): nat
    decreases ts, 0
  {
    if ts == [] then 0 else Max(ForestHeight(ts[..|ts| - 1]), Height(ts[|ts| - 1]))
  }

  /** The depths at which a depth-first walk that starts at `depth` enters
      each cursor, in the order it enters them: the root first, then the
      walks of its children one after another. */
  function Visits(t: Node, depth: int): seq<int>
    decreases t, 1
  {
    [depth] + ForestVisits(t.children, depth + 1)
  }

  function ForestVisits(ts: seq<Node>, depth: int): seq<int>
    decreases ts, 0
  {
    if ts == [] then [] else ForestVisits(ts[..|ts| - 1], depth) + Visits(ts[|ts| - 1], depth)
  }

  /** `Size` counts what the walk enters: it enters every cursor once. */
  lemma {:induction false} VisitsCount(t: Node, depth: int)
    ensures |Visits(t, depth)| == Size(t)
    decreases t, 1
  {
    ForestVisitsCount(t.children, depth + 1);
  }

  lemma {:induction false} ForestVisitsCount(ts: seq<Node>, depth: int)
    ensures |ForestVisits(ts, depth)| == ForestSize(ts)
    decreases ts, 0
  {
    if ts != [] {
      ForestVisitsCount(ts[..|ts| - 1], depth);
      VisitsCount(ts[|ts| - 1], depth);
    }
  }

  /** `Height` is how deep the walk goes: every depth it reaches lies
      between its starting depth and that depth plus the height, and the
      deepest one is reached. */
  lemma {:induction false} VisitsDeepest(t: Node, depth: int)
    ensures forall k :: 0 <= k < |Visits(t, depth)| ==> depth <= Visits(t, depth)[k] <= depth + Height(t)
    ensures depth + Height(t) in Visits(t, depth)
    decreases t, 1
  {
    var v := Visits(t, depth);
    ForestVisitsDeepest(t.children, depth + 1);
    if t.children != [] {
      var k :| 0 <= k < |ForestVisits(t.children, depth + 1)| && ForestVisits(t.children, depth + 1)[k] == depth + Height(t);
      assert v[k + 1] == depth + Height(t);
    }
  }

  lemma {:induction false} ForestVisitsDeepest(ts: seq<Node>, depth: int)
    ensures forall k :: 0 <= k < |ForestVisits(ts, depth)| ==> depth <= ForestVisits(ts, depth)[k] <= depth + ForestHeight(ts)
    ensures ts != [] ==> depth + ForestHeight(ts) in ForestVisits(ts, depth)
    decreases ts, 0
  {
    if ts != [] {
      var init, last := ts[..|ts| - 1], ts[|ts| - 1];
      ForestVisitsDeepest(init, depth);
      VisitsDeepest(last, depth);
      var a, b := ForestVisits(init, depth), Visits(last, depth);
      assert ForestVisits(ts, depth) == a + b;
      if init != [] && ForestHeight(init) > Height(last) {
        var k :| 0 <= k < |a| && a[k] == depth + ForestHeight(init);
        assert (a + b)[k] == a[k];
      } else {
        var k :| 0 <= k < |b| && b[k] == depth + Height(last);
        assert (a + b)[|a| + k] == b[k];
      }
    }
  }

  /** A tree of height `h` has at least `h + 1` cursors: a path from the
      root down holds that many. */
  lemma {:induction false} HeightBelowSize(t: Node)
    ensures Height(t) < Size(t)
    decreases t, 1
  {
    ForestHeightBelowSize(t.children);
  }

  lemma {:induction false} ForestHeightBelowSize(ts: seq<Node>)
    ensures ts != [] ==> ForestHeight(ts) < ForestSize(ts)
    decreases ts, 0
  {
    if ts != [] {
      ForestHeightBelowSize(ts[..|ts| - 1]);
      HeightBelowSize(ts[|ts| - 1]);
    }
  }

  /** The detector assumes that even prose parses to a tree of depth 2 with
      3 cursors, and takes anything larger for code. */
  const ProseDepth: nat := 2
  const ProseSize: nat := 3

  /** The verdict on a parsed comment. Because the height of a tree is below
      its size, the depth test never decides anything: the verdict is
      exactly "more than three cursors". */
  function Verdict(t: Node): (isCode: bool)
    ensures isCode <==> Size(t) > ProseSize
  {
    HeightBelowSize(t);
    Height(t) > ProseDepth || Size(t) > ProseSize
  }
}
