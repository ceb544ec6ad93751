/**
 The tree an indented list of lines denotes, without a heap. `t[0]` is the root, one level above every
 line; `t[i]` is the i-th line that is not blank. A position stands for the node of that line.
 */
module IndentTree {

  /** A file line always carries a non-empty URL; that is how a node is later known to be a file. */
  type Url = u: string | u != "" witness "h"

  datatype Entry = Folder(name: string) | File(url: Url, name: string, size: int)

  datatype Item = Item(level: int, entry: Entry)

  const ROOT := Item(-1, Folder("root"))

  ghost predicate Rooted(t: seq<Item>) {
    t != [] && t[0] == ROOT && forall i :: 1 <= i < |t| ==> t[i].level >= 0
  }

  // ---------------------------------------------------------------- parents

  /** Folder `j` has not been closed by any line strictly between `j` and `i`. */
  ghost predicate Open(t: seq<Item>, j: nat, i: nat) {
    j < i <= |t| && t[j].entry.Folder? && forall k :: j < k < i ==> t[k].level > t[j].level
  }

  ghost predicate Encloses(t: seq<Item>, j: nat, i: nat) {
    i < |t| && Open(t, j, i) && t[j].level < t[i].level
  }

  /** The latest earlier folder of smaller level that nothing in between has closed. */
  ghost function Parent(t: seq<Item>, i: nat): (p: nat)
    requires Rooted(t) && 1 <= i < |t|
    ensures Encloses(t, p, i) && forall j: nat :: Encloses(t, j, i) ==> j <= p
  {
    assert Encloses(t, 0, i);
    Latest(t, i, i - 1)
  }

  ghost function Latest(t: seq<Item>, i: nat, j: nat): (p: nat)
    requires Encloses(t, 0, i) && j < i
    ensures Encloses(t, p, i) && p <= j && forall k: nat :: k <= j && Encloses(t, k, i) ==> k <= p
  {
    if Encloses(t, j, i) then j else Latest(t, i, j - 1)
  }

  /** The positions among the first `n` whose parent is `p`, in order. */
  ghost function Kids(t: seq<Item>, p: nat, n: nat): (ks: seq<nat>)
    requires Rooted(t) && n <= |t|
    ensures forall k :: 0 <= k < |ks| ==> 1 <= ks[k] < n
  {
    if n <= 1 then []
    else
      var front := Kids(t, p, n - 1);
      if Parent(t, n - 1) == p then front + [n - 1] else front
  }

  ghost predicate Ascending(s: seq<nat>) {
    forall i, j :: 0 <= i < j < |s| ==> s[i] < s[j]
  }

  lemma {:induction false} KidsMembers(t: seq<Item>, p: nat, n: nat)
    requires Rooted(t) && n <= |t|
    ensures Ascending(Kids(t, p, n))
    ensures forall i :: i in Kids(t, p, n) <==> 1 <= i < n && Parent(t, i) == p
    decreases n
  {
    if n > 1 {
      KidsMembers(t, p, n - 1);
      var front := Kids(t, p, n - 1);
      AscendingMore(front, n - 1);
      forall i ensures i in front + [n - 1] <==> i in front || i == n - 1 {
      }
    }
  }

  lemma AscendingMore(s: seq<nat>, n: nat)
    requires Ascending(s) && forall k :: 0 <= k < |s| ==> s[k] < n
    ensures Ascending(s + [n])
  {
  }

  /** What is known of the parents of a prefix does not change when lines are added. */
  lemma {:induction false} KidsOfPrefix(t: seq<Item>, s: seq<Item>, p: nat, n: nat)
    requires Rooted(t) && Rooted(s) && s <= t && n <= |s|
    ensures Kids(t, p, n) == Kids(s, p, n)
    decreases n
  {
    if n > 1 {
      KidsOfPrefix(t, s, p, n - 1);
      ParentOfPrefix(t, s, n - 1);
    }
  }

  lemma ParentOfPrefix(t: seq<Item>, s: seq<Item>, i: nat)
    requires Rooted(t) && Rooted(s) && s <= t && 1 <= i < |s|
    ensures Parent(t, i) == Parent(s, i)
  {
    forall j: nat ensures Encloses(t, j, i) <==> Encloses(s, j, i) {
      if j < i {
        assert forall k :: 0 <= k <= i ==> t[k] == s[k];
      }
    }
  }

  // ---------------------------------------------------------------- ranges

  /** Where the lines under position `i` end. */
  ghost function End(t: seq<Item>, i: nat): (e: nat)
    requires i < |t|
    ensures i < e <= |t|
    ensures t[i].entry.File? ==> e == i + 1
    ensures t[i].entry.Folder? ==>
      (forall k :: i < k < e ==> t[k].level > t[i].level) && (e < |t| ==> t[e].level <= t[i].level)
  {
    if t[i].entry.File? then i + 1 else Scan(t, i, i + 1)
  }

  ghost function Scan(t: seq<Item>, i: nat, k: nat): (e: nat)
    requires i < k <= |t|
    requires forall m :: i < m < k ==> t[m].level > t[i].level
    ensures k <= e <= |t|
    ensures (forall m :: i < m < e ==> t[m].level > t[i].level) && (e < |t| ==> t[e].level <= t[i].level)
    decreases |t| - k
  {
    if k < |t| && t[k].level > t[i].level then Scan(t, i, k + 1) else k
  }

  lemma EnclosesIsRange(t: seq<Item>, j: nat, i: nat)
    requires j < |t| && i < |t|
    ensures Encloses(t, j, i) <==> t[j].entry.Folder? && j < i < End(t, j)
  {
  }

  lemma Nested(t: seq<Item>, j: nat, i: nat)
    requires j < |t| && j < i < End(t, j)
    ensures End(t, i) <= End(t, j)
  {
  }

  /** The heads of the consecutive ranges that fill `lo..hi`. */
  ghost function Siblings(t: seq<Item>, lo: nat, hi: nat): (ks: seq<nat>)
    requires hi <= |t|
    ensures forall k :: 0 <= k < |ks| ==> ks[k] < hi
    decreases hi - lo
  {
    if lo >= hi then [] else [lo] + Siblings(t, End(t, lo), hi)
  }

  ghost predicate Below(t: seq<Item>, p: nat, lo: nat)
    requires Rooted(t) && p < |t|
  {
    forall i :: lo <= i < End(t, p) && 1 <= i ==> Parent(t, i) == p || Parent(t, i) >= lo
  }

  /** Where the parents of the lines from `lo` on lie: at `p`, inside the first range, or after it. */
  lemma {:induction false} BelowSplits(t: seq<Item>, p: nat, lo: nat, i: nat)
    requires Rooted(t) && p < |t| && t[p].entry.Folder? && p < lo <= i < End(t, p) && Below(t, p, lo)
    ensures var next := End(t, lo);
      && (i == lo ==> Parent(t, i) == p)
      && (lo < i < next ==> Parent(t, i) != p)
      && (next <= i ==> Parent(t, i) == p || Parent(t, i) >= next)
  {
    var q, next := Parent(t, i), End(t, lo);
    EnclosesIsRange(t, q, i);
    EnclosesIsRange(t, lo, i);
    if lo < q < next {
      Nested(t, lo, q);
    }
  }

  lemma {:induction false} SiblingsMembers(t: seq<Item>, p: nat, lo: nat)
    requires Rooted(t) && p < |t| && t[p].entry.Folder? && p < lo <= End(t, p) && Below(t, p, lo)
    ensures Ascending(Siblings(t, lo, End(t, p)))
    ensures forall i :: i in Siblings(t, lo, End(t, p)) <==> lo <= i < End(t, p) && Parent(t, i) == p
    decreases End(t, p) - lo
  {
    var hi := End(t, p);
    if lo < hi {
      var next := End(t, lo);
      Nested(t, p, lo);
      forall i | lo <= i < hi
        ensures i == lo ==> Parent(t, i) == p
        ensures lo < i < next ==> Parent(t, i) != p
        ensures next <= i ==> Parent(t, i) == p || Parent(t, i) >= next
      {
        BelowSplits(t, p, lo, i);
      }
      SiblingsMembers(t, p, next);
      var rest := Siblings(t, next, hi);
      forall i | 0 <= i < |rest| ensures lo < rest[i] {
        assert rest[i] in rest;
      }
      AscendingFrom(lo, rest);
    }
  }

  lemma AscendingFrom(n: nat, s: seq<nat>)
    requires Ascending(s) && forall k :: 0 <= k < |s| ==> n < s[k]
    ensures Ascending([n] + s) && forall i :: i in [n] + s <==> i == n || i in s
  {
  }

  lemma {:induction false} AscendingPrefix(a: seq<nat>, b: seq<nat>)
    requires Ascending(a) && Ascending(b) && forall i :: i in a <==> i in b
    ensures a <= b
    decreases |a|
  {
    if a != [] {
      assert a[0] in b && b[0] in a;
      assert forall i :: i in a[1..] <==> i in a && i != a[0];
      assert forall i :: i in b[1..] <==> i in b && i != b[0];
      AscendingPrefix(a[1..], b[1..]);
    }
  }

  /** The children of a node head the consecutive ranges below it. */
  lemma {:induction false} KidsAreSiblings(t: seq<Item>, p: nat)
    requires Rooted(t) && p < |t|
    ensures Kids(t, p, |t|) == Siblings(t, p + 1, End(t, p))
  {
    KidsMembers(t, p, |t|);
    forall i | 1 <= i < |t| ensures Parent(t, i) == p ==> t[p].entry.Folder? && p < i < End(t, p) {
      EnclosesIsRange(t, Parent(t, i), i);
    }
    if t[p].entry.Folder? {
      forall i | p + 1 <= i < End(t, p) ensures Parent(t, i) >= p {
        EnclosesIsRange(t, p, i);
      }
      SiblingsMembers(t, p, p + 1);
    }
    AscendingPrefix(Kids(t, p, |t|), Siblings(t, p + 1, End(t, p)));
    AscendingPrefix(Siblings(t, p + 1, End(t, p)), Kids(t, p, |t|));
  }

  // ---------------------------------------------------------------- value trees

  datatype Tree = Tree(item: Item, kids: seq<Tree>)

  /** The trees denoted by the lines `lo..hi`. */
  ghost function Trees(t: seq<Item>, lo: nat, hi: nat): seq<Tree>
    requires hi <= |t|
    decreases hi - lo
  {
    if lo >= hi || End(t, lo) > hi then []
    else [Tree(t[lo], Trees(t, lo + 1, End(t, lo)))] + Trees(t, End(t, lo), hi)
  }

  /** The lines of a list of trees, each node before what is under it. */
  function Lines(f: seq<Tree>): seq<Item> {
    if f == [] then [] else [f[0].item] + Lines(f[0].kids) + Lines(f[1..])
  }

  /** No range that starts in `lo..hi` reaches past `hi`. */
  ghost predicate Closed(t: seq<Item>, lo: nat, hi: nat) {
    lo <= hi <= |t| && forall i :: lo <= i < hi ==> End(t, i) <= hi
  }

  lemma ClosedSplits(t: seq<Item>, lo: nat, hi: nat)
    requires Closed(t, lo, hi) && lo < hi
    ensures Closed(t, lo + 1, End(t, lo)) && Closed(t, End(t, lo), hi)
  {
    forall i | lo + 1 <= i < End(t, lo) ensures End(t, i) <= End(t, lo) {
      Nested(t, lo, i);
    }
  }

  /** Reading the tree back in depth-first order gives the lines in their order. */
  lemma {:induction false} LinesOfTrees(t: seq<Item>, lo: nat, hi: nat)
    requires Closed(t, lo, hi)
    ensures Lines(Trees(t, lo, hi)) == t[lo..hi]
    decreases hi - lo
  {
    if lo < hi {
      var next := End(t, lo);
      ClosedSplits(t, lo, hi);
      LinesOfTrees(t, lo + 1, next);
      LinesOfTrees(t, next, hi);
      LinesCons(Tree(t[lo], Trees(t, lo + 1, next)), Trees(t, next, hi));
      SliceCons(t, lo, next, hi);
    }
  }

  lemma {:induction false} TreesHeadRanges(t: seq<Item>, lo: nat, hi: nat)
    requires Closed(t, lo, hi)
    ensures var ks, f := Siblings(t, lo, hi), Trees(t, lo, hi);
      |f| == |ks| && forall i :: 0 <= i < |ks| ==> ks[i] < |t| && f[i] == TreeAt(t, ks[i])
    decreases hi - lo
  {
    if lo < hi {
      var next := End(t, lo);
      ClosedSplits(t, lo, hi);
      TreesHeadRanges(t, next, hi);
      var ks, f := Siblings(t, next, hi), Trees(t, next, hi);
      assert Siblings(t, lo, hi) == [lo] + ks && Trees(t, lo, hi) == [TreeAt(t, lo)] + f;
      forall i | 0 <= i < |ks| + 1
        ensures ([lo] + ks)[i] < |t| && ([TreeAt(t, lo)] + f)[i] == TreeAt(t, ([lo] + ks)[i])
      {
        assert i > 0 ==> ks[i - 1] < |t| && f[i - 1] == TreeAt(t, ks[i - 1]);
      }
    }
  }

  ghost function TreeAt(t: seq<Item>, p: nat): Tree
    requires p < |t|
  {
    Tree(t[p], Trees(t, p + 1, End(t, p)))
  }

  /** The tree at a position has the trees at its children below it, so it is the tree the nodes link up. */
  lemma {:induction false} TreeFollowsKids(t: seq<Item>, p: nat)
    requires Rooted(t) && p < |t|
    ensures var ks, f := Kids(t, p, |t|), TreeAt(t, p).kids;
      |f| == |ks| && forall i :: 0 <= i < |ks| ==> f[i] == TreeAt(t, ks[i])
  {
    KidsAreSiblings(t, p);
    forall i | p + 1 <= i < End(t, p) ensures End(t, i) <= End(t, p) {
      Nested(t, p, i);
    }
    TreesHeadRanges(t, p + 1, End(t, p));
  }

  lemma SliceCons(t: seq<Item>, lo: nat, next: nat, hi: nat)
    requires lo < next <= hi <= |t|
    ensures t[lo..hi] == [t[lo]] + t[lo + 1..next] + t[next..hi]
  {
  }

  lemma {:induction false} LinesCons(head: Tree, tail: seq<Tree>)
    ensures Lines([head] + tail) == [head.item] + Lines(head.kids) + Lines(tail)
  {
    assert ([head] + tail)[1..] == tail;
  }

  /** A forest some list of lines denotes: nothing under files, levels grow, no sibling is swallowed. */
  ghost predicate WellFormed(f: seq<Tree>, above: int) {
    f != [] ==>
    && f[0].item.level > above
    && (f[0].item.entry.File? ==> f[0].kids == [])
    && WellFormed(f[0].kids, f[0].item.level)
    && WellFormed(f[1..], above)
    && (f[0].item.entry.Folder? && |f| > 1 ==> f[1].item.level <= f[0].item.level)
  }

  lemma {:induction false} LevelsAbove(f: seq<Tree>, above: int)
    requires WellFormed(f, above)
    ensures forall i :: 0 <= i < |Lines(f)| ==> Lines(f)[i].level > above
  {
    if f != [] {
      LevelsAbove(f[0].kids, f[0].item.level);
      LevelsAbove(f[1..], above);
    }
  }

  /**
   Printing any well-formed forest and reading it again rebuilds it, provided that the line after it
   closes its last tree.
   */
  lemma {:induction false} TreesOfLines(t: seq<Item>, lo: nat, hi: nat, f: seq<Tree>, above: int)
    requires WellFormed(f, above) && lo <= hi <= |t| && t[lo..hi] == Lines(f)
    requires hi < |t| ==> t[hi].level <= above
    ensures Trees(t, lo, hi) == f
    decreases f
  {
    if f != [] {
      var head, tail := f[0], f[1..];
      assert f == [head] + tail;
      var next := lo + 1 + |Lines(head.kids)|;
      LinesCons(head, tail);
      LevelsAbove(head.kids, head.item.level);
      SplitRange(t, lo, next, hi, head.item, Lines(head.kids), Lines(tail));
      if tail != [] {
        assert Lines(tail)[0] == tail[0].item;
      }
      HeadRange(t, lo, next, head);
      if head.kids != [] {
        TreesOfLines(t, lo + 1, next, head.kids, head.item.level);
      }
      TreesOfLines(t, next, hi, tail, above);
    }
  }

  lemma SplitRange(t: seq<Item>, lo: nat, next: nat, hi: nat, x: Item, a: seq<Item>, b: seq<Item>)
    requires lo <= hi <= |t| && t[lo..hi] == [x] + a + b && next == lo + 1 + |a|
    ensures lo < next <= hi && t[lo] == x && t[lo + 1..next] == a && t[next..hi] == b
    ensures b != [] ==> t[next] == b[0]
  {
    var r := t[lo..hi];
    assert forall k :: 0 <= k < |r| ==> t[lo + k] == r[k];
    assert t[lo + 1..next] == r[1..1 + |a|] && t[next..hi] == r[1 + |a|..];
  }

  lemma HeadRange(t: seq<Item>, lo: nat, next: nat, head: Tree)
    requires lo < next <= |t| && t[lo] == head.item && t[lo + 1..next] == Lines(head.kids)
    requires head.item.entry.File? ==> next == lo + 1
    requires forall i :: 0 <= i < |Lines(head.kids)| ==> Lines(head.kids)[i].level > head.item.level
    requires head.item.entry.Folder? && next < |t| ==> t[next].level <= head.item.level
    ensures End(t, lo) == next
  {
    forall k | lo < k < next ensures t[k] == Lines(head.kids)[k - lo - 1] {
      assert t[k] == t[lo + 1..next][k - lo - 1];
    }
  }

  /** What a list of lines denotes is well-formed, so reading and printing are inverse both ways. */
  lemma {:induction false} TreesAreWellFormed(t: seq<Item>, lo: nat, hi: nat, above: int)
    requires Closed(t, lo, hi) && forall i :: lo <= i < hi ==> t[i].level > above
    ensures WellFormed(Trees(t, lo, hi), above)
    decreases hi - lo
  {
    if lo < hi {
      var next := End(t, lo);
      ClosedSplits(t, lo, hi);
      TreesAreWellFormed(t, lo + 1, next, t[lo].level);
      TreesAreWellFormed(t, next, hi, above);
      var f := Trees(t, lo, hi);
      assert f[0] == Tree(t[lo], Trees(t, lo + 1, next)) && f[1..] == Trees(t, next, hi);
    }
  }

  // ---------------------------------------------------------------- the stack of open folders

  /** `open` lists the folders that are open after the last line, innermost last. */
  ghost predicate OpenList(t: seq<Item>, open: seq<nat>) {
    && open != [] && open[0] == 0 && Ascending(open)
    && forall j: nat :: j in open <==> Open(t, j, |t|)
  }

  /** Levels strictly increase along the stack. */
  lemma LevelsIncrease(t: seq<Item>, open: seq<nat>)
    requires OpenList(t, open)
    ensures forall i, j :: 0 <= i < j < |open| ==> open[j] < |t| && t[open[i]].level < t[open[j]].level
  {
    forall i, j | 0 <= i < j < |open| ensures open[j] < |t| && t[open[i]].level < t[open[j]].level {
      assert open[i] in open && open[j] in open;
    }
  }

  /** Popping every folder the new line closes leaves its parent on top. */
  lemma StackStep(t: seq<Item>, x: Item, open: seq<nat>, m: nat)
    requires Rooted(t) && x.level >= 0 && OpenList(t, open) && 1 <= m <= |open|
    requires forall k :: 0 <= k < |open| ==> open[k] < |t|
    requires t[open[m - 1]].level < x.level
    requires forall k :: m <= k < |open| ==> t[open[k]].level >= x.level
    ensures Rooted(t + [x]) && Parent(t + [x], |t|) == open[m - 1]
    ensures OpenList(t + [x], if x.entry.Folder? then open[..m] + [|t|] else open[..m])
  {
    var s, n := t + [x], |t|;
    LevelsIncrease(t, open);
    forall j: nat ensures j in open[..m] <==> Encloses(s, j, n) {
      Prefixed(t, x, j);
      if Encloses(s, j, n) {
        assert j in open;
      }
    }
    assert open[m - 1] in open[..m];
    assert Parent(s, n) == open[m - 1] by {
      var p := Parent(s, n);
      assert p in open[..m] && open[m - 1] <= p;
    }
    var top := if x.entry.Folder? then open[..m] + [n] else open[..m];
    forall j: nat ensures j in top <==> Open(s, j, |s|) {
      OpenLonger(t, x, j);
    }
  }

  lemma Prefixed(t: seq<Item>, x: Item, j: nat)
    ensures Open(t + [x], j, |t|) <==> Open(t, j, |t|)
  {
    var s := t + [x];
    assert forall k :: 0 <= k < |t| ==> s[k] == t[k];
  }

  lemma OpenLonger(t: seq<Item>, x: Item, j: nat)
    ensures Open(t + [x], j, |t| + 1) <==>
      (j == |t| && x.entry.Folder?) || Encloses(t + [x], j, |t|)
  {
  }
}
