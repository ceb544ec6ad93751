/** Building the tree of share links from indented text, and sizing its folders, on heap nodes. */
module LinkTree {
  import opened Wrappers
  import opened IndentTree

  class Node {
    const url: string
    const name: string
    const level: int
    var size: int
    var children: seq<Node>

    ghost const line: nat  // the position it was made for; no two nodes of a tree share one

    constructor (x: Item, ghost line: nat)
      ensures Carries(this, x) && this.line == line && children == []
      ensures size == if x.entry.File? then x.entry.size else 0
    {
      this.line := line;
      url := if x.entry.File? then x.entry.url else "";
      name := x.entry.name;
      level := x.level;
      size := if x.entry.File? then x.entry.size else 0;
      children := [];
    }

    predicate IsFile() {
      url != ""
    }
  }

  /** The constant part of a node is the line it was made from. */
  ghost predicate Carries(n: Node, x: Item) {
    && n.level == x.level && n.name == x.entry.name
    && n.url == if x.entry.File? then x.entry.url else ""
  }

  // ---------------------------------------------------------------- lines

  datatype FileInfo = FileInfo(url: Url, name: string, size: int)

  /** Reading `[FileSize:][Modified:]Url`; the time stamp is left out. */
  type FileParser = string -> Option<FileInfo>

  datatype LineError = OddIndent(line: string) | BadFile(line: string)

  /** White space as `strings.TrimSpace` understands it. */
  predicate IsSpace(c: char) {
    c in "\t\n\U{B}\U{C}\r \U{85}\U{A0}\U{1680}\U{2028}\U{2029}\U{202F}\U{205F}\U{3000}"
    || '\U{2000}' <= c <= '\U{200A}'
  }

  function Indent(line: string): (n: nat)
    ensures n <= |line| && (forall i :: 0 <= i < n ==> line[i] == ' ') && (n < |line| ==> line[n] != ' ')
  {
    if line != "" && line[0] == ' ' then 1 + Indent(line[1..]) else 0
  }

  function TrimLeft(s: string): string {
    if s != "" && IsSpace(s[0]) then TrimLeft(s[1..]) else s
  }

  function TrimRight(s: string): string {
    if s != "" && IsSpace(s[|s| - 1]) then TrimRight(s[..|s| - 1]) else s
  }

  function TrimSpace(s: string): string {
    TrimRight(TrimLeft(s))
  }

  predicate IsFolder(line: string) {
    line != "" && line[|line| - 1] == ':'
  }

  /** One line: nothing when it is blank. The indent is checked before blankness. */
  function ReadLine(line: string, parse: FileParser): Result<Option<Item>, LineError> {
    var indent := Indent(line);
    if indent % 2 != 0 then Err(OddIndent(line))
    else
      var text := TrimSpace(line[indent..]);
      if text == "" then Ok(None)
      else if IsFolder(text) then Ok(Some(Item(indent / 2, Folder(text[..|text| - 1]))))
      else
        match parse(text)
        case None => Err(BadFile(text))
        case Some(f) => Ok(Some(Item(indent / 2, File(f.url, f.name, f.size))))
  }

  /** The root and the lines that are not blank, or the first error. */
  ghost function ReadAll(lines: seq<string>, parse: FileParser): (r: Result<seq<Item>, LineError>)
    ensures r.Ok? ==> Rooted(r.value)
  {
    if lines == [] then Ok([ROOT])
    else
      var front := ReadAll(lines[..|lines| - 1], parse);
      if front.Err? then front
      else
        match ReadLine(lines[|lines| - 1], parse)
        case Err(e) => Err(e)
        case Ok(None) => front
        case Ok(Some(x)) => Ok(front.value + [x])
  }

  lemma {:induction false} ErrorsStay(lines: seq<string>, n: nat, parse: FileParser)
    requires n <= |lines| && ReadAll(lines[..n], parse).Err?
    ensures ReadAll(lines, parse) == ReadAll(lines[..n], parse)
  {
    if n < |lines| {
      var front := lines[..|lines| - 1];
      assert front[..n] == lines[..n];
      ErrorsStay(front, n, parse);
    } else {
      assert lines[..n] == lines;
    }
  }

  // ---------------------------------------------------------------- the heap shape

  ghost function At(nodes: seq<Node>, ks: seq<nat>): seq<Node>
    requires forall k :: 0 <= k < |ks| ==> ks[k] < |nodes|
  {
    seq(|ks|, k requires 0 <= k < |ks| => nodes[ks[k]])
  }

  /** `nodes[i]` is the node of line `i`: it carries the line and links to exactly its children. */
  ghost predicate Linked(t: seq<Item>, nodes: seq<Node>, i: nat)
    requires Rooted(t) && i < |t| == |nodes|
    reads nodes[i]
  {
    nodes[i].line == i && Carries(nodes[i], t[i]) && nodes[i].children == At(nodes, Kids(t, i, |t|))
  }

  ghost predicate Shape(t: seq<Item>, nodes: seq<Node>)
    requires Rooted(t)
    reads nodes
  {
    |nodes| == |t| && forall i: nat :: i < |t| ==> Linked(t, nodes, i)
  }

  lemma {:induction false} NodesCarry(t: seq<Item>, nodes: seq<Node>)
    requires Rooted(t) && Shape(t, nodes)
    ensures forall i :: 0 <= i < |t| ==>
      && nodes[i].name == t[i].entry.name && nodes[i].level == t[i].level
      && nodes[i].url == (if t[i].entry.File? then t[i].entry.url else "")
  {
    forall i: nat | i < |t| ensures Carries(nodes[i], t[i]) {
      assert Linked(t, nodes, i);
    }
  }

  /** The stack holds the open folders. */
  ghost predicate Stacked(t: seq<Item>, nodes: seq<Node>, stack: seq<Node>, open: seq<nat>) {
    && |nodes| == |t| && |stack| == |open| && OpenList(t, open)
    && forall k :: 0 <= k < |open| ==> open[k] < |t| && stack[k] == nodes[open[k]]
  }

  /** Appends the new node to its parent's children. */
  method Adopt(parent: Node, child: Node, ghost t: seq<Item>, ghost nodes: seq<Node>, ghost x: Item)
    requires Rooted(t) && Rooted(t + [x]) && Shape(t, nodes) && child.line == |t|
    requires Carries(child, x) && child.children == []
    requires parent in nodes && nodes[Parent(t + [x], |t|)] == parent
    modifies parent`children
    ensures Shape(t + [x], nodes + [child])
  {
    ghost var s, all, n := t + [x], nodes + [child], |t|;
    forall i: nat | i < n ensures nodes[i] == parent <==> i == Parent(s, n) {
      assert Linked(t, nodes, i) && Linked(t, nodes, Parent(s, n));
    }
    assert parent != child by {
      assert Linked(t, nodes, Parent(s, n));
    }
    parent.children := parent.children + [child];
    forall i: nat | i < |s| ensures Linked(s, all, i) {
      LinksGrow(t, x, nodes, child, i);
      if i < n {
        assert old(Linked(t, nodes, i));
      }
    }
  }

  /** The children each node is to have once the new one is there. */
  lemma {:induction false} LinksGrow(t: seq<Item>, x: Item, nodes: seq<Node>, child: Node, i: nat)
    requires Rooted(t) && Rooted(t + [x]) && |nodes| == |t| && i <= |t|
    ensures var s, n := t + [x], |t|;
      At(nodes + [child], Kids(s, i, |s|)) ==
        if i == n then []
        else if i == Parent(s, n) then At(nodes, Kids(t, i, n)) + [child]
        else At(nodes, Kids(t, i, n))
  {
    KidsGrow(t, x, i);
    if i < |t| {
      AtGrows(nodes, child, Kids(t, i, |t|));
    }
  }

  /** The new line is the last child of its parent and nobody else's. */
  lemma {:induction false} KidsGrow(t: seq<Item>, x: Item, i: nat)
    requires Rooted(t) && Rooted(t + [x]) && i <= |t|
    ensures Kids(t + [x], i, |t| + 1) ==
      if i == |t| then [] else if Parent(t + [x], |t|) == i then Kids(t, i, |t|) + [|t|] else Kids(t, i, |t|)
  {
    if i < |t| {
      KidsOfPrefix(t + [x], t, i, |t|);
    } else {
      NoKidsYet(t + [x], i, |t| + 1);
    }
  }

  lemma AtGrows(nodes: seq<Node>, child: Node, ks: seq<nat>)
    requires forall k :: 0 <= k < |ks| ==> ks[k] < |nodes|
    ensures At(nodes + [child], ks) == At(nodes, ks)
    ensures At(nodes + [child], ks + [|nodes|]) == At(nodes, ks) + [child]
  {
  }

  lemma {:induction false} NoKidsYet(s: seq<Item>, p: nat, n: nat)
    requires Rooted(s) && n <= |s| && n <= p + 1
    ensures Kids(s, p, n) == []
  {
    if n > 1 {
      NoKidsYet(s, p, n - 1);
    }
  }

  // ---------------------------------------------------------------- building

  ghost predicate FreshSizes(t: seq<Item>, nodes: seq<Node>)
    requires |nodes| == |t|
    reads nodes
  {
    forall i :: 0 <= i < |t| ==> nodes[i].size == if t[i].entry.File? then t[i].entry.size else 0
  }

  /** Pops every folder whose level is not below the new line's. The root is never popped. */
  method PopClosed(stack: seq<Node>, level: int, ghost t: seq<Item>, ghost nodes: seq<Node>, ghost open: seq<nat>)
    returns (m: nat)
    requires level >= 0 && Rooted(t) && Shape(t, nodes) && Stacked(t, nodes, stack, open)
    ensures 1 <= m <= |stack| && t[open[m - 1]].level < level
    ensures forall k :: m <= k < |open| ==> t[open[k]].level >= level
  {
    m := |stack|;
    forall k | 0 <= k < |stack| ensures stack[k].level == t[open[k]].level {
      assert Linked(t, nodes, open[k]);
    }
    while level <= stack[m - 1].level
      invariant 1 <= m <= |stack|
      invariant forall k :: m <= k < |open| ==> t[open[k]].level >= level
      decreases m
    {
      m := m - 1;
    }
  }

  /** One line that is not blank: close folders, hang the new node on the top, push it if it is a folder. */
  method Place(stack: seq<Node>, x: Item, ghost t: seq<Item>, ghost nodes: seq<Node>, ghost open: seq<nat>)
    returns (deeper: seq<Node>, node: Node, ghost reopened: seq<nat>)
    requires x.level >= 0 && Rooted(t) && Shape(t, nodes) && Stacked(t, nodes, stack, open) && FreshSizes(t, nodes)
    modifies nodes`children
    ensures fresh(node) && FreshSizes(t + [x], nodes + [node])
    ensures Rooted(t + [x]) && Shape(t + [x], nodes + [node])
    ensures Stacked(t + [x], nodes + [node], deeper, reopened)
  {
    var m := PopClosed(stack, x.level, t, nodes, open);
    StackStep(t, x, open, m);
    node := new Node(x, |t|);
    Adopt(stack[m - 1], node, t, nodes, x);
    deeper := if x.entry.Folder? then stack[..m] + [node] else stack[..m];
    reopened := if x.entry.Folder? then open[..m] + [|t|] else open[..m];
    StackFollows(t, x, nodes, node, stack, open, m);
    FreshMore(t, x, nodes, node);
  }

  lemma {:induction false} FreshMore(t: seq<Item>, x: Item, nodes: seq<Node>, node: Node)
    requires |nodes| == |t| && FreshSizes(t, nodes)
    requires node.size == if x.entry.File? then x.entry.size else 0
    ensures FreshSizes(t + [x], nodes + [node])
  {
  }

  /** The stack after a line follows the open folders. */
  lemma {:induction false} StackFollows(
    t: seq<Item>, x: Item, nodes: seq<Node>, node: Node, stack: seq<Node>, open: seq<nat>, m: nat)
    requires Stacked(t, nodes, stack, open) && 1 <= m <= |open|
    requires OpenList(t + [x], if x.entry.Folder? then open[..m] + [|t|] else open[..m])
    ensures Stacked(t + [x], nodes + [node],
                    if x.entry.Folder? then stack[..m] + [node] else stack[..m],
                    if x.entry.Folder? then open[..m] + [|t|] else open[..m])
  {
    var deeper := if x.entry.Folder? then stack[..m] + [node] else stack[..m];
    var reopened: seq<nat> := if x.entry.Folder? then open[..m] + [|t|] else open[..m];
    forall k | 0 <= k < |reopened| ensures reopened[k] < |t| + 1 && deeper[k] == (nodes + [node])[reopened[k]] {
      assert k < m ==> reopened[k] == open[k] && deeper[k] == stack[k];
    }
  }

  /** What the last line adds. */
  lemma {:induction false} ReadLast(lines: seq<string>, t: seq<Item>, parse: FileParser)
    requires lines != [] && ReadAll(lines[..|lines| - 1], parse) == Ok(t)
    ensures ReadAll(lines, parse) ==
      match ReadLine(lines[|lines| - 1], parse) {
        case Err(e) => Err(e)
        case Ok(None) => Ok(t)
        case Ok(Some(x)) => Ok(t + [x])
      }
  {
  }

  lemma {:induction false} ReadMore(lines: seq<string>, i: nat, t: seq<Item>, parse: FileParser)
    requires i < |lines| && ReadAll(lines[..i], parse) == Ok(t)
    ensures match ReadLine(lines[i], parse) {
        case Err(e) => ReadAll(lines, parse) == Err(e)
        case Ok(None) => ReadAll(lines[..i + 1], parse) == Ok(t)
        case Ok(Some(x)) => ReadAll(lines[..i + 1], parse) == Ok(t + [x])
      }
  {
    var some := lines[..i + 1];
    assert some[..|some| - 1] == lines[..i] && some[|some| - 1] == lines[i];
    ReadLast(some, t, parse);
    if ReadLine(lines[i], parse).Err? {
      ErrorsStay(lines, i + 1, parse);
    }
  }

  /** The tree has exactly the lines' shape, or the first bad line is reported. */
  method BuildTree(lines: seq<string>, parse: FileParser)
    returns (r: Result<Node, LineError>, ghost t: seq<Item>, ghost nodes: seq<Node>)
    ensures match ReadAll(lines, parse) {
        case Err(e) => r == Err(e)
        case Ok(items) =>
          r.Ok? && t == items && Shape(t, nodes) && r.value == nodes[0] && FreshSizes(t, nodes)
          && fresh(nodes)
      }
    ensures r.Ok? ==> |nodes| == |t| && forall i :: 0 <= i < |t| ==>
      && nodes[i].name == t[i].entry.name && nodes[i].level == t[i].level
      && nodes[i].url == (if t[i].entry.File? then t[i].entry.url else "")
      && nodes[i].size == (if t[i].entry.File? then t[i].entry.size else 0)
  {
    var root := new Node(ROOT, 0);
    t, nodes := [ROOT], [root];
    var stack := [root];
    ghost var open: seq<nat> := [0];
    assert Linked(t, nodes, 0);
    for i := 0 to |lines|
      invariant fresh(nodes)
      invariant ReadAll(lines[..i], parse) == Ok(t) && Rooted(t)
      invariant Shape(t, nodes) && FreshSizes(t, nodes) && nodes[0] == root
      invariant Stacked(t, nodes, stack, open)
    {
      ReadMore(lines, i, t, parse);
      var line := ReadLine(lines[i], parse);
      if line.Err? {
        return Err(line.error), t, nodes;
      }
      if line.value.None? {
        continue;
      }
      var x := line.value.value;
      var deeper, node, reopened := Place(stack, x, t, nodes, open);
      t, nodes, stack, open := t + [x], nodes + [node], deeper, reopened;
    }
    assert lines[..|lines|] == lines;
    NodesCarry(t, nodes);
    r := Ok(root);
  }

  // ---------------------------------------------------------------- sizing

  /** The sizes of the file lines in `lo..hi`; `p..End(t, p)` is everything under position `p`. */
  ghost function FileSum(t: seq<Item>, lo: nat, hi: nat): int
    requires hi <= |t|
    decreases hi - lo
  {
    if lo >= hi then 0
    else (if t[lo].entry.File? then t[lo].entry.size else 0) + FileSum(t, lo + 1, hi)
  }

  lemma {:induction false} FileSumSplits(t: seq<Item>, lo: nat, mid: nat, hi: nat)
    requires lo <= mid <= hi <= |t|
    ensures FileSum(t, lo, hi) == FileSum(t, lo, mid) + FileSum(t, mid, hi)
    decreases mid - lo
  {
    if lo < mid {
      FileSumSplits(t, lo + 1, mid, hi);
    }
  }

  ghost function SizesOf(nodes: seq<Node>): (s: seq<int>)
    reads nodes
    ensures |s| == |nodes| && forall i {:trigger s[i]} :: 0 <= i < |nodes| ==> s[i] == nodes[i].size
  {
    seq(|nodes|, i requires 0 <= i < |nodes| reads nodes => nodes[i].size)
  }

  /** The total of the files at or below a position; for a file line, its own size. */
  ghost function Total(t: seq<Item>, i: nat): int
    requires i < |t|
  {
    FileSum(t, i, End(t, i))
  }

  /**
   What no assignment to a size can change: the lines, their nodes, each node's list of children, and
   the size each node is to get.
   */
  datatype Layout = Layout(t: seq<Item>, nodes: seq<Node>, links: seq<seq<Node>>, want: seq<int>)

  ghost predicate Planned(l: Layout) {
    && |l.nodes| == |l.t| == |l.links| == |l.want|
    && (l.t != [] ==>
          && Rooted(l.t)
          && (forall i {:trigger l.nodes[i]} :: 0 <= i < |l.t| ==> l.nodes[i].line == i && Carries(l.nodes[i], l.t[i]))
          && (forall i: nat :: i < |l.t| ==> LinksKids(l, i))
          && (forall i: nat :: i < |l.t| ==> WantsTotal(l, i)))
  }

  ghost predicate LinksKids(l: Layout, i: nat)
    requires Rooted(l.t) && i < |l.t| == |l.nodes| == |l.links|
  {
    l.links[i] == At(l.nodes, Kids(l.t, i, |l.t|))
  }

  ghost predicate WantsTotal(l: Layout, i: nat)
    requires i < |l.t| == |l.want|
  {
    l.want[i] == Total(l.t, i)
  }

  type Plan = l: Layout | Planned(l) ghost witness Layout([], [], [], [])

  ghost predicate Wired(l: Plan)
    reads l.nodes`children
  {
    forall i {:trigger l.links[i]} {:trigger l.nodes[i]} :: 0 <= i < |l.nodes| ==> l.nodes[i].children == l.links[i]
  }

  /** File nodes already have their size. */
  ghost predicate FilesDone(l: Plan, s: seq<int>) {
    |s| == |l.t| && forall i {:trigger s[i]} :: 0 <= i < |s| && l.t[i].entry.File? ==> s[i] == l.want[i]
  }

  /** The sizes `s` once every node in `lo..hi` has the size it is to get. */
  ghost function Done(l: Plan, s: seq<int>, lo: nat, hi: nat): seq<int>
    requires |s| == |l.t| && lo <= hi <= |s|
  {
    s[..lo] + l.want[lo..hi] + s[hi..]
  }

  lemma DoneMore(l: Plan, s: seq<int>, lo: nat, mid: nat, hi: nat)
    requires FilesDone(l, s) && lo <= mid <= hi <= |s|
    ensures FilesDone(l, Done(l, s, lo, mid))
    ensures Done(l, Done(l, s, lo, mid), mid, hi) == Done(l, s, lo, hi)
  {
  }

  /** One more child adds what it wants. */
  lemma ChildAdds(l: Plan, p: nat, lo: nat)
    requires p < lo < |l.t|
    ensures FileSum(l.t, p + 1, lo) + l.want[lo] == FileSum(l.t, p + 1, End(l.t, lo))
  {
    assert WantsTotal(l, lo);
    FileSumSplits(l.t, p + 1, lo, End(l.t, lo));
  }

  lemma {:induction false} FolderWants(l: Plan, p: nat)
    requires p < |l.t| && l.t[p].entry.Folder?
    ensures l.want[p] == FileSum(l.t, p + 1, End(l.t, p))
  {
    assert WantsTotal(l, p);
  }

  ghost function LinksOf(nodes: seq<Node>): (links: seq<seq<Node>>)
    reads nodes
    ensures |links| == |nodes| && forall i :: 0 <= i < |nodes| ==> links[i] == nodes[i].children
  {
    seq(|nodes|, i requires 0 <= i < |nodes| reads nodes => nodes[i].children)
  }

  lemma PlanFor(t: seq<Item>, nodes: seq<Node>, links: seq<seq<Node>>) returns (l: Plan)
    requires Rooted(t) && Shape(t, nodes)
    requires |links| == |nodes| && forall i :: 0 <= i < |nodes| ==> nodes[i].children == links[i]
    ensures l.t == t && l.nodes == nodes && l.links == links && l.want == Totals(t)
  {
    var raw := Layout(t, nodes, links, Totals(t));
    forall i: nat | i < |t| ensures LinksKids(raw, i) {
      assert Linked(t, nodes, i);
    }
    forall i | 0 <= i < |t| ensures nodes[i].line == i && Carries(nodes[i], t[i]) {
      assert Linked(t, nodes, i);
    }
    forall i: nat | i < |t| ensures WantsTotal(raw, i) {
      assert Totals(t)[i] == Total(t, i);
    }
    l := raw;
  }

  ghost function Totals(t: seq<Item>): (want: seq<int>)
    ensures |want| == |t| && forall i {:trigger want[i]} :: 0 <= i < |t| ==> want[i] == Total(t, i)
  {
    seq(|t|, i requires 0 <= i < |t| => Total(t, i))
  }

  lemma StillShaped(l: Plan)
    requires l.t != [] && Wired(l)
    ensures Shape(l.t, l.nodes)
  {
    forall i: nat | i < |l.t| ensures Linked(l.t, l.nodes, i) {
      assert LinksKids(l, i) && l.nodes[i].children == l.links[i];
    }
  }

  /** After `k` children the walk below `p` has covered the lines up to `lo`. */
  ghost predicate Walk(l: Plan, p: nat, k: nat, lo: nat)
    requires p < |l.t|
  {
    var hi := End(l.t, p);
    && p < lo <= hi && k <= |l.links[p]| && (k == |l.links[p]| ==> lo == hi)
    && l.links[p][k..] == At(l.nodes, Siblings(l.t, lo, hi))
  }

  lemma WalkStart(l: Plan, p: nat)
    requires p < |l.t|
    ensures Walk(l, p, 0, p + 1)
  {
    assert LinksKids(l, p);
    KidsAreSiblings(l.t, p);
  }

  lemma WalkStep(l: Plan, p: nat, k: nat, lo: nat)
    requires p < |l.t| && Walk(l, p, k, lo) && k < |l.links[p]|
    ensures lo < End(l.t, p) && End(l.t, lo) <= End(l.t, p) && l.links[p][k] == l.nodes[lo]
    ensures Walk(l, p, k + 1, End(l.t, lo))
  {
    var hi, links := End(l.t, p), l.links[p];
    assert links[k..] != [];
    Nested(l.t, p, lo);
    assert links[k] == links[k..][0] && links[k + 1..] == links[k..][1..];
    AtTail(l.nodes, Siblings(l.t, lo, hi));
    assert |Siblings(l.t, End(l.t, lo), hi)| == |links| - (k + 1);
  }

  lemma AtTail(nodes: seq<Node>, ks: seq<nat>)
    requires ks != [] && forall k :: 0 <= k < |ks| ==> ks[k] < |nodes|
    ensures At(nodes, ks)[1..] == At(nodes, ks[1..]) && At(nodes, ks)[0] == nodes[ks[0]]
  {
  }

  function Sum(s: seq<int>): int {
    if s == [] then 0 else s[0] + Sum(s[1..])
  }

  ghost function TotalsAt(t: seq<Item>, ks: seq<nat>): seq<int>
    requires forall k :: 0 <= k < |ks| ==> ks[k] < |t|
  {
    seq(|ks|, k requires 0 <= k < |ks| => Total(t, ks[k]))
  }

  lemma {:induction false} SiblingsSum(t: seq<Item>, lo: nat, hi: nat)
    requires Closed(t, lo, hi)
    ensures FileSum(t, lo, hi) == Sum(TotalsAt(t, Siblings(t, lo, hi)))
    decreases hi - lo
  {
    if lo < hi {
      var next := End(t, lo);
      ClosedSplits(t, lo, hi);
      SiblingsSum(t, next, hi);
      FileSumSplits(t, lo, next, hi);
      TotalsCons(t, lo, Siblings(t, next, hi));
    }
  }

  lemma {:induction false} TotalsCons(t: seq<Item>, k: nat, rest: seq<nat>)
    requires k < |t| && forall i :: 0 <= i < |rest| ==> rest[i] < |t|
    ensures Sum(TotalsAt(t, [k] + rest)) == Total(t, k) + Sum(TotalsAt(t, rest))
  {
    var all := TotalsAt(t, [k] + rest);
    assert all[1..] == TotalsAt(t, rest);
    assert all[0] == Total(t, k);
  }

  /** What is under a folder is what its children come to. */
  lemma {:induction false} FolderIsSum(t: seq<Item>, p: nat)
    requires Rooted(t) && p < |t|
    ensures FileSum(t, p + 1, End(t, p)) == Sum(TotalsAt(t, Kids(t, p, |t|)))
  {
    KidsAreSiblings(t, p);
    forall i | p + 1 <= i < End(t, p) ensures End(t, i) <= End(t, p) {
      Nested(t, p, i);
    }
    SiblingsSum(t, p + 1, End(t, p));
  }

  /** What each line comes to: a file its size, a folder the sum over its children. */
  lemma {:induction false} TotalMeans(t: seq<Item>, p: nat)
    requires Rooted(t) && p < |t|
    ensures Total(t, p) ==
      if t[p].entry.File? then t[p].entry.size else Sum(TotalsAt(t, Kids(t, p, |t|)))
  {
    if t[p].entry.Folder? {
      FolderIsSum(t, p);
    } else {
      assert FileSum(t, p + 1, p + 1) == 0;
    }
  }

  lemma PlanMeans(l: Plan, p: nat)
    requires p < |l.t|
    ensures l.want[p] ==
      if l.t[p].entry.File? then l.t[p].entry.size else Sum(TotalsAt(l.t, Kids(l.t, p, |l.t|)))
  {
    assert WantsTotal(l, p);
    TotalMeans(l.t, p);
  }

  method SetSize(node: Node, total: int, ghost l: Plan, ghost p: nat)
    requires p < |l.t| && node == l.nodes[p]
    modifies node`size
    ensures SizesOf(l.nodes) == old(SizesOf(l.nodes))[p := total]
  {
    node.size := total;
    assert forall i :: 0 <= i < |l.t| ==> l.nodes[i].line == i;
  }

  /** Sizes the subtree at position `p`; nothing but the sizes of its folders changes. */
  method CalSize(node: Node, ghost l: Plan, ghost p: nat) returns (total: int)
    requires p < |l.t| && node == l.nodes[p] && Wired(l) && FilesDone(l, SizesOf(l.nodes))
    modifies l.nodes`size
    ensures total == l.want[p]
    ensures total == if l.t[p].entry.File? then l.t[p].entry.size else Sum(TotalsAt(l.t, Kids(l.t, p, |l.t|)))
    ensures SizesOf(l.nodes) == Done(l, old(SizesOf(l.nodes)), p, End(l.t, p))
    decreases |l.t| - p, 1
  {
    PlanMeans(l, p);
    ghost var s := SizesOf(l.nodes);
    assert Carries(node, l.t[p]);
    if node.IsFile() {
      assert s[p] == node.size == l.want[p];
      DoneSelf(l, s, p, p + 1);
      return node.size;
    }
    total := SizeChildren(node, l, p);
    FolderWants(l, p);
    SetSize(node, total, l, p);
    DoneSelf(l, s, p, End(l.t, p));
  }

  lemma DoneSelf(l: Plan, s: seq<int>, p: nat, hi: nat)
    requires |s| == |l.t| && p < hi <= |s|
    ensures Done(l, s, p + 1, hi)[p := l.want[p]] == Done(l, s, p, hi)
    ensures s[p] == l.want[p] ==> Done(l, s, p, p + 1) == s
  {
    assert l.want[p..p + 1] == [l.want[p]];
    assert s == s[..p] + [s[p]] + s[p + 1..];
    assert l.want[p..hi] == [l.want[p]] + l.want[p + 1..hi];
  }

  /** The size of one child, added up. */
  method SizeChild(child: Node, sum: int, ghost l: Plan, ghost p: nat, ghost k: nat, ghost lo: nat, ghost s: seq<int>)
    returns (total: int)
    requires p < |l.t| && Walk(l, p, k, lo) && k < |l.links[p]| && child == l.links[p][k] && Wired(l)
    requires FilesDone(l, s) && SizesOf(l.nodes) == Done(l, s, p + 1, lo) && sum == FileSum(l.t, p + 1, lo)
    modifies l.nodes`size
    ensures Walk(l, p, k + 1, End(l.t, lo))
    ensures SizesOf(l.nodes) == Done(l, s, p + 1, End(l.t, lo)) && total == FileSum(l.t, p + 1, End(l.t, lo))
    decreases |l.t| - lo, 2
  {
    WalkStep(l, p, k, lo);
    DoneMore(l, s, p + 1, lo, End(l.t, lo));
    ChildAdds(l, p, lo);
    var size := CalSize(child, l, lo);
    total := sum + size;
  }

  /** The loop over a folder's children. */
  method SizeChildren(node: Node, ghost l: Plan, ghost p: nat) returns (total: int)
    requires p < |l.t| && node == l.nodes[p] && Wired(l) && FilesDone(l, SizesOf(l.nodes))
    modifies l.nodes`size
    ensures total == FileSum(l.t, p + 1, End(l.t, p))
    ensures SizesOf(l.nodes) == Done(l, old(SizesOf(l.nodes)), p + 1, End(l.t, p))
    decreases |l.t| - p, 0
  {
    ghost var s := SizesOf(l.nodes);
    total := 0;
    ghost var lo: nat := p + 1;
    WalkStart(l, p);
    assert Done(l, s, lo, lo) == s;
    var children := node.children;
    for k := 0 to |children|
      invariant Walk(l, p, k, lo)
      invariant total == FileSum(l.t, p + 1, lo)
      invariant SizesOf(l.nodes) == Done(l, s, p + 1, lo)
    {
      total := SizeChild(children[k], total, l, p, k, lo, s);
      lo := End(l.t, lo);
    }
  }

  /** Every file has its own size, and every folder the sum of its children's sizes. */
  lemma {:induction false} TotalsAreSizes(t: seq<Item>, nodes: seq<Node>)
    requires Rooted(t) && Shape(t, nodes) && SizesOf(nodes) == Totals(t)
    ensures forall i :: 0 <= i < |t| ==>
      nodes[i].size == if t[i].entry.File? then t[i].entry.size else Sum(SizesOf(nodes[i].children))
  {
    forall i | 0 <= i < |t|
      ensures nodes[i].size == if t[i].entry.File? then t[i].entry.size else Sum(SizesOf(nodes[i].children))
    {
      assert SizesOf(nodes)[i] == nodes[i].size == Total(t, i);
      assert Linked(t, nodes, i);
      TotalMeans(t, i);
      ChildSizes(t, nodes, Kids(t, i, |t|));
    }
  }

  lemma {:induction false} ChildSizes(t: seq<Item>, nodes: seq<Node>, ks: seq<nat>)
    requires |nodes| == |t| && SizesOf(nodes) == Totals(t) && forall k :: 0 <= k < |ks| ==> ks[k] < |t|
    ensures SizesOf(At(nodes, ks)) == TotalsAt(t, ks)
  {
    forall k | 0 <= k < |ks| ensures At(nodes, ks)[k].size == Total(t, ks[k]) {
      assert SizesOf(nodes)[ks[k]] == nodes[ks[k]].size;
    }
  }

  /** `Init`: build the tree and size it. */
  method Init(lines: seq<string>, parse: FileParser)
    returns (r: Result<Node, LineError>, ghost t: seq<Item>, ghost nodes: seq<Node>)
    ensures match ReadAll(lines, parse) {
        case Err(e) => r == Err(e)
        case Ok(items) =>
          r.Ok? && t == items && Shape(t, nodes) && r.value == nodes[0]
          && SizesOf(nodes) == Totals(t)
      }
    ensures r.Ok? ==> |nodes| == |t| && forall i :: 0 <= i < |t| ==>
      nodes[i].size == if t[i].entry.File? then t[i].entry.size else Sum(SizesOf(nodes[i].children))
  {
    r, t, nodes := BuildTree(lines, parse);
    if r.Ok? {
      SizeRoot(r.value, t, nodes);
    }
  }

  /** Sizing from the root reaches every node, and leaves the shape as it was. */
  method SizeRoot(root: Node, ghost t: seq<Item>, ghost nodes: seq<Node>)
    requires Rooted(t) && Shape(t, nodes) && FreshSizes(t, nodes) && root == nodes[0]
    modifies nodes`size
    ensures Shape(t, nodes) && SizesOf(nodes) == Totals(t)
    ensures forall i :: 0 <= i < |t| && t[i].entry.File? ==> nodes[i].size == t[i].entry.size
    ensures forall i :: 0 <= i < |t| && t[i].entry.Folder? ==> nodes[i].size == Sum(SizesOf(nodes[i].children))
  {
    ghost var s := SizesOf(nodes);
    ghost var l := PlanFor(t, nodes, LinksOf(nodes));
    FilesStartDone(l, s);
    var _ := CalSize(root, l, 0);
    StillShaped(l);
    DoneAtRoot(l, s);
    TotalsAreSizes(t, nodes);
  }

  lemma FilesStartDone(l: Plan, s: seq<int>)
    requires |s| == |l.t|
    requires forall i {:trigger s[i]} :: 0 <= i < |s| ==> s[i] == if l.t[i].entry.File? then l.t[i].entry.size else 0
    ensures FilesDone(l, s)
  {
    forall i | 0 <= i < |s| && l.t[i].entry.File? ensures s[i] == l.want[i] {
      assert WantsTotal(l, i) && FileSum(l.t, i + 1, i + 1) == 0;
    }
  }

  lemma DoneAtRoot(l: Plan, s: seq<int>)
    requires l.t != [] && |s| == |l.t|
    ensures Done(l, s, 0, End(l.t, 0)) == l.want
  {
    assert End(l.t, 0) == |l.t|;
  }
}
