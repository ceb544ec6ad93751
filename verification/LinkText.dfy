/** Printing a tree of share links as indented text, and reading the text back. */
module LinkText {
  import opened Wrappers
  import opened IndentTree
  import opened LinkTree

  /** `text` stands for `x`: a folder's name and a colon, or anything the parser reads as the file. */
  ghost predicate Denotes(text: string, x: Item, parse: FileParser) {
    && x.level >= 0 && text != "" && !IsSpace(text[0]) && !IsSpace(text[|text| - 1])
    && match x.entry {
      case Folder(name) => text == name + ":"
      case File(url, name, size) => !IsFolder(text) && parse(text) == Some(FileInfo(url, name, size))
    }
  }

  function Spaces(n: nat): (s: string)
    ensures |s| == n && forall i :: 0 <= i < n ==> s[i] == ' '
  {
    seq(n, i => ' ')
  }

  /** A line is indented by two spaces a level. */
  function LineOf(x: Item, text: string): string {
    Spaces(if x.level < 0 then 0 else 2 * x.level) + text
  }

  function Printed(items: seq<Item>, texts: seq<string>): seq<string>
    requires |texts| == |items|
  {
    seq(|items|, i requires 0 <= i < |items| => LineOf(items[i], texts[i]))
  }

  lemma {:induction false} AlreadyTrimmed(text: string)
    requires text != "" && !IsSpace(text[0]) && !IsSpace(text[|text| - 1])
    ensures TrimSpace(text) == text
  {
  }

  /** What follows the indent of a printed line. */
  lemma {:induction false} LineParts(x: Item, text: string)
    requires x.level >= 0 && text != "" && text[0] != ' '
    ensures Indent(LineOf(x, text)) == 2 * x.level && LineOf(x, text)[2 * x.level..] == text
  {
    IndentOfAny(Spaces(2 * x.level), text);
  }

  lemma {:induction false} ReadsBack(x: Item, text: string, parse: FileParser)
    requires Denotes(text, x, parse)
    ensures ReadLine(LineOf(x, text), parse) == Ok(Some(x))
  {
    LineParts(x, text);
    AlreadyTrimmed(text);
    match x.entry {
      case Folder(name) => assert IsFolder(text) && text[..|text| - 1] == name;
      case File(_, _, _) =>
    }
  }

  lemma {:induction false} TrimsAway(before: string, text: string, after: string)
    requires forall i :: 0 <= i < |before| ==> IsSpace(before[i])
    requires forall i :: 0 <= i < |after| ==> IsSpace(after[i])
    requires text == "" || (!IsSpace(text[0]) && !IsSpace(text[|text| - 1]))
    ensures TrimSpace(before + text + after) == text
  {
    if before != [] {
      assert (before + text + after)[1..] == before[1..] + text + after;
      TrimsAway(before[1..], text, after);
    } else {
      assert before + text + after == text + after;
      if text == "" {
        assert text + after == after;
        AllTrimmed(after);
      } else {
        TrimsEnd(text, after);
      }
    }
  }

  lemma {:induction false} AllTrimmed(s: string)
    requires forall i :: 0 <= i < |s| ==> IsSpace(s[i])
    ensures TrimLeft(s) == "" && TrimSpace(s) == ""
  {
    if s != "" {
      AllTrimmed(s[1..]);
    }
  }

  lemma {:induction false} TrimsEnd(text: string, after: string)
    requires forall i :: 0 <= i < |after| ==> IsSpace(after[i])
    requires text != "" && !IsSpace(text[|text| - 1])
    ensures TrimRight(text + after) == text
  {
    if after == [] {
      assert text + after == text;
    } else {
      assert (text + after)[..|text + after| - 1] == text + after[..|after| - 1];
      TrimsEnd(text, after[..|after| - 1]);
    }
  }

  /**
   Any line is so many spaces, other white space, a trimmed text and white space. What it is read as: an odd
   indent is refused even on a blank line, then a blank line is nothing, and only the trimmed text counts.
   */
  lemma {:induction false} ReadLineMeans(
    spaces: string, before: string, text: string, after: string, parse: FileParser)
    requires forall i :: 0 <= i < |spaces| ==> spaces[i] == ' '
    requires forall i :: 0 <= i < |before| ==> IsSpace(before[i])
    requires before + text + after == "" || (before + text + after)[0] != ' '
    requires text == "" || (!IsSpace(text[0]) && !IsSpace(text[|text| - 1]))
    requires forall i :: 0 <= i < |after| ==> IsSpace(after[i])
    ensures var r := ReadLine(spaces + (before + text + after), parse);
      && (|spaces| % 2 == 1 ==> r == Err(OddIndent(spaces + (before + text + after))))
      && (|spaces| % 2 == 0 && text == "" ==> r == Ok(None))
      && (|spaces| % 2 == 0 && text != "" && text[|text| - 1] == ':' ==>
            r == Ok(Some(Item(|spaces| / 2, Folder(text[..|text| - 1])))))
      && (|spaces| % 2 == 0 && text != "" && text[|text| - 1] != ':' ==>
            match parse(text) {
              case None => r == Err(BadFile(text))
              case Some(f) => r == Ok(Some(Item(|spaces| / 2, File(f.url, f.name, f.size))))
            })
  {
    var rest := before + text + after;
    IndentOfAny(spaces, rest);
    assert (spaces + rest)[|spaces|..] == rest;
    TrimsAway(before, text, after);
  }

  lemma {:induction false} IndentOfAny(spaces: string, rest: string)
    requires forall i :: 0 <= i < |spaces| ==> spaces[i] == ' '
    requires rest == "" || rest[0] != ' '
    ensures Indent(spaces + rest) == |spaces|
  {
    if spaces == "" {
      assert spaces + rest == rest;
    } else {
      assert (spaces + rest)[1..] == spaces[1..] + rest;
      IndentOfAny(spaces[1..], rest);
    }
  }

  lemma {:induction false} ReadOneMore(
    lines: seq<string>, line: string, t: seq<Item>, x: Item, parse: FileParser)
    requires ReadAll(lines, parse) == Ok(t) && ReadLine(line, parse) == Ok(Some(x))
    ensures ReadAll(lines + [line], parse) == Ok(t + [x])
  {
    assert (lines + [line])[..|lines|] == lines;
  }

  lemma PrintedSplits(items: seq<Item>, texts: seq<string>)
    requires |texts| == |items| > 0
    ensures var n := |items| - 1;
      Printed(items, texts) == Printed(items[..n], texts[..n]) + [LineOf(items[n], texts[n])]
  {
    var n := |items| - 1;
    var all, front := Printed(items, texts), Printed(items[..n], texts[..n]);
    assert forall i :: 0 <= i < n ==> all[i] == front[i];
  }

  lemma {:induction false} NothingPrinted(parse: FileParser)
    ensures ReadAll(Printed([], []), parse) == Ok([ROOT] + [])
  {
    assert Printed([], []) == [] && [ROOT] + [] == [ROOT];
  }

  lemma {:induction false} OneMorePrinted(items: seq<Item>, texts: seq<string>, parse: FileParser)
    requires |texts| == |items| > 0
    requires var n := |items| - 1;
      ReadAll(Printed(items[..n], texts[..n]), parse) == Ok([ROOT] + items[..n]) && Denotes(texts[n], items[n], parse)
    ensures ReadAll(Printed(items, texts), parse) == Ok([ROOT] + items)
  {
    var n := |items| - 1;
    var front, last := Printed(items[..n], texts[..n]), LineOf(items[n], texts[n]);
    ReadsBack(items[n], texts[n], parse);
    ReadOneMore(front, last, [ROOT] + items[..n], items[n], parse);
    PrintedSplits(items, texts);
    LastItem(items);
  }

  lemma LastItem(items: seq<Item>)
    requires items != []
    ensures [ROOT] + items == [ROOT] + items[..|items| - 1] + [items[|items| - 1]]
  {
  }

  lemma {:induction false} AllReadBack(items: seq<Item>, texts: seq<string>, parse: FileParser)
    requires |texts| == |items| && forall i :: 0 <= i < |items| ==> Denotes(texts[i], items[i], parse)
    ensures ReadAll(Printed(items, texts), parse) == Ok([ROOT] + items)
    decreases |items|
  {
    if items == [] {
      NothingPrinted(parse);
    } else {
      AllReadBack(items[..|items| - 1], texts[..|items| - 1], parse);
      OneMorePrinted(items, texts, parse);
    }
  }

  /** Printing a forest by level and reading the text gives its lines, and with them the same forest. */
  lemma {:induction false} PrintThenRead(f: seq<Tree>, texts: seq<string>, parse: FileParser)
    requires WellFormed(f, -1) && |texts| == |Lines(f)|
    requires forall i :: 0 <= i < |texts| ==> Denotes(texts[i], Lines(f)[i], parse)
    ensures var t := [ROOT] + Lines(f);
      ReadAll(Printed(Lines(f), texts), parse) == Ok(t) && Trees(t, 1, |t|) == f
  {
    var t := [ROOT] + Lines(f);
    AllReadBack(Lines(f), texts, parse);
    assert t[1..|t|] == Lines(f);
    TreesOfLines(t, 1, |t|, f, -1);
  }

  // ---------------------------------------------------------------- the tree on the heap

  /** The nodes under `node` are the tree: its line, its size, and its children's trees in order. */
  ghost predicate Hangs(nodes: seq<Node>, node: Node, tree: Tree)
    reads nodes
    decreases tree
  {
    && node in nodes && Carries(node, tree.item)
    && node.size == (if tree.item.entry.File? then tree.item.entry.size else 0)
    && |node.children| == |tree.kids|
    && forall i :: 0 <= i < |tree.kids| ==> Hangs(nodes, node.children[i], tree.kids[i])
  }

  /** What the nodes link up at a position is the tree the lines denote there. */
  lemma {:induction false} ShapeHangs(t: seq<Item>, nodes: seq<Node>, p: nat)
    requires Rooted(t) && Shape(t, nodes) && FreshSizes(t, nodes) && p < |t|
    ensures Hangs(nodes, nodes[p], TreeAt(t, p))
    decreases |t| - p
  {
    assert Linked(t, nodes, p);
    var ks, kids := Kids(t, p, |t|), TreeAt(t, p).kids;
    TreeFollowsKids(t, p);
    KidsMembers(t, p, |t|);
    forall i | 0 <= i < |kids| ensures Hangs(nodes, nodes[p].children[i], kids[i]) {
      assert ks[i] in ks && Encloses(t, Parent(t, ks[i]), ks[i]);
      ShapeHangs(t, nodes, ks[i]);
    }
  }

  lemma {:induction false} WholeTree(t: seq<Item>)
    requires Rooted(t)
    ensures TreeAt(t, 0) == Tree(ROOT, Trees(t, 1, |t|))
  {
    assert End(t, 0) == |t|;
  }

  /** The heap tree of any text, read in depth-first order, is the text's lines in their order. */
  method BuildAndRead(lines: seq<string>, parse: FileParser)
    returns (r: Result<Node, LineError>, ghost tree: Tree, ghost nodes: seq<Node>)
    ensures match ReadAll(lines, parse) {
        case Err(e) => r == Err(e)
        case Ok(items) => r.Ok? && Hangs(nodes, r.value, tree) && Lines([tree]) == items && WellFormed(tree.kids, -1)
      }
  {
    ghost var t;
    r, t, nodes := BuildTree(lines, parse);
    tree := Tree(ROOT, []);
    if r.Ok? {
      ShapeHangs(t, nodes, 0);
      tree := TreeAt(t, 0);
      WholeTree(t);
      RootLines(t);
    }
  }

  lemma {:induction false} RootLines(t: seq<Item>)
    requires Rooted(t)
    ensures Lines([Tree(ROOT, Trees(t, 1, |t|))]) == t
    ensures WellFormed(Trees(t, 1, |t|), -1)
  {
    LinesOfTrees(t, 1, |t|);
    TreesAreWellFormed(t, 1, |t|, -1);
    LinesCons(Tree(ROOT, Trees(t, 1, |t|)), []);
    assert t == [ROOT] + t[1..|t|];
  }

  /** Printing a forest and parsing the text leaves exactly that forest under the root. */
  method PrintThenBuild(f: seq<Tree>, texts: seq<string>, parse: FileParser)
    returns (r: Result<Node, LineError>, ghost nodes: seq<Node>)
    requires WellFormed(f, -1) && |texts| == |Lines(f)|
    requires forall i :: 0 <= i < |texts| ==> Denotes(texts[i], Lines(f)[i], parse)
    ensures r.Ok? && Hangs(nodes, r.value, Tree(ROOT, f))
  {
    PrintThenRead(f, texts, parse);
    ghost var t;
    r, t, nodes := BuildTree(Printed(Lines(f), texts), parse);
    ShapeHangs(t, nodes, 0);
    WholeTree(t);
  }
}
