/** Several shares mounted over one another: their listings are merged by name. */
module ShareMerge {
  import opened Wrappers
  import opened ShareRefs

  /** One row of a share's listing. */
  datatype Entry =
    | Catalog(id: ByteString, name: string, modified: int)
    | Content(id: ByteString, name: string, size: int, modified: int)

  datatype File = File(id: ByteString, name: string, modified: int, isDir: bool, size: int)

  /** A listing row together with the reference it stands for. */
  datatype Seen = Seen(ref: ShareRef, entry: Entry)

  /** The answer of one share. */
  type Lister = ShareRef -> Result<seq<Entry>, string>

  function SeenIn(share: ShareRef, e: Entry): Seen {
    Seen(ShareRef(share.linkID, share.password, e.id), e)
  }

  /** The object a listing row becomes. */
  function FileOf(s: Seen, c: Codec): File {
    match s.entry
    case Catalog(_, name, modified) => File(EncodeRefs([s.ref], c), name, modified, true, 0)
    case Content(_, name, size, modified) => File(EncodeRefs([s.ref], c), name, modified, false, size)
  }

  // ---------------------------------------------------------------- the specification

  /** Everything the shares that answered list, in order. */
  ghost function Everything(shares: seq<ShareRef>, list: Lister): seq<Seen> {
    if shares == [] then []
    else
      var last := shares[|shares| - 1];
      Everything(shares[..|shares| - 1], list) + match list(last) case Ok(es) => AllSeen(last, es) case Err(_) => []
  }

  ghost function AllSeen(share: ShareRef, es: seq<Entry>): seq<Seen> {
    seq(|es|, i requires 0 <= i < |es| => SeenIn(share, es[i]))
  }

  ghost function FirstError(shares: seq<ShareRef>, list: Lister): Option<string> {
    if shares == [] then None
    else
      var earlier := FirstError(shares[..|shares| - 1], list);
      if earlier.Some? then earlier
      else match list(shares[|shares| - 1]) case Ok(_) => None case Err(e) => Some(e)
  }

  /** The names, each once, in the order of their first occurrence. */
  ghost function Names(ss: seq<Seen>): seq<string> {
    if ss == [] then []
    else
      var front := Names(ss[..|ss| - 1]);
      var name := ss[|ss| - 1].entry.name;
      if name in front then front else front + [name]
  }

  ghost predicate Mentions(ss: seq<Seen>, name: string) {
    exists i :: 0 <= i < |ss| && ss[i].entry.name == name
  }

  ghost function First(ss: seq<Seen>, name: string): (s: Seen)
    requires Mentions(ss, name)
    ensures s.entry.name == name && s in ss
  {
    if Mentions(ss[..|ss| - 1], name) then First(ss[..|ss| - 1], name) else ss[|ss| - 1]
  }

  /** A directory row whose reference can be read back. */
  predicate Mergeable(s: Seen, name: string) {
    s.entry.Catalog? && s.entry.name == name && GoodLink(s.ref.linkID)
  }

  /** The references of every such row with this name, in order. */
  ghost function DirRefs(ss: seq<Seen>, name: string): seq<ShareRef> {
    if ss == [] then []
    else
      var front := DirRefs(ss[..|ss| - 1], name);
      if Mergeable(ss[|ss| - 1], name) then front + [ss[|ss| - 1].ref] else front
  }

  /** When the last of them was modified. */
  ghost function LastModified(ss: seq<Seen>, name: string): int {
    if ss == [] then 0
    else if Mergeable(ss[|ss| - 1], name) then ss[|ss| - 1].entry.modified
    else LastModified(ss[..|ss| - 1], name)
  }

  /** What the merged listing shows under a name. */
  ghost function Shown(ss: seq<Seen>, name: string, c: Codec): File
    requires Mentions(ss, name)
  {
    var first := First(ss, name);
    if Mergeable(first, name) then
      File(EncodeRefs(DirRefs(ss, name), c), name, LastModified(ss, name), true, 0)
    else FileOf(first, c)
  }

  // ---------------------------------------------------------------- facts about it

  lemma {:induction false} NamesAreMentioned(ss: seq<Seen>)
    ensures forall name :: name in Names(ss) <==> Mentions(ss, name)
    ensures forall i, j :: 0 <= i < j < |Names(ss)| ==> Names(ss)[i] != Names(ss)[j]
  {
    if ss != [] {
      var front, last := ss[..|ss| - 1], ss[|ss| - 1];
      NamesAreMentioned(front);
      forall name ensures Mentions(ss, name) <==> Mentions(front, name) || last.entry.name == name {
        MentionsMore(front, last, name);
      }
      assert ss == front + [last];
    }
  }

  lemma MentionsMore(ss: seq<Seen>, s: Seen, name: string)
    ensures Mentions(ss + [s], name) <==> Mentions(ss, name) || s.entry.name == name
  {
    var more := ss + [s];
    assert more[|ss|] == s;
    if Mentions(ss, name) {
      var i :| 0 <= i < |ss| && ss[i].entry.name == name;
      assert more[i] == ss[i];
    }
  }

  lemma {:induction false} DirRefsNonEmpty(ss: seq<Seen>, name: string)
    requires Mentions(ss, name) && Mergeable(First(ss, name), name)
    ensures DirRefs(ss, name) != []
    ensures forall r :: r in DirRefs(ss, name) ==> GoodLink(r.linkID)
    ensures forall r :: r in DirRefs(ss, name) ==> exists i :: 0 <= i < |ss| && ss[i].ref == r
  {
    RefsAreGood(ss, name);
    var front := ss[..|ss| - 1];
    if Mentions(front, name) {
      DirRefsNonEmpty(front, name);
    }
  }

  lemma {:induction false} RefsAreGood(ss: seq<Seen>, name: string)
    ensures forall r :: r in DirRefs(ss, name) ==> GoodLink(r.linkID) && exists i :: 0 <= i < |ss| && ss[i].ref == r
  {
    if ss != [] {
      var front := ss[..|ss| - 1];
      RefsAreGood(front, name);
      forall r | r in DirRefs(ss, name) ensures GoodLink(r.linkID) && exists i :: 0 <= i < |ss| && ss[i].ref == r {
        if r in DirRefs(front, name) {
          var i :| 0 <= i < |front| && front[i].ref == r;
          assert ss[i].ref == r;
        } else {
          assert ss[|ss| - 1].ref == r;
        }
      }
    }
  }

  /** Another row leaves the other names as they are. */
  lemma OtherName(ss: seq<Seen>, s: Seen, name: string, c: Codec)
    requires Mentions(ss, name) && s.entry.name != name
    ensures Mentions(ss + [s], name) && Shown(ss + [s], name, c) == Shown(ss, name, c)
  {
    MentionsMore(ss, s, name);
    assert (ss + [s])[..|ss|] == ss;
  }

  lemma NewName(ss: seq<Seen>, s: Seen, c: Codec)
    requires !Mentions(ss, s.entry.name)
    ensures Mentions(ss + [s], s.entry.name) && Shown(ss + [s], s.entry.name, c) == FileOf(s, c)
  {
    var name := s.entry.name;
    MentionsMore(ss, s, name);
    assert (ss + [s])[..|ss|] == ss;
    NoRefs(ss, name);
    assert [] + [s.ref] == [s.ref];
  }

  lemma {:induction false} NoRefs(ss: seq<Seen>, name: string)
    requires !Mentions(ss, name)
    ensures DirRefs(ss, name) == []
  {
    if ss != [] {
      var front := ss[..|ss| - 1];
      assert forall i :: 0 <= i < |front| ==> front[i] == ss[i];
      NoRefs(front, name);
    }
  }

  /** A repeated name takes the new row in only when both are directories that can be read back. */
  lemma {:induction false} KnownName(ss: seq<Seen>, s: Seen, c: Codec)
    requires Mentions(ss, s.entry.name)
    ensures var name := s.entry.name;
      && Shown(ss, name, c).isDir == First(ss, name).entry.Catalog?
      && Mentions(ss + [s], name)
      && Shown(ss + [s], name, c) == (
           if Mergeable(First(ss, name), name) && Mergeable(s, name)
           then File(EncodeRefs(DirRefs(ss, name) + [s.ref], c), name, s.entry.modified, true, 0)
           else Shown(ss, name, c))
  {
    MentionsMore(ss, s, s.entry.name);
    assert (ss + [s])[..|ss|] == ss;
  }

  /** What the id of a shown directory decodes to. */
  lemma {:induction false} ShownDecodes(ss: seq<Seen>, name: string, c: Codec)
    requires Faithful(c) && Mentions(ss, name) && First(ss, name).entry.Catalog?
    requires forall i :: 0 <= i < |ss| ==> c.clean(ss[i].ref)
    ensures DecodeRefs(Shown(ss, name, c).id, c) ==
      if Mergeable(First(ss, name), name) then Some(DirRefs(ss, name)) else None
  {
    var first := First(ss, name);
    if Mergeable(first, name) {
      DirRefsNonEmpty(ss, name);
      RefsRoundTrip(DirRefs(ss, name), c);
    } else {
      OneRefRoundTrip(first.ref, c);
    }
  }

  // ---------------------------------------------------------------- share by share, row by row

  /** The references of one share's readable directory rows with this name. */
  ghost function RefsIn(share: ShareRef, es: seq<Entry>, name: string): seq<ShareRef> {
    if es == [] then []
    else
      (if es[0].Catalog? && es[0].name == name && GoodLink(share.linkID)
       then [ShareRef(share.linkID, share.password, es[0].id)] else [])
      + RefsIn(share, es[1..], name)
  }

  ghost function RefsNamed(shares: seq<ShareRef>, list: Lister, name: string): seq<ShareRef> {
    if shares == [] then []
    else
      (match list(shares[0]) case Ok(es) => RefsIn(shares[0], es, name) case Err(_) => [])
      + RefsNamed(shares[1..], list, name)
  }

  /** When the last of those rows was modified. */
  ghost function TimeIn(share: ShareRef, es: seq<Entry>, name: string): Option<int> {
    if es == [] then None
    else if TimeIn(share, es[1..], name).Some? then TimeIn(share, es[1..], name)
    else if es[0].Catalog? && es[0].name == name && GoodLink(share.linkID) then Some(es[0].modified)
    else None
  }

  ghost function LastTime(shares: seq<ShareRef>, list: Lister, name: string): Option<int> {
    if shares == [] then None
    else if LastTime(shares[1..], list, name).Some? then LastTime(shares[1..], list, name)
    else match list(shares[0]) case Ok(es) => TimeIn(shares[0], es, name) case Err(_) => None
  }

  /** The first row with this name. */
  ghost function RowIn(es: seq<Entry>, name: string): Option<Entry> {
    if es == [] then None else if es[0].name == name then Some(es[0]) else RowIn(es[1..], name)
  }

  ghost function FirstRow(shares: seq<ShareRef>, list: Lister, name: string): Option<(ShareRef, Entry)> {
    if shares == [] then None
    else
      match list(shares[0])
      case Err(_) => FirstRow(shares[1..], list, name)
      case Ok(es) =>
        match RowIn(es, name)
        case Some(e) => Some((shares[0], e))
        case None => FirstRow(shares[1..], list, name)
  }

  /** The names of all rows, in order and with repetitions. */
  ghost function RowNames(shares: seq<ShareRef>, list: Lister): seq<string> {
    if shares == [] then []
    else
      (match list(shares[0]) case Ok(es) => seq(|es|, k requires 0 <= k < |es| => es[k].name) case Err(_) => [])
      + RowNames(shares[1..], list)
  }

  /** What a shown file says of the rows with its name. */
  ghost predicate FromShares(f: File, shares: seq<ShareRef>, list: Lister, c: Codec) {
    match FirstRow(shares, list, f.name)
    case None => false
    case Some((share, Catalog(id, _, modified))) =>
      && f.isDir && f.size == 0
      && (if GoodLink(share.linkID) then
            f.id == EncodeRefs(RefsNamed(shares, list, f.name), c)
            && DecodeRefs(f.id, c) == Some(RefsNamed(shares, list, f.name))
            && Some(f.modified) == LastTime(shares, list, f.name)
          else f.id == EncodeRef(ShareRef(share.linkID, share.password, id))
               && DecodeRefs(f.id, c) == None && f.modified == modified)
    case Some((share, Content(id, _, size, modified))) =>
      && !f.isDir && f.size == size && f.modified == modified
      && f.id == EncodeRef(ShareRef(share.linkID, share.password, id))
      && DecodeRefs(f.id, c) ==
           if GoodLink(share.linkID) then Some([ShareRef(share.linkID, share.password, id)]) else None
  }

  /** Each name is shown once, in the order of the first rows. */
  ghost predicate InFirstOrder(files: seq<File>, names: seq<string>) {
    && (forall n :: n in names ==> exists j :: 0 <= j < |files| && files[j].name == n)
    && exists at: seq<nat> :: |at| == |files| && FirstPositions(files, names, at)
  }

  ghost predicate FirstPositions(files: seq<File>, names: seq<string>, at: seq<nat>)
    requires |at| == |files|
  {
    && (forall i :: 0 <= i < |at| ==>
          && at[i] < |names| && names[at[i]] == files[i].name
          && forall q :: 0 <= q < at[i] ==> names[q] != files[i].name)
    && forall i, j :: 0 <= i < j < |at| ==> at[i] < at[j]
  }

  ghost predicate AllClean(shares: seq<ShareRef>, list: Lister, c: Codec) {
    forall i, k :: 0 <= i < |shares| && list(shares[i]).Ok? && 0 <= k < |list(shares[i]).value| ==>
      c.clean(ShareRef(shares[i].linkID, shares[i].password, list(shares[i]).value[k].id))
  }

  /** No share listed anything, and one of them failed. */
  ghost predicate NothingButErrors(shares: seq<ShareRef>, list: Lister) {
    && (exists i :: 0 <= i < |shares| && list(shares[i]).Err?)
    && forall i :: 0 <= i < |shares| && list(shares[i]).Ok? ==> list(shares[i]).value == []
  }

  ghost predicate IsFirstError(shares: seq<ShareRef>, list: Lister, error: string) {
    exists i :: 0 <= i < |shares| && list(shares[i]) == Err(error) && forall j :: 0 <= j < i ==> list(shares[j]).Ok?
  }

  // The rows in order are everything seen, so the two descriptions agree.

  ghost function RowsOf(share: ShareRef, list: Lister): seq<Seen> {
    match list(share) case Ok(es) => AllSeen(share, es) case Err(_) => []
  }

  lemma {:induction false} EverythingCons(shares: seq<ShareRef>, list: Lister)
    requires shares != []
    ensures Everything(shares, list) == RowsOf(shares[0], list) + Everything(shares[1..], list)
  {
    var n := |shares| - 1;
    var last := RowsOf(shares[n], list);
    assert Everything(shares, list) == Everything(shares[..n], list) + last;
    if n > 0 {
      EverythingCons(shares[..n], list);
      assert shares[..n][1..] == shares[1..][..n - 1] && shares[1..][n - 1] == shares[n];
      var middle := Everything(shares[1..][..n - 1], list);
      assert RowsOf(shares[0], list) + middle + last == RowsOf(shares[0], list) + (middle + last);
    } else {
      assert shares[..0] == [] && shares[1..] == [];
    }
  }

  lemma {:induction false} DirRefsJoin(a: seq<Seen>, b: seq<Seen>, name: string)
    ensures DirRefs(a + b, name) == DirRefs(a, name) + DirRefs(b, name)
    ensures LastModified(a + b, name) == if DirRefs(b, name) != [] then LastModified(b, name) else LastModified(a, name)
  {
    if b == [] {
      assert a + b == a;
    } else {
      var n := |b| - 1;
      assert (a + b)[..|a + b| - 1] == a + b[..n];
      DirRefsJoin(a, b[..n], name);
    }
  }

  lemma {:induction false} AllSeenCons(share: ShareRef, es: seq<Entry>)
    requires es != []
    ensures var first := Seen(ShareRef(share.linkID, share.password, es[0].id), es[0]);
      AllSeen(share, es) == [first] + AllSeen(share, es[1..])
  {
  }

  lemma {:induction false} OneRow(s: Seen, name: string)
    ensures DirRefs([s], name) == if Mergeable(s, name) then [s.ref] else []
    ensures Mergeable(s, name) ==> LastModified([s], name) == s.entry.modified
    ensures Mentions([s], name) <==> s.entry.name == name
    ensures s.entry.name == name ==> First([s], name) == s
  {
    assert [s][..0] == [] && [s][0] == s;
    assert DirRefs([], name) == [];
  }

  lemma {:induction false} RefsInRows(share: ShareRef, es: seq<Entry>, name: string)
    ensures DirRefs(AllSeen(share, es), name) == RefsIn(share, es, name)
    ensures TimeIn(share, es, name) ==
      if RefsIn(share, es, name) == [] then None else Some(LastModified(AllSeen(share, es), name))
  {
    if es != [] {
      AllSeenCons(share, es);
      var s := AllSeen(share, es)[0];
      RefsInRows(share, es[1..], name);
      DirRefsJoin([s], AllSeen(share, es[1..]), name);
      OneRow(s, name);
    }
  }

  lemma {:induction false} RefsAreRows(shares: seq<ShareRef>, list: Lister, name: string)
    ensures DirRefs(Everything(shares, list), name) == RefsNamed(shares, list, name)
    ensures LastTime(shares, list, name) ==
      if RefsNamed(shares, list, name) == [] then None else Some(LastModified(Everything(shares, list), name))
  {
    if shares != [] {
      EverythingCons(shares, list);
      RefsAreRows(shares[1..], list, name);
      DirRefsJoin(RowsOf(shares[0], list), Everything(shares[1..], list), name);
      match list(shares[0])
      case Ok(es) => RefsInRows(shares[0], es, name);
      case Err(_) =>
    }
  }

  lemma {:induction false} FirstJoin(a: seq<Seen>, b: seq<Seen>, name: string)
    ensures Mentions(a + b, name) <==> Mentions(a, name) || Mentions(b, name)
    ensures Mentions(a, name) ==> First(a + b, name) == First(a, name)
    ensures !Mentions(a, name) && Mentions(b, name) ==> First(a + b, name) == First(b, name)
  {
    if b == [] {
      assert a + b == a;
    } else {
      var n := |b| - 1;
      var front := a + b[..n];
      FirstJoin(a, b[..n], name);
      assert a + b == front + [b[n]] && (a + b)[..|a + b| - 1] == front && b == b[..n] + [b[n]];
      MentionsMore(front, b[n], name);
      MentionsMore(b[..n], b[n], name);
    }
  }

  lemma {:induction false} RowInRows(share: ShareRef, es: seq<Entry>, name: string)
    ensures var rows := AllSeen(share, es);
      if Mentions(rows, name)
      then RowIn(es, name) == Some(First(rows, name).entry)
           && First(rows, name).ref == ShareRef(share.linkID, share.password, First(rows, name).entry.id)
      else RowIn(es, name) == None
  {
    if es != [] {
      AllSeenCons(share, es);
      var s := AllSeen(share, es)[0];
      RowInRows(share, es[1..], name);
      FirstJoin([s], AllSeen(share, es[1..]), name);
      OneRow(s, name);
    }
  }

  lemma {:induction false} FirstIsRow(shares: seq<ShareRef>, list: Lister, name: string)
    ensures var all := Everything(shares, list);
      match FirstRow(shares, list, name) {
        case None => !Mentions(all, name)
        case Some((share, e)) =>
          Mentions(all, name) && First(all, name) == Seen(ShareRef(share.linkID, share.password, e.id), e)
      }
  {
    if shares != [] {
      EverythingCons(shares, list);
      FirstIsRow(shares[1..], list, name);
      FirstJoin(RowsOf(shares[0], list), Everything(shares[1..], list), name);
      match list(shares[0])
      case Ok(es) => RowInRows(shares[0], es, name);
      case Err(_) =>
    }
  }

  lemma {:induction false} NamesAreRows(shares: seq<ShareRef>, list: Lister)
    ensures var all, names := Everything(shares, list), RowNames(shares, list);
      && |all| == |names|
      && forall i {:trigger all[i]} {:trigger names[i]} :: 0 <= i < |all| ==> all[i].entry.name == names[i]
  {
    if shares != [] {
      EverythingCons(shares, list);
      NamesAreRows(shares[1..], list);
    }
  }

  /** Every row seen is a row some share listed, under that share's link and password. */
  lemma {:induction false} SeenAreRows(shares: seq<ShareRef>, list: Lister, c: Codec)
    requires AllClean(shares, list, c)
    ensures forall s :: s in Everything(shares, list) ==> c.clean(s.ref)
  {
    if shares != [] {
      EverythingCons(shares, list);
      assert AllClean(shares[1..], list, c) by {
        assert forall i :: 0 <= i < |shares[1..]| ==> shares[1..][i] == shares[i + 1];
      }
      SeenAreRows(shares[1..], list, c);
      var rows := RowsOf(shares[0], list);
      forall s | s in rows ensures c.clean(s.ref) {
        var k :| 0 <= k < |rows| && rows[k] == s;
        assert s.ref == ShareRef(shares[0].linkID, shares[0].password, list(shares[0]).value[k].id);
      }
    }
  }

  lemma {:induction false} NothingListed(shares: seq<ShareRef>, list: Lister)
    ensures Everything(shares, list) == [] <==>
      forall i :: 0 <= i < |shares| && list(shares[i]).Ok? ==> list(shares[i]).value == []
  {
    if shares != [] {
      EverythingCons(shares, list);
      var rest, rows := shares[1..], RowsOf(shares[0], list);
      NothingListed(rest, list);
      assert rows == [] <==> (list(shares[0]).Ok? ==> list(shares[0]).value == []);
      assert forall i :: 0 <= i < |rest| ==> rest[i] == shares[i + 1];
      assert forall i :: 1 <= i < |shares| ==> shares[i] == rest[i - 1];
    }
  }

  lemma {:induction false} FirstErrorMeans(shares: seq<ShareRef>, list: Lister)
    ensures match FirstError(shares, list) {
        case None => forall i :: 0 <= i < |shares| ==> list(shares[i]).Ok?
        case Some(e) => IsFirstError(shares, list, e)
      }
  {
    if shares != [] {
      var n := |shares| - 1;
      var front := shares[..n];
      FirstErrorMeans(front, list);
      assert forall i :: 0 <= i < n ==> front[i] == shares[i];
    }
  }

  /** When the merge reports an error, and which. */
  lemma {:induction false} ErrorFromShares(
    shares: seq<ShareRef>, list: Lister, files: seq<File>, indices: map<string, nat>, c: Codec)
    requires Listing(Everything(shares, list), files, indices, c)
    ensures files == [] && FirstError(shares, list).Some? <==> NothingButErrors(shares, list)
    ensures FirstError(shares, list).Some? ==> IsFirstError(shares, list, FirstError(shares, list).value)
  {
    var all := Everything(shares, list);
    NothingListed(shares, list);
    FirstErrorMeans(shares, list);
    NamesAreMentioned(all);
    assert all != [] ==> Mentions(all, all[0].entry.name);
    assert files != [] ==> Names(all)[0] in Names(all);
  }

  /** The listing the loop builds, read from the shares' answers. */
  lemma {:induction false} ListingFromShares(
    shares: seq<ShareRef>, list: Lister, files: seq<File>, indices: map<string, nat>, c: Codec)
    requires Faithful(c) && AllClean(shares, list, c) && Listing(Everything(shares, list), files, indices, c)
    ensures forall i :: 0 <= i < |files| ==> FromShares(files[i], shares, list, c)
    ensures InFirstOrder(files, RowNames(shares, list))
  {
    forall i | 0 <= i < |files| ensures FromShares(files[i], shares, list, c) {
      ShownFromShares(shares, list, files, indices, c, i);
    }
    OrderFromShares(shares, list, files, indices, c);
  }

  lemma {:induction false} ShownFromShares(
    shares: seq<ShareRef>, list: Lister, files: seq<File>, indices: map<string, nat>, c: Codec, i: nat)
    requires Faithful(c) && AllClean(shares, list, c) && Listing(Everything(shares, list), files, indices, c)
    requires i < |files|
    ensures FromShares(files[i], shares, list, c)
  {
    var all, name := Everything(shares, list), files[i].name;
    assert Shows(all, files, c, i);
    SeenAreRows(shares, list, c);
    FirstIsRow(shares, list, name);
    var first := First(all, name);
    OneRefRoundTrip(first.ref, c);
    if first.entry.Catalog? {
      RefsAreRows(shares, list, name);
      ShownDecodes(all, name, c);
      if Mergeable(first, name) {
        DirRefsNonEmpty(all, name);
      }
    }
  }

  lemma {:induction false} OrderFromShares(
    shares: seq<ShareRef>, list: Lister, files: seq<File>, indices: map<string, nat>, c: Codec)
    requires Listing(Everything(shares, list), files, indices, c)
    ensures InFirstOrder(files, RowNames(shares, list))
  {
    var all, names := Everything(shares, list), RowNames(shares, list);
    MergedNames(all, files, indices, c);
    NamesAreRows(shares, list);
    NamesInFirstOrder(all, names, files);
  }

  lemma {:induction false} NamesInFirstOrder(all: seq<Seen>, names: seq<string>, files: seq<File>)
    requires |all| == |names|
    requires forall i {:trigger all[i]} {:trigger names[i]} :: 0 <= i < |all| ==> all[i].entry.name == names[i]
    requires forall s :: s in all ==> exists j :: 0 <= j < |files| && files[j].name == s.entry.name
    requires forall i :: 0 <= i < |files| ==> Mentions(all, files[i].name)
    requires forall i, j :: 0 <= i < j < |files| ==> FirstAt(all, files[i].name) < FirstAt(all, files[j].name)
    ensures InFirstOrder(files, names)
  {
    forall n | n in names ensures exists j :: 0 <= j < |files| && files[j].name == n {
      var k :| 0 <= k < |names| && names[k] == n;
      assert all[k] in all;
    }
    var at: seq<nat> := seq(|files|, i requires 0 <= i < |files| => FirstAt(all, files[i].name));
    assert FirstPositions(files, names, at);
  }

  // ---------------------------------------------------------------- the program

  /** One shown file: the `i`-th name, with what is to be shown under it. */
  ghost predicate Shows(ss: seq<Seen>, files: seq<File>, c: Codec, i: nat) {
    && i < |files| == |Names(ss)| && Mentions(ss, Names(ss)[i])
    && files[i] == Shown(ss, Names(ss)[i], c) && files[i].name == Names(ss)[i]
  }

  /** The index finds each name mentioned where it is listed. */
  ghost predicate Indexed(ss: seq<Seen>, files: seq<File>, indices: map<string, nat>) {
    && (forall name :: name in indices <==> Mentions(ss, name))
    && (forall name :: name in indices ==> indices[name] < |files| && files[indices[name]].name == name)
  }

  /** The two locals of the merge loop agree with what has been seen. */
  ghost predicate Listing(ss: seq<Seen>, files: seq<File>, indices: map<string, nat>, c: Codec) {
    && |files| == |Names(ss)|
    && (forall i :: 0 <= i < |files| ==> Shows(ss, files, c, i))
    && Indexed(ss, files, indices)
  }

  /** The names after one more row. */
  lemma {:induction false} NamesMore(ss: seq<Seen>, s: Seen)
    ensures Names(ss + [s]) == if s.entry.name in Names(ss) then Names(ss) else Names(ss) + [s.entry.name]
    ensures s.entry.name in Names(ss) <==> Mentions(ss, s.entry.name)
  {
    assert (ss + [s])[..|ss|] == ss;
    NamesAreMentioned(ss);
  }

  /** A row with another name leaves what is shown. */
  lemma {:induction false} StillShows(ss: seq<Seen>, files: seq<File>, more: seq<File>, s: Seen, c: Codec, i: nat)
    requires Shows(ss, files, c, i) && Names(ss)[i] != s.entry.name
    requires i < |more| == |Names(ss + [s])| && more[i] == files[i] && Names(ss + [s])[i] == Names(ss)[i]
    ensures Shows(ss + [s], more, c, i)
  {
    OtherName(ss, s, Names(ss)[i], c);
  }

  lemma {:induction false} IndexNew(ss: seq<Seen>, files: seq<File>, indices: map<string, nat>, s: Seen, f: File)
    requires Indexed(ss, files, indices) && f.name == s.entry.name
    ensures Indexed(ss + [s], files + [f], indices[s.entry.name := |files|])
  {
    forall name ensures Mentions(ss + [s], name) <==> Mentions(ss, name) || s.entry.name == name {
      MentionsMore(ss, s, name);
    }
  }

  lemma {:induction false} IndexKnown(ss: seq<Seen>, files: seq<File>, indices: map<string, nat>, s: Seen, f: File)
    requires Indexed(ss, files, indices) && f.name == s.entry.name && s.entry.name in indices
    ensures Indexed(ss + [s], files[indices[s.entry.name] := f], indices)
  {
    forall name ensures Mentions(ss + [s], name) <==> Mentions(ss, name) {
      MentionsMore(ss, s, name);
    }
  }

  lemma {:induction false} ListNew(ss: seq<Seen>, files: seq<File>, indices: map<string, nat>, s: Seen, c: Codec)
    requires Listing(ss, files, indices, c) && s.entry.name !in indices
    ensures Listing(ss + [s], files + [FileOf(s, c)], indices[s.entry.name := |files|], c)
  {
    var more := files + [FileOf(s, c)];
    NamesMore(ss, s);
    NewName(ss, s, c);
    IndexNew(ss, files, indices, s, FileOf(s, c));
    forall i | 0 <= i < |more| ensures Shows(ss + [s], more, c, i) {
      if i < |files| {
        assert Shows(ss, files, c, i);
        StillShows(ss, files, more, s, c, i);
      }
    }
  }

  lemma {:induction false} ListKnown(
    ss: seq<Seen>, files: seq<File>, indices: map<string, nat>, s: Seen, f: File, c: Codec)
    requires Listing(ss, files, indices, c) && s.entry.name in indices
    requires Mentions(ss + [s], s.entry.name) && f == Shown(ss + [s], s.entry.name, c) && f.name == s.entry.name
    ensures Listing(ss + [s], files[indices[s.entry.name] := f], indices, c)
  {
    var at := indices[s.entry.name];
    var more := files[at := f];
    NamesMore(ss, s);
    NamesAreMentioned(ss);
    IndexKnown(ss, files, indices, s, f);
    assert Shows(ss, files, c, at);
    forall i | 0 <= i < |more| ensures Shows(ss + [s], more, c, i) {
      if i != at {
        assert Shows(ss, files, c, i);
        StillShows(ss, files, more, s, c, i);
      }
    }
  }

  /** Where the index leads. */
  lemma {:induction false} Found(ss: seq<Seen>, files: seq<File>, indices: map<string, nat>, name: string, c: Codec)
    requires Listing(ss, files, indices, c) && name in indices
    ensures Mentions(ss, name) && indices[name] < |files|
    ensures files[indices[name]] == Shown(ss, name, c) && files[indices[name]].name == name
  {
    assert Shows(ss, files, c, indices[name]);
  }

  /** What the program makes of two directories with one name is what is to be shown. */
  lemma {:induction false} TwoDirectories(ss: seq<Seen>, s: Seen, c: Codec)
    requires Faithful(c) && Mentions(ss, s.entry.name) && s.entry.Catalog? && First(ss, s.entry.name).entry.Catalog?
    requires forall i :: 0 <= i < |ss| ==> c.clean(ss[i].ref)
    ensures var name := s.entry.name; var shown := Shown(ss, name, c);
      var before, added := DecodeRefs(shown.id, c), DecodeRefs(FileOf(s, c).id, c);
      && Mentions(ss + [s], name)
      && Shown(ss + [s], name, c) ==
           if before.None? || added.None? then shown
           else File(EncodeRefs(before.value + added.value, c), name, s.entry.modified, true, 0)
  {
    KnownName(ss, s, c);
    ShownDecodes(ss, s.entry.name, c);
    OneRefRoundTrip(s.ref, c);
  }

  /** One listing row. */
  method AddItem(files: seq<File>, indices: map<string, nat>, s: Seen, c: Codec, ghost ss: seq<Seen>)
    returns (files': seq<File>, indices': map<string, nat>)
    requires Faithful(c) && Listing(ss, files, indices, c)
    requires forall i :: 0 <= i < |ss| ==> c.clean(ss[i].ref)
    ensures Listing(ss + [s], files', indices', c)
  {
    var item := FileOf(s, c);
    files', indices' := files, indices;
    if item.name !in indices {
      ListNew(ss, files, indices, s, c);
      return files + [item], indices[item.name := |files|];
    }
    var idx := indices[item.name];
    Found(ss, files, indices, item.name, c);
    KnownName(ss, s, c);
    ListKnown(ss, files, indices, s, Shown(ss + [s], item.name, c), c);
    assert files[idx := files[idx]] == files;
    if !files[idx].isDir || !item.isDir {
      return;
    }
    TwoDirectories(ss, s, c);
    var existingRefs := DecodeRefs(files[idx].id, c);
    var itemRefs := DecodeRefs(item.id, c);
    if existingRefs.None? || itemRefs.None? {
      return;
    }
    var mergedRefs := existingRefs.value + itemRefs.value;
    files' := files[idx := File(EncodeRefs(mergedRefs, c), item.name, item.modified, true, 0)];
  }

  /**
   Every share that answers is listed in order; an error counts only when nothing was listed. The listing is
   what the answers say: each name once, and under it what `FromShares` reads off the rows.
   */
  method GetMergedFiles(shares: seq<ShareRef>, list: Lister, c: Codec) returns (r: Result<seq<File>, string>)
    requires Faithful(c) && AllClean(shares, list, c)
    ensures r.Err? <==> NothingButErrors(shares, list)
    ensures r.Err? ==> IsFirstError(shares, list, r.error)
    ensures r.Ok? ==> forall i :: 0 <= i < |r.value| ==> FromShares(r.value[i], shares, list, c)
    ensures r.Ok? ==> InFirstOrder(r.value, RowNames(shares, list))
    ensures r.Ok? ==> exists indices :: Listing(Everything(shares, list), r.value, indices, c)
  {
    var files: seq<File>, indices: map<string, nat>, firstErr: Option<string> := [], map[], None;
    ghost var all := [];
    SeenAreRows(shares, list, c);
    for i := 0 to |shares|
      invariant all == Everything(shares[..i], list) && firstErr == FirstError(shares[..i], list)
      invariant Listing(all, files, indices, c)
    {
      assert shares[..i + 1][..i] == shares[..i];
      EverythingGrows(shares, i, list);
      EverythingGrows(shares, i + 1, list);
      var answer := list(shares[i]);
      if answer.Err? {
        firstErr := if firstErr.None? then Some(answer.error) else firstErr;
        continue;
      }
      files, indices := AddAll(files, indices, shares[i], answer.value, c, all);
      all := all + AllSeen(shares[i], answer.value);
    }
    assert shares[..|shares|] == shares;
    ErrorFromShares(shares, list, files, indices, c);
    if files == [] && firstErr.Some? {
      return Err(firstErr.value);
    }
    ListingFromShares(shares, list, files, indices, c);
    r := Ok(files);
  }

  lemma {:induction false} EverythingGrows(shares: seq<ShareRef>, n: nat, list: Lister)
    requires n <= |shares|
    ensures Everything(shares[..n], list) <= Everything(shares, list)
  {
    if n < |shares| {
      EverythingGrows(shares[..|shares| - 1], n, list);
      assert shares[..|shares| - 1][..n] == shares[..n];
    } else {
      assert shares[..n] == shares;
    }
  }

  /** The rows of one share. */
  method AddAll(
    files0: seq<File>, indices0: map<string, nat>, share: ShareRef, es: seq<Entry>, c: Codec, ghost ss: seq<Seen>)
    returns (files: seq<File>, indices: map<string, nat>)
    requires Faithful(c) && Listing(ss, files0, indices0, c)
    requires forall s :: s in ss + AllSeen(share, es) ==> c.clean(s.ref)
    ensures Listing(ss + AllSeen(share, es), files, indices, c)
  {
    files, indices := files0, indices0;
    ghost var rows := AllSeen(share, es);
    assert ss + rows[..0] == ss;
    for j := 0 to |es|
      invariant Listing(ss + rows[..j], files, indices, c)
    {
      assert forall i :: 0 <= i < |ss + rows[..j]| ==> (ss + rows[..j])[i] == (ss + rows)[i];
      files, indices := AddItem(files, indices, SeenIn(share, es[j]), c, ss + rows[..j]);
      assert ss + rows[..j] + [rows[j]] == ss + rows[..j + 1];
    }
    assert rows[..|es|] == rows;
  }

  /** The position of the first row with this name. */
  ghost function FirstAt(ss: seq<Seen>, name: string): (i: nat)
    requires Mentions(ss, name)
    ensures i < |ss| && ss[i].entry.name == name && forall j :: 0 <= j < i ==> ss[j].entry.name != name
  {
    if Mentions(ss[..|ss| - 1], name) then FirstAt(ss[..|ss| - 1], name) else |ss| - 1
  }

  lemma {:induction false} FirstIsAt(ss: seq<Seen>, name: string)
    requires Mentions(ss, name)
    ensures First(ss, name) == ss[FirstAt(ss, name)]
  {
    if Mentions(ss[..|ss| - 1], name) {
      FirstIsAt(ss[..|ss| - 1], name);
    }
  }

  lemma {:induction false} FirstAtStays(ss: seq<Seen>, s: Seen, name: string)
    requires Mentions(ss, name)
    ensures Mentions(ss + [s], name) && FirstAt(ss + [s], name) == FirstAt(ss, name)
  {
    MentionsMore(ss, s, name);
    assert (ss + [s])[..|ss|] == ss;
  }

  /** Names are listed in the order in which they first occur. */
  lemma {:induction false} NamesInOrder(ss: seq<Seen>, i: nat, j: nat)
    requires i < j < |Names(ss)|
    ensures Mentions(ss, Names(ss)[i]) && Mentions(ss, Names(ss)[j])
    ensures FirstAt(ss, Names(ss)[i]) < FirstAt(ss, Names(ss)[j])
  {
    var front, last := ss[..|ss| - 1], ss[|ss| - 1];
    assert ss == front + [last];
    NamesAreMentioned(front);
    NamesAreMentioned(ss);
    if j < |Names(front)| {
      NamesInOrder(front, i, j);
      FirstAtStays(front, last, Names(ss)[i]);
      FirstAtStays(front, last, Names(ss)[j]);
    } else {
      assert Names(ss)[i] in Names(front) && Names(ss)[j] == last.entry.name;
      FirstAtStays(front, last, Names(ss)[i]);
      assert !Mentions(front, last.entry.name);
    }
  }

  /** Every directory row with this name has a reference that can be read back. */
  ghost predicate AllReadable(ss: seq<Seen>, name: string) {
    forall i :: 0 <= i < |ss| && ss[i].entry.Catalog? && ss[i].entry.name == name ==> GoodLink(ss[i].ref.linkID)
  }

  /** The references of every directory row with this name. */
  ghost function AllDirRefs(ss: seq<Seen>, name: string): seq<ShareRef> {
    if ss == [] then []
    else
      var front := AllDirRefs(ss[..|ss| - 1], name);
      var last := ss[|ss| - 1];
      if last.entry.Catalog? && last.entry.name == name then front + [last.ref] else front
  }

  /** Dropping rows loses references: none is lost exactly when all can be read back. */
  lemma {:induction false} NothingLost(ss: seq<Seen>, name: string)
    ensures |DirRefs(ss, name)| <= |AllDirRefs(ss, name)|
    ensures DirRefs(ss, name) == AllDirRefs(ss, name) <==> AllReadable(ss, name)
    ensures |DirRefs(ss, name)| == |AllDirRefs(ss, name)| <==> AllReadable(ss, name)
  {
    if ss != [] {
      var front, last := ss[..|ss| - 1], ss[|ss| - 1];
      NothingLost(front, name);
      assert ss == front + [last];
      ReadableMore(front, last, name);
    }
  }

  lemma ReadableMore(ss: seq<Seen>, s: Seen, name: string)
    ensures AllReadable(ss + [s], name) <==>
      AllReadable(ss, name) && (s.entry.Catalog? && s.entry.name == name ==> GoodLink(s.ref.linkID))
  {
    var more := ss + [s];
    assert more[|ss|] == s && forall i :: 0 <= i < |ss| ==> more[i] == ss[i];
  }

  /**
   What a name first seen as a directory decodes to: the references of all its directory rows if and only if
   every one of them can be read back.
   */
  lemma {:induction false} MergedExactlyWhenReadable(ss: seq<Seen>, name: string, c: Codec)
    requires Faithful(c) && Mentions(ss, name) && First(ss, name).entry.Catalog?
    requires forall i :: 0 <= i < |ss| ==> c.clean(ss[i].ref)
    ensures DecodeRefs(Shown(ss, name, c).id, c) == Some(AllDirRefs(ss, name)) <==> AllReadable(ss, name)
  {
    ShownDecodes(ss, name, c);
    NothingLost(ss, name);
    FirstIsAt(ss, name);
  }

  /** Each name once, in first-occurrence order, and none left out. */
  lemma {:induction false} MergedNames(all: seq<Seen>, files: seq<File>, indices: map<string, nat>, c: Codec)
    requires Listing(all, files, indices, c)
    ensures forall s :: s in all ==> exists j :: 0 <= j < |files| && files[j].name == s.entry.name
    ensures forall i :: 0 <= i < |files| ==> Mentions(all, files[i].name)
    ensures forall i, j :: 0 <= i < j < |files| ==>
      files[i].name != files[j].name && FirstAt(all, files[i].name) < FirstAt(all, files[j].name)
  {
    NamesAreMentioned(all);
    forall i | 0 <= i < |files| ensures files[i].name == Names(all)[i] && Mentions(all, files[i].name) {
      assert Shows(all, files, c, i);
    }
    forall s | s in all ensures exists j :: 0 <= j < |files| && files[j].name == s.entry.name {
      assert Mentions(all, s.entry.name);
      var j :| 0 <= j < |Names(all)| && Names(all)[j] == s.entry.name;
      assert files[j].name == s.entry.name;
    }
    forall i, j | 0 <= i < j < |files|
      ensures files[i].name != files[j].name && FirstAt(all, files[i].name) < FirstAt(all, files[j].name)
    {
      NamesInOrder(all, i, j);
    }
  }

  /**
   The merged listing, name by name. A name first seen as a directory decodes to the references of its
   directory rows that can be read back, in order, unless its first one cannot; those are all of them exactly
   when all can be read back. Any other name is its first row.
   */
  lemma {:induction false} MergedListing(
    all: seq<Seen>, files: seq<File>, indices: map<string, nat>, c: Codec, i: nat)
    requires Faithful(c) && Listing(all, files, indices, c) && i < |files|
    requires forall s :: s in all ==> c.clean(s.ref)
    ensures Mentions(all, files[i].name)
    ensures forall j :: 0 <= j < |files| && j != i ==> files[j].name != files[i].name
    ensures forall j :: i < j < |files| ==>
      Mentions(all, files[j].name) && FirstAt(all, files[i].name) < FirstAt(all, files[j].name)
    ensures forall s :: s in all ==> exists j :: 0 <= j < |files| && files[j].name == s.entry.name
    ensures var name := files[i].name; var first := all[FirstAt(all, name)];
      if first.entry.Catalog? then
        && files[i].isDir
        && DecodeRefs(files[i].id, c) == (if GoodLink(first.ref.linkID) then Some(DirRefs(all, name)) else None)
        && (DecodeRefs(files[i].id, c) == Some(AllDirRefs(all, name)) <==> AllReadable(all, name))
      else files[i] == FileOf(first, c)
  {
    MergedNames(all, files, indices, c);
    var name := files[i].name;
    assert Shows(all, files, c, i);
    FirstIsAt(all, name);
    if First(all, name).entry.Catalog? {
      ShownDecodes(all, name, c);
      MergedExactlyWhenReadable(all, name, c);
    }
  }

  /** A link id that starts like a packed list is never read back, so a directory of that share is not merged. */
  lemma PrefixedLinkIsNotMerged(
    password: ByteString, nodeID: ByteString, name: string, modified: int, more: seq<Seen>, c: Codec)
    requires Faithful(c) && forall i :: 0 <= i < |more| ==> c.clean(more[i].ref)
    requires c.clean(ShareRef(PREFIX + "x", password, nodeID))
    ensures var row := Seen(ShareRef(PREFIX + "x", password, nodeID), Catalog(nodeID, name, modified));
      var all := [row] + more;
      Mentions(all, name) && DecodeRefs(Shown(all, name, c).id, c).None? && !AllReadable(all, name)
  {
    var row := Seen(ShareRef(PREFIX + "x", password, nodeID), Catalog(nodeID, name, modified));
    var all := [row] + more;
    assert all[0] == row && Mentions(all, name) && FirstAt(all, name) == 0;
    FirstIsAt(all, name);
    assert PREFIX <= PREFIX + "x";
    forall i | 0 <= i < |all| ensures c.clean(all[i].ref) {
      assert i > 0 ==> all[i] == more[i - 1];
    }
    ShownDecodes(all, name, c);
  }
}
