/**
 Merging a freshly generated language file into the one on disk: new keys are added at every depth,
 existing values stay.
 */
module JsonMerge {
  datatype Json = Leaf(text: string) | Object(fields: map<string, Json>)

  /** The specification: what a key holds afterwards, given what both sides held. */
  ghost function Merge(source: Json, target: Json): (r: Json)
    ensures source.Leaf? || target.Leaf? ==> r == target
    ensures source.Object? && target.Object? ==> r.Object? && r.fields.Keys == source.fields.Keys + target.fields.Keys
    decreases source
  {
    if source.Leaf? || target.Leaf? then target
    else
      Object(map k | k in source.fields.Keys + target.fields.Keys ::
        if k !in target.fields then source.fields[k]
        else if k !in source.fields then target.fields[k]
        else Merge(source.fields[k], target.fields[k]))
  }

  // ---------------------------------------------------------------- maps that refer to one another

  datatype Value = Scalar(text: string) | Nested(dict: Dict)

  class Dict {
    var entries: map<string, Value>
  }

  /** A nested structure with the dictionary that stands at each place. */
  datatype Tree = Text(text: string) | Sub(self: Dict, kids: map<string, Tree>)

  ghost function Nodes(t: Tree): (r: set<Tree>)
    ensures t.Sub? ==> t in r && forall k :: k in t.kids ==> Nodes(t.kids[k]) <= r
    ensures forall n :: n in r ==> n.Sub?
  {
    if t.Text? then {} else {t} + set k, n | k in t.kids && n in Nodes(t.kids[k]) :: n
  }

  ghost function Foot(t: Tree): set<Dict> {
    set n | n in Nodes(t) :: n.self
  }

  /** No dictionary stands at two places, as in anything decoded from a file. */
  ghost predicate Distinct(t: Tree) {
    t.Text? || (
      && (forall k :: k in t.kids ==> Distinct(t.kids[k]) && t.self !in Foot(t.kids[k]))
      && (forall k, m :: k in t.kids && m in t.kids && k != m ==> Foot(t.kids[k]) !! Foot(t.kids[m])))
  }

  function Image(t: Tree): Value {
    if t.Text? then Scalar(t.text) else Nested(t.self)
  }

  function Entries(t: Tree): map<string, Value>
    requires t.Sub?
  {
    map k | k in t.kids :: Image(t.kids[k])
  }

  /** The dictionaries hold what the structure says. */
  ghost predicate Written(t: Tree)
    reads Foot(t)
  {
    forall n :: n in Nodes(t) ==> n.self.entries == Entries(n)
  }

  ghost function ToJson(t: Tree): Json {
    if t.Text? then Leaf(t.text) else Object(map k | k in t.kids :: ToJson(t.kids[k]))
  }

  /** Where the dictionaries stand afterwards: those of the target stay, and a new key shares the source's. */
  ghost function MergeTree(source: Tree, target: Tree): (r: Tree)
    ensures Image(r) == Image(target)
    decreases source
  {
    if source.Text? || target.Text? then target
    else
      Sub(target.self, map k | k in source.kids.Keys + target.kids.Keys ::
        if k !in target.kids then source.kids[k]
        else if k !in source.kids then target.kids[k]
        else MergeTree(source.kids[k], target.kids[k]))
  }

  lemma {:induction false} MergeTreeIsMerge(source: Tree, target: Tree)
    ensures ToJson(MergeTree(source, target)) == Merge(ToJson(source), ToJson(target))
    ensures MergeTree(source, target) == target <==> Merge(ToJson(source), ToJson(target)) == ToJson(target)
    decreases source
  {
    if source.Sub? && target.Sub? {
      var r, j := MergeTree(source, target), Merge(ToJson(source), ToJson(target));
      forall k | k in r.kids
        ensures ToJson(r.kids[k]) == j.fields[k]
        ensures k in target.kids ==> (r.kids[k] == target.kids[k] <==> j.fields[k] == ToJson(target.kids[k]))
      {
        if k in source.kids && k in target.kids {
          MergeTreeIsMerge(source.kids[k], target.kids[k]);
        }
      }
      assert ToJson(r).fields == j.fields;
      if j == ToJson(target) {
        assert r.kids.Keys == j.fields.Keys == target.kids.Keys;
        assert r.kids == target.kids;
      }
    }
  }

  lemma {:induction false} MergeFoot(source: Tree, target: Tree)
    ensures Foot(MergeTree(source, target)) <= Foot(source) + Foot(target)
    decreases source
  {
    if source.Sub? && target.Sub? {
      var r := MergeTree(source, target);
      forall d | d in Foot(r) ensures d in Foot(source) + Foot(target) {
        var n :| n in Nodes(r) && n.self == d;
        if n == r {
          assert target in Nodes(target);
        } else {
          var k :| k in r.kids && n in Nodes(r.kids[k]);
          assert d in Foot(r.kids[k]);
          if k in source.kids && k in target.kids {
            MergeFoot(source.kids[k], target.kids[k]);
          }
          assert k in source.kids ==> Foot(source.kids[k]) <= Foot(source);
          assert k in target.kids ==> Foot(target.kids[k]) <= Foot(target);
        }
      }
    }
  }

  /** The merge of the keys in `keys` only. */
  ghost function MergeOn(source: Tree, target: Tree, keys: set<string>): Tree
    requires source.Sub? && target.Sub? && keys <= source.kids.Keys
  {
    MergeTree(Sub(source.self, map k | k in keys :: source.kids[k]), target)
  }

  lemma {:induction false} NoKeyAndEveryKey(source: Tree, target: Tree)
    requires source.Sub? && target.Sub?
    ensures MergeOn(source, target, {}) == target
    ensures MergeOn(source, target, source.kids.Keys) == MergeTree(source, target)
  {
    assert MergeOn(source, target, {}).kids == target.kids;
    assert source.kids == map k | k in source.kids.Keys :: source.kids[k];
  }

  lemma OneMoreKey(source: Tree, target: Tree, keys: set<string>, k: string)
    requires source.Sub? && target.Sub? && keys <= source.kids.Keys
    requires k in source.kids && k !in keys
    ensures var before := MergeOn(source, target, keys).kids;
      && (k in before <==> k in target.kids) && (k in before ==> before[k] == target.kids[k])
      && MergeOn(source, target, keys + {k}).kids ==
           before[k := if k in target.kids then MergeTree(source.kids[k], target.kids[k]) else source.kids[k]]
  {
  }

  /** A structure is written exactly when its own dictionary and all its parts are. */
  lemma WrittenParts(t: Tree)
    requires t.Sub?
    ensures Written(t) <==> t.self.entries == Entries(t) && forall k :: k in t.kids ==> Written(t.kids[k])
  {
    if Written(t) {
      forall k | k in t.kids ensures Written(t.kids[k]) {
        assert Nodes(t.kids[k]) <= Nodes(t);
      }
    }
    if t.self.entries == Entries(t) && forall k :: k in t.kids ==> Written(t.kids[k]) {
      forall n | n in Nodes(t) ensures n.self.entries == Entries(n) {
        if n != t {
          var k :| k in t.kids && n in Nodes(t.kids[k]);
          assert Written(t.kids[k]);
        }
      }
    }
  }

  /** A structure's own dictionary is in none of its kids, and the kid under `k` shares nothing with the others. */
  ghost predicate KeyApart(t: Tree, k: string)
    requires t.Sub?
  {
    && (forall m :: m in t.kids ==> t.self !in Foot(t.kids[m]))
    && (k in t.kids ==> forall m :: m in t.kids && m != k ==> Foot(t.kids[m]) !! Foot(t.kids[k]))
  }

  /** What holds when the loop comes to the key `k`: `cur` is the structure so far, `next` what the key makes of it. */
  ghost predicate AtKey(source: Tree, target: Tree, cur: Tree, next: Tree, k: string) {
    && source.Sub? && target.Sub? && cur.Sub? && next.Sub? && k in source.kids
    && cur.self == target.self == next.self && KeyApart(cur, k)
    && next.kids == cur.kids[k := if k in cur.kids then MergeTree(source.kids[k], cur.kids[k]) else source.kids[k]]
    && target.self in Foot(target) && target.self !in Foot(source.kids[k])
    && (k in cur.kids ==> Distinct(cur.kids[k]) && Foot(cur.kids[k]) <= Foot(target))
    && (k in cur.kids ==> Foot(source.kids[k]) !! Foot(cur.kids[k]))
  }

  lemma NextIsTarget(source: Tree, target: Tree, keys: set<string>, k: string)
    requires source.Sub? && target.Sub? && keys <= source.kids.Keys && k in source.kids && k !in keys
    ensures var cur, next := MergeOn(source, target, keys), MergeOn(source, target, keys + {k});
      next == target <==> cur == target && next == cur
  {
    var cur, next := MergeOn(source, target, keys), MergeOn(source, target, keys + {k});
    OneMoreKey(source, target, keys, k);
    if next == target {
      assert k in next.kids && k in target.kids && cur.kids[k] == next.kids[k];
      assert cur.kids == next.kids;
    }
  }

  lemma {:induction false} KeyStep(source: Tree, target: Tree, keys: set<string>, k: string)
    requires source.Sub? && target.Sub? && keys <= source.kids.Keys && k in source.kids && k !in keys
    requires Distinct(target) && Foot(source) !! Foot(target)
    ensures var cur, next := MergeOn(source, target, keys), MergeOn(source, target, keys + {k});
      AtKey(source, target, cur, next, k) && (next == target <==> cur == target && next == cur)
  {
    var cur := MergeOn(source, target, keys);
    NextIsTarget(source, target, keys, k);
    assert target in Nodes(target) && target.self in Foot(target);
    OneMoreKey(source, target, keys, k);
    assert Foot(source.kids[k]) <= Foot(source);
    assert k in target.kids ==> Foot(target.kids[k]) <= Foot(target);
    forall m | m in cur.kids
      ensures target.self !in Foot(cur.kids[m])
      ensures m != k && k in cur.kids ==> Foot(cur.kids[m]) !! Foot(cur.kids[k])
    {
      if m in keys {
        assert Foot(source.kids[m]) <= Foot(source);
        if m in target.kids {
          MergeFoot(source.kids[m], target.kids[m]);
        }
      }
    }
  }

  lemma KeyOutcome(source: Tree, target: Tree, cur: Tree, next: Tree, k: string)
    requires AtKey(source, target, cur, next, k)
    ensures next == cur <==> k in cur.kids && MergeTree(source.kids[k], cur.kids[k]) == cur.kids[k]
    ensures Entries(next) == if k in cur.kids then Entries(cur) else Entries(cur)[k := Image(source.kids[k])]
  {
    assert k in cur.kids ==> Image(next.kids[k]) == Image(cur.kids[k]);
    if k in cur.kids && MergeTree(source.kids[k], cur.kids[k]) == cur.kids[k] {
      assert next.kids == cur.kids;
    }
  }

  /**
   The recursive merge into `target`, for a source that shares nothing with it. The keys are walked in an
   arbitrary order, and the outcome does not depend on it; the report is whether the target was left as it was.
   */
  method MergeJson(source: Dict, target: Dict, ghost s: Tree, ghost t: Tree) returns (equal: bool)
    requires s.Sub? && s.self == source && Written(s)
    requires t.Sub? && t.self == target && Written(t) && Distinct(t) && Foot(s) !! Foot(t)
    modifies Foot(t)
    ensures Written(s) && Written(MergeTree(s, t))
    ensures equal <==> MergeTree(s, t) == t
    decreases s, 1
  {
    WrittenParts(s);
    NoKeyAndEveryKey(s, t);
    equal := MergeKeys(source, target, source.entries.Keys, s, t);
  }

  /** The loop over the keys. */
  method MergeKeys(source: Dict, target: Dict, all: set<string>, ghost s: Tree, ghost t: Tree) returns (equal: bool)
    requires s.Sub? && s.self == source && Written(s) && all == s.kids.Keys
    requires t.Sub? && t.self == target && Distinct(t) && Foot(s) !! Foot(t) && Written(MergeOn(s, t, {}))
    requires MergeOn(s, t, {}) == t
    modifies Foot(t)
    ensures Written(s) && Written(MergeOn(s, t, all))
    ensures equal <==> MergeOn(s, t, all) == t
    decreases s, 0
  {
    equal := true;
    var keys := all;
    ghost var done: set<string> := {};
    while keys != {}
      invariant keys !! done && done <= all
      invariant keys + done == all
      invariant Written(s) && Written(MergeOn(s, t, done))
      invariant equal <==> MergeOn(s, t, done) == t
      decreases keys
    {
      var k :| k in keys;
      MoveKey(keys, done, k);
      var same := MergeOne(source, target, k, s, t, done);
      equal, keys := same && equal, keys - {k};
      done := done + {k};
    }
  }

  lemma MoveKey(keys: set<string>, done: set<string>, k: string)
    requires k in keys && keys !! done
    ensures (keys - {k}) !! (done + {k}) && keys - {k} + (done + {k}) == keys + done && k !in done
  {
  }

  /** One more key of the source. */
  method MergeOne(source: Dict, target: Dict, k: string, ghost s: Tree, ghost t: Tree, ghost done: set<string>)
    returns (same: bool)
    requires s.Sub? && s.self == source && Written(s) && done <= s.kids.Keys && k in s.kids && k !in done
    requires t.Sub? && t.self == target && Distinct(t) && Foot(s) !! Foot(t) && Written(MergeOn(s, t, done))
    modifies Foot(t)
    ensures Written(s) && Written(MergeOn(s, t, done + {k}))
    ensures same && MergeOn(s, t, done) == t <==> MergeOn(s, t, done + {k}) == t
    decreases s.kids[k], 3
  {
    KeyStep(s, t, done, k);
    assert allocated(Foot(s));
    same := MergeKey(source, target, k, s, t, MergeOn(s, t, done), MergeOn(s, t, done + {k}));
  }

  /** The body of the loop: what the key `k` of the source does to the target. */
  method MergeKey(
    source: Dict, target: Dict, k: string, ghost s: Tree, ghost t: Tree, ghost cur: Tree, ghost next: Tree)
    returns (same: bool)
    requires AtKey(s, t, cur, next, k) && source == s.self && target == t.self
    requires Written(s) && Written(cur)
    modifies Foot(t)
    ensures Written(next)
    ensures same <==> next == cur
    decreases s.kids[k], 2
  {
    WrittenParts(s);
    WrittenParts(cur);
    KeyOutcome(s, t, cur, next, k);
    assert forall m :: m in cur.kids ==> allocated(Foot(cur.kids[m]));
    same := true;
    var v := source.entries[k];
    if k !in target.entries {
      same := false;
      target.entries := target.entries[k := v];
    } else {
      var w := target.entries[k];
      if v.Nested? && w.Nested? {
        same := MergeJson(v.dict, w.dict, s.kids[k], cur.kids[k]);
      }
    }
    forall m | m in next.kids ensures Written(next.kids[m]) {
      if m != k {
        assert Foot(cur.kids[m]) !! (if k in cur.kids then Foot(cur.kids[k]) else {});
      }
    }
    WrittenParts(next);
  }

  // ---------------------------------------------------------------- key paths

  type Path = seq<string>

  ghost predicate Has(j: Json, p: Path) {
    p == [] || (j.Object? && p[0] in j.fields && Has(j.fields[p[0]], p[1..]))
  }

  ghost function Find(j: Json, p: Path): Json
    requires Has(j, p)
  {
    if p == [] then j else Find(j.fields[p[0]], p[1..])
  }

  /** A value that is not a map lies on the way to `p`. */
  ghost predicate Blocked(j: Json, p: Path) {
    p != [] && (j.Leaf? || (p[0] in j.fields && Blocked(j.fields[p[0]], p[1..])))
  }

  /** Which paths the merge has, and what it holds at each. */
  lemma {:induction false} MergePaths(source: Json, target: Json, p: Path)
    ensures var r := Merge(source, target);
      && (Has(r, p) <==> Has(target, p) || (Has(source, p) && !Blocked(target, p)))
      && (Has(target, p) && Find(target, p).Leaf? ==> Find(r, p) == Find(target, p))
      && (Has(target, p) && Find(target, p).Object? ==> Find(r, p).Object?)
      && (Has(source, p) && !Has(target, p) && !Blocked(target, p) ==> Find(r, p) == Find(source, p))
    decreases p
  {
    if p != [] && source.Object? && target.Object? {
      var k := p[0];
      if k in source.fields && k in target.fields {
        MergePaths(source.fields[k], target.fields[k], p[1..]);
      }
    }
  }

  /** Every source path that no value of the target is in the way of is in the target. */
  ghost predicate Covered(source: Json, target: Json) {
    forall p :: Has(source, p) && !Blocked(target, p) ==> Has(target, p)
  }

  /** The merge leaves the target alone exactly when the target has every path it may be given. */
  lemma {:induction false} UnchangedExactlyWhenCovered(source: Json, target: Json)
    ensures Merge(source, target) == target <==>
      Covered(source, target)
  {
    if Merge(source, target) == target {
      forall p | Has(source, p) && !Blocked(target, p) ensures Has(target, p) {
        MergePaths(source, target, p);
      }
    }
    if Covered(source, target) {
      CoveredIsUnchanged(source, target);
    }
  }

  lemma {:induction false} TopKey(j: Json, k: string)
    requires j.Object?
    ensures !Blocked(j, [k]) && (Has(j, [k]) <==> k in j.fields)
  {
    var q: Path := [k];
    assert q[0] == k && q[1..] == [];
    if k in j.fields {
      assert !Blocked(j.fields[k], q[1..]);
    }
  }

  lemma {:induction false} CoveredIsUnchanged(source: Json, target: Json)
    requires Covered(source, target)
    ensures Merge(source, target) == target
    decreases source
  {
    if source.Object? && target.Object? {
      forall k | k in source.fields
        ensures k in target.fields && Merge(source.fields[k], target.fields[k]) == target.fields[k]
      {
        TopKey(source, k);
        TopKey(target, k);
        forall p | Has(source.fields[k], p) && !Blocked(target.fields[k], p) ensures Has(target.fields[k], p) {
          assert ([k] + p)[0] == k && ([k] + p)[1..] == p;
          assert Has(source, [k] + p) && !Blocked(target, [k] + p);
        }
        CoveredIsUnchanged(source.fields[k], target.fields[k]);
      }
      assert Merge(source, target).fields == target.fields;
    }
  }

  /** Merging the same source again changes nothing. */
  lemma {:induction false} MergeIsIdempotent(source: Json, target: Json)
    ensures Merge(source, Merge(source, target)) == Merge(source, target)
  {
    var r := Merge(source, target);
    forall p | Has(source, p) && !Blocked(r, p) ensures Has(r, p) {
      MergePaths(source, target, p);
      if Blocked(target, p) {
        StillBlocked(source, target, p);
      }
    }
    CoveredIsUnchanged(source, r);
  }

  lemma {:induction false} StillBlocked(source: Json, target: Json, p: Path)
    requires Blocked(target, p)
    ensures Blocked(Merge(source, target), p)
    decreases p
  {
    if target.Object? && source.Object? && p[0] in source.fields {
      StillBlocked(source.fields[p[0]], target.fields[p[0]], p[1..]);
    }
  }
}
