/** Review findings, and the normaliser `_ordered_findings` of app/workers/review_worker.py:
    deduplication through a dict keyed by id, a stable sort by (path, line, ruleId), truncation. */
module Findings {
  import opened Sorting

  datatype Severity = Critical | High | Medium | Low
  datatype Category = Security | Correctness | Performance | Style

  datatype Finding = Finding(
    id: string,
    ruleId: string,
    path: string,
    line: int,
    severity: Severity,
    category: Category,
    title: string,
    evidence: string)

  // ---- The order on keys -------------------------------------------------------------------

  /** Python's order on `str`: lexicographic by code point. */
  predicate StrLe(a: string, b: string) {
    if a == "" then true
    else if b == "" then false
    else if a[0] != b[0] then a[0] < b[0]
    else StrLe(a[1..], b[1..])
  }

  predicate FindingLe(a: Finding, b: Finding) {
    if a.path != b.path then StrLe(a.path, b.path)
    else if a.line != b.line then a.line < b.line
    else StrLe(a.ruleId, b.ruleId)
  }

  /** `a` and `b` agree up to position `k`, where `a` ends or has the smaller character. */
  ghost predicate DifferAt(a: string, b: string, k: int) {
    && 0 <= k <= |a| && k < |b| && (forall i :: 0 <= i < k ==> a[i] == b[i])
    && (k == |a| || a[k] < b[k])
  }

  /** `a` comes before `b` in the order of code points. */
  ghost predicate Earlier(a: string, b: string) {
    exists k :: DifferAt(a, b, k)
  }

  lemma {:induction false} StrLeIff(a: string, b: string)
    ensures StrLe(a, b) <==> a == b || Earlier(a, b)
  {
    if a == "" {
      assert b != "" ==> DifferAt(a, b, 0);
    } else if b != "" {
      if a[0] == b[0] {
        StrLeIff(a[1..], b[1..]);
        assert a == [a[0]] + a[1..] && b == [b[0]] + b[1..];
        if k :| DifferAt(a[1..], b[1..], k) {
          assert DifferAt(a, b, k + 1);
        }
        if k :| DifferAt(a, b, k) {
          assert DifferAt(a[1..], b[1..], k - 1);
        }
      } else if a[0] < b[0] {
        assert DifferAt(a, b, 0);
      }
    }
  }

  /** The sort key is the path, then the line, then the rule id, strings by code points. */
  lemma KeyOrder(a: Finding, b: Finding)
    ensures FindingLe(a, b) <==>
            || Earlier(a.path, b.path)
            || (a.path == b.path && a.line < b.line)
            || (a.path == b.path && a.line == b.line && (a.ruleId == b.ruleId || Earlier(a.ruleId, b.ruleId)))
  {
    StrLeIff(a.path, b.path);
    StrLeIff(a.ruleId, b.ruleId);
    assert !Earlier(a.path, a.path);
    hide StrLe, Earlier;
  }

  lemma {:induction false} StrLeTotal(a: string, b: string)
    ensures StrLe(a, b) || StrLe(b, a)
    ensures StrLe(a, b) && StrLe(b, a) ==> a == b
  {
    if a != "" && b != "" && a[0] == b[0] {
      StrLeTotal(a[1..], b[1..]);
      assert a == [a[0]] + a[1..] && b == [b[0]] + b[1..];
    }
  }

  lemma {:induction false} StrLeTransitive(a: string, b: string, c: string)
    requires StrLe(a, b) && StrLe(b, c)
    ensures StrLe(a, c)
  {
    if a != "" && a[0] == b[0] && b[0] == c[0] {
      StrLeTransitive(a[1..], b[1..], c[1..]);
    }
  }

  lemma FindingLeTransitive(a: Finding, b: Finding, c: Finding)
    requires FindingLe(a, b) && FindingLe(b, c)
    ensures FindingLe(a, c)
  {
    if a.path != b.path && b.path != c.path {
      StrLeTransitive(a.path, b.path, c.path);
      StrLeTotal(a.path, b.path);
    } else if a.path == b.path == c.path && a.line == b.line == c.line {
      StrLeTransitive(a.ruleId, b.ruleId, c.ruleId);
    }
  }

  /** The sort key is a total preorder, and findings that compare equal share path, line and rule. */
  lemma FindingOrder()
    ensures TotalPreorder(FindingLe)
    ensures forall a, b :: (FindingLe(a, b) && FindingLe(b, a)) ==>
              a.path == b.path && a.line == b.line && a.ruleId == b.ruleId
  {
    forall a, b
      ensures FindingLe(a, b) || FindingLe(b, a)
      ensures FindingLe(a, b) && FindingLe(b, a) ==>
                a.path == b.path && a.line == b.line && a.ruleId == b.ruleId
    {
      StrLeTotal(a.path, b.path);
      StrLeTotal(a.ruleId, b.ruleId);
    }
    forall a, b, c | FindingLe(a, b) && FindingLe(b, c) ensures FindingLe(a, c) {
      FindingLeTransitive(a, b, c);
    }
  }

  // ---- Deduplication -----------------------------------------------------------------------

  /** `d[f.id] = f` on an insertion-ordered dict, seen as the sequence of its values: an existing
      key keeps its place and takes the new value, a new key goes last. */
  function Put(d: seq<Finding>, f: Finding): seq<Finding> {
    if d == [] then [f]
    else if d[0].id == f.id then [f] + d[1..]
    else [d[0]] + Put(d[1..], f)
  }

  /** `list({f.id: f for f in fs}.values())`. */
  function Dedup(fs: seq<Finding>): seq<Finding> {
    if fs == [] then [] else Put(Dedup(fs[..|fs| - 1]), fs[|fs| - 1])
  }

  function Ordered(fs: seq<Finding>, maximum: nat): seq<Finding> {
    Take(Sort(FindingLe, Dedup(fs)), maximum)
  }

  /** The slice `xs[:n]`. */
  function Take<T>(xs: seq<T>, n: nat): seq<T> {
    if |xs| <= n then xs else xs[..n]
  }

  ghost predicate UniqueIds(fs: seq<Finding>) {
    forall i, j :: 0 <= i < j < |fs| ==> fs[i].id != fs[j].id
  }

  /** `fs[i]` is the last finding of its id. */
  ghost predicate LastOfId(fs: seq<Finding>, i: int) {
    0 <= i < |fs| && forall j :: i < j < |fs| ==> fs[j].id != fs[i].id
  }

  ghost predicate KeptBy(fs: seq<Finding>, f: Finding) {
    exists i :: LastOfId(fs, i) && fs[i] == f
  }

  /** The position at which `id` first occurs, or |fs|. */
  ghost function FirstIndex(fs: seq<Finding>, id: string): (k: nat)
    ensures k <= |fs|
    ensures k < |fs| ==> fs[k].id == id
    ensures forall i :: 0 <= i < k ==> fs[i].id != id
  {
    if fs == [] || fs[0].id == id then 0 else 1 + FirstIndex(fs[1..], id)
  }

  ghost predicate HasId(d: seq<Finding>, id: string) {
    exists i :: 0 <= i < |d| && d[i].id == id
  }

  lemma {:induction false} PutPositions(d: seq<Finding>, f: Finding)
    ensures |Put(d, f)| == if HasId(d, f.id) then |d| else |d| + 1
    ensures forall i :: 0 <= i < |d| ==> Put(d, f)[i].id == d[i].id
    ensures !HasId(d, f.id) ==> Put(d, f) == d + [f]
  {
    if d != [] {
      if d[0].id != f.id {
        PutPositions(d[1..], f);
        assert HasId(d, f.id) <==> HasId(d[1..], f.id) by {
          if i :| 0 <= i < |d| && d[i].id == f.id {
            assert d[1..][i - 1].id == f.id;
          }
          if i :| 0 <= i < |d[1..]| && d[1..][i].id == f.id {
            assert d[i + 1].id == f.id;
          }
        }
      } else {
        assert HasId(d, f.id);
      }
    }
  }

  lemma {:induction false} PutMembers(d: seq<Finding>, f: Finding, g: Finding)
    requires UniqueIds(d)
    ensures g in Put(d, f) <==> g == f || (g in d && g.id != f.id)
  {
    if d != [] {
      assert g in d <==> g == d[0] || g in d[1..];
      if d[0].id != f.id {
        PutMembers(d[1..], f, g);
      }
    }
  }

  lemma PutContents(d: seq<Finding>, f: Finding)
    requires UniqueIds(d)
    ensures UniqueIds(Put(d, f))
    ensures forall g :: g in Put(d, f) <==> g == f || (g in d && g.id != f.id)
  {
    PutPositions(d, f);
    forall g ensures g in Put(d, f) <==> g == f || (g in d && g.id != f.id) {
      PutMembers(d, f, g);
    }
  }

  /** What the dict comprehension keeps: one finding per id, the last one given; and its keys stand
      in the order of their first occurrence. */
  lemma {:induction false} DedupContents(fs: seq<Finding>)
    ensures UniqueIds(Dedup(fs))
    ensures forall f :: f in Dedup(fs) <==> KeptBy(fs, f)
    ensures forall i, j :: 0 <= i < j < |Dedup(fs)| ==>
              FirstIndex(fs, Dedup(fs)[i].id) < FirstIndex(fs, Dedup(fs)[j].id)
  {
    if fs != [] {
      var init, last := fs[..|fs| - 1], fs[|fs| - 1];
      DedupContents(init);
      PutContents(Dedup(init), last);
      PutPositions(Dedup(init), last);
      forall f ensures f in Dedup(fs) <==> KeptBy(fs, f) {
        KeptByPrefix(fs, f);
      }
      forall i, j | 0 <= i < j < |Dedup(fs)|
        ensures FirstIndex(fs, Dedup(fs)[i].id) < FirstIndex(fs, Dedup(fs)[j].id)
      {
        FirstIndexOfPrefix(fs, Dedup(fs)[i].id);
        FirstIndexOfPrefix(fs, Dedup(fs)[j].id);
        KeptIdOccurs(init, Dedup(init)[i]);
        if j < |Dedup(init)| {
          KeptIdOccurs(init, Dedup(init)[j]);
        } else {
          OccurringIdIsKept(init, last.id);
        }
      }
    }
  }

  lemma LastOfIdInPrefix(fs: seq<Finding>, i: nat)
    requires i < |fs| - 1
    ensures LastOfId(fs, i) <==> LastOfId(fs[..|fs| - 1], i) && fs[i].id != fs[|fs| - 1].id
  {
    var init := fs[..|fs| - 1];
    assert forall j :: i < j < |init| ==> init[j] == fs[j];
    if LastOfId(init, i) && fs[i].id != fs[|fs| - 1].id {
      forall j | i < j < |fs| ensures fs[j].id != fs[i].id {
        if j < |init| { assert init[j].id != init[i].id; }
      }
    }
  }

  lemma KeptByPrefix(fs: seq<Finding>, f: Finding)
    requires fs != []
    ensures KeptBy(fs, f) <==> f == fs[|fs| - 1] || (KeptBy(fs[..|fs| - 1], f) && f.id != fs[|fs| - 1].id)
  {
    var init, last := fs[..|fs| - 1], fs[|fs| - 1];
    if f == last {
      assert LastOfId(fs, |fs| - 1);
    } else {
      if KeptBy(fs, f) {
        var i :| LastOfId(fs, i) && fs[i] == f;
        LastOfIdInPrefix(fs, i);
      }
      if KeptBy(init, f) && f.id != last.id {
        var i :| LastOfId(init, i) && init[i] == f;
        LastOfIdInPrefix(fs, i);
      }
    }
  }

  lemma FirstIndexOfPrefix(fs: seq<Finding>, id: string)
    requires fs != []
    ensures var init := fs[..|fs| - 1];
            FirstIndex(fs, id) == if FirstIndex(init, id) < |init| then FirstIndex(init, id)
                                  else if fs[|fs| - 1].id == id then |fs| - 1 else |fs|
  {
    var init := fs[..|fs| - 1];
    var k := FirstIndex(init, id);
    assert forall i :: 0 <= i < |init| ==> init[i] == fs[i];
    if k < |init| {
      assert fs[k].id == id;
    }
  }

  lemma KeptIdOccurs(fs: seq<Finding>, f: Finding)
    requires KeptBy(fs, f)
    ensures FirstIndex(fs, f.id) < |fs|
  {
  }

  lemma OccurringIdIsKept(fs: seq<Finding>, id: string)
    requires forall f :: f in Dedup(fs) <==> KeptBy(fs, f)
    ensures FirstIndex(fs, id) < |fs| ==> HasId(Dedup(fs), id)
  {
    if FirstIndex(fs, id) < |fs| {
      var i := LastIndex(fs, id);
      assert KeptBy(fs, fs[i]);
      var k :| 0 <= k < |Dedup(fs)| && Dedup(fs)[k] == fs[i];
    }
  }

  lemma {:induction false} LastIndex(fs: seq<Finding>, id: string) returns (i: nat)
    requires exists k :: 0 <= k < |fs| && fs[k].id == id
    ensures LastOfId(fs, i) && fs[i].id == id
  {
    i := |fs| - 1;
    while fs[i].id != id
      invariant i < |fs|
      invariant exists k :: 0 <= k <= i && fs[k].id == id
      invariant forall j :: i < j < |fs| ==> fs[j].id != id
      decreases i
    {
      i := i - 1;
    }
  }

  lemma {:induction false} DedupOfUnique(fs: seq<Finding>)
    requires UniqueIds(fs)
    ensures Dedup(fs) == fs
  {
    if fs != [] {
      var init := fs[..|fs| - 1];
      DedupOfUnique(init);
      PutPositions(init, fs[|fs| - 1]);
    }
  }

  // ---- The normal form ---------------------------------------------------------------------

  /** What a normalised result looks like: unique ids, sorted by (path, line, ruleId). */
  ghost predicate Normal(fs: seq<Finding>) {
    UniqueIds(fs) && Sorted(FindingLe, fs)
  }

  /** The whole normalised result, before truncation: sorted, one finding per id, namely the last
      one given, ties in the order in which their ids were first given. */
  lemma NormalisedContents(fs: seq<Finding>)
    ensures Normal(Sort(FindingLe, Dedup(fs)))
    ensures forall f :: f in Sort(FindingLe, Dedup(fs)) <==> KeptBy(fs, f)
    ensures forall key :: Ties(FindingLe, key, Sort(FindingLe, Dedup(fs))) == Ties(FindingLe, key, Dedup(fs))
  {
    var d := Dedup(fs);
    FindingOrder();
    DedupContents(fs);
    SortSorted(FindingLe, d);
    SortElements(FindingLe, d);
    UniqueIdsByCount(d, Sort(FindingLe, d));
    forall key ensures Ties(FindingLe, key, Sort(FindingLe, d)) == Ties(FindingLe, key, d) {
      SortStable(FindingLe, d, key);
    }
  }

  lemma UniqueIdsByCount(d: seq<Finding>, s: seq<Finding>)
    requires UniqueIds(d) && multiset(s) == multiset(d)
    ensures UniqueIds(s)
  {
    forall i, j | 0 <= i < j < |s| ensures s[i].id != s[j].id {
      assert s[i] in multiset(d) && s[j] in multiset(d);
      if s[i].id == s[j].id {
        assert s[i] == s[j];
        assert s == s[..i] + [s[i]] + s[i + 1..j] + [s[j]] + s[j + 1..];
        assert multiset(s)[s[i]] >= 2;
        OnceEach(d, s[i]);
      }
    }
  }

  lemma {:induction false} OnceEach(d: seq<Finding>, f: Finding)
    requires UniqueIds(d)
    ensures multiset(d)[f] <= 1
  {
    if d != [] {
      OnceEach(d[1..], f);
      assert d == [d[0]] + d[1..];
      if f == d[0] {
        assert f !in d[1..];
      }
    }
  }

  /** Normalised output is in normal form and holds at most `maximum` findings. */
  lemma OrderedIsNormal(fs: seq<Finding>, maximum: nat)
    ensures Normal(Ordered(fs, maximum))
    ensures |Ordered(fs, maximum)| <= maximum
    ensures Ordered(fs, maximum) <= Sort(FindingLe, Dedup(fs))
  {
    NormalisedContents(fs);
  }

  /** Normalising something already in normal form only truncates it. */
  lemma OrderedOfNormal(fs: seq<Finding>, maximum: nat)
    requires Normal(fs)
    ensures Ordered(fs, maximum) == Take(fs, maximum)
  {
    DedupOfUnique(fs);
    SortOfSorted(FindingLe, fs);
  }

  /** The position of `g` in the result is one that was cut off. */
  ghost predicate CutOff(fs: seq<Finding>, maximum: nat, g: Finding) {
    KeptBy(fs, g) && g !in Ordered(fs, maximum)
  }

  /** Normalisation with a limit: the result is sorted and has one finding per id, the last one given; it
      is as long as the limit allows; and what is cut off comes after all that is kept. */
  lemma OrderedContents(fs: seq<Finding>, maximum: nat)
    ensures Normal(Ordered(fs, maximum)) && |Ordered(fs, maximum)| <= maximum
    ensures forall f :: f in Ordered(fs, maximum) ==> KeptBy(fs, f)
    ensures (exists g :: CutOff(fs, maximum, g)) ==> |Ordered(fs, maximum)| == maximum
    ensures forall f, g :: f in Ordered(fs, maximum) && CutOff(fs, maximum, g) ==> FindingLe(f, g)
  {
    NormalisedContents(fs);
    FindingOrder();
    hide Dedup, Sort, FindingLe, KeptBy;
    var all, kept := Sort(FindingLe, Dedup(fs)), Ordered(fs, maximum);
    forall f | f in kept ensures f in all {
    }
    forall f, g | f in kept && CutOff(fs, maximum, g) ensures FindingLe(f, g) && |kept| == maximum {
      var m :| 0 <= m < |all| && all[m] == g;
      var n :| 0 <= n < |kept| && kept[n] == f;
    }
    if g :| CutOff(fs, maximum, g) {
      var m :| 0 <= m < |all| && all[m] == g;
    }
  }

  /** `order(order(fs, M), m) == order(fs, min(M, m))`: what makes the cached full result usable. */
  lemma OrderedTwice(fs: seq<Finding>, outer: nat, inner: nat)
    ensures Ordered(Ordered(fs, inner), outer) == Ordered(fs, if inner <= outer then inner else outer)
  {
    OrderedIsNormal(fs, inner);
    OrderedOfNormal(Ordered(fs, inner), outer);
  }

  // ---- Independence of the order of the findings -------------------------------------------

  ghost predicate EqualIdsAreEqual(fs: seq<Finding>) {
    forall f, g :: f in fs && g in fs && f.id == g.id ==> f == g
  }

  ghost predicate KeysDecideIds(fs: seq<Finding>) {
    forall f, g :: f in fs && g in fs && f.path == g.path && f.line == g.line && f.ruleId == g.ruleId
      ==> f.id == g.id
  }

  lemma {:induction false} TiesOfDistinctKeys(key: Finding, s: seq<Finding>)
    requires UniqueIds(s) && KeysDecideIds(s)
    ensures Ties(FindingLe, key, s) == if exists f :: f in s && FindingLe(key, f) && FindingLe(f, key)
                                       then (var f :| f in s && FindingLe(key, f) && FindingLe(f, key); [f])
                                       else []
  {
    FindingOrder();
    forall f, g | f in s && g in s && FindingLe(key, f) && FindingLe(f, key) && FindingLe(key, g) && FindingLe(g, key)
      ensures f == g
    {
      assert f.id == g.id;
    }
    if s != [] {
      assert forall f :: f in s <==> f == s[0] || f in s[1..];
      TiesOfDistinctKeys(key, s[1..]);
      if FindingLe(key, s[0]) && FindingLe(s[0], key) {
        assert s[0] !in s[1..];
      }
    }
  }

  /** When equal ids mean equal findings, and the sort key decides the id, the normalised result
      depends only on the set of findings given. */
  lemma OrderedDependsOnSet(fs: seq<Finding>, gs: seq<Finding>, maximum: nat)
    requires forall f :: f in fs <==> f in gs
    requires EqualIdsAreEqual(fs) && KeysDecideIds(fs)
    ensures Ordered(fs, maximum) == Ordered(gs, maximum)
  {
    var a, b := Sort(FindingLe, Dedup(fs)), Sort(FindingLe, Dedup(gs));
    FindingOrder();
    NormalisedContents(fs);
    NormalisedContents(gs);
    KeptIsMember(fs);
    KeptIsMember(gs);
    assert forall f :: f in a <==> f in b;
    forall key ensures Ties(FindingLe, key, a) == Ties(FindingLe, key, b) {
      TiesOfDistinctKeys(key, a);
      TiesOfDistinctKeys(key, b);
      if f :| f in a && FindingLe(key, f) && FindingLe(f, key) {
        assert f in b;
        var x := Ties(FindingLe, key, a)[0];
        var y := Ties(FindingLe, key, b)[0];
        assert x.id == y.id;
      }
    }
    StableSortIsUnique(FindingLe, a, b);
  }

  lemma KeptIsMember(fs: seq<Finding>)
    requires EqualIdsAreEqual(fs)
    ensures forall f :: KeptBy(fs, f) <==> f in fs
  {
    forall f ensures KeptBy(fs, f) <==> f in fs {
      if f in fs {
        var k :| 0 <= k < |fs| && fs[k] == f;
        var i := LastIndex(fs, f.id);
        assert fs[i] in fs && fs[i] == f;
      }
    }
  }

  /** Without it the order does matter: of two different findings under one id, the last is kept. */
  lemma CollidingIdsExposeOrder(f: Finding, g: Finding, maximum: nat)
    requires f.id == g.id && f != g && maximum >= 1
    ensures Ordered([f, g], maximum) == [g] && Ordered([g, f], maximum) == [f]
  {
    DedupOfPair(f, g);
    DedupOfPair(g, f);
    SortOfSorted(FindingLe, [f]);
    SortOfSorted(FindingLe, [g]);
  }

  lemma DedupOfPair(f: Finding, g: Finding)
    requires f.id == g.id
    ensures Dedup([f, g]) == [g]
  {
    assert [f, g][..1] == [f] && [f][..0] == [];
    assert Dedup([f]) == [f] && [f][1..] == [];
  }
}
