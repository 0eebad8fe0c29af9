/** The query and update primitives of a document collection, over a
    collection held as a sequence in natural (insertion) order: `findOne`,
    `find`, `deleteOne`, `updateOne`, and `sort` on a timestamp, newest
    first. A filter is a predicate on documents. */
module Collections {
  import opened Wrappers

  /** The position of the first document that matches, or -1. */
  function FirstIndex<T>(t: seq<T>, p: T -> bool): (i: int)
    ensures -1 <= i < |t|
    ensures i == -1 <==> forall j | 0 <= j < |t| :: !p(t[j])
    ensures i >= 0 ==> p(t[i]) && forall j | 0 <= j < i :: !p(t[j])
  {
    if |t| == 0 then -1
    else if p(t[0]) then 0
    else
      var k := FirstIndex(t[1..], p);
      if k == -1 then -1 else k + 1
  }

  /** `findOne(filter)` */
  function FindOne<T>(t: seq<T>, p: T -> bool): (r: Option<T>)
    ensures r.Some? ==> r.value in t && p(r.value)
    ensures r.None? <==> forall j | 0 <= j < |t| :: !p(t[j])
  {
    var i := FirstIndex(t, p);
    if i < 0 then None else Some(t[i])
  }

  /** `find(filter)`, in natural order. */
  function Find<T>(t: seq<T>, p: T -> bool): (r: seq<T>)
    ensures forall x | x in r :: x in t && p(x)
    ensures forall j | 0 <= j < |t| && p(t[j]) :: t[j] in r
  {
    if |t| == 0 then []
    else if p(t[0]) then [t[0]] + Find(t[1..], p)
    else Find(t[1..], p)
  }

  /** `find` keeps every matching document as often as it occurs and
      nothing else. */
  lemma {:induction false} FindCounts<T>(t: seq<T>, p: T -> bool, x: T)
    ensures multiset(Find(t, p))[x] == if p(x) then multiset(t)[x] else 0
  {
    if |t| > 0 {
      FindCounts(t[1..], p, x);
      assert t == [t[0]] + t[1..];
    }
  }

  /** `deleteOne(filter)`: the first matching document is removed. */
  function DeleteOne<T>(t: seq<T>, p: T -> bool): (r: seq<T>)
    ensures FirstIndex(t, p) == -1 ==> r == t
    ensures FirstIndex(t, p) >= 0 ==> multiset(r) + multiset{t[FirstIndex(t, p)]} == multiset(t)
  {
    var i := FirstIndex(t, p);
    if i < 0 then t
    else
      assert t == t[..i] + [t[i]] + t[i + 1..];
      t[..i] + t[i + 1..]
  }

  /** `updateOne(filter, update)`: the first matching document is rewritten. */
  function UpdateOne<T>(t: seq<T>, p: T -> bool, f: T -> T): (r: seq<T>)
    ensures |r| == |t|
  {
    var i := FirstIndex(t, p);
    if i < 0 then t else t[i := f(t[i])]
  }

  /** Only the first matching document changes, and it becomes `f` of what
      it was. */
  lemma UpdateOneEffect<T>(t: seq<T>, p: T -> bool, f: T -> T)
    ensures forall k | 0 <= k < |t| && k != FirstIndex(t, p) :: UpdateOne(t, p, f)[k] == t[k]
    ensures FirstIndex(t, p) >= 0 ==> UpdateOne(t, p, f)[FirstIndex(t, p)] == f(t[FirstIndex(t, p)])
  {
  }

  /** Sorted on a timestamp, newest first. */
  predicate NewestFirst<T>(s: seq<T>, createdAt: T -> nat) {
    forall i, j | 0 <= i < j < |s| :: createdAt(s[i]) >= createdAt(s[j])
  }

  function InsertNewestFirst<T>(x: T, s: seq<T>, createdAt: T -> nat): (r: seq<T>)
    requires NewestFirst(s, createdAt)
    ensures multiset(r) == multiset(s) + multiset{x}
    ensures NewestFirst(r, createdAt)
  {
    if |s| == 0 then [x]
    else if createdAt(x) >= createdAt(s[0]) then
      assert forall k | 0 <= k < |s| :: createdAt(x) >= createdAt(s[k]) by {
        forall k | 0 <= k < |s| ensures createdAt(x) >= createdAt(s[k]) {
          if k > 0 {
            assert createdAt(s[0]) >= createdAt(s[k]);
          }
        }
      }
      NewestFirstCons(x, s, createdAt);
      [x] + s
    else
      var rest := InsertNewestFirst(x, s[1..], createdAt);
      assert s == [s[0]] + s[1..];
      assert forall k | 0 <= k < |rest| :: createdAt(s[0]) >= createdAt(rest[k]) by {
        forall k | 0 <= k < |rest|
          ensures createdAt(s[0]) >= createdAt(rest[k])
        {
          assert rest[k] in multiset(rest);
          if rest[k] != x {
            HeadIsNewest(s, createdAt, rest[k]);
          }
        }
      }
      NewestFirstCons(s[0], rest, createdAt);
      [s[0]] + rest
  }

  /** A document at least as new as every member of a newest-first list can
      go in front of it. */
  lemma NewestFirstCons<T>(h: T, s: seq<T>, createdAt: T -> nat)
    requires NewestFirst(s, createdAt)
    requires forall k | 0 <= k < |s| :: createdAt(h) >= createdAt(s[k])
    ensures NewestFirst([h] + s, createdAt)
  {
    forall i, j | 0 <= i < j < |[h] + s|
      ensures createdAt(([h] + s)[i]) >= createdAt(([h] + s)[j])
    {
      assert ([h] + s)[j] == s[j - 1];
      if i > 0 {
        assert ([h] + s)[i] == s[i - 1];
      }
    }
  }

  /** The head of a newest-first list is at least as new as the rest. */
  lemma HeadIsNewest<T>(s: seq<T>, createdAt: T -> nat, y: T)
    requires NewestFirst(s, createdAt) && |s| > 0 && y in multiset(s[1..])
    ensures createdAt(s[0]) >= createdAt(y)
  {
    var j :| 0 <= j < |s[1..]| && s[1..][j] == y;
    assert s[j + 1] == y;
  }

  /** `sort({ createdAt: -1 })`: a permutation of the documents, newest
      first. Documents with equal timestamps may come in any order; this one
      puts the earlier-inserted first. */
  function SortNewestFirst<T>(s: seq<T>, createdAt: T -> nat): (r: seq<T>)
    ensures multiset(r) == multiset(s)
    ensures NewestFirst(r, createdAt)
  {
    if |s| == 0 then []
    else
      assert s == [s[0]] + s[1..];
      InsertNewestFirst(s[0], SortNewestFirst(s[1..], createdAt), createdAt)
  }
}
