/** The few JavaScript Array operations the board's scripts rely on
    (`indexOf`, `includes` followed by `push`, `indexOf` followed by
    `splice`, and `splice(i, 1)`), stated on Dafny sequences. */
module JsArray {

  /** No element occurs twice. */
  ghost predicate NoDup<T>(s: seq<T>) {
    forall i, j :: 0 <= i < j < |s| ==> s[i] != s[j]
  }

  /** `s.indexOf(x)`: the first index holding `x`, or -1. */
  function IndexOf<T(==)>(s: seq<T>, x: T): (r: int)
    ensures -1 <= r < |s|
    ensures r == -1 <==> x !in s
    ensures 0 <= r ==> s[r] == x && x !in s[..r]
  {
    if |s| == 0 then -1
    else if s[0] == x then 0
    else
      var k := IndexOf(s[1..], x);
      assert s[1..][..if k < 0 then 0 else k] == s[1..1 + if k < 0 then 0 else k];
      if k == -1 then -1 else k + 1
  }

  /** An index holding `x` with no `x` before it is the one `IndexOf` finds. */
  lemma IndexOfIs<T>(s: seq<T>, x: T, k: nat)
    requires k < |s| && s[k] == x && x !in s[..k]
    ensures IndexOf(s, x) == k
  {
    var r := IndexOf(s, x);
    assert x in s;
    forall j | 0 <= j < k ensures s[j] != x { assert s[j] == s[..k][j]; }
    forall j | 0 <= j < r ensures s[j] != x { assert s[j] == s[..r][j]; }
  }

  /** `s.splice(i, 1)` for a non-negative index: the element at `i` is taken
      out and every later element moves down by one; an index past the end
      removes nothing. */
  function Splice<T>(s: seq<T>, i: nat): (r: seq<T>)
    ensures i < |s| ==> |r| == |s| - 1
    ensures i < |s| ==> forall j :: 0 <= j < |r| ==> r[j] == if j < i then s[j] else s[j + 1]
    ensures |s| <= i ==> r == s
  {
    if i < |s| then s[..i] + s[i + 1..] else s
  }

  /** `if (!s.includes(x)) s.push(x)`. */
  function PushIfAbsent<T(==)>(s: seq<T>, x: T): (r: seq<T>)
    ensures x in r
    ensures forall y :: y in s ==> y in r
  {
    if x in s then s else s + [x]
  }

  /** `let i = s.indexOf(x); if (i > -1) s.splice(i, 1)`. */
  function RemoveFirst<T(==)>(s: seq<T>, x: T): (r: seq<T>)
    ensures multiset(r) == multiset(s) - multiset{x}
    ensures x !in s ==> r == s
    ensures x in s ==> r == s[..IndexOf(s, x)] + s[IndexOf(s, x) + 1..]
  {
    var i := IndexOf(s, x);
    if i > -1 then
      assert s == s[..i] + [s[i]] + s[i + 1..];
      Splice(s, i)
    else s
  }

  /** Adding a name keeps a list free of duplicates, and the name is then
      held exactly once. */
  lemma PushIfAbsentOnce<T>(s: seq<T>, x: T)
    requires NoDup(s)
    ensures NoDup(PushIfAbsent(s, x))
    ensures multiset(PushIfAbsent(s, x))[x] == 1
  {
    var r := PushIfAbsent(s, x);
    if x in s {
      var k :| 0 <= k < |s| && s[k] == x;
      assert s == s[..k] + [x] + s[k + 1..];
      NoDupMissing(s[..k], x, s, k);
      NoDupMissing(s[k + 1..], x, s, k);
      assert multiset(s) == multiset(s[..k]) + multiset{x} + multiset(s[k + 1..]);
    } else {
      assert multiset(r) == multiset(s) + multiset{x};
    }
  }

  /** In a duplicate-free list, the part before or after an occurrence of
      `x` does not hold `x`. */
  lemma NoDupMissing<T>(part: seq<T>, x: T, s: seq<T>, k: nat)
    requires NoDup(s) && k < |s| && s[k] == x
    requires part == s[..k] || part == s[k + 1..]
    ensures multiset(part)[x] == 0
  {
    forall m | 0 <= m < |part| ensures part[m] != x {
      if part == s[..k] {
        assert part[m] == s[m];
      } else {
        assert part[m] == s[k + 1 + m];
      }
    }
    assert x !in part;
  }

  /** Removing the first occurrence keeps a list free of duplicates, and
      afterwards the element is gone. */
  lemma RemoveFirstNoDup<T>(s: seq<T>, x: T)
    requires NoDup(s)
    ensures NoDup(RemoveFirst(s, x))
    ensures x !in RemoveFirst(s, x)
  {
    if x in s {
      SpliceNoDup(s, IndexOf(s, x));
    }
  }

  /** Splicing one element out of a duplicate-free list keeps it free of
      duplicates, and that element is gone. */
  lemma SpliceNoDup<T>(s: seq<T>, i: nat)
    requires NoDup(s) && i < |s|
    ensures NoDup(Splice(s, i)) && s[i] !in Splice(s, i)
  {
    var r := Splice(s, i);
    forall a, b | 0 <= a < b < |r| ensures r[a] != r[b] {
      var a' := if a < i then a else a + 1;
      var b' := if b < i then b else b + 1;
      assert r[a] == s[a'] && r[b] == s[b'];
    }
    forall m | 0 <= m < |r| ensures r[m] != s[i] {
      var m' := if m < i then m else m + 1;
      assert r[m] == s[m'] && m' != i;
    }
  }

  /** Adding an absent element and then removing its first occurrence gives
      back the list unchanged, entries and order alike. */
  lemma PushThenRemove<T>(s: seq<T>, x: T)
    requires x !in s
    ensures RemoveFirst(PushIfAbsent(s, x), x) == s
  {
    var t := s + [x];
    assert t[..|s|] == s;
    assert IndexOf(t, x) == |s|;
  }

  /** A sequence is what lies before index `k`, the element there, and what
      lies after it. */
  lemma SplitAt<T>(s: seq<T>, k: nat)
    requires k < |s|
    ensures s == s[..k] + [s[k]] + s[k + 1..]
    ensures Splice(s, k) == s[..k] + s[k + 1..]
  {
    assert s[k..] == [s[k]] + s[k + 1..];
    assert s == s[..k] + s[k..];
  }

  /** In a duplicate-free list, removing the element at `j` by value is
      splicing at `j`: the list stays free of duplicates and loses it. */
  lemma RemoveFirstNoDupAt<T>(s: seq<T>, j: nat)
    requires NoDup(s) && j < |s|
    ensures RemoveFirst(s, s[j]) == s[..j] + s[j + 1..]
    ensures NoDup(s[..j] + s[j + 1..]) && s[j] !in s[..j] + s[j + 1..]
  {
    NoDupMissing(s[..j], s[j], s, j);
    IndexOfIs(s, s[j], j);
    SplitAt(s, j);
    SpliceNoDup(s, j);
  }

  /** Removing the first `x` from `p + [x] + q`, when `p` holds no `x`,
      leaves `p + q`. */
  lemma RemoveFirstAt<T>(p: seq<T>, x: T, q: seq<T>)
    requires x !in p
    ensures RemoveFirst(p + [x] + q, x) == p + q
  {
    var s := p + [x] + q;
    assert s[..|p|] == p;
    IndexOfIs(s, x, |p|);
    assert s[|p| + 1..] == q;
  }
}
