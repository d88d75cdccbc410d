/** The `order: [['createdAt', 'DESC']]` clause of the repositories' list queries:
    the rows a query selects, newest first. The database's order among rows with the
    same timestamp is unspecified; this model keeps their table order. */
module Ordering {

  /** Every row is at least as new as the rows after it. */
  predicate NewestFirstOrder<T>(s: seq<T>, stamp: T -> int)
  {
    forall i, j :: 0 <= i < j < |s| ==> stamp(s[i]) >= stamp(s[j])
  }

  /** `r` placed before the first row of `s` that is not newer than it. */
  function InsertByStamp<T>(r: T, s: seq<T>, stamp: T -> int): (out: seq<T>)
    ensures |out| == |s| + 1
    ensures multiset(out) == multiset(s) + multiset{r}
  {
    if s == [] then [r]
    else if stamp(r) >= stamp(s[0]) then [r] + s
    else
      assert s == [s[0]] + s[1..];
      [s[0]] + InsertByStamp(r, s[1..], stamp)
  }

  lemma {:induction false} InsertKeepsOrder<T>(r: T, s: seq<T>, stamp: T -> int)
    requires NewestFirstOrder(s, stamp)
    ensures NewestFirstOrder(InsertByStamp(r, s, stamp), stamp)
    decreases |s|
  {
    if s != [] && stamp(r) < stamp(s[0]) {
      var rest := InsertByStamp(r, s[1..], stamp);
      InsertKeepsOrder(r, s[1..], stamp);
      HeadAboveInsert(r, s, stamp);
      PrependKeepsOrder(s[0], rest, stamp);
    }
  }

  lemma HeadAboveInsert<T>(r: T, s: seq<T>, stamp: T -> int)
    requires NewestFirstOrder(s, stamp) && s != [] && stamp(r) < stamp(s[0])
    ensures forall k :: 0 <= k < |InsertByStamp(r, s[1..], stamp)| ==>
              stamp(s[0]) >= stamp(InsertByStamp(r, s[1..], stamp)[k])
  {
    var rest := InsertByStamp(r, s[1..], stamp);
    forall k | 0 <= k < |rest|
      ensures stamp(s[0]) >= stamp(rest[k])
    {
      assert rest[k] in multiset(rest);
      if rest[k] != r {
        assert rest[k] in multiset(s[1..]);
        var m :| 0 <= m < |s[1..]| && s[1..][m] == rest[k];
        assert s[m + 1] == rest[k];
      }
    }
  }

  lemma PrependKeepsOrder<T>(x: T, rest: seq<T>, stamp: T -> int)
    requires NewestFirstOrder(rest, stamp)
    requires forall k :: 0 <= k < |rest| ==> stamp(x) >= stamp(rest[k])
    ensures NewestFirstOrder([x] + rest, stamp)
  {
    var out := [x] + rest;
    forall i, j | 0 <= i < j < |out|
      ensures stamp(out[i]) >= stamp(out[j])
    {
      assert out[j] == rest[j - 1];
      if i > 0 {
        assert out[i] == rest[i - 1];
      }
    }
  }

  /** The rows of `s`, newest first. */
  function NewestFirst<T>(s: seq<T>, stamp: T -> int): (out: seq<T>)
    ensures multiset(out) == multiset(s)
    ensures NewestFirstOrder(out, stamp)
  {
    if s == [] then []
    else
      assert s == [s[0]] + s[1..];
      var rest := NewestFirst(s[1..], stamp);
      InsertKeepsOrder(s[0], rest, stamp);
      InsertByStamp(s[0], rest, stamp)
  }

  /** Ordering neither adds nor drops rows. */
  lemma NewestFirstMembers<T>(s: seq<T>, stamp: T -> int)
    ensures |NewestFirst(s, stamp)| == |s|
    ensures forall x :: x in NewestFirst(s, stamp) <==> x in s
  {
    var out := NewestFirst(s, stamp);
    assert |out| == |multiset(out)| == |multiset(s)| == |s|;
    forall x
      ensures x in out <==> x in s
    {
      assert x in out <==> x in multiset(out);
      assert x in s <==> x in multiset(s);
    }
  }

  /** The rows of `s` that satisfy `keep`, in table order. */
  function Where<T>(s: seq<T>, keep: T -> bool): (out: seq<T>)
    ensures |out| <= |s|
    ensures forall i :: 0 <= i < |out| ==> out[i] in s && keep(out[i])
    ensures forall i :: 0 <= i < |s| && keep(s[i]) ==> s[i] in out
  {
    if s == [] then []
    else
      assert s == [s[0]] + s[1..];
      (if keep(s[0]) then [s[0]] else []) + Where(s[1..], keep)
  }

  /** The number of rows of `s` that satisfy `keep`: `COUNT(*)` with that condition. */
  function CountWhere<T>(s: seq<T>, keep: T -> bool): (n: nat)
    ensures n <= |s|
    ensures n == 0 <==> forall i :: 0 <= i < |s| ==> !keep(s[i])
  {
    if s == [] then 0
    else
      assert forall i :: 1 <= i < |s| ==> s[i] == s[1..][i - 1];
      (if keep(s[0]) then 1 else 0) + CountWhere(s[1..], keep)
  }

  /** Counting the rows is measuring the list of them. */
  lemma {:induction false} CountIsLength<T>(s: seq<T>, keep: T -> bool)
    ensures CountWhere(s, keep) == |Where(s, keep)|
  {
    if s != [] {
      CountIsLength(s[1..], keep);
    }
  }
}
