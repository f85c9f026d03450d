/** The two list operations the program applies to its row lists: keeping the
    elements that pass a test (a comprehension with an `if`, or a loop that
    appends only some elements) and removing the first element that matches
    (`list.pop(i)` after a search, or Qt's `removeWidget`). */
module Seqs {

  lemma AppendAssoc<T>(a: seq<T>, b: seq<T>, c: seq<T>)
    ensures a + b + c == a + (b + c)
  {
  }

  /** The elements of `s` that satisfy `p`, in their original order. */
  function Filter<T>(s: seq<T>, p: T -> bool): (r: seq<T>)
    ensures |r| <= |s|
  {
    if s == [] then [] else (if p(s[0]) then [s[0]] else []) + Filter(s[1..], p)
  }

  lemma {:induction false} FilterMembers<T>(s: seq<T>, p: T -> bool)
    ensures forall x :: x in Filter(s, p) <==> x in s && p(x)
  {
    if s != [] {
      FilterMembers(s[1..], p);
      assert s == [s[0]] + s[1..];
    }
  }

  lemma {:induction false} FilterAppend<T>(a: seq<T>, b: seq<T>, p: T -> bool)
    ensures Filter(a + b, p) == Filter(a, p) + Filter(b, p)
  {
    if a == [] {
      assert a + b == b;
    } else {
      var h := if p(a[0]) then [a[0]] else [];
      assert (a + b)[0] == a[0];
      assert (a + b)[1..] == a[1..] + b;
      calc {
        Filter(a + b, p);
        h + Filter(a[1..] + b, p);
        { FilterAppend(a[1..], b, p); }
        h + (Filter(a[1..], p) + Filter(b, p));
        (h + Filter(a[1..], p)) + Filter(b, p);
      }
    }
  }

  /** Filtering one more element appends it exactly when it passes: this is the
      step of a loop that appends the passing elements. */
  lemma FilterSnoc<T>(s: seq<T>, i: nat, p: T -> bool)
    requires i < |s|
    ensures Filter(s[..i + 1], p) == Filter(s[..i], p) + (if p(s[i]) then [s[i]] else [])
  {
    assert s[..i + 1] == s[..i] + [s[i]];
    FilterAppend(s[..i], [s[i]], p);
  }

  /** A filter keeps everything exactly when everything passes. */
  lemma {:induction false} FilterAll<T>(s: seq<T>, p: T -> bool)
    ensures Filter(s, p) == s <==> forall i :: 0 <= i < |s| ==> p(s[i])
  {
    if s != [] {
      FilterAll(s[1..], p);
      if !p(s[0]) {
        assert |Filter(s, p)| < |s|;
      }
      assert forall i :: 1 <= i < |s| ==> s[i] == s[1..][i - 1];
    }
  }

  /** `s` without its first element satisfying `p`; `s` itself when none does. */
  function RemoveFirst<T>(s: seq<T>, p: T -> bool): seq<T> {
    if s == [] then [] else if p(s[0]) then s[1..] else [s[0]] + RemoveFirst(s[1..], p)
  }

  /** With `i` the first index satisfying `p`, removal drops exactly element `i`
      and keeps the others in order. */
  lemma {:induction false} RemoveFirstAt<T>(s: seq<T>, p: T -> bool, i: nat)
    requires i < |s| && p(s[i])
    requires forall k :: 0 <= k < i ==> !p(s[k])
    ensures RemoveFirst(s, p) == s[..i] + s[i + 1..]
    ensures |RemoveFirst(s, p)| == |s| - 1
  {
    if i > 0 {
      RemoveFirstAt(s[1..], p, i - 1);
      assert s[1..][..i - 1] == s[1..i];
      assert s[..i] == [s[0]] + s[1..i];
    }
  }

  /** Nothing matches: nothing is removed. */
  lemma {:induction false} RemoveFirstNone<T>(s: seq<T>, p: T -> bool)
    requires forall k :: 0 <= k < |s| ==> !p(s[k])
    ensures RemoveFirst(s, p) == s
  {
    if s != [] {
      RemoveFirstNone(s[1..], p);
    }
  }
}
