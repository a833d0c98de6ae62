/** Order-preserving filtering and first-match search over table rows. */
module Seqs {
  import opened Errors

  /** The elements of `s` that satisfy `p`, in their order (a WHERE clause over a table scan). */
  function Filter<T(!new)>(s: seq<T>, p: T -> bool): (r: seq<T>)
    ensures |r| <= |s|
    ensures forall x :: x in r <==> x in s && p(x)
  {
    if s == [] then []
    else if p(s[0]) then [s[0]] + Filter(s[1..], p)
    else Filter(s[1..], p)
  }

  /** Filtering keeps everything exactly when every element passes. */
  lemma {:induction false} FilterAll<T(!new)>(s: seq<T>, p: T -> bool)
    requires forall k :: 0 <= k < |s| ==> p(s[k])
    ensures Filter(s, p) == s
  {
    if s != [] {
      FilterAll(s[1..], p);
    }
  }

  /** The first element of `s` that satisfies `p` (what `QueryRow` scans). */
  function FindFirst<T>(s: seq<T>, p: T -> bool): (r: Option<T>)
    ensures r.None? <==> forall k :: 0 <= k < |s| ==> !p(s[k])
    ensures r.Some? ==> exists k :: 0 <= k < |s| && s[k] == r.value && p(s[k])
                                     && forall j :: 0 <= j < k ==> !p(s[j])
  {
    if s == [] then None
    else if p(s[0]) then Some(s[0])
    else
      var r := FindFirst(s[1..], p);
      assert r.Some? ==> forall k :: 0 <= k < |s[1..]| && s[1..][k] == r.value && p(s[1..][k])
                                     && (forall j :: 0 <= j < k ==> !p(s[1..][j])) ==>
                           s[k + 1] == r.value && p(s[k + 1]) && forall j :: 0 <= j < k + 1 ==> !p(s[j]);
      r
  }

  /** Appending a row that is the only match makes it the one found. */
  lemma {:induction false} FindFirstAppended<T>(s: seq<T>, x: T, p: T -> bool)
    requires p(x)
    requires forall k :: 0 <= k < |s| ==> !p(s[k])
    ensures FindFirst(s + [x], p) == Some(x)
  {
    if s != [] {
      assert (s + [x])[1..] == s[1..] + [x];
      FindFirstAppended(s[1..], x, p);
    }
  }
}
