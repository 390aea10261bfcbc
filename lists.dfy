/** The array operations the application leans on (`filter`, `find`, `slice`), with their meaning stated. */
module Lists {
  import opened Wrappers

  /** `s.filter(p)`: the elements of `s` that satisfy `p`, in their original order. */
  function Filter<T(==,!new)>(s: seq<T>, p: T -> bool): (r: seq<T>)
    ensures |r| <= |s|
    ensures forall x :: multiset(r)[x] == if p(x) then multiset(s)[x] else 0
    ensures forall x :: x in r <==> x in s && p(x)
  {
    if s == [] then []
    else
      var rest := Filter(s[1..], p);
      assert s == [s[0]] + s[1..];
      if p(s[0]) then [s[0]] + rest else rest
  }

  /** `r` is what remains of `s` after deleting some elements: a sublist that keeps the order. */
  ghost predicate IsSublist<T>(r: seq<T>, s: seq<T>)
    decreases |s|
  {
    if r == [] then true
    else if s == [] then false
    else (r[0] == s[0] && IsSublist(r[1..], s[1..])) || IsSublist(r, s[1..])
  }

  /** Filtering by a condition every element meets keeps the whole sequence. */
  lemma {:induction false} FilterAll<T(!new)>(s: seq<T>, p: T -> bool)
    requires forall i :: 0 <= i < |s| ==> p(s[i])
    ensures Filter(s, p) == s
  {
    if s != [] {
      FilterAll(s[1..], p);
    }
  }

  /** Filtering keeps the input order. */
  lemma {:induction false} FilterIsSublist<T(!new)>(s: seq<T>, p: T -> bool)
    ensures IsSublist(Filter(s, p), s)
  {
    if s != [] {
      FilterIsSublist(s[1..], p);
      if !p(s[0]) {
        SublistSkip(Filter(s[1..], p), s);
      }
    }
  }

  lemma SublistSkip<T>(r: seq<T>, s: seq<T>)
    requires s != [] && IsSublist(r, s[1..])
    ensures IsSublist(r, s)
  {
  }

  /** A prefix keeps the order of the whole. */
  lemma {:induction false} PrefixIsSublist<T>(r: seq<T>, s: seq<T>)
    requires r <= s
    ensures IsSublist(r, s)
  {
    if r != [] {
      PrefixIsSublist(r[1..], s[1..]);
    }
  }

  /** A sublist of a sublist is a sublist. */
  lemma {:induction false} SublistTransitive<T>(a: seq<T>, b: seq<T>, c: seq<T>)
    requires IsSublist(a, b) && IsSublist(b, c)
    ensures IsSublist(a, c)
    decreases |c|
  {
    if a != [] {
      if b[0] == c[0] && IsSublist(b[1..], c[1..]) {
        if a[0] == b[0] && IsSublist(a[1..], b[1..]) {
          SublistTransitive(a[1..], b[1..], c[1..]);
        } else {
          SublistTransitive(a, b[1..], c[1..]);
        }
      } else {
        SublistTransitive(a, b, c[1..]);
      }
    }
  }

  /** Filtering by a stronger condition yields a sublist of filtering by a weaker one. */
  lemma {:induction false} FilterStrongerIsSublist<T(!new)>(s: seq<T>, p: T -> bool, q: T -> bool)
    requires forall x :: p(x) ==> q(x)
    ensures IsSublist(Filter(s, p), Filter(s, q))
  {
    if s != [] {
      FilterStrongerIsSublist(s[1..], p, q);
      var rp, rq := Filter(s[1..], p), Filter(s[1..], q);
      if p(s[0]) {
        assert Filter(s, p) == [s[0]] + rp && Filter(s, q) == [s[0]] + rq;
        assert ([s[0]] + rp)[1..] == rp && ([s[0]] + rq)[1..] == rq;
      } else if q(s[0]) {
        assert Filter(s, p) == rp && Filter(s, q) == [s[0]] + rq;
        assert ([s[0]] + rq)[1..] == rq;
        SublistSkip(rp, [s[0]] + rq);
      }
    }
  }

  /** `s.filter(p).length`. */
  function Count<T(==)>(s: seq<T>, p: T -> bool): (n: nat)
    ensures n <= |s|
    ensures n == 0 <==> forall i :: 0 <= i < |s| ==> !p(s[i])
    ensures n == |s| <==> forall i :: 0 <= i < |s| ==> p(s[i])
  {
    if s == [] then 0
    else (if p(s[0]) then 1 else 0) + Count(s[1..], p)
  }

  /** `s.find(p)`: the first element that satisfies `p`, or `undefined`. */
  function FindFirst<T>(s: seq<T>, p: T -> bool): (r: Option<T>)
    ensures r.None? <==> forall i :: 0 <= i < |s| ==> !p(s[i])
    ensures r.Some? ==> exists i :: 0 <= i < |s| && s[i] == r.value && p(s[i]) && forall j :: 0 <= j < i ==> !p(s[j])
  {
    if s == [] then None
    else if p(s[0]) then Some(s[0])
    else
      var r := FindFirst(s[1..], p);
      if r.Some? then
        ghost var i :| 0 <= i < |s| - 1 && s[1..][i] == r.value && p(s[1..][i]) && forall j :: 0 <= j < i ==> !p(s[1..][j]);
        assert s[i + 1] == r.value && forall j :: 0 <= j < i + 1 ==> !p(s[j]);
        r
      else r
  }

  /** `s.slice(0, n)` for n >= 0. */
  function Take<T>(s: seq<T>, n: nat): (r: seq<T>)
    ensures |r| == if n < |s| then n else |s|
    ensures r <= s
  {
    if n < |s| then s[..n] else s
  }
}
