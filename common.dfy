/** Shared vocabulary of the booking platform model: document ids, optional
    values, the error taxonomy of the controllers, and the collection
    operations (filter, sum, newest-first sort, lookup by id) that the
    controllers are built from. */
module Common {

  /** An opaque document identifier. Ids are compared for equality only;
      being natural numbers lets the store mint a fresh one. */
  type Id = nat

  datatype Option<T> = None | Some(value: T) {
    function GetOr(default: T): T {
      if Some? then value else default
    }
  }

  /** The failures a handler reports. The first three are the explicit
      400/401/404 early returns of the controllers; `Invalid` is a schema
      validation failure raised by the document layer on create or save. */
  datatype Error =
    | BadRequest
    | Unauthorized
    | NotFound
    | Invalid

  datatype Result<T> = Ok(value: T) | Err(error: Error)

  function Min(a: int, b: int): int {
    if a <= b then a else b
  }

  function Max(a: int, b: int): int {
    if a <= b then b else a
  }

  // ---------------------------------------------------------------------
  // Whitespace and trimming, as JavaScript's String.prototype.trim does it
  // ---------------------------------------------------------------------

  /** The WhiteSpace and LineTerminator code points of ECMAScript. */
  predicate IsSpace(c: char) {
    c as int in {0x09, 0x0A, 0x0B, 0x0C, 0x0D, 0x20, 0xA0, 0x1680,
                 0x2000, 0x2001, 0x2002, 0x2003, 0x2004, 0x2005, 0x2006,
                 0x2007, 0x2008, 0x2009, 0x200A, 0x2028, 0x2029, 0x202F,
                 0x205F, 0x3000, 0xFEFF}
  }

  /** Neither end of `s` is whitespace. */
  predicate IsTrimmed(s: string) {
    s == [] || (!IsSpace(s[0]) && !IsSpace(s[|s| - 1]))
  }

  /** `s` without its leading whitespace. */
  function TrimStart(s: string): (r: string)
    ensures |r| <= |s| && r == s[|s| - |r|..]
    ensures r == [] || !IsSpace(r[0])
  {
    if s != [] && IsSpace(s[0]) then TrimStart(s[1..]) else s
  }

  /** `s` without its trailing whitespace. */
  function TrimEnd(s: string): (r: string)
    ensures |r| <= |s| && r == s[..|r|]
    ensures r == [] || !IsSpace(r[|r| - 1])
  {
    if s != [] && IsSpace(s[|s| - 1]) then TrimEnd(s[..|s| - 1]) else s
  }

  /** Every character of `s` is whitespace. */
  predicate AllSpace(s: string) {
    s == [] || (IsSpace(s[0]) && AllSpace(s[1..]))
  }

  /** What `TrimStart` drops is whitespace. */
  lemma {:induction false} TrimStartDrops(s: string)
    ensures AllSpace(s[..|s| - |TrimStart(s)|])
    decreases |s|
  {
    if s != [] && IsSpace(s[0]) {
      var r := TrimStart(s[1..]);
      TrimStartDrops(s[1..]);
      TakeTail(s, |s| - |r|);
    }
  }

  lemma TakeTail(s: string, k: nat)
    requires 1 <= k <= |s|
    ensures s[..k][0] == s[0] && s[..k][1..] == s[1..][..k - 1]
  {
  }

  /** What `TrimEnd` drops is whitespace. */
  lemma {:induction false} TrimEndDrops(s: string)
    ensures AllSpace(s[|TrimEnd(s)|..])
    decreases |s|
  {
    if s != [] && IsSpace(s[|s| - 1]) {
      var r := TrimEnd(s[..|s| - 1]);
      TrimEndDrops(s[..|s| - 1]);
      AllSpaceSnoc(s[..|s| - 1][|r|..], s[|s| - 1]);
      assert s[..|s| - 1][|r|..] + [s[|s| - 1]] == s[|r|..];
    }
  }

  /** Whitespace after all-whitespace is all-whitespace. */
  lemma {:induction false} AllSpaceSnoc(w: string, c: char)
    requires AllSpace(w) && IsSpace(c)
    ensures AllSpace(w + [c])
    decreases |w|
  {
    if w == [] {
      assert ([] + [c])[1..] == [];
    } else {
      AllSpaceSnoc(w[1..], c);
      assert (w + [c])[1..] == w[1..] + [c];
    }
  }

  /** `s` without its leading and trailing whitespace. */
  function Trim(s: string): (r: string)
    ensures IsTrimmed(r)
    ensures |r| <= |s|
    ensures IsTrimmed(s) ==> r == s
  {
    assert IsTrimmed(s) ==> TrimStart(s) == s && TrimEnd(s) == s;
    TrimEnd(TrimStart(s))
  }

  /** `Trim` removes exactly the whitespace at the two ends: a string made
      of whitespace, a trimmed middle and whitespace trims to the middle. */
  lemma TrimEdges(w: string, m: string, w': string)
    requires AllSpace(w) && IsTrimmed(m) && AllSpace(w')
    ensures Trim(w + m + w') == m
  {
    TrimBothEdges(w, m, w');
  }

  /** Every string is its leading whitespace, its trimmed form and its
      trailing whitespace, in that order. */
  lemma TrimSplits(s: string)
    ensures var r := Trim(s);
            var a := |s| - |TrimStart(s)|;
            && a + |r| <= |s|
            && s == s[..a] + r + s[a + |r|..]
            && AllSpace(s[..a]) && AllSpace(s[a + |r|..])
  {
    TrimSplitsParts(s);
    TrimSplitsSpaces(s);
  }

  lemma TrimSplitsParts(s: string)
    ensures var r := TrimEnd(TrimStart(s));
            var a := |s| - |TrimStart(s)|;
            a + |r| <= |s| && s == s[..a] + r + s[a + |r|..]
  {
    var t := TrimStart(s);
    var r := TrimEnd(t);
    Recompose(s, |s| - |t|, t, r);
  }

  lemma TrimSplitsSpaces(s: string)
    ensures var r := TrimEnd(TrimStart(s));
            var a := |s| - |TrimStart(s)|;
            a + |r| <= |s| && AllSpace(s[..a]) && AllSpace(s[a + |r|..])
  {
    var t := TrimStart(s);
    var r := TrimEnd(t);
    TrimStartDrops(s);
    TrimEndDrops(t);
    Recompose(s, |s| - |t|, t, r);
  }

  /** A prefix of a suffix sits between the rest of the two. */
  lemma Recompose(s: string, a: nat, t: string, r: string)
    requires a <= |s| && t == s[a..] && |r| <= |t| && r == t[..|r|]
    ensures s == s[..a] + r + s[a + |r|..]
    ensures t[|r|..] == s[a + |r|..]
  {
  }

  lemma TrimBothEdges(w: string, m: string, w': string)
    requires AllSpace(w) && IsTrimmed(m) && AllSpace(w')
    ensures TrimEnd(TrimStart(w + m + w')) == m
  {
    if m == [] {
      TrimSpacesOnly(w, w');
      EmptyMiddle(w, m, w');
    } else {
      TrimAroundMiddle(w, m, w');
    }
  }

  lemma EmptyMiddle(a: string, b: string, c: string)
    requires b == []
    ensures a + b + c == a + c
  {
  }

  lemma TrimSpacesOnly(w: string, w': string)
    requires AllSpace(w) && AllSpace(w')
    ensures TrimEnd(TrimStart(w + w')) == []
  {
    TrimStartSpaces(w, w');
    AllSpaceTrims(w');
  }

  lemma TrimAroundMiddle(w: string, m: string, w': string)
    requires AllSpace(w) && m != [] && IsTrimmed(m) && AllSpace(w')
    ensures TrimEnd(TrimStart(w + m + w')) == m
  {
    TrimStartBefore(w, m, w');
    NonSpaceStart(m, w');
    TrimEndSpaces(m, w');
  }

  lemma TrimStartBefore(w: string, m: string, w': string)
    requires AllSpace(w)
    ensures TrimStart(w + m + w') == TrimStart(m + w')
  {
    Associative(w, m, w');
    TrimStartSpaces(w, m + w');
  }

  lemma Associative(a: string, b: string, c: string)
    ensures a + b + c == a + (b + c)
  {
  }

  lemma NonSpaceStart(m: string, w': string)
    requires m != [] && !IsSpace(m[0])
    ensures TrimStart(m + w') == m + w'
  {
    assert (m + w')[0] == m[0];
  }

  lemma AllSpaceTrims(w: string)
    requires AllSpace(w)
    ensures TrimStart(w) == []
  {
    TrimStartSpaces(w, []);
    assert w + [] == w;
  }

  lemma {:induction false} TrimStartSpaces(w: string, x: string)
    requires AllSpace(w)
    ensures TrimStart(w + x) == TrimStart(x)
    decreases |w|
  {
    if w != [] {
      assert (w + x)[0] == w[0];
      assert (w + x)[1..] == w[1..] + x;
      TrimStartSpaces(w[1..], x);
    } else {
      assert w + x == x;
    }
  }

  /** The last character of an all-whitespace string is whitespace, and so
      is the rest. */
  lemma {:induction false} AllSpaceInit(w: string)
    requires w != [] && AllSpace(w)
    ensures IsSpace(w[|w| - 1]) && AllSpace(w[..|w| - 1])
    decreases |w|
  {
    if |w| > 1 {
      AllSpaceInit(w[1..]);
      assert w[1..][..|w| - 2] == w[..|w| - 1][1..];
    }
  }

  lemma LastOfAppend(m: string, w': string)
    requires w' != []
    ensures var u := m + w';
            u[|u| - 1] == w'[|w'| - 1] && u[..|u| - 1] == m + w'[..|w'| - 1]
  {
  }

  lemma {:induction false} TrimEndSpaces(m: string, w': string)
    requires m != [] && !IsSpace(m[|m| - 1]) && AllSpace(w')
    ensures TrimEnd(m + w') == m
    decreases |w'|
  {
    if w' != [] {
      AllSpaceInit(w');
      LastOfAppend(m, w');
      TrimEndSpaces(m, w'[..|w'| - 1]);
    } else {
      assert m + w' == m;
    }
  }

  // ---------------------------------------------------------------------
  // String length as JavaScript counts it
  // ---------------------------------------------------------------------

  /** The units a code point takes in UTF-16: two above the Basic
      Multilingual Plane, one otherwise. */
  function Utf16Units(c: char): nat {
    if c as int >= 0x10000 then 2 else 1
  }

  /** `s.length` in JavaScript: the number of UTF-16 code units, between
      the number of code points and twice that. */
  function Utf16Length(s: string): (n: nat)
    ensures |s| <= n <= 2 * |s|
    ensures n == 0 <==> s == []
  {
    if s == [] then 0 else Utf16Units(s[0]) + Utf16Length(s[1..])
  }

  /** The lengths of two strings add up. */
  lemma {:induction false} Utf16LengthConcat(a: string, b: string)
    ensures Utf16Length(a + b) == Utf16Length(a) + Utf16Length(b)
  {
    if a == [] {
      assert a + b == b;
    } else {
      assert (a + b)[0] == a[0] && (a + b)[1..] == a[1..] + b;
      Utf16LengthConcat(a[1..], b);
    }
  }

  /** A string within the Basic Multilingual Plane has one unit per code
      point, and only such a string does. */
  lemma {:induction false} Utf16LengthBmp(s: string)
    ensures Utf16Length(s) == |s| <==> forall i :: 0 <= i < |s| ==> s[i] as int < 0x10000
  {
    if s != [] {
      Utf16LengthBmp(s[1..]);
      assert forall i :: 1 <= i < |s| ==> s[1..][i - 1] == s[i];
    }
  }

  // ---------------------------------------------------------------------
  // Filter, count and sum over a collection
  // ---------------------------------------------------------------------

  /** The elements of `s` that satisfy `p`, in their original order. */
  function Filter<T>(s: seq<T>, p: T -> bool): (r: seq<T>)
    ensures |r| <= |s|
    ensures forall i :: 0 <= i < |r| ==> r[i] in s && p(r[i])
    ensures forall i :: 0 <= i < |s| && p(s[i]) ==> s[i] in r
  {
    if s == [] then []
    else (if p(s[0]) then [s[0]] else []) + Filter(s[1..], p)
  }

  function Count<T>(s: seq<T>, p: T -> bool): nat {
    |Filter(s, p)|
  }

  function Sum<T>(s: seq<T>, v: T -> int): int {
    if s == [] then 0 else v(s[0]) + Sum(s[1..], v)
  }

  lemma {:induction false} FilterConcat<T>(a: seq<T>, b: seq<T>, p: T -> bool)
    ensures Filter(a + b, p) == Filter(a, p) + Filter(b, p)
  {
    if a != [] {
      assert (a + b)[0] == a[0] && (a + b)[1..] == a[1..] + b;
      FilterConcat(a[1..], b, p);
    } else {
      assert a + b == b;
    }
  }

  /** Filtering keeps every element `p` accepts exactly as often as it occurs. */
  lemma {:induction false} FilterMultiplicity<T>(s: seq<T>, p: T -> bool, x: T)
    ensures multiset(Filter(s, p))[x] == if p(x) then multiset(s)[x] else 0
  {
    if s != [] {
      var a, t := s[0], s[1..];
      var h := if p(a) then [a] else [];
      FilterMultiplicity(t, p, x);
      assert s == [a] + t;
      assert multiset(s) == multiset([a]) + multiset(t);
      assert multiset(Filter(s, p)) == multiset(h) + multiset(Filter(t, p));
      assert multiset(h)[x] == if p(x) then multiset([a])[x] else 0;
    }
  }

  /** Filters that agree pointwise give the same result. */
  lemma {:induction false} FilterExt<T>(s: seq<T>, p: T -> bool, q: T -> bool)
    requires forall x :: x in s ==> p(x) == q(x)
    ensures Filter(s, p) == Filter(s, q)
  {
    if s != [] {
      FilterExt(s[1..], p, q);
    }
  }

  /** Filtering by `p` and then by `q` is filtering by their conjunction. */
  lemma {:induction false} FilterFilter<T>(s: seq<T>, p: T -> bool, q: T -> bool, pq: T -> bool)
    requires forall x :: x in s ==> pq(x) == (p(x) && q(x))
    ensures Filter(Filter(s, p), q) == Filter(s, pq)
  {
    if s != [] {
      FilterFilter(s[1..], p, q, pq);
      FilterConcat(if p(s[0]) then [s[0]] else [], Filter(s[1..], p), q);
    }
  }

  /** A filter that every element passes keeps the whole sequence. */
  lemma {:induction false} FilterAll<T>(s: seq<T>, p: T -> bool)
    requires forall x :: x in s ==> p(x)
    ensures Filter(s, p) == s
  {
    if s != [] {
      FilterAll(s[1..], p);
    }
  }

  /** The position of the first occurrence of `x` in `s`, or `|s|` when
      `x` does not occur. */
  function FirstIndex<T(==)>(s: seq<T>, x: T): (i: nat)
    ensures i <= |s|
    ensures i < |s| <==> x in s
    ensures i < |s| ==> s[i] == x
    ensures forall k :: 0 <= k < i ==> s[k] != x
  {
    if s == [] then 0 else if s[0] == x then 0 else 1 + FirstIndex(s[1..], x)
  }

  /** Appending an element moves no first occurrence, and places that of a
      new element at the end. */
  lemma FirstIndexSnoc<T>(s: seq<T>, y: T)
    ensures forall x :: x in s ==> FirstIndex(s + [y], x) == FirstIndex(s, x)
    ensures y !in s ==> FirstIndex(s + [y], y) == |s|
  {
    forall x | x in s
      ensures FirstIndex(s + [y], x) == FirstIndex(s, x)
    {
      assert (s + [y])[FirstIndex(s, x)] == x;
    }
    if y !in s {
      assert (s + [y])[|s|] == y;
    }
  }

  /** A filter keeps the order of first occurrences of the elements it
      keeps. */
  lemma {:induction false} FilterFirstIndex<T>(s: seq<T>, p: T -> bool, x: T, y: T)
    requires p(x) && p(y)
    ensures FirstIndex(Filter(s, p), x) < FirstIndex(Filter(s, p), y) <==> FirstIndex(s, x) < FirstIndex(s, y)
  {
    if s != [] {
      var a, t := s[0], s[1..];
      FilterFirstIndex(t, p, x, y);
      assert s == [a] + t;
      assert Filter(s, p) == if p(a) then [a] + Filter(t, p) else Filter(t, p);
      FirstIndexStep(s, t, Filter(s, p), Filter(t, p), a, x, y, p(a));
    }
  }

  /** One element in front of two sequences, kept in front of the second
      or dropped, preserves how the first occurrences of `x` and `y`
      compare. */
  lemma FirstIndexStep<T>(s: seq<T>, t: seq<T>, f: seq<T>, g: seq<T>, a: T, x: T, y: T, keep: bool)
    requires s == [a] + t
    requires f == if keep then [a] + g else g
    requires !keep ==> a != x && a != y
    requires FirstIndex(g, x) < FirstIndex(g, y) <==> FirstIndex(t, x) < FirstIndex(t, y)
    ensures FirstIndex(f, x) < FirstIndex(f, y) <==> FirstIndex(s, x) < FirstIndex(s, y)
  {
    FirstIndexCons(a, t, x);
    FirstIndexCons(a, t, y);
    if keep {
      FirstIndexCons(a, g, x);
      FirstIndexCons(a, g, y);
    }
  }

  /** The first occurrence in `[a] + t`: at 0 when `a` is the element,
      otherwise one past its first occurrence in `t`. */
  lemma FirstIndexCons<T>(a: T, t: seq<T>, z: T)
    ensures FirstIndex([a] + t, z) == if a == z then 0 else 1 + FirstIndex(t, z)
  {
    assert ([a] + t)[0] == a && ([a] + t)[1..] == t;
  }

  /** Two predicates that never hold together select at most |s| elements. */
  lemma {:induction false} DisjointCounts<T>(s: seq<T>, p: T -> bool, q: T -> bool)
    requires forall x :: x in s ==> !(p(x) && q(x))
    ensures Count(s, p) + Count(s, q) <= |s|
  {
    if s != [] {
      DisjointCounts(s[1..], p, q);
    }
  }

  /** Counting a union of two disjoint predicates adds their counts. */
  lemma {:induction false} CountUnion<T>(s: seq<T>, p: T -> bool, q: T -> bool, pq: T -> bool)
    requires forall x :: x in s ==> !(p(x) && q(x)) && (pq(x) == (p(x) || q(x)))
    ensures Count(s, pq) == Count(s, p) + Count(s, q)
  {
    if s != [] {
      CountUnion(s[1..], p, q, pq);
    }
  }

  lemma {:induction false} SumConcat<T>(a: seq<T>, b: seq<T>, v: T -> int)
    ensures Sum(a + b, v) == Sum(a, v) + Sum(b, v)
  {
    if a != [] {
      assert (a + b)[0] == a[0] && (a + b)[1..] == a[1..] + b;
      SumConcat(a[1..], b, v);
    } else {
      assert a + b == b;
    }
  }

  /** Taking one term out of a sum. */
  lemma SumRemove<T>(b: seq<T>, k: nat, v: T -> int)
    requires k < |b|
    ensures Sum(b, v) == v(b[k]) + Sum(b[..k] + b[k + 1..], v)
  {
    var l, r := b[..k], b[k + 1..];
    SplitAround(b, k);
    SumConcat(l + [b[k]], r, v);
    SumConcat(l, [b[k]], v);
    SumConcat(l, r, v);
    assert [b[k]][1..] == [];
  }

  /** A sequence is what lies before position `k`, the element there, and
      what lies after it. */
  lemma SplitAround<T>(b: seq<T>, k: nat)
    requires k < |b|
    ensures b == (b[..k] + [b[k]]) + b[k + 1..]
  {
  }

  /** Taking one element out of a sequence takes it out of its multiset. */
  lemma MultisetRemove<T>(b: seq<T>, k: nat)
    requires k < |b|
    ensures multiset(b[..k] + b[k + 1..]) == multiset(b) - multiset{b[k]}
  {
    assert b == b[..k] + [b[k]] + b[k + 1..];
    assert multiset(b) == multiset(b[..k]) + multiset{b[k]} + multiset(b[k + 1..]);
  }

  /** A sum does not depend on the order of its terms. */
  lemma {:induction false} SumPermutation<T>(a: seq<T>, b: seq<T>, v: T -> int)
    requires multiset(a) == multiset(b)
    ensures Sum(a, v) == Sum(b, v)
  {
    if a == [] {
      assert |b| == |multiset(b)| == 0;
    } else {
      assert a[0] in multiset(b);
      var k :| 0 <= k < |b| && b[k] == a[0];
      SumRemove(b, k, v);
      MultisetRemove(b, k);
      assert a == [a[0]] + a[1..];
      assert multiset(a[1..]) == multiset(a) - multiset{a[0]};
      SumPermutation(a[1..], b[..k] + b[k + 1..], v);
    }
  }

  /** Filtering two permutations of each other gives permutations of each other. */
  lemma {:induction false} FilterPermutation<T>(a: seq<T>, b: seq<T>, p: T -> bool)
    requires multiset(a) == multiset(b)
    ensures multiset(Filter(a, p)) == multiset(Filter(b, p))
  {
    forall x
      ensures multiset(Filter(a, p))[x] == multiset(Filter(b, p))[x]
    {
      FilterMultiplicity(a, p, x);
      FilterMultiplicity(b, p, x);
    }
  }

  /** Replacing one element changes a filtered sum by the share of the old
      element and the share of the new one. */
  lemma {:induction false} SumFilterUpdate<T>(s: seq<T>, i: nat, x: T, p: T -> bool, v: T -> int)
    requires i < |s|
    ensures Sum(Filter(s[i := x], p), v)
            == Sum(Filter(s, p), v) - (if p(s[i]) then v(s[i]) else 0) + (if p(x) then v(x) else 0)
    decreases |s|
  {
    var t := s[i := x];
    var ht := if p(t[0]) then [t[0]] else [];
    var hs := if p(s[0]) then [s[0]] else [];
    assert Filter(t, p) == ht + Filter(t[1..], p);
    assert Filter(s, p) == hs + Filter(s[1..], p);
    SumConcat(ht, Filter(t[1..], p), v);
    SumConcat(hs, Filter(s[1..], p), v);
    if i == 0 {
      assert t[1..] == s[1..];
    } else {
      assert t[1..] == s[1..][i - 1 := x];
      SumFilterUpdate(s[1..], i - 1, x, p, v);
    }
  }

  // ---------------------------------------------------------------------
  // Newest-first ordering (the `sort('-createdAt')` of every listing)
  // ---------------------------------------------------------------------

  /** `s` is ordered by the time stamp `at`, most recent first. */
  ghost predicate NewestFirst<T>(s: seq<T>, at: T -> int) {
    forall i, j :: 0 <= i < j < |s| ==> at(s[i]) >= at(s[j])
  }

  function InsertNewest<T>(x: T, s: seq<T>, at: T -> int): (r: seq<T>)
    requires NewestFirst(s, at)
    ensures multiset(r) == multiset(s) + multiset{x}
    ensures NewestFirst(r, at)
  {
    if s == [] || at(x) >= at(s[0]) then [x] + s
    else
      var rest := InsertNewest(x, s[1..], at);
      assert s == [s[0]] + s[1..];
      InsertedBelowHead(x, s, rest, at);
      NewestFirstCons(s[0], rest, at);
      [s[0]] + rest
  }

  lemma InsertedBelowHead<T>(x: T, s: seq<T>, rest: seq<T>, at: T -> int)
    requires s != [] && NewestFirst(s, at) && at(x) < at(s[0])
    requires multiset(rest) == multiset(s[1..]) + multiset{x}
    ensures forall k :: 0 <= k < |rest| ==> at(rest[k]) <= at(s[0])
  {
    forall k | 0 <= k < |rest|
      ensures at(rest[k]) <= at(s[0])
    {
      assert rest[k] in multiset(rest);
      if rest[k] != x {
        assert rest[k] in multiset(s[1..]);
        var m :| 0 <= m < |s[1..]| && s[1..][m] == rest[k];
        assert s[m + 1] == rest[k];
      }
    }
  }

  lemma NewestFirstCons<T>(h: T, rest: seq<T>, at: T -> int)
    requires NewestFirst(rest, at)
    requires forall k :: 0 <= k < |rest| ==> at(rest[k]) <= at(h)
    ensures NewestFirst([h] + rest, at)
  {
    var r := [h] + rest;
    forall i, j | 0 <= i < j < |r|
      ensures at(r[i]) >= at(r[j])
    {
      assert r[j] == rest[j - 1];
      if i > 0 {
        assert r[i] == rest[i - 1];
      }
    }
  }

  /** A stable newest-first sort of `s`. */
  function SortNewest<T>(s: seq<T>, at: T -> int): (r: seq<T>)
    ensures multiset(r) == multiset(s)
    ensures NewestFirst(r, at)
  {
    if s == [] then []
    else
      assert s == [s[0]] + s[1..];
      InsertNewest(s[0], SortNewest(s[1..], at), at)
  }

  /** The `n` most recent elements of `s`, newest first (`sort` then `limit`). */
  function TopNewest<T>(s: seq<T>, n: nat, at: T -> int): (r: seq<T>)
    ensures |r| == Min(n, |s|)
    ensures NewestFirst(r, at)
    ensures multiset(r) <= multiset(s)
    ensures forall x, y :: x in multiset(s) - multiset(r) && y in r ==> at(x) <= at(y)
  {
    var sorted := SortNewest(s, at);
    assert |sorted| == |multiset(sorted)| == |s|;
    var m := Min(n, |sorted|);
    TakeNewest(sorted, m, at);
    sorted[..m]
  }

  /** A prefix of a newest-first sequence is newest first and holds its
      most recent elements. */
  lemma TakeNewest<T>(sorted: seq<T>, m: nat, at: T -> int)
    requires NewestFirst(sorted, at) && m <= |sorted|
    ensures NewestFirst(sorted[..m], at)
    ensures multiset(sorted[..m]) <= multiset(sorted)
    ensures forall x, y :: x in multiset(sorted) - multiset(sorted[..m]) && y in sorted[..m] ==> at(x) <= at(y)
  {
    assert sorted == sorted[..m] + sorted[m..];
    assert multiset(sorted) == multiset(sorted[..m]) + multiset(sorted[m..]);
    forall x, y | x in multiset(sorted) - multiset(sorted[..m]) && y in sorted[..m]
      ensures at(x) <= at(y)
    {
      var a := LeftOut(sorted, m, x);
      var b :| 0 <= b < m && sorted[..m][b] == y;
      assert sorted[b] == y;
    }
  }

  /** An element that is not among the first `m` lies at a position `m` or
      later. */
  lemma LeftOut<T>(sorted: seq<T>, m: nat, x: T) returns (a: nat)
    requires m <= |sorted| && x in multiset(sorted) - multiset(sorted[..m])
    ensures m <= a < |sorted| && sorted[a] == x
  {
    assert sorted == sorted[..m] + sorted[m..];
    assert multiset(sorted) == multiset(sorted[..m]) + multiset(sorted[m..]);
    assert x in sorted[m..];
    var i :| 0 <= i < |sorted[m..]| && sorted[m..][i] == x;
    a := m + i;
  }

  // ---------------------------------------------------------------------
  // Collections keyed by id
  // ---------------------------------------------------------------------

  /** No two elements of `s` share a key. */
  ghost predicate KeysUnique<T>(s: seq<T>, key: T -> Id) {
    forall i, j :: 0 <= i < j < |s| ==> key(s[i]) != key(s[j])
  }

  /** The position of the element of `s` whose key is `id` (`findById`). */
  function IndexOf<T>(s: seq<T>, key: T -> Id, id: Id): (r: Option<nat>)
    ensures r.Some? ==> r.value < |s| && key(s[r.value]) == id
    ensures r.None? <==> forall i :: 0 <= i < |s| ==> key(s[i]) != id
  {
    if s == [] then None
    else if key(s[0]) == id then Some(0)
    else match IndexOf(s[1..], key, id)
      case None => None
      case Some(k) => Some(k + 1)
  }

  /** With unique keys, the element found is the only one with that key. */
  lemma IndexOfUnique<T>(s: seq<T>, key: T -> Id, i: nat)
    requires KeysUnique(s, key) && i < |s|
    ensures IndexOf(s, key, key(s[i])) == Some(i)
  {
  }

  /** The position found is the first one carrying the key. */
  lemma {:induction false} IndexOfFirst<T>(s: seq<T>, key: T -> Id, id: Id, j: nat)
    requires j < |s| && key(s[j]) == id
    requires forall k :: 0 <= k < j ==> key(s[k]) != id
    ensures IndexOf(s, key, id) == Some(j)
    decreases j
  {
    if j > 0 {
      assert key(s[0]) != id;
      forall k | 0 <= k < j - 1 ensures key(s[1..][k]) != id {
        assert s[1..][k] == s[k + 1];
      }
      IndexOfFirst(s[1..], key, id, j - 1);
    }
  }

  function MaxKey<T>(s: seq<T>, key: T -> Id): (m: Id)
    ensures forall i :: 0 <= i < |s| ==> key(s[i]) <= m
  {
    if s == [] then 0 else Max(key(s[0]), MaxKey(s[1..], key))
  }

  /** An id that no element of `s` carries. */
  function FreshKey<T>(s: seq<T>, key: T -> Id): (r: Id)
    ensures forall i :: 0 <= i < |s| ==> key(s[i]) != r
  {
    MaxKey(s, key) + 1
  }

  lemma KeysUniqueAppend<T>(s: seq<T>, key: T -> Id, x: T)
    requires KeysUnique(s, key)
    requires forall i :: 0 <= i < |s| ==> key(s[i]) != key(x)
    ensures KeysUnique(s + [x], key)
  {
  }

  lemma KeysUniqueUpdate<T>(s: seq<T>, key: T -> Id, i: nat, x: T)
    requires KeysUnique(s, key) && i < |s| && key(x) == key(s[i])
    ensures KeysUnique(s[i := x], key)
  {
  }

  lemma KeysUniqueRemove<T>(s: seq<T>, key: T -> Id, i: nat)
    requires KeysUnique(s, key) && i < |s|
    ensures KeysUnique(s[..i] + s[i + 1..], key)
  {
    var r := s[..i] + s[i + 1..];
    forall a, b | 0 <= a < b < |r|
      ensures key(r[a]) != key(r[b])
    {
      var a' := if a < i then a else a + 1;
      var b' := if b < i then b else b + 1;
      assert r[a] == s[a'] && r[b] == s[b'];
    }
  }

  /** With unique keys, removing position `i` removes exactly the element
      with that key. */
  lemma RemoveAtMembers<T>(s: seq<T>, key: T -> Id, i: nat)
    requires KeysUnique(s, key) && i < |s|
    ensures forall x :: x in s[..i] + s[i + 1..] <==> x in s && key(x) != key(s[i])
  {
    var rest := s[..i] + s[i + 1..];
    forall x | x in s && key(x) != key(s[i])
      ensures x in rest
    {
      var k :| 0 <= k < |s| && s[k] == x;
      if k < i { assert rest[k] == x; } else { assert rest[k - 1] == x; }
    }
    forall x | x in rest
      ensures x in s && key(x) != key(s[i])
    {
      var k :| 0 <= k < |rest| && rest[k] == x;
      if k >= i {
        assert rest[k] == s[k + 1];
      } else {
        assert rest[k] == s[k];
      }
    }
  }

  lemma KeysUniqueFilter<T>(s: seq<T>, key: T -> Id, p: T -> bool)
    requires KeysUnique(s, key)
    ensures KeysUnique(Filter(s, p), key)
    decreases |s|
  {
    if s != [] {
      KeysUniqueFilter(s[1..], key, p);
      var tail := Filter(s[1..], p);
      forall k | 0 <= k < |tail|
        ensures key(tail[k]) != key(s[0])
      {
        assert tail[k] in s[1..];
        var m :| 0 <= m < |s[1..]| && s[1..][m] == tail[k];
        assert s[m + 1] == tail[k];
      }
    }
  }
}
