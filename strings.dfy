/** Byte-wise string order (`strcmp`, as sorting with `SORT_STRING` uses it),
    sorting by that order, and `join`. Characters compare by code point,
    which for UTF-8 text is the same order as comparing the encoded bytes. */
module StringOrder {

  /** `strcmp(a, b) <= 0`: lexicographic, a proper prefix comes first. */
  predicate Below(a: string, b: string) {
    a == [] || (b != [] && (a[0] < b[0] || (a[0] == b[0] && Below(a[1..], b[1..]))))
  }

  /** Every element is `Below` the next one. */
  predicate Sorted(s: seq<string>) {
    |s| < 2 || (Below(s[0], s[1]) && Sorted(s[1..]))
  }

  lemma {:induction false} BelowReflexive(a: string)
    ensures Below(a, a)
  {
    if a != [] { BelowReflexive(a[1..]); }
  }

  lemma {:induction false} BelowAntisymmetric(a: string, b: string)
    requires Below(a, b) && Below(b, a)
    ensures a == b
  {
    if a != [] {
      BelowAntisymmetric(a[1..], b[1..]);
      assert a == [a[0]] + a[1..] && b == [b[0]] + b[1..];
    }
  }

  lemma {:induction false} BelowTransitive(a: string, b: string, c: string)
    requires Below(a, b) && Below(b, c)
    ensures Below(a, c)
  {
    if a != [] && a[0] == b[0] && b[0] == c[0] {
      BelowTransitive(a[1..], b[1..], c[1..]);
    }
  }

  lemma {:induction false} BelowTotal(a: string, b: string)
    ensures Below(a, b) || Below(b, a)
  {
    if a != [] && b != [] && a[0] == b[0] {
      BelowTotal(a[1..], b[1..]);
    }
  }

  /** Strings with a common prefix compare as their remainders do. */
  lemma {:induction false} BelowCommonPrefix(p: string, a: string, b: string)
    ensures Below(p + a, p + b) <==> Below(a, b)
  {
    if p != [] {
      assert (p + a)[1..] == p[1..] + a;
      assert (p + b)[1..] == p[1..] + b;
      BelowCommonPrefix(p[1..], a, b);
    } else {
      assert p + a == a && p + b == b;
    }
  }

  /** Each string with the prefix `p` put in front. */
  function Prefixed(p: string, s: seq<string>): (r: seq<string>)
    ensures |r| == |s|
    ensures forall i :: 0 <= i < |s| ==> r[i] == p + s[i]
  {
    if s == [] then [] else [p + s[0]] + Prefixed(p, s[1..])
  }

  /** Prefixing every string keeps their order, and every result starts
      with the prefix. */
  lemma {:induction false} PrefixedSorted(p: string, s: seq<string>)
    requires Sorted(s)
    ensures Sorted(Prefixed(p, s))
    ensures forall k :: k in Prefixed(p, s) ==> p <= k
  {
    if s != [] {
      PrefixedSorted(p, s[1..]);
      assert p <= p + s[0];
      if |s| >= 2 {
        BelowCommonPrefix(p, s[0], s[1]);
      }
    }
  }

  /** In a sorted sequence the first element is below every element. */
  lemma {:induction false} SortedFirstIsLeast(s: seq<string>, x: string)
    requires Sorted(s) && x in s
    ensures Below(s[0], x)
  {
    if x == s[0] {
      BelowReflexive(x);
    } else {
      SortedFirstIsLeast(s[1..], x);
      BelowTransitive(s[0], s[1], x);
    }
  }

  /** Insertion into a sorted sequence. */
  function Insert(x: string, s: seq<string>): (r: seq<string>)
    requires Sorted(s)
    ensures Sorted(r)
    ensures multiset(r) == multiset(s) + multiset{x}
    ensures r[0] == x || (s != [] && r[0] == s[0])
  {
    if s == [] then [x]
    else if Below(x, s[0]) then SortedCons(x, s); [x] + s
    else
      BelowTotal(x, s[0]);
      var rest := Insert(x, s[1..]);
      assert s == [s[0]] + s[1..];
      SortedCons(s[0], rest);
      [s[0]] + rest
  }

  lemma SortedCons(a: string, r: seq<string>)
    requires Sorted(r) && (r == [] || Below(a, r[0]))
    ensures Sorted([a] + r)
  {
    assert ([a] + r)[1..] == r;
  }

  /** Sorting with `SORT_STRING`: the same strings, in ascending order. */
  function SortStrings(s: seq<string>): (r: seq<string>)
    ensures Sorted(r)
    ensures multiset(r) == multiset(s)
  {
    if s == [] then []
    else
      assert s == [s[0]] + s[1..];
      Insert(s[0], SortStrings(s[1..]))
  }

  /** Sorting has one answer: two sorted sequences with the same elements are
      equal. Hence the sorted keys do not depend on the order they came in. */
  lemma {:induction false} SortedUnique(s: seq<string>, t: seq<string>)
    requires Sorted(s) && Sorted(t) && multiset(s) == multiset(t)
    ensures s == t
  {
    if s == [] {
      assert |t| == |multiset(t)| == 0;
    } else {
      SortedSameHead(s, t);
      assert multiset(s[1..]) == multiset(t[1..]) by {
        assert s == [s[0]] + s[1..] && t == [t[0]] + t[1..];
        assert multiset(s[1..]) == multiset(s) - multiset{s[0]};
        assert multiset(t[1..]) == multiset(t) - multiset{t[0]};
      }
      SortedUnique(s[1..], t[1..]);
      assert s == [s[0]] + s[1..] && t == [t[0]] + t[1..];
    }
  }

  /** Two sorted arrangements of the same non-empty multiset start alike. */
  lemma SortedSameHead(s: seq<string>, t: seq<string>)
    requires Sorted(s) && Sorted(t) && multiset(s) == multiset(t) && s != []
    ensures t != [] && s[0] == t[0]
  {
    assert |t| == |multiset(t)| == |s|;
    assert s[0] in multiset(t) && t[0] in multiset(s);
    SortedFirstIsLeast(s, t[0]);
    SortedFirstIsLeast(t, s[0]);
    BelowAntisymmetric(s[0], t[0]);
  }

  /** PHP's `join`: the parts with the separator between each two. */
  function Join(sep: string, parts: seq<string>): string {
    if parts == [] then ""
    else if |parts| == 1 then parts[0]
    else parts[0] + sep + Join(sep, parts[1..])
  }

  /** Each part followed by the separator. */
  function Terminated(sep: string, parts: seq<string>): string {
    if parts == [] then "" else parts[0] + sep + Terminated(sep, parts[1..])
  }

  /** Joining with a final part puts the separator after every earlier part. */
  lemma {:induction false} JoinWithLast(sep: string, parts: seq<string>, last: string)
    ensures Join(sep, parts + [last]) == Terminated(sep, parts) + last
  {
    if parts == [] {
      assert parts + [last] == [last];
    } else {
      assert (parts + [last])[1..] == parts[1..] + [last];
      JoinWithLast(sep, parts[1..], last);
    }
  }
}
