/** Ordered key/value tables: the shape shared by PHP arrays and by the
    property table of an object. A table is a sequence of
    pairs in insertion order; PHP never stores a key twice, which the
    predicate `DistinctKeys` records. */
module Tables {

  datatype Option<T> = None | Some(value: T)

  predicate Distinct<T(==)>(s: seq<T>) {
    |s| == 0 || (s[0] !in s[1..] && Distinct(s[1..]))
  }

  /** `a` is `b` with some elements left out, the rest in their original order. */
  predicate IsSubsequence<T(==)>(a: seq<T>, b: seq<T>) {
    if a == [] then true
    else if b == [] then false
    else if a[0] == b[0] then IsSubsequence(a[1..], b[1..])
    else IsSubsequence(a, b[1..])
  }

  /** `array_keys`: the keys in insertion order. */
  function KeysOf<K, V>(t: seq<(K, V)>): (ks: seq<K>)
    ensures |ks| == |t|
  {
    if t == [] then [] else [t[0].0] + KeysOf(t[1..])
  }

  predicate DistinctKeys<K(==), V>(t: seq<(K, V)>) {
    Distinct(KeysOf(t))
  }

  /** Reading an entry: the value stored under `k`, if any. */
  function Find<K(==), V>(t: seq<(K, V)>, k: K): (r: Option<V>)
    ensures r.Some? <==> k in KeysOf(t)
  {
    if t == [] then None
    else if t[0].0 == k then Some(t[0].1)
    else Find(t[1..], k)
  }

  /** Assigning to an entry: an existing key keeps its position, a new key
      is appended at the end. */
  function Set<K(==), V>(t: seq<(K, V)>, k: K, v: V): (r: seq<(K, V)>)
    ensures Find(r, k) == Some(v)
  {
    if t == [] then [(k, v)]
    else if t[0].0 == k then [(k, v)] + t[1..]
    else [t[0]] + Set(t[1..], k, v)
  }

  /** `unset` of an entry: the entry goes; every other entry keeps its key and
      its place (nothing is renumbered). */
  function Unset<K(==), V>(t: seq<(K, V)>, k: K): (r: seq<(K, V)>)
    ensures k !in KeysOf(r)
  {
    if t == [] then []
    else if t[0].0 == k then Unset(t[1..], k)
    else [t[0]] + Unset(t[1..], k)
  }

  /** Keeps each entry whose value `f` maps to `Some`, with the new value,
      and drops the rest: the effect of a loop that `unset`s or rewrites each
      entry by looking at its value alone. */
  function FilterMap<K, V>(t: seq<(K, V)>, f: V -> Option<V>): seq<(K, V)>
  {
    if t == [] then []
    else match f(t[0].1)
      case Some(w) => [(t[0].0, w)] + FilterMap(t[1..], f)
      case None => FilterMap(t[1..], f)
  }

  // ---------------------------------------------------------------------
  // Sequences

  lemma {:induction false} SubsequenceMembership<T>(a: seq<T>, b: seq<T>, x: T)
    requires IsSubsequence(a, b)
    ensures x in a ==> x in b
  {
    if a != [] {
      if a[0] == b[0] {
        SubsequenceMembership(a[1..], b[1..], x);
      } else {
        SubsequenceMembership(a, b[1..], x);
      }
    }
  }

  /** A subsequence of the tail of `b` is a subsequence of `b`. */
  lemma {:induction false} SubsequenceWeaken<T>(a: seq<T>, b: seq<T>)
    requires b != [] && IsSubsequence(a, b[1..])
    ensures IsSubsequence(a, b)
    decreases |b|, 0
  {
    if a != [] && a[0] == b[0] {
      SubsequenceTail(a, b[1..]);
    }
  }

  /** Dropping the first element of a subsequence keeps it a subsequence. */
  lemma {:induction false} SubsequenceTail<T>(a: seq<T>, b: seq<T>)
    requires a != [] && IsSubsequence(a, b)
    ensures IsSubsequence(a[1..], b)
    decreases |b|, 1
  {
    if a[0] == b[0] {
      SubsequenceWeaken(a[1..], b);
    } else {
      SubsequenceTail(a, b[1..]);
      SubsequenceWeaken(a[1..], b);
    }
  }

  lemma {:induction false} SubsequenceDistinct<T>(a: seq<T>, b: seq<T>)
    requires IsSubsequence(a, b) && Distinct(b)
    ensures Distinct(a)
  {
    if a != [] {
      if a[0] == b[0] {
        SubsequenceDistinct(a[1..], b[1..]);
        SubsequenceMembership(a[1..], b[1..], a[0]);
      } else {
        SubsequenceDistinct(a, b[1..]);
      }
    }
  }

  lemma {:induction false} DistinctConcat<T>(a: seq<T>, b: seq<T>)
    ensures Distinct(a + b) <==> Distinct(a) && Distinct(b) && (forall x :: x in a ==> x !in b)
  {
    if a != [] {
      assert (a + b)[1..] == a[1..] + b;
      DistinctConcat(a[1..], b);
    } else {
      assert a + b == b;
    }
  }

  /** In a sequence without repetitions every element occurs once. */
  lemma {:induction false} DistinctCount<T>(s: seq<T>, x: T)
    requires Distinct(s)
    ensures multiset(s)[x] == if x in s then 1 else 0
  {
    if s != [] {
      assert s == [s[0]] + s[1..];
      DistinctCount(s[1..], x);
    }
  }

  lemma {:induction false} CountsDistinct<T>(s: seq<T>)
    requires forall x :: multiset(s)[x] <= 1
    ensures Distinct(s)
  {
    if s != [] {
      assert s == [s[0]] + s[1..];
      assert multiset(s) == multiset{s[0]} + multiset(s[1..]);
      assert forall x :: multiset(s[1..])[x] <= multiset(s)[x];
      assert multiset(s[1..])[s[0]] == 0;
      CountsDistinct(s[1..]);
    }
  }

  /** A rearrangement of a sequence without repetitions has none either. */
  lemma DistinctPermutation<T>(a: seq<T>, b: seq<T>)
    requires Distinct(a) && multiset(a) == multiset(b)
    ensures Distinct(b)
  {
    forall x ensures multiset(b)[x] <= 1 {
      DistinctCount(a, x);
    }
    CountsDistinct(b);
  }

  /** Two sequences without repetitions holding the same elements are
      rearrangements of each other. */
  lemma DistinctSameElements<T>(a: seq<T>, b: seq<T>)
    requires Distinct(a) && Distinct(b)
    requires forall x :: x in a <==> x in b
    ensures multiset(a) == multiset(b)
  {
    forall x ensures multiset(a)[x] == multiset(b)[x] {
      DistinctCount(a, x);
      DistinctCount(b, x);
    }
  }

  /** No two positions hold the same element. */
  lemma {:induction false} DistinctByIndex<T>(s: seq<T>)
    requires forall i, j :: 0 <= i < j < |s| ==> s[i] != s[j]
    ensures Distinct(s)
  {
    if s != [] {
      var t := s[1..];
      forall i, j | 0 <= i < j < |t| ensures t[i] != t[j] {
        assert t[i] == s[i + 1] && t[j] == s[j + 1];
      }
      DistinctByIndex(t);
      forall k | 0 <= k < |t| ensures t[k] != s[0] {
        assert t[k] == s[k + 1];
      }
    }
  }

  // ---------------------------------------------------------------------
  // Tables

  lemma {:induction false} KeysOfConcat<K, V>(a: seq<(K, V)>, b: seq<(K, V)>)
    ensures KeysOf(a + b) == KeysOf(a) + KeysOf(b)
  {
    if a != [] {
      assert (a + b)[1..] == a[1..] + b;
      KeysOfConcat(a[1..], b);
    } else {
      assert a + b == b;
    }
  }

  lemma {:induction false} KeysOfAt<K, V>(t: seq<(K, V)>, i: nat)
    requires i < |t|
    ensures KeysOf(t)[i] == t[i].0
  {
    if i > 0 { KeysOfAt(t[1..], i - 1); }
  }

  lemma {:induction false} KeysOfMember<K, V>(t: seq<(K, V)>, x: (K, V))
    requires x in t
    ensures x.0 in KeysOf(t)
  {
    if t[0] != x { KeysOfMember(t[1..], x); }
  }

  /** Splitting a table with distinct keys at position `i`. */
  lemma SplitAt<K, V>(t: seq<(K, V)>, i: nat)
    requires DistinctKeys(t) && i < |t|
    ensures t == t[..i] + [t[i]] + t[i+1..]
    ensures t[i].0 !in KeysOf(t[..i]) && t[i].0 !in KeysOf(t[i+1..])
    ensures DistinctKeys(t[..i]) && DistinctKeys(t[i+1..])
  {
    assert t == t[..i] + ([t[i]] + t[i+1..]);
    KeysOfConcat(t[..i], [t[i]] + t[i+1..]);
    KeysOfConcat([t[i]], t[i+1..]);
    DistinctConcat(KeysOf(t[..i]), KeysOf([t[i]] + t[i+1..]));
    DistinctConcat(KeysOf([t[i]]), KeysOf(t[i+1..]));
  }

  /** What `Find` returns is stored in the table. */
  lemma {:induction false} FindMember<K, V>(t: seq<(K, V)>, k: K)
    ensures Find(t, k).Some? ==> (k, Find(t, k).value) in t
  {
    if t != [] && t[0].0 != k { FindMember(t[1..], k); }
  }

  /** With distinct keys, every stored pair is what `Find` returns. */
  lemma {:induction false} FindStored<K, V>(t: seq<(K, V)>, x: (K, V))
    requires DistinctKeys(t) && x in t
    ensures Find(t, x.0) == Some(x.1)
  {
    if t[0] != x {
      FindStored(t[1..], x);
    }
  }

  lemma {:induction false} FindConcat<K, V>(a: seq<(K, V)>, b: seq<(K, V)>, k: K)
    ensures Find(a + b, k) == if k in KeysOf(a) then Find(a, k) else Find(b, k)
  {
    if a == [] {
      assert a + b == b;
    } else {
      assert (a + b)[1..] == a[1..] + b;
      FindConcat(a[1..], b, k);
    }
  }

  /** Assignment changes the value under `k` and nothing else; a new key
      goes to the end. */
  lemma {:induction false} SetSpec<K, V>(t: seq<(K, V)>, k: K, v: V)
    ensures KeysOf(Set(t, k, v)) == if k in KeysOf(t) then KeysOf(t) else KeysOf(t) + [k]
    ensures forall x :: x in Set(t, k, v) ==> x in t || x == (k, v)
    ensures DistinctKeys(t) ==> DistinctKeys(Set(t, k, v))
  {
    SetKeys(t, k, v);
    SetMembers(t, k, v);
    if k !in KeysOf(t) {
      DistinctConcat(KeysOf(t), [k]);
    }
  }

  lemma {:induction false} SetKeys<K, V>(t: seq<(K, V)>, k: K, v: V)
    ensures KeysOf(Set(t, k, v)) == if k in KeysOf(t) then KeysOf(t) else KeysOf(t) + [k]
  {
    if t != [] {
      var x, rest := t[0], t[1..];
      assert KeysOf(t) == [x.0] + KeysOf(rest);
      if x.0 == k {
        assert Set(t, k, v) == [(k, v)] + rest;
        assert KeysOf([(k, v)] + rest) == [k] + KeysOf(rest);
      } else {
        SetKeys(rest, k, v);
        assert Set(t, k, v) == [x] + Set(rest, k, v);
        assert KeysOf([x] + Set(rest, k, v)) == [x.0] + KeysOf(Set(rest, k, v));
        if k !in KeysOf(rest) {
          Assoc([x.0], KeysOf(rest), [k]);
        }
      }
    }
  }

  lemma {:induction false} SetMembers<K, V>(t: seq<(K, V)>, k: K, v: V)
    ensures forall x :: x in Set(t, k, v) ==> x in t || x == (k, v)
  {
    if t != [] && t[0].0 != k {
      SetMembers(t[1..], k, v);
    }
  }

  lemma {:induction false} FindSet<K, V>(t: seq<(K, V)>, k: K, v: V, k': K)
    requires k' != k
    ensures Find(Set(t, k, v), k') == Find(t, k')
  {
    if t != [] && t[0].0 != k {
      FindSet(t[1..], k, v, k');
    }
  }

  /** Removal keeps every other key, its value and its place. */
  lemma {:induction false} UnsetSpec<K, V>(t: seq<(K, V)>, k: K)
    ensures IsSubsequence(KeysOf(Unset(t, k)), KeysOf(t))
    ensures forall x :: x in Unset(t, k) ==> x in t
    ensures k !in KeysOf(t) ==> Unset(t, k) == t
    ensures DistinctKeys(t) ==> DistinctKeys(Unset(t, k))
  {
    if t != [] {
      UnsetSpec(t[1..], k);
      if t[0].0 == k {
        SubsequenceWeaken(KeysOf(Unset(t[1..], k)), KeysOf(t));
      }
    }
    if DistinctKeys(t) {
      SubsequenceDistinct(KeysOf(Unset(t, k)), KeysOf(t));
    }
  }

  lemma {:induction false} FindUnset<K, V>(t: seq<(K, V)>, k: K, k': K)
    requires k' != k
    ensures Find(Unset(t, k), k') == Find(t, k')
  {
    if t != [] {
      FindUnset(t[1..], k, k');
    }
  }

  lemma SetConcat<K, V>(a: seq<(K, V)>, b: seq<(K, V)>, k: K, v: V)
    ensures Set(a + b, k, v) == if k in KeysOf(a) then Set(a, k, v) + b else a + Set(b, k, v)
  {
    if k in KeysOf(a) { SetConcatFront(a, b, k, v); } else { SetConcatBack(a, b, k, v); }
  }

  lemma {:induction false} SetConcatFront<K, V>(a: seq<(K, V)>, b: seq<(K, V)>, k: K, v: V)
    requires k in KeysOf(a)
    ensures Set(a + b, k, v) == Set(a, k, v) + b
  {
    var x, rest := a[0], a[1..];
    assert KeysOf(a) == [x.0] + KeysOf(rest);
    assert (a + b)[0] == x && (a + b)[1..] == rest + b;
    if x.0 == k {
      assert Set(a + b, k, v) == [(k, v)] + (rest + b);
      assert Set(a, k, v) == [(k, v)] + rest;
      Assoc([(k, v)], rest, b);
    } else {
      assert k in KeysOf(rest);
      SetConcatFront(rest, b, k, v);
      assert Set(a + b, k, v) == [x] + Set(rest + b, k, v);
      assert Set(a, k, v) == [x] + Set(rest, k, v);
      Assoc([x], Set(rest, k, v), b);
    }
  }

  lemma {:induction false} SetConcatBack<K, V>(a: seq<(K, V)>, b: seq<(K, V)>, k: K, v: V)
    requires k !in KeysOf(a)
    ensures Set(a + b, k, v) == a + Set(b, k, v)
  {
    if a == [] {
      assert a + b == b;
    } else {
      var x, rest := a[0], a[1..];
      assert KeysOf(a) == [x.0] + KeysOf(rest);
      assert (a + b)[0] == x && (a + b)[1..] == rest + b;
      SetConcatBack(rest, b, k, v);
      assert Set(a + b, k, v) == [x] + Set(rest + b, k, v);
      assert a == [x] + rest;
      Assoc([x], rest, Set(b, k, v));
    }
  }

  lemma {:induction false} UnsetConcat<K, V>(a: seq<(K, V)>, b: seq<(K, V)>, k: K)
    ensures Unset(a + b, k) == Unset(a, k) + Unset(b, k)
  {
    if a == [] {
      assert a + b == b;
    } else {
      assert (a + b)[1..] == a[1..] + b;
      UnsetConcat(a[1..], b, k);
    }
  }

  /** Assigning a key the value it already holds changes nothing. */
  lemma {:induction false} SetSame<K, V>(t: seq<(K, V)>, k: K, v: V)
    requires Find(t, k) == Some(v)
    ensures Set(t, k, v) == t
  {
    if t[0].0 != k { SetSame(t[1..], k, v); }
  }

  /** Assigning a new key appends it. */
  lemma {:induction false} SetAbsent<K, V>(t: seq<(K, V)>, k: K, v: V)
    requires k !in KeysOf(t)
    ensures Set(t, k, v) == t + [(k, v)]
  {
    if t != [] {
      assert (t + [(k, v)])[1..] == t[1..] + [(k, v)];
      SetAbsent(t[1..], k, v);
    }
  }

  /** Assigning the key of an inner entry rewrites that entry only. */
  lemma SetAt<K, V>(a: seq<(K, V)>, x: (K, V), b: seq<(K, V)>, v: V)
    requires x.0 !in KeysOf(a)
    ensures Set(a + [x] + b, x.0, v) == a + [(x.0, v)] + b
  {
    assert a + [x] + b == a + ([x] + b);
    assert a + [(x.0, v)] + b == a + ([(x.0, v)] + b);
    SetConcat(a, [x] + b, x.0, v);
  }

  /** Removing the key of an inner entry removes that entry only. */
  lemma UnsetAt<K, V>(a: seq<(K, V)>, x: (K, V), b: seq<(K, V)>)
    requires x.0 !in KeysOf(a) && x.0 !in KeysOf(b)
    ensures Unset(a + [x] + b, x.0) == a + b
  {
    UnsetConcat(a + [x], b, x.0);
    UnsetConcat(a, [x], x.0);
    UnsetSpec(a, x.0);
    UnsetSpec(b, x.0);
  }

  lemma FindAt<K, V>(a: seq<(K, V)>, x: (K, V), b: seq<(K, V)>)
    requires x.0 !in KeysOf(a)
    ensures Find(a + [x] + b, x.0) == Some(x.1)
  {
    assert a + [x] + b == a + ([x] + b);
    FindConcat(a, [x] + b, x.0);
  }

  // ---------------------------------------------------------------------
  // FilterMap

  /** `FilterMap` keeps keys in their order and invents none. */
  lemma {:induction false} FilterMapKeys<K, V>(t: seq<(K, V)>, f: V -> Option<V>)
    ensures IsSubsequence(KeysOf(FilterMap(t, f)), KeysOf(t))
    ensures DistinctKeys(t) ==> DistinctKeys(FilterMap(t, f))
  {
    if t != [] {
      FilterMapKeys(t[1..], f);
      if f(t[0].1).None? {
        SubsequenceWeaken(KeysOf(FilterMap(t[1..], f)), KeysOf(t));
      }
    }
    if DistinctKeys(t) {
      SubsequenceDistinct(KeysOf(FilterMap(t, f)), KeysOf(t));
    }
  }

  lemma {:induction false} FilterMapConcat<K, V>(a: seq<(K, V)>, b: seq<(K, V)>, f: V -> Option<V>)
    ensures FilterMap(a + b, f) == FilterMap(a, f) + FilterMap(b, f)
  {
    if a == [] {
      assert a + b == b;
    } else {
      assert (a + b)[1..] == a[1..] + b;
      FilterMapConcat(a[1..], b, f);
    }
  }

  /** Over a table with distinct keys, `FilterMap` acts key by key. */
  lemma {:induction false} FindFilterMap<K, V>(t: seq<(K, V)>, f: V -> Option<V>, k: K)
    requires DistinctKeys(t)
    ensures Find(FilterMap(t, f), k) == match Find(t, k) case None => None case Some(v) => f(v)
  {
    if t != [] {
      FindFilterMap(t[1..], f, k);
      FilterMapKeys(t[1..], f);
      SubsequenceMembership(KeysOf(FilterMap(t[1..], f)), KeysOf(t[1..]), k);
    }
  }

  lemma {:induction false} FilterMapMembers<K, V>(t: seq<(K, V)>, f: V -> Option<V>, x: (K, V))
    requires x in FilterMap(t, f)
    ensures exists y :: y in t && y.0 == x.0 && f(y.1) == Some(x.1)
  {
    var r := FilterMap(t, f);
    if f(t[0].1).Some? && x == r[0] {
      assert t[0] in t;
    } else {
      FilterMapMembers(t[1..], f, x);
      var y :| y in t[1..] && y.0 == x.0 && f(y.1) == Some(x.1);
      assert y in t;
    }
  }

  lemma {:induction false} FilterMapIdentity<K, V>(t: seq<(K, V)>, f: V -> Option<V>)
    requires forall x :: x in t ==> f(x.1) == Some(x.1)
    ensures FilterMap(t, f) == t
  {
    if t != [] {
      assert t[0] in t;
      FilterMapIdentity(t[1..], f);
    }
  }

  lemma {:induction false} FilterMapNone<K, V>(t: seq<(K, V)>, f: V -> Option<V>)
    requires forall x :: x in t ==> f(x.1) == None
    ensures FilterMap(t, f) == []
  {
    if t != [] {
      assert t[0] in t;
      FilterMapNone(t[1..], f);
    }
  }

  /** `FilterMap` of a single entry. */
  function FilterMapOne<K, V>(x: (K, V), f: V -> Option<V>): seq<(K, V)> {
    match f(x.1) case None => [] case Some(v) => [(x.0, v)]
  }

  /** One step of a front-to-back loop that rewrites or removes the entries
      of `t` where they stand: the entries before `i` are done, the rest are
      untouched, and entry `i`'s key occurs nowhere else. */
  lemma FilterMapStep<K, V>(t: seq<(K, V)>, f: V -> Option<V>, i: nat)
    requires DistinctKeys(t) && i < |t|
    ensures FilterMap(t[..i], f) + t[i..] == FilterMap(t[..i], f) + [t[i]] + t[i+1..]
    ensures t[i].0 !in KeysOf(FilterMap(t[..i], f)) && t[i].0 !in KeysOf(t[i+1..])
    ensures FilterMap(t[..i+1], f) == FilterMap(t[..i], f) + FilterMapOne(t[i], f)
  {
    SplitAt(t, i);
    FilterMapKeys(t[..i], f);
    SubsequenceMembership(KeysOf(FilterMap(t[..i], f)), KeysOf(t[..i]), t[i].0);
    assert t[i..] == [t[i]] + t[i+1..];
    Assoc(FilterMap(t[..i], f), [t[i]], t[i+1..]);
    assert t[..i+1] == t[..i] + [t[i]];
    FilterMapConcat(t[..i], [t[i]], f);
    FilterMapSingle(t[i], f);
  }

  lemma FilterMapSingle<K, V>(x: (K, V), f: V -> Option<V>)
    ensures FilterMap([x], f) == FilterMapOne(x, f)
  {
    assert [x][1..] == [];
  }

  lemma Assoc<T>(a: seq<T>, b: seq<T>, c: seq<T>)
    ensures a + (b + c) == a + b + c
  {
  }

  /** One step of a back-to-front loop doing the same. */
  lemma FilterMapBackStep<K, V>(t: seq<(K, V)>, f: V -> Option<V>, i: nat)
    requires DistinctKeys(t) && i < |t|
    ensures t[..i+1] + FilterMap(t[i+1..], f) == t[..i] + [t[i]] + FilterMap(t[i+1..], f)
    ensures t[i].0 !in KeysOf(t[..i]) && t[i].0 !in KeysOf(FilterMap(t[i+1..], f))
    ensures FilterMap(t[i..], f) == FilterMapOne(t[i], f) + FilterMap(t[i+1..], f)
  {
    SplitAt(t, i);
    FilterMapKeys(t[i+1..], f);
    SubsequenceMembership(KeysOf(FilterMap(t[i+1..], f)), KeysOf(t[i+1..]), t[i].0);
    assert t[..i+1] == t[..i] + [t[i]];
    assert t[i..] == [t[i]] + t[i+1..];
    FilterMapConcat([t[i]], t[i+1..], f);
    FilterMapSingle(t[i], f);
  }

  /** A front-to-back loop step that removes entry `i`. */
  lemma FilterMapRemoveStep<K, V>(t: seq<(K, V)>, f: V -> Option<V>, i: nat)
    requires DistinctKeys(t) && i < |t| && f(t[i].1).None?
    ensures Unset(FilterMap(t[..i], f) + t[i..], t[i].0) == FilterMap(t[..i+1], f) + t[i+1..]
  {
    FilterMapStep(t, f, i);
    UnsetAt(FilterMap(t[..i], f), t[i], t[i+1..]);
  }

  /** A front-to-back loop step that rewrites entry `i` to `v`. */
  lemma FilterMapRewriteStep<K, V>(t: seq<(K, V)>, f: V -> Option<V>, i: nat, v: V)
    requires DistinctKeys(t) && i < |t| && f(t[i].1) == Some(v)
    ensures Set(FilterMap(t[..i], f) + t[i..], t[i].0, v) == FilterMap(t[..i+1], f) + t[i+1..]
  {
    FilterMapStep(t, f, i);
    SetAt(FilterMap(t[..i], f), t[i], t[i+1..], v);
  }

  /** A front-to-back loop step that leaves entry `i` as it is. */
  lemma FilterMapKeepStep<K, V>(t: seq<(K, V)>, f: V -> Option<V>, i: nat)
    requires DistinctKeys(t) && i < |t| && f(t[i].1) == Some(t[i].1)
    ensures FilterMap(t[..i], f) + t[i..] == FilterMap(t[..i+1], f) + t[i+1..]
  {
    FilterMapStep(t, f, i);
  }

  /** A front-to-back loop over all of `t` ends with `FilterMap(t, f)`. */
  lemma FilterMapDone<K, V>(t: seq<(K, V)>, f: V -> Option<V>)
    ensures FilterMap(t[..|t|], f) + t[|t|..] == FilterMap(t, f)
  {
    assert t[..|t|] == t;
    assert t[|t|..] == [];
  }

  /** In a back-to-front loop, entry `i` is still in place when it is reached. */
  lemma FilterMapBackRead<K, V>(t: seq<(K, V)>, f: V -> Option<V>, i: nat)
    requires DistinctKeys(t) && i < |t|
    ensures Find(t[..i+1] + FilterMap(t[i+1..], f), t[i].0) == Some(t[i].1)
  {
    FilterMapBackStep(t, f, i);
    FindAt(t[..i], t[i], FilterMap(t[i+1..], f));
  }

  /** A back-to-front loop step that removes entry `i`. */
  lemma FilterMapBackRemoveStep<K, V>(t: seq<(K, V)>, f: V -> Option<V>, i: nat)
    requires DistinctKeys(t) && i < |t| && f(t[i].1).None?
    ensures Unset(t[..i+1] + FilterMap(t[i+1..], f), t[i].0) == t[..i] + FilterMap(t[i..], f)
  {
    FilterMapBackStep(t, f, i);
    UnsetAt(t[..i], t[i], FilterMap(t[i+1..], f));
  }

  /** A back-to-front loop step that rewrites entry `i` to `v`. */
  lemma FilterMapBackRewriteStep<K, V>(t: seq<(K, V)>, f: V -> Option<V>, i: nat, v: V)
    requires DistinctKeys(t) && i < |t| && f(t[i].1) == Some(v)
    ensures Set(t[..i+1] + FilterMap(t[i+1..], f), t[i].0, v) == t[..i] + FilterMap(t[i..], f)
  {
    FilterMapBackStep(t, f, i);
    SetAt(t[..i], t[i], FilterMap(t[i+1..], f), v);
  }
}
