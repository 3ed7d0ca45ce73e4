/** `paytrail_hmac`: the request signature. The headers whose names start with
    `checkout-` are sorted by name, rendered as `name:value` lines and joined
    with the body by newlines; the result is keyed-hashed with the merchant
    secret. SHA-256 and HMAC are not modelled: the keyed hash is the parameter
    `hmac`, standing for `hash_hmac('sha256', str, secret)`. */
module Signature {
  import opened Tables
  import opened StringOrder

  /** The header-name prefix the pattern `/^checkout-/` matches. */
  const CheckoutPrefix: string := "checkout-"

  predicate IsCheckoutKey(k: string) {
    CheckoutPrefix <= k
  }

  /** `array_filter` of the keys by the pattern, keeping their order. */
  function CheckoutKeys(ks: seq<string>): (r: seq<string>)
    ensures forall k :: k in r <==> k in ks && IsCheckoutKey(k)
    ensures Distinct(ks) ==> Distinct(r)
  {
    if ks == [] then []
    else if IsCheckoutKey(ks[0]) then [ks[0]] + CheckoutKeys(ks[1..])
    else CheckoutKeys(ks[1..])
  }

  /** The value stored under a name known to be present. */
  function ValueOf(params: seq<(string, string)>, k: string): string {
    match Find(params, k)
    case Some(v) => v
    case None => ""
  }

  /** The names that take part in the signature, in the order they are
      signed: exactly the `checkout-` names, each once, ascending. */
  function SignedKeys(params: seq<(string, string)>): (ks: seq<string>)
    ensures Sorted(ks)
    ensures forall k :: k in ks <==> k in KeysOf(params) && IsCheckoutKey(k)
    ensures DistinctKeys(params) ==> Distinct(ks)
  {
    var selected := CheckoutKeys(KeysOf(params));
    var ks := SortStrings(selected);
    assert forall k :: k in ks <==> k in multiset(selected);
    if DistinctKeys(params) then
      DistinctPermutation(selected, ks);
      ks
    else ks
  }

  /** `array_map` rendering each name as `name:value`. */
  function Rows(params: seq<(string, string)>, keys: seq<string>): seq<string> {
    if keys == [] then [] else [keys[0] + ":" + ValueOf(params, keys[0])] + Rows(params, keys[1..])
  }

  /** The rows followed by the body, joined by newlines: the string that is signed. */
  function SignableString(params: seq<(string, string)>, body: string): string {
    Join("\n", Rows(params, SignedKeys(params)) + [body])
  }

  /** The signature: the keyed hash of the signable string. */
  function Sign(hmac: (string, string) -> string, secret: string,
                params: seq<(string, string)>, body: string): string
  {
    hmac(secret, SignableString(params, body))
  }

  /** One `name:value` line per key, each ended by a newline. */
  function HeaderBlock(params: seq<(string, string)>, keys: seq<string>): string {
    if keys == [] then "" else keys[0] + ":" + ValueOf(params, keys[0]) + "\n" + HeaderBlock(params, keys[1..])
  }

  /** The `checkout-` headers as a name-to-value mapping, order forgotten. */
  function SelectedHeaders(params: seq<(string, string)>): map<string, string> {
    map k | k in KeysOf(params) && IsCheckoutKey(k) :: ValueOf(params, k)
  }

  // ---------------------------------------------------------------------
  // Lemmas

  lemma {:induction false} RowsAsBlock(params: seq<(string, string)>, keys: seq<string>)
    ensures Terminated("\n", Rows(params, keys)) == HeaderBlock(params, keys)
  {
    if keys != [] { RowsAsBlock(params, keys[1..]); }
  }

  /** Filtering names that are all `checkout-` names followed by names that
      are none keeps exactly the former. */
  lemma {:induction false} CheckoutKeysSplit(a: seq<string>, b: seq<string>)
    requires forall k :: k in a ==> IsCheckoutKey(k)
    requires forall k :: k in b ==> !IsCheckoutKey(k)
    ensures CheckoutKeys(a + b) == a
  {
    if a == [] {
      assert a + b == b;
      if b != [] {
        CheckoutKeysSplit(a, b[1..]);
        assert a + b[1..] == b[1..];
      }
    } else {
      assert (a + b)[1..] == a[1..] + b;
      CheckoutKeysSplit(a[1..], b);
    }
  }

  /** Headers whose `checkout-` names come first and already in ascending
      order are signed in that order. */
  lemma SignedKeysInOrder(params: seq<(string, string)>, signed: seq<string>, others: seq<string>)
    requires KeysOf(params) == signed + others
    requires Sorted(signed)
    requires forall k :: k in signed ==> IsCheckoutKey(k)
    requires forall k :: k in others ==> !IsCheckoutKey(k)
    ensures SignedKeys(params) == signed
  {
    CheckoutKeysSplit(signed, others);
    SortedUnique(SignedKeys(params), signed);
  }

  /** One `name:value` line per entry, each ended by a newline. */
  function Lines(entries: seq<(string, string)>): string {
    if entries == [] then "" else LineOf(entries[0]) + Lines(entries[1..])
  }

  /** The line `name:value` and its newline. */
  function LineOf(entry: (string, string)): string {
    entry.0 + ":" + entry.1 + "\n"
  }

  /** The lines for stored entries are the lines of those entries. */
  lemma {:induction false} BlockOfStored(params: seq<(string, string)>, entries: seq<(string, string)>)
    requires forall x :: x in entries ==> Find(params, x.0) == Some(x.1)
    ensures HeaderBlock(params, KeysOf(entries)) == Lines(entries)
  {
    if entries != [] {
      assert entries[0] in entries;
      assert KeysOf(entries)[1..] == KeysOf(entries[1..]);
      BlockOfStored(params, entries[1..]);
    }
  }

  /** When the signed names are exactly those of the leading entries, in
      their order, the signed string is their lines followed by the body. */
  lemma SignableOfLeading(params: seq<(string, string)>, lead: seq<(string, string)>,
                          rest: seq<(string, string)>, body: string)
    requires params == lead + rest && DistinctKeys(params)
    requires SignedKeys(params) == KeysOf(lead)
    ensures SignableString(params, body) == Lines(lead) + body
  {
    forall x | x in lead ensures Find(params, x.0) == Some(x.1) {
      assert x in params;
      FindStored(params, x);
    }
    BlockOfStored(params, lead);
    SignableLayout(params, body);
  }

  /** The signed string is: for each `checkout-` header in ascending name
      order, the line `name:value` and a newline; then the body. */
  lemma SignableLayout(params: seq<(string, string)>, body: string)
    ensures SignableString(params, body) == HeaderBlock(params, SignedKeys(params)) + body
  {
    JoinWithLast("\n", Rows(params, SignedKeys(params)), body);
    RowsAsBlock(params, SignedKeys(params));
  }

  /** The body is always the last segment: with no `checkout-` header the
      signed string is the body itself, and with an empty body it ends with
      the newline after the last header line. */
  lemma BodyIsLastSegment(params: seq<(string, string)>, body: string)
    ensures |SignableString(params, body)| >= |body|
    ensures SignableString(params, body)[|SignableString(params, body)| - |body|..] == body
    ensures (forall k :: k in KeysOf(params) ==> !IsCheckoutKey(k)) ==> SignableString(params, body) == body
    ensures body == [] && (exists k :: k in KeysOf(params) && IsCheckoutKey(k)) ==>
              SignableString(params, body) != [] && SignableString(params, body)[|SignableString(params, body)| - 1] == '\n'
  {
    SignableLayout(params, body);
    var ks := SignedKeys(params);
    var block := HeaderBlock(params, ks);
    assert (block + body)[|block + body| - |body|..] == body;
    if ks != [] {
      var line := ks[0] + ":" + ValueOf(params, ks[0]) + "\n";
      assert block == line + HeaderBlock(params, ks[1..]);
      LastOfBlock(params, ks);
    }
  }

  lemma {:induction false} LastOfBlock(params: seq<(string, string)>, keys: seq<string>)
    requires keys != []
    ensures HeaderBlock(params, keys) != []
    ensures HeaderBlock(params, keys)[|HeaderBlock(params, keys)| - 1] == '\n'
  {
    if keys[1..] != [] { LastOfBlock(params, keys[1..]); }
  }

  /** Headers agreeing on the listed names give the same lines. */
  lemma {:induction false} BlockAgrees(p: seq<(string, string)>, q: seq<(string, string)>, keys: seq<string>)
    requires forall k :: k in keys ==> ValueOf(p, k) == ValueOf(q, k)
    ensures HeaderBlock(p, keys) == HeaderBlock(q, keys)
  {
    if keys != [] { BlockAgrees(p, q, keys[1..]); }
  }

  /** The signed string depends on the headers only through the `checkout-`
      names and their values: not on the order they were inserted in, and not
      on any other header. */
  lemma SignableDependsOnSelection(p: seq<(string, string)>, q: seq<(string, string)>, body: string)
    requires DistinctKeys(p) && DistinctKeys(q)
    requires SelectedHeaders(p) == SelectedHeaders(q)
    ensures SignableString(p, body) == SignableString(q, body)
  {
    var kp, kq := SignedKeys(p), SignedKeys(q);
    assert forall k :: k in kp <==> k in SelectedHeaders(p);
    assert forall k :: k in kq <==> k in SelectedHeaders(q);
    DistinctSameElements(kp, kq);
    SortedUnique(kp, kq);
    forall k | k in kp ensures ValueOf(p, k) == ValueOf(q, k) {
      assert SelectedHeaders(p)[k] == SelectedHeaders(q)[k];
    }
    BlockAgrees(p, q, kp);
    SignableLayout(p, body);
    SignableLayout(q, body);
  }

  /** Re-inserting the same headers in another order gives the same signature. */
  lemma InsertionOrderIrrelevant(hmac: (string, string) -> string, secret: string,
                                 p: seq<(string, string)>, q: seq<(string, string)>, body: string)
    requires DistinctKeys(p) && DistinctKeys(q) && multiset(p) == multiset(q)
    ensures SignableString(p, body) == SignableString(q, body)
    ensures Sign(hmac, secret, p, body) == Sign(hmac, secret, q, body)
  {
    forall k ensures k in KeysOf(p) ==> k in KeysOf(q) && ValueOf(p, k) == ValueOf(q, k) {
      FindMember(p, k);
      if k in KeysOf(p) {
        var x := (k, Find(p, k).value);
        assert x in multiset(q);
        KeysOfMember(q, x);
        FindStored(q, x);
      }
    }
    forall k ensures k in KeysOf(q) ==> k in KeysOf(p) {
      FindMember(q, k);
      if k in KeysOf(q) {
        var x := (k, Find(q, k).value);
        assert x in multiset(p);
        KeysOfMember(p, x);
      }
    }
    assert SelectedHeaders(p).Keys == SelectedHeaders(q).Keys;
    SignableDependsOnSelection(p, q, body);
  }

  /** Tables that agree on every name but one non-`checkout-` name select
      the same headers. */
  lemma SameSelection(p: seq<(string, string)>, q: seq<(string, string)>, k: string)
    requires !IsCheckoutKey(k)
    requires forall k' :: k' != k ==> Find(q, k') == Find(p, k')
    ensures SelectedHeaders(p) == SelectedHeaders(q)
  {
    forall k' | IsCheckoutKey(k') ensures k' in KeysOf(p) <==> k' in KeysOf(q) {
      assert Find(q, k') == Find(p, k');
    }
    assert SelectedHeaders(p).Keys == SelectedHeaders(q).Keys;
  }

  /** Setting or removing a header outside the `checkout-` namespace (such as
      `content-type`, `platform-name` or `signature`) leaves the signature
      unchanged. */
  lemma OtherHeadersIgnored(hmac: (string, string) -> string, secret: string,
                            p: seq<(string, string)>, k: string, v: string, body: string)
    requires DistinctKeys(p) && !IsCheckoutKey(k)
    ensures Sign(hmac, secret, Set(p, k, v), body) == Sign(hmac, secret, p, body)
    ensures Sign(hmac, secret, Unset(p, k), body) == Sign(hmac, secret, p, body)
  {
    SetSpec(p, k, v);
    UnsetSpec(p, k);
    var s, u := Set(p, k, v), Unset(p, k);
    forall k' | k' != k ensures Find(s, k') == Find(p, k') {
      FindSet(p, k, v, k');
    }
    forall k' | k' != k ensures Find(u, k') == Find(p, k') {
      FindUnset(p, k, k');
    }
    SubsequenceDistinct(KeysOf(u), KeysOf(p));
    SameSelection(p, s, k);
    SameSelection(p, u, k);
    SignableDependsOnSelection(s, p, body);
    SignableDependsOnSelection(u, p, body);
  }

  /** Different bodies under the same headers give different signed strings:
      the signature covers the body. */
  lemma BodyDetermined(params: seq<(string, string)>, b1: string, b2: string)
    requires SignableString(params, b1) == SignableString(params, b2)
    ensures b1 == b2
  {
    SignableLayout(params, b1);
    SignableLayout(params, b2);
    var block := HeaderBlock(params, SignedKeys(params));
    assert b1 == (block + b1)[|block|..];
    assert b2 == (block + b2)[|block|..];
  }

  /** The worked example: account and nonce headers, empty body. */
  lemma ExampleVector()
    ensures SignableString([("checkout-account", "375917"), ("checkout-nonce", "abc")], "")
            == "checkout-account" + ":" + "375917" + "\n" + "checkout-nonce" + ":" + "abc" + "\n"
  {
    var account, nonce := "checkout-account", "checkout-nonce";
    var p := [(account, "375917"), (nonce, "abc")];
    var block := HeaderBlock(p, [account, nonce]);
    assert SignableString(p, "") == block by {
      ExampleKeys(p, account, nonce);
      SignableLayout(p, "");
      assert block + "" == block;
    }
    assert block == account + ":" + "375917" + "\n" + nonce + ":" + "abc" + "\n" by {
      assert |account| != |nonce|;
      ExampleBlock(p, account, nonce, "375917", "abc");
    }
  }

  lemma ExampleBlock(p: seq<(string, string)>, a: string, n: string, va: string, vn: string)
    requires a != n && p == [(a, va), (n, vn)]
    ensures HeaderBlock(p, [a, n]) == a + ":" + va + "\n" + n + ":" + vn + "\n"
  {
    assert ValueOf(p, a) == va;
    assert p[1..] == [(n, vn)];
    assert Find(p[1..], n) == Some(vn);
    assert Find(p, n) == Some(vn);
    assert ValueOf(p, n) == vn;
    assert [a, n][1..] == [n];
    assert [n][1..] == [];
    assert HeaderBlock(p, [n]) == n + ":" + vn + "\n" + HeaderBlock(p, []);
    assert HeaderBlock(p, [a, n]) == a + ":" + va + "\n" + HeaderBlock(p, [n]);
  }

  lemma ExampleKeys(p: seq<(string, string)>, account: string, nonce: string)
    requires account == "checkout-account" && nonce == "checkout-nonce"
    requires p == [(account, "375917"), (nonce, "abc")]
    ensures SignedKeys(p) == [account, nonce]
  {
    assert account == CheckoutPrefix + "account" && nonce == CheckoutPrefix + "nonce";
    BelowCommonPrefix(CheckoutPrefix, "account", "nonce");
    assert Below("account", "nonce");
    assert Sorted([account, nonce]);
    assert KeysOf(p) == [account, nonce];
    assert IsCheckoutKey(account) && IsCheckoutKey(nonce);
    assert [account, nonce][1..] == [nonce];
    assert CheckoutKeys([nonce]) == [nonce];
    assert CheckoutKeys([account, nonce]) == [account, nonce];
    SortedUnique(SignedKeys(p), [account, nonce]);
  }
}
