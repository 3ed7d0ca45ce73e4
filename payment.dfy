/** `paytrail_pay` without its transport: the header set that is signed and
    sent, and the classification of the decoded response into a returned
    payment or one of the two library exceptions. */
module Payment {
  import opened Tables
  import opened PhpValues
  import opened StringOrder
  import opened Signature

  // ---------------------------------------------------------------------
  // Exceptions

  /** `PaytrailException` and its subclass `PaytrailStampException`. Each
      keeps the message and the integer code it was constructed with, and the
      decoded response as the data that `getData()` gives back. */
  datatype PaytrailError =
    | PaytrailException(message: string, code: int, data: Value)
    | PaytrailStampException(message: string, code: int, data: Value)

  /** The fixed message of the stamp exception. */
  const StampExistsReport: string := "Stamp already exists"

  // ---------------------------------------------------------------------
  // Request headers

  /** The headers of the payment request before signing, in insertion order.
      `nonce` stands for `uniqid()` and `timestamp` for `date(DATE_ISO8601)`. */
  function RequestHeaders(merchantId: string, nonce: string, timestamp: string): seq<(string, string)> {
    [ ("checkout-account", merchantId),
      ("checkout-algorithm", "sha256"),
      ("checkout-method", "POST"),
      ("checkout-nonce", nonce),
      ("checkout-timestamp", timestamp),
      ("content-type", "application/json; charset=utf-8"),
      ("platform-name", "dingle dong") ]
  }

  /** The header table once the signature of the seven headers, under the
      merchant secret and over the body, is stored as `signature`. */
  function SignedRequestHeaders(hmac: (string, string) -> string, secret: string,
                                merchantId: string, nonce: string, timestamp: string,
                                body: string): (h: seq<(string, string)>)
    ensures DistinctKeys(h)
    ensures h == RequestHeaders(merchantId, nonce, timestamp)
                 + [("signature", Sign(hmac, secret, RequestHeaders(merchantId, nonce, timestamp), body))]
  {
    var h := RequestHeaders(merchantId, nonce, timestamp);
    RequestHeadersDistinct(merchantId, nonce, timestamp);
    SetAbsent(h, "signature", Sign(hmac, secret, h, body));
    SetSpec(h, "signature", Sign(hmac, secret, h, body));
    Set(h, "signature", Sign(hmac, secret, h, body))
  }

  /** The names of the headers that are signed, in the order they are sent. */
  const SignedHeaderNames: seq<string> :=
    ["checkout-account", "checkout-algorithm", "checkout-method", "checkout-nonce", "checkout-timestamp"]

  /** The header names, in insertion order, each once; `signature` is not
      among them until it is added. */
  lemma RequestHeadersDistinct(merchantId: string, nonce: string, timestamp: string)
    ensures KeysOf(RequestHeaders(merchantId, nonce, timestamp))
            == SignedHeaderNames + ["content-type", "platform-name"]
    ensures DistinctKeys(RequestHeaders(merchantId, nonce, timestamp))
    ensures "signature" !in KeysOf(RequestHeaders(merchantId, nonce, timestamp))
  {
    var h := RequestHeaders(merchantId, nonce, timestamp);
    forall i | 0 <= i < |h| ensures KeysOf(h)[i] == h[i].0 {
      KeysOfAt(h, i);
    }
    assert KeysOf(h) == SignedHeaderNames + ["content-type", "platform-name"];
    HeaderNamesDistinct();
  }

  lemma HeaderNamesDistinct()
    ensures Distinct(SignedHeaderNames + ["content-type", "platform-name"])
    ensures "signature" !in SignedHeaderNames + ["content-type", "platform-name"]
  {
    var ks := SignedHeaderNames + ["content-type", "platform-name"];
    assert forall i | 0 <= i < |ks| :: |ks[i]| == [16, 18, 15, 14, 18, 12, 13][i];
    assert ks[1][9] != ks[4][9];
    DistinctByIndex(ks);
  }

  /** The signed names are `checkout-` names in ascending order. */
  lemma SignedHeaderNamesOrdered()
    ensures Sorted(SignedHeaderNames)
    ensures forall k :: k in SignedHeaderNames ==> IsCheckoutKey(k)
  {
    var suffixes := ["account", "algorithm", "method", "nonce", "timestamp"];
    assert SignedHeaderNames == Prefixed(CheckoutPrefix, suffixes) by {
      var signed := SignedHeaderNames;
      assert signed[0] == CheckoutPrefix + suffixes[0];
      assert signed[1] == CheckoutPrefix + suffixes[1];
      assert signed[2] == CheckoutPrefix + suffixes[2];
      assert signed[3] == CheckoutPrefix + suffixes[3];
      assert signed[4] == CheckoutPrefix + suffixes[4];
    }
    SuffixesOrdered();
    PrefixedSorted(CheckoutPrefix, suffixes);
  }

  /** The names after the `checkout-` prefix, pairwise in order. */
  lemma SuffixesOrdered()
    ensures Sorted(["account", "algorithm", "method", "nonce", "timestamp"])
  {
    var s := ["account", "algorithm", "method", "nonce", "timestamp"];
    assert Below(s[0], s[1]) by { assert s[0][0] == s[1][0] && s[0][1] < s[1][1]; }
    assert Below(s[1], s[2]) by { assert s[1][0] < s[2][0]; }
    assert Below(s[2], s[3]) by { assert s[2][0] < s[3][0]; }
    assert Below(s[3], s[4]) by { assert s[3][0] < s[4][0]; }
    assert Sorted(s[3..]);
    assert Sorted(s[2..]);
    assert Sorted(s[1..]);
  }

  /** `content-type` and `platform-name` are outside the signed namespace. */
  lemma UnsignedHeaderNames()
    ensures forall k :: k in ["content-type", "platform-name"] ==> !IsCheckoutKey(k)
  {
    assert !IsCheckoutKey("content-type") by { assert "content-type"[1] != CheckoutPrefix[1]; }
    assert !IsCheckoutKey("platform-name") by { assert "platform-name"[0] != CheckoutPrefix[0]; }
  }

  // ---------------------------------------------------------------------
  // Response classification

  /** The message of the response that signals a reused stamp. */
  const StampExistsMessage: string := "instance.stamp or instance.item.stamp already exists for merchant."

  /** Ways the classification stops with a PHP error instead of a result. */
  datatype Failure =
    | ObjectUsedAsArray   // indexing an object `meta` as an array: "Cannot use object of type stdClass as array"
    | MessageNotString    // a null, array or object `message` passed as the string message: a TypeError

  /** What `paytrail_pay` does with the decoded response. */
  datatype Outcome =
    | Returned(json: Value)
    | Thrown(error: PaytrailError)
    | Failed(failure: Failure)

  /** PHP's conversion of a value to a boolean in a condition. */
  predicate Truthy(v: Value) {
    !IsEmpty(v)
  }

  /** The response is truthy, has a `status` that is set, and that status is
      identical to the string `"error"`. */
  predicate IsErrorResponse(json: Value) {
    Truthy(json) && Prop(json, "status") != Null && Prop(json, "status") == Str("error")
  }

  /** Whether element 0 of `meta` is set, and that element when it is: the
      entry under key 0 of an array when it is not null, the first character
      of a non-empty string, and nothing for any other scalar. An object
      cannot be indexed. */
  function FirstElement(meta: Value): (r: Result<Option<Value>>)
    ensures r.Err? <==> meta.Obj?
    ensures r.Ok? && r.value.Some? ==> r.value.value != Null
    ensures meta.Arr? ==>
              && (r.Ok? && r.value.Some? <==> Find(meta.entries, IntKey(0)).Some? && Find(meta.entries, IntKey(0)).value != Null)
              && (r.Ok? && r.value.Some? ==> Find(meta.entries, IntKey(0)) == Some(r.value.value))
    ensures meta.Str? ==>
              && (r.Ok? && r.value.Some? <==> meta.s != [])
              && (r.Ok? && r.value.Some? ==> r.value.value == Str([meta.s[0]]))
    ensures !meta.Arr? && !meta.Str? && !meta.Obj? ==> r == Ok(None)
  {
    match meta
    case Arr(es) =>
      (match Find(es, IntKey(0))
       case Some(v) => if v != Null then Ok(Some(v)) else Ok(None)
       case None => Ok(None))
    case Str(s) => if s != [] then Ok(Some(Str([s[0]]))) else Ok(None)
    case Obj(_) => Err(ObjectUsedAsArray)
    case _ => Ok(None)
  }

  /** Passing a value to a `string` parameter in coercive mode. */
  function AsStringArgument(v: Value): (r: Option<string>)
    ensures r.None? <==> v.Null? || v.Arr? || v.Obj?
    ensures v.Str? ==> r == Some(v.s)
    ensures v.Bool? ==> r == Some(if v.b then "1" else "")
    ensures v.Int? ==> r == Some(Decimal(v.i as int)) && StrToInt(r.value) == v.i
  {
    match v
    case Str(s) => Some(s)
    case Int(i) => StrToIntDecimal(i); Some(Decimal(i as int))
    case Bool(b) => Some(if b then "1" else "")
    case _ => None
  }

  /** The general exception, with the response's `message` as its message,
      code 0 and the response as data; a `message` that cannot be passed as a
      string stops with a TypeError instead. */
  function GeneralError(json: Value): Outcome {
    match AsStringArgument(Prop(json, "message"))
    case Some(m) => Thrown(PaytrailException(m, 0, json))
    case None => Failed(MessageNotString)
  }

  /** Whether the response names the reused-stamp condition. */
  predicate IsStampExists(json: Value) {
    var meta := Prop(json, "meta");
    meta.Arr? && Find(meta.entries, IntKey(0)) == Some(Str(StampExistsMessage))
  }

  /** The classification at the end of `paytrail_pay`. */
  function Classify(json: Value): (r: Outcome)
    ensures r.Returned? <==> !(json.Obj? && Get(json.props, "status") == Str("error"))
    ensures r.Returned? ==> r.json == json
    ensures r.Thrown? ==> r.error.data == json && r.error.code == 0
    ensures r.Thrown? && r.error.PaytrailStampException? ==> r.error.message == StampExistsReport
    ensures r.Thrown? && r.error.PaytrailStampException? <==>
              IsErrorResponse(json) && IsStampExists(json)
    ensures r.Failed? && r.failure == ObjectUsedAsArray <==>
              IsErrorResponse(json) && Prop(json, "meta").Obj?
  {
    if !IsErrorResponse(json) then Returned(json)
    else
      var meta := Prop(json, "meta");
      if meta == Null then GeneralError(json)
      else match FirstElement(meta)
        case Err(f) => Failed(f)
        case Ok(None) => GeneralError(json)
        case Ok(Some(first)) =>
          if first == Str(StampExistsMessage) then Thrown(PaytrailStampException(StampExistsReport, 0, json))
          else GeneralError(json)
  }

  datatype Result<T> = Ok(value: T) | Err(failure: Failure)

  // ---------------------------------------------------------------------
  // Lemmas

  /** A falsy decoded value (null, false, 0, "", "0", an empty array, which
      is what a failed or empty decode gives) is returned unchanged. */
  lemma FalsyReturned(json: Value)
    requires !Truthy(json)
    ensures Classify(json) == Returned(json)
  {
  }

  /** An error response whose message is a string raises `PaytrailException`
      with that message, unless it names the reused stamp. */
  lemma ErrorWithMessage(json: Value, m: string)
    requires IsErrorResponse(json) && Prop(json, "message") == Str(m)
    requires !IsStampExists(json) && !Prop(json, "meta").Obj?
    ensures Classify(json) == Thrown(PaytrailException(m, 0, json))
  {
  }

  /** A string `meta` never signals the reused stamp: its element 0 is then a
      single character, never the whole message. */
  lemma StringMetaNotStamp(json: Value, s: string)
    requires IsErrorResponse(json) && Prop(json, "meta") == Str(s)
    ensures !(Classify(json).Thrown? && Classify(json).error.PaytrailStampException?)
  {
  }

  /** The documented reused-stamp response. */
  lemma StampExample()
    ensures Classify(Obj([("status", Str("error")),
                          ("meta", Arr([(IntKey(0), Str(StampExistsMessage))]))]))
            == Thrown(PaytrailStampException("Stamp already exists", 0,
                 Obj([("status", Str("error")), ("meta", Arr([(IntKey(0), Str(StampExistsMessage))]))])))
  {
    var json := Obj([("status", Str("error")), ("meta", Arr([(IntKey(0), Str(StampExistsMessage))]))]);
    assert Prop(json, "status") == Str("error");
    assert json.props[1..] == [("meta", Arr([(IntKey(0), Str(StampExistsMessage))]))];
    assert json.props[0].0 != "meta" by { assert |json.props[0].0| != |"meta"|; }
    assert Find(json.props[1..], "meta") == Some(Arr([(IntKey(0), Str(StampExistsMessage))]));
    assert Prop(json, "meta") == Arr([(IntKey(0), Str(StampExistsMessage))]);
  }

  /** An error response whose `message` is missing (null), an array or an
      object stops with a TypeError rather than a `PaytrailException`, unless
      it names the reused stamp or has an object `meta`, which come first. */
  lemma MessageNotStringFails(json: Value)
    requires IsErrorResponse(json) && !IsStampExists(json) && !Prop(json, "meta").Obj?
    requires Prop(json, "message").Null? || Prop(json, "message").Arr? || Prop(json, "message").Obj?
    ensures Classify(json) == Failed(MessageNotString)
  {
  }

  /** The error response with no message at all. */
  lemma MissingMessageExample()
    ensures Classify(Obj([("status", Str("error"))])) == Failed(MessageNotString)
  {
    var json := Obj([("status", Str("error"))]);
    assert Prop(json, "status") == Str("error");
    assert Prop(json, "meta") == Null;
    assert Prop(json, "message") == Null;
  }

  /** An object whose `status` is anything but the string `"error"` (another
      string, another type, or no status at all) is returned as it is. */
  lemma OtherStatusReturned(json: Value)
    requires json.Obj? && Prop(json, "status") != Str("error")
    ensures Classify(json) == Returned(json)
  {
  }

  /** Payment data with status `"ok"`. */
  lemma OkExample()
    ensures Classify(Obj([("status", Str("ok"))])) == Returned(Obj([("status", Str("ok"))]))
  {
    assert Get([("status", Str("ok"))], "status") == Str("ok");
  }

  /** The names of the signed headers, in signing order. */
  lemma RequestSignedKeys(merchantId: string, nonce: string, timestamp: string)
    ensures SignedKeys(RequestHeaders(merchantId, nonce, timestamp)) == SignedHeaderNames
  {
    RequestHeadersDistinct(merchantId, nonce, timestamp);
    SignedHeaderNamesOrdered();
    UnsignedHeaderNames();
    SignedKeysInOrder(RequestHeaders(merchantId, nonce, timestamp), SignedHeaderNames,
                      ["content-type", "platform-name"]);
  }

  /** The string signed for a payment request: the five `checkout-` headers
      in ascending name order, then the body. `content-type` and
      `platform-name` are sent but not signed. */
  lemma RequestSignableString(merchantId: string, nonce: string, timestamp: string, body: string)
    ensures SignableString(RequestHeaders(merchantId, nonce, timestamp), body)
            == LineOf(("checkout-account", merchantId))
             + LineOf(("checkout-algorithm", "sha256"))
             + LineOf(("checkout-method", "POST"))
             + LineOf(("checkout-nonce", nonce))
             + LineOf(("checkout-timestamp", timestamp))
             + body
  {
    var h := RequestHeaders(merchantId, nonce, timestamp);
    assert DistinctKeys(h) by { RequestHeadersDistinct(merchantId, nonce, timestamp); }
    assert h == h[..5] + h[5..];
    assert SignedKeys(h) == KeysOf(h[..5]) by {
      assert KeysOf(h)[..5] == SignedHeaderNames by { RequestHeadersDistinct(merchantId, nonce, timestamp); }
      assert KeysOf(h)[..5] == KeysOf(h[..5]) by { KeysOfConcat(h[..5], h[5..]); }
      RequestSignedKeys(merchantId, nonce, timestamp);
    }
    assert SignableString(h, body) == Lines(h[..5]) + body by {
      SignableOfLeading(h, h[..5], h[5..], body);
    }
    LinesOfFive(h[..5]);
  }

  lemma LinesOfFive(lead: seq<(string, string)>)
    requires |lead| == 5
    ensures Lines(lead) == LineOf(lead[0]) + LineOf(lead[1]) + LineOf(lead[2]) + LineOf(lead[3]) + LineOf(lead[4])
  {
    var l0, l1, l2, l3, l4 := LineOf(lead[0]), LineOf(lead[1]), LineOf(lead[2]), LineOf(lead[3]), LineOf(lead[4]);
    assert Lines(lead[4..]) == l4 by { LinesStep(lead, 4); assert lead[5..] == []; }
    assert Lines(lead[3..]) == l3 + l4 by { LinesStep(lead, 3); }
    assert Lines(lead[2..]) == l2 + (l3 + l4) by { LinesStep(lead, 2); }
    assert Lines(lead[1..]) == l1 + (l2 + (l3 + l4)) by { LinesStep(lead, 1); }
    assert Lines(lead) == l0 + (l1 + (l2 + (l3 + l4))) by { LinesStep(lead, 0); assert lead[0..] == lead; }
    Regroup(l0, l1, l2, l3, l4);
  }

  lemma Regroup(a: string, b: string, c: string, d: string, e: string)
    ensures a + (b + (c + (d + e))) == a + b + c + d + e
  {
  }

  lemma LinesStep(lead: seq<(string, string)>, i: nat)
    requires i < |lead|
    ensures Lines(lead[i..]) == LineOf(lead[i]) + Lines(lead[i+1..])
  {
    assert lead[i..][1..] == lead[i+1..];
  }

  /** The receiver recomputes the signature over the headers it was sent,
      `signature` included, and obtains the signature that was sent:
      adding the `signature` header does not change what is signed. */
  lemma SignatureVerifies(hmac: (string, string) -> string, secret: string,
                          merchantId: string, nonce: string, timestamp: string, body: string)
    ensures var h := SignedRequestHeaders(hmac, secret, merchantId, nonce, timestamp, body);
            Find(h, "signature") == Some(Sign(hmac, secret, h, body))
  {
    var h0 := RequestHeaders(merchantId, nonce, timestamp);
    RequestHeadersDistinct(merchantId, nonce, timestamp);
    var sig := Sign(hmac, secret, h0, body);
    SetAbsent(h0, "signature", sig);
    FindAt(h0, ("signature", sig), []);
    assert h0 + [("signature", sig)] + [] == h0 + [("signature", sig)];
    assert !IsCheckoutKey("signature") by { assert "signature"[1] != CheckoutPrefix[1]; }
    OtherHeadersIgnored(hmac, secret, h0, "signature", sig, body);
  }
}
