/** `paytrail_sanitize_pay` as a function of the payload's property table:
    the value the procedure leaves in the payload, step by step, and what it
    promises about that value. The procedure itself, with its loops, is the
    class `Payloads.Payload`, proved equal to `Sanitized`. */
module Sanitizer {
  import opened Tables
  import opened PhpValues

  /** The property table of a `stdClass` object, in insertion order. */
  type Props = seq<(string, Value)>

  /** `uniqid("order")`: the prefix followed by a time-based suffix. It is
      never empty and never `"0"`. */
  predicate IsUniqid(token: string) {
    "order" <= token
  }

  /** The two optional address properties. */
  const AddressFields: seq<string> := ["invoicingAddress", "deliveryAddress"]

  /** The item properties coerced to integers. */
  const IntFields: seq<string> := ["unitPrice", "units", "vatPercentage"]

  // ---------------------------------------------------------------------
  // Steps before the items

  /** An empty or missing `stamp` is set to the token. */
  function Stamped(ps: Props, token: string): Props {
    if IsEmpty(Get(ps, "stamp")) then Set(ps, "stamp", Str(token)) else ps
  }

  /** An empty or missing `reference` is set to the current stamp. */
  function Referenced(ps: Props): Props {
    if IsEmpty(Get(ps, "reference")) then Set(ps, "reference", Get(ps, "stamp")) else ps
  }

  /** A property replaced by its integer value: a missing property reads as
      null and becomes 0, appended at the end. */
  function CoerceInt(ps: Props, name: string): Props {
    Set(ps, name, Int(IntVal(Get(ps, name))))
  }

  /** An address whose `streetAddress` is empty or missing (or that is not an
      object) is removed. */
  function DropAddressWithoutStreet(ps: Props, name: string): Props {
    if IsEmpty(Prop(Get(ps, name), "streetAddress")) then Unset(ps, name) else ps
  }

  /** The payload after the stamp, reference, amount and address steps. */
  function Prepared(ps: Props, token: string): Props {
    var amounted := CoerceInt(Referenced(Stamped(ps, token)), "amount");
    DropAddressWithoutStreet(DropAddressWithoutStreet(amounted, "invoicingAddress"), "deliveryAddress")
  }

  // ---------------------------------------------------------------------
  // Items

  function KeepNonEmpty(v: Value): Option<Value> {
    if IsEmpty(v) then None else Some(v)
  }

  /** Every empty property removed, the others left in place. */
  function PruneEmpty(ps: Props): Props {
    FilterMap(ps, KeepNonEmpty)
  }

  /** An item with its three integer properties coerced, in that order. */
  function Coerced(ps: Props): Props {
    CoerceInt(CoerceInt(CoerceInt(ps, "unitPrice"), "units"), "vatPercentage")
  }

  /** A kept item: its three integer properties coerced, then its empty
      properties removed. */
  function CleanedItem(ps: Props): Props {
    PruneEmpty(Coerced(ps))
  }

  /** One entry of the payload's `items`: dropped when its `productCode` is empty
      (which it is for anything but an object holding one), cleaned otherwise. */
  function CleanItem(v: Value): (r: Option<Value>)
    ensures r.Some? <==> !IsEmpty(Prop(v, "productCode"))
    ensures r.Some? ==> v.Obj? && r.value == Obj(CleanedItem(v.props))
  {
    match v
    case Obj(ps) => if IsEmpty(Get(ps, "productCode")) then None else Some(Obj(CleanedItem(ps)))
    case _ => None
  }

  /** The items array after the loop over its keys: entries are removed or
      rewritten where they stand, and keys are not renumbered. */
  function CleanItems(es: seq<(Key, Value)>): seq<(Key, Value)> {
    FilterMap(es, CleanItem)
  }

  // ---------------------------------------------------------------------
  // Final pass

  /** One top-level property in the final pass: an object loses its empty
      properties (and is itself kept, since an object is never empty); any
      other empty value is removed. */
  function FinalValue(v: Value): Option<Value> {
    if v.Obj? then Some(Obj(PruneEmpty(v.props)))
    else if IsEmpty(v) then None
    else Some(v)
  }

  function FinalPass(ps: Props): Props {
    FilterMap(ps, FinalValue)
  }

  // ---------------------------------------------------------------------
  // The whole procedure

  /** How `paytrail_sanitize_pay` ends: normally, or with the TypeError that
      `array_keys` raises when `items` is neither empty nor an array. In both
      cases `props` is what the payload holds afterwards. */
  datatype Outcome = Done(props: Props) | ItemsNotArray(props: Props)

  function Sanitized(ps: Props, token: string): Outcome {
    var pre := Prepared(ps, token);
    var items := Get(pre, "items");
    if IsEmpty(items) then Done(FinalPass(pre))
    else if items.Arr? then Done(FinalPass(Set(pre, "items", Arr(CleanItems(items.entries)))))
    else ItemsNotArray(pre)
  }

  // ---------------------------------------------------------------------
  // Reading the result property by property

  /** The stamp after the first step. */
  function StampOf(ps: Props, token: string): Value {
    if IsEmpty(Get(ps, "stamp")) then Str(token) else Get(ps, "stamp")
  }

  /** The reference after the second step. */
  function ReferenceOf(ps: Props, token: string): Value {
    if IsEmpty(Get(ps, "reference")) then StampOf(ps, token) else Get(ps, "reference")
  }

  predicate AddressKept(ps: Props, name: string) {
    !IsEmpty(Prop(Get(ps, name), "streetAddress"))
  }

  lemma FindCoerceInt(ps: Props, name: string, k: string)
    ensures Find(CoerceInt(ps, name), k) == if k == name then Some(Int(IntVal(Get(ps, name)))) else Find(ps, k)
  {
    if k != name { FindSet(ps, name, Int(IntVal(Get(ps, name))), k); }
  }

  lemma FindStamped(ps: Props, token: string, k: string)
    ensures Find(Stamped(ps, token), k) == if k == "stamp" then Some(StampOf(ps, token)) else Find(ps, k)
  {
    if k != "stamp" { FindSet(ps, "stamp", Str(token), k); }
  }

  lemma FindReferenced(ps: Props, token: string, k: string)
    ensures Find(Referenced(Stamped(ps, token)), k)
            == if k == "reference" then Some(ReferenceOf(ps, token)) else Find(Stamped(ps, token), k)
  {
    var s := Stamped(ps, token);
    FindStamped(ps, token, "stamp");
    FindStamped(ps, token, "reference");
    if k != "reference" { FindSet(s, "reference", Get(s, "stamp"), k); }
  }

  lemma FindDropAddress(ps: Props, name: string, k: string)
    ensures Find(DropAddressWithoutStreet(ps, name), k)
            == if k == name && !AddressKept(ps, name) then None else Find(ps, k)
  {
    if k != name { FindUnset(ps, name, k); }
  }

  /** What each property holds once the steps before the items are done. */
  lemma FindPrepared(ps: Props, token: string, k: string)
    ensures Find(Prepared(ps, token), k) ==
      if k == "stamp" then Some(StampOf(ps, token))
      else if k == "reference" then Some(ReferenceOf(ps, token))
      else if k == "amount" then Some(Int(IntVal(Get(ps, "amount"))))
      else if k in AddressFields && !AddressKept(ps, k) then None
      else Find(ps, k)
  {
    var a := CoerceInt(Referenced(Stamped(ps, token)), "amount");
    var i := DropAddressWithoutStreet(a, "invoicingAddress");
    FindAmounted(ps, token, k);
    FindAmounted(ps, token, "invoicingAddress");
    FindAmounted(ps, token, "deliveryAddress");
    FindDropAddress(a, "invoicingAddress", k);
    FindDropAddress(i, "deliveryAddress", k);
    FindDropAddress(a, "invoicingAddress", "deliveryAddress");
  }

  /** What each property holds after the stamp, reference and amount steps. */
  lemma FindAmounted(ps: Props, token: string, k: string)
    ensures Find(CoerceInt(Referenced(Stamped(ps, token)), "amount"), k) ==
      if k == "stamp" then Some(StampOf(ps, token))
      else if k == "reference" then Some(ReferenceOf(ps, token))
      else if k == "amount" then Some(Int(IntVal(Get(ps, "amount"))))
      else Find(ps, k)
  {
    var r := Referenced(Stamped(ps, token));
    FindStamped(ps, token, k);
    FindReferenced(ps, token, k);
    FindCoerceInt(r, "amount", k);
    FindStamped(ps, token, "amount");
    FindReferenced(ps, token, "amount");
  }

  // ---------------------------------------------------------------------
  // Pruning and the final pass

  /** No property of the table is empty. */
  predicate NoEmptyProps(ps: Props) {
    forall x :: x in ps ==> !IsEmpty(x.1)
  }

  /** Pruning leaves no empty property and keeps every other one where it was. */
  lemma PruneEmptySpec(ps: Props)
    ensures NoEmptyProps(PruneEmpty(ps))
    ensures IsSubsequence(KeysOf(PruneEmpty(ps)), KeysOf(ps))
    ensures DistinctKeys(ps) ==>
              forall k :: Find(PruneEmpty(ps), k) == match Find(ps, k) case None => None case Some(v) => KeepNonEmpty(v)
    ensures DistinctKeys(ps) ==> DistinctKeys(PruneEmpty(ps))
  {
    forall x | x in PruneEmpty(ps) ensures !IsEmpty(x.1) {
      FilterMapMembers(ps, KeepNonEmpty, x);
    }
    FilterMapKeys(ps, KeepNonEmpty);
    if DistinctKeys(ps) {
      forall k ensures Find(PruneEmpty(ps), k) == match Find(ps, k) case None => None case Some(v) => KeepNonEmpty(v) {
        FindFilterMap(ps, KeepNonEmpty, k);
      }
    }
  }

  /** Pruning a table without empty properties changes nothing. */
  lemma PruneEmptyIdle(ps: Props)
    requires NoEmptyProps(ps)
    ensures PruneEmpty(ps) == ps
  {
    FilterMapIdentity(ps, KeepNonEmpty);
  }

  /** A top-level value is settled when the final pass would keep it as it is:
      it is not empty, and if it is an object, none of its properties is. */
  predicate Settled(v: Value) {
    !IsEmpty(v) && (v.Obj? ==> NoEmptyProps(v.props))
  }

  /** The final pass removes exactly the empty non-object properties (an
      object-valued property is never removed, however empty it becomes),
      prunes the empty properties of each object, and leaves every
      remaining property settled, in its original place. */
  lemma FinalPassSpec(ps: Props)
    requires DistinctKeys(ps)
    ensures forall k :: Find(FinalPass(ps), k) ==
              match Find(ps, k) case None => None case Some(v) => FinalValue(v)
    ensures forall k :: k in KeysOf(FinalPass(ps)) <==> k in KeysOf(ps) && !IsEmpty(Get(ps, k))
    ensures forall x :: x in FinalPass(ps) ==> Settled(x.1)
    ensures IsSubsequence(KeysOf(FinalPass(ps)), KeysOf(ps)) && DistinctKeys(FinalPass(ps))
  {
    forall k ensures Find(FinalPass(ps), k) == match Find(ps, k) case None => None case Some(v) => FinalValue(v)
             ensures k in KeysOf(FinalPass(ps)) <==> k in KeysOf(ps) && !IsEmpty(Get(ps, k)) {
      FindFilterMap(ps, FinalValue, k);
    }
    forall x | x in FinalPass(ps) ensures Settled(x.1) {
      FilterMapMembers(ps, FinalValue, x);
      var y :| y in ps && y.0 == x.0 && FinalValue(y.1) == Some(x.1);
      if y.1.Obj? { PruneEmptySpec(y.1.props); }
    }
    FilterMapKeys(ps, FinalValue);
  }

  /** The final pass leaves a table of settled values alone. */
  lemma FinalPassIdle(ps: Props)
    requires forall x :: x in ps ==> Settled(x.1)
    ensures FinalPass(ps) == ps
  {
    forall x | x in ps ensures FinalValue(x.1) == Some(x.1) {
      if x.1.Obj? { PruneEmptyIdle(x.1.props); }
    }
    FilterMapIdentity(ps, FinalValue);
  }

  // ---------------------------------------------------------------------
  // Items

  /** A cleaned item's integer property: the coerced value, or nothing when
      it coerces to 0 (a zero price is stripped). */
  function IntField(ps: Props, name: string): Option<Value> {
    if IntVal(Get(ps, name)) == 0 then None else Some(Int(IntVal(Get(ps, name))))
  }

  /** Each property of a cleaned item: `unitPrice`, `units` and
      `vatPercentage` hold their integer value unless it is 0; every other
      property is kept exactly when it is not empty. */
  lemma FindCleanedItem(ps: Props, k: string)
    requires DistinctKeys(ps)
    ensures Find(CleanedItem(ps), k) ==
      if k in IntFields then IntField(ps, k)
      else match Find(ps, k) case None => None case Some(v) => KeepNonEmpty(v)
  {
    CoercedDistinct(ps);
    FindCoerced(ps, k);
    PruneEmptySpec(Coerced(ps));
  }

  lemma CoercedDistinct(ps: Props)
    requires DistinctKeys(ps)
    ensures DistinctKeys(Coerced(ps))
  {
    var a := CoerceInt(ps, "unitPrice");
    var b := CoerceInt(a, "units");
    SetSpec(ps, "unitPrice", Int(IntVal(Get(ps, "unitPrice"))));
    SetSpec(a, "units", Int(IntVal(Get(a, "units"))));
    SetSpec(b, "vatPercentage", Int(IntVal(Get(b, "vatPercentage"))));
  }

  lemma FindCoerced(ps: Props, k: string)
    ensures Find(Coerced(ps), k) == if k in IntFields then Some(Int(IntVal(Get(ps, k)))) else Find(ps, k)
  {
    IntFieldsDistinct();
    IntFieldMember(k);
    FindCoerceThree(ps, "unitPrice", "units", "vatPercentage", k);
  }

  lemma IntFieldMember(k: string)
    ensures k in IntFields <==> k == "unitPrice" || k == "units" || k == "vatPercentage"
  {
    assert IntFields[0] == "unitPrice" && IntFields[1] == "units" && IntFields[2] == "vatPercentage";
  }

  /** Coercing three different names, one after the other. */
  lemma FindCoerceThree(ps: Props, x: string, y: string, z: string, k: string)
    requires x != y && x != z && y != z
    ensures Find(CoerceInt(CoerceInt(CoerceInt(ps, x), y), z), k)
            == if k == x || k == y || k == z then Some(Int(IntVal(Get(ps, k)))) else Find(ps, k)
  {
    var a := CoerceInt(ps, x);
    var b := CoerceInt(a, y);
    FindCoerceInt(ps, x, k);
    FindCoerceInt(a, y, k);
    FindCoerceInt(b, z, k);
    if k == y {
      FindCoerceInt(ps, x, y);
    } else if k == z {
      FindCoerceInt(ps, x, z);
      FindCoerceInt(a, y, z);
    }
  }

  /** The three integer item properties are three different names. */
  lemma IntFieldsDistinct()
    ensures IntFields == ["unitPrice", "units", "vatPercentage"]
    ensures "unitPrice" != "units" && "unitPrice" != "vatPercentage" && "units" != "vatPercentage"
  {
    assert |"unitPrice"| == 9 && |"units"| == 5 && |"vatPercentage"| == 13;
  }

  /** The shape of a cleaned item: no empty property, and the integer
      properties, where present, hold integers. */
  predicate IsCleanItem(ps: Props) {
    NoEmptyProps(ps) && forall f :: f in IntFields && Find(ps, f).Some? ==> Find(ps, f).value.Int?
  }

  lemma CleanedItemIsClean(ps: Props)
    requires DistinctKeys(ps)
    ensures IsCleanItem(CleanedItem(ps))
    ensures DistinctKeys(CleanedItem(ps))
  {
    CoercedDistinct(ps);
    PruneEmptySpec(Coerced(ps));
    forall f | f in IntFields ensures Find(CleanedItem(ps), f).Some? ==> Find(CleanedItem(ps), f).value.Int? {
      FindCleanedItem(ps, f);
    }
  }

  /** Coercing a field of a clean table followed by zeros: a present integer
      stays as it is, a missing one is appended as 0. */
  lemma CoerceCleanField(c: Props, z: Props, f: string) returns (z': Props)
    requires Find(c, f).Some? ==> Find(c, f).value.Int?
    requires f !in KeysOf(z)
    requires forall x :: x in z ==> x.1 == Int(0)
    ensures CoerceInt(c + z, f) == c + z'
    ensures forall x :: x in z' ==> x.1 == Int(0)
    ensures forall k :: k in KeysOf(z') ==> k in KeysOf(z) || k == f
  {
    FindConcat(c, z, f);
    if f in KeysOf(c) {
      var v := Find(c, f).value;
      assert Get(c + z, f) == v;
      SetConcat(c, z, f, Int(IntVal(v)));
      SetSame(c, f, v);
      z' := z;
    } else {
      FindMember(z, f);
      KeysOfConcat(c, z);
      SetAbsent(c + z, f, Int(0));
      z' := z + [(f, Int(0))];
      KeysOfConcat(z, [(f, Int(0))]);
      assert c + z' == c + z + [(f, Int(0))];
    }
  }

  /** Cleaning a clean item changes nothing, so an item object reached twice
      (the same object stored under two keys) ends up the same. */
  lemma CleanedItemIdle(c: Props)
    requires IsCleanItem(c)
    ensures CleanedItem(c) == c
  {
    var z0: Props := [];
    assert c + z0 == c;
    var z1 := CoerceCleanField(c, z0, "unitPrice");
    var z2 := CoerceCleanField(c, z1, "units");
    var z3 := CoerceCleanField(c, z2, "vatPercentage");
    FilterMapConcat(c, z3, KeepNonEmpty);
    PruneEmptyIdle(c);
    FilterMapNone(z3, KeepNonEmpty);
  }

  /** The items loop keeps exactly the entries whose `productCode` is not
      empty, under their original keys and in their original order, and
      leaves each of them a clean item that still has its `productCode`. */
  lemma CleanItemsSpec(es: seq<(Key, Value)>)
    requires WellFormed(Arr(es))
    ensures forall n :: Find(CleanItems(es), n) == match Find(es, n) case None => None case Some(v) => CleanItem(v)
    ensures forall n, v :: Find(es, n) == Some(v) ==> (n in KeysOf(CleanItems(es)) <==> !IsEmpty(Prop(v, "productCode")))
    ensures IsSubsequence(KeysOf(CleanItems(es)), KeysOf(es)) && DistinctKeys(CleanItems(es))
    ensures forall x :: x in CleanItems(es) ==> IsKeptItem(x.1)
  {
    forall n ensures Find(CleanItems(es), n) == match Find(es, n) case None => None case Some(v) => CleanItem(v) {
      FindFilterMap(es, CleanItem, n);
    }
    FilterMapKeys(es, CleanItem);
    forall x | x in CleanItems(es) ensures IsKeptItem(x.1) {
      FilterMapMembers(es, CleanItem, x);
      var y :| y in es && y.0 == x.0 && CleanItem(y.1) == Some(x.1);
      CleanItemKept(y.1);
    }
  }

  lemma CleanItemKept(v: Value)
    requires WellFormed(v) && CleanItem(v).Some?
    ensures IsKeptItem(CleanItem(v).value)
  {
    CleanedItemIsClean(v.props);
    FindCleanedItem(v.props, "productCode");
  }

  /** An entry the items loop leaves behind: an object holding a non-empty
      `productCode`, in clean item shape. */
  predicate IsKeptItem(v: Value) {
    v.Obj? && !IsEmpty(Get(v.props, "productCode")) && IsCleanItem(v.props)
  }

  /** Keys are not renumbered: when the first of two items is dropped, the
      survivor keeps key 1, so the array no longer is a list. */
  lemma ItemKeysKept()
    ensures KeysOf(CleanItems([(IntKey(0), Obj([])), (IntKey(1), Obj([("productCode", Str("A"))]))])) == [IntKey(1)]
  {
    var kept := Obj([("productCode", Str("A"))]);
    var es := [(IntKey(0), Obj([])), (IntKey(1), kept)];
    assert CleanItem(Obj([])) == None;
    assert Get(kept.props, "productCode") == Str("A");
    assert es[1..] == [(IntKey(1), kept)];
  }

  // ---------------------------------------------------------------------
  // The result, property by property

  /** The table the final pass starts from. */
  function AfterItems(ps: Props, token: string): Props {
    var pre := Prepared(ps, token);
    var items := Get(pre, "items");
    if items.Arr? && !IsEmpty(items) then Set(pre, "items", Arr(CleanItems(items.entries))) else pre
  }

  lemma SanitizedIsFinalPass(ps: Props, token: string)
    ensures Sanitized(ps, token).Done? <==> IsEmpty(Get(ps, "items")) || Get(ps, "items").Arr?
    ensures Sanitized(ps, token).Done? ==> Sanitized(ps, token).props == FinalPass(AfterItems(ps, token))
    ensures Sanitized(ps, token).ItemsNotArray? ==> Sanitized(ps, token).props == Prepared(ps, token)
  {
    FindPrepared(ps, token, "items");
  }

  lemma PreparedDistinct(ps: Props, token: string)
    requires DistinctKeys(ps)
    ensures DistinctKeys(Prepared(ps, token)) && DistinctKeys(AfterItems(ps, token))
  {
    var s := Stamped(ps, token);
    assert DistinctKeys(s) by { SetSpec(ps, "stamp", Str(token)); }
    var r := Referenced(s);
    assert DistinctKeys(r) by { SetSpec(s, "reference", Get(s, "stamp")); }
    var a := CoerceInt(r, "amount");
    assert DistinctKeys(a) by { SetSpec(r, "amount", Int(IntVal(Get(r, "amount")))); }
    var i := DropAddressWithoutStreet(a, "invoicingAddress");
    assert DistinctKeys(i) by { UnsetSpec(a, "invoicingAddress"); }
    var pre := Prepared(ps, token);
    assert DistinctKeys(pre) by { UnsetSpec(i, "deliveryAddress"); }
    if Get(pre, "items").Arr? {
      SetSpec(pre, "items", Arr(CleanItems(Get(pre, "items").entries)));
    }
  }

  /** Every property other than `items` reaches the final pass as the steps
      before the items left it. */
  lemma FindAfterItems(ps: Props, token: string, k: string)
    ensures Find(AfterItems(ps, token), k) == if k == "items" then Find(AfterItems(ps, token), k) else Find(Prepared(ps, token), k)
    ensures Find(AfterItems(ps, token), "items") ==
      var items := Get(ps, "items");
      if items.Arr? && !IsEmpty(items) then Some(Arr(CleanItems(items.entries))) else Find(ps, "items")
  {
    var pre := Prepared(ps, token);
    FindPrepared(ps, token, "items");
    if Get(pre, "items").Arr? && k != "items" {
      FindSet(pre, "items", Arr(CleanItems(Get(pre, "items").entries)), k);
    }
  }

  /** Every property but `items` goes through the final pass as the steps
      before the items left it. */
  lemma FindSanitized(ps: Props, token: string, k: string)
    requires DistinctKeys(ps) && Sanitized(ps, token).Done? && k != "items"
    ensures Find(Sanitized(ps, token).props, k) ==
              match Find(Prepared(ps, token), k) case None => None case Some(v) => FinalValue(v)
  {
    FindSanitizedAny(ps, token, k);
    FindAfterItems(ps, token, k);
  }

  /** Every property goes through the final pass as the items step left it. */
  lemma FindSanitizedAny(ps: Props, token: string, k: string)
    requires DistinctKeys(ps) && Sanitized(ps, token).Done?
    ensures Find(Sanitized(ps, token).props, k) ==
              match Find(AfterItems(ps, token), k) case None => None case Some(v) => FinalValue(v)
  {
    SanitizedIsFinalPass(ps, token);
    PreparedDistinct(ps, token);
    FindFilterMap(AfterItems(ps, token), FinalValue, k);
  }

  /** After sanitising, `stamp` is set and not empty: a missing or empty
      stamp becomes the token, a non-empty one is kept (an object losing its
      empty properties, as in the final pass). */
  lemma SanitizedStamp(ps: Props, token: string)
    requires DistinctKeys(ps) && IsUniqid(token) && Sanitized(ps, token).Done?
    ensures var r := Sanitized(ps, token).props;
      && Find(r, "stamp") == FinalValue(StampOf(ps, token))
      && "stamp" in KeysOf(r) && !IsEmpty(Get(r, "stamp"))
      && (IsEmpty(Get(ps, "stamp")) ==> Get(r, "stamp") == Str(token))
      && (!IsEmpty(Get(ps, "stamp")) ==> Some(Get(r, "stamp")) == FinalValue(Get(ps, "stamp")))
  {
    var st := StampOf(ps, token);
    assert Find(Sanitized(ps, token).props, "stamp") == FinalValue(st) by {
      FindSanitized(ps, token, "stamp");
      FindPrepared(ps, token, "stamp");
    }
    StampNotEmpty(ps, token);
    FinalValueSettles(st);
  }

  /** The stamp and the reference the first two steps leave are never empty. */
  lemma StampNotEmpty(ps: Props, token: string)
    requires IsUniqid(token)
    ensures !IsEmpty(StampOf(ps, token)) && !IsEmpty(ReferenceOf(ps, token))
  {
    assert |token| >= 5;
  }

  /** After sanitising, `reference` is set and not empty: a missing or empty
      reference becomes the final stamp, a non-empty one is kept. */
  lemma SanitizedReference(ps: Props, token: string)
    requires DistinctKeys(ps) && IsUniqid(token) && Sanitized(ps, token).Done?
    ensures var r := Sanitized(ps, token).props;
      && "reference" in KeysOf(r) && !IsEmpty(Get(r, "reference"))
      && (IsEmpty(Get(ps, "reference")) ==> Get(r, "reference") == Get(r, "stamp"))
      && (!IsEmpty(Get(ps, "reference")) ==> Some(Get(r, "reference")) == FinalValue(Get(ps, "reference")))
  {
    var rf := ReferenceOf(ps, token);
    SanitizedStamp(ps, token);
    assert Find(Sanitized(ps, token).props, "reference") == FinalValue(rf) by {
      FindSanitized(ps, token, "reference");
      FindPrepared(ps, token, "reference");
    }
    StampNotEmpty(ps, token);
    FinalValueSettles(rf);
  }

  /** The final pass keeps every non-empty value, as a settled value. */
  lemma FinalValueSettles(v: Value)
    ensures FinalValue(v).Some? <==> !IsEmpty(v)
    ensures FinalValue(v).Some? ==> Settled(FinalValue(v).value)
    ensures !v.Obj? && !IsEmpty(v) ==> FinalValue(v) == Some(v)
  {
    if v.Obj? { PruneEmptySpec(v.props); }
  }

  /** `amount` ends as the integer `intval` gives, and is removed when that
      is 0 (a missing amount included). */
  lemma SanitizedAmount(ps: Props, token: string)
    requires DistinctKeys(ps) && Sanitized(ps, token).Done?
    ensures Find(Sanitized(ps, token).props, "amount") == IntField(ps, "amount")
  {
    FindSanitized(ps, token, "amount");
    FindPrepared(ps, token, "amount");
  }

  /** An address is removed exactly when its `streetAddress` is empty or
      missing (or the address is not an object); a kept address is the same
      object without its empty properties, and its `streetAddress` is not empty. */
  lemma SanitizedAddress(ps: Props, token: string, name: string)
    requires WellFormed(Obj(ps)) && name in AddressFields && Sanitized(ps, token).Done?
    ensures var r := Sanitized(ps, token).props;
      && (name in KeysOf(r) <==> AddressKept(ps, name))
      && (AddressKept(ps, name) ==>
            Get(ps, name).Obj? && Get(r, name) == Obj(PruneEmpty(Get(ps, name).props))
            && !IsEmpty(Prop(Get(r, name), "streetAddress")))
  {
    AddressFound(ps, token, name);
    WellFormedGet(ps, name);
    AddressOutcome(Sanitized(ps, token).props, name, Get(ps, name));
  }

  /** An address found in a table exactly when it has a street, and then as
      the final pass leaves it. */
  lemma AddressOutcome(r: Props, name: string, a: Value)
    requires WellFormed(a)
    requires Find(r, name) == if !IsEmpty(Prop(a, "streetAddress")) then FinalValue(a) else None
    ensures name in KeysOf(r) <==> !IsEmpty(Prop(a, "streetAddress"))
    ensures !IsEmpty(Prop(a, "streetAddress")) ==>
              a.Obj? && Get(r, name) == Obj(PruneEmpty(a.props)) && !IsEmpty(Prop(Get(r, name), "streetAddress"))
  {
    if !IsEmpty(Prop(a, "streetAddress")) {
      PruneEmptySpec(a.props);
    }
  }

  lemma AddressFound(ps: Props, token: string, name: string)
    requires DistinctKeys(ps) && name in AddressFields && Sanitized(ps, token).Done?
    ensures Find(Sanitized(ps, token).props, name) == if AddressKept(ps, name) then FinalValue(Get(ps, name)) else None
  {
    FindSanitized(ps, token, name);
    FindPrepared(ps, token, name);
  }

  /** The items: a non-empty `items` that is not an array stops the
      procedure; an empty one is removed; an array becomes the cleaned
      array, removed in its turn when no item survives. */
  lemma SanitizedItems(ps: Props, token: string)
    requires DistinctKeys(ps)
    ensures Sanitized(ps, token).ItemsNotArray? <==> !IsEmpty(Get(ps, "items")) && !Get(ps, "items").Arr?
    ensures Sanitized(ps, token).Done? ==>
      Find(Sanitized(ps, token).props, "items") ==
        var items := Get(ps, "items");
        if IsEmpty(items) || CleanItems(items.entries) == [] then None else Some(Arr(CleanItems(items.entries)))
  {
    SanitizedIsFinalPass(ps, token);
    var items := Get(ps, "items");
    if IsEmpty(items) {
      EmptyItemsRemoved(ps, token);
    } else if items.Arr? {
      ItemsArrayCleaned(ps, token);
    }
  }

  lemma EmptyItemsRemoved(ps: Props, token: string)
    requires DistinctKeys(ps) && IsEmpty(Get(ps, "items"))
    ensures Sanitized(ps, token).Done? && Find(Sanitized(ps, token).props, "items") == None
  {
    var items := Get(ps, "items");
    SanitizedIsFinalPass(ps, token);
    FindSanitizedAny(ps, token, "items");
    FindAfterItems(ps, token, "items");
    assert Find(AfterItems(ps, token), "items") == Find(ps, "items");
    FinalValueSettles(items);
    assert Find(ps, "items").Some? ==> Find(ps, "items").value == items;
  }

  lemma ItemsArrayCleaned(ps: Props, token: string)
    requires DistinctKeys(ps) && Get(ps, "items").Arr? && !IsEmpty(Get(ps, "items"))
    ensures Sanitized(ps, token).Done?
    ensures var cleaned := CleanItems(Get(ps, "items").entries);
      Find(Sanitized(ps, token).props, "items") == if cleaned == [] then None else Some(Arr(cleaned))
  {
    SanitizedIsFinalPass(ps, token);
    FindSanitizedAny(ps, token, "items");
    FindAfterItems(ps, token, "items");
  }

  /** Every other property goes through the final pass only. */
  lemma SanitizedOther(ps: Props, token: string, k: string)
    requires DistinctKeys(ps) && Sanitized(ps, token).Done?
    requires k !in ["stamp", "reference", "amount", "items"] && k !in AddressFields
    ensures Find(Sanitized(ps, token).props, k) == match Find(ps, k) case None => None case Some(v) => FinalValue(v)
  {
    FindSanitized(ps, token, k);
    FindPrepared(ps, token, k);
  }

  // ---------------------------------------------------------------------
  // Sanitised payloads

  /** An address property that is either absent or has a street. */
  predicate AddressSettled(r: Props, name: string) {
    Find(r, name).Some? ==> AddressKept(r, name)
  }

  /** What a sanitised payload looks like: every property settled; `stamp`
      and `reference` set; `amount`, when present, an integer; each address,
      when present, with a street; `items`, when present, an array of kept
      items. */
  predicate IsSanitized(r: Props) {
    && (forall x :: x in r ==> Settled(x.1))
    && !IsEmpty(Get(r, "stamp")) && !IsEmpty(Get(r, "reference"))
    && (Find(r, "amount").Some? ==> Find(r, "amount").value.Int?)
    && AddressSettled(r, "invoicingAddress") && AddressSettled(r, "deliveryAddress")
    && (Find(r, "items").Some? ==>
          Find(r, "items").value.Arr? && forall e :: e in Find(r, "items").value.entries ==> IsKeptItem(e.1))
  }

  /** Whatever the payload, a completed sanitisation yields a sanitised one. */
  lemma SanitizedShape(ps: Props, token: string)
    requires WellFormed(Obj(ps)) && IsUniqid(token) && Sanitized(ps, token).Done?
    ensures IsSanitized(Sanitized(ps, token).props)
  {
    var r := Sanitized(ps, token).props;
    SanitizedIsFinalPass(ps, token);
    PreparedDistinct(ps, token);
    FinalPassSpec(AfterItems(ps, token));
    SanitizedStamp(ps, token);
    SanitizedReference(ps, token);
    SanitizedAmount(ps, token);
    SanitizedAddress(ps, token, "invoicingAddress");
    SanitizedAddress(ps, token, "deliveryAddress");
    SanitizedItems(ps, token);
    var items := Get(ps, "items");
    if items.Arr? {
      FindMember(ps, "items");
      assert WellFormed(items);
      CleanItemsSpec(items.entries);
    }
  }

  /** On a sanitised payload the steps before the items change nothing,
      except that a removed `amount` comes back as 0 at the end. */
  lemma PreparedFixpoint(r: Props, token: string) returns (z: Props)
    requires IsSanitized(r)
    ensures Prepared(r, token) == r + z
    ensures z == [] || z == [("amount", Int(0))]
    ensures forall k :: k != "amount" ==> Find(r + z, k) == Find(r, k)
  {
    assert Referenced(Stamped(r, token)) == r;
    z := AmountRestored(r);
    var a := r + z;
    assert AddressSettled(r, "invoicingAddress") && AddressSettled(r, "deliveryAddress");
    AddressIdle(r, z, "invoicingAddress");
    AddressIdle(r, z, "deliveryAddress");
  }

  /** The amount coercion on a sanitised payload: an integer
      amount stays, a missing one comes back as 0 at the end. */
  lemma AmountRestored(r: Props) returns (z: Props)
    requires Find(r, "amount").Some? ==> Find(r, "amount").value.Int?
    ensures CoerceInt(r, "amount") == r + z
    ensures z == [] || z == [("amount", Int(0))]
    ensures forall k :: k != "amount" ==> Find(r + z, k) == Find(r, k)
  {
    z := if "amount" in KeysOf(r) then [] else [("amount", Int(0))];
    if "amount" in KeysOf(r) {
      SetSame(r, "amount", Find(r, "amount").value);
      assert r + z == r;
    } else {
      SetAbsent(r, "amount", Int(0));
    }
    forall k | k != "amount" ensures Find(r + z, k) == Find(r, k) {
      FindConcat(r, z, k);
    }
  }

  /** The address step leaves a settled address where it is. */
  lemma AddressIdle(r: Props, z: Props, name: string)
    requires name in AddressFields && AddressSettled(r, name)
    requires forall k :: k != "amount" ==> Find(r + z, k) == Find(r, k)
    ensures DropAddressWithoutStreet(r + z, name) == r + z
  {
    assert Find(r + z, name) == Find(r, name);
    UnsetSpec(r + z, name);
  }

  /** The items of a sanitised payload are kept items, which the items loop
      leaves as they are. */
  lemma CleanItemsIdle(es: seq<(Key, Value)>)
    requires forall e :: e in es ==> IsKeptItem(e.1)
    ensures CleanItems(es) == es
  {
    forall e | e in es ensures CleanItem(e.1) == Some(e.1) {
      CleanedItemIdle(e.1.props);
    }
    FilterMapIdentity(es, CleanItem);
  }

  /** On a sanitised payload the items loop changes nothing either. */
  lemma AfterItemsFixpoint(r: Props, token: string) returns (z: Props)
    requires IsSanitized(r)
    ensures AfterItems(r, token) == r + z
    ensures z == [] || z == [("amount", Int(0))]
  {
    z := PreparedFixpoint(r, token);
    var items := Get(r, "items");
    assert Get(r + z, "items") == items;
    if items.Arr? && !IsEmpty(items) {
      CleanItemsIdle(items.entries);
      SetSame(r + z, "items", items);
    }
  }

  /** The final pass over a sanitised payload, followed or not by a zero
      `amount`, gives the payload back. */
  lemma FinalPassFixpoint(r: Props, z: Props)
    requires forall x :: x in r ==> Settled(x.1)
    requires z == [] || z == [("amount", Int(0))]
    ensures FinalPass(r + z) == r
  {
    FilterMapConcat(r, z, FinalValue);
    FinalPassIdle(r);
    assert FinalPass(z) == [];
  }

  /** A sanitised payload is left as it is: `amount`, if it had been
      removed, comes back as 0 and is removed again; nothing else changes. */
  lemma SanitizedFixpoint(r: Props, token: string)
    requires IsSanitized(r)
    ensures Sanitized(r, token) == Done(r)
  {
    var z := AfterItemsFixpoint(r, token);
    FinalPassFixpoint(r, z);
    SanitizedIsFinalPass(r, token);
  }

  /** Sanitising twice is sanitising once, whatever token the second run gets. */
  lemma SanitizeIdempotent(ps: Props, token: string, token': string)
    requires WellFormed(Obj(ps)) && IsUniqid(token) && Sanitized(ps, token).Done?
    ensures Sanitized(Sanitized(ps, token).props, token') == Sanitized(ps, token)
  {
    SanitizedShape(ps, token);
    SanitizedFixpoint(Sanitized(ps, token).props, token');
  }

  // ---------------------------------------------------------------------
  // Well-formedness

  lemma PruneEmptyWellFormed(ps: Props)
    requires WellFormed(Obj(ps))
    ensures WellFormed(Obj(PruneEmpty(ps)))
  {
    PruneEmptySpec(ps);
    forall x | x in PruneEmpty(ps) ensures WellFormed(x.1) {
      FilterMapMembers(ps, KeepNonEmpty, x);
    }
  }

  lemma CleanItemsWellFormed(es: seq<(Key, Value)>)
    requires WellFormed(Arr(es))
    ensures WellFormed(Arr(CleanItems(es)))
  {
    CleanItemsSpec(es);
    forall x | x in CleanItems(es) ensures WellFormed(x.1) {
      FilterMapMembers(es, CleanItem, x);
      var y :| y in es && y.0 == x.0 && CleanItem(y.1) == Some(x.1);
      var p := y.1.props;
      assert WellFormed(y.1);
      var a := CoerceInt(p, "unitPrice");
      var b := CoerceInt(a, "units");
      WellFormedSet(p, "unitPrice", Int(IntVal(Get(p, "unitPrice"))));
      WellFormedSet(a, "units", Int(IntVal(Get(a, "units"))));
      WellFormedSet(b, "vatPercentage", Int(IntVal(Get(b, "vatPercentage"))));
      PruneEmptyWellFormed(CoerceInt(b, "vatPercentage"));
    }
  }

  lemma PreparedWellFormed(ps: Props, token: string)
    requires WellFormed(Obj(ps))
    ensures WellFormed(Obj(Prepared(ps, token)))
  {
    var s := Stamped(ps, token);
    StampedWellFormed(ps, token);
    ReferencedWellFormed(s);
    var a := CoerceInt(Referenced(s), "amount");
    CoerceIntWellFormed(Referenced(s), "amount");
    DropAddressWellFormed(a, "invoicingAddress");
    DropAddressWellFormed(DropAddressWithoutStreet(a, "invoicingAddress"), "deliveryAddress");
  }

  lemma StampedWellFormed(ps: Props, token: string)
    requires WellFormed(Obj(ps))
    ensures WellFormed(Obj(Stamped(ps, token)))
  {
    WellFormedSet(ps, "stamp", Str(token));
  }

  lemma ReferencedWellFormed(ps: Props)
    requires WellFormed(Obj(ps))
    ensures WellFormed(Obj(Referenced(ps)))
  {
    WellFormedGet(ps, "stamp");
    WellFormedSet(ps, "reference", Get(ps, "stamp"));
  }

  lemma CoerceIntWellFormed(ps: Props, name: string)
    requires WellFormed(Obj(ps))
    ensures WellFormed(Obj(CoerceInt(ps, name)))
  {
    WellFormedSet(ps, name, Int(IntVal(Get(ps, name))));
  }

  lemma DropAddressWellFormed(ps: Props, name: string)
    requires WellFormed(Obj(ps))
    ensures WellFormed(Obj(DropAddressWithoutStreet(ps, name)))
  {
    WellFormedUnset(ps, name);
  }

  /** The table the final pass starts from is well formed. */
  lemma AfterItemsWellFormed(ps: Props, token: string)
    requires WellFormed(Obj(ps))
    ensures WellFormed(Obj(AfterItems(ps, token)))
  {
    PreparedWellFormed(ps, token);
    var pre := Prepared(ps, token);
    var items := Get(pre, "items");
    if items.Arr? {
      WellFormedGet(pre, "items");
      CleanItemsWellFormed(items.entries);
      WellFormedSet(pre, "items", Arr(CleanItems(items.entries)));
    }
  }

  /** Sanitising keeps the payload well formed, whichever way it ends. */
  lemma SanitizedWellFormed(ps: Props, token: string)
    requires WellFormed(Obj(ps))
    ensures WellFormed(Obj(Sanitized(ps, token).props))
  {
    SanitizedIsFinalPass(ps, token);
    PreparedWellFormed(ps, token);
    AfterItemsWellFormed(ps, token);
    FinalPassWellFormed(AfterItems(ps, token));
  }

  /** The final pass keeps a well-formed table well formed. */
  lemma FinalPassWellFormed(q: Props)
    requires WellFormed(Obj(q))
    ensures WellFormed(Obj(FinalPass(q)))
  {
    FinalPassSpec(q);
    forall x | x in FinalPass(q) ensures WellFormed(x.1) {
      FilterMapMembers(q, FinalValue, x);
      var y :| y in q && y.0 == x.0 && FinalValue(y.1) == Some(x.1);
      assert WellFormed(y.1);
      if y.1.Obj? { PruneEmptyWellFormed(y.1.props); }
    }
  }
}
