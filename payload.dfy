/** `paytrail_sanitize_pay` as the procedure it is: the
    payload object's property table is updated step by step, and the loops
    over an item's properties, over the item keys (last key first) and over
    the payload's properties remove or rewrite entries where they stand. */
module Payloads {
  import opened Tables
  import opened PhpValues
  import opened Sanitizer

  /** The loop that removes every empty property of an object. It visits
      every property once; removing the current one does not disturb the
      rest. */
  method PruneEmptyProps(ps: Props) returns (r: Props)
    requires DistinctKeys(ps)
    ensures r == PruneEmpty(ps)
    ensures NoEmptyProps(r)
  {
    r := ps;
    var i := 0;
    while i < |ps|
      invariant 0 <= i <= |ps|
      invariant r == PruneEmpty(ps[..i]) + ps[i..]
    {
      var (key, value) := ps[i];
      if IsEmpty(value) {
        FilterMapRemoveStep(ps, KeepNonEmpty, i);
        r := Unset(r, key);
      } else {
        FilterMapKeepStep(ps, KeepNonEmpty, i);
      }
      i := i + 1;
    }
    FilterMapDone(ps, KeepNonEmpty);
    PruneEmptySpec(ps);
  }

  /** The items loop, which visits the item keys from the last to the first.
      An entry whose `productCode` is empty is unset; any other is an object
      whose integer properties are coerced and whose empty properties are
      then removed. */
  method CleanItemEntries(es: seq<(Key, Value)>) returns (r: seq<(Key, Value)>)
    requires WellFormed(Arr(es))
    ensures r == CleanItems(es)
  {
    r := es;
    var i := |es|;
    assert es[..i] == es && es[i..] == [];
    while i > 0
      invariant 0 <= i <= |es|
      invariant r == es[..i] + CleanItems(es[i..])
    {
      i := i - 1;
      var n := es[i].0;
      FilterMapBackRead(es, CleanItem, i);
      var item := Find(r, n).value;
      if IsEmpty(Prop(item, "productCode")) {
        FilterMapBackRemoveStep(es, CleanItem, i);
        r := Unset(r, n);
      } else {
        var p := item.props;
        p := CoerceInt(p, "unitPrice");
        p := CoerceInt(p, "units");
        p := CoerceInt(p, "vatPercentage");
        assert es[i] in es;
        CoercedDistinct(item.props);
        p := PruneEmptyProps(p);
        FilterMapBackRewriteStep(es, CleanItem, i, Obj(p));
        r := Set(r, n, Obj(p));
      }
    }
    assert es[..0] == [];
  }

  /** The payload object. */
  class Payload {
    var props: Props

    /** PHP keeps each property name once, at every depth. */
    ghost predicate Valid()
      reads this
    {
      WellFormed(Obj(props))
    }

    constructor (ps: Props)
      requires WellFormed(Obj(ps))
      ensures props == ps && Valid()
    {
      props := ps;
    }

    /** The stamp, reference, amount and address steps. */
    method Prepare(token: string)
      requires Valid()
      modifies this
      ensures props == Prepared(old(props), token)
      ensures Valid()
    {
      PreparedWellFormed(props, token);
      if IsEmpty(Get(props, "stamp")) {
        props := Set(props, "stamp", Str(token));
      }
      if IsEmpty(Get(props, "reference")) {
        props := Set(props, "reference", Get(props, "stamp"));
      }
      props := Set(props, "amount", Int(IntVal(Get(props, "amount"))));
      if IsEmpty(Prop(Get(props, "invoicingAddress"), "streetAddress")) {
        props := Unset(props, "invoicingAddress");
      }
      if IsEmpty(Prop(Get(props, "deliveryAddress"), "streetAddress")) {
        props := Unset(props, "deliveryAddress");
      }
    }

    /** The items step: nothing to do for empty `items`, the loop over the
        keys of an array, and the TypeError of `array_keys` (reported as
        `false`, the table left as it was) for anything else. */
    method CleanItemsProperty() returns (completed: bool)
      requires Valid()
      modifies this
      ensures completed <==> IsEmpty(Get(old(props), "items")) || Get(old(props), "items").Arr?
      ensures props == if completed && !IsEmpty(Get(old(props), "items"))
                       then Set(old(props), "items", Arr(CleanItems(Get(old(props), "items").entries)))
                       else old(props)
      ensures Valid()
    {
      var items := Get(props, "items");
      if IsEmpty(items) {
        return true;
      }
      if !items.Arr? {
        return false;
      }
      WellFormedGet(props, "items");
      CleanItemsWellFormed(items.entries);
      WellFormedSet(props, "items", Arr(CleanItems(items.entries)));
      var cleaned := CleanItemEntries(items.entries);
      props := Set(props, "items", Arr(cleaned));
      completed := true;
    }

    /** The final loop over the payload's properties: each object-valued
        property loses its empty properties, and each empty property is
        removed. The loop runs over the properties present when it starts. */
    method RemoveEmptyProperties()
      requires Valid()
      modifies this
      ensures props == FinalPass(old(props))
      ensures Valid()
    {
      var snapshot := props;
      var i := 0;
      while i < |snapshot|
        invariant 0 <= i <= |snapshot|
        invariant props == FinalPass(snapshot[..i]) + snapshot[i..]
      {
        var (key, value) := snapshot[i];
        assert snapshot[i] in snapshot;
        if value.Obj? {
          assert WellFormed(value);
          var pruned := PruneEmptyProps(value.props);
          FilterMapRewriteStep(snapshot, FinalValue, i, Obj(pruned));
          props := Set(props, key, Obj(pruned));
        } else if IsEmpty(value) {
          FilterMapRemoveStep(snapshot, FinalValue, i);
          props := Unset(props, key);
        } else {
          FilterMapKeepStep(snapshot, FinalValue, i);
        }
        i := i + 1;
      }
      FilterMapDone(snapshot, FinalValue);
      FinalPassWellFormed(snapshot);
    }

    /** The whole procedure on this payload, with `token` the value
        `uniqid("order")` returns. It completes unless `items` is non-empty and not an array,
        where `array_keys` raises a TypeError and the payload keeps the
        changes made so far. */
    method Sanitize(token: string) returns (completed: bool)
      requires Valid() && IsUniqid(token)
      modifies this
      ensures completed <==> Sanitized(old(props), token).Done?
      ensures props == Sanitized(old(props), token).props
      ensures Valid()
      ensures completed ==> IsSanitized(props)
    {
      ghost var ps := props;
      SanitizedIsFinalPass(ps, token);
      SanitizedWellFormed(ps, token);
      PreparedWellFormed(ps, token);
      AfterItemsWellFormed(ps, token);
      FindPrepared(ps, token, "items");
      Prepare(token);
      completed := CleanItemsProperty();
      if !completed {
        return;
      }
      RemoveEmptyProperties();
      SanitizedShape(ps, token);
    }
  }
}
