# Paytrail without SDK: a Dafny model of `lib.php`

This project models `lib.php` of the small PHP client library for the Paytrail
payment gateway. The library works without the vendor SDK. The model covers four parts:

- **The request signature.** `paytrail_hmac` keeps the header names that start
  with `checkout-` and sorts them in byte order. It renders each as
  `name:value`, joins those lines and the body with newlines, and keyed-hashes
  the result with the merchant secret. In the model this is the module
  `Signature`, with `StringOrder` providing the `strcmp` order, the sort and
  `join`.
- **The payload sanitiser.** `paytrail_sanitize_pay` normalises the payment
  request object in place:
  - it defaults `stamp` and `reference`;
  - it coerces `amount` to an integer;
  - it drops addresses that have no street;
  - it removes items with no `productCode`;
  - on each kept item it coerces the three integer fields and removes the empty fields;
  - a last pass removes the empty top-level fields.

  The module `Sanitizer` states what the procedure leaves behind, as functions
  on the object's property table, and proves what that result looks like. The
  module `Payloads` holds the procedure itself: a class `Payload` whose
  `props` field is updated by methods with the source's loops. Each method is
  proved equal to the corresponding `Sanitizer` function.
- **The header set and the response classification** of `paytrail_pay`, in the
  module `Payment`. This covers the seven request headers, the `signature`
  header added after signing, the two exception classes, and the three-way
  classification of the decoded response: it is returned, or
  `PaytrailStampException` is thrown, or `PaytrailException` is thrown.
- **The PHP values** these functions handle (`PhpValues`), and ordered
  key/value tables (`Tables`). PHP arrays and object property tables share one
  model:
  - insertion order is kept;
  - assigning to an existing key keeps its place;
  - assigning to a new key appends it;
  - `unset` never renumbers.

  `IsEmpty` is PHP's `empty()`: null, false, 0, `""`, `"0"` and the empty array
  are empty, and an object never is. `IntVal` is `intval`/`(int)` for null,
  booleans, integers, arrays and objects, and for strings read as leading
  whitespace, an optional sign and the leading digits, saturated to the
  64-bit range; floats, and strings in exponent form, are outside it.

In the final pass (`lib.php:99-110`) an object-valued property is never
removed, however empty it becomes, because `empty()` is false for every
object. `Sanitizer.FinalValue` keeps it and `Sanitizer.FinalPassSpec` states
it. Pruning goes one level deep only: the properties of an object inside a
top-level object are not pruned.

## Model

| member | source | states |
|---|---|---|
| Signature.CheckoutKeys | lib.php:40-42 | The filtered names are exactly the given names that start with `checkout-`, each once if the input has no duplicates |
| Signature.SignedKeys | lib.php:40-43 | The signed names are sorted in byte order, are exactly the table's `checkout-` names, and are distinct when the table's keys are |
| StringOrder.SortStrings | lib.php:43 | `sort(..., SORT_STRING)` returns a sorted permutation of its input |
| StringOrder.SortedUnique | lib.php:43 | Two sorted sequences with the same elements are equal, so the sorted names do not depend on input order |
| StringOrder.Insert | lib.php:43 | Inserting into a sorted sequence keeps it sorted and adds exactly that one element |
| StringOrder.JoinWithLast | lib.php:50 | `join` with a last part ends every earlier part with the separator, followed by the last part |
| Signature.SignableString | lib.php:40-50 | Definition: the signed names' rows followed by the body, joined by newlines; `SignableLayout` and the lemmas below state its properties |
| Signature.Sign | lib.php:51 | Definition: the keyed hash of the signed string under the secret |
| Signature.SignableLayout | lib.php:44-50 | The signed string is one `name:value` line plus a newline per `checkout-` header in ascending order, followed by the body |
| Signature.BodyIsLastSegment | lib.php:50 | The body is always the final segment; with no `checkout-` header the string is the body; with an empty body and some `checkout-` header it ends in a newline |
| Signature.BodyDetermined | lib.php:50 | Two bodies that give the same signed string under the same headers are equal |
| Signature.SignableDependsOnSelection | lib.php:40-50 | Two header tables with the same `checkout-` names and values give the same signed string |
| Signature.InsertionOrderIrrelevant | lib.php:43-51 | The same headers inserted in another order give the same signed string and the same signature |
| Signature.OtherHeadersIgnored | lib.php:40-51 | Setting or removing any header outside the `checkout-` namespace leaves the signature unchanged |
| Signature.SignedKeysInOrder | lib.php:40-43 | When the `checkout-` names come first, already sorted, they are signed in that order |
| Signature.ExampleVector | lib.php:38-52 | For account `375917` and nonce `abc` with an empty body, the signed string is the two lines `checkout-account:375917` and `checkout-nonce:abc`, each ending in a newline |
| Payment.RequestHeaders | lib.php:126-135 | Definition: the seven request headers in insertion order, with the nonce and timestamp as inputs |
| Payment.RequestHeadersDistinct | lib.php:126-135 | The header names are the five `checkout-` names followed by `content-type` and `platform-name`, each once; `signature` is not among them |
| Payment.SignedHeaderNamesOrdered | lib.php:128-132 | The five signed names are `checkout-` names already in ascending byte order |
| Payment.UnsignedHeaderNames | lib.php:133-134 | `content-type` and `platform-name` are outside the signed namespace |
| Payment.SignedRequestHeaders | lib.php:126-136 | The headers sent are the seven request headers followed by a new last header `signature`, holding the signature of those seven; the names stay distinct |
| Payment.RequestSignedKeys | lib.php:126-136 | The headers signed for a payment are the five `checkout-` headers, in insertion order |
| Payment.RequestSignableString | lib.php:126-136 | The signed string of a payment request is its lines for account, algorithm `sha256`, method `POST`, nonce and timestamp, then the body |
| Payment.SignatureVerifies | lib.php:136 | Re-signing the headers as sent, `signature` included, gives the `signature` header's value |
| Payment.FirstElement | lib.php:154-155 | Indexing `meta` fails exactly on an object. For an array, an element is reported exactly when key 0 holds a non-null value, and it is that value. For a string, an element is reported exactly when the string is not empty, and it is its first character. Any other scalar reports none |
| Payment.AsStringArgument | lib.php:24 | Passing a value as the `string` message fails exactly for null, arrays and objects. A string passes unchanged, `true` as `"1"`, `false` as `""`, and an integer as its decimal rendering, which reads back as the integer |
| PhpValues.StrToIntDecimal | lib.php:160 | An integer message rendered as a decimal string reads back, under `intval`, as the same integer |
| PhpValues.StrToIntDigits | lib.php:70 | `intval` of a run of digits, with or without a minus sign, is its decimal value, saturated to 64 bits |
| Payment.IsErrorResponse | lib.php:152 | Definition: the response is truthy and its `status` is set and identical to `"error"` |
| Payment.IsStampExists | lib.php:154-156 | Definition: `meta` is an array whose element 0 is the reused-stamp message |
| Payment.GeneralError | lib.php:160 | Definition: the general exception with the response's message, code 0 and the response, or the TypeError when the message cannot be passed as a string |
| Payment.Classify | lib.php:151-162 | The response is returned unchanged exactly when it is not an object whose `status` is `"error"`. An exception carries the response and code 0, and the stamp exception the message "Stamp already exists". The stamp exception is thrown exactly for an error response whose `meta[0]` is the reused-stamp message. The call fails with the object-used-as-array error exactly for an error response whose `meta` is an object |
| Payment.FalsyReturned | lib.php:152 | A falsy decoded value is returned unchanged |
| Payment.ErrorWithMessage | lib.php:160 | An error response with a string message and no reused-stamp `meta` throws `PaytrailException` with that message, code 0 and the response |
| Payment.StringMetaNotStamp | lib.php:154-156 | A string `meta` never gives the stamp exception, because its element 0 is then a single character |
| Payment.StampExample | lib.php:153-158 | The documented reused-stamp response throws `PaytrailStampException` with that response |
| Payment.MessageNotStringFails | lib.php:160 | An error response that does not name the reused stamp, has no object `meta`, and has a null, array or object `message` stops with a TypeError, not a `PaytrailException` |
| Payment.MissingMessageExample | lib.php:160 | Example: the response `{status: "error"}` stops with that TypeError |
| Payment.OtherStatusReturned | lib.php:162 | An object whose `status` is anything but the string `"error"`, including no status, is returned as it is |
| Payment.OkExample | lib.php:162 | Example: the response `{status: "ok"}` is returned as it is |
| Sanitizer.Prepared | lib.php:64-78 | Definition: the table after the stamp, reference, amount and address steps; `FindPrepared` states it key by key |
| Sanitizer.FindPrepared | lib.php:64-78 | After the first steps: `stamp` holds the existing non-empty stamp, otherwise the token. `reference` holds the existing non-empty reference, otherwise that stamp. `amount` holds its `intval`. An address is gone exactly when its street is empty. Nothing else changes |
| Sanitizer.FindAmounted | lib.php:64-70 | Property by property, the table after the stamp, reference and amount steps |
| Sanitizer.StampNotEmpty | lib.php:64-69 | The stamp and the reference set by the first two steps are never empty |
| Sanitizer.CleanedItem | lib.php:86-93 | Definition: an item with its three integer fields coerced in order, then its empty properties removed; `FindCleanedItem` states it key by key |
| Sanitizer.CleanItems | lib.php:82-95 | Definition: every item entry dropped or cleaned where it stands; `CleanItemsSpec` states it |
| Sanitizer.CleanItem | lib.php:83-93 | An item entry is kept exactly when its `productCode` is not empty; a kept entry is an object and becomes its cleaned form |
| Sanitizer.FindCleanedItem | lib.php:86-93 | On a cleaned item, `unitPrice`, `units` and `vatPercentage` hold their integer value unless it is 0, and are removed if it is 0; every other property is kept exactly when it is not empty |
| Sanitizer.CleanedItemIsClean | lib.php:86-93 | A cleaned item has no empty property, its integer fields hold integers, and its keys stay distinct |
| Sanitizer.CleanedItemIdle | lib.php:86-93 | Cleaning a clean item changes nothing |
| Sanitizer.CleanItemsSpec | lib.php:81-96 | The items loop keeps exactly the entries with a non-empty `productCode`, under their original keys and in their original order, each as a kept item |
| Sanitizer.ItemKeysKept | lib.php:82-84 | Removing the first of two items leaves the survivor under key 1: keys are not renumbered |
| Sanitizer.PruneEmptySpec | lib.php:89-93 | Pruning leaves no empty property, keeps the remaining ones in their original order, and keeps each non-empty value as it was |
| Sanitizer.PruneEmptyIdle | lib.php:89-93 | Pruning a table without empty properties changes nothing |
| Sanitizer.FinalPass | lib.php:99-110 | Definition: every top-level property removed or pruned by its value alone; `FinalPassSpec` states it |
| Sanitizer.FinalPassSpec | lib.php:99-110 | The final pass removes exactly the empty properties (never an object), prunes each object's empty properties, keeps order, and leaves every property settled |
| Sanitizer.FinalPassIdle | lib.php:99-110 | The final pass leaves a table of settled values unchanged |
| Sanitizer.Sanitized | lib.php:62-111 | Definition: the whole procedure, ending normally or with the `array_keys` TypeError, with the table it leaves |
| Sanitizer.SanitizedIsFinalPass | lib.php:62-111 | The procedure completes exactly when `items` is empty or an array; it then gives the final pass of the table after the items step, and otherwise stops after the address steps |
| Sanitizer.SanitizedStamp | lib.php:64-66 | After sanitising, `stamp` is present and not empty; an empty stamp becomes the token, and a non-empty one is kept as the final pass leaves it |
| Sanitizer.SanitizedReference | lib.php:67-69 | After sanitising, `reference` is present and not empty; an empty reference becomes the final stamp, and a non-empty one is kept |
| Sanitizer.SanitizedAmount | lib.php:70 | After sanitising, `amount` is the `intval` of the old amount, and is removed when that is 0 |
| Sanitizer.SanitizedAddress | lib.php:73-78 | An address remains exactly when its `streetAddress` is not empty; a remaining address is the old object without its empty properties, with its street |
| Sanitizer.SanitizedItems | lib.php:81-96 | The procedure stops exactly when `items` is neither empty nor an array; otherwise `items` ends as the cleaned array, and is removed when empty or when no item survives |
| Sanitizer.EmptyItemsRemoved | lib.php:81 | An empty `items` does not stop the procedure and is removed by the final pass |
| Sanitizer.ItemsArrayCleaned | lib.php:81-96 | A non-empty array `items` ends as the cleaned array, or is removed if no item survives |
| Sanitizer.SanitizedOther | lib.php:99-110 | Every other property goes through the final pass only |
| Sanitizer.SanitizedShape | lib.php:62-111 | A completed sanitisation yields a sanitised payload: every property settled, `stamp` and `reference` set, `amount` an integer, addresses with a street, and items kept in clean form |
| Sanitizer.PreparedFixpoint | lib.php:64-78 | On a sanitised payload the first steps change nothing, except that a removed `amount` comes back as 0 at the end |
| Sanitizer.AfterItemsFixpoint | lib.php:80-96 | On a sanitised payload the items step changes nothing further |
| Sanitizer.FinalPassFixpoint | lib.php:99-110 | The final pass gives a sanitised payload back, dropping a trailing zero `amount` |
| Sanitizer.SanitizedFixpoint | lib.php:62-111 | Sanitising a sanitised payload leaves it as it is |
| Sanitizer.SanitizeIdempotent | lib.php:62-111 | Sanitising twice is sanitising once, whatever token the second run gets |
| Sanitizer.SanitizedWellFormed | lib.php:62-111 | Sanitising keeps every key once at every depth, however the procedure ends |
| Sanitizer.FinalPassWellFormed | lib.php:99-110 | The final pass keeps every key once at every depth |
| PhpValues.IsEmpty | lib.php:107 | Definition of `empty()`: null, false, 0, `""`, `"0"` and the empty array are empty; an object never is |
| PhpValues.IntVal | lib.php:86-88 | Definition of `intval` and the `(int)` cast (also lib.php:70) for every value but a float |
| Tables.Set | lib.php:65 | Assigning a property: afterwards it holds the new value; `SetSpec` shows an existing key keeps its place and a new key is appended |
| Tables.Unset | lib.php:84 | `unset`: afterwards the key is absent; `UnsetSpec` shows the other entries keep their keys and order |
| Payloads.PruneEmptyProps | lib.php:89-93 | The loop that unsets each empty property gives the pruned table, which has no empty property |
| Payloads.CleanItemEntries | lib.php:82-95 | The loop over the item keys, last key first, gives the cleaned items |
| Payloads.Payload.constructor | lib.php:62 | The payload holds the given properties |
| Payloads.Payload.Prepare | lib.php:64-78 | The stamp, reference, amount and address statements leave the table of the first steps, still well formed |
| Payloads.Payload.CleanItemsProperty | lib.php:81-96 | An empty `items` is left alone and an array is replaced by the cleaned items. Anything else fails with the `array_keys` TypeError and leaves the table unchanged. The payload stays well formed |
| Payloads.Payload.RemoveEmptyProperties | lib.php:99-110 | The loop over the properties leaves the final pass of the table, still well formed |
| Payloads.Payload.Sanitize | lib.php:62-111 | The procedure completes exactly when the sanitised result is complete, leaves that result in the payload, keeps the payload well formed, and a completed run leaves a sanitised payload |

## Left out

- The HTTP transport: `curl_init`, `curl_setopt`, `curl_exec`, `curl_close`, and the formatting of the header lines for cURL (lib.php:124, lib.php:138-149). It is network I/O; the model starts from the header table and the decoded response.
- `json_encode` and `json_decode` (lib.php:125, lib.php:151). The request body is a string parameter and the response is a decoded `PhpValues.Value`.
- SHA-256 and HMAC inside `hash_hmac` (lib.php:51). The keyed hash is the function parameter `hmac(secret, text)`, so properties of the signature hold for any keyed hash.
- `uniqid("order")`, `uniqid()` and `date(DATE_ISO8601)` (lib.php:65, lib.php:131-132). These are clock and entropy sources, so they are parameters: `token` (required to start with `order`), `nonce` and `timestamp`.
- PhpValues.IntVal: floats are not modelled. The `intval` of a float is outside the model, and a numeric string in exponent form reads as its leading digits (`"1e3"` gives 1, where PHP gives 1000).
- Object identity: PHP objects are handles, so an item or address object that the caller still holds, or that sits under two keys, is changed in place. The model uses values, so that sharing is not captured. `Sanitizer.CleanedItemIdle` shows that cleaning an item a second time gives the same result.
- Iteration while removing: the last loop runs over the properties present when it starts. It only unsets the current property or changes the current object, so this agrees with PHP's iteration over the live table.
- The `Exception` base class (lib.php:15-29): stack traces, previous exceptions and `getMessage()`. Only the message, code and data of the two exception kinds are modelled. `PaytrailStampException` being a subclass of `PaytrailException` is not modelled as a subtype.
- Warnings PHP prints when reading an undefined property. The read itself is modelled as giving null.
- Byte strings: strings are sequences of Unicode characters, not PHP byte strings, so bytes that are not valid UTF-8 cannot be represented. The sort is still faithful, because code-point order equals UTF-8 byte order.
- PHP versions: PHP 8 behaviour is assumed. Under PHP 7.4, `array_keys` on a non-array `items` (lib.php:82) only warns, and the final pass still runs; the model stops there with `ItemsNotArray`.
- Numeric-string array keys: PHP stores a key such as `"0"` as the integer 0; the model keeps `StrKey("0")` apart from `IntKey(0)`. `WellFormed` admits such a key, and `Payment.FirstElement` treats it as no element 0.
