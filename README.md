# LXSCommons core, modelled in Dafny

This project models the computational core of the LXSCommons Swift packages and
proves properties about that model:

- **LXSJson** — a dynamic JSON value with JavaScript semantics:
  - the seven variants with `undefined` as the empty value, and their type tags;
  - the initializers and literals;
  - truthiness and the numeric and string coercions;
  - loose (`==`) and strict (`===`) equality;
  - property get, set and check through the string, integer and JSON subscripts;
  - the array-like operations `_length`, `_push`, `_pop`, `_forEach` and `_modEach`;
  - the pruning of `undefined` before stringifying;
  - the `Codable` encoder and decoder containers.
- **Version** — parsing and printing dotted versions. Versions compare with
  `isLower`, `isHigher` and `isWithin`, and these decide when a range contains a version.
- **LXSGridGeometry**:
  - axes and points;
  - sizes;
  - rects with possibly negative sides, their standardization and containment;
  - the row-by-row and column-by-column iterators;
  - the `Grid` collection, which stores one value per point of a rect in a flat buffer.
- **Small utilities**:
  - hex encoding and decoding of `Data`;
  - clamping, range checks, `nonEmpty` and `removeFirst` on collections;
  - dictionaries built from pairs with repeated keys;
  - integer subscripts on strings;
  - `StaticCodable`, which codes, compares and hashes values by an identifier;
  - log levels and their order, and log events with a lazily computed message.

The form follows the source:

- Pure Swift code is modelled as datatypes, functions and lemmas.
- Code that updates state in place is modelled as classes with `modifies` clauses:
  - `Grid` keeps its values in an `array`;
  - the rect iterators keep their `i`/`j` counters as fields;
  - the encoder containers keep their `local` and `merging` fields;
  - the unkeyed decoder keeps its cursor;
  - `Event` caches its message;
  - the mutable rect, the JSON variable and the collection that `removeFirst` edits are classes too.
- Each loop in the source is a method with loop invariants, proved against a
  specification function:
  - the dictionary literal;
  - `_forEach`, which returns the calls it makes to the block;
  - `_modEach`;
  - `nsObjectify`;
  - the keyed and unkeyed `makeJson`;
  - `isLower` and `isHigher`;
  - hex decoding;
  - a `for` loop over each rect iterator.

Modules:

| module | file |
|---|---|
| `Wrappers` | `Option` and `Result` |
| `Text` | Swift's decimal integer text (`Int(_:)`, `UInt(_:)`, `String(_:)`), `joined` and `split` |
| `JsonValue` | `JsonValue.dfy` |
| `JsonCoercion` | `JsonCoercion.dfy` |
| `JsonProperties` | `JsonProperties.dfy` |
| `JsonStringify` | `JsonStringify.dfy` |
| `JsonEncoding` | `JsonEncoding.dfy` |
| `JsonDecoding` | `JsonDecoding.dfy` |
| `Versions` | `Versions.dfy` |
| `Geometry` | `Geometry.dfy` |
| `Grids` | `Grid.dfy` |
| `HexData` | `HexData.dfy` |
| `SwiftExtensions` | `SwiftExtensions.dfy` |
| `StringExtensions` | `StringExtensions.dfy` |
| `StaticCodable` | `StaticCodable.dfy` |
| `Logging` | `Logging.dfy` |

Modelling choices:

- **JSON numbers** are integers. See "Left out".
- **Dictionary iteration order:** Swift iterates a dictionary in an unspecified order. The encoder's
  specification therefore gives the *set* of errors a failing `makeJson()` may throw. Each method
  is proved to return one of them.

## Model

| member | source | states |
|---|---|---|
| JsonValue.TypeOf | Sources/LXSJson/Functions/TypeOf.swift:40-52 | the tag's raw name names the value's variant, one name per variant; arrays are tagged "array", not "object" |
| JsonValue.RawValueInjective | Sources/LXSJson/Functions/TypeOf.swift:12-27 | the seven raw type names are pairwise different, so a name identifies its tag |
| JsonValue.TypeOfIsVariant | Sources/LXSJson/Functions/TypeOf.swift:42-52 | two values have the same tag exactly when they are built by the same variant: the tags map one-to-one onto the variants |
| JsonValue.InstanceOf | Sources/LXSJson/Functions/TypeOf.swift:35-37 | `instanceOf` always returns a JSON boolean, true exactly when the value's tag is the given one |
| JsonValue.InstanceOfExactlyOne | Sources/LXSJson/Functions/TypeOf.swift:30-37 | every value is an instance of its own tag and of no other |
| JsonValue.FromBool | Sources/LXSJson/Types/Boolean.swift:12-20 | `init(value: Bool)` picks the shared `true`/`false` constant, which is the boolean variant carrying the value |
| JsonValue.FromPayload | Sources/LXSJson/Types/Number.swift:12-19 | a non-optional initializer never produces `undefined` or `null` |
| JsonValue.FromValue | Sources/LXSJson/Types/String.swift:17-23 | `init(value: T?)` is `undefined` exactly for nil, and otherwise agrees with the non-optional initializer |
| JsonValue.FromOptionalValue | Sources/LXSJson/Types/Array.swift:26-32 | `init(optionalValue:)` is `null` exactly for nil, and otherwise agrees with the non-optional initializer |
| JsonValue.OptionalInitializers | Sources/LXSJson/Types/Boolean.swift:23-38 | the two optional initializers agree on every present value and differ exactly on nil |
| JsonValue.FromPayloadInjective | Sources/LXSJson/Types/Object.swift:12-14 | distinct Swift payloads give distinct JSON values |
| JsonValue.ObjectLiteral | Sources/LXSJson/Types/Object.swift:38-44 | the dictionary literal's loop yields an object whose keys are exactly the literal's keys, and a repeated key holds its last value |
| JsonValue.LiteralStep | Sources/LXSJson/Types/Object.swift:38-44 | storing one more pair keeps the keys equal to the pairs seen so far, each with its last value |
| JsonCoercion.IsTruthy | Sources/LXSJson/Functions/ToBoolean.swift:29-39 | the falsy values are exactly `undefined`, `null`, `false`, 0 and the empty string |
| JsonCoercion.ToBoolean | Sources/LXSJson/Functions/ToBoolean.swift:12-19 | `toBoolean` always returns a boolean |
| JsonCoercion.DoubleValue | Sources/LXSJson/Functions/ToNumber.swift:28-49 | no value for `undefined`, objects and arrays of two or more elements; 0 for `null`, "" and []; 1/0 for booleans; the number itself; a non-empty string read as an integer; a one-element array as its element |
| JsonCoercion.ToNumber | Sources/LXSJson/Functions/ToNumber.swift:12-17 | `toNumber` is a number exactly when `doubleValue` is defined, and then carries it; otherwise it is `undefined` |
| JsonCoercion.StringValue | Sources/LXSJson/Functions/ToString.swift:24-39 | `undefined`, `null` and any object give "undefined", "null" and "[object Object]"; booleans give "true"/"false"; a string is itself; a number's text reads back as that number; an array gives its elements' strings joined with ",", so `[]` gives "" and a one-element array its element's string |
| JsonCoercion.ArrayStringJoinsWithCommas | Sources/LXSJson/Functions/ToString.swift:36 | an array of two or more elements reads as its first element's string, a comma, then the string of the rest |
| JsonCoercion.StringValues | Sources/LXSJson/Functions/ToString.swift:36 | an array's elements are converted one by one, in order |
| JsonCoercion.ToString | Sources/LXSJson/Functions/ToString.swift:12-19 | `toString` always returns a string |
| JsonCoercion.CoercionsIdempotent | Sources/LXSJson/Functions/ToBoolean.swift:12-39 | each coercion keeps the information it coerces to: the truthiness, the number or the string. Coercing twice is coercing once (also `ToNumber.swift:12-49` and `ToString.swift:12-39`) |
| JsonCoercion.NumberStringRoundTrip | Sources/LXSJson/Functions/ToString.swift:24-39 | a number turned into a string reads back as the same number |
| JsonCoercion.SingletonArrayCoercions | Sources/LXSJson/Functions/ToNumber.swift:39-46 | a one-element array has its element's number and string values |
| JsonCoercion.TruthyIffNonZero | Sources/LXSJson/Functions/ToBoolean.swift:29-39 | for `null`, booleans and numbers, truthy exactly when the numeric value is not 0 |
| JsonCoercion.ZeroStringIsTruthy | Sources/LXSJson/Functions/ToBoolean.swift:34-35 | the string "0" is truthy although its numeric value is 0 |
| JsonCoercion.DoubleValueExamples | Sources/LXSJson/Functions/ToNumber.swift:34-46 | "20" reads as 20, while "twenty" and a two-element array have no numeric value |
| JsonCoercion.StringValueExamples | Sources/LXSJson/Functions/ToString.swift:36-37 | an array prints its elements joined by commas, and any object prints "[object Object]" |
| JsonCoercion.StrictlyEqual | Sources/LXSJson/Functions/Equals.swift:51-53 | strictly equal values have the same type, truthiness, number and string |
| JsonCoercion.LooselyEqual | Sources/LXSJson/Functions/Equals.swift:11-43 | values of one type are loosely equal exactly when they are equal; `null` and `undefined` equal each other; a boolean compares as the number 1 or 0 |
| JsonCoercion.StrictImpliesLoose | Sources/LXSJson/Functions/Equals.swift:11-14 | strict equality implies loose equality, and for values of one type the two are the same |
| JsonCoercion.NumberVersusString | Sources/LXSJson/Functions/Equals.swift:24-27 | a number is loosely equal to a string exactly when the string reads as that number |
| JsonCoercion.BooleanAsNumber | Sources/LXSJson/Functions/Equals.swift:19-22 | a boolean compared with a non-boolean compares as the number 1 or 0 |
| JsonCoercion.ContainerVersusScalar | Sources/LXSJson/Functions/Equals.swift:29-38 | an array or object against a number or a string compares through its numeric or string value |
| JsonCoercion.NullishEquality | Sources/LXSJson/Functions/Equals.swift:16-17 | `null` and `undefined` are loosely equal to each other and to nothing else (also lines 39-41) |
| JsonCoercion.LooselyEqualSymmetric | Sources/LXSJson/Functions/Equals.swift:11-43 | loose equality is symmetric |
| JsonProperties.PropertyGet | Sources/LXSJson/Functions/Properties.swift:57-66 | a missing property reads as `undefined`; an object field reads as its value; an array property reads as the element at the key's index |
| JsonProperties.PropertySet | Sources/LXSJson/Functions/Properties.swift:68-84 | the value keeps its type; scalars are unchanged; an object gains exactly the key; an array grows by at most one; an array key that neither names an element nor the next index changes nothing |
| JsonProperties.HasOwnProperty | Sources/LXSJson/Functions/Properties.swift:50-52 | only arrays and objects have properties; an object has exactly its keys; an array has exactly the keys naming an index below its count |
| JsonProperties.IndexKey | Sources/LXSJson/Functions/Properties.swift:58-61 | a key names an array index exactly when Swift's integer grammar reads it as a number that is not negative |
| JsonProperties.GetMatchesHas | Sources/LXSJson/Functions/Properties.swift:57-66 | a missing property reads as `undefined`; an existing array property reads as the element at the index the key parses to; an existing object property reads as its field |
| JsonProperties.SetKeepsShape | Sources/LXSJson/Functions/Properties.swift:68-84 | a write never changes the type, grows an array by at most one element, and leaves a non-container unchanged |
| JsonProperties.GetAfterSet | Sources/LXSJson/Functions/Properties.swift:68-84 | after a write to an object, to an index inside an array or to the index just past its end, the property exists and reads the written value |
| JsonProperties.GetOtherAfterSet | Sources/LXSJson/Functions/Properties.swift:57-84 | a write leaves every other element or field as it was |
| JsonProperties.SetOutOfReach | Sources/LXSJson/Functions/Properties.swift:70-78 | writing past an array's end, or with a key that is no index, changes nothing |
| JsonProperties.IndexSpellings | Sources/LXSJson/Functions/Properties.swift:58-61 | "1", "01" and "+1" all read element 1 |
| JsonProperties.GetIndex | Sources/LXSJson/Functions/Properties.swift:20-23 | the `Int` subscript reads an array's element at an index in range, `undefined` outside the range, `undefined` on a scalar, and on an object the field named by the index's decimal text, or `undefined` when there is none |
| JsonProperties.SetIndex | Sources/LXSJson/Functions/Properties.swift:24-26 | the `Int` subscript setter keeps the type; on an array it overwrites in range, appends at the end, and changes nothing elsewhere; on an object it stores the value under the index's decimal text |
| JsonProperties.GetIndexOfArray | Sources/LXSJson/Functions/Properties.swift:20-27 | the integer subscript reads the element in range, and `undefined` outside it |
| JsonProperties.SetIndexOfArray | Sources/LXSJson/Functions/Properties.swift:20-27 | the integer subscript writes as follows: overwrite in range, append at the end, and otherwise change nothing |
| JsonProperties.GetByKey | Sources/LXSJson/Functions/Properties.swift:29-32 | a string key reads that property, a number key reads like the `Int` subscript, and a scalar reads `undefined` |
| JsonProperties.SetByKey | Sources/LXSJson/Functions/Properties.swift:33-35 | the setter keeps the type; a string key writes that property, a number key writes like the `Int` subscript |
| JsonProperties.GetByKeyCoerces | Sources/LXSJson/Functions/Properties.swift:29-36 | the JSON-key subscript with a number key behaves like the integer subscript, and with a string key like the string subscript |
| JsonProperties.GetBySingletonKey | Sources/LXSJson/Functions/Properties.swift:29-36 | a one-element array key reads like its element |
| JsonProperties.PropertyCheckAsWritten | Sources/LXSJson/Functions/Properties.swift:86-95 | as written, only arrays and objects pass; off arrays it agrees with `hasOwnProperty`, and on arrays it does too for non-negative keys in `Int` range |
| JsonProperties.NegativeKeyReported | Sources/LXSJson/Functions/Properties.swift:86-95 | as written, `propertyCheck` reports the key "-1" on a one-element array, though no element has that index |
| JsonProperties.PropertyCheckAgrees | Sources/LXSJson/Functions/Properties.swift:86-95 | on keys that are not negative and fit `Int`, the check as written and `hasOwnProperty` agree: an in-range index or a present field |
| JsonProperties.LengthValue | Sources/LXSJson/Functions/ArrayProperties.swift:61-67 | `lengthValue` is defined exactly for strings and arrays, and is their number of elements |
| JsonProperties.Length | Sources/LXSJson/Functions/ArrayProperties.swift:12-14 | `_length` is that count as a number, and `undefined` where it is not defined |
| JsonProperties.Elements | Sources/LXSJson/Functions/ArrayProperties.swift:69-76 | only strings and arrays have elements: an array's are its elements, a string's are its characters as one-character strings, in order |
| JsonProperties.ElementsRoundTrip | Sources/LXSJson/Functions/ArrayProperties.swift:69-84 | writing back the elements just read leaves the value unchanged |
| JsonProperties.StringElementValues | Sources/LXSJson/Functions/ArrayProperties.swift:69-76 | a string's elements are its one-character strings |
| JsonProperties.Pushed | Sources/LXSJson/Functions/ArrayProperties.swift:17-20 | `_push` keeps the type, leaves a non-list alone, and appends the value to an array |
| JsonProperties.Popped | Sources/LXSJson/Functions/ArrayProperties.swift:22-25 | `_pop` keeps the type; on a non-list or an empty list it changes nothing and returns `undefined`; on an array it drops and returns the last element |
| JsonProperties.PushedShape | Sources/LXSJson/Functions/ArrayProperties.swift:17-20 | `_push` appends to an array, appends the string value to a string, and otherwise changes nothing |
| JsonProperties.PoppedShape | Sources/LXSJson/Functions/ArrayProperties.swift:23-25 | `_pop` removes and returns the last element or character; on an empty list or a non-list it returns `undefined` and changes nothing |
| JsonProperties.PopUndoesPush | Sources/LXSJson/Functions/ArrayProperties.swift:17-25 | pop after push returns the pushed value and restores the original, on arrays and for one-character pushes on strings |
| JsonProperties.ForEachCalls | Sources/LXSJson/Functions/ArrayProperties.swift:28-40 | `_forEach` calls the block once per element, in order, with the element's index, and not at all for a non-list |
| JsonProperties.ForEach | Sources/LXSJson/Functions/ArrayProperties.swift:35-40 | the `for` loop over `enumerated()` makes exactly the calls of `ForEachCalls`, in order |
| JsonProperties.ForEachElement | Sources/LXSJson/Functions/ArrayProperties.swift:28-32 | the one-argument `_forEach` calls its block with the same elements, in the same order, as the two-argument one |
| JsonProperties.ForEachAgrees | Sources/LXSJson/Functions/ArrayProperties.swift:35-56 | `_forEach` makes one call per unit of `_length()`, none for a non-list; `_modEach` writes back what its block makes of exactly the pairs `_forEach` visits |
| JsonProperties.Modified | Sources/LXSJson/Functions/ArrayProperties.swift:50-56 | `_modEach` keeps the type, leaves a non-list alone, and turns array element `i` into the block's result for (element, `i`) |
| JsonProperties.ModifiedByIdentity | Sources/LXSJson/Functions/ArrayProperties.swift:43-56 | a `_modEach` block that returns each element unchanged leaves the value unchanged |
| JsonProperties.ModifiedArray | Sources/LXSJson/Functions/ArrayProperties.swift:43-56 | `_modEach` keeps an array's length and rewrites the element at `i` to `f(element, i)` |
| JsonProperties.JsonVar.constructor | Sources/LXSJson/JSON.swift:11-14 | a variable holds the value it is given |
| JsonProperties.JsonVar.Delete | Sources/LXSJson/types/Undefined.swift:18-20 | `delete` makes the variable `undefined` |
| JsonProperties.JsonVar.SetProperty | Sources/LXSJson/Functions/Properties.swift:11-18 | the subscript setter replaces the value by the result of `propertySet` |
| JsonProperties.JsonVar.Push | Sources/LXSJson/Functions/ArrayProperties.swift:17-20 | `_push` updates the variable in place and returns the new length |
| JsonProperties.JsonVar.Pop | Sources/LXSJson/Functions/ArrayProperties.swift:23-25 | `_pop` updates the variable in place and returns the removed element |
| JsonProperties.JsonVar.ModEach | Sources/LXSJson/Functions/ArrayProperties.swift:43-56 | the loop over the indices leaves exactly the `Modified` value |
| JsonStringify.Pruned | Sources/LXSJson/Stringify.swift:39-62 | `nsObjectify` yields nothing exactly for `undefined`; otherwise a value of the same type, scalars unchanged, objects keeping only keys they had |
| JsonStringify.PrunedNone | Sources/LXSJson/Stringify.swift:39-62 | only `undefined` itself prunes to nothing |
| JsonStringify.PrunedElementsAppend | Sources/LXSJson/Stringify.swift:51-52 | pruning a longer array adds the pruned last element, or nothing when it is `undefined` |
| JsonStringify.WithoutUndefined | Sources/LXSJson/Stringify.swift:51-52 | the kept elements contain no `undefined` and are no more than the original |
| JsonStringify.PrunedElementsKeepOrder | Sources/LXSJson/Stringify.swift:51-52 | pruning drops exactly the `undefined` elements and prunes the rest in place, in their order |
| JsonStringify.PrunedFieldsKept | Sources/LXSJson/Stringify.swift:53-60 | a field survives exactly when its value is not `undefined`, and then holds the pruned value |
| JsonStringify.PrunedIsDefined | Sources/LXSJson/Stringify.swift:39-62 | the pruned tree contains no `undefined` anywhere |
| JsonStringify.PrunedElementsAreDefined | Sources/LXSJson/Stringify.swift:51-52 | every pruned element is free of `undefined` |
| JsonStringify.PrunedOfDefined | Sources/LXSJson/Stringify.swift:39-62 | a value with no `undefined` in it passes through pruning unchanged |
| JsonStringify.PrunedElementsOfDefined | Sources/LXSJson/Stringify.swift:51-52 | elements with no `undefined` pass through unchanged |
| JsonStringify.PruneIdempotent | Sources/LXSJson/Stringify.swift:39-62 | pruning twice is pruning once |
| JsonStringify.NsObjectify | Sources/LXSJson/Stringify.swift:39-62 | the recursive walk, including its loop over object fields, computes the pruned value |
| JsonStringify.Stringify | Sources/LXSJson/Stringify.swift:19-33 | a top-level `undefined` prints "undefined"; anything else is serialized after pruning |
| JsonStringify.UndefinedFieldIsOmitted | Sources/LXSJson/Stringify.swift:53-60 | an `undefined` field prints as if it were absent |
| JsonStringify.UndefinedElementIsDropped | Sources/LXSJson/Stringify.swift:51-52 | an `undefined` array element prints as if it were not there |
| JsonStringify.PrunedElementsConcat | Sources/LXSJson/Stringify.swift:51-52 | pruning distributes over concatenation of arrays |
| JsonEncoding.EncodePrimitive | Sources/LXSJson/Encoding.swift:269-285 | the single-value container stores booleans as booleans, strings as strings and every numeric type as a number |
| JsonEncoding.JsonOf | Sources/LXSJson/Encoding.swift:52-54 | the specification of `makeJson()`: a single value is itself, an encoder with no container gives `undefined`, a keyed container that succeeds gives an object and an unkeyed one an array |
| JsonEncoding.JsonsOf | Sources/LXSJson/Encoding.swift:189-193 | the outcomes of the containers of a list are taken one by one, in order |
| JsonEncoding.MergeObject | Sources/LXSJson/Encoding.swift:98-101 | merging one super-encoder's fields, when it succeeds, yields an object |
| JsonEncoding.ThrowsSomething | Sources/LXSJson/Encoding.swift:52-290 | every failing `makeJson()` has at least one error it may throw |
| JsonEncoding.AllThrowSomething | Sources/LXSJson/Encoding.swift:93-97 | the same for every container of a list |
| JsonEncoding.MergeThrowsSomething | Sources/LXSJson/Encoding.swift:96-101 | a failing merge has at least one error it may throw |
| JsonEncoding.AppendThrowsSomething | Sources/LXSJson/Encoding.swift:185-201 | a failing unkeyed `makeJson()` has at least one error it may throw |
| JsonEncoding.EncoderProducesItsContainer | Sources/LXSJson/Encoding.swift:52-54 | an encoder that was never asked for a container produces `undefined`; otherwise it produces its container's value |
| JsonEncoding.KeyedHoldsLocalEntries | Sources/LXSJson/Encoding.swift:91-95 | a successful keyed container yields an object holding every local key with its encoded value |
| JsonEncoding.MergeKeepsFields | Sources/LXSJson/Encoding.swift:96-101 | merging super-encoders never overwrites a field already present |
| JsonEncoding.KeyConflictThrown | Sources/LXSJson/Encoding.swift:98-99 | a super-encoder object sharing a key with the container throws, and `superclassKeyConflict` for a shared key is among the errors it may throw |
| JsonEncoding.MergeDisjoint | Sources/LXSJson/Encoding.swift:96-101 | merging an object with disjoint keys keeps every field of both |
| JsonEncoding.KeyedStructureConflict | Sources/LXSJson/Encoding.swift:97 | a super-encoder that produces anything but an object throws `superclassStructureConflict` |
| JsonEncoding.UnkeyedStartsWithElements | Sources/LXSJson/Encoding.swift:185-201 | a successful unkeyed container yields an array that starts with its own elements in encode order |
| JsonEncoding.CountMatchesArray | Sources/LXSJson/Encoding.swift:203-211 | when the unkeyed container succeeds, `count` (local count plus the lengths of the array-valued delegates) is the length of its array |
| JsonEncoding.AppendLength | Sources/LXSJson/Encoding.swift:185-201 | the produced array is the local elements followed by each delegate's elements |
| JsonEncoding.KeyedOutcome | Sources/LXSJson/Encoding.swift:91-104 | a keyed container throws one of its failing entries' errors, or merges the entries' values |
| JsonEncoding.OneEntryObject | Sources/LXSJson/Encoding.swift:112-116 | one primitive encoded under one key gives a one-field object |
| JsonEncoding.Make | Sources/LXSJson/Encoding.swift:36 | `makeJson()` on any container returns a value or an error its specification allows |
| JsonEncoding.MakeKeyed | Sources/LXSJson/Encoding.swift:91-104 | the keyed `makeJson()` loops return what the keyed specification allows |
| JsonEncoding.MergeDelegates | Sources/LXSJson/Encoding.swift:96-102 | the loop over the super-encoders returns what the merge specification allows |
| JsonEncoding.MergeContent | Sources/LXSJson/Encoding.swift:98-101 | the inner loop copies the fields, throwing on the first key already present, as the one-object merge allows |
| JsonEncoding.MakeUnkeyed | Sources/LXSJson/Encoding.swift:185-201 | the unkeyed `makeJson()` loops return what the unkeyed specification allows |
| JsonEncoding.EncodeWithEncoder | Sources/LXSJson/Encoding.swift:18-22 | `JSON.Encoder.encode` returns what encoding the value through a fresh encoder allows |
| JsonEncoding.InternalEncoder.constructor | Sources/LXSJson/Encoding.swift:45-50 | a new encoder has no container |
| JsonEncoding.InternalEncoder.RequestContainer | Sources/LXSJson/Encoding.swift:56-72 | asking for a container replaces any earlier one |
| JsonEncoding.InternalEncoder.MakeJson | Sources/LXSJson/Encoding.swift:52-54 | the encoder's value is its container's value, or `undefined` |
| JsonEncoding.SingleValueContainer.constructor | Sources/LXSJson/Encoding.swift:254-259 | a new single-value container holds `undefined` |
| JsonEncoding.SingleValueContainer.EncodeNil | Sources/LXSJson/Encoding.swift:265-267 | `encodeNil` stores `null`, not `undefined` |
| JsonEncoding.SingleValueContainer.Encode | Sources/LXSJson/Encoding.swift:269-290 | a primitive is stored as such; any other value goes through a nested encoder, whose error propagates and leaves the container unchanged |
| JsonEncoding.KeyedContainer.constructor | Sources/LXSJson/Encoding.swift:84-89 | a new keyed container has no entries and no super-encoders |
| JsonEncoding.KeyedContainer.EncodeNil | Sources/LXSJson/Encoding.swift:106-110 | `encodeNil(forKey:)` stores `null` under the key, replacing any earlier entry |
| JsonEncoding.KeyedContainer.Encode | Sources/LXSJson/Encoding.swift:112-116 | the entry is stored, replacing any earlier one, only when encoding the value succeeds; a thrown error leaves the entries unchanged |
| JsonEncoding.KeyedContainer.EncodeIfPresent | Sources/LXSJson/Encoding.swift:142-148 | a missing value is encoded as `null`, and a present one as with `encode` |
| JsonEncoding.KeyedContainer.Nest | Sources/LXSJson/Encoding.swift:118-140 | a nested container or keyed super-encoder becomes the entry for its key |
| JsonEncoding.KeyedContainer.SuperEncoder | Sources/LXSJson/Encoding.swift:130-134 | `superEncoder()` adds an encoder whose object is merged in last |
| JsonEncoding.KeyedContainer.MakeJson | Sources/LXSJson/Encoding.swift:91-104 | the container's value is what the keyed specification allows for its current fields |
| JsonEncoding.UnkeyedContainer.constructor | Sources/LXSJson/Encoding.swift:177-182 | a new unkeyed container has no elements and no super-encoders |
| JsonEncoding.UnkeyedContainer.EncodeNil | Sources/LXSJson/Encoding.swift:213-217 | `encodeNil` appends a `null` element |
| JsonEncoding.UnkeyedContainer.Encode | Sources/LXSJson/Encoding.swift:219-223 | the element is appended only when encoding the value succeeds |
| JsonEncoding.UnkeyedContainer.Nest | Sources/LXSJson/Encoding.swift:225-235 | a nested container is appended as the next element |
| JsonEncoding.UnkeyedContainer.SuperEncoder | Sources/LXSJson/Encoding.swift:237-241 | `superEncoder()` adds an encoder whose array is appended after the elements |
| JsonEncoding.UnkeyedContainer.MakeJson | Sources/LXSJson/Encoding.swift:185-201 | the container's value is what the unkeyed specification allows for its current fields |
| JsonDecoding.DecodeNumber | Sources/LXSJson/Decoding.swift:217-223 | `decodeNumber` succeeds exactly when `doubleValue` is defined, with that value, and otherwise throws `decodingNaN` |
| JsonDecoding.DecodeValue | Sources/LXSJson/Decoding.swift:195-217 | booleans decode by truthiness, strings by string value, and numbers through `decodeNumber` |
| JsonDecoding.PrimitiveRoundTrip | Sources/LXSJson/Decoding.swift:195-217 | decoding what the single-value encoder stored gives the primitive back (also `Encoding.swift:269-285`) |
| JsonDecoding.NullAndUndefined | Sources/LXSJson/Decoding.swift:187-193 | `null` is nil and decodes as false and 0; `undefined` is not nil and is no number |
| JsonDecoding.NumberAsString | Sources/LXSJson/Decoding.swift:197-198 | a number asked for as a string decodes as its decimal text, and that text decodes back as the number |
| JsonDecoding.AllKeys | Sources/LXSJson/Decoding.swift:79-82 | `allKeys` is an object's key set, and empty for anything else |
| JsonDecoding.Contains | Sources/LXSJson/Decoding.swift:84-87 | `contains` holds exactly for the keys in `allKeys`, and a contained key is a property of the value |
| JsonDecoding.DecodeNilForKey | Sources/LXSJson/Decoding.swift:89-91 | `decodeNil(forKey:)` holds only for a present property, and for an object key exactly when its value is `null` |
| JsonDecoding.DecodeForKey | Sources/LXSJson/Decoding.swift:93-95 | an object key decodes its stored value, an array index key decodes the element at that index, and a missing property decodes as `undefined` |
| JsonDecoding.NestedForKey | Sources/LXSJson/Decoding.swift:97-111 | a nested container reads an object key's stored value, an array index's element, or `undefined` for a missing property |
| JsonDecoding.ContainsIsAllKeys | Sources/LXSJson/Decoding.swift:79-87 | `contains` holds exactly for the keys in `allKeys`, and a contained key reads its stored value |
| JsonDecoding.MissingKey | Sources/LXSJson/Decoding.swift:89-95 | an absent key is not nil, decodes as the string "undefined" and as false, and is no number |
| JsonDecoding.KeyedRoundTrip | Sources/LXSJson/Decoding.swift:93-95 | a primitive stored under a key by a successful keyed encoding decodes back from that key (also `Encoding.swift:91-116`) |
| JsonDecoding.UnkeyedRoundTrip | Sources/LXSJson/Decoding.swift:150-153 | a primitive at position `i` of a successful unkeyed encoding decodes back from index `i` (also `Encoding.swift:185-201`) |
| JsonDecoding.UnkeyedDecoder.constructor | Sources/LXSJson/Decoding.swift:125-140 | a new unkeyed decoder starts at index 0 |
| JsonDecoding.UnkeyedDecoder.Count | Sources/LXSJson/Decoding.swift:131-134 | `count` is an array's length, and 0 for anything else |
| JsonDecoding.UnkeyedDecoder.DecodeNil | Sources/LXSJson/Decoding.swift:142-148 | the cursor moves past a `null` and stays put on anything else |
| JsonDecoding.UnkeyedDecoder.Decode | Sources/LXSJson/Decoding.swift:150-153 | the value at the cursor is decoded, and the cursor moves on by one even when decoding throws |
| JsonDecoding.UnkeyedDecoder.NestedContainer | Sources/LXSJson/Decoding.swift:155-158 | a nested keyed container reads the value at the cursor, which moves on by one |
| JsonDecoding.UnkeyedDecoder.NestedUnkeyedContainer | Sources/LXSJson/Decoding.swift:160-163 | a fresh unkeyed container over the value at the cursor starts at 0, and the cursor moves on by one |
| JsonDecoding.UnkeyedDecoder.SuperDecoder | Sources/LXSJson/Decoding.swift:165-167 | the unkeyed `superDecoder` always throws `superclassStructureConflict` |
| JsonDecoding.CursorReadsInOrder | Sources/LXSJson/Decoding.swift:140-153 | reading at the cursor gives the element in range, and `undefined` past the end |
| JsonDecoding.DecodeAll | Sources/LXSJson/Decoding.swift:131-153 | a client loop standing for the standard library's array decoding, which is not in this package: decoding until `isAtEnd` reads every element in order, or stops with the error of the first element that fails, every element before it having decoded |
| Text.ParseSigned | Sources/LXSJson/Functions/Properties.swift:60 | `Int(_:)`'s grammar: an optional sign before a non-empty run of digits, a negative value only after "-", and a run of digits read as its decimal value |
| Text.ParseInt64 | Sources/LXSJson/Functions/Properties.swift:86-95 | `Int(_:)` accepts exactly the grammatical texts whose value lies in the 64-bit signed range, with that value |
| Text.ParseUInt64 | Sources/LXSCommons/Core/Version.swift:21 | `UInt(_:)` accepts exactly the grammatical texts whose value lies in 0 ... `UInt64.max`, with that value |
| Text.FormatInt | Sources/LXSJson/Functions/Properties.swift:20-27 | `String(n)` is the digits of `n`, after a "-" exactly when `n` is negative |
| Text.FormatNat | Sources/LXSCommons/Core/Version.swift:63-65 | `String(n)` is a non-empty run of digits, without leading zeros, whose value is `n` |
| Text.ParseInRange | Sources/LXSJson/Functions/Properties.swift:58-61 | a fixed-width parse accepts exactly the grammatical texts whose value fits the range |
| Text.ParseFormatNat | Sources/LXSCommons/Core/Version.swift:20-21 | the decimal text of a natural number parses back to it |
| Text.ParseFormatInt | Sources/LXSJson/Functions/Properties.swift:20-27 | formatting then parsing any integer gives it back |
| Text.ParseInt64FormatInt | Sources/LXSJson/Functions/Properties.swift:20-27 | `Int(String(n))` is `n` for every 64-bit `n`, so the integer subscript reaches the element `n` |
| Text.FormatIntShape | Sources/LXSJson/Functions/ToString.swift:29-34 | a formatted integer starts with `-` exactly when it is negative, and is otherwise all digits |
| Text.Join | Sources/LXSCommons/Core/Version.swift:63-65 | joining nothing is empty, and joining one part gives that part |
| Text.ConcatAppend | Sources/LXSJson/Functions/ArrayProperties.swift:77-80 | concatenating one more part appends it |
| Text.Characters | Sources/LXSJson/Functions/ArrayProperties.swift:69-72 | a string's characters, one per position, in order |
| Text.ConcatCharacters | Sources/LXSJson/Functions/ArrayProperties.swift:69-80 | joining a string's characters gives the string back |
| Text.Split | Sources/LXSCommons/Core/Version.swift:20 | splitting gives at least one piece, and no piece holds the separator |
| Text.SplitJoin | Sources/LXSCommons/Core/Version.swift:20 | splitting a joined list gives it back when no part holds the separator |
| Versions.ParseAll | Sources/LXSCommons/Core/Version.swift:21-22 | every piece parses as a `UInt` and is kept in order, or the whole parse fails because some piece does not |
| Versions.Parse | Sources/LXSCommons/Core/Version.swift:14-24 | empty text is no version, and a parsed version has at least one component, each fitting a `UInt` |
| Versions.ComponentTexts | Sources/LXSCommons/Core/Version.swift:63-65 | each component is printed in decimal, in order |
| Versions.Description | Sources/LXSCommons/Core/Version.swift:63-65 | splitting the description on "." gives back the components' decimal texts |
| Versions.JoinStartsWithFirst | Sources/LXSCommons/Core/Version.swift:63-65 | a joined description starts with the first part's first character, so it never starts with `v` |
| Versions.ParseAllTexts | Sources/LXSCommons/Core/Version.swift:21-22 | the printed components all parse back to the components |
| Versions.ParseDescription | Sources/LXSCommons/Core/Version.swift:14-24 | parsing a version's `description` (lines 63-65) gives the version back |
| Versions.ParseRejectsEmpty | Sources/LXSCommons/Core/Version.swift:15-22 | "" and a bare "v" are no versions |
| Versions.ParseRejectsEmptyPiece | Sources/LXSCommons/Core/Version.swift:20-22 | an empty piece between two dots makes the text no version |
| Versions.ParseRejectsNonNumericPiece | Sources/LXSCommons/Core/Version.swift:20-22 | a piece that is not a number makes the text no version |
| Versions.ParsePrefix | Sources/LXSCommons/Core/Version.swift:17-19 | one leading `v` or `V` is ignored |
| Versions.ValueAt | Sources/LXSCommons/Core/Version.swift:52-54 | `value(at:)` is the component at a non-negative index below the count, and nil past the last component |
| Versions.Major | Sources/LXSCommons/Core/Version.swift:40 | `majorValue` is the first component, a `UInt` |
| Versions.Minor | Sources/LXSCommons/Core/Version.swift:43 | `minorValue` is the second component, nil exactly when there is none |
| Versions.Patch | Sources/LXSCommons/Core/Version.swift:46 | `patchValue` is the third component, nil exactly when there is none |
| Versions.Make | Sources/LXSCommons/Core/Version.swift:27-37 | `init(value:_:_:)` has the given major, a 0 minor when only a patch is given, and the given patch, with 1 to 3 components |
| Versions.Ceiling | Sources/LXSCommons/Core/Version.swift:86-92 | missing components are padded with `UInt.max`, keeping the given ones |
| Versions.Floor | Sources/LXSCommons/Core/Version.swift:94-100 | missing components are padded with 0, keeping the given ones |
| Versions.Truncated | Sources/LXSCommons/Core/Version.swift:102-108 | a prefix of at most `count` components |
| Versions.Lower | Sources/LXSCommons/Core/Version.swift:117-124 | for versions of one length `isLower` is the lexicographic order; no version is lower than itself |
| Versions.Higher | Sources/LXSCommons/Core/Version.swift:127-134 | for versions of one length `isHigher` is the reverse lexicographic order; no version is higher than itself |
| Versions.Within | Sources/LXSCommons/Core/Version.swift:137-140 | `isWithin` holds exactly when the versions agree on every component both have; for one length it is equality |
| Versions.LexCompare | Sources/LXSCommons/Core/Version.swift:117-134 | the comparison loop with early returns computes lexicographic order |
| Versions.IsLower | Sources/LXSCommons/Core/Version.swift:117-124 | `isLower` is lexicographic order after padding both versions with `UInt.max` |
| Versions.IsHigher | Sources/LXSCommons/Core/Version.swift:127-134 | `isHigher` is reverse lexicographic order after padding both versions with 0 |
| Versions.LexLessIrreflexive | Sources/LXSCommons/Core/Version.swift:117-134 | nothing comes lexicographically before itself |
| Versions.LexLessAsymmetric | Sources/LXSCommons/Core/Version.swift:117-134 | of two lists of one length at most one comes first |
| Versions.LexLessTotal | Sources/LXSCommons/Core/Version.swift:117-134 | two different lists of one length are ordered one way or the other |
| Versions.LexLessTransitive | Sources/LXSCommons/Core/Version.swift:117-134 | the lexicographic order of the padded components is transitive |
| Versions.OrderAtAnyWidth | Sources/LXSCommons/Core/Version.swift:117-134 | padding both versions further, with the largest `UInt` for `isLower` and with 0 for `isHigher`, changes neither answer |
| Versions.OrderTransitive | Sources/LXSCommons/Core/Version.swift:82 | `isLower` and `isHigher` are transitive whatever the lengths, so `<` is a strict order |
| Versions.LowerIsPartial | Sources/LXSCommons/Core/Version.swift:82 | `<` is partial: 1 and 1.18446744073709551615 are different versions, neither lower than the other |
| Versions.OrderIrreflexiveAsymmetric | Sources/LXSCommons/Core/Version.swift:110-134 | no version is lower or higher than itself, and both relations are asymmetric, as `<` (which is `isLower`) must be |
| Versions.WithinReflexiveSymmetric | Sources/LXSCommons/Core/Version.swift:137-140 | `isWithin` is reflexive and symmetric |
| Versions.SameLengthOrder | Sources/LXSCommons/Core/Version.swift:110-140 | for versions of one length, `isHigher` is the reverse of `isLower`, `isWithin` is equality, and the order is total |
| Versions.StrictEquality | Sources/LXSCommons/Core/Version.swift:78-80 | 1.2 and 1.2.0 are different versions, yet each is within the other and neither is lower or higher |
| Versions.AgainstShorter | Sources/LXSCommons/Core/Version.swift:117-140 | 1.2 is lower than 1 (a missing minor stands for the largest), higher than it (a missing minor stands for 0), and within it |
| Versions.HalfOpenContains | Sources/LXSCommons/Core/Version.swift:166-170 | `lower..<upper` never contains `upper`, and everything it contains is lower than `upper` |
| Versions.ClosedContains | Sources/LXSCommons/Core/Version.swift:172-176 | `lower...upper` contains `upper` when `upper` is within or higher than `lower`, and `lower` when `lower` is within or lower than `upper` |
| Versions.FromContains | Sources/LXSCommons/Core/Version.swift:178-182 | `lower...` contains `lower` and every version higher than it |
| Versions.UpToContains | Sources/LXSCommons/Core/Version.swift:184-188 | `..<upper` does not contain `upper` |
| Versions.ThroughContains | Sources/LXSCommons/Core/Version.swift:190-194 | `...upper` contains `upper` and every version lower than it |
| Versions.RangesCompose | Sources/LXSCommons/Core/Version.swift:166-194 | the half-open and closed ranges contain what the matching partial ranges both contain, and the closed range contains everything the half-open one does (also lines 142-160) |
| Versions.UpperBoundExcluded | Sources/LXSCommons/Core/Version.swift:166-194 | a half-open range never contains its upper bound, while `...upper` and `lower...` contain their bounds |
| Versions.ClosedBoundAdmitsWithin | Sources/LXSCommons/Core/Version.swift:166-176 | 1.2 is in `1.0...1.2` but not in `1.0..<1.2` |
| Geometry.Perpendicular | Sources/LXSGridGeometry/Axis.swift:16-21 | an axis is never its own perpendicular |
| Geometry.PerpendicularInvolution | Sources/LXSGridGeometry/Axis.swift:16-21 | the perpendicular of x is y and of y is x, so taking it twice gives the axis back |
| Geometry.WithValue | Sources/LXSGridGeometry/Point.swift:52-57 | the subscript setter sets one coordinate and keeps the other |
| Geometry.Advanced | Sources/LXSGridGeometry/Point.swift:76-78 | `advanced(byX:byY:)` moves by the two offsets |
| Geometry.AdvancedAlongX | Sources/LXSGridGeometry/Point.swift:66-68 | `advancedAlongX(by:)` moves `x` by the amount and keeps `y` |
| Geometry.AdvancedAlongY | Sources/LXSGridGeometry/Point.swift:71-73 | `advancedAlongY(by:)` moves `y` by the amount and keeps `x` |
| Geometry.AdvancedAlong | Sources/LXSGridGeometry/Point.swift:81-86 | `advanced(along:by:)` moves the chosen coordinate by the amount and keeps the other |
| Geometry.Next | Sources/LXSGridGeometry/Point.swift:89-96 | `nextAlongX`/`nextAlongY` step one forward on the axis, keep the other coordinate, and the previous point of the result is the start |
| Geometry.Previous | Sources/LXSGridGeometry/Point.swift:99-106 | `previousAlongX`/`previousAlongY` step one back on the axis and keep the other coordinate |
| Geometry.AdvanceAlongAxis | Sources/LXSGridGeometry/Point.swift:66-86 | advancing along an axis moves only that coordinate, by the amount, and agrees with the axis-specific forms |
| Geometry.NextPreviousInverse | Sources/LXSGridGeometry/Point.swift:89-106 | next and previous along one axis undo each other |
| Geometry.AdvanceComposes | Sources/LXSGridGeometry/Point.swift:81-86 | two advances along an axis are one advance by the sum |
| Geometry.Area | Sources/LXSGridGeometry/Size.swift:40-43 | the area is 0 exactly for an empty size, negative exactly when the sides have opposite signs, and |width| times |height| in magnitude |
| Geometry.Bounds | Sources/LXSGridGeometry/Size.swift:56-58 | `bounds` is the rect at the zero point with this size |
| Geometry.SizeFacts | Sources/LXSGridGeometry/Size.swift:41-73 | a size is empty exactly when its area is 0; a square size is square; the zero size is empty (also line 33) |
| Geometry.Standardized | Sources/LXSGridGeometry/Rect.swift:81-97 | `standardized` has the absolute sides, and a negative side moves the origin back by its length less one |
| Geometry.MinX | Sources/LXSGridGeometry/Rect.swift:99-102 | the first column is the origin's for a width that is not negative, and never after it |
| Geometry.MinY | Sources/LXSGridGeometry/Rect.swift:104-107 | the first row is the origin's for a height that is not negative, and never after it |
| Geometry.MaxX | Sources/LXSGridGeometry/Rect.swift:109-114 | the origin's column lies between `minX` and `maxX`; for a width that is not 0 the range holds |width| columns; for a width of 0 or less `maxX` is the origin's column |
| Geometry.MaxY | Sources/LXSGridGeometry/Rect.swift:116-121 | the origin's row lies between `minY` and `maxY`; for a height that is not 0 the range holds |height| rows; for a height of 0 or less `maxY` is the origin's row |
| Geometry.Count | Sources/LXSGridGeometry/Rect.swift:52-55 | `count` is the standardized rect's area in magnitude, and negative exactly when the two non-zero sides have opposite signs |
| Geometry.Contains | Sources/LXSGridGeometry/Rect.swift:62-65 | a point is contained exactly when the rect is not empty and the point lies in the |width| columns and |height| rows from the standardized origin |
| Geometry.RectEquals | Sources/LXSGridGeometry/Rect.swift:142-147 | equal rects have the same `count` in magnitude and the same `minX`, `maxX`, `minY` and `maxY` |
| Geometry.FromRanges | Sources/LXSGridGeometry/Rect.swift:134-136 | `init(rangeX:rangeY:)` has exactly the given ranges and contains exactly their points (also lines 124-131) |
| Geometry.StandardizedFacts | Sources/LXSGridGeometry/Rect.swift:81-97 | standardizing gives sides that are not negative, is idempotent, keeps the contained points, and gives an equal rect (also lines 144-147) |
| Geometry.RangeLengths | Sources/LXSGridGeometry/Rect.swift:100-121 | for a side that is not 0, max − min + 1 is its absolute length |
| Geometry.NegativeWidth | Sources/LXSGridGeometry/Rect.swift:100-113 | a rect of negative width runs leftwards and ends at its origin |
| Geometry.EqualRectsSamePoints | Sources/LXSGridGeometry/Rect.swift:144-147 | equal rects contain the same points |
| Geometry.SamePointsEqualRects | Sources/LXSGridGeometry/Rect.swift:142-147 | conversely, two non-empty rects containing the same points are equal |
| Geometry.EmptyRectsMayDiffer | Sources/LXSGridGeometry/Rect.swift:142-147 | two zero-size rects at different origins contain the same (no) points yet are not equal |
| Geometry.EmptyContainsNothing | Sources/LXSGridGeometry/Rect.swift:63-65 | an empty rect, the zero rect included, contains nothing (also line 73) |
| Geometry.MutableRect.Standardize | Sources/LXSGridGeometry/Rect.swift:88-97 | `standardize()` leaves the rect equal to its `standardized` form |
| Geometry.RowsPointsShape | Sources/LXSGridGeometry/Rect.swift:173-181 | the first rows of the enumeration yield exactly the points in those rows and in the rect's columns |
| Geometry.RowByRowCoversRect | Sources/LXSGridGeometry/Rect.swift:155-182 | for sides that are not 0, `rowByRow` yields exactly the points the rect contains |
| Geometry.RowByRowWithinRect | Sources/LXSGridGeometry/Rect.swift:155-182 | every point `rowByRow` yields lies inside the rect |
| Geometry.RectWithinRowByRow | Sources/LXSGridGeometry/Rect.swift:155-182 | every point the rect contains is yielded by `rowByRow` |
| Geometry.RowsPointsNoRepeats | Sources/LXSGridGeometry/Rect.swift:173-181 | no point is yielded twice |
| Geometry.RowByRowExactlyOnce | Sources/LXSGridGeometry/Rect.swift:155-182 | for sides that are not 0, `rowByRow` yields every contained point exactly once |
| Geometry.RowByRowIterator.constructor | Sources/LXSGridGeometry/Rect.swift:164-169 | a new iterator has yielded nothing |
| Geometry.RowByRowIterator.Next | Sources/LXSGridGeometry/Rect.swift:173-181 | `next()` yields the next point of the row-by-row order, or nil once every row has been yielded |
| Geometry.CollectRowByRow | Sources/LXSGridGeometry/Rect.swift:155-182 | calling `next()` until nil collects exactly the row-by-row order |
| Geometry.SwappedAll | Sources/LXSGridGeometry/Rect.swift:185-212 | swapping the coordinates of every point, in order |
| Geometry.ColumnsAreTransposedRows | Sources/LXSGridGeometry/Rect.swift:185-212 | the column-by-column order is the row-by-row order of the transposed rect, with the coordinates swapped back |
| Geometry.ColumnByColumnExactlyOnce | Sources/LXSGridGeometry/Rect.swift:185-212 | for sides that are not 0, `columnByColumn` yields every contained point exactly once |
| Geometry.RowsInOrder | Sources/LXSGridGeometry/Rect.swift:173-181 | a row is finished before the next starts: a point's row is never further from the origin than any later point's |
| Geometry.ColumnByColumnIterator.constructor | Sources/LXSGridGeometry/Rect.swift:194-199 | a new iterator has yielded nothing |
| Geometry.ColumnByColumnIterator.Next | Sources/LXSGridGeometry/Rect.swift:203-211 | `next()` yields the next point of the column-by-column order, or nil at the end |
| Geometry.CollectColumnByColumn | Sources/LXSGridGeometry/Rect.swift:185-212 | calling `next()` until nil collects exactly the column-by-column order |
| Grids.CountIsCells | Sources/LXSGridGeometry/Rect.swift:53-55 | a `count` that is not negative is \|width\| × \|height\| |
| Grids.ValuesIndex | Sources/LXSGridGeometry/Grid.swift:31-33 | a contained point of a rect whose count is not negative gets a slot in [0, count) |
| Grids.ValuesIndexLayout | Sources/LXSGridGeometry/Grid.swift:31-33 | `valuesIndex` maps the contained points one to one into [0, count) |
| Grids.RowsPointsAt | Sources/LXSGridGeometry/Grid.swift:31-33 | for positive sides, row `k`, column `c` of the enumeration sits at slot `k × width + c` (also `Rect.swift:173-181`) |
| Grids.StorageIsRowByRow | Sources/LXSGridGeometry/Grid.swift:31-33 | for a rect with positive sides, slot `valuesIndex(p)` of the row-by-row enumeration is `p`: storage order is `rowByRow` order |
| Grids.StorageNotRowByRowForNegativeWidth | Sources/LXSGridGeometry/Grid.swift:30-33 | with origin (0, 0) and size (-2, 1), `rowByRow` yields (0, 0) first, but `valuesIndex` stores (0, 0) in slot 1 and (-1, 0) in slot 0 |
| Grids.StorageIsStandardizedRowByRow | Sources/LXSGridGeometry/Grid.swift:30-33 | for every rect with sides that are not 0, slot `valuesIndex(p)` of the standardized rect's `rowByRow` enumeration is `p` |
| Grids.Advanced | Sources/LXSGridGeometry/Grid.swift:57-62 | advancing an index by `n` moves it a distance of `n` |
| Grids.AfterBeforeInverse | Sources/LXSGridGeometry/Grid.swift:73-79 | `index(after:)` and `index(before:)` undo each other |
| Grids.Grid.constructor | Sources/LXSGridGeometry/Grid.swift:20-23 | a new grid holds `count` copies of the initial value |
| Grids.Grid.OfSize | Sources/LXSGridGeometry/Grid.swift:26-28 | a grid of a size is the grid over the size's bounds |
| Grids.Grid.InitialValues | Sources/LXSGridGeometry/Grid.swift:20-44 | a new grid reads the initial value at every point |
| Grids.Grid.At | Sources/LXSGridGeometry/Grid.swift:35-39 | the getter of a contained point reads one of the stored values; `Set` and `InitialValues` state which |
| Grids.Grid.Set | Sources/LXSGridGeometry/Grid.swift:35-44 | after `grid[p] = v`, `grid[p]` is `v` and every other point keeps its value |
| Grids.Grid.SwapAt | Sources/LXSGridGeometry/Grid.swift:96-101 | `swapAt` exchanges the two values when both points are contained, and otherwise changes nothing |
| Grids.Grid.IndexFrom | Sources/LXSGridGeometry/Grid.swift:104-107 | `index(from:)` is nil exactly for a point outside the rect, and otherwise a valid slot |
| Grids.Grid.IndexFromAddressesPoint | Sources/LXSGridGeometry/Grid.swift:81-107 | a point's index reads the same value as the point, and distinct points have distinct indices |
| Grids.Grid.EndIndex | Sources/LXSGridGeometry/Grid.swift:65-71 | from `startIndex` to `endIndex` is `count` positions |
| Grids.Grid.SetAtPosition | Sources/LXSGridGeometry/Grid.swift:81-88 | the position setter changes that slot only |
| HexData.HexDigitValue | Sources/LXSCommons/Foundation/DataExtensions.swift:39 | a hex digit's value is below 16 |
| HexData.HexChar | Sources/LXSCommons/Foundation/DataExtensions.swift:12-15 | `%02X` writes upper-case digits that read back as their value |
| HexData.LetterCaseIgnored | Sources/LXSCommons/Foundation/DataExtensions.swift:39 | a letter digit means 10 to 15 in either case |
| HexData.Pairs | Sources/LXSCommons/Foundation/DataExtensions.swift:12-15 | two upper-case hex digits per byte |
| HexData.HexEncoded | Sources/LXSCommons/Foundation/DataExtensions.swift:12-15 | the encoding is "<", the pairs, ">", of length 2n + 2 |
| HexData.Scan | Sources/LXSCommons/Foundation/DataExtensions.swift:29-48 | a scan that succeeds met only hex digits and whitespace, and produced at most one byte per two characters |
| HexData.HexDecoded | Sources/LXSCommons/Foundation/DataExtensions.swift:17-49 | a text opening with "<" but not closing with ">" is refused; a decoded text yields at most one byte per two characters; without brackets, every character of a decoded text is a hex digit or whitespace |
| HexData.DecodeHex | Sources/LXSCommons/Foundation/DataExtensions.swift:17-49 | the character loop with its half-read pair computes the specified decoding |
| HexData.ScanPairs | Sources/LXSCommons/Foundation/DataExtensions.swift:35-46 | reading the pairs of some bytes gives those bytes, then whatever the rest gives |
| HexData.HexRoundTrip | Sources/LXSCommons/Foundation/DataExtensions.swift:12-49 | decoding the encoding gives the bytes back, and so does decoding the digits without brackets |
| HexData.TrailingDigitDropped | Sources/LXSCommons/Foundation/DataExtensions.swift:29-48 | a digit left over after the pairs is dropped silently |
| HexData.UnclosedBracket | Sources/LXSCommons/Foundation/DataExtensions.swift:18-27 | a leading "<" without a trailing ">" gives nil |
| HexData.ForeignCharacter | Sources/LXSCommons/Foundation/DataExtensions.swift:32-34 | any character that is neither a hex digit nor whitespace gives nil |
| HexData.WhitespacePlacement | Sources/LXSCommons/Foundation/DataExtensions.swift:35-45 | whitespace between pairs is skipped, and whitespace inside a pair gives nil |
| SwiftExtensions.Bounded | Sources/LXSCommons/Core/SwiftExtensions.swift:18-20 | `bounded(by: lo...hi)` lies in the range and clamps values below or above it to the nearer bound |
| SwiftExtensions.BoundedFrom | Sources/LXSCommons/Core/SwiftExtensions.swift:22-24 | `bounded(by: lo...)` is at least `lo`, and lifts smaller values to it |
| SwiftExtensions.BoundedThrough | Sources/LXSCommons/Core/SwiftExtensions.swift:26-28 | `bounded(by: ...hi)` is at most `hi`, and lowers larger values to it |
| SwiftExtensions.IsBoundedHalfOpen | Sources/LXSCommons/Core/SwiftExtensions.swift:30-32 | `isBounded(by: lo..<hi)` is `isBounded(by: lo...)` and `isBounded(by: ..<hi)` together, and an empty range holds nothing |
| SwiftExtensions.IsBoundedClosed | Sources/LXSCommons/Core/SwiftExtensions.swift:34-36 | `isBounded(by: lo...hi)` holds exactly when clamping to the range leaves the value alone |
| SwiftExtensions.IsBoundedFrom | Sources/LXSCommons/Core/SwiftExtensions.swift:38-40 | `isBounded(by: lo...)` holds exactly when `bounded(by: lo...)` leaves the value alone |
| SwiftExtensions.IsBoundedUpTo | Sources/LXSCommons/Core/SwiftExtensions.swift:42-44 | `isBounded(by: ..<hi)` is `isBounded(by: ...(hi - 1))` on integers |
| SwiftExtensions.IsBoundedThrough | Sources/LXSCommons/Core/SwiftExtensions.swift:46-48 | `isBounded(by: ...hi)` holds exactly when `bounded(by: ...hi)` leaves the value alone |
| SwiftExtensions.BoundedFixesTheRange | Sources/LXSCommons/Core/SwiftExtensions.swift:18-48 | clamping lands in the range, changes exactly the values outside it, and is idempotent; the closed range is both partial ranges |
| SwiftExtensions.PartialBoundedFixesTheRange | Sources/LXSCommons/Core/SwiftExtensions.swift:22-48 | each partial clamp fixes exactly its range, and the closed clamp is the two partial clamps in turn |
| SwiftExtensions.HalfOpenIsClosedBelowUpper | Sources/LXSCommons/Core/SwiftExtensions.swift:30-48 | `lo..<hi` membership is `lo...hi` membership without the upper bound |
| SwiftExtensions.NonEmpty | Sources/LXSCommons/Core/SwiftExtensions.swift:53-55 | `nonEmpty` is nil exactly for an empty collection, and otherwise the collection itself |
| SwiftExtensions.FirstIndexWhere | Sources/LXSCommons/Core/SwiftExtensions.swift:64-70 | the position of the first match, or nil when nothing matches |
| SwiftExtensions.RemovingFirst | Sources/LXSCommons/Core/SwiftExtensions.swift:64-70 | nothing is returned exactly when nothing matches, and then nothing changes; otherwise a matching element is returned and the count drops by one |
| SwiftExtensions.RemovingFirstFacts | Sources/LXSCommons/Core/SwiftExtensions.swift:64-70 | with no match nothing changes; otherwise the first match is removed and returned, the count drops by one, and the rest keep their order |
| SwiftExtensions.ReplaceableCollection.constructor | Sources/LXSCommons/Core/SwiftExtensions.swift:62 | the collection holds the given elements |
| SwiftExtensions.ReplaceableCollection.RemoveFirstWhere | Sources/LXSCommons/Core/SwiftExtensions.swift:64-70 | removal in place leaves exactly the specified collection and result |
| SwiftExtensions.ReplaceableCollection.RemoveFirstObject | Sources/LXSCommons/Core/SwiftExtensions.swift:75-81 | the first element equal to the target is removed and returned; without one, nil and no change |
| SwiftExtensions.TakingFirst | Sources/LXSCommons/Core/SwiftExtensions.swift:86-88 | every key of the pairs is a key of the dictionary; `TakingFirstKeepsFirst` adds that there are no other keys and each key holds its first value |
| SwiftExtensions.TakingLast | Sources/LXSCommons/Core/SwiftExtensions.swift:90-92 | every key of the pairs is a key of the dictionary; `TakingLastKeepsLast` adds that there are no other keys and each key holds its last value |
| SwiftExtensions.TakingFirstKeepsFirst | Sources/LXSCommons/Core/SwiftExtensions.swift:86-88 | every key of the pairs is in the dictionary, with the value of its first occurrence |
| SwiftExtensions.TakingLastKeepsLast | Sources/LXSCommons/Core/SwiftExtensions.swift:90-92 | every key of the pairs is in the dictionary, with the value of its last occurrence |
| StringExtensions.CharAt | Sources/LXSCommons/Strings/StringExtensions.swift:14-18 | `s[i]` is the character at offset `i`, the one-character slice there |
| StringExtensions.SliceHalfOpen | Sources/LXSCommons/Strings/StringExtensions.swift:20-25 | `s[a..<b]` is the `b − a` characters from offset `a` |
| StringExtensions.SliceClosed | Sources/LXSCommons/Strings/StringExtensions.swift:27-32 | `s[a...b]` is the characters at offsets `a` through `b` |
| StringExtensions.SliceUpTo | Sources/LXSCommons/Strings/StringExtensions.swift:34-38 | `s[..<n]` is the prefix of length `n` |
| StringExtensions.SliceThrough | Sources/LXSCommons/Strings/StringExtensions.swift:40-44 | `s[...n]` is the prefix of length `n + 1` |
| StringExtensions.SliceFrom | Sources/LXSCommons/Strings/StringExtensions.swift:46-50 | `s[n...]` drops the first `n` characters |
| StringExtensions.SubscriptsAgree | Sources/LXSCommons/Strings/StringExtensions.swift:20-50 | `s[a...b]` is `s[a..<b+1]`, `s[...n]` is `s[..<n+1]`, and a prefix and its suffix make up the string |
| StringExtensions.DropFirstAndLast | Sources/LXSCommons/Strings/StringExtensions.swift:20-50 | the subscripts that drop the first or last character |
| StaticCodable.Decode | Sources/LXSCommons/Core/StaticCodable.swift:13-21 | decoding fails, with `identifierNotRecognized`, exactly when no case has the identifier; a decoded case has it |
| StaticCodable.Encode | Sources/LXSCommons/Core/StaticCodable.swift:23-26 | the encoded identifier decodes back to the value among cases listing only it |
| StaticCodable.Equal | Sources/LXSCommons/Core/StaticCodable.swift:31-33 | `==` holds exactly when the two values encode alike |
| StaticCodable.Hash | Sources/LXSCommons/Core/StaticCodable.swift:35-37 | the hash is that of the encoded identifier alone; `HashConsistent` draws the consequence |
| StaticCodable.Less | Sources/LXSCommons/Core/StaticCodable.swift:42-47 | `<` never holds between `==` values, and holds only when the first value's identifier occurs in `allCases` before the second's |
| StaticCodable.FirstWithId | Sources/LXSCommons/Core/StaticCodable.swift:16 | the position of the first case with the identifier, or nil when none has it |
| StaticCodable.DecodeFindsFirst | Sources/LXSCommons/Core/StaticCodable.swift:13-21 | decoding fails with `identifierNotRecognized` exactly when no case has the identifier, and otherwise gives the first case with it |
| StaticCodable.RoundTrip | Sources/LXSCommons/Core/StaticCodable.swift:13-33 | decoding what a listed value encodes gives a value `==` to it |
| StaticCodable.SharedIdDecodesToFirst | Sources/LXSCommons/Core/StaticCodable.swift:13-26 | two cases sharing an identifier decode to the first, and are `==` |
| StaticCodable.HashConsistent | Sources/LXSCommons/Core/StaticCodable.swift:31-37 | `==` values hash alike, as `Hashable` requires; it holds by construction because the hash is taken of the identifier alone |
| StaticCodable.LessIsStrictTotalOrder | Sources/LXSCommons/Core/StaticCodable.swift:42-47 | on listed values, `<` by first position is a strict order under which exactly the `==` values are unordered |
| Logging.ApproximateValue | Sources/LXSLogging/Log.swift:29-38 | ranks lie in -2...2, and rank 0 is exactly `info` and the custom levels |
| Logging.Less | Sources/LXSLogging/Log.swift:40-58 | a lower rank comes first and a higher rank never does; no level precedes itself; custom levels are ordered by their values |
| Logging.LessIsRankedBefore | Sources/LXSLogging/Log.swift:40-58 | `<` orders by rank, then custom levels by their value with `info` between `custom(0)` and `custom(1)` |
| Logging.RankingIsInjective | Sources/LXSLogging/Log.swift:29-58 | different levels never tie in rank and position |
| Logging.LessIsStrictTotalOrder | Sources/LXSLogging/Log.swift:40-58 | `<` is irreflexive, asymmetric and transitive, and orders any two different levels |
| Logging.Ranks | Sources/LXSLogging/Log.swift:29-44 | error > warning > info and every custom level > debug > verbose |
| Logging.CustomLevels | Sources/LXSLogging/Log.swift:45-57 | `custom(a) < custom(b)` iff `a < b`; `custom(k) < info` iff `k ≤ 0`; `info < custom(k)` iff `k > 0` |
| Logging.Event.constructor | Sources/LXSLogging/Log.swift:162-170 | an event with a given message |
| Logging.Event.Deferred | Sources/LXSLogging/Log.swift:177-180 | an event whose message is computed when read |
| Logging.Event.Read | Sources/LXSLogging/Log.swift:190-199 | `read()` returns the message, computing a dynamic one and caching it as a simple message; the level is unchanged |
| Logging.Dispatch | Sources/LXSLogging/Log.swift:202-218 | a debug build stops on `error`; a release build drops `debug` and `verbose` and prints the rest |
| Logging.ReleaseKeepsRankZeroAndAbove | Sources/LXSLogging/Log.swift:202-218 | a release build never stops, and prints exactly the levels of rank 0 or higher |

## Left out

- JSON numbers are integers. Swift stores them as `Double`. Left out for that reason:
  - NaN;
  - negative zero;
  - fractions;
  - rounding;
  - `%.0f` formatting.

  `Double(string)` is modelled as Swift's integer grammar, and number-to-string formatting as decimal integer text.
- The `Int(Double)` and `UInt8(Double)` conversions in the decoder's numeric cases can trap. Numbers decode as unbounded integers instead.
- Text JSON parsing and serialization (`JSONSerialization`, `Parse.swift`, `LosslessStringConvertible.swift`) are outside the model. `Stringify` takes the serializer as a parameter.
- Swift's `Codable` machinery is outside the model:
  - the runtime type switches;
  - `codingPath`, `userInfo` and `CodingKey` conversion;
  - the dynamic cast in `convertDecoded`;
  - the `init(from:)` recursion.

  A value to encode is a primitive or the finished container tree its `encode(to:)` built. A decoded value is a primitive of one of three kinds.
- Nested containers are handed to their parent as finished trees. Writing into a nested container after it was attached (aliasing) is not modelled.
- Negative numeric keys on arrays trap in `propertyGet`/`propertySet` (`Properties.swift:60-61, 72-77`). The model treats them as keys that name no element. The finding below records what `propertyCheck` does with them.
- JsonProperties.IndexKey accepts any non-negative integer. `Int(key)` in the source also rejects keys beyond 64 bits. These keys never fall inside an array's bounds, so no result differs.
- A Swift `Character` is one Unicode scalar here. Grapheme clusters are not modelled.
- `Log.event` is I/O: it prints, and stops the program in debug builds. Only the choice it makes for each level is modelled, as `Dispatch`.
- Logging.Event.Read: the closure's side effects are not modelled.
- `Log.event` copies the event before reading it, so the cached message is not kept. That copy is not modelled.
- `Version`'s `Codable` conformance is container plumbing around `description` and parsing, which are modelled.
- Comparable values in `bounded` and `isBounded` are integers.
- `removeFirst(objectWhere:)` takes a throwing predicate. Throwing predicates are not modelled.
- `StaticCodable`: how the identifier itself is decoded from its container is not modelled. A conforming type is given by its list of cases and its identifier function.
- StaticCodable.HashConsistent: the hasher is a function of the identifier's hash.
- Versions.ValueAt: `value(at:)` with a negative index passes the `count > index` test and then traps on `components[index]`. The model makes a non-negative index a precondition; `majorValue`, `minorValue` and `patchValue` pass 0, 1 and 2.
- StaticCodable.Less: the source stops the program with `fatalError()` when a value has no case in `allCases`. The model states this as a precondition that both values are listed, since a stopped program has no result to describe.
- Geometry.EqualRectsSamePoints: the comment on `==` says two rects are equal when they contain the same points. That holds only one way for empty rects. Two zero-size rects at different origins contain no points, yet they are not equal (`EmptyRectsMayDiffer`). The converse is proved for non-empty rects only (`SamePointsEqualRects`).
- `_forEach`'s block is a closure whose effects are not modelled. The model records the calls it receives.
- Swift `Int` overflow in geometry, grid index arithmetic and `count` is not modelled. Coordinates are unbounded integers.
- Rect quirks:
  - `count` is negative for sides of mixed sign, and `Grid.init` then traps. The model's grid initializers require a `count` that is not negative.
  - For a rect with a side of 0, the iterators yield points that `contains` rejects. The enumeration properties are stated for sides that are not 0. `CollectRowByRow` and `CollectColumnByColumn` still hold for every rect.
- `Grid`'s `Equatable` conformance and the `Collection` members inherited from the standard library are not modelled.
- String subscripts with an offset outside the string trap. They are modelled as preconditions.
- `mapKeys`/`compactMapKeys` and the lowercase duplicate constructor files under `types/` are not modelled. Their behaviour is that of the `Types/` constructors, which are modelled.
- The following are not part of this model:
  - UI, random, linear algebra and platform code;
  - `Container.swift`;
  - notification observers;
  - the Foundation wrappers.

## Findings

| source | as written | input that shows it | evidently intended | confidence | as-written member | corrected member |
|---|---|---|---|---|---|---|
| Sources/LXSJson/Functions/Properties.swift:86-95 | for an array, `propertyCheck` accepts any key with `Int(key) < count`, with no lower bound, while `propertyGet`/`propertySet` index the array with that key | key "-1" on `[null]`: the check reports a property, but no element has index -1 and the subscripts trap on it | an array has exactly the properties 0 ..< count | not executed | JsonProperties.NegativeKeyReported | JsonProperties.PropertyCheckAgrees |
| Sources/LXSGridGeometry/Grid.swift:30-33 | the comment says `valuesIndex` is equivalent to row-by-row indexing, but for a negative side the storage order runs against `rowByRow`'s order | origin (0, 0), size (-2, 1): `rowByRow` yields (0, 0) then (-1, 0), while `valuesIndex` gives them slots 1 and 0 | storage follows the row-by-row order of the standardized rect, which holds for every rect with sides that are not 0 | not executed | Grids.StorageNotRowByRowForNegativeWidth | Grids.StorageIsStandardizedRowByRow |
