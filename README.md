# Custom value ops: a verified model

Fabric Loader keeps the `custom` section of a mod's metadata as a tree of
custom values: null, boolean, number, string, array and string-keyed object.
`CustomValueOpsImpl` adapts that tree to DataFixerUpper's `DynamicOps`
protocol, so a codec can read and write it like any other serialized form.
This project models that adapter in Dafny:

- `Values`: the value tree, the reasons an operation refuses its input, and
  the three-way result (`Success`, `Error`, `PartialError`), which stands for
  `DataResult`.
- `Target`: the primitive constructors of an arbitrary target representation
  (empty, boolean, string, byte, short, int, long, float, double, list, map).
  `convertTo` builds one of these.
- `Narrowing`: Java's signed integral widths, the narrowing cast between them
  (section 5.1.3 of the Java Language Specification) and
  `BigDecimal.longValueExact`.
- `CustomValueOps`: the adapter. The constructors and extractors are
  functions. The three merges are methods: they copy into a local list or
  hash map and then update it. `convertTo` and `remove` are functions.

Objects are modelled as `map<string, Value>`. The source builds every object
through `Collectors.toMap` into a `HashMap`, so entry order is not kept.
Callers may expect insertion order, but the model keeps none, as the code
keeps none.

## Model

| member | source | states |
|---|---|---|
| `Narrowing.Cast` | src/main/java/net/fabricmc/loader/metadata/CustomValueOpsImpl.java:55-60 | the cast `(byte) l`, `(short) l`, `(int) l` gives the value of the narrower type that agrees with `l` in its low-order bits (differs from it by a multiple of 2^bits), so it gives back any value already in that type |
| `Narrowing.CastExact` | src/main/java/net/fabricmc/loader/metadata/CustomValueOpsImpl.java:55-59 | the test `(w) l == l` holds exactly when `l` lies in the signed range of `w` |
| `Narrowing.LongValueExact` | src/main/java/net/fabricmc/loader/metadata/CustomValueOpsImpl.java:52-54 | a long is extracted exactly when the number has no fractional part and lies in the long range, and it then equals the number |
| `CustomValueOps.CreateMap` | src/main/java/net/fabricmc/loader/metadata/CustomValueOpsImpl.java:168-177 | a map with only string keys becomes an object whose keys are exactly the texts of those keys, each with its value; a non-string key is excluded by the precondition |
| `CustomValueOps.Collect` | src/main/java/net/fabricmc/loader/metadata/CustomValueOpsImpl.java:181 | collecting pairs with distinct keys gives a map holding every pair and nothing else |
| `CustomValueOps.CreateMapFromPairs` | src/main/java/net/fabricmc/loader/metadata/CustomValueOpsImpl.java:179-182 | an object built from pairs has a key exactly for each pair's string key, with that pair's value |
| `CustomValueOps.EmptyMap` | src/main/java/net/fabricmc/loader/metadata/CustomValueOpsImpl.java:29-32 | `emptyMap()` is the object with no entries |
| `CustomValueOps.EmptyList` | src/main/java/net/fabricmc/loader/metadata/CustomValueOpsImpl.java:34-37 | `emptyList()` is the array with no elements |
| `CustomValueOps.Keyed` | src/main/java/net/fabricmc/loader/metadata/CustomValueOpsImpl.java:145 | streaming an object and wrapping each key with `createString` gives a map with only string keys, one for each entry and with that entry's value |
| `CustomValueOps.CreateMapKeyed` | src/main/java/net/fabricmc/loader/metadata/CustomValueOpsImpl.java:130-132 | re-keying an object's entries and building an object from them gives back the same object |
| `CustomValueOps.KeyedPut` | src/main/java/net/fabricmc/loader/metadata/CustomValueOpsImpl.java:130-131 | putting a string key into the re-keyed map is the same as putting its text into the object |
| `CustomValueOps.GetNumberValue` | src/main/java/net/fabricmc/loader/metadata/CustomValueOpsImpl.java:72-78 | an error exactly when the input is not a number; otherwise success with the number it holds |
| `CustomValueOps.GetBooleanValue` | src/main/java/net/fabricmc/loader/metadata/CustomValueOpsImpl.java:85-93 | an error exactly when the input is not a boolean; otherwise success with the boolean it holds |
| `CustomValueOps.GetStringValue` | src/main/java/net/fabricmc/loader/metadata/CustomValueOpsImpl.java:100-106 | an error exactly when the input is not a string; otherwise success with its text |
| `CustomValueOps.GetMapValues` | src/main/java/net/fabricmc/loader/metadata/CustomValueOpsImpl.java:160-166 | an error exactly when the input is not an object; otherwise string-keyed entries from which `createMap` rebuilds the input |
| `CustomValueOps.GetStream` | src/main/java/net/fabricmc/loader/metadata/CustomValueOpsImpl.java:184-190 | an error exactly when the input is not an array; otherwise its elements in order |
| `CustomValueOps.ExtractCreated` | src/main/java/net/fabricmc/loader/metadata/CustomValueOpsImpl.java:72-111 | each extractor gives back what the matching constructor was given, e.g. `getBooleanValue(createBoolean(b)) == Success(b)`, and `getMapValues(createMap(m)) == Success(m)` for every string-keyed map `m` |
| `CustomValueOps.MergeToList` | src/main/java/net/fabricmc/loader/metadata/CustomValueOpsImpl.java:113-121 | an error exactly when the receiver is not an array; otherwise a new array one longer, whose prefix is the old elements and whose last element is the new value |
| `CustomValueOps.CopyEntries` | src/main/java/net/fabricmc/loader/metadata/CustomValueOpsImpl.java:145 | the copied hash map is the object's entries keyed by their string values |
| `CustomValueOps.MergeToMap` | src/main/java/net/fabricmc/loader/metadata/CustomValueOpsImpl.java:123-133 | an error when the receiver is not an object or the key is not a string; otherwise the key maps to the value, every other old key keeps its value, and no other key appears |
| `CustomValueOps.MergeEntriesToMap` | src/main/java/net/fabricmc/loader/metadata/CustomValueOpsImpl.java:140-158 | an error on a non-object; otherwise every string-keyed entry is put in order, the non-string keys are collected in encounter order, and the merged object comes back as a success or, if keys were collected, as a partial error carrying them |
| `CustomValueOps.PutAllKeys` | src/main/java/net/fabricmc/loader/metadata/CustomValueOpsImpl.java:147-153 | a key is in the merged object exactly when it was there before or some entry has it as a string key |
| `CustomValueOps.PutAllLastWins` | src/main/java/net/fabricmc/loader/metadata/CustomValueOpsImpl.java:147-153 | a key's merged value is the value of its last entry |
| `CustomValueOps.PutAllUntouched` | src/main/java/net/fabricmc/loader/metadata/CustomValueOpsImpl.java:147-153 | a key that no entry names keeps its old value |
| `CustomValueOps.NonStringKeysExact` | src/main/java/net/fabricmc/loader/metadata/CustomValueOpsImpl.java:147-156 | every non-string key is collected and every collected key is a non-string; nothing is collected exactly when every key is a string |
| `CustomValueOps.PutAllSingle` | src/main/java/net/fabricmc/loader/metadata/CustomValueOpsImpl.java:141-158 | merging one string-keyed entry in the batch form is the single-key put, with nothing collected |
| `CustomValueOps.RemoveAsWritten` | src/main/java/net/fabricmc/loader/metadata/CustomValueOpsImpl.java:197-203 | as written: a non-object comes back unchanged; an object keeps only the given key, with its value |
| `CustomValueOps.RemoveAsWrittenKeepsKey` | src/main/java/net/fabricmc/loader/metadata/CustomValueOpsImpl.java:202 | on `{a, b}`, removing `b` as written keeps `b` and drops `a` |
| `CustomValueOps.Remove` | src/main/java/net/fabricmc/loader/metadata/CustomValueOpsImpl.java:197-203 | as intended: a non-object comes back unchanged; an object loses the given key and keeps every other entry |
| `CustomValueOps.RemoveIdempotent` | src/main/java/net/fabricmc/loader/metadata/CustomValueOpsImpl.java:197-203 | as intended (`Remove`): removing a key twice is the same as removing it once |
| `CustomValueOps.RemoveAfterPut` | src/main/java/net/fabricmc/loader/metadata/CustomValueOpsImpl.java:197-203 | as intended (`Remove`): putting a key and then removing it gives the same object as removing it from the original |
| `CustomValueOps.RemoveAbsent` | src/main/java/net/fabricmc/loader/metadata/CustomValueOpsImpl.java:197-203 | as intended (`Remove`): removing a key the object lacks, or removing from a non-object, changes nothing |
| `CustomValueOps.ConvertNumber` | src/main/java/net/fabricmc/loader/metadata/CustomValueOpsImpl.java:52-69 | a number, once turned into the decimal its double prints as, always goes to one of the numeric constructors |
| `CustomValueOps.ConvertTo` | src/main/java/net/fabricmc/loader/metadata/CustomValueOpsImpl.java:39-70 | each kind of value goes to the matching kind of constructor, and only that kind |
| `CustomValueOps.ConvertLeaves` | src/main/java/net/fabricmc/loader/metadata/CustomValueOpsImpl.java:45-50 | null goes to the empty value; string and boolean pass through unchanged |
| `CustomValueOps.ConvertIntegral` | src/main/java/net/fabricmc/loader/metadata/CustomValueOpsImpl.java:54-62 | a number whose decimal is the long `l` goes to byte iff `l` is in [-128, 127], else short iff in [-32768, 32767], else int iff in the 32-bit range, else long; the payload equals `l` |
| `CustomValueOps.ConvertIntegralNarrowest` | src/main/java/net/fabricmc/loader/metadata/CustomValueOpsImpl.java:54-62 | for a number whose decimal is a long, no width wider than the narrowest one holding that long is chosen |
| `CustomValueOps.ConvertNonIntegral` | src/main/java/net/fabricmc/loader/metadata/CustomValueOpsImpl.java:63-69 | a number whose decimal has a fraction, or lies beyond the long range, goes to float when the float test holds of that decimal and to double otherwise, carrying the decimal |
| `CustomValueOps.ConvertLargestLong` | src/main/java/net/fabricmc/loader/metadata/CustomValueOpsImpl.java:52-66 | the largest long rounds to the double 2^63, whose decimal lies beyond the long range, so it is emitted as a float or a double carrying that decimal and never as a long |
| `CustomValueOps.ConvertSmallestLong` | src/main/java/net/fabricmc/loader/metadata/CustomValueOpsImpl.java:52-66 | the smallest long prints as -9223372036854776000, below the long range, so it is emitted as a float or a double carrying that decimal and never as a long |
| `CustomValueOps.ConvertBoundaries` | src/main/java/net/fabricmc/loader/metadata/CustomValueOpsImpl.java:54-62 | when integers up to 2^53 print as themselves, 127, 128, 32767, 32768, 2147483647 and 2147483648 go to byte, short, short, int, int and long |
| `CustomValueOps.ConvertNumberReadBack` | src/main/java/net/fabricmc/loader/metadata/CustomValueOpsImpl.java:52-69 | a converted number, read back, is the decimal its double prints as |
| `CustomValueOps.ReadBackMap` | src/main/java/net/fabricmc/loader/metadata/CustomValueOpsImpl.java:168-177 | a target map read back through `createString` and `createMap` is an object with the same keys, each holding its value read back |
| `CustomValueOps.ReadBackEntries` | src/main/java/net/fabricmc/loader/metadata/CustomValueOpsImpl.java:168-177 | a target map whose every value reads back to an object's value, under the same keys, reads back to that object |
| `CustomValueOps.ConvertObjectEntries` | src/main/java/net/fabricmc/loader/metadata/CustomValueOpsImpl.java:41-42 | an object goes to a target map with the same keys, each value converted in turn |
| `CustomValueOps.ObjectReadBack` | src/main/java/net/fabricmc/loader/metadata/CustomValueOpsImpl.java:39-42 | an object survives the trip out and back once each of its values does |
| `CustomValueOps.ConvertRoundTrip` | src/main/java/net/fabricmc/loader/metadata/CustomValueOpsImpl.java:39-70 | when every number in the value equals the decimal its double prints as, converting it out and rebuilding it with the adapter's constructors gives the same value |

## Left out

- Floating point. A number is modelled by its exact value (a `real`). Line 52
  turns it into `BigDecimal.valueOf(n.doubleValue())`, the decimal that
  `Double.toString` prints for the nearest double; that step is a parameter
  `toDecimal` of `ConvertTo`, and neither IEEE rounding nor the shortest
  decimal printing is modelled. A double is identified with the decimal it
  prints as, so `bigDecimal.doubleValue()` at line 64 gives that decimal back.
- ConvertIntegral: holds of the decimal the number prints as, not of the
  number. The two differ for large values. Widening a long to a double rounds
  to nearest, ties to even, and near ±2^63 the doubles are 1024 apart: longs
  from 2^63 - 512 up round to 2^63, and longs from -2^63 to -2^63 + 512 round
  to -2^63. Those print as ±9.223372036854776E18, outside the long range, so
  they go to float or double (`ConvertLargestLong`, `ConvertSmallestLong`).
  An integral double above about 10^17 prints with trailing zeros, so the
  long emitted is that decimal rather than the double. A NaN or infinite
  number makes line 52 throw `NumberFormatException` outside the `try`; a
  `real` has neither, so that exception is not modelled.
- ConvertIntegralNarrowest: holds only when the decimal the number prints as
  is the long; the longs from -2^63 to -2^63 + 512 do not meet that
  requirement, since they print below the long range and are emitted as a
  float or double (`ConvertSmallestLong`).
- ConvertNumberReadBack: reads back the decimal the number prints as, not the
  number: 2^62 reads back as 4611686018427388000, and any number that is not a
  double reads back as its nearest double's printed decimal.
- ConvertRoundTrip: requires every number to equal the decimal its double
  prints as (`ExactDecimals`). That excludes numbers that are not doubles and
  large integral doubles such as 2^62 and Long.MIN_VALUE, whose printed
  decimals differ from them; for those the round trip gives the printed
  decimal (`ConvertNumberReadBack`). NaN and infinities are not numbers here.
  The array and object cases rest on the structural recursion assumed for
  `convertList` and `convertMap`.
- The float test `(float) d == d` (line 65) is a parameter `fitsFloat` of
  `ConvertTo`; IEEE rounding to 32 bits is not modelled. The float payload is
  taken to be `d` itself when the test holds.
- `ConvertTo`: `convertMap` and `convertList` are default methods of
  `CustomValueOps` and are not part of this model. They are modelled as plain
  structural recursion: each element or entry value is converted in turn.
  Target maps are keyed by text, and no claim is made about order.
- `ReadBack` stands for the target side walking its own tree and calling this
  adapter's constructors. That side is not part of this model.
- The error message text. Each message embeds `toString()` of a value whose
  class is not part of this model, so the model keeps the value and the kind
  of problem instead.
- The `mergeToMap` overload that takes a `Map` (lines 135-138). It forwards to
  the batch form in the given map's iteration order. The model has no such order, so
  `MergeEntriesToMap` takes the entries as a sequence in the order they are met.
- `GetMapValues` returns the entries as a map keyed by string values. The
  source returns a stream of pairs in the iteration order of the object's
  backing map, and that order is not modelled.
- `CreateMapFromPairs`: `Collectors.toMap` throws on a repeated key. The model
  makes distinct keys a precondition instead of modelling the exception.
- `createNumeric`, `createBoolean`, `createString`, `empty` and `createList`
  build a value and nothing more. They have no contract of their own; `ExtractCreated` and
  `ConvertRoundTrip` state what they promise.
- Object identity. The boolean singletons and the identity tests against them
  (lines 87-89) are treated as value equality. Key equality is equality of
  the key text.
- `stream` (lines 205-211) is the iteration the functions and loops above use.
  It has no model of its own.

## Findings

| source | as written | input that shows it | evidently intended | confidence | as-written member | corrected member |
|---|---|---|---|---|---|---|
| src/main/java/net/fabricmc/loader/metadata/CustomValueOpsImpl.java:202 | the filter keeps entries whose key equals `key`, so `remove` returns an object holding only that key | `remove({"a": null, "b": true}, "b")` gives `{"b": true}` | keep every entry except `key`: `{"a": null}` | high (not executed) | `CustomValueOps.RemoveAsWrittenKeepsKey` | `CustomValueOps.Remove` |
