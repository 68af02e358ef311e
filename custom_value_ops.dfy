/**
 * The adapter between the custom value tree and the generic conversion
 * protocol: constructors, tag-checked extractors, persistent merges, removal
 * and the outbound conversion with exact integer narrowing.
 *
 * The adapter is a stateless singleton, so every operation is a module-level
 * member. Operations that the source writes as single expressions or stream
 * pipelines are functions; the merges, which fill a local list or hash map
 * step by step, are methods with loops.
 */
module CustomValueOps {
  import opened Values
  import T = Target
  import N = Narrowing

  // ---------------------------------------------------------------------------
  // Constructors
  // ---------------------------------------------------------------------------

  function Empty(): Value {
    Null
  }

  function CreateNumeric(n: real): Value {
    Number(n)
  }

  function CreateBoolean(b: bool): Value {
    Boolean(b)
  }

  function CreateString(s: string): Value {
    String(s)
  }

  /** An array holding the given elements in the given order. */
  function CreateList(xs: seq<Value>): Value {
    Array(xs)
  }

  /** True when every key of a value-keyed map is a string value. */
  predicate StringKeysOnly(m: map<Value, Value>) {
    forall k :: k in m ==> k.String?
  }

  /**
   * An object from a value-keyed map. A non-string key makes the source throw
   * an IllegalArgumentException; this is the precondition.
   */
  function CreateMap(m: map<Value, Value>): (r: Value)
    requires StringKeysOnly(m)
    ensures r.Object?
    ensures r.fields.Keys == set k | k in m :: k.text
    ensures forall k :: k in m ==> r.fields[k.text] == m[k]
  {
    Object(map k | k in m :: k.text := m[k])
  }

  /**
   * An object from a sequence of key-value pairs, collected into a hash map
   * first. A repeated key makes that collection throw, as a non-string key
   * makes `CreateMap` throw; both are preconditions.
   */
  function CreateMapFromPairs(pairs: seq<(Value, Value)>): (r: Value)
    requires forall i :: 0 <= i < |pairs| ==> pairs[i].0.String?
    requires forall i, j :: 0 <= i < j < |pairs| ==> pairs[i].0 != pairs[j].0
    ensures r.Object?
    ensures forall s :: s in r.fields <==> exists i :: 0 <= i < |pairs| && pairs[i].0 == String(s)
    ensures forall i :: 0 <= i < |pairs| ==> r.fields[pairs[i].0.text] == pairs[i].1
  {
    CreateMap(Collect(pairs))
  }

  /** The hash map `Collectors.toMap` builds from pairs whose keys are distinct. */
  function Collect(pairs: seq<(Value, Value)>): (m: map<Value, Value>)
    requires forall i, j :: 0 <= i < j < |pairs| ==> pairs[i].0 != pairs[j].0
    ensures forall i :: 0 <= i < |pairs| ==> pairs[i].0 in m && m[pairs[i].0] == pairs[i].1
    ensures forall k :: k in m ==> exists i :: 0 <= i < |pairs| && pairs[i].0 == k
  {
    if pairs == [] then map[]
    else
      var last := |pairs| - 1;
      var m := Collect(pairs[..last]);
      assert forall i :: 0 <= i < last ==> pairs[..last][i] == pairs[i];
      m[pairs[last].0 := pairs[last].1]
  }

  function EmptyMap(): (r: Value)
    ensures r == Object(map[])
  {
    CreateMap(map[])
  }

  function EmptyList(): (r: Value)
    ensures r == Array([])
  {
    CreateList([])
  }

  // ---------------------------------------------------------------------------
  // The entries of an object as string values, and back
  // ---------------------------------------------------------------------------

  /**
   * The entries of an object re-keyed by string values: what streaming an
   * object and pairing `createString(key)` with each value yields.
   */
  function Keyed(fields: map<string, Value>): (r: map<Value, Value>)
    ensures StringKeysOnly(r)
    ensures forall s :: s in fields ==> String(s) in r && r[String(s)] == fields[s]
    ensures forall k :: k in r ==> k.text in fields
  {
    map s | s in fields :: String(s) := fields[s]
  }

  /** Re-keying the entries and building an object from them gives the object back. */
  lemma CreateMapKeyed(fields: map<string, Value>)
    ensures CreateMap(Keyed(fields)) == Object(fields)
  {
  }

  /** Putting a string key into the re-keyed map is putting its text into the object. */
  lemma KeyedPut(fields: map<string, Value>, s: string, v: Value)
    ensures Keyed(fields[s := v]) == Keyed(fields)[String(s) := v]
  {
  }

  // ---------------------------------------------------------------------------
  // Extractors
  // ---------------------------------------------------------------------------

  function GetNumberValue(input: Value): (r: Result<real>)
    ensures r.Success? || r.Error?
    ensures r.Error? <==> !input.Number?
    ensures r.Error? ==> r.problem == NotANumber(input)
    ensures r.Success? ==> input == Number(r.value)
  {
    if !input.Number? then Error(NotANumber(input)) else Success(input.n)
  }

  /** The source compares with the two boolean singletons; here that is a tag test. */
  function GetBooleanValue(input: Value): (r: Result<bool>)
    ensures r.Success? || r.Error?
    ensures r.Error? <==> !input.Boolean?
    ensures r.Error? ==> r.problem == NotABoolean(input)
    ensures r.Success? ==> input == Boolean(r.value)
  {
    if input == Boolean(true) then Success(true)
    else if input == Boolean(false) then Success(false)
    else Error(NotABoolean(input))
  }

  function GetStringValue(input: Value): (r: Result<string>)
    ensures r.Success? || r.Error?
    ensures r.Error? <==> !input.String?
    ensures r.Error? ==> r.problem == NotAString(input)
    ensures r.Success? ==> input == String(r.value)
  {
    if !input.String? then Error(NotAString(input)) else Success(input.text)
  }

  /** The entries of an object, each key turned back into a string value. */
  function GetMapValues(input: Value): (r: Result<map<Value, Value>>)
    ensures r.Success? || r.Error?
    ensures r.Error? <==> !input.Object?
    ensures r.Error? ==> r.problem == NotAnObject(input)
    ensures r.Success? ==> StringKeysOnly(r.value) && CreateMap(r.value) == input
  {
    if input.Object? then CreateMapKeyed(input.fields); Success(Keyed(input.fields))
    else Error(NotAnObject(input))
  }

  /** The elements of an array, in order. */
  function GetStream(input: Value): (r: Result<seq<Value>>)
    ensures r.Success? || r.Error?
    ensures r.Error? <==> !input.Array?
    ensures r.Error? ==> r.problem == NotAnArray(input)
    ensures r.Success? ==> input == CreateList(r.value)
  {
    if !input.Array? then Error(NotAnArray(input)) else Success(input.elems)
  }

  /** Each extractor reads back what the matching constructor built. */
  lemma ExtractCreated(n: real, b: bool, s: string, xs: seq<Value>, m: map<Value, Value>)
    requires StringKeysOnly(m)
    ensures GetNumberValue(CreateNumeric(n)) == Success(n)
    ensures GetBooleanValue(CreateBoolean(b)) == Success(b)
    ensures GetStringValue(CreateString(s)) == Success(s)
    ensures GetStream(CreateList(xs)) == Success(xs)
    ensures GetMapValues(CreateMap(m)) == Success(m)
  {
    var o := CreateMap(m);
    assert forall k :: k in m ==> k == String(k.text);
    assert Keyed(o.fields) == m;
  }

  // ---------------------------------------------------------------------------
  // Merges
  // ---------------------------------------------------------------------------

  /**
   * Appends one element to an array, building a new array: the old elements
   * are copied into a fresh list, then the element is added at its end.
   */
  method MergeToList(list: Value, value: Value) returns (r: Result<Value>)
    ensures r.Success? || r.Error?
    ensures r.Error? <==> !list.Array?
    ensures r.Error? ==> r.problem == NotAnArray(list)
    ensures r.Success? ==>
      && r.value.Array?
      && |r.value.elems| == |list.elems| + 1
      && r.value.elems[..|list.elems|] == list.elems
      && r.value.elems[|list.elems|] == value
  {
    if !list.Array? {
      return Error(NotAnArray(list));
    }
    var xs := list.elems;
    var values: seq<Value> := [];
    var i := 0;
    while i < |xs|
      invariant 0 <= i <= |xs|
      invariant values == xs[..i]
    {
      values := values + [xs[i]];
      i := i + 1;
    }
    values := values + [value];
    r := Success(CreateList(values));
  }

  /** Copying one more key of the object adds its string value to the re-keyed copy. */
  lemma KeyedStep(fields: map<string, Value>, todo: set<string>, s: string)
    requires s in todo && todo <= fields.Keys
    ensures Keyed(fields - (todo - {s})) == Keyed(fields - todo)[String(s) := fields[s]]
  {
    assert (fields - (todo - {s})) == (fields - todo)[s := fields[s]];
    KeyedPut(fields - todo, s, fields[s]);
  }

  /**
   * The hash map the merges start from: every entry of the object, keyed by
   * the string value of its key.
   */
  method CopyEntries(fields: map<string, Value>) returns (valueMap: map<Value, Value>)
    ensures valueMap == Keyed(fields)
  {
    valueMap := map[];
    var todo := fields.Keys;
    while todo != {}
      invariant todo <= fields.Keys
      invariant valueMap == Keyed(fields - todo)
      decreases todo
    {
      var s :| s in todo;
      KeyedStep(fields, todo, s);
      valueMap := valueMap[String(s) := fields[s]];
      todo := todo - {s};
    }
    assert fields - todo == fields;
  }

  /**
   * Inserts or overwrites one key of an object. Fails when the receiver is
   * not an object or the key is not a string.
   */
  method MergeToMap(m: Value, key: Value, value: Value) returns (r: Result<Value>)
    ensures r.Success? || r.Error?
    ensures r.Error? <==> !m.Object? || !key.String?
    ensures !m.Object? ==> r == Error(MapNotAnObject(m))
    ensures m.Object? && !key.String? ==> r == Error(KeyNotAString(key))
    ensures r.Success? ==>
      && r.value.Object?
      && r.value.fields.Keys == m.fields.Keys + {key.text}
      && r.value.fields[key.text] == value
      && forall s :: s in m.fields && s != key.text ==> r.value.fields[s] == m.fields[s]
  {
    if !m.Object? {
      return Error(MapNotAnObject(m));
    } else if !key.String? {
      return Error(KeyNotAString(key));
    }
    var valueMap := CopyEntries(m.fields);
    KeyedPut(m.fields, key.text, value);
    valueMap := valueMap[key := value];
    CreateMapKeyed(m.fields[key.text := value]);
    r := Success(CreateMap(valueMap));
  }

  /** The object after putting every string-keyed entry, in order; later entries win. */
  function PutAll(fields: map<string, Value>, entries: seq<(Value, Value)>): map<string, Value>
  {
    if entries == [] then fields
    else
      var (k, v) := entries[|entries| - 1];
      var before := PutAll(fields, entries[..|entries| - 1]);
      if k.String? then before[k.text := v] else before
  }

  /** The keys of the entries that are not strings, in encounter order. */
  function NonStringKeys(entries: seq<(Value, Value)>): seq<Value>
  {
    if entries == [] then []
    else
      var k := entries[|entries| - 1].0;
      var before := NonStringKeys(entries[..|entries| - 1]);
      if k.String? then before else before + [k]
  }

  /**
   * Merges many entries into an object. String-keyed entries are put in
   * encounter order; the others are not inserted but collected, and then the
   * result is an error that still carries the merged object.
   */
  method MergeEntriesToMap(m: Value, entries: seq<(Value, Value)>) returns (r: Result<Value>)
    ensures !m.Object? ==> r == Error(MapNotAnObject(m))
    ensures m.Object? && NonStringKeys(entries) == [] ==>
      r == Success(Object(PutAll(m.fields, entries)))
    ensures m.Object? && NonStringKeys(entries) != [] ==>
      r == PartialError(KeysNotStrings(NonStringKeys(entries)), Object(PutAll(m.fields, entries)))
  {
    if !m.Object? {
      return Error(MapNotAnObject(m));
    }
    var valueMap := CopyEntries(m.fields);
    var missed: seq<Value> := [];
    var i := 0;
    while i < |entries|
      invariant 0 <= i <= |entries|
      invariant valueMap == Keyed(PutAll(m.fields, entries[..i]))
      invariant missed == NonStringKeys(entries[..i])
    {
      var (k, v) := entries[i];
      assert entries[..i + 1][..i] == entries[..i];
      if !k.String? {
        missed := missed + [k];
      } else {
        KeyedPut(PutAll(m.fields, entries[..i]), k.text, v);
        valueMap := valueMap[k := v];
      }
      i := i + 1;
    }
    assert entries[..i] == entries;
    CreateMapKeyed(PutAll(m.fields, entries));
    if missed != [] {
      return PartialError(KeysNotStrings(missed), CreateMap(valueMap));
    }
    r := Success(CreateMap(valueMap));
  }

  /** A key is in the merged object iff it was there or some entry has it as a string key. */
  lemma {:induction false} PutAllKeys(fields: map<string, Value>, entries: seq<(Value, Value)>, s: string)
    ensures s in PutAll(fields, entries) <==>
      s in fields || exists i :: 0 <= i < |entries| && entries[i].0 == String(s)
  {
    if entries != [] {
      var last := |entries| - 1;
      PutAllKeys(fields, entries[..last], s);
      if exists i :: 0 <= i < |entries| && entries[i].0 == String(s) {
        var i :| 0 <= i < |entries| && entries[i].0 == String(s);
        if i < last {
          assert entries[..last][i] == entries[i];
        }
      }
      if exists i :: 0 <= i < last && entries[..last][i].0 == String(s) {
        var i :| 0 <= i < last && entries[..last][i].0 == String(s);
        assert entries[i].0 == String(s);
      }
    }
  }

  /** The merged value of a key is that of its last string-keyed entry. */
  lemma {:induction false} PutAllLastWins(fields: map<string, Value>, entries: seq<(Value, Value)>, i: nat)
    requires i < |entries| && entries[i].0.String?
    requires forall j :: i < j < |entries| ==> entries[j].0 != entries[i].0
    ensures entries[i].0.text in PutAll(fields, entries)
    ensures PutAll(fields, entries)[entries[i].0.text] == entries[i].1
  {
    var last := |entries| - 1;
    if i < last {
      assert entries[..last][i] == entries[i];
      forall j | i < j < last
        ensures entries[..last][j].0 != entries[..last][i].0
      {
        assert entries[..last][j] == entries[j];
      }
      PutAllLastWins(fields, entries[..last], i);
    }
  }

  /** A key that no entry names as a string keeps its old value. */
  lemma {:induction false} PutAllUntouched(fields: map<string, Value>, entries: seq<(Value, Value)>, s: string)
    requires s in fields
    requires forall j :: 0 <= j < |entries| ==> entries[j].0 != String(s)
    ensures s in PutAll(fields, entries) && PutAll(fields, entries)[s] == fields[s]
  {
    if entries != [] {
      var last := |entries| - 1;
      forall j | 0 <= j < last
        ensures entries[..last][j].0 != String(s)
      {
        assert entries[..last][j] == entries[j];
      }
      PutAllUntouched(fields, entries[..last], s);
    }
  }

  /**
   * The collected keys are exactly the non-string keys: every one of them is
   * collected and nothing else is, so the entries are rejected only when some
   * key is not a string.
   */
  lemma {:induction false} NonStringKeysExact(entries: seq<(Value, Value)>)
    ensures forall k :: k in NonStringKeys(entries) ==> !k.String?
    ensures forall i :: 0 <= i < |entries| && !entries[i].0.String? ==> entries[i].0 in NonStringKeys(entries)
    ensures |NonStringKeys(entries)| <= |entries|
    ensures NonStringKeys(entries) == [] <==> forall i :: 0 <= i < |entries| ==> entries[i].0.String?
  {
    if entries != [] {
      var last := |entries| - 1;
      NonStringKeysExact(entries[..last]);
      if forall i :: 0 <= i < |entries| ==> entries[i].0.String? {
        forall i | 0 <= i < last
          ensures entries[..last][i].0.String?
        {
          assert entries[..last][i] == entries[i];
        }
      } else if NonStringKeys(entries[..last]) == [] {
        forall i | 0 <= i < last
          ensures entries[i].0.String?
        {
          assert entries[..last][i] == entries[i];
        }
      }
    }
  }

  /** Merging one string-keyed entry in the batch form agrees with the single-key merge. */
  lemma PutAllSingle(fields: map<string, Value>, s: string, v: Value)
    ensures PutAll(fields, [(String(s), v)]) == fields[s := v]
    ensures NonStringKeys([(String(s), v)]) == []
  {
  }

  // ---------------------------------------------------------------------------
  // Removal
  // ---------------------------------------------------------------------------

  /**
   * `remove` as the source writes it: on an object, the stream filter keeps
   * the entries whose key EQUALS the given key, so the result holds at most
   * that key, rather than everything but it. A non-object is returned unchanged.
   */
  function RemoveAsWritten(input: Value, key: string): (r: Value)
    ensures !input.Object? ==> r == input
    ensures input.Object? ==> r.Object? && r.fields.Keys == input.fields.Keys * {key}
    ensures input.Object? && key in input.fields ==> r.fields[key] == input.fields[key]
  {
    if !input.Object? then input
    else Object(map s | s in input.fields && s == key :: input.fields[s])
  }

  /** An object whose key is removed still has it, and loses every other key. */
  lemma RemoveAsWrittenKeepsKey()
    ensures var input := Object(map["a" := Null, "b" := Boolean(true)]);
      && "b" in RemoveAsWritten(input, "b").fields
      && "a" !in RemoveAsWritten(input, "b").fields
  {
  }

  /** `remove` as evidently intended: drop the key, keep everything else. */
  function Remove(input: Value, key: string): (r: Value)
    ensures !input.Object? ==> r == input
    ensures input.Object? ==> r.Object? && r.fields.Keys == input.fields.Keys - {key}
    ensures input.Object? ==> forall s :: s in r.fields ==> r.fields[s] == input.fields[s]
  {
    if !input.Object? then input
    else Object(map s | s in input.fields && s != key :: input.fields[s])
  }

  /** Removing twice is removing once. */
  lemma RemoveIdempotent(input: Value, key: string)
    ensures Remove(Remove(input, key), key) == Remove(input, key)
  {
  }

  /** Removing a key that was just put undoes the put, whatever the key held before. */
  lemma RemoveAfterPut(fields: map<string, Value>, key: string, v: Value)
    ensures Remove(Object(fields[key := v]), key) == Remove(Object(fields), key)
  {
  }

  /** Removing a key the object does not have leaves it unchanged. */
  lemma RemoveAbsent(input: Value, key: string)
    requires input.Object? ==> key !in input.fields
    ensures Remove(input, key) == input
  {
  }

  // ---------------------------------------------------------------------------
  // Outbound conversion
  // ---------------------------------------------------------------------------

  /**
   * A number in the target representation. The number is first turned into
   * a decimal: `toDecimal` is the value of `BigDecimal.valueOf` applied to its
   * `doubleValue()`, the decimal that `Double.toString` prints for that double.
   * An integral decimal in the long range goes to the narrowest of byte,
   * short, int and long whose cast gives it back; any other decimal goes to
   * float when `fitsFloat` (the source's test `(float) d == d` on the double
   * read back from the decimal) holds of it, and to double otherwise. A double
   * is identified here with the decimal it prints as, so the float or double
   * payload is that decimal.
   */
  function ConvertNumber(n: real, toDecimal: real -> real, fitsFloat: real -> bool): (r: T.Out)
    ensures r.IsNumeric()
  {
    var d := toDecimal(n);
    match N.LongValueExact(d)
    case Some(l) =>
      if N.Cast(l, N.Byte) == l then T.Byte(N.Cast(l, N.Byte))
      else if N.Cast(l, N.Short) == l then T.Short(N.Cast(l, N.Short))
      else if N.Cast(l, N.Int) == l then T.Int(N.Cast(l, N.Int))
      else T.Long(l)
    case None =>
      if fitsFloat(d) then T.Float(d) else T.Double(d)
  }

  /**
   * `convertTo`: rebuilds a value inside the target representation, leaf by
   * leaf. Arrays and objects are converted element by element.
   */
  function ConvertTo(input: Value, toDecimal: real -> real, fitsFloat: real -> bool): (r: T.Out)
    ensures input.Null? <==> r.Empty?
    ensures input.Boolean? <==> r.Bool?
    ensures input.String? <==> r.Str?
    ensures input.Number? <==> r.IsNumeric()
    ensures input.Array? <==> r.List?
    ensures input.Object? <==> r.Map?
  {
    match input
    case Object(fields) => T.Map(map s | s in fields :: ConvertTo(fields[s], toDecimal, fitsFloat))
    case Array(xs) => T.List(seq(|xs|, i requires 0 <= i < |xs| => ConvertTo(xs[i], toDecimal, fitsFloat)))
    case Null => T.Empty
    case String(s) => T.Str(s)
    case Boolean(b) => T.Bool(b)
    case Number(n) => ConvertNumber(n, toDecimal, fitsFloat)
  }

  /** Null, string and boolean leaves pass through unchanged. */
  lemma ConvertLeaves(s: string, b: bool, toDecimal: real -> real, fitsFloat: real -> bool)
    ensures ConvertTo(Null, toDecimal, fitsFloat) == T.Empty
    ensures ConvertTo(String(s), toDecimal, fitsFloat) == T.Str(s)
    ensures ConvertTo(Boolean(b), toDecimal, fitsFloat) == T.Bool(b)
  {
  }

  /**
   * Exact narrowing: a number whose decimal is the long `l` goes to byte iff
   * `l` lies in [-128, 127], else to short iff it lies in [-32768, 32767],
   * else to int iff it lies in the 32-bit range, else to long; the emitted
   * payload is always `l` itself.
   */
  lemma ConvertIntegral(n: real, l: int, toDecimal: real -> real, fitsFloat: real -> bool)
    requires -0x8000_0000_0000_0000 <= l < 0x8000_0000_0000_0000
    requires toDecimal(n) == l as real
    ensures var r := ConvertTo(Number(n), toDecimal, fitsFloat);
      && r.IsIntegral()
      && r.i == l
      && (r.Byte? <==> -128 <= l <= 127)
      && (r.Short? <==> !(-128 <= l <= 127) && -32768 <= l <= 32767)
      && (r.Int? <==> !(-32768 <= l <= 32767) && -0x8000_0000 <= l < 0x8000_0000)
      && (r.Long? <==> !(-0x8000_0000 <= l < 0x8000_0000))
  {
  }

  /**
   * The width emitted for a number whose decimal is a long holds that long,
   * and no narrower width does.
   */
  lemma ConvertIntegralNarrowest(n: real, l: int, toDecimal: real -> real, fitsFloat: real -> bool, w: N.Width)
    requires N.InRange(l, N.Long)
    requires toDecimal(n) == l as real
    requires N.InRange(l, w)
    ensures var r := ConvertTo(Number(n), toDecimal, fitsFloat);
      match w
      case Byte => r.Byte?
      case Short => r.Byte? || r.Short?
      case Int => r.Byte? || r.Short? || r.Int?
      case Long => r.IsIntegral()
  {
  }

  /**
   * A number whose decimal has a fractional part, or lies beyond the long
   * range, goes to float when the float test holds of it and to double
   * otherwise, carrying that decimal.
   */
  lemma ConvertNonIntegral(n: real, toDecimal: real -> real, fitsFloat: real -> bool)
    requires var d := toDecimal(n); d.Floor as real != d || !N.InRange(d.Floor, N.Long)
    ensures var r := ConvertTo(Number(n), toDecimal, fitsFloat);
      && (r.Float? <==> fitsFloat(toDecimal(n)))
      && (r.Double? <==> !fitsFloat(toDecimal(n)))
      && r.d == toDecimal(n)
  {
  }

  /**
   * The largest long, 2^63 - 1, rounds to the double 2^63, which prints as
   * 9223372036854776000, beyond the long range: it is emitted as a float or a
   * double, never as a long.
   */
  lemma ConvertLargestLong(toDecimal: real -> real, fitsFloat: real -> bool)
    requires toDecimal(0x7FFF_FFFF_FFFF_FFFF as real) >= 0x8000_0000_0000_0000 as real
    ensures var r := ConvertTo(Number(0x7FFF_FFFF_FFFF_FFFF as real), toDecimal, fitsFloat);
      && !r.IsIntegral()
      && (r.Float? <==> fitsFloat(toDecimal(0x7FFF_FFFF_FFFF_FFFF as real)))
      && r.d == toDecimal(0x7FFF_FFFF_FFFF_FFFF as real)
  {
  }

  /**
   * The smallest long, -2^63, is a double exactly, but that double prints as
   * -9223372036854776000, below the long range: it too is emitted as a float
   * or a double, never as a long.
   */
  lemma ConvertSmallestLong(toDecimal: real -> real, fitsFloat: real -> bool)
    requires toDecimal(-0x8000_0000_0000_0000 as real) < -0x8000_0000_0000_0000 as real
    ensures var r := ConvertTo(Number(-0x8000_0000_0000_0000 as real), toDecimal, fitsFloat);
      && !r.IsIntegral()
      && (r.Float? <==> fitsFloat(toDecimal(-0x8000_0000_0000_0000 as real)))
      && r.d == toDecimal(-0x8000_0000_0000_0000 as real)
  {
  }

  /**
   * The boundary values on either side of each width, given that integers up
   * to 2^53 are doubles exactly and print as themselves.
   */
  lemma ConvertBoundaries(toDecimal: real -> real, fitsFloat: real -> bool)
    requires forall n: real :: -0x20_0000_0000_0000 as real <= n <= 0x20_0000_0000_0000 as real && n.Floor as real == n ==> toDecimal(n) == n
    ensures ConvertTo(Number(127.0), toDecimal, fitsFloat) == T.Byte(127)
    ensures ConvertTo(Number(128.0), toDecimal, fitsFloat) == T.Short(128)
    ensures ConvertTo(Number(32767.0), toDecimal, fitsFloat) == T.Short(32767)
    ensures ConvertTo(Number(32768.0), toDecimal, fitsFloat) == T.Int(32768)
    ensures ConvertTo(Number(2147483647.0), toDecimal, fitsFloat) == T.Int(2147483647)
    ensures ConvertTo(Number(2147483648.0), toDecimal, fitsFloat) == T.Long(2147483648)
  {
    assert toDecimal(127.0) == 127.0;
    ConvertIntegral(127.0, 127, toDecimal, fitsFloat);
    assert toDecimal(128.0) == 128.0;
    ConvertIntegral(128.0, 128, toDecimal, fitsFloat);
    assert toDecimal(32767.0) == 32767.0;
    ConvertIntegral(32767.0, 32767, toDecimal, fitsFloat);
    assert toDecimal(32768.0) == 32768.0;
    ConvertIntegral(32768.0, 32768, toDecimal, fitsFloat);
    assert toDecimal(2147483647.0) == 2147483647.0;
    ConvertIntegral(2147483647.0, 2147483647, toDecimal, fitsFloat);
    assert toDecimal(2147483648.0) == 2147483648.0;
    ConvertIntegral(2147483648.0, 2147483648, toDecimal, fitsFloat);
  }

  // ---------------------------------------------------------------------------
  // Inbound conversion and the round trip
  // ---------------------------------------------------------------------------

  /**
   * The inbound direction: a target value walked node by node and rebuilt
   * with this adapter's constructors. A map's keys are wrapped with
   * `createString` and the entries handed to `createMap`.
   */
  function ReadBack(o: T.Out): Value {
    match o
    case Empty => Empty()
    case Bool(b) => CreateBoolean(b)
    case Str(s) => CreateString(s)
    case Byte(i) => CreateNumeric(i as real)
    case Short(i) => CreateNumeric(i as real)
    case Int(i) => CreateNumeric(i as real)
    case Long(i) => CreateNumeric(i as real)
    case Float(d) => CreateNumeric(d)
    case Double(d) => CreateNumeric(d)
    case List(items) => CreateList(seq(|items|, i requires 0 <= i < |items| => ReadBack(items[i])))
    case Map(entries) => CreateMap(Keyed(map s | s in entries :: ReadBack(entries[s])))
  }

  /**
   * True when every number in the tree equals the decimal its double prints
   * as, so the conversion keeps it.
   */
  predicate ExactDecimals(v: Value, toDecimal: real -> real) {
    match v
    case Number(n) => toDecimal(n) == n
    case Array(xs) => forall i :: 0 <= i < |xs| ==> ExactDecimals(xs[i], toDecimal)
    case Object(fields) => forall s :: s in fields ==> ExactDecimals(fields[s], toDecimal)
    case _ => true
  }

  /**
   * A number comes back as the decimal its double prints as: the value the
   * target was given, not necessarily the number itself.
   */
  lemma ConvertNumberReadBack(n: real, toDecimal: real -> real, fitsFloat: real -> bool)
    ensures ReadBack(ConvertTo(Number(n), toDecimal, fitsFloat)) == Number(toDecimal(n))
  {
    var d := toDecimal(n);
    match N.LongValueExact(d) {
      case Some(l) => ConvertIntegral(n, l, toDecimal, fitsFloat);
      case None => ConvertNonIntegral(n, toDecimal, fitsFloat);
    }
  }

  /**
   * A target map comes back through `createMap` as an object with the same
   * keys, each holding its value read back.
   */
  lemma ReadBackMap(entries: map<string, T.Out>)
    ensures var o := ReadBack(T.Map(entries));
      && o.Object?
      && o.fields.Keys == entries.Keys
      && forall s :: s in entries ==> o.fields[s] == ReadBack(entries[s])
  {
  }

  /** A target map whose every value reads back to an object's value reads back to that object. */
  lemma ReadBackEntries(entries: map<string, T.Out>, fields: map<string, Value>)
    requires entries.Keys == fields.Keys
    requires forall s :: s in entries ==> ReadBack(entries[s]) == fields[s]
    ensures ReadBack(T.Map(entries)) == Object(fields)
  {
    ReadBackMap(entries);
    assert ReadBack(T.Map(entries)).fields == fields;
  }

  /** An object goes to a target map with the same keys, each value converted. */
  lemma ConvertObjectEntries(fields: map<string, Value>, toDecimal: real -> real, fitsFloat: real -> bool)
    ensures var c := ConvertTo(Object(fields), toDecimal, fitsFloat);
      && c.Map?
      && c.entries.Keys == fields.Keys
      && forall s :: s in fields ==> c.entries[s] == ConvertTo(fields[s], toDecimal, fitsFloat)
  {
  }

  /** An object comes back once each of its values does. */
  lemma ObjectReadBack(fields: map<string, Value>, toDecimal: real -> real, fitsFloat: real -> bool)
    requires forall s :: s in fields ==> ReadBack(ConvertTo(fields[s], toDecimal, fitsFloat)) == fields[s]
    ensures ReadBack(ConvertTo(Object(fields), toDecimal, fitsFloat)) == Object(fields)
  {
    ConvertObjectEntries(fields, toDecimal, fitsFloat);
    var c := ConvertTo(Object(fields), toDecimal, fitsFloat);
    ReadBackEntries(c.entries, fields);
  }

  /**
   * Converting a value out and reading it back gives the same value when each
   * of its numbers equals the decimal its double prints as: leaves, numbers,
   * element order and object entries all survive.
   */
  lemma {:induction false} ConvertRoundTrip(v: Value, toDecimal: real -> real, fitsFloat: real -> bool)
    requires ExactDecimals(v, toDecimal)
    ensures ReadBack(ConvertTo(v, toDecimal, fitsFloat)) == v
  {
    match v
    case Null =>
    case Boolean(b) =>
    case String(s) =>
    case Number(n) =>
      ConvertNumberReadBack(n, toDecimal, fitsFloat);
    case Array(xs) =>
      var back := ReadBack(ConvertTo(v, toDecimal, fitsFloat));
      forall i | 0 <= i < |xs|
        ensures back.elems[i] == xs[i]
      {
        ConvertRoundTrip(xs[i], toDecimal, fitsFloat);
      }
    case Object(fields) =>
      forall s | s in fields
        ensures ReadBack(ConvertTo(fields[s], toDecimal, fitsFloat)) == fields[s]
      {
        ConvertRoundTrip(fields[s], toDecimal, fitsFloat);
      }
      ObjectReadBack(fields, toDecimal, fitsFloat);
  }
}
