/**
 * The Amino converter (src/provider/amino/utils.ts): message trees are converted to Amino form
 * and back, renaming keys and encoding scalars by a map of tags.
 *
 * Printing and parsing of numerals and dates are library calls: a numeral text is modelled by
 * the number it denotes and whether it is the text that BigNumber prints for it.
 */
module Amino {
  import opened Basics
  import opened KeyCase

  // ----- values and tags -----

  datatype Value =
    | Str(text: string)                             // text that is neither of the next two
    | Numeral(value: real, canonical: bool)         // a decimal numeral as text
    | DateText(ms: int)                             // an ISO date as text
    | Num(n: int)                                   // a number (integers only)
    | Bool(b: bool)
    | Null
    | Long(v: int)                                  // a long.js Long, by value
    | Big(amount: real)                             // a BigNumber
    | Bytes(data: seq<bv8>)                         // a Uint8Array
    | Date(time: int)                               // a Date, in milliseconds
    | Arr(items: seq<Value>)
    | Struct(fields: seq<Field>)

  /** A property; objects list theirs in insertion order. */
  datatype Field = Field(key: string, value: Value)

  datatype EncType = AsLong | AsLongToNum | AsDec | AsDecOrZero | AsNumToStr | AsDate | AsDateToNum | AsDuration

  /** What an `AminoValueMap` says of a key: a conversion, a nested map, or nothing. */
  datatype Tag = Leaf(enc: EncType) | Node(tags: map<string, Tag>) | Absent

  /** Indexing a tag map with optional chaining. */
  function Lookup(tag: Tag, key: string): Tag {
    if tag.Node? && key in tag.tags then tag.tags[key] else Absent
  }

  predicate Falsy(v: Value) {
    v == Str("") || v == Num(0) || v == Bool(false) || v == Null
  }

  predicate IsText(v: Value) {
    v.Str? || v.Numeral? || v.DateText?
  }

  /** `isArrayOfStrings`, or no elements. */
  predicate AllText(items: seq<Value>) {
    forall i :: 0 <= i < |items| ==> IsText(items[i])
  }

  /** `typeof v === "object"`. */
  predicate IsObject(v: Value) {
    !IsText(v) && !v.Num? && !v.Bool?
  }

  predicate TypeCheck(v: Value) {
    v.Long? || v.Big? || v.Bytes? || v.Date?
  }

  predicate HasKey(fields: seq<Field>, key: string) {
    exists i :: 0 <= i < |fields| && fields[i].key == key
  }

  /** The value of a property, `Null` for `undefined` if there is none. */
  function Property(fields: seq<Field>, key: string): (v: Value)
    ensures !HasKey(fields, key) ==> v == Null
  {
    if fields == [] then Null else if fields[0].key == key then fields[0].value
    else
      assert forall i :: 0 <= i < |fields[1..]| ==> fields[1..][i] == fields[i + 1];
      Property(fields[1..], key)
  }

  /** `isDurationType`: a Long `seconds` and a number `nanos`. */
  predicate DurationShaped(fields: seq<Field>) {
    && (exists i :: 0 <= i < |fields| && fields[i].key == "seconds" && fields[i].value.Long?)
    && (exists i :: 0 <= i < |fields| && fields[i].key == "nanos" && fields[i].value.Num?)
  }

  // ----- numbers -----

  const TWO_32 := 0x1_0000_0000
  const TWO_53 := 0x20_0000_0000_0000
  const MICRO := 1000000

  /** The multiple of unit nearest to n, ties to the even one. */
  function RoundTo(n: nat, unit: nat): nat
    requires unit > 0
  {
    var q, r := n / unit, n % unit;
    if 2 * r < unit || (2 * r == unit && q % 2 == 0) then q * unit else (q + 1) * unit
  }

  function NearestDouble(n: nat, unit: nat): nat
    requires 0 < unit
    decreases if unit <= n then n - unit else 0
  {
    if n < TWO_53 * unit then RoundTo(n, unit) else NearestDouble(n, 2 * unit)
  }

  /** The double nearest to an integer. */
  function ToDouble(n: int): int {
    if n >= 0 then NearestDouble(n, 1) else -(NearestDouble(-n, 1) as int)
  }

  /** `new Long(x)`: the low 32 bits of x, with a high half of zero. */
  function NewLong(x: int): Value {
    Long(x % TWO_32)
  }

  function Trunc(r: real): int {
    if r >= 0.0 then r.Floor else -((-r).Floor)
  }

  function BnOrZero(v: Value): real {
    match v
    case Numeral(r, _) => r
    case Num(n) => n as real
    case Big(r) => r
    case _ => 0.0
  }

  /** `toString` of a number, or text as it is. */
  function Printed(v: Value): Outcome<Value> {
    match v
    case Long(x) => Done(Numeral(x as real, true))
    case Num(x) => Done(Numeral(x as real, true))
    case Numeral(_, _) => Done(v)
    case _ => Unmodelled
  }

  /** `Number(v)` of an integral numeral or a number. */
  function Parsed(v: Value): Outcome<int> {
    match v
    case Numeral(r, _) => if r == r.Floor as real then Done(ToDouble(r.Floor)) else Unmodelled
    case Num(x) => Done(x)
    case _ => Unmodelled
  }

  function DurationText(fields: seq<Field>): Outcome<Value> {
    if |fields| == 2 && fields[0].key == "seconds" && fields[0].value.Long? && fields[1].key == "nanos" && fields[1].value.Num?
    then Done(Numeral(fields[1].value.n as real / MICRO as real + fields[0].value.v as real, true))
    else Unmodelled
  }

  function DurationOf(r: real): Value {
    var seconds := Trunc(r);
    var nanos := Trunc((r - seconds as real) * MICRO as real);
    Struct([Field("seconds", NewLong(ToDouble(seconds))), Field("nanos", Num(ToDouble(nanos)))])
  }

  function ParamConverter(v: Value, tag: Tag, toAmino: bool): Outcome<Value> {
    if Falsy(v) || !tag.Leaf? then Done(v)
    else match tag.enc
      case AsDec =>
        var r := BnOrZero(v);
        Done(if r == 0.0 then Null else Numeral(r, true))
      case AsDecOrZero => Done(Numeral(BnOrZero(v), true))
      case AsLong =>
        if toAmino then Printed(v)
        else
          var x :- Parsed(v);
          Done(NewLong(x))
      case AsLongToNum =>
        if toAmino then (if v.Long? then Done(Num(ToDouble(v.v))) else TypeError)
        else if v.Num? then Done(NewLong(v.n)) else Unmodelled
      case AsNumToStr =>
        if toAmino then Printed(v)
        else
          var x :- Parsed(v);
          Done(Num(x))
      case AsDate =>
        if toAmino then (if v.Date? then Done(DateText(v.time)) else TypeError)
        else (match v
          case DateText(ms) => Done(Date(ms))
          case Date(ms) => Done(Date(ms))
          case Num(ms) => Done(Date(ms))
          case _ => Unmodelled)
      case AsDateToNum =>
        if toAmino then (if v.Date? then Done(Num(Trunc(v.time as real / 1000.0))) else TypeError)
        else if v.Num? then Done(Date(v.n * 1000)) else Unmodelled
      case AsDuration =>
        if toAmino then (if v.Struct? then DurationText(v.fields) else Unmodelled)
        else if v.Numeral? then Done(DurationOf(v.value)) else Unmodelled
  }

  // ----- nested objects: mapEachIndiv -----

  /** Assigning a property: in place if the key exists, at the end otherwise. */
  function Put(fields: seq<Field>, key: string, value: Value): seq<Field> {
    if fields == [] then [Field(key, value)]
    else if fields[0].key == key then [Field(key, value)] + fields[1..]
    else [fields[0]] + Put(fields[1..], key, value)
  }

  function AltKey(key: string, toAmino: bool): string {
    if toAmino then CamelToSnake(key) else SnakeToCamel(key)
  }

  function MapEachIndiv(item: Value, valueKey: Tag, toAmino: bool): Outcome<Value>
    decreases item, 1
  {
    if Falsy(item) then Done(item)
    else if item.Struct? then
      var fields :- MapFields(item.fields, valueKey, toAmino);
      Done(Struct(fields))
    else Unmodelled
  }

  function MapFields(fields: seq<Field>, valueKey: Tag, toAmino: bool): Outcome<seq<Field>>
    decreases fields, 0
  {
    if fields == [] then Done([])
    else
      var before :- MapFields(fields[..|fields| - 1], valueKey, toAmino);
      var last := fields[|fields| - 1];
      var value :- MapValue(last.value, KeyTag(last.key, valueKey, toAmino), valueKey, toAmino);
      Done(Put(before, AltKey(last.key, toAmino), value))
  }

  function KeyTag(key: string, valueKey: Tag, toAmino: bool): Tag {
    Lookup(valueKey, if toAmino then key else SnakeToCamel(key))
  }

  /**
   * The value of a property. Note that the elements of a nested array are converted with the
   * tags of the enclosing object, not with those of the key.
   */
  function MapValue(v: Value, keyMap: Tag, valueKey: Tag, toAmino: bool): Outcome<Value>
    decreases v, 2
  {
    if !keyMap.Node? && (TypeCheck(v) || !IsObject(v)) then
      ParamConverter(v, if keyMap.Absent? && v.Date? then Leaf(AsDate) else keyMap, toAmino)
    else match v
      case Null => TypeError
      case Arr(items) =>
        if AllText(items) then Done(v)
        else
          var mapped :- MapItems(items, valueKey, toAmino);
          Done(Arr(mapped))
      case Struct(fields) =>
        // an object with a truthy `length` is taken for an array, and has no `map`
        if !Falsy(Property(fields, "length")) then TypeError
        else if DurationShaped(fields) then ParamConverter(v, keyMap, toAmino)
        else if Property(fields, "length") == Num(0) then Done(Arr([]))
        else MapEachIndiv(v, keyMap, toAmino)
      case _ => Unmodelled
  }

  function MapItems(items: seq<Value>, valueKey: Tag, toAmino: bool): Outcome<seq<Value>>
    decreases items, 2
  {
    if items == [] then Done([])
    else
      var before :- MapItems(items[..|items| - 1], valueKey, toAmino);
      var last :- MapEachIndiv(items[|items| - 1], valueKey, toAmino);
      Done(before + [last])
  }

  // ----- messages: toAmino and fromAmino -----

  function Delete(fields: seq<Field>, key: string): seq<Field> {
    if fields == [] then []
    else if fields[0].key == key then Delete(fields[1..], key)
    else [fields[0]] + Delete(fields[1..], key)
  }

  /** Stores a converted scalar; `null` deletes the key. */
  function Store(fields: seq<Field>, key: string, value: Value): seq<Field> {
    if value.Null? then Delete(fields, key) else Put(fields, key, value)
  }

  /** Converts an object or array at the top level: arrays element by element, with the tags of the key. */
  function ConvertNested(v: Value, tag: Tag, toAmino: bool): Outcome<Value> {
    match v
    case Arr(items) =>
      if items == [] then Done(if toAmino then v else Struct([]))
      else
        var mapped :- MapItems(items, tag, toAmino);
        Done(Arr(mapped))
    case Struct(fields) =>
      if !Falsy(Property(fields, "length")) then TypeError
      else if toAmino && Property(fields, "length") == Num(0) then Done(Arr([]))
      else MapEachIndiv(v, tag, toAmino)
    case Null => Done(Null)
    case _ => Unmodelled
  }

  /** One turn of the loop of `toAmino`. */
  function AddAmino(done: seq<Field>, f: Field, tags: Tag): Outcome<seq<Field>> {
    var (tag, snakeKey) := (Lookup(tags, f.key), CamelToSnake(f.key));
    if Falsy(f.value) then Done(done)
    else if TypeCheck(f.value) || (!IsObject(f.value) && !tag.Node?) then
      var value :- ParamConverter(f.value, tag, true);
      Done(Store(done, snakeKey, value))
    else
      var value :- ConvertNested(f.value, tag, true);
      Done(Put(done, snakeKey, value))
  }

  /** One turn of the loop of `fromAmino`, which looks up the raw key in one place. */
  function AddDirect(done: seq<Field>, f: Field, tags: Tag): Outcome<seq<Field>> {
    var (camelKey, rawTag) := (SnakeToCamel(f.key), Lookup(tags, f.key));
    var tag := Lookup(tags, camelKey);
    if !IsObject(f.value) && !rawTag.Node? then
      var value :- ParamConverter(f.value, tag, false);
      Done(Store(done, camelKey, value))
    else
      var value :- ConvertNested(f.value, tag, false);
      Done(Put(done, camelKey, value))
  }

  function ToAmino(fields: seq<Field>, tags: Tag): Outcome<seq<Field>> {
    if fields == [] then Done([])
    else
      var before :- ToAmino(fields[..|fields| - 1], tags);
      AddAmino(before, fields[|fields| - 1], tags)
  }

  function FromAmino(fields: seq<Field>, tags: Tag): Outcome<seq<Field>> {
    if fields == [] then Done([])
    else
      var before :- FromAmino(fields[..|fields| - 1], tags);
      AddDirect(before, fields[|fields| - 1], tags)
  }

  // ----- the loops as written -----

  /** `mapEachIndiv` fills a fresh object property by property. */
  method MapObject(fields: seq<Field>, valueKey: Tag, toAmino: bool) returns (r: Outcome<seq<Field>>)
    ensures r == MapFields(fields, valueKey, toAmino)
  {
    var directMap := [];
    var i := 0;
    while i < |fields|
      invariant i <= |fields| && MapFields(fields[..i], valueKey, toAmino) == Done(directMap)
    {
      var f := fields[i];
      var value := MapValue(f.value, KeyTag(f.key, valueKey, toAmino), valueKey, toAmino);
      if value.IsFailure() {
        MapFieldsNext(fields, i, valueKey, toAmino);
        FailureStays(fields, i + 1, valueKey, toAmino);
        return value.PropagateFailure();
      }
      MapFieldsNext(fields, i, valueKey, toAmino);
      directMap := Put(directMap, AltKey(f.key, toAmino), value.value);
      i := i + 1;
    }
    assert fields[..i] == fields;
    return Done(directMap);
  }

  lemma PrefixGrows(fields: seq<Field>, i: nat)
    requires i < |fields|
    ensures fields[..i + 1][..|fields[..i + 1]| - 1] == fields[..i] && fields[..i + 1][|fields[..i + 1]| - 1] == fields[i]
  {
  }

  /** One property more. */
  lemma MapFieldsNext(fields: seq<Field>, i: nat, valueKey: Tag, toAmino: bool)
    requires i < |fields| && MapFields(fields[..i], valueKey, toAmino).Done?
    ensures var value := MapValue(fields[i].value, KeyTag(fields[i].key, valueKey, toAmino), valueKey, toAmino);
            MapFields(fields[..i + 1], valueKey, toAmino) ==
            if value.Done? then Done(Put(MapFields(fields[..i], valueKey, toAmino).value, AltKey(fields[i].key, toAmino), value.value))
            else value.PropagateFailure()
  {
    PrefixGrows(fields, i);
  }

  /** An exception ends the loop. */
  lemma {:induction false} FailureStays(fields: seq<Field>, i: nat, valueKey: Tag, toAmino: bool)
    requires i <= |fields| && MapFields(fields[..i], valueKey, toAmino).IsFailure()
    ensures MapFields(fields, valueKey, toAmino) == MapFields(fields[..i], valueKey, toAmino)
    decreases |fields| - i
  {
    if i == |fields| {
      assert fields[..i] == fields;
    } else {
      PrefixGrows(fields, i);
      FailureStays(fields, i + 1, valueKey, toAmino);
    }
  }

  method EncodeMessage(input: seq<Field>, tags: Tag) returns (r: Outcome<seq<Field>>)
    ensures r == ToAmino(input, tags)
  {
    r := Done([]);
    for i := 0 to |input|
      invariant r == ToAmino(input[..i], tags)
    {
      PrefixGrows(input, i);
      r := if r.Done? then AddAmino(r.value, input[i], tags) else r;
    }
    assert input[..|input|] == input;
  }

  method DecodeMessage(input: seq<Field>, tags: Tag) returns (r: Outcome<seq<Field>>)
    ensures r == FromAmino(input, tags)
  {
    r := Done([]);
    for i := 0 to |input|
      invariant r == FromAmino(input[..i], tags)
    {
      PrefixGrows(input, i);
      r := if r.Done? then AddDirect(r.value, input[i], tags) else r;
    }
    assert input[..|input|] == input;
  }
}
