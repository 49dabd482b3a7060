/**
 * The EIP-712 type generator (src/util/eip712.ts): from the messages of a sign document it
 * builds named struct types (EIP-712, section "Definition of typed structured data"). The
 * schema of message fields and the map from Amino types to type urls are parameters.
 */
module Eip712Types {
  import opened Basics
  import opened Text

  // ----- message values -----

  /** A JSON value; `Null` also stands for `undefined`. */
  datatype Json =
    | Null
    | Str(text: string)
    | Num(n: int)
    | Bool(b: bool)
    | Arr(items: seq<Json>)
    | Obj(fields: seq<Property>)
  datatype Property = Property(key: string, value: Json)

  datatype AminoMsg = AminoMsg(typ: string, value: Json)

  /** The value of a property, `Null` if it is missing. */
  function Lookup(fields: seq<Property>, name: string): (r: Json)
    ensures r == Null || exists i :: 0 <= i < |fields| && r == fields[i].value
  {
    if fields == [] then Null else if fields[0].key == name then fields[0].value else Lookup(fields[1..], name)
  }

  /** `v[name]`. */
  function Get(v: Json, name: string): Outcome<Json> {
    match v
    case Null => TypeError
    case Obj(fields) => Done(Lookup(fields, name))
    case _ => Done(Null)
  }

  /** `value[0]`. */
  function First(v: Json): Json {
    match v
    case Arr(items) => if items == [] then Null else items[0]
    case Str(s) => if s == "" then Null else Str(s[..1])
    case _ => Null
  }

  /** The text of a value in an array is "0". */
  predicate PrintsZero(v: Json) {
    match v
    case Str(s) => s == "0"
    case Num(n) => n == 0
    case Arr(items) => |items| == 1 && PrintsZero(items[0])
    case _ => false
  }

  /** `fieldValue == "0" && typeof fieldValue !== "string"`. */
  predicate LooselyZero(v: Json) {
    match v
    case Num(n) => n == 0
    case Bool(b) => !b
    case Arr(items) => |items| == 1 && PrintsZero(items[0])
    case _ => false
  }

  /** `isNonZeroField`. */
  predicate IsNonZeroField(v: Json) {
    !LooselyZero(v) && v != Null && v != Str("")
  }

  /** `Object.keys(v).length`. */
  function KeyCount(v: Json): Outcome<nat> {
    match v
    case Null => TypeError
    case Obj(fields) => Done(|fields|)
    case Arr(items) => Done(|items|)
    case Str(s) => Done(|s|)
    case _ => Done(0)
  }

  // ----- names -----

  const DIGITS := "0123456789"

  predicate IsDigit(c: char) {
    '0' <= c <= '9'
  }

  /** The decimal text of a number. */
  function Decimal(n: nat): (s: string)
    ensures s != "" && forall i :: 0 <= i < |s| ==> IsDigit(s[i])
  {
    if n < 10 then [DIGITS[n]] else Decimal(n / 10) + [DIGITS[n % 10]]
  }

  predicate StartsWith(s: string, prefix: string) {
    |prefix| <= |s| && s[..|prefix|] == prefix
  }

  /** `s.includes(sub)`. */
  predicate Includes(s: string, sub: string) {
    StartsWith(s, sub) || (s != "" && Includes(s[1..], sub))
  }

  /** What comes before the first occurrence of `sub`. */
  function Until(s: string, sub: string): string {
    if s == "" || StartsWith(s, sub) then "" else [s[0]] + Until(s[1..], sub)
  }

  function UntilDigit(s: string): string {
    if s == "" || IsDigit(s[0]) then "" else [s[0]] + UntilDigit(s[1..])
  }

  function Lower(c: char): char {
    if 'A' <= c <= 'Z' then c + 32 as char else c
  }

  function Upper(c: char): char {
    if 'a' <= c <= 'z' then c - 32 as char else c
  }

  function LowerAll(s: string): string {
    if s == "" then "" else [Lower(s[0])] + LowerAll(s[1..])
  }

  /** lodash's `capitalize`. */
  function Capitalize(s: string): string {
    if s == "" then "" else [Upper(s[0])] + LowerAll(s[1..])
  }

  function CapitalizeAll(parts: seq<string>): string {
    if parts == [] then "" else Capitalize(parts[0]) + CapitalizeAll(parts[1..])
  }

  function NestedName(name: string): string {
    CapitalizeAll(Split(name, '_'))
  }

  /** `typeName.split('Type')[1].split(/\d+/)[0]`; every type name here starts with "Type". */
  function ObjectName(typeName: string): string {
    if |typeName| < 4 then "" else UntilDigit(Until(typeName[4..], "Type"))
  }

  function NestedTypeName(objectName: string, name: string): string {
    "Type" + objectName + NestedName(name)
  }

  // ----- type definitions -----

  datatype TypedField = TypedField(name: string, typ: string)
  datatype Definition = Definition(name: string, fields: seq<TypedField>)

  /** An object from type names to fields, in insertion order. */
  type Definitions = seq<Definition>

  predicate Has(types: Definitions, name: string) {
    exists i :: 0 <= i < |types| && types[i].name == name
  }

  function FieldsOf(types: Definitions, name: string): seq<TypedField> {
    if types == [] then [] else if types[0].name == name then types[0].fields else FieldsOf(types[1..], name)
  }

  function Put(types: Definitions, name: string, fields: seq<TypedField>): Definitions {
    if types == [] then [Definition(name, fields)]
    else if types[0].name == name then [Definition(name, fields)] + types[1..]
    else [types[0]] + Put(types[1..], name, fields)
  }

  function Append(types: Definitions, name: string, f: TypedField): Definitions {
    Put(types, name, FieldsOf(types, name) + [f])
  }

  /** `{...types, ...more}`. */
  function Merge(types: Definitions, more: Definitions): Definitions
    decreases |more|
  {
    if more == [] then types else Merge(Put(types, more[0].name, more[0].fields), more[1..])
  }

  /** `getLatestMsgTypeIndex`: how many type names contain the given one. */
  function LatestIndex(typeName: string, types: Definitions): nat {
    if types == [] then 0 else (if Includes(types[0].name, typeName) then 1 else 0) + LatestIndex(typeName, types[1..])
  }

  /** Insertion into a list sorted by descending name, for some order of names. */
  function Insert(f: TypedField, fields: seq<TypedField>, before: (string, string) -> bool): seq<TypedField> {
    if fields == [] || before(f.name, fields[0].name) then [f] + fields
    else [fields[0]] + Insert(f, fields[1..], before)
  }

  function SortFields(fields: seq<TypedField>, before: (string, string) -> bool): seq<TypedField> {
    if fields == [] then [] else Insert(fields[0], SortFields(fields[1..], before), before)
  }

  /** `sortByNameDescending`; `before` is the order that `localeCompare` gives. */
  function SortByName(types: Definitions, before: (string, string) -> bool): Definitions {
    seq(|types|, i requires 0 <= i < |types| => Definition(types[i].name, SortFields(types[i].fields, before)))
  }

  // ----- the schema -----

  /** A field of a message type; `package` is set for nested messages. */
  datatype SchemaField = SchemaField(name: string, typ: string, package: string)

  type Schema = map<string, map<string, seq<SchemaField>>>

  function PackageOf(typeUrl: string): string {
    var parts := Split(typeUrl, '.');
    if |parts| == 1 then "" else Join(Init(parts), '.')
  }

  function TypeOf(typeUrl: string): string {
    Last(Split(typeUrl, '.'))
  }

  /** `getGjsonPrimitiveType`. */
  function PrimitiveType(v: Json): string {
    match v
    case Num(_) => "int64"
    case Bool(_) => "bool"
    case Arr(items) => if items != [] && forall i :: 0 <= i < |items| ==> items[i].Str? then "string[]" else "string"
    case _ => "string"
  }

  // ----- getMsgValueType -----

  /**
   * Adds the definitions for a message value. `typeName` is the name it gets; a value whose
   * fields are all zero is defined with no fields, a zero value not at all. Fields of type
   * `google.protobuf.Any` are not modelled.
   */
  function MsgValueType(schema: Schema, typeUrl: string, value: Json, typeName: string, types: Definitions, defs: Definitions)
    : Outcome<Definitions>
    decreases value, 1, 0
  {
    if PackageOf(typeUrl) !in schema then TypeError
    else if !IsNonZeroField(value) then Done(defs)
    else if TypeOf(typeUrl) !in schema[PackageOf(typeUrl)] then TypeError
    else
      AddFields(schema, schema[PackageOf(typeUrl)][TypeOf(typeUrl)], value, typeName, types,
                if Has(defs, typeName) then defs else Put(defs, typeName, []))
  }

  /** The value that a field is read from: of an array, its first element. */
  function FieldSource(value: Json): Json {
    if value.Arr? && value.items != [] then value.items[0] else value
  }

  function AddFields(schema: Schema, fields: seq<SchemaField>, value: Json, typeName: string, types: Definitions, defs: Definitions)
    : Outcome<Definitions>
    decreases value, 0, |fields|
  {
    if fields == [] then Done(defs)
    else
      var fieldValue :- Get(FieldSource(value), fields[0].name);
      var next :- if fieldValue == Null then Done(defs) else AddField(schema, fields[0], fieldValue, typeName, types, defs);
      AddFields(schema, fields[1..], value, typeName, types, next)
  }

  function AddField(schema: Schema, f: SchemaField, fieldValue: Json, typeName: string, types: Definitions, defs: Definitions)
    : Outcome<Definitions>
    decreases fieldValue, 2, 0
  {
    if !IsNonZeroField(fieldValue) then Done(defs)
    else if fieldValue == Arr([]) then Done(Append(defs, typeName, TypedField(f.name, "string[]")))
    else if f.package == "" then Done(Append(defs, typeName, TypedField(f.name, PrimitiveType(fieldValue))))
    else
      var nested := NestedTypeName(ObjectName(typeName), f.name);
      var nestedName := nested + Decimal(LatestIndex(nested, types));
      var defs1 := Append(defs, typeName, TypedField(f.name, nestedName + if Includes(f.typ, "[]") then "[]" else ""));
      if f.package == "/google.protobuf" && f.typ == "Any" then Unmodelled
      else MsgValueType(schema, f.package + "." + UntilDigit(Until(f.typ, "[]")), fieldValue, nestedName, types, defs1)
  }

  // ----- matchingType and compareValues -----

  /** `compareValues`: does the value have the fields that the type names? */
  function CompareValues(value: Json, key: string, types: Definitions): Outcome<bool>
    decreases Size(value), 1, 0
  {
    CompareFields(value, FieldsOf(types, key), |FieldsOf(types, key)|, types, true)
  }

  /** The loop over the remaining fields; `found` is the result so far, which the next nested comparison replaces. */
  function CompareFields(value: Json, fields: seq<TypedField>, count: nat, types: Definitions, found: bool): Outcome<bool>
    decreases Size(value), 0, |fields|
  {
    if fields == [] then Done(found)
    else
      var keys :- KeyCount(value);
      var field :- Get(value, fields[0].name);
      if keys > count || !IsNonZeroField(field) then Done(false)
      else
        var isArray := Includes(fields[0].typ, "[]");
        var typ, part := if isArray then Until(fields[0].typ, "[]") else fields[0].typ, if isArray then First(field) else field;
        SizeOfPart(value, fields[0].name);
        var next :- if Has(types, typ) then CompareValues(part, typ, types) else Done(found);
        CompareFields(value, fields[1..], count, types, next)
  }

  function Size(v: Json): nat {
    match v
    case Arr(items) => 1 + SizeOfItems(items)
    case Obj(fields) => 1 + SizeOfFields(fields)
    case _ => 1
  }

  function SizeOfItems(items: seq<Json>): nat {
    if items == [] then 0 else Size(items[0]) + SizeOfItems(items[1..])
  }

  function SizeOfFields(fields: seq<Property>): nat {
    if fields == [] then 0 else Size(fields[0].value) + SizeOfFields(fields[1..])
  }

  lemma {:induction false} SizeOfLookup(fields: seq<Property>, name: string)
    ensures Size(Lookup(fields, name)) <= 1 + SizeOfFields(fields)
    ensures Lookup(fields, name) != Null ==> Size(Lookup(fields, name)) <= SizeOfFields(fields)
  {
    if fields == [] {
    } else {
      SizeOfLookup(fields[1..], name);
    }
  }

  lemma SizeOfPart(v: Json, name: string)
    ensures Get(v, name).Done? && Get(v, name).value != Null ==>
              Size(Get(v, name).value) < Size(v) && Size(First(Get(v, name).value)) < Size(v)
  {
    if v.Obj? {
      SizeOfLookup(v.fields, name);
    }
  }

  /** `matchingType`: the first type whose name contains the message type and that the message matches. */
  function MatchingType(msg: Json, msgType: string, remaining: Definitions, types: Definitions): Outcome<Option<string>>
    decreases |remaining|
  {
    if remaining == [] then Done(None)
    else
      var found :- if Includes(remaining[0].name, msgType) then CompareValues(msg, remaining[0].name, types) else Done(false);
      if found then Done(Some(remaining[0].name)) else MatchingType(msg, msgType, remaining[1..], types)
  }

  // ----- getTypes -----

  const DEFAULT_TX: seq<TypedField> :=
    [TypedField("account_number", "string"), TypedField("chain_id", "string"), TypedField("fee", "Fee"),
     TypedField("memo", "string"), TypedField("sequence", "string")]

  const DEFAULT_EIP712_TYPES: Definitions :=
    [Definition("Coin", [TypedField("denom", "string"), TypedField("amount", "string")]),
     Definition("EIP712Domain", [TypedField("name", "string"), TypedField("version", "string"),
                                 TypedField("chainId", "uint256"), TypedField("verifyingContract", "string"),
                                 TypedField("salt", "string")]),
     Definition("Fee", [TypedField("amount", "Coin[]"), TypedField("gas", "string")]),
     Definition("Tx", DEFAULT_TX)]

  /** The variables of `getTypes`. */
  datatype State = State(types: Definitions, includedTypes: seq<string>, valueIndex: nat)

  /**
   * What does not change from message to message. `converts` says whether the converter of an
   * Amino type takes a value without throwing.
   */
  datatype Context = Context(
    schema: Schema, typeUrls: map<string, string>, converts: (string, Json) -> bool, before: (string, string) -> bool)

  /**
   * `AminoTypesMap.fromAmino(msg)` returns: the type is registered and its converter takes the
   * value. Every converter throws on `null` and `undefined`, whose keys it asks for.
   */
  predicate Accepts(c: Context, msg: AminoMsg) {
    msg.typ in c.typeUrls && msg.value != Null && c.converts(msg.typ, msg.value)
  }

  /** `msg.type.split('/')[1]`. */
  function MsgType(typ: string): string {
    var parts := Split(typ, '/');
    if |parts| > 1 then parts[1] else "undefined"
  }

  function TypeKey(msg: AminoMsg, types: Definitions): string {
    var name := "Type" + MsgType(msg.typ);
    name + Decimal(LatestIndex(name, types))
  }

  function AsJson(msg: AminoMsg): Json {
    Obj([Property("type", Str(msg.typ)), Property("value", msg.value)])
  }

  function MsgField(index: nat): string {
    "msg" + Decimal(index)
  }

  /** Gives a message a type of its own. */
  function DefineType(c: Context, s: State, msg: AminoMsg, index: nat): Outcome<State> {
    if !Accepts(c, msg) then TypeError
    else
      var typeKey := TypeKey(msg, s.types);
      var valueType := "TypeValue" + Decimal(s.valueIndex);
      var types1 := Append(s.types, "Tx", TypedField(MsgField(index), typeKey));
      var types2 := Put(types1, typeKey, [TypedField("value", valueType), TypedField("type", "string")]);
      var defs :- MsgValueType(c.schema, c.typeUrls[msg.typ], msg.value, valueType, types2, []);
      Done(s.(types := Merge(types2, SortByName(defs, c.before)), valueIndex := s.valueIndex + 1))
  }

  /** One turn of the loop of `getTypes`. */
  function AddMessage(c: Context, s: State, msg: AminoMsg, index: nat): Outcome<State> {
    if !Accepts(c, msg) then TypeError
    else if msg.typ !in s.includedTypes then
      var next :- DefineType(c, s, msg, index);
      Done(next.(includedTypes := s.includedTypes + [msg.typ]))
    else
      var found :- MatchingType(AsJson(msg), MsgType(msg.typ), s.types, s.types);
      match found
      case Some(key) => Done(s.(types := Append(s.types, "Tx", TypedField(MsgField(index), key))))
      case None => DefineType(c, s, msg, index)
  }

  function GetTypes(c: Context, msgs: seq<AminoMsg>): Outcome<State> {
    if msgs == [] then Done(State(DEFAULT_EIP712_TYPES, [], 0))
    else
      var s :- GetTypes(c, msgs[..|msgs| - 1]);
      AddMessage(c, s, msgs[|msgs| - 1], |msgs| - 1)
  }
}
