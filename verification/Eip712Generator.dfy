/**
 * The EIP-712 type generator in the form of src/util/eip712.ts: loops that reassign the types,
 * the included message types and the value index, and a definition object shared by the nested
 * calls. Each is proved against the functions of Eip712Types.
 */
module Eip712Generator {
  import opened Basics
  import opened Eip712Types

  method GetLatestMsgTypeIndex(typeName: string, types: Definitions) returns (index: nat)
    ensures index == LatestIndex(typeName, types)
  {
    index := 0;
    for i := 0 to |types|
      invariant index + LatestIndex(typeName, types[i..]) == LatestIndex(typeName, types)
    {
      assert types[i..][1..] == types[i + 1..];
      if Includes(types[i].name, typeName) {
        index := index + 1;
      }
    }
  }

  method GetMatch(value: Json, key: string, types: Definitions) returns (r: Outcome<bool>)
    ensures r == CompareValues(value, key, types)
    decreases Size(value)
  {
    var isMatch, fields := true, FieldsOf(types, key);
    for i := 0 to |fields|
      invariant CompareFields(value, fields[i..], |fields|, types, isMatch) == CompareValues(value, key, types)
    {
      assert fields[i..][0] == fields[i] && fields[i..][1..] == fields[i + 1..];
      var keys := KeyCount(value);
      if !keys.Done? {
        return TypeError;
      }
      if keys.value > |fields| {
        return Done(false);
      }
      var field := Get(value, fields[i].name);
      if !field.Done? {
        return TypeError;
      }
      if !IsNonZeroField(field.value) {
        return Done(false);
      }
      SizeOfPart(value, fields[i].name);
      var typ, part := fields[i].typ, field.value;
      if Includes(typ, "[]") {
        typ, part := Until(typ, "[]"), First(part);
      }
      if Has(types, typ) {
        var nested := GetMatch(part, typ, types);
        if !nested.Done? {
          return nested;
        }
        isMatch := nested.value;
      }
    }
    return Done(isMatch);
  }

  method FindMatchingType(msg: Json, msgType: string, types: Definitions) returns (r: Outcome<Option<string>>)
    ensures r == MatchingType(msg, msgType, types, types)
  {
    for i := 0 to |types|
      invariant MatchingType(msg, msgType, types[i..], types) == MatchingType(msg, msgType, types, types)
    {
      assert types[i..][0] == types[i] && types[i..][1..] == types[i + 1..];
      if Includes(types[i].name, msgType) {
        var found := GetMatch(msg, types[i].name, types);
        match found {
          case Done(yes) =>
            if yes {
              return Done(Some(types[i].name));
            }
          case TypeError =>
            return TypeError;
          case Unmodelled =>
            return Unmodelled;
        }
      }
    }
    return Done(None);
  }

  /** The object `msgTypeDefinitions` that the nested calls of `getMsgValueType` share. */
  class MsgTypeDefinitions {
    var defs: Definitions

    constructor ()
      ensures defs == []
    {
      defs := [];
    }

    /** The outcome, and on success the new definitions. */
    ghost predicate Yields(spec: Outcome<Definitions>, r: Outcome<()>)
      reads this
    {
      match spec
      case Done(d) => r == Done(()) && defs == d
      case TypeError => r == TypeError
      case Unmodelled => r == Unmodelled
    }

    method GetMsgValueType(schema: Schema, typeUrl: string, value: Json, typeName: string, types: Definitions)
      returns (r: Outcome<()>)
      modifies this
      ensures Yields(MsgValueType(schema, typeUrl, value, typeName, types, old(defs)), r)
      decreases value, 1
    {
      if PackageOf(typeUrl) !in schema {
        return TypeError;
      }
      if !IsNonZeroField(value) {
        return Done(());
      }
      if TypeOf(typeUrl) !in schema[PackageOf(typeUrl)] {
        return TypeError;
      }
      if !Has(defs, typeName) {
        defs := Put(defs, typeName, []);
      }
      r := AddStructFields(schema, schema[PackageOf(typeUrl)][TypeOf(typeUrl)], value, typeName, types);
    }

    /** The loop over the fields of the schema. */
    method AddStructFields(schema: Schema, fields: seq<SchemaField>, value: Json, typeName: string, types: Definitions)
      returns (r: Outcome<()>)
      modifies this
      ensures Yields(AddFields(schema, fields, value, typeName, types, old(defs)), r)
      decreases value, 0
    {
      ghost var spec := AddFields(schema, fields, value, typeName, types, defs);
      for i := 0 to |fields|
        invariant AddFields(schema, fields[i..], value, typeName, types, defs) == spec
      {
        assert fields[i..][0] == fields[i] && fields[i..][1..] == fields[i + 1..];
        var fieldValue := Get(FieldSource(value), fields[i].name);
        if !fieldValue.Done? {
          return TypeError;
        }
        if fieldValue.value != Null {
          var added := AddStructField(schema, fields[i], fieldValue.value, typeName, types);
          if !added.Done? {
            return added;
          }
        }
      }
      return Done(());
    }

    method AddStructField(schema: Schema, f: SchemaField, fieldValue: Json, typeName: string, types: Definitions)
      returns (r: Outcome<()>)
      modifies this
      ensures Yields(AddField(schema, f, fieldValue, typeName, types, old(defs)), r)
      decreases fieldValue, 2
    {
      if IsNonZeroField(fieldValue) {
        if fieldValue == Arr([]) {
          defs := Append(defs, typeName, TypedField(f.name, "string[]"));
        } else if f.package != "" {
          var nested := NestedTypeName(ObjectName(typeName), f.name);
          var index := GetLatestMsgTypeIndex(nested, types);
          var suffix := if Includes(f.typ, "[]") then "[]" else "";
          defs := Append(defs, typeName, TypedField(f.name, nested + Decimal(index) + suffix));
          if f.package == "/google.protobuf" && f.typ == "Any" {
            return Unmodelled;
          }
          var url := f.package + "." + UntilDigit(Until(f.typ, "[]"));
          r := GetMsgValueType(schema, url, fieldValue, nested + Decimal(index), types);
          return;
        } else {
          defs := Append(defs, typeName, TypedField(f.name, PrimitiveType(fieldValue)));
        }
      }
      return Done(());
    }
  }

  /** `getTypes`. */
  method GenerateTypes(c: Context, msgs: seq<AminoMsg>) returns (r: Outcome<Definitions>)
    ensures match GetTypes(c, msgs)
            case Done(s) => r == Done(s.types)
            case TypeError => r == TypeError
            case Unmodelled => r == Unmodelled
  {
    var types, includedTypes, valueIndex: nat := DEFAULT_EIP712_TYPES, [], 0;
    for index := 0 to |msgs|
      invariant GetTypes(c, msgs[..index]) == Done(State(types, includedTypes, valueIndex))
    {
      var msg := msgs[index];
      assert msgs[..index + 1][..index] == msgs[..index] && msgs[..index + 1][index] == msg;
      assert GetTypes(c, msgs[..index + 1]) == AddMessage(c, State(types, includedTypes, valueIndex), msg, index);
      if !Accepts(c, msg) {
        EarlyFailure(c, msgs, index + 1);
        return TypeError;
      }
      var isNew := msg.typ !in includedTypes;
      if !isNew {
        var found := FindMatchingType(AsJson(msg), MsgType(msg.typ), types);
        if !found.Done? {
          EarlyFailure(c, msgs, index + 1);
          return if found.TypeError? then TypeError else Unmodelled;
        }
        if found.value.Some? {
          types := Append(types, "Tx", TypedField(MsgField(index), found.value.value));
          continue;
        }
      }
      var typeIndex := GetLatestMsgTypeIndex("Type" + MsgType(msg.typ), types);
      var typeKey := "Type" + MsgType(msg.typ) + Decimal(typeIndex);
      var valueType := "TypeValue" + Decimal(valueIndex);
      types := Append(types, "Tx", TypedField(MsgField(index), typeKey));
      types := Put(types, typeKey, [TypedField("value", valueType), TypedField("type", "string")]);
      var definitions := new MsgTypeDefinitions();
      var defined := definitions.GetMsgValueType(c.schema, c.typeUrls[msg.typ], msg.value, valueType, types);
      if !defined.Done? {
        EarlyFailure(c, msgs, index + 1);
        return if defined.TypeError? then TypeError else Unmodelled;
      }
      types := Merge(types, SortByName(definitions.defs, c.before));
      if isNew {
        includedTypes := includedTypes + [msg.typ];
      }
      valueIndex := valueIndex + 1;
    }
    assert msgs[..|msgs|] == msgs;
    return Done(types);
  }

  /** A failure at one message is the failure of the whole. */
  lemma {:induction false} EarlyFailure(c: Context, msgs: seq<AminoMsg>, n: nat)
    requires n <= |msgs| && !GetTypes(c, msgs[..n]).Done?
    ensures GetTypes(c, msgs) == GetTypes(c, msgs[..n])
    decreases |msgs|
  {
    if n == |msgs| {
      assert msgs[..n] == msgs;
    } else {
      var before := msgs[..|msgs| - 1];
      assert before[..n] == msgs[..n];
      EarlyFailure(c, before, n);
    }
  }
}
