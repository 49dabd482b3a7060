/**
 * What the generated value types say: the type of a message's value lists exactly the fields of
 * the schema whose values are not zero, each with the type of its value.
 */
module Eip712Fields {
  import opened Basics
  import opened Eip712Types
  import opened Eip712Closure
  import opened Eip712Freshness

  // ----- what a value declares -----

  /** A number is an "int64", a truth value a "bool", a list of texts a "string[]", anything else a "string". */
  predicate HasPrimitive(v: Json, typ: string) {
    && (typ == "int64" <==> v.Num?)
    && (typ == "bool" <==> v.Bool?)
    && (typ == "string[]" <==> v.Arr? && v.items != [] && forall i :: 0 <= i < |v.items| ==> v.items[i].Str?)
    && typ in {"int64", "bool", "string[]", "string"}
  }

  /** The declaration of a field with a value. */
  predicate Declares(d: TypedField, f: SchemaField, v: Json) {
    && d.name == f.name
    && (if v == Arr([]) then d.typ == "string[]"
        else if f.package == "" then HasPrimitive(v, d.typ)
        else StartsWith(d.typ, "TypeValue") && (EndsWith(d.typ, "[]") <==> Includes(f.typ, "[]")))
  }

  predicate EndsWith(s: string, suffix: string) {
    |suffix| <= |s| && s[|s| - |suffix|..] == suffix
  }

  datatype Entry = Entry(field: SchemaField, value: Json)

  /** The fields whose values are not zero, in the order of the schema. */
  function Present(fields: seq<SchemaField>, source: Json): seq<Entry> {
    if fields == [] then []
    else
      var v := match Get(source, fields[0].name)
        case Done(x) => x
        case _ => Null;
      (if IsNonZeroField(v) then [Entry(fields[0], v)] else []) + Present(fields[1..], source)
  }

  predicate Declared(ds: seq<TypedField>, es: seq<Entry>) {
    |ds| == |es| && forall i :: 0 <= i < |es| ==> Declares(ds[i], es[i].field, es[i].value)
  }

  /** Of a list, the first element says which fields there are. */
  function Source(value: Json): Json {
    match value
    case Arr(items) => if items == [] then value else items[0]
    case _ => value
  }

  // ----- names stay single -----

  predicate SingleNames(defs: Definitions) {
    forall i, j :: 0 <= i < j < |defs| ==> defs[i].name != defs[j].name
  }

  lemma {:induction false} PutStaysSingle(defs: Definitions, name: string, fields: seq<TypedField>)
    requires SingleNames(defs)
    ensures SingleNames(Put(defs, name, fields))
  {
    if defs == [] {
    } else {
      assert defs == [defs[0]] + defs[1..];
      NamesOfCons(defs[0], defs[1..]);
      if defs[0].name == name {
        assert forall j :: 0 < j < |defs| ==> defs[j].name != name;
      } else {
        var rest := Put(defs[1..], name, fields);
        PutStaysSingle(defs[1..], name, fields);
        PutNames(defs[1..], name, fields);
        forall j | 0 <= j < |rest|
          ensures rest[j].name != defs[0].name
        {
          assert rest[j].name in Names(rest);
          if rest[j].name != name {
            var k :| 0 <= k < |defs[1..]| && defs[1..][k].name == rest[j].name;
            assert defs[k + 1].name == rest[j].name;
          }
        }
      }
    }
  }

  lemma {:induction false} MergeFields(types: Definitions, more: Definitions, name: string)
    requires SingleNames(more) && name in Names(more)
    ensures FieldsOf(Merge(types, more), name) == FieldsOf(more, name)
    decreases |more|
  {
    var d, rest := more[0], more[1..];
    assert more == [d] + rest;
    NamesOfCons(d, rest);
    PutFields(types, d.name, d.fields, name);
    if name in Names(rest) {
      var i :| 0 <= i < |rest| && rest[i].name == name;
      assert more[i + 1].name == name;
      MergeFields(Put(types, d.name, d.fields), rest, name);
    } else {
      MergeNames(Put(types, d.name, d.fields), rest, name);
    }
  }

  lemma {:induction false} SortedFields(defs: Definitions, before: (string, string) -> bool, name: string)
    ensures FieldsOf(SortByName(defs, before), name) == SortFields(FieldsOf(defs, name), before)
    decreases |defs|
  {
    if defs == [] {
    } else {
      assert SortByName(defs, before)[1..] == SortByName(defs[1..], before);
      SortedFields(defs[1..], before, name);
    }
  }

  lemma SortedStaySingle(defs: Definitions, before: (string, string) -> bool)
    requires SingleNames(defs)
    ensures SingleNames(SortByName(defs, before))
  {
  }

  // ----- other types are left alone -----

  /** No nested type has this name. */
  ghost predicate IsOutside(t: string, schema: Schema, types: Definitions) {
    forall x :: IsNested(x, schema, types) ==> x != t
  }

  ghost predicate Keeps(t: string, defs: Definitions, defs': Definitions) {
    && FieldsOf(defs', t) == FieldsOf(defs, t)
    && (SingleNames(defs) ==> SingleNames(defs'))
  }

  lemma PutKeeps(t: string, defs: Definitions, name: string, fields: seq<TypedField>)
    requires t != name
    ensures Keeps(t, defs, Put(defs, name, fields))
  {
    PutFields(defs, name, fields, t);
    if SingleNames(defs) {
      PutStaysSingle(defs, name, fields);
    }
  }

  lemma {:induction false} ValueKeeps(
    schema: Schema, typeUrl: string, value: Json, name: string, types: Definitions, defs: Definitions, defs': Definitions, t: string)
    requires StartsWith(name, "TypeValue") && t != name && IsOutside(t, schema, types)
    requires MsgValueType(schema, typeUrl, value, name, types, defs) == Done(defs')
    ensures Keeps(t, defs, defs')
    decreases value, 1, 0
  {
    if IsNonZeroField(value) {
      var fields := schema[PackageOf(typeUrl)][TypeOf(typeUrl)];
      SchemaNames(schema, typeUrl, fields);
      PutKeeps(t, defs, name, []);
      FieldsKeep(schema, fields, value, name, types, if Has(defs, name) then defs else Put(defs, name, []), defs', t);
    }
  }

  lemma SchemaNames(schema: Schema, typeUrl: string, fields: seq<SchemaField>)
    requires PackageOf(typeUrl) in schema && TypeOf(typeUrl) in schema[PackageOf(typeUrl)]
    requires fields == schema[PackageOf(typeUrl)][TypeOf(typeUrl)]
    ensures forall i :: 0 <= i < |fields| && fields[i].package != "" ==> NestedFieldName(schema, fields[i].name)
  {
  }

  lemma {:induction false} FieldsKeep(
    schema: Schema, fields: seq<SchemaField>, value: Json, name: string, types: Definitions, defs: Definitions, defs': Definitions, t: string)
    requires StartsWith(name, "TypeValue") && t != name && IsOutside(t, schema, types)
    requires AddFields(schema, fields, value, name, types, defs) == Done(defs')
    requires forall i :: 0 <= i < |fields| && fields[i].package != "" ==> NestedFieldName(schema, fields[i].name)
    ensures Keeps(t, defs, defs')
    decreases value, 0, |fields|
  {
    if fields == [] {
    } else {
      var v := Get(FieldSource(value), fields[0].name).value;
      if v == Null {
        FieldsKeep(schema, fields[1..], value, name, types, defs, defs', t);
      } else {
        var next := AddField(schema, fields[0], v, name, types, defs).value;
        FieldKeeps(schema, fields[0], v, name, types, defs, next, t);
        FieldsKeep(schema, fields[1..], value, name, types, next, defs', t);
      }
    }
  }

  lemma {:induction false} FieldKeeps(
    schema: Schema, f: SchemaField, v: Json, name: string, types: Definitions, defs: Definitions, defs': Definitions, t: string)
    requires StartsWith(name, "TypeValue") && t != name && IsOutside(t, schema, types)
    requires AddField(schema, f, v, name, types, defs) == Done(defs')
    requires f.package != "" ==> NestedFieldName(schema, f.name)
    ensures Keeps(t, defs, defs')
    decreases v, 2, 0
  {
    if !IsNonZeroField(v) {
    } else if v == Arr([]) || f.package == "" {
      PutKeeps(t, defs, name, FieldsOf(defs, name) + [TypedField(f.name, if v == Arr([]) then "string[]" else PrimitiveType(v))]);
    } else {
      var field := NestedIsDefined(schema, f, v, name, types, defs, defs');
      PutKeeps(t, defs, name, FieldsOf(defs, name) + [field]);
      ValueKeeps(schema, f.package + "." + UntilDigit(Until(f.typ, "[]")), v, NestedName0(f, name, types), types,
                 Append(defs, name, field), defs', t);
    }
  }

  /** The name of the type of a nested field. */
  function NestedName0(f: SchemaField, typeName: string, types: Definitions): string {
    var nested := NestedTypeName(ObjectName(typeName), f.name);
    nested + Decimal(LatestIndex(nested, types))
  }

  lemma NestedIsDefined(
    schema: Schema, f: SchemaField, v: Json, name: string, types: Definitions, defs: Definitions, defs': Definitions)
    returns (field: TypedField)
    requires StartsWith(name, "TypeValue") && AddField(schema, f, v, name, types, defs) == Done(defs')
    requires IsNonZeroField(v) && v != Arr([]) && f.package != "" && NestedFieldName(schema, f.name)
    ensures field == TypedField(f.name, NestedName0(f, name, types) + if Includes(f.typ, "[]") then "[]" else "")
    ensures StartsWith(NestedName0(f, name, types), "TypeValue") && IsNested(NestedName0(f, name, types), schema, types)
    ensures MsgValueType(schema, f.package + "." + UntilDigit(Until(f.typ, "[]")), v, NestedName0(f, name, types), types,
                         Append(defs, name, field)) == Done(defs')
    ensures Declares(field, f, v)
  {
    var nestedName := NestedName0(f, name, types);
    field := TypedField(f.name, nestedName + if Includes(f.typ, "[]") then "[]" else "");
    NestedNameIsValueName(name, f.name, LatestIndex(NestedTypeName(ObjectName(name), f.name), types));
    assert IsNestedOf(nestedName, name, f.name, types);
    BracketsAtEnd(nestedName, "TypeValue");
    assert nestedName + "" == nestedName;
  }

  lemma BracketsAtEnd(name: string, prefix: string)
    requires StartsWith(name, prefix) && Numbered(name)
    ensures StartsWith(name + "[]", prefix) && EndsWith(name + "[]", "[]") && !EndsWith(name, "[]")
  {
    assert (name + "[]")[..|prefix|] == name[..|prefix|];
    assert |name| >= 2 ==> name[|name| - 2..][1] == name[|name| - 1];
    assert "[]"[1] == ']';
  }

  // ----- the type of a value -----

  lemma {:induction false} FieldIsDeclared(
    schema: Schema, f: SchemaField, v: Json, name: string, types: Definitions, defs: Definitions, defs': Definitions)
    returns (ds: seq<TypedField>)
    requires StartsWith(name, "TypeValue") && IsOutside(name, schema, types)
    requires AddField(schema, f, v, name, types, defs) == Done(defs') && (f.package != "" ==> NestedFieldName(schema, f.name))
    ensures if IsNonZeroField(v) then |ds| == 1 && Declares(ds[0], f, v) else ds == []
    ensures FieldsOf(defs', name) == FieldsOf(defs, name) + ds && (SingleNames(defs) ==> SingleNames(defs'))
  {
    if !IsNonZeroField(v) {
      ds := [];
    } else if v == Arr([]) || f.package == "" {
      var field := TypedField(f.name, if v == Arr([]) then "string[]" else PrimitiveType(v));
      ds := [field];
      AppendDeclares(defs, name, field);
    } else {
      var field := NestedIsDefined(schema, f, v, name, types, defs, defs');
      ds := [field];
      AppendDeclares(defs, name, field);
      ValueKeeps(schema, f.package + "." + UntilDigit(Until(f.typ, "[]")), v, NestedName0(f, name, types), types,
                 Append(defs, name, field), defs', name);
    }
  }

  lemma AppendDeclares(defs: Definitions, name: string, field: TypedField)
    ensures FieldsOf(Append(defs, name, field), name) == FieldsOf(defs, name) + [field]
    ensures SingleNames(defs) ==> SingleNames(Append(defs, name, field))
  {
    PutFields(defs, name, FieldsOf(defs, name) + [field], name);
    if SingleNames(defs) {
      PutStaysSingle(defs, name, FieldsOf(defs, name) + [field]);
    }
  }

  /** One turn of the loop over the fields. */
  lemma FirstIsDeclared(
    schema: Schema, fields: seq<SchemaField>, value: Json, name: string, types: Definitions, defs: Definitions, defs': Definitions)
    returns (first: seq<TypedField>, next: Definitions)
    requires StartsWith(name, "TypeValue") && IsOutside(name, schema, types) && fields != []
    requires AddFields(schema, fields, value, name, types, defs) == Done(defs')
    requires fields[0].package != "" ==> NestedFieldName(schema, fields[0].name)
    ensures AddFields(schema, fields[1..], value, name, types, next) == Done(defs')
    ensures Declared(first, Present(fields[..1], Source(value)))
    ensures FieldsOf(next, name) == FieldsOf(defs, name) + first && (SingleNames(defs) ==> SingleNames(next))
  {
    var v := Get(FieldSource(value), fields[0].name).value;
    assert fields[..1][1..] == [];
    if v == Null {
      first, next := [], defs;
    } else {
      next := AddField(schema, fields[0], v, name, types, defs).value;
      first := FieldIsDeclared(schema, fields[0], v, name, types, defs, next);
    }
  }

  lemma PresentCons(fields: seq<SchemaField>, source: Json)
    requires fields != []
    ensures Present(fields, source) == Present(fields[..1], source) + Present(fields[1..], source)
  {
    assert fields[..1][1..] == [] && fields[..1][0] == fields[0];
    assert Present([], source) == [];
  }

  lemma DeclaredConcat(a: seq<TypedField>, b: seq<TypedField>, es: seq<Entry>, fs: seq<Entry>)
    requires Declared(a, es) && Declared(b, fs)
    ensures Declared(a + b, es + fs)
  {
  }

  /** The loop over the fields adds the declarations of those that are not zero. */
  lemma {:induction false} FieldsAreDeclared(
    schema: Schema, fields: seq<SchemaField>, value: Json, name: string, types: Definitions, defs: Definitions, defs': Definitions)
    returns (ds: seq<TypedField>)
    requires StartsWith(name, "TypeValue") && IsOutside(name, schema, types)
    requires AddFields(schema, fields, value, name, types, defs) == Done(defs')
    requires forall i :: 0 <= i < |fields| && fields[i].package != "" ==> NestedFieldName(schema, fields[i].name)
    ensures Declared(ds, Present(fields, Source(value))) && FieldsOf(defs', name) == FieldsOf(defs, name) + ds
    ensures SingleNames(defs) ==> SingleNames(defs')
    decreases |fields|
  {
    if fields == [] {
      ds := [];
    } else {
      var first, next := FirstIsDeclared(schema, fields, value, name, types, defs, defs');
      var rest := FieldsAreDeclared(schema, fields[1..], value, name, types, next, defs');
      ds := first + rest;
      Associate(FieldsOf(defs, name), first, rest);
      PresentCons(fields, Source(value));
      DeclaredConcat(first, rest, Present(fields[..1], Source(value)), Present(fields[1..], Source(value)));
    }
  }

  /** The fields of a type are the declarations of what is present in a value, sorted. */
  ghost predicate Lists(fields: seq<TypedField>, schema: Schema, typeUrl: string, value: Json, before: (string, string) -> bool) {
    && PackageOf(typeUrl) in schema && TypeOf(typeUrl) in schema[PackageOf(typeUrl)]
    && exists ds :: Declared(ds, Present(schema[PackageOf(typeUrl)][TypeOf(typeUrl)], Source(value))) && fields == SortFields(ds, before)
  }

  lemma ValueTypeIsOutside(k: nat, schema: Schema, types: Definitions, sub: string)
    requires NamedNested(schema) && sub == "TypeValue"
    ensures IsOutside(sub + Decimal(k), schema, types) && StartsWith(sub + Decimal(k), sub)
  {
    forall x | IsNested(x, schema, types)
      ensures x != sub + Decimal(k)
    {
      NestedIsNoValueType(x, k, schema, types, sub);
    }
    DigitsFollow(sub, k);
  }

  lemma ValueIsListed(c: Context, typeUrl: string, value: Json, k: nat, types: Definitions, defs: Definitions, name: string)
    requires NamedNested(c.schema) && IsNonZeroField(value) && name == "TypeValue" + Decimal(k)
    requires MsgValueType(c.schema, typeUrl, value, name, types, []) == Done(defs)
    ensures Lists(SortFields(FieldsOf(defs, name), c.before), c.schema, typeUrl, value, c.before) && SingleNames(defs)
  {
    var fields := c.schema[PackageOf(typeUrl)][TypeOf(typeUrl)];
    ValueTypeIsOutside(k, c.schema, types, "TypeValue");
    SchemaNames(c.schema, typeUrl, fields);
    PutFields([], name, [], name);
    var ds := FieldsAreDeclared(c.schema, fields, value, name, types, Put([], name, []), defs);
    assert FieldsOf(defs, name) == ds;
  }

  lemma NewValueIsListed(c: Context, s: State, msg: AminoMsg, n: nat, s': State, name: string)
    requires NamedNested(c.schema) && IsNonZeroField(msg.value) && name == "TypeValue" + Decimal(s.valueIndex)
    requires DefineType(c, s, msg, n) == Done(s')
    ensures Lists(FieldsOf(s'.types, name), c.schema, c.typeUrls[msg.typ], msg.value, c.before)
  {
    var types2 := TypesWithKey(s, msg, n);
    var defs := DefineTypeShape(c, s, msg, n, s', name);
    ValueIsListed(c, c.typeUrls[msg.typ], msg.value, s.valueIndex, types2, defs, name);
    DefinedValueTypes(c, s, msg, n, defs, s.valueIndex, "TypeValue");
    SortKeepsNames(defs, c.before);
    SortedStaySingle(defs, c.before);
    MergeFields(types2, SortByName(defs, c.before), name);
    SortedFields(defs, c.before, name);
  }

  /** A later message leaves the value types there are alone. */
  lemma OldValueTypeStays(c: Context, s: State, msg: AminoMsg, n: nat, s': State, k: nat, name: string)
    requires NamedNested(c.schema) && !StartsWith(MsgType(msg.typ), "Value") && k < s.valueIndex && name == "TypeValue" + Decimal(k)
    requires AddMessage(c, s, msg, n) == Done(s')
    ensures FieldsOf(s'.types, name) == FieldsOf(s.types, name)
  {
    ValueTypeIsNotTx(k);
    if Reused(s, msg) {
      var key := MatchingType(AsJson(msg), MsgType(msg.typ), s.types, s.types).value.value;
      PutFields(s.types, "Tx", FieldsOf(s.types, "Tx") + [TypedField(MsgField(n), key)], name);
    } else {
      OldValueTypeIsKept(c, s, msg, n, DefineType(c, s, msg, n).value, k, name);
    }
  }

  lemma OldValueTypeIsKept(c: Context, s: State, msg: AminoMsg, n: nat, s': State, k: nat, name: string)
    requires NamedNested(c.schema) && !StartsWith(MsgType(msg.typ), "Value") && k < s.valueIndex && name == "TypeValue" + Decimal(k)
    requires DefineType(c, s, msg, n) == Done(s')
    ensures FieldsOf(s'.types, name) == FieldsOf(s.types, name)
  {
    var types2, key := TypesWithKey(s, msg, n), TypeKey(msg, s.types);
    var defs := DefineTypeShape(c, s, msg, n, s', "TypeValue" + Decimal(s.valueIndex));
    DefinedValueTypes(c, s, msg, n, defs, k, "TypeValue");
    SortKeepsNames(defs, c.before);
    MergeNames(types2, SortByName(defs, c.before), name);
    ValueTypeIsNotTx(k);
    MessageNameIsNoValueName(MsgType(msg.typ), LatestIndex("Type" + MsgType(msg.typ), s.types));
    ValueTypeIsValueName(k);
    var f := TypedField(MsgField(n), key);
    PutFields(s.types, "Tx", FieldsOf(s.types, "Tx") + [f], name);
    PutFields(Append(s.types, "Tx", f), key, [TypedField("value", "TypeValue" + Decimal(s.valueIndex)), TypedField("type", "string")], name);
  }

  ghost predicate ListsMessage(c: Context, types: Definitions, name: string, msg: AminoMsg) {
    msg.typ in c.typeUrls && Lists(FieldsOf(types, name), c.schema, c.typeUrls[msg.typ], msg.value, c.before)
  }

  lemma LastIsListed(c: Context, s: State, msg: AminoMsg, n: nat, s': State, name: string)
    requires NamedNested(c.schema) && IsNonZeroField(msg.value) && name == "TypeValue" + Decimal(s.valueIndex)
    requires AddMessage(c, s, msg, n) == Done(s') && !Reused(s, msg)
    ensures ListsMessage(c, s'.types, name, msg)
  {
    NewValueIsListed(c, s, msg, n, DefineType(c, s, msg, n).value, name);
  }

  lemma TypedMessageAt(c: Context, msgs: seq<AminoMsg>, k: nat)
    requires GetTypes(c, msgs).Done? && k < |TypedMessages(c, msgs)|
    ensures msgs != [] && GetTypes(c, Init(msgs)).Done?
    ensures if k < |TypedMessages(c, Init(msgs))| then TypedMessages(c, msgs)[k] == TypedMessages(c, Init(msgs))[k]
            else k == |TypedMessages(c, Init(msgs))| && TypedMessages(c, msgs)[k] == Last(msgs)
                 && !Reused(GetTypes(c, Init(msgs)).value, Last(msgs))
  {
  }

  /**
   * After any run over messages not named "Value...": the type of the value of message number k,
   * if that value is not zero, lists exactly the fields of the schema whose values are not zero,
   * sorted; each number is an "int64", each truth value a "bool", each list of texts, or without
   * elements, a "string[]", each nested message a value type, and everything else a "string".
   */
  lemma {:induction false} ValueTypesListFields(c: Context, msgs: seq<AminoMsg>, s: State, k: nat, name: string)
    requires NamedNested(c.schema) && GetTypes(c, msgs) == Done(s) && name == "TypeValue" + Decimal(k)
    requires forall i :: 0 <= i < |msgs| ==> !StartsWith(MsgType(msgs[i].typ), "Value")
    requires k < |TypedMessages(c, msgs)| && IsNonZeroField(TypedMessages(c, msgs)[k].value)
    ensures ListsMessage(c, s.types, name, TypedMessages(c, msgs)[k])
    decreases |msgs|
  {
    TypedMessageAt(c, msgs, k);
    var n, front, before := |msgs| - 1, Init(msgs), GetTypes(c, Init(msgs)).value;
    ValueTypesExactly(c, front, before, k, "TypeValue");
    if k < |TypedMessages(c, front)| {
      ValueTypesListFields(c, front, before, k, name);
      OldValueTypeStays(c, before, Last(msgs), n, s, k, name);
    } else {
      LastIsListed(c, before, Last(msgs), n, s, name);
    }
  }
}
