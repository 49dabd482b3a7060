/**
 * When the EIP-712 generator returns: over a schema that is closed under its own references and
 * for values whose lists start with a value, it can only throw while comparing a message with the
 * types of earlier messages, and there only where a list of structs without a first element is read.
 */
module Eip712Success {
  import opened Basics
  import opened Eip712Types
  import opened Eip712Closure
  import opened Eip712Freshness
  import opened Eip712Matching

  /** The url of a nested field's type. */
  function NestedUrl(f: SchemaField): string {
    f.package + "." + UntilDigit(Until(f.typ, "[]"))
  }

  predicate KnownUrl(schema: Schema, url: string) {
    PackageOf(url) in schema && TypeOf(url) in schema[PackageOf(url)]
  }

  /** A field of a primitive type, or of a type that the schema has; `google.protobuf.Any` is not modelled. */
  predicate KnownField(schema: Schema, f: SchemaField) {
    f.package == "" || (!(f.package == "/google.protobuf" && f.typ == "Any") && KnownUrl(schema, NestedUrl(f)))
  }

  ghost predicate ClosedSchema(schema: Schema) {
    forall p, t, i :: p in schema && t in schema[p] && 0 <= i < |schema[p][t]| ==> KnownField(schema, schema[p][t][i])
  }

  /** No list in the value, at any depth, starts with `null`. */
  predicate Shaped(v: Json) {
    match v
    case Arr(items) => (items == [] || items[0] != Null) && forall i :: 0 <= i < |items| ==> Shaped(items[i])
    case Obj(fields) => forall i :: 0 <= i < |fields| ==> Shaped(fields[i].value)
    case _ => true
  }

  lemma ShapedField(v: Json, name: string)
    requires Shaped(v) && v != Null
    ensures FieldSource(v) != Null && Get(FieldSource(v), name).Done? && Shaped(Get(FieldSource(v), name).value)
  {
    var source := FieldSource(v);
    assert Shaped(source);
    if source.Obj? {
      assert forall i :: 0 <= i < |source.fields| && source.fields[i].value == Lookup(source.fields, name) ==>
          Shaped(Lookup(source.fields, name));
    }
  }

  lemma {:induction false} ValueIsTyped(schema: Schema, typeUrl: string, value: Json, typeName: string, types: Definitions, defs: Definitions)
    requires ClosedSchema(schema) && KnownUrl(schema, typeUrl) && Shaped(value)
    ensures MsgValueType(schema, typeUrl, value, typeName, types, defs).Done?
    decreases value, 1, 0
  {
    if IsNonZeroField(value) {
      FieldsAreTyped(schema, schema[PackageOf(typeUrl)][TypeOf(typeUrl)], value, typeName, types,
                     if Has(defs, typeName) then defs else Put(defs, typeName, []));
    }
  }

  lemma {:induction false} FieldsAreTyped(
    schema: Schema, fields: seq<SchemaField>, value: Json, typeName: string, types: Definitions, defs: Definitions)
    requires ClosedSchema(schema) && Shaped(value) && value != Null
    requires forall i :: 0 <= i < |fields| ==> KnownField(schema, fields[i])
    ensures AddFields(schema, fields, value, typeName, types, defs).Done?
    decreases value, 0, |fields|
  {
    if fields == [] {
    } else {
      ShapedField(value, fields[0].name);
      var fieldValue := Get(FieldSource(value), fields[0].name).value;
      if fieldValue == Null {
        FieldsAreTyped(schema, fields[1..], value, typeName, types, defs);
      } else {
        FieldIsTyped(schema, fields[0], fieldValue, typeName, types, defs);
        FieldsAreTyped(schema, fields[1..], value, typeName, types,
                       AddField(schema, fields[0], fieldValue, typeName, types, defs).value);
      }
    }
  }

  lemma {:induction false} FieldIsTyped(
    schema: Schema, f: SchemaField, fieldValue: Json, typeName: string, types: Definitions, defs: Definitions)
    requires ClosedSchema(schema) && Shaped(fieldValue) && KnownField(schema, f)
    ensures AddField(schema, f, fieldValue, typeName, types, defs).Done?
    decreases fieldValue, 2, 0
  {
    if IsNonZeroField(fieldValue) && fieldValue != Arr([]) && f.package != "" {
      var nested := NestedTypeName(ObjectName(typeName), f.name);
      var nestedName := nested + Decimal(LatestIndex(nested, types));
      var field := TypedField(f.name, nestedName + if Includes(f.typ, "[]") then "[]" else "");
      ValueIsTyped(schema, NestedUrl(f), fieldValue, nestedName, types, Append(defs, typeName, field));
    }
  }

  /** A message that is accepted, of a type in the schema, with such a value. */
  predicate WellFormed(c: Context, msg: AminoMsg) {
    Accepts(c, msg) && KnownUrl(c.schema, c.typeUrls[msg.typ]) && Shaped(msg.value)
  }

  /**
   * One message more is typed exactly when its type is new or the comparison with the types
   * made so far does not throw, at the first type that the search does not go past.
   */
  lemma MessageIsTypedExactly(c: Context, s: State, msg: AminoMsg, n: nat)
    requires ClosedSchema(c.schema) && WellFormed(c, msg)
    ensures AddMessage(c, s, msg, n).Done? <==>
            msg.typ !in s.includedTypes || !SearchThrows(AsJson(msg), MsgType(msg.typ), s.types, s.types)
  {
    var types2 := TypesWithKey(s, msg, n);
    ValueIsTyped(c.schema, c.typeUrls[msg.typ], msg.value, "TypeValue" + Decimal(s.valueIndex), types2, []);
    assert DefineType(c, s, msg, n).Done?;
    SearchExactly(AsJson(msg), MsgType(msg.typ), s.types, s.types);
  }

  // ----- what generated types are like -----

  ghost predicate InSchema(schema: Schema, f: SchemaField) {
    exists p, t :: p in schema && t in schema[p] && f in schema[p][t]
  }

  /** A field of this name holds a list of structs somewhere in the schema. */
  ghost predicate Listed(schema: Schema, name: string) {
    exists f: SchemaField :: InSchema(schema, f) && f.package != "" && Includes(f.typ, "[]") && f.name == name
  }

  /** Names of nested fields have no brackets. */
  ghost predicate NoBracketNames(schema: Schema) {
    forall f: SchemaField :: InSchema(schema, f) && f.package != "" ==> '[' !in NestedName(f.name)
  }

  /** A field of a primitive type, or of a generated type; a list of those only where the schema has a list. */
  ghost predicate FieldFits(schema: Schema, f: TypedField) {
    || f.typ in {"string", "string[]", "int64", "bool"}
    || (StartsWith(f.typ, "Type") && (Includes(f.typ, "[]") ==> Listed(schema, f.name)))
  }

  /** A generated type. */
  ghost predicate Generated(schema: Schema, d: Definition) {
    StartsWith(d.name, "Type") && forall f :: f in d.fields ==> FieldFits(schema, f)
  }

  ghost predicate AllGenerated(schema: Schema, defs: Definitions) {
    forall i :: 0 <= i < |defs| ==> Generated(schema, defs[i])
  }

  /** A default type: it starts with a field that no message has. */
  predicate IsDefault(d: Definition) {
    d.name in {"Coin", "EIP712Domain", "Fee", "Tx"} && d.fields != [] && d.fields[0].name !in {"type", "value"}
  }

  ghost predicate TypesFit(schema: Schema, types: Definitions) {
    forall i :: 0 <= i < |types| ==> IsDefault(types[i]) || Generated(schema, types[i])
  }

  lemma {:induction false} PutFits(schema: Schema, types: Definitions, name: string, fields: seq<TypedField>)
    requires IsDefault(Definition(name, fields)) || Generated(schema, Definition(name, fields))
    ensures TypesFit(schema, types) ==> TypesFit(schema, Put(types, name, fields))
    ensures AllGenerated(schema, types) && Generated(schema, Definition(name, fields)) ==>
              AllGenerated(schema, Put(types, name, fields))
  {
    if types == [] || types[0].name == name {
    } else {
      PutFits(schema, types[1..], name, fields);
    }
  }

  lemma {:induction false} FieldsOfFit(schema: Schema, types: Definitions, name: string)
    requires TypesFit(schema, types)
    ensures var d := Definition(name, FieldsOf(types, name));
            && (d.fields == [] || IsDefault(d) || Generated(schema, d))
            && (AllGenerated(schema, types) ==> forall f :: f in d.fields ==> FieldFits(schema, f))
  {
    if types == [] || types[0].name == name {
    } else {
      FieldsOfFit(schema, types[1..], name);
    }
  }

  lemma {:induction false} MergeFits(schema: Schema, types: Definitions, more: Definitions)
    requires TypesFit(schema, types) && AllGenerated(schema, more)
    ensures TypesFit(schema, Merge(types, more))
    decreases |more|
  {
    if more == [] {
    } else {
      PutFits(schema, types, more[0].name, more[0].fields);
      MergeFits(schema, Put(types, more[0].name, more[0].fields), more[1..]);
    }
  }

  lemma SortByNameFits(schema: Schema, defs: Definitions, before: (string, string) -> bool)
    requires AllGenerated(schema, defs)
    ensures AllGenerated(schema, SortByName(defs, before))
  {
    forall i | 0 <= i < |defs|
      ensures Generated(schema, SortByName(defs, before)[i])
    {
      assert Generated(schema, defs[i]);
      SortKeeps(defs[i].fields, before);
    }
  }

  lemma AppendFits(schema: Schema, defs: Definitions, name: string, f: TypedField)
    requires AllGenerated(schema, defs) && StartsWith(name, "Type") && FieldFits(schema, f)
    ensures AllGenerated(schema, Append(defs, name, f))
  {
    FieldsOfFit(schema, defs, name);
    PutFits(schema, defs, name, FieldsOf(defs, name) + [f]);
  }

  // ----- names without brackets -----

  lemma {:induction false} UntilOmits(s: string, sub: string, c: char)
    requires c !in s
    ensures c !in Until(s, sub)
  {
    if s == "" || StartsWith(s, sub) {
    } else {
      assert s[0] in s && forall x :: x in s[1..] ==> x in s;
      UntilOmits(s[1..], sub, c);
    }
  }

  lemma {:induction false} UntilDigitOmits(s: string, c: char)
    requires c !in s
    ensures c !in UntilDigit(s)
  {
    if s == "" || IsDigit(s[0]) {
    } else {
      assert s[0] in s && forall x :: x in s[1..] ==> x in s;
      UntilDigitOmits(s[1..], c);
    }
  }

  /** The name of a nested type starts with "Type" and has no brackets, if the names it is made of have none. */
  lemma NestedNameFits(typeName: string, name: string, n: nat, prefix: string)
    requires '[' !in typeName && '[' !in NestedName(name) && prefix == "Type"
    ensures var nestedName := NestedTypeName(ObjectName(typeName), name) + Decimal(n);
            StartsWith(nestedName, prefix) && StartsWith(nestedName + "[]", prefix) && '[' !in nestedName
  {
    var objectName, nested := ObjectName(typeName), NestedName(name);
    if |typeName| >= 4 {
      assert forall x :: x in typeName[4..] ==> x in typeName;
      UntilOmits(typeName[4..], prefix, '[');
      UntilDigitOmits(Until(typeName[4..], prefix), '[');
    }
    PrefixedFits(prefix, objectName, nested, Decimal(n));
  }

  lemma PrefixedFits(prefix: string, a: string, b: string, d: string)
    requires '[' !in prefix && '[' !in a && '[' !in b && '[' !in d
    ensures StartsWith(prefix + a + b + d, prefix) && StartsWith(prefix + a + b + d + "[]", prefix) && '[' !in prefix + a + b + d
  {
    var whole := prefix + a + b + d;
    assert whole[..|prefix|] == prefix && (whole + "[]")[..|prefix|] == prefix;
  }

  lemma NumberFits(base: string, n: nat, prefix: string)
    requires StartsWith(base, prefix) && '[' !in base
    ensures StartsWith(base + Decimal(n), prefix) && '[' !in base + Decimal(n) && !Includes(base + Decimal(n), "[]")
  {
    assert (base + Decimal(n))[..|prefix|] == base[..|prefix|];
    FirstLetterMissing(base + Decimal(n), "[]");
  }

  // ----- what the generator adds -----

  lemma {:induction false} MsgValueTypeFits(
    schema: Schema, typeUrl: string, value: Json, typeName: string, types: Definitions, defs: Definitions, defs': Definitions)
    requires NoBracketNames(schema) && AllGenerated(schema, defs) && StartsWith(typeName, "Type") && '[' !in typeName
    requires MsgValueType(schema, typeUrl, value, typeName, types, defs) == Done(defs')
    ensures AllGenerated(schema, defs')
    decreases value, 1, 0
  {
    if IsNonZeroField(value) {
      var fields := schema[PackageOf(typeUrl)][TypeOf(typeUrl)];
      forall f | f in fields
        ensures InSchema(schema, f)
      {
      }
      PutFits(schema, defs, typeName, []);
      AddFieldsFit(schema, fields, value, typeName, types, if Has(defs, typeName) then defs else Put(defs, typeName, []), defs');
    }
  }

  lemma {:induction false} AddFieldsFit(
    schema: Schema, fields: seq<SchemaField>, value: Json, typeName: string, types: Definitions, defs: Definitions, defs': Definitions)
    requires NoBracketNames(schema) && AllGenerated(schema, defs) && StartsWith(typeName, "Type") && '[' !in typeName
    requires AddFields(schema, fields, value, typeName, types, defs) == Done(defs')
    requires forall f :: f in fields ==> InSchema(schema, f)
    ensures AllGenerated(schema, defs')
    decreases value, 0, |fields|
  {
    if fields == [] {
    } else {
      var fieldValue := Get(FieldSource(value), fields[0].name).value;
      assert fields[0] in fields && forall f :: f in fields[1..] ==> f in fields;
      if fieldValue == Null {
        AddFieldsFit(schema, fields[1..], value, typeName, types, defs, defs');
      } else {
        var next := AddField(schema, fields[0], fieldValue, typeName, types, defs).value;
        AddFieldFits(schema, fields[0], fieldValue, typeName, types, defs, next);
        AddFieldsFit(schema, fields[1..], value, typeName, types, next, defs');
      }
    }
  }

  lemma {:induction false} AddFieldFits(
    schema: Schema, f: SchemaField, fieldValue: Json, typeName: string, types: Definitions, defs: Definitions, defs': Definitions)
    requires NoBracketNames(schema) && AllGenerated(schema, defs) && StartsWith(typeName, "Type") && '[' !in typeName
    requires AddField(schema, f, fieldValue, typeName, types, defs) == Done(defs') && InSchema(schema, f)
    ensures AllGenerated(schema, defs')
    decreases fieldValue, 2, 0
  {
    if !IsNonZeroField(fieldValue) {
    } else if fieldValue == Arr([]) {
      AppendFits(schema, defs, typeName, TypedField(f.name, "string[]"));
    } else if f.package == "" {
      AppendFits(schema, defs, typeName, TypedField(f.name, PrimitiveType(fieldValue)));
    } else {
      var nested := NestedTypeName(ObjectName(typeName), f.name);
      var nestedName := nested + Decimal(LatestIndex(nested, types));
      var field := TypedField(f.name, nestedName + if Includes(f.typ, "[]") then "[]" else "");
      NestedNameFits(typeName, f.name, LatestIndex(nested, types), "Type");
      NestedFieldFits(schema, f, nestedName, field);
      AppendFits(schema, defs, typeName, field);
      MsgValueTypeFits(schema, NestedUrl(f), fieldValue, nestedName, types, Append(defs, typeName, field), defs');
    }
  }

  lemma NestedFieldFits(schema: Schema, f: SchemaField, nestedName: string, field: TypedField)
    requires InSchema(schema, f) && f.package != "" && '[' !in nestedName
    requires StartsWith(nestedName, "Type") && StartsWith(nestedName + "[]", "Type")
    requires field == TypedField(f.name, nestedName + if Includes(f.typ, "[]") then "[]" else "")
    ensures FieldFits(schema, field)
  {
    if Includes(f.typ, "[]") {
      assert Listed(schema, f.name);
    } else {
      assert nestedName + "" == nestedName;
      FirstLetterMissing(nestedName, "[]");
    }
  }

  lemma TxFits(schema: Schema, types: Definitions, n: nat, key: string)
    requires TypesFit(schema, types)
    ensures TypesFit(schema, Append(types, "Tx", TypedField(MsgField(n), key)))
  {
    var f, tx := TypedField(MsgField(n), key), FieldsOf(types, "Tx");
    FieldsOfFit(schema, types, "Tx");
    assert MsgField(n)[0] == 'm';
    assert "Tx"[1] == 'x' && "Type"[1] == 'y';
    assert !StartsWith("Tx", "Type");
    assert (tx + [f])[0] == if tx == [] then f else tx[0];
    PutFits(schema, types, "Tx", tx + [f]);
  }

  lemma TypesWithKeyFit(schema: Schema, s: State, msg: AminoMsg, n: nat)
    requires TypesFit(schema, s.types)
    ensures TypesFit(schema, TypesWithKey(s, msg, n))
  {
    var key, valueType, prefix := TypeKey(msg, s.types), "TypeValue" + Decimal(s.valueIndex), "Type";
    TxFits(schema, s.types, n, key);
    NumberFits("TypeValue", s.valueIndex, prefix);
    assert key == prefix + (MsgType(msg.typ) + Decimal(LatestIndex(prefix + MsgType(msg.typ), s.types)));
    var fields := [TypedField("value", valueType), TypedField("type", "string")];
    assert Generated(schema, Definition(key, fields));
    PutFits(schema, Append(s.types, "Tx", TypedField(MsgField(n), key)), key, fields);
  }

  lemma DefineTypeFits(c: Context, s: State, msg: AminoMsg, n: nat, s': State)
    requires NoBracketNames(c.schema) && TypesFit(c.schema, s.types) && DefineType(c, s, msg, n) == Done(s')
    ensures TypesFit(c.schema, s'.types)
  {
    var valueType, types2 := "TypeValue" + Decimal(s.valueIndex), TypesWithKey(s, msg, n);
    var defs := DefineTypeShape(c, s, msg, n, s', valueType);
    NumberFits("TypeValue", s.valueIndex, "Type");
    MsgValueTypeFits(c.schema, c.typeUrls[msg.typ], msg.value, valueType, types2, [], defs);
    TypesWithKeyFit(c.schema, s, msg, n);
    SortByNameFits(c.schema, defs, c.before);
    MergeFits(c.schema, types2, SortByName(defs, c.before));
  }

  lemma AddMessageFits(c: Context, s: State, msg: AminoMsg, n: nat, s': State)
    requires NoBracketNames(c.schema) && TypesFit(c.schema, s.types) && AddMessage(c, s, msg, n) == Done(s')
    ensures TypesFit(c.schema, s'.types)
  {
    if msg.typ !in s.includedTypes {
      DefineTypeFits(c, s, msg, n, DefineType(c, s, msg, n).value);
    } else {
      match MatchingType(AsJson(msg), MsgType(msg.typ), s.types, s.types).value
      case Some(key) => TxFits(c.schema, s.types, n, key);
      case None => DefineTypeFits(c, s, msg, n, s');
    }
  }

  // ----- values whose lists have first elements -----

  /** Wherever the value has a field that is a list of structs in the schema, that field is zero or has a first element. */
  ghost predicate Filled(schema: Schema, v: Json)
    decreases v
  {
    match v
    case Arr(items) => forall i :: 0 <= i < |items| ==> Filled(schema, items[i])
    case Obj(fields) =>
      forall i :: 0 <= i < |fields| ==>
        && Filled(schema, fields[i].value)
        && (Listed(schema, fields[i].key) && IsNonZeroField(fields[i].value) ==> First(fields[i].value) != Null)
    case _ => true
  }

  lemma {:induction false} LookupIsField(fields: seq<Property>, name: string)
    ensures Lookup(fields, name) == Null || exists i :: 0 <= i < |fields| && fields[i] == Property(name, Lookup(fields, name))
  {
    if fields == [] || fields[0].key == name {
    } else {
      LookupIsField(fields[1..], name);
      if Lookup(fields, name) != Null {
        var i :| 0 <= i < |fields[1..]| && fields[1..][i] == Property(name, Lookup(fields, name));
        assert fields[i + 1] == Property(name, Lookup(fields, name));
      }
    }
  }

  lemma FilledField(schema: Schema, value: Json, name: string)
    requires Filled(schema, value) && Get(value, name).Done? && IsNonZeroField(Get(value, name).value)
    ensures var v := Get(value, name).value;
            Filled(schema, v) && Filled(schema, First(v)) && (Listed(schema, name) ==> First(v) != Null)
  {
    LookupIsField(value.fields, name);
  }

  /** No type has the name of a primitive. */
  lemma PrimitiveIsNoType(schema: Schema, types: Definitions, f: TypedField)
    requires TypesFit(schema, types) && f.typ in {"string", "string[]", "int64", "bool"}
    ensures !Has(types, Named(f))
  {
    NamedPrimitive(f);
    forall i | 0 <= i < |types|
      ensures types[i].name != Named(f)
    {
      TypeNameStarts(schema, types[i]);
    }
  }

  lemma TypeNameStarts(schema: Schema, d: Definition)
    requires IsDefault(d) || Generated(schema, d)
    ensures d.name != "" && d.name[0] in {'C', 'E', 'F', 'T'}
  {
    if StartsWith(d.name, "Type") {
      assert d.name[..4][0] == 'T';
    }
  }

  lemma NamedPrimitive(f: TypedField)
    requires f.typ in {"string", "string[]", "int64", "bool"}
    ensures Named(f) != "" && Named(f)[0] in {'s', 'i', 'b'}
  {
    UntilStarts(f.typ, "[]");
  }

  lemma UntilStarts(s: string, sub: string)
    requires s != "" && sub != "" && s[0] != sub[0]
    ensures Until(s, sub) != "" && Until(s, sub)[0] == s[0]
  {
    assert |sub| <= |s| ==> s[..|sub|][0] == s[0];
  }

  lemma NamedStruct(f: TypedField, prefix: string)
    requires prefix == "Type" && StartsWith(f.typ, prefix)
    ensures StartsWith(Named(f), prefix)
  {
    assert f.typ == prefix + f.typ[4..];
    UntilKeepsPrefix(prefix, f.typ[4..], "[]");
  }

  /** What a struct field of a generated type is compared with is there, if lists have first elements. */
  lemma PartIsThere(schema: Schema, value: Json, f: TypedField, types: Definitions)
    requires TypesFit(schema, types) && FieldFits(schema, f) && Has(types, Named(f))
    requires Filled(schema, value) && IsNonZeroField(FieldValue(value, f))
    ensures Part(value, f) != Null && Filled(schema, Part(value, f)) && StartsWith(Named(f), "Type")
  {
    if f.typ in {"string", "string[]", "int64", "bool"} {
      PrimitiveIsNoType(schema, types, f);
    }
    FilledField(schema, value, f.name);
    NamedStruct(f, "Type");
  }

  lemma {:induction false} FilledNeverThrows(schema: Schema, value: Json, key: string, types: Definitions)
    requires TypesFit(schema, types) && StartsWith(key, "Type") && value != Null && Filled(schema, value)
    ensures !Throws(value, key, types)
    decreases Size(value)
  {
    var fields := FieldsOf(types, key);
    FieldsOfFit(schema, types, key);
    TypeIsNoDefault(key);
    forall i | 0 <= i < |fields| && ReadsTo(value, fields, |fields|, i) && Has(types, Named(fields[i]))
      ensures !Throws(Part(value, fields[i]), Named(fields[i]), types)
    {
      assert fields[..i + 1][i] == fields[i];
      PartIsThere(schema, value, fields[i], types);
      SizeOfPart(value, fields[i].name);
      FilledNeverThrows(schema, Part(value, fields[i]), Named(fields[i]), types);
    }
  }

  lemma TypeIsNoDefault(key: string)
    requires StartsWith(key, "Type")
    ensures key !in {"Coin", "EIP712Domain", "Fee", "Tx"}
  {
    assert key[0] == "Type"[0] && key[1] == "Type"[1];
  }

  lemma NoSuchField(msg: AminoMsg, name: string)
    requires name !in {"type", "value"}
    ensures Get(AsJson(msg), name) == Done(Null)
  {
    var fields := [Property("type", Str(msg.typ)), Property("value", msg.value)];
    assert fields[1..] == [fields[1]] && fields[1..][1..] == [];
    assert Lookup(fields, name) == Lookup(fields[1..], name) == Lookup([], name);
  }

  /** A message is compared with a default type only up to its first field. */
  lemma DefaultNeverThrows(schema: Schema, msg: AminoMsg, key: string, types: Definitions)
    requires TypesFit(schema, types) && key in {"Coin", "EIP712Domain", "Fee", "Tx"}
    ensures !Throws(AsJson(msg), key, types)
  {
    var fields := FieldsOf(types, key);
    FieldsOfFit(schema, types, key);
    assert !StartsWith(key, "Type") by {
      if StartsWith(key, "Type") {
        TypeIsNoDefault(key);
      }
    }
    if fields != [] {
      NoSuchField(msg, fields[0].name);
      NothingIsRead(AsJson(msg), fields, |fields|, types);
    }
  }

  lemma FilledSearchReturns(schema: Schema, msg: AminoMsg, types: Definitions)
    requires TypesFit(schema, types) && Filled(schema, AsJson(msg))
    ensures !SearchThrows(AsJson(msg), MsgType(msg.typ), types, types)
  {
    forall j | 0 <= j < |types|
      ensures !Throws(AsJson(msg), types[j].name, types)
    {
      if IsDefault(types[j]) {
        DefaultNeverThrows(schema, msg, types[j].name, types);
      } else {
        FilledNeverThrows(schema, AsJson(msg), types[j].name, types);
      }
    }
  }

  // ----- whole runs -----

  /** Only the types of messages are included. */
  lemma {:induction false} IncludedAreMessages(c: Context, msgs: seq<AminoMsg>, s: State)
    requires GetTypes(c, msgs) == Done(s)
    ensures forall x :: x in s.includedTypes ==> exists i :: 0 <= i < |msgs| && msgs[i].typ == x
  {
    if msgs == [] {
    } else {
      var n := |msgs| - 1;
      var before := GetTypes(c, msgs[..n]).value;
      IncludedAreMessages(c, msgs[..n], before);
      forall x | x in s.includedTypes
        ensures exists i :: 0 <= i < |msgs| && msgs[i].typ == x
      {
        if x in before.includedTypes {
          var i :| 0 <= i < n && msgs[..n][i].typ == x;
          assert msgs[i].typ == x;
        } else {
          assert msgs[n].typ == x;
        }
      }
    }
  }

  lemma DefaultsFit(schema: Schema)
    ensures TypesFit(schema, DEFAULT_EIP712_TYPES)
  {
    var t := DEFAULT_EIP712_TYPES;
    assert IsDefault(t[0]) && IsDefault(t[1]) && IsDefault(t[2]) && IsDefault(t[3]);
  }

  lemma {:induction false} GeneratedTypesFit(c: Context, msgs: seq<AminoMsg>, s: State)
    requires NoBracketNames(c.schema) && GetTypes(c, msgs) == Done(s)
    ensures TypesFit(c.schema, s.types)
  {
    if msgs == [] {
      DefaultsFit(c.schema);
    } else {
      var n := |msgs| - 1;
      var before := GetTypes(c, msgs[..n]).value;
      GeneratedTypesFit(c, msgs[..n], before);
      AddMessageFits(c, before, msgs[n], n, s);
    }
  }

  /** What a message of a type that has occurred before must be like. */
  ghost predicate Repeatable(c: Context, msg: AminoMsg) {
    NoBracketNames(c.schema) && Filled(c.schema, AsJson(msg))
  }

  /**
   * For well-formed messages over a closed schema the generator returns, if in every message of
   * a repeated type the fields that are lists of structs in the schema are zero or have a first
   * element; if no value is zero, every struct type named by a field is then defined, and `Tx`
   * has one field per message.
   */
  lemma {:induction false} MessagesAreTyped(c: Context, msgs: seq<AminoMsg>)
    requires ClosedSchema(c.schema)
    requires forall i :: 0 <= i < |msgs| ==> WellFormed(c, msgs[i])
    requires forall i, j :: 0 <= i < j < |msgs| && msgs[i].typ == msgs[j].typ ==> Repeatable(c, msgs[j])
    ensures GetTypes(c, msgs).Done?
    ensures (forall i :: 0 <= i < |msgs| ==> IsNonZeroField(msgs[i].value)) ==> Good(GetTypes(c, msgs).value, |msgs|)
  {
    if msgs == [] {
    } else {
      var n := |msgs| - 1;
      MessagesAreTyped(c, msgs[..n]);
      LastIsTyped(c, msgs, GetTypes(c, msgs[..n]).value);
    }
    if forall i :: 0 <= i < |msgs| ==> IsNonZeroField(msgs[i].value) {
      GeneratedTypesAreClosed(c, msgs, GetTypes(c, msgs).value);
    }
  }

  lemma LastIsTyped(c: Context, msgs: seq<AminoMsg>, s: State)
    requires ClosedSchema(c.schema) && msgs != [] && WellFormed(c, Last(msgs)) && GetTypes(c, Init(msgs)) == Done(s)
    requires forall i :: 0 <= i < |msgs| - 1 && msgs[i].typ == Last(msgs).typ ==> Repeatable(c, Last(msgs))
    ensures AddMessage(c, s, Last(msgs), |msgs| - 1).Done?
  {
    IncludedAreMessages(c, Init(msgs), s);
    if Last(msgs).typ in s.includedTypes {
      var i :| 0 <= i < |Init(msgs)| && Init(msgs)[i].typ == Last(msgs).typ;
      assert msgs[i].typ == Last(msgs).typ;
      GeneratedTypesFit(c, Init(msgs), s);
      FilledSearchReturns(c.schema, Last(msgs), s.types);
    }
    MessageIsTypedExactly(c, s, Last(msgs), |msgs| - 1);
  }
}
