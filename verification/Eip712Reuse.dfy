/**
 * Two messages of one type with two nested structs each, the first of them a list: what the
 * EIP-712 generator makes of a second message that lacks a field, and of one with an empty list.
 */
module Eip712Reuse {
  import opened Basics
  import opened Text
  import opened Eip712Types
  import opened Eip712Closure
  import opened Eip712Freshness
  import opened Eip712Failures
  import opened Eip712Matching

  // ----- lists of definitions with distinct names -----

  lemma {:induction false} PutAtEnd(types: Definitions, name: string, fields: seq<TypedField>)
    requires name !in Names(types)
    ensures Put(types, name, fields) == types + [Definition(name, fields)]
  {
    if types == [] {
    } else {
      assert types == [types[0]] + types[1..];
      NamesOfCons(types[0], types[1..]);
      PutAtEnd(types[1..], name, fields);
    }
  }

  lemma {:induction false} PutKeepsPlaces(types: Definitions, name: string, fields: seq<TypedField>)
    requires name in Names(types)
    ensures |Put(types, name, fields)| == |types|
    ensures forall i :: 0 <= i < |types| ==> Put(types, name, fields)[i].name == types[i].name
  {
    if types[0].name == name {
    } else {
      assert types == [types[0]] + types[1..];
      NamesOfCons(types[0], types[1..]);
      PutKeepsPlaces(types[1..], name, fields);
    }
  }

  lemma {:induction false} FieldsOfConcat(types: Definitions, more: Definitions, name: string)
    ensures FieldsOf(types + more, name) == if name in Names(types) then FieldsOf(types, name) else FieldsOf(more, name)
  {
    if types == [] {
      assert types + more == more;
    } else {
      assert types == [types[0]] + types[1..];
      NamesOfCons(types[0], types[1..]);
      assert (types + more)[1..] == types[1..] + more;
      FieldsOfConcat(types[1..], more, name);
    }
  }

  lemma NamesOfConcat(types: Definitions, more: Definitions)
    ensures Names(types + more) == Names(types) + Names(more)
  {
    var all := types + more;
    forall x | x in Names(types) + Names(more)
      ensures x in Names(all)
    {
      if x in Names(types) {
        var i :| 0 <= i < |types| && types[i].name == x;
        assert all[i].name == x;
      } else {
        var i :| 0 <= i < |more| && more[i].name == x;
        assert all[|types| + i].name == x;
      }
    }
  }

  lemma HasIsInNames(types: Definitions, name: string)
    ensures Has(types, name) <==> name in Names(types)
  {
  }

  lemma NamesOfOne(d: Definition)
    ensures Names([d]) == {d.name}
  {
    NamesOfCons(d, []);
    assert [d] + [] == [d];
  }

  /** Merging three new definitions. */
  lemma MergeThree(types: Definitions, a: Definition, b: Definition, c: Definition)
    requires a.name !in Names(types) && b.name !in Names(types) && c.name !in Names(types)
    requires a.name != b.name && a.name != c.name && b.name != c.name
    ensures Merge(types, [a, b, c]) == types + [a, b, c]
  {
    var types1, types2 := types + [a], types + [a] + [b];
    NamesOfOne(a);
    NamesOfOne(b);
    NamesOfConcat(types, [a]);
    NamesOfConcat(types1, [b]);
    PutAtEnd(types, a.name, a.fields);
    PutAtEnd(types1, b.name, b.fields);
    PutAtEnd(types2, c.name, c.fields);
    assert [a, b, c][1..] == [b, c] && [b, c][1..] == [c] && [c][1..] == [];
    assert Merge(types2 + [c], []) == types2 + [c];
    assert Merge(types2, [c]) == types2 + [c];
    assert Merge(types1, [b, c]) == types2 + [c];
    assert types2 + [c] == types + [a, b, c];
  }

  // ----- one nested field -----

  /** A nested field whose type has one field, a text. */
  predicate NestedText(schema: Schema, f: SchemaField, inner: string) {
    && f.package != "" && !(f.package == "/google.protobuf" && f.typ == "Any")
    && (var url := f.package + "." + UntilDigit(Until(f.typ, "[]"));
        PackageOf(url) in schema && TypeOf(url) in schema[PackageOf(url)]
        && schema[PackageOf(url)][TypeOf(url)] == [SchemaField(inner, "string", "")])
  }

  function TextObject(name: string): Json {
    Obj([Property(name, Str("1"))])
  }

  function NestedOf(valueType: string, f: SchemaField): string {
    NestedTypeName(ObjectName(valueType), f.name)
  }

  function Suffix(f: SchemaField): string {
    if Includes(f.typ, "[]") then "[]" else ""
  }

  lemma TextFieldIsAdded(schema: Schema, value: Json, inner: string, name: string, types: Definitions, defs: Definitions)
    requires FieldSource(value) == TextObject(inner) && name !in Names(defs)
    ensures AddFields(schema, [SchemaField(inner, "string", "")], value, name, types, Put(defs, name, [])) ==
            Done(defs + [Definition(name, [TypedField(inner, "string")])])
  {
    var fields, defs1 := [SchemaField(inner, "string", "")], defs + [Definition(name, [])];
    var text := TypedField(inner, "string");
    PutAtEnd(defs, name, []);
    assert Get(FieldSource(value), inner) == Done(Str("1"));
    FieldsOfConcat(defs, [Definition(name, [])], name);
    PutLast(defs, name, [], [text]);
    assert [] + [text] == [text];
    assert Append(defs1, name, text) == defs + [Definition(name, [text])];
    assert AddField(schema, fields[0], Str("1"), name, types, defs1) == Done(Append(defs1, name, text));
    assert fields[1..] == [];
  }

  lemma {:induction false} PutLast(types: Definitions, name: string, fields: seq<TypedField>, more: seq<TypedField>)
    requires name !in Names(types)
    ensures Put(types + [Definition(name, fields)], name, more) == types + [Definition(name, more)]
  {
    var all := types + [Definition(name, fields)];
    if types == [] {
      assert all == [Definition(name, fields)] && all[1..] == [];
    } else {
      assert types == [types[0]] + types[1..];
      NamesOfCons(types[0], types[1..]);
      assert all[1..] == types[1..] + [Definition(name, fields)];
      PutLast(types[1..], name, fields, more);
    }
  }

  lemma NestedIsAdded(schema: Schema, f: SchemaField, value: Json, inner: string, typeName: string, name: string,
                      types: Definitions, defs: Definitions)
    requires NestedText(schema, f, inner) && FieldSource(value) == TextObject(inner) && IsNonZeroField(value) && value != Arr([])
    requires name == NestedOf(typeName, f) + Decimal(LatestIndex(NestedOf(typeName, f), types))
    requires typeName in Names(defs) && name !in Names(defs)
    ensures AddField(schema, f, value, typeName, types, defs) ==
            Done(Append(defs, typeName, TypedField(f.name, name + Suffix(f))) + [Definition(name, [TypedField(inner, "string")])])
  {
    var field := TypedField(f.name, name + Suffix(f));
    var defs1 := Append(defs, typeName, field);
    PutNames(defs, typeName, FieldsOf(defs, typeName) + [field]);
    HasIsInNames(defs1, name);
    TextFieldIsAdded(schema, value, inner, name, types, defs1);
  }

  // ----- the message type of the example -----

  /** A message type, its two fields, and the names of the texts inside them. */
  datatype Example = Example(typ: string, fa: SchemaField, fb: SchemaField, x: string, y: string)

  /** A short message name, a list of structs and a struct, each with one text. */
  ghost predicate TwoNested(c: Context, e: Example) {
    && e.typ in c.typeUrls
    && (var url := c.typeUrls[e.typ];
        PackageOf(url) in c.schema && TypeOf(url) in c.schema[PackageOf(url)]
        && c.schema[PackageOf(url)][TypeOf(url)] == [e.fa, e.fb])
    && NestedText(c.schema, e.fa, e.x) && NestedText(c.schema, e.fb, e.y)
    && Includes(e.fa.typ, "[]") && !Includes(e.fb.typ, "[]")
    // sorting puts the struct first
    && e.fa.name != e.fb.name && !c.before(e.fa.name, e.fb.name)
    // the nested types have names of their own, without brackets
    && NestedName(e.fa.name) != NestedName(e.fb.name) && NestedName(e.fa.name) != "" && NestedName(e.fb.name) != ""
    && '[' !in NestedName(e.fa.name) && '[' !in NestedName(e.fb.name)
    // the message name is part of no default name
    && 0 < |MsgType(e.typ)| < 4 && forall i :: 0 <= i < 4 ==> !Includes(DEFAULT_EIP712_TYPES[i].name, MsgType(e.typ))
  }

  function Both(fa: SchemaField, fb: SchemaField, list: Json, struct: Json): Json {
    Obj([Property(fa.name, list), Property(fb.name, struct)])
  }

  lemma BothFields(fa: SchemaField, fb: SchemaField, list: Json, struct: Json)
    requires fa.name != fb.name
    ensures var value := Both(fa, fb, list, struct);
            && KeyCount(value) == Done(2) && FieldSource(value) == value
            && Get(value, fa.name) == Done(list) && Get(value, fb.name) == Done(struct)
  {
    var value := Both(fa, fb, list, struct);
    assert value.fields[1..] == [Property(fb.name, struct)];
    assert Lookup(value.fields[1..], fb.name) == struct;
  }

  lemma HeadIsAppended(name: string, fields: seq<TypedField>, rest: Definitions, field: TypedField, defs: Definitions)
    requires defs == [Definition(name, fields)] + rest
    ensures Append(defs, name, field) == [Definition(name, fields + [field])] + rest
  {
    assert defs[0] == Definition(name, fields) && defs[1..] == rest;
  }

  /** A list of one definition and another one. */
  lemma NamesOfTwo(a: Definition, b: Definition)
    ensures Names([a, b]) == {a.name, b.name}
  {
    assert [a, b] == [a] + [b];
    NamesOfCons(a, [b]);
    NamesOfOne(b);
  }

  /** What the value of the first message defines. */
  lemma DefinitionsOfBoth(schema: Schema, fa: SchemaField, fb: SchemaField, x: string, y: string, valueType: string,
                          na: string, nb: string, types: Definitions)
    requires NestedText(schema, fa, x) && NestedText(schema, fb, y) && fa.name != fb.name
    requires na == NestedOf(valueType, fa) + Decimal(LatestIndex(NestedOf(valueType, fa), types))
    requires nb == NestedOf(valueType, fb) + Decimal(LatestIndex(NestedOf(valueType, fb), types))
    requires na != nb && na != valueType && nb != valueType
    ensures AddFields(schema, [fa, fb], Both(fa, fb, Arr([TextObject(x)]), TextObject(y)), valueType, types, [Definition(valueType, [])]) ==
            Done([Definition(valueType, [TypedField(fa.name, na + Suffix(fa)), TypedField(fb.name, nb + Suffix(fb))]),
                  Definition(na, [TypedField(x, "string")]), Definition(nb, [TypedField(y, "string")])])
  {
    var value := Both(fa, fb, Arr([TextObject(x)]), TextObject(y));
    var ta, tb := TypedField(fa.name, na + Suffix(fa)), TypedField(fb.name, nb + Suffix(fb));
    var da, db := Definition(na, [TypedField(x, "string")]), Definition(nb, [TypedField(y, "string")]);
    var defs0, defs1, defs2 := [Definition(valueType, [])], [Definition(valueType, [ta]), da], [Definition(valueType, [ta, tb]), da, db];
    FirstIsAdded(schema, fa, x, valueType, na, types, ta, da);
    SecondIsAdded(schema, fb, y, valueType, nb, types, ta, tb, da, db);
    BothFields(fa, fb, Arr([TextObject(x)]), TextObject(y));
    TwoAdded(schema, fa, fb, value, valueType, types, defs0, defs1, defs2);
  }

  lemma FirstIsAdded(schema: Schema, f: SchemaField, x: string, valueType: string, name: string, types: Definitions, t: TypedField, d: Definition)
    requires NestedText(schema, f, x) && name == NestedOf(valueType, f) + Decimal(LatestIndex(NestedOf(valueType, f), types))
    requires name != valueType && t == TypedField(f.name, name + Suffix(f)) && d == Definition(name, [TypedField(x, "string")])
    ensures AddField(schema, f, Arr([TextObject(x)]), valueType, types, [Definition(valueType, [])]) ==
            Done([Definition(valueType, [t]), d])
  {
    var defs := [Definition(valueType, [])];
    NamesOfOne(defs[0]);
    NestedIsAdded(schema, f, Arr([TextObject(x)]), x, valueType, name, types, defs);
    assert defs == [Definition(valueType, [])] + [];
    HeadIsAppended(valueType, [], [], t, defs);
    assert [] + [t] == [t];
    assert [Definition(valueType, [t])] + [] + [d] == [Definition(valueType, [t]), d];
  }

  lemma SecondIsAdded(schema: Schema, f: SchemaField, y: string, valueType: string, name: string, types: Definitions,
                      t: TypedField, t': TypedField, d: Definition, d': Definition)
    requires NestedText(schema, f, y) && name == NestedOf(valueType, f) + Decimal(LatestIndex(NestedOf(valueType, f), types))
    requires name != valueType && name != d.name
    requires t' == TypedField(f.name, name + Suffix(f)) && d' == Definition(name, [TypedField(y, "string")])
    ensures AddField(schema, f, TextObject(y), valueType, types, [Definition(valueType, [t]), d]) ==
            Done([Definition(valueType, [t, t']), d, d'])
  {
    var defs := [Definition(valueType, [t]), d];
    NamesOfTwo(defs[0], d);
    NestedIsAdded(schema, f, TextObject(y), y, valueType, name, types, defs);
    assert defs == [Definition(valueType, [t])] + [d];
    HeadIsAppended(valueType, [t], [d], t', defs);
    assert [t] + [t'] == [t, t'];
    assert [Definition(valueType, [t, t'])] + [d] + [d'] == [Definition(valueType, [t, t']), d, d'];
  }

  /** Two fields are added one after the other. */
  lemma TwoAdded(schema: Schema, fa: SchemaField, fb: SchemaField, value: Json, valueType: string, types: Definitions,
                 defs0: Definitions, defs1: Definitions, defs2: Definitions)
    requires Get(FieldSource(value), fa.name).Done? && Get(FieldSource(value), fb.name).Done?
    requires AddField(schema, fa, Get(FieldSource(value), fa.name).value, valueType, types, defs0) == Done(defs1)
    requires AddField(schema, fb, Get(FieldSource(value), fb.name).value, valueType, types, defs1) == Done(defs2)
    ensures AddFields(schema, [fa, fb], value, valueType, types, defs0) == Done(defs2)
  {
    assert [fa, fb][1..] == [fb] && [fb][1..] == [];
    assert AddFields(schema, [], value, valueType, types, defs2) == Done(defs2);
    assert AddFields(schema, [fb], value, valueType, types, defs1) == Done(defs2);
  }

  // ----- names -----

  /** Without digits and the first letter of `sub`, a name is kept up to a digit. */
  lemma NameIsKept(s: string, t: string, sub: string)
    requires sub != "" && sub[0] !in s && sub[0] !in t
    requires (forall i :: 0 <= i < |s| ==> !IsDigit(s[i])) && (t == "" || IsDigit(t[0]))
    ensures UntilDigit(Until(s + t, sub)) == s
  {
    var all := s + t;
    UntilKeepsPrefix(all, "", sub);
    assert all + "" == all;
    UntilDigitKeepsPrefix(s, t);
  }

  lemma ValueObjectName(valueType: string, n: nat)
    requires valueType == "TypeValue" + Decimal(n)
    ensures ObjectName(valueType) == "Value"
  {
    var rest := valueType[4..];
    assert rest == "Value" + Decimal(n);
    assert 'T' !in rest by {
      DigitsFollow("Value", n);
    }
    NameIsKept("Value", Decimal(n), "Type");
  }

  function ValueType(): string {
    "TypeValue" + Decimal(0)
  }

  function Key(e: Example): string {
    "Type" + MsgType(e.typ) + Decimal(0)
  }

  function NestedName0(name: string): string {
    "TypeValue" + NestedName(name) + Decimal(0)
  }

  lemma NestedBase(valueType: string, f: SchemaField)
    requires valueType == ValueType()
    ensures NestedOf(valueType, f) == "TypeValue" + NestedName(f.name)
  {
    ValueObjectName(valueType, 0);
    assert "Type" + "Value" == "TypeValue";
  }

  /** Before the first value is looked at nothing is named like a nested type. */
  lemma NothingNested(s: State, msg: AminoMsg, m: string, sub: string)
    requires s == Start() && |MsgType(msg.typ)| < 4 && sub == "TypeValue" + m
    ensures LatestIndex(sub, TypesWithKey(s, msg, 0)) == 0
    ensures TypeKey(msg, s.types) == "Type" + MsgType(msg.typ) + Decimal(0)
  {
    var key := TypeKey(msg, s.types);
    DefaultsCountNoValues(s.types, sub);
    DefaultsCountNoValues(s.types, "Type" + MsgType(msg.typ));
    var f := TypedField(MsgField(0), key);
    AddTxField("Value" + m, s.types, f);
    ValuePrefix(m, sub);
    PutCounts(Append(s.types, "Tx", f), key, [TypedField("value", ValueType()), TypedField("type", "string")], sub);
    IncludedIsShorter(key, sub);
  }

  lemma ValuePrefix(m: string, sub: string)
    requires sub == "TypeValue" + m
    ensures "Type" + ("Value" + m) == sub
  {
  }

  lemma NestedNamesDiffer(e: Example)
    requires NestedName(e.fa.name) != NestedName(e.fb.name) && NestedName(e.fa.name) != "" && NestedName(e.fb.name) != ""
    ensures NestedName0(e.fa.name) != NestedName0(e.fb.name)
    ensures NestedName0(e.fa.name) != ValueType() && NestedName0(e.fb.name) != ValueType()
  {
    var a, b := NestedName(e.fa.name), NestedName(e.fb.name);
    assert |NestedName0(e.fa.name)| == 9 + |a| + 1 && |NestedName0(e.fb.name)| == 9 + |b| + 1 && |ValueType()| == 10;
    assert NestedName0(e.fa.name)[9..9 + |a|] == a;
    assert |a| == |b| ==> NestedName0(e.fb.name)[9..9 + |a|] == b;
  }

  // ----- the types after the first message -----

  function FirstValue(e: Example): Json {
    Both(e.fa, e.fb, Arr([TextObject(e.x)]), TextObject(e.y))
  }

  function ValueDefinition(e: Example): Definition {
    Definition(ValueType(), [TypedField(e.fb.name, NestedName0(e.fb.name)), TypedField(e.fa.name, NestedName0(e.fa.name) + "[]")])
  }

  function ListDefinition(e: Example): Definition {
    Definition(NestedName0(e.fa.name), [TypedField(e.x, "string")])
  }

  function StructDefinition(e: Example): Definition {
    Definition(NestedName0(e.fb.name), [TypedField(e.y, "string")])
  }

  function FirstTypes(e: Example): Definitions {
    TypesWithKey(Start(), AminoMsg(e.typ, Null), 0)
    + [ValueDefinition(e), ListDefinition(e), StructDefinition(e)]
  }

  lemma NoDefaultName(types: Definitions, m: string, name: string)
    requires types == DEFAULT_EIP712_TYPES && name == "Type" + m + Decimal(0)
    ensures name !in Names(types)
  {
    DefaultsAreNoMessageNames(m, 0);
  }

  lemma NoValueNameYet(s: State, msg: AminoMsg, types: Definitions, sub: string, m: string, name: string)
    requires |MsgType(msg.typ)| < 4 && s == Start() && types == TypesWithKey(s, msg, 0)
    requires sub == "TypeValue" && name == sub + m + Decimal(0)
    ensures name !in Names(types)
  {
    ShortKey(s, msg, 0, sub);
    ValueNameSplits(sub, m, name);
    NoDefaultName(s.types, "Value" + m, name);
    LongNameIsNew(name, Names(s.types), TypeKey(msg, s.types));
  }

  lemma ValueNameSplits(sub: string, m: string, name: string)
    requires sub == "TypeValue" && name == sub + m + Decimal(0)
    ensures name == "Type" + ("Value" + m) + Decimal(0) && |name| >= 10
  {
    assert "Type" + ("Value" + m) == sub + m;
  }

  lemma LongNameIsNew(name: string, names: set<string>, key: string)
    requires name !in names && |name| >= 10 && |key| < 9
    ensures name !in names + {"Tx", key}
  {
    assert |"Tx"| == 2;
  }

  lemma NoNestedNamesYet(e: Example, s: State, msg: AminoMsg, types: Definitions)
    requires |MsgType(e.typ)| < 4 && s == Start() && msg.typ == e.typ && types == TypesWithKey(s, msg, 0)
    ensures ValueType() !in Names(types) && NestedName0(e.fa.name) !in Names(types) && NestedName0(e.fb.name) !in Names(types)
  {
    var sub := "TypeValue";
    NoValueNameYet(s, msg, types, sub, NestedName(e.fa.name), NestedName0(e.fa.name));
    NoValueNameYet(s, msg, types, sub, NestedName(e.fb.name), NestedName0(e.fb.name));
    assert sub + "" == sub;
    NoValueNameYet(s, msg, types, sub, "", ValueType());
  }

  lemma PairIsSorted(a: TypedField, b: TypedField, before: (string, string) -> bool)
    requires !before(a.name, b.name)
    ensures SortFields([a, b], before) == [b, a]
  {
    assert [a, b][1..] == [b] && [b][1..] == [];
    assert SortFields([b][1..], before) == [];
    assert SortFields([b], before) == [b] + [];
    assert Insert(a, [b][1..], before) == [a];
    assert Insert(a, [b], before) == [b] + [a];
  }

  lemma SortedBoth(before: (string, string) -> bool, name: string, a: TypedField, b: TypedField, da: Definition, db: Definition)
    requires !before(a.name, b.name) && |da.fields| == 1 && |db.fields| == 1
    ensures SortByName([Definition(name, [a, b]), da, db], before) == [Definition(name, [b, a]), da, db]
  {
    PairIsSorted(a, b, before);
    OneFieldIsSorted(da.fields, before);
    OneFieldIsSorted(db.fields, before);
  }

  lemma OneFieldIsSorted(fields: seq<TypedField>, before: (string, string) -> bool)
    requires |fields| == 1
    ensures SortFields(fields, before) == fields
  {
    assert fields[1..] == [];
    assert fields == [fields[0]];
  }

  lemma FirstNestedName(s: State, msg: AminoMsg, types: Definitions, valueType: string, f: SchemaField)
    requires s == Start() && |MsgType(msg.typ)| < 4 && types == TypesWithKey(s, msg, 0) && valueType == ValueType()
    ensures NestedName0(f.name) == NestedOf(valueType, f) + Decimal(LatestIndex(NestedOf(valueType, f), types))
  {
    NestedBase(valueType, f);
    NothingNested(s, msg, NestedName(f.name), NestedOf(valueType, f));
  }

  /** The definitions that the first value gives, before sorting. */
  lemma FirstDefinitions(c: Context, e: Example, msg: AminoMsg, s: State, types: Definitions, valueType: string)
    requires TwoNested(c, e) && msg == AminoMsg(e.typ, FirstValue(e)) && s == Start() && types == TypesWithKey(s, msg, 0)
    requires valueType == ValueType()
    ensures MsgValueType(c.schema, c.typeUrls[e.typ], msg.value, valueType, types, []) ==
            Done([Definition(valueType, [TypedField(e.fa.name, NestedName0(e.fa.name) + "[]"), TypedField(e.fb.name, NestedName0(e.fb.name))]),
                  ListDefinition(e), StructDefinition(e)])
  {
    FirstNestedName(s, msg, types, valueType, e.fa);
    FirstNestedName(s, msg, types, valueType, e.fb);
    NestedNamesDiffer(e);
    DefinitionsOfBoth(c.schema, e.fa, e.fb, e.x, e.y, valueType, NestedName0(e.fa.name), NestedName0(e.fb.name), types);
    assert NestedName0(e.fb.name) + "" == NestedName0(e.fb.name);
    assert Put([], valueType, []) == [Definition(valueType, [])];
  }

  lemma FirstMessage(c: Context, e: Example, msg: AminoMsg, s: State)
    requires TwoNested(c, e) && Accepts(c, msg) && msg == AminoMsg(e.typ, FirstValue(e)) && s == Start()
    ensures AddMessage(c, s, msg, 0) == Done(State(FirstTypes(e), [e.typ], 1))
  {
    var types, valueType := TypesWithKey(s, msg, 0), ValueType();
    var ta := TypedField(e.fa.name, NestedName0(e.fa.name) + "[]");
    var tb := TypedField(e.fb.name, NestedName0(e.fb.name));
    FirstDefinitions(c, e, msg, s, types, valueType);
    SortedBoth(c.before, valueType, ta, tb, ListDefinition(e), StructDefinition(e));
    NoNestedNamesYet(e, s, msg, types);
    NestedNamesDiffer(e);
    MergeThree(types, ValueDefinition(e), ListDefinition(e), StructDefinition(e));
    assert types == TypesWithKey(s, AminoMsg(e.typ, Null), 0);
    assert [] + [e.typ] == [e.typ];
    assert DefineType(c, s, msg, 0) == Done(State(FirstTypes(e), [], 1));
  }

  // ----- comparing the second message -----

  /** What the comparison looks up in the types. */
  ghost predicate Known(types: Definitions, e: Example) {
    && FieldsOf(types, Key(e)) == [TypedField("value", ValueType()), TypedField("type", "string")]
    && FieldsOf(types, ValueType()) == ValueDefinition(e).fields
    && FieldsOf(types, NestedName0(e.fa.name)) == ListDefinition(e).fields
    && FieldsOf(types, NestedName0(e.fb.name)) == StructDefinition(e).fields
    && Has(types, ValueType()) && Has(types, NestedName0(e.fa.name)) && Has(types, NestedName0(e.fb.name))
    && !Has(types, "string")
  }

  lemma NoTextType(types: Definitions, e: Example, s: State, msg: AminoMsg, sub: string)
    requires 0 < |MsgType(e.typ)| < 4 && s == Start() && msg.typ == e.typ && types == TypesWithKey(s, msg, 0)
    requires sub == "TypeValue"
    ensures Names(types) == Names(s.types) + {"Tx", Key(e)} && "string" !in Names(types)
  {
    ShortKey(s, msg, 0, sub);
    assert sub + "" == sub;
    NothingNested(s, msg, "", sub);
    NoDefaultText(s.types);
    NoTextAmong(Names(s.types), Key(e));
  }

  lemma NoTextAmong(names: set<string>, key: string)
    requires "string" !in names && key != "" && key[0] == 'T'
    ensures "string" !in names + {"Tx", key}
  {
    assert "string"[0] == 's' && "Tx"[0] == 'T';
  }

  lemma NoDefaultText(types: Definitions)
    requires types == DEFAULT_EIP712_TYPES
    ensures "string" !in Names(types)
  {
    assert types[0].name[0] == 'C' && types[1].name[0] == 'E' && types[2].name[0] == 'F' && types[3].name[0] == 'T';
  }

  lemma KeyFields(e: Example, s: State, msg: AminoMsg, sub: string)
    requires 0 < |MsgType(e.typ)| < 4 && s == Start() && msg.typ == e.typ && sub == "TypeValue"
    ensures FieldsOf(TypesWithKey(s, msg, 0), Key(e)) == [TypedField("value", ValueType()), TypedField("type", "string")]
  {
    assert sub + "" == sub;
    NothingNested(s, msg, "", sub);
    PutFields(Append(s.types, "Tx", TypedField(MsgField(0), Key(e))), Key(e),
              [TypedField("value", sub + Decimal(0)), TypedField("type", "string")], Key(e));
  }

  lemma FirstTypesAreKnown(c: Context, e: Example, s: State, msg: AminoMsg, types: Definitions, all: Definitions)
    requires TwoNested(c, e) && s == Start() && msg == AminoMsg(e.typ, Null) && types == TypesWithKey(s, msg, 0)
    requires all == types + [ValueDefinition(e), ListDefinition(e), StructDefinition(e)]
    ensures Known(all, e)
  {
    NoNestedNamesYet(e, s, msg, types);
    NoTextType(types, e, s, msg, "TypeValue");
    KeyFields(e, s, msg, "TypeValue");
    NestedNamesDiffer(e);
    NoText(e);
    KnownFrom(e, types, all);
  }

  lemma KnownFrom(e: Example, types: Definitions, all: Definitions)
    requires all == types + [ValueDefinition(e), ListDefinition(e), StructDefinition(e)]
    requires ValueType() !in Names(types) && NestedName0(e.fa.name) !in Names(types) && NestedName0(e.fb.name) !in Names(types)
    requires NestedName0(e.fa.name) != NestedName0(e.fb.name)
    requires NestedName0(e.fa.name) != ValueType() && NestedName0(e.fb.name) != ValueType()
    requires Key(e) in Names(types) && "string" !in Names(types)
    requires FieldsOf(types, Key(e)) == [TypedField("value", ValueType()), TypedField("type", "string")]
    requires ValueType() != "string" && NestedName0(e.fa.name) != "string" && NestedName0(e.fb.name) != "string"
    ensures Known(all, e)
  {
    KnownParts(types, all, ValueDefinition(e), ListDefinition(e), StructDefinition(e), Key(e), "string");
  }

  lemma KnownParts(types: Definitions, all: Definitions, a: Definition, b: Definition, c: Definition, key: string, text: string)
    requires a.name !in Names(types) && b.name !in Names(types) && c.name !in Names(types)
    requires a.name != b.name && a.name != c.name && b.name != c.name && all == types + [a, b, c]
    requires key in Names(types) && text !in Names(types) && a.name != text && b.name != text && c.name != text
    ensures FieldsOf(all, key) == FieldsOf(types, key) && !Has(all, text)
    ensures FieldsOf(all, a.name) == a.fields && FieldsOf(all, b.name) == b.fields && FieldsOf(all, c.name) == c.fields
    ensures Has(all, a.name) && Has(all, b.name) && Has(all, c.name)
  {
    ThreeMore(types, a, b, c);
    FieldsOfConcat(types, [a, b, c], key);
    HasIsInNames(all, text);
  }

  lemma NoText(e: Example)
    ensures ValueType() != "string" && NestedName0(e.fa.name) != "string" && NestedName0(e.fb.name) != "string"
  {
    assert ValueType()[0] == 'T' && NestedName0(e.fa.name)[0] == 'T' && NestedName0(e.fb.name)[0] == 'T' && "string"[0] == 's';
  }

  lemma FieldsOfThree(a: Definition, b: Definition, c: Definition)
    requires a.name != b.name && a.name != c.name && b.name != c.name
    ensures var more := [a, b, c];
            FieldsOf(more, a.name) == a.fields && FieldsOf(more, b.name) == b.fields && FieldsOf(more, c.name) == c.fields
  {
    assert [a, b, c][1..] == [b, c] && [b, c][1..] == [c];
    assert FieldsOf([c], c.name) == c.fields && FieldsOf([b, c], c.name) == c.fields && FieldsOf([b, c], b.name) == b.fields;
  }

  lemma ThreeMore(types: Definitions, a: Definition, b: Definition, c: Definition)
    requires a.name !in Names(types) && b.name !in Names(types) && c.name !in Names(types)
    requires a.name != b.name && a.name != c.name && b.name != c.name
    ensures var all := types + [a, b, c];
            && Names(all) == Names(types) + {a.name, b.name, c.name}
            && FieldsOf(all, a.name) == a.fields && FieldsOf(all, b.name) == b.fields && FieldsOf(all, c.name) == c.fields
            && Has(all, a.name) && Has(all, b.name) && Has(all, c.name)
  {
    var more, all := [a, b, c], types + [a, b, c];
    NamesOfConcat(types, more);
    assert more == [a] + [b, c];
    NamesOfCons(a, [b, c]);
    NamesOfTwo(b, c);
    FieldsOfConcat(types, more, a.name);
    FieldsOfConcat(types, more, b.name);
    FieldsOfConcat(types, more, c.name);
    FieldsOfThree(a, b, c);
    HasIsInNames(all, a.name);
    HasIsInNames(all, b.name);
    HasIsInNames(all, c.name);
  }

  lemma {:induction false} NoBracket(s: string)
    requires '[' !in s
    ensures !Includes(s, "[]") && Until(s + "[]", "[]") == s && Includes(s + "[]", "[]")
  {
    var t := s + "[]";
    if s == "" {
      assert t == "[]" && StartsWith(t, "[]");
    } else {
      assert s[0] in s && s[0] != '[';
      assert !StartsWith(s, "[]") && !StartsWith(t, "[]") by {
        assert |s| >= 2 ==> s[..2][0] == s[0];
        assert t[..2][0] == s[0];
      }
      assert t[1..] == s[1..] + "[]";
      NoBracket(s[1..]);
      assert s == [s[0]] + s[1..];
    }
  }

  lemma NamesHaveNoBracket(name: string)
    requires '[' !in NestedName(name)
    ensures '[' !in NestedName0(name) && '[' !in ValueType() && '[' !in "string"
  {
    DigitsFollow("TypeValue" + NestedName(name), 0);
    DigitsFollow("TypeValue", 0);
  }

  /** What the fields of the value type name. */
  lemma NamedTypes(e: Example)
    requires '[' !in NestedName(e.fa.name) && '[' !in NestedName(e.fb.name)
    ensures Named(ValueDefinition(e).fields[0]) == NestedName0(e.fb.name)
    ensures Named(ValueDefinition(e).fields[1]) == NestedName0(e.fa.name) && Includes(ValueDefinition(e).fields[1].typ, "[]")
    ensures !Includes(NestedName0(e.fb.name), "[]") && !Includes(ValueType(), "[]") && !Includes("string", "[]")
  {
    NamesHaveNoBracket(e.fa.name);
    NamesHaveNoBracket(e.fb.name);
    NoBracket(NestedName0(e.fa.name));
    NoBracket(NestedName0(e.fb.name));
    NoBracket(ValueType());
    NoBracket("string");
  }

  /** A text field is there, and compared with nothing. */
  lemma TextMatches(types: Definitions, key: string, inner: string, text: string)
    requires text == "string" && FieldsOf(types, key) == [TypedField(inner, text)] && !Has(types, text)
    ensures CompareValues(TextObject(inner), key, types) == Done(true)
  {
    var fields := FieldsOf(types, key);
    TextHasNoBracket(text);
    assert Get(TextObject(inner), inner) == Done(Str("1")) && KeyCount(TextObject(inner)) == Done(1);
    assert fields[1..] == [];
    assert CompareFields(TextObject(inner), [], 1, types, true) == Done(true);
  }

  lemma TextHasNoBracket(text: string)
    requires text == "string"
    ensures !Includes(text, "[]")
  {
    assert '[' !in text;
    NoBracket(text);
  }

  /** One field that is there. */
  lemma CompareField(value: Json, f: TypedField, rest: seq<TypedField>, count: nat, types: Definitions, found: bool)
    requires KeyCount(value) == Done(2) && count == 2 && IsNonZeroField(FieldValue(value, f))
    ensures var next := if Has(types, Named(f)) then CompareValues(Part(value, f), Named(f), types) else Done(found);
            CompareFields(value, [f] + rest, count, types, found) ==
            if next.Done? then CompareFields(value, rest, count, types, next.value) else next
  {
    var fields := [f] + rest;
    assert fields[0] == f && fields[1..] == rest;
    SizeOfPart(value, f.name);
  }

  /** A type with two fields: the second comparison, if there is one, decides. */
  lemma TwoFieldsCompare(value: Json, key: string, types: Definitions, f: TypedField, g: TypedField)
    requires FieldsOf(types, key) == [f, g] && KeyCount(value) == Done(2)
    requires IsNonZeroField(FieldValue(value, f)) && IsNonZeroField(FieldValue(value, g))
    requires Has(types, Named(f)) && CompareValues(Part(value, f), Named(f), types).Done?
    ensures CompareValues(value, key, types) ==
            if Has(types, Named(g)) then CompareValues(Part(value, g), Named(g), types)
            else CompareValues(Part(value, f), Named(f), types)
  {
    var first := CompareValues(Part(value, f), Named(f), types).value;
    assert [f, g] == [f] + [g] && [g] == [g] + [];
    CompareField(value, f, [g], 2, types, true);
    CompareField(value, g, [], 2, types, first);
  }

  lemma FirstFieldThrows(value: Json, key: string, types: Definitions, f: TypedField, g: TypedField)
    requires FieldsOf(types, key) == [f, g] && KeyCount(value) == Done(2) && IsNonZeroField(FieldValue(value, f))
    requires Has(types, Named(f)) && CompareValues(Part(value, f), Named(f), types) == TypeError
    ensures CompareValues(value, key, types) == TypeError
  {
    assert [f, g] == [f] + [g];
    CompareField(value, f, [g], 2, types, true);
  }

  /** The comparison of a value of the example is that of its list. */
  lemma BothCompare(types: Definitions, e: Example, list: Json, struct: Json)
    requires Known(types, e) && '[' !in NestedName(e.fa.name) && '[' !in NestedName(e.fb.name) && e.fa.name != e.fb.name
    requires IsNonZeroField(list) && IsNonZeroField(struct) && CompareValues(struct, NestedName0(e.fb.name), types).Done?
    ensures CompareValues(Both(e.fa, e.fb, list, struct), ValueType(), types) ==
            CompareValues(First(list), NestedName0(e.fa.name), types)
  {
    var value, f, g := Both(e.fa, e.fb, list, struct), ValueDefinition(e).fields[0], ValueDefinition(e).fields[1];
    NamedTypes(e);
    BothFields(e.fa, e.fb, list, struct);
    assert ValueDefinition(e).fields == [f, g];
    TwoFieldsCompare(value, ValueType(), types, f, g);
  }

  lemma MessageFields(typ: string, value: Json)
    ensures var msg := AsJson(AminoMsg(typ, value));
            KeyCount(msg) == Done(2) && Get(msg, "type") == Done(Str(typ)) && Get(msg, "value") == Done(value)
  {
    var msg := AsJson(AminoMsg(typ, value));
    assert msg.fields[1..] == [Property("value", value)];
    assert "type"[0] != "value"[0];
    assert Lookup(msg.fields[1..], "value") == value;
  }

  /** The comparison of the message is that of its value. */
  lemma MessageCompares(types: Definitions, e: Example, value: Json, f: TypedField, g: TypedField)
    requires Known(types, e) && '[' !in NestedName(e.fa.name) && '[' !in NestedName(e.fb.name)
    requires IsNonZeroField(value) && e.typ != "" && CompareValues(value, ValueType(), types).Done?
    requires f == TypedField("value", ValueType()) && g == TypedField("type", "string")
    ensures CompareValues(AsJson(AminoMsg(e.typ, value)), Key(e), types) == CompareValues(value, ValueType(), types)
  {
    NamedTypes(e);
    MessageFields(e.typ, value);
    TwoFieldsCompare(AsJson(AminoMsg(e.typ, value)), Key(e), types, f, g);
  }

  /** The message's comparison fails where its value's does. */
  lemma MessageThrows(types: Definitions, e: Example, value: Json, f: TypedField, g: TypedField)
    requires Known(types, e) && '[' !in NestedName(e.fa.name) && '[' !in NestedName(e.fb.name)
    requires IsNonZeroField(value) && CompareValues(value, ValueType(), types) == TypeError
    requires f == TypedField("value", ValueType()) && g == TypedField("type", "string")
    ensures CompareValues(AsJson(AminoMsg(e.typ, value)), Key(e), types) == TypeError
  {
    NamedTypes(e);
    MessageFields(e.typ, value);
    FirstFieldThrows(AsJson(AminoMsg(e.typ, value)), Key(e), types, f, g);
  }

  // ----- finding the type -----

  lemma {:induction false} SkipTypes(msg: Json, m: string, remaining: Definitions, types: Definitions, k: nat)
    requires k <= |remaining| && forall i :: 0 <= i < k ==> !Includes(remaining[i].name, m)
    ensures MatchingType(msg, m, remaining, types) == MatchingType(msg, m, remaining[k..], types)
    decreases k
  {
    if k == 0 {
      assert remaining[0..] == remaining;
    } else {
      SkipTypes(msg, m, remaining[1..], types, k - 1);
      assert remaining[1..][k - 1..] == remaining[k..];
    }
  }

  lemma {:induction false} IncludesMiddle(before: string, sub: string, after: string)
    ensures Includes(before + sub + after, sub)
  {
    var s := before + sub + after;
    if before == "" {
      assert s[..|sub|] == sub;
    } else {
      assert s[1..] == before[1..] + sub + after;
      IncludesMiddle(before[1..], sub, after);
    }
  }

  /** The message type comes fifth, after the default types. */
  lemma KeyComesFifth(e: Example, s: State, msg: AminoMsg, types: Definitions)
    requires 0 < |MsgType(e.typ)| < 4 && s == Start() && msg.typ == e.typ && types == TypesWithKey(s, msg, 0)
    ensures |types| == 5 && types[4].name == Key(e)
    ensures forall i :: 0 <= i < 4 ==> types[i].name == s.types[i].name
  {
    assert "TypeValue" + "" == "TypeValue";
    NothingNested(s, msg, "", "TypeValue");
    var f := TypedField(MsgField(0), Key(e));
    var types1 := Append(s.types, "Tx", f);
    assert s.types[3].name in Names(s.types);
    PutKeepsPlaces(s.types, "Tx", FieldsOf(s.types, "Tx") + [f]);
    PutNames(s.types, "Tx", FieldsOf(s.types, "Tx") + [f]);
    KeyIsNoDefault(e, s.types);
    PutAtEnd(types1, Key(e), [TypedField("value", ValueType()), TypedField("type", "string")]);
  }

  lemma KeyIsNoDefault(e: Example, types: Definitions)
    requires types == DEFAULT_EIP712_TYPES
    ensures Key(e) !in Names(types) + {"Tx"}
  {
    NoDefaultName(types, MsgType(e.typ), Key(e));
    TxIsNoMessageName(MsgType(e.typ), 0);
  }

  /** What the second message is compared with first. */
  lemma SecondMessageMeetsTheFirst(c: Context, e: Example, msg: Json, s: State, first: AminoMsg, types: Definitions, all: Definitions)
    requires TwoNested(c, e) && s == Start() && first == AminoMsg(e.typ, Null) && types == TypesWithKey(s, first, 0)
    requires types <= all && CompareValues(msg, Key(e), all) != Done(false)
    ensures MatchingType(msg, MsgType(e.typ), all, all) ==
            match CompareValues(msg, Key(e), all)
            case Done(_) => Done(Some(Key(e)))
            case TypeError => TypeError
            case Unmodelled => Unmodelled
  {
    KeyComesFifth(e, s, first, types);
    assert forall i :: 0 <= i < 4 ==> all[i] == types[i];
    SkipTypes(msg, MsgType(e.typ), all, all, 4);
    assert all[4..][0] == types[4];
    IncludesMiddle("Type", MsgType(e.typ), Decimal(0));
  }

  lemma TypeIsGiven(e: Example)
    requires |MsgType(e.typ)| < 4
    ensures e.typ != ""
  {
    assert |Split("", '/')| == 1;
  }

  // ----- the two runs -----

  /** The second value without the struct's field. */
  function Incomplete(e: Example): Json {
    Both(e.fa, e.fb, Arr([TextObject(e.x)]), Obj([]))
  }

  /** The second value with an empty list. */
  function WithEmptyList(e: Example): Json {
    Both(e.fa, e.fb, Arr([]), TextObject(e.y))
  }

  lemma IncompleteMatches(types: Definitions, e: Example, f: TypedField, g: TypedField, text: string)
    requires Known(types, e) && '[' !in NestedName(e.fa.name) && '[' !in NestedName(e.fb.name) && e.fa.name != e.fb.name
    requires e.typ != "" && f == TypedField("value", ValueType()) && g == TypedField("type", text) && text == "string"
    ensures CompareValues(AsJson(AminoMsg(e.typ, Incomplete(e))), Key(e), types) == Done(true)
  {
    EmptyValue(NestedName0(e.fb.name), types);
    TextMatches(types, NestedName0(e.fa.name), e.x, text);
    FirstOfList(TextObject(e.x));
    BothCompare(types, e, Arr([TextObject(e.x)]), Obj([]));
    MessageCompares(types, e, Incomplete(e), f, g);
  }

  lemma FirstOfList(v: Json)
    ensures First(Arr([v])) == v && IsNonZeroField(Obj([])) && IsNonZeroField(Arr([]))
    ensures v.Obj? ==> IsNonZeroField(Arr([v]))
  {
  }

  lemma EmptyListIsRead(types: Definitions, e: Example, f: TypedField, g: TypedField, text: string)
    requires Known(types, e) && '[' !in NestedName(e.fa.name) && '[' !in NestedName(e.fb.name) && e.fa.name != e.fb.name
    requires f == TypedField("value", ValueType()) && g == TypedField("type", text) && text == "string"
    ensures CompareValues(AsJson(AminoMsg(e.typ, WithEmptyList(e))), Key(e), types) == TypeError
  {
    TextMatches(types, NestedName0(e.fb.name), e.y, text);
    BothCompare(types, e, Arr([]), TextObject(e.y));
    NullIsNotRead(types, NestedName0(e.fa.name));
    MessageThrows(types, e, WithEmptyList(e), f, g);
  }

  /** Comparing `undefined` with a type that has fields throws. */
  lemma NullIsNotRead(types: Definitions, key: string)
    requires FieldsOf(types, key) != []
    ensures CompareValues(Null, key, types) == TypeError
  {
  }

  lemma IncompleteIsNoDeepMatch(types: Definitions, e: Example, value: Json)
    requires Known(types, e) && '[' !in NestedName(e.fa.name) && '[' !in NestedName(e.fb.name) && e.fa.name != e.fb.name
    requires value == Incomplete(e)
    ensures !DeepMatch(value, ValueType(), types)
  {
    var f := ValueDefinition(e).fields[0];
    NamedTypes(e);
    BothFields(e.fa, e.fb, Arr([TextObject(e.x)]), Obj([]));
    EmptyValue(NestedName0(e.fb.name), types);
    assert FieldsOf(types, ValueType())[0] == f && Part(value, f) == Obj([]);
    DeepMatchUnfolds(value, ValueType(), types);
    assert !FieldMatches(value, f, types);
  }

  /**
   * A second message of the type that lacks the field of its struct is given the type of the
   * first message, although that type's struct has the field: the list, compared last, matches.
   */
  lemma IncompleteMessageIsReused(c: Context, e: Example, a: AminoMsg, b: AminoMsg)
    requires TwoNested(c, e) && Accepts(c, a) && Accepts(c, b)
    requires a == AminoMsg(e.typ, FirstValue(e)) && b == AminoMsg(e.typ, Incomplete(e))
    ensures GetTypes(c, [a]).Done? && GetTypes(c, [a, b]).Done?
    ensures GetTypes(c, [a, b]).value.types == Append(GetTypes(c, [a]).value.types, "Tx", TypedField(MsgField(1), Key(e)))
    ensures var types := GetTypes(c, [a]).value.types;
            && FieldsOf(types, Key(e)) == [TypedField("value", ValueType()), TypedField("type", "string")]
            && FieldsOf(types, NestedName0(e.fb.name)) == [TypedField(e.y, "string")]
            && !DeepMatch(b.value, ValueType(), types)
  {
    var s := AfterFirst(c, e, a);
    TypeIsGiven(e);
    IncompleteMatches(s.types, e, TypedField("value", ValueType()), TypedField("type", "string"), "string");
    IncompleteIsNoDeepMatch(s.types, e, b.value);
    SecondIsReused(c, e, a, b, s);
  }

  /** The state after the first message. */
  lemma AfterFirst(c: Context, e: Example, a: AminoMsg) returns (s: State)
    requires TwoNested(c, e) && Accepts(c, a) && a == AminoMsg(e.typ, FirstValue(e))
    ensures GetTypes(c, [a]) == Done(s) && s == State(FirstTypes(e), [e.typ], 1) && Known(s.types, e)
  {
    var start, first := Start(), AminoMsg(e.typ, Null);
    s := State(FirstTypes(e), [e.typ], 1);
    OneMessage(c, a);
    FirstMessage(c, e, a, start);
    FirstTypesAreKnown(c, e, start, first, TypesWithKey(start, first, 0), s.types);
  }

  lemma SecondIsReused(c: Context, e: Example, a: AminoMsg, b: AminoMsg, s: State)
    requires TwoNested(c, e) && Accepts(c, b) && b.typ == e.typ && GetTypes(c, [a]) == Done(s)
    requires s == State(FirstTypes(e), [e.typ], 1) && CompareValues(AsJson(b), Key(e), s.types) == Done(true)
    ensures GetTypes(c, [a, b]) == Done(s.(types := Append(s.types, "Tx", TypedField(MsgField(1), Key(e)))))
  {
    var start, first := Start(), AminoMsg(e.typ, Null);
    TwoMessages(c, a, b, s);
    SecondMessageMeetsTheFirst(c, e, AsJson(b), start, first, TypesWithKey(start, first, 0), s.types);
  }

  /** A second message of the type with an empty list makes the generator throw. */
  lemma EmptyListThrows(c: Context, e: Example, a: AminoMsg, b: AminoMsg)
    requires TwoNested(c, e) && Accepts(c, a) && Accepts(c, b)
    requires a == AminoMsg(e.typ, FirstValue(e)) && b == AminoMsg(e.typ, WithEmptyList(e))
    ensures GetTypes(c, [a]).Done? && GetTypes(c, [a, b]) == TypeError
  {
    var s := AfterFirst(c, e, a);
    var start, first := Start(), AminoMsg(e.typ, Null);
    TwoMessages(c, a, b, s);
    EmptyListIsRead(s.types, e, TypedField("value", ValueType()), TypedField("type", "string"), "string");
    SecondMessageMeetsTheFirst(c, e, AsJson(b), start, first, TypesWithKey(start, first, 0), s.types);
  }

  // ----- an instance -----

  /** Messages "x/Buy" with a `list` of `A` and `one` `B`, sorted by descending length of name. */
  function Buy(): Example {
    Example("x/Buy", SchemaField("list", "A[]", "p"), SchemaField("one", "B", "p"), "x", "y")
  }

  function BuyContext(): Context {
    Context(map["p" := map["M" := [Buy().fa, Buy().fb], "A" := [SchemaField("x", "string", "")], "B" := [SchemaField("y", "string", "")]]],
            map["x/Buy" := "p.M"], (typ: string, value: Json) => true, (a: string, b: string) => |a| < |b|)
  }

  lemma UrlOfPackage(url: string, package: string, typ: string)
    requires '.' !in package && '.' !in typ && url == package + "." + typ
    ensures PackageOf(url) == package && TypeOf(url) == typ
  {
    SplitFirst(package, '.', typ);
    SplitPart(typ, '.');
    assert Split(url, '.') == [package] + [typ];
    assert Init([package] + [typ]) == [package];
  }

  lemma MsgTypeAfterSlash(typ: string, route: string, name: string)
    requires '/' !in route && '/' !in name && typ == route + "/" + name
    ensures MsgType(typ) == name
  {
    SplitFirst(route, '/', name);
    SplitPart(name, '/');
    assert Split(typ, '/') == [route] + [name];
  }

  lemma OnePartName(name: string)
    requires '_' !in name
    ensures NestedName(name) == Capitalize(name)
  {
    SplitPart(name, '_');
    assert [name][1..] == [];
    assert CapitalizeAll([name]) == Capitalize(name) + CapitalizeAll([]);
  }

  lemma NoDefaultBuy(types: Definitions, m: string)
    requires types == DEFAULT_EIP712_TYPES && m == "Buy"
    ensures forall i :: 0 <= i < 4 ==> !Includes(types[i].name, m)
  {
    DefaultNamesWithoutCapitalB();
    FirstLetterMissing(types[0].name, m);
    FirstLetterMissing(types[1].name, m);
    FirstLetterMissing(types[2].name, m);
    FirstLetterMissing(types[3].name, m);
  }

  lemma DefaultNamesWithoutCapitalB()
    ensures 'B' !in "Coin" && 'B' !in "EIP712Domain" && 'B' !in "Fee" && 'B' !in "Tx"
  {
  }

  lemma NestedTextOf(schema: Schema, f: SchemaField, typ: string, inner: string)
    requires f.package == "p" && UntilDigit(Until(f.typ, "[]")) == typ && '.' !in typ && f.typ != "Any"
    requires "p" in schema && typ in schema["p"] && schema["p"][typ] == [SchemaField(inner, "string", "")]
    ensures NestedText(schema, f, inner)
  {
    UrlOfPackage("p" + "." + typ, "p", typ);
  }

  lemma BuyNested(c: Context, e: Example)
    requires c == BuyContext() && e == Buy()
    ensures NestedText(c.schema, e.fa, e.x) && NestedText(c.schema, e.fb, e.y)
    ensures Includes(e.fa.typ, "[]") && !Includes(e.fb.typ, "[]")
  {
    var a, b := "A", "B";
    assert e.fa.typ == a + "[]" && e.fb.typ == b;
    NoBracket(a);
    NoBracket(b);
    NameIsKept(a, "", "[]");
    NameIsKept(b, "", "[]");
    assert a + "" == a && b + "" == b;
    NestedTextOf(c.schema, e.fa, a, e.x);
    NestedTextOf(c.schema, e.fb, b, e.y);
  }

  lemma {:induction false} LowerAllKeeps(s: string)
    requires '[' !in s
    ensures '[' !in LowerAll(s)
  {
    if s == "" {
    } else {
      assert s[0] in s && Lower(s[0]) != '[';
      assert forall c :: c in s[1..] ==> c in s;
      LowerAllKeeps(s[1..]);
    }
  }

  lemma CapitalizedName(name: string)
    requires '_' !in name && '[' !in name && name != ""
    ensures NestedName(name) != "" && NestedName(name)[0] == Upper(name[0]) && '[' !in NestedName(name)
  {
    OnePartName(name);
    assert forall c :: c in name[1..] ==> c in name;
    LowerAllKeeps(name[1..]);
    assert name[0] in name && Upper(name[0]) != '[';
  }

  lemma PlainNames(e: Example, route: string, name: string)
    requires '/' !in route && '/' !in name && e.typ == route + "/" + name
    requires '_' !in e.fa.name && '[' !in e.fa.name && e.fa.name != "" && '_' !in e.fb.name && '[' !in e.fb.name && e.fb.name != ""
    requires Upper(e.fa.name[0]) != Upper(e.fb.name[0])
    ensures MsgType(e.typ) == name && NestedName(e.fa.name) != NestedName(e.fb.name)
    ensures NestedName(e.fa.name) != "" && NestedName(e.fb.name) != ""
    ensures '[' !in NestedName(e.fa.name) && '[' !in NestedName(e.fb.name)
  {
    MsgTypeAfterSlash(e.typ, route, name);
    CapitalizedName(e.fa.name);
    CapitalizedName(e.fb.name);
  }

  /** Plain names and a short type name are enough. */
  lemma PlainIsTwoNested(c: Context, e: Example, route: string, name: string, package: string, typ: string)
    requires e.typ in c.typeUrls && c.typeUrls[e.typ] == package + "." + typ && '.' !in package && '.' !in typ
    requires package in c.schema && typ in c.schema[package] && c.schema[package][typ] == [e.fa, e.fb]
    requires NestedText(c.schema, e.fa, e.x) && NestedText(c.schema, e.fb, e.y)
    requires Includes(e.fa.typ, "[]") && !Includes(e.fb.typ, "[]") && !c.before(e.fa.name, e.fb.name)
    requires '/' !in route && '/' !in name && e.typ == route + "/" + name
    requires '_' !in e.fa.name && '[' !in e.fa.name && e.fa.name != "" && '_' !in e.fb.name && '[' !in e.fb.name && e.fb.name != ""
    requires Upper(e.fa.name[0]) != Upper(e.fb.name[0])
    requires 0 < |name| < 4 && forall i :: 0 <= i < 4 ==> !Includes(DEFAULT_EIP712_TYPES[i].name, name)
    ensures TwoNested(c, e)
  {
    UrlOfPackage(c.typeUrls[e.typ], package, typ);
    PlainNames(e, route, name);
  }

  /** The conditions of the two runs can be met. */
  lemma BuyIsTwoNested(c: Context, e: Example)
    requires c == BuyContext() && e == Buy()
    ensures TwoNested(c, e) && Accepts(c, AminoMsg(e.typ, FirstValue(e)))
    ensures Accepts(c, AminoMsg(e.typ, Incomplete(e))) && Accepts(c, AminoMsg(e.typ, WithEmptyList(e)))
  {
    var route, name, package, typ := "x", "Buy", "p", "M";
    BuyNested(c, e);
    NoDefaultBuy(DEFAULT_EIP712_TYPES, name);
    assert e.fa.name[0] == 'l' && e.fb.name[0] == 'o';
    PlainIsTwoNested(c, e, route, name, package, typ);
  }
}
