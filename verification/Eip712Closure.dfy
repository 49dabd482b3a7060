/**
 * The types generated for a sign document are closed: every struct type that a field names is
 * defined, and `Tx` has one field per message, in order.
 */
module Eip712Closure {
  import opened Basics
  import opened Eip712Types

  // ----- closed definitions -----

  const PRIMITIVES := {"string", "int64", "bool", "uint256"}

  function Names(types: Definitions): set<string> {
    set i | 0 <= i < |types| :: types[i].name
  }

  /** A type name without the array suffix. */
  function Base(typ: string): string {
    if |typ| >= 2 && typ[|typ| - 2..] == "[]" then typ[..|typ| - 2] else typ
  }

  ghost predicate RefsIn(fields: seq<TypedField>, names: set<string>) {
    forall f :: f in fields ==> Base(f.typ) in names
  }

  /** Every field of every type names, up to the array suffix, one of `names`. */
  ghost predicate ClosedIn(types: Definitions, names: set<string>) {
    forall i :: 0 <= i < |types| ==> RefsIn(types[i].fields, names)
  }

  /** Every field names a primitive or a defined type. */
  ghost predicate Closed(types: Definitions) {
    ClosedIn(types, Names(types) + PRIMITIVES)
  }

  // ----- the operations on definitions -----

  lemma NamesOfCons(d: Definition, types: Definitions)
    ensures Names([d] + types) == {d.name} + Names(types)
  {
    assert ([d] + types)[0] == d;
    assert forall i :: 0 <= i < |types| ==> ([d] + types)[i + 1] == types[i];
    forall x | x in Names(types)
      ensures x in Names([d] + types)
    {
      var i :| 0 <= i < |types| && types[i].name == x;
      assert ([d] + types)[i + 1].name == x;
    }
  }

  lemma PutFacts(types: Definitions, name: string, fields: seq<TypedField>, other: string)
    ensures Names(Put(types, name, fields)) == Names(types) + {name}
    ensures FieldsOf(Put(types, name, fields), other) == if other == name then fields else FieldsOf(types, other)
  {
    PutNames(types, name, fields);
    PutFields(types, name, fields, other);
  }

  lemma {:induction false} PutNames(types: Definitions, name: string, fields: seq<TypedField>)
    ensures Names(Put(types, name, fields)) == Names(types) + {name}
  {
    var d := Definition(name, fields);
    if types == [] {
      assert [d] + types == [d];
      NamesOfCons(d, types);
    } else {
      assert types == [types[0]] + types[1..];
      NamesOfCons(types[0], types[1..]);
      if types[0].name == name {
        NamesOfCons(d, types[1..]);
      } else {
        PutNames(types[1..], name, fields);
        NamesOfCons(types[0], Put(types[1..], name, fields));
      }
    }
  }

  lemma {:induction false} PutFields(types: Definitions, name: string, fields: seq<TypedField>, other: string)
    ensures FieldsOf(Put(types, name, fields), other) == if other == name then fields else FieldsOf(types, other)
  {
    if types == [] {
    } else {
      var rest := Put(types[1..], name, fields);
      if types[0].name == name {
        assert ([Definition(name, fields)] + types[1..])[1..] == types[1..];
      } else {
        assert ([types[0]] + rest)[1..] == rest;
        PutFields(types[1..], name, fields, other);
      }
    }
  }

  lemma {:induction false} PutCloses(types: Definitions, name: string, fields: seq<TypedField>, names: set<string>)
    requires ClosedIn(types, names) && RefsIn(fields, names)
    ensures ClosedIn(Put(types, name, fields), names)
  {
    if types == [] || types[0].name == name {
    } else {
      PutCloses(types[1..], name, fields, names);
    }
  }

  lemma {:induction false} FieldsAreClosed(types: Definitions, name: string, names: set<string>)
    requires ClosedIn(types, names)
    ensures RefsIn(FieldsOf(types, name), names)
  {
    if types == [] || types[0].name == name {
    } else {
      FieldsAreClosed(types[1..], name, names);
    }
  }

  lemma AppendCloses(types: Definitions, name: string, f: TypedField, names: set<string>)
    requires ClosedIn(types, names) && Base(f.typ) in names
    ensures ClosedIn(Append(types, name, f), names)
    ensures Names(Append(types, name, f)) == Names(types) + {name}
  {
    FieldsAreClosed(types, name, names);
    PutFacts(types, name, FieldsOf(types, name) + [f], name);
    PutCloses(types, name, FieldsOf(types, name) + [f], names);
  }

  lemma {:induction false} MergeNames(types: Definitions, more: Definitions, other: string)
    ensures Names(Merge(types, more)) == Names(types) + Names(more)
    ensures other !in Names(more) ==> FieldsOf(Merge(types, more), other) == FieldsOf(types, other)
    decreases |more|
  {
    if more == [] {
    } else {
      var d := more[0];
      assert more == [d] + more[1..];
      NamesOfCons(d, more[1..]);
      PutFacts(types, d.name, d.fields, other);
      MergeNames(Put(types, d.name, d.fields), more[1..], other);
    }
  }

  lemma {:induction false} MergeCloses(types: Definitions, more: Definitions, names: set<string>)
    requires ClosedIn(types, names) && ClosedIn(more, names)
    ensures ClosedIn(Merge(types, more), names)
    decreases |more|
  {
    if more == [] {
    } else {
      PutCloses(types, more[0].name, more[0].fields, names);
      MergeCloses(Put(types, more[0].name, more[0].fields), more[1..], names);
    }
  }

  lemma {:induction false} InsertKeeps(f: TypedField, fields: seq<TypedField>, before: (string, string) -> bool)
    ensures forall x :: x in Insert(f, fields, before) <==> x == f || x in fields
  {
    if fields == [] || before(f.name, fields[0].name) {
    } else {
      InsertKeeps(f, fields[1..], before);
      assert fields == [fields[0]] + fields[1..];
    }
  }

  lemma {:induction false} SortKeeps(fields: seq<TypedField>, before: (string, string) -> bool)
    ensures forall x :: x in SortFields(fields, before) <==> x in fields
  {
    if fields == [] {
    } else {
      SortKeeps(fields[1..], before);
      InsertKeeps(fields[0], SortFields(fields[1..], before), before);
      assert fields == [fields[0]] + fields[1..];
    }
  }

  /** A total order of names, as `localeCompare` gives one. */
  ghost predicate TotalOrder(before: (string, string) -> bool) {
    && (forall a, b :: before(a, b) || before(b, a))
    && (forall a, b, c :: before(a, b) && before(b, c) ==> before(a, c))
  }

  ghost predicate Ordered(fields: seq<TypedField>, before: (string, string) -> bool) {
    forall i, j :: 0 <= i < j < |fields| ==> before(fields[i].name, fields[j].name)
  }

  lemma FirstIsLeast(f: TypedField, fields: seq<TypedField>, before: (string, string) -> bool)
    requires TotalOrder(before) && Ordered(fields, before) && fields != [] && !before(f.name, fields[0].name)
    ensures forall x :: x in Insert(f, fields[1..], before) ==> before(fields[0].name, x.name)
  {
    InsertKeeps(f, fields[1..], before);
    forall x | x in fields[1..]
      ensures before(fields[0].name, x.name)
    {
      var i :| 0 <= i < |fields[1..]| && fields[1..][i] == x;
      assert fields[i + 1] == x;
    }
  }

  lemma {:induction false} InsertOrdered(f: TypedField, fields: seq<TypedField>, before: (string, string) -> bool)
    requires TotalOrder(before) && Ordered(fields, before)
    ensures Ordered(Insert(f, fields, before), before)
    ensures multiset(Insert(f, fields, before)) == multiset{f} + multiset(fields)
  {
    if fields == [] {
    } else {
      var rest := fields[1..];
      assert fields == [fields[0]] + rest;
      if !before(f.name, fields[0].name) {
        InsertOrdered(f, rest, before);
        var inserted := Insert(f, rest, before);
        FirstIsLeast(f, fields, before);
        forall j | 0 <= j < |inserted|
          ensures before(fields[0].name, inserted[j].name)
        {
          assert inserted[j] in inserted;
        }
      } else {
        assert forall j :: 0 <= j < |fields| ==> before(f.name, fields[j].name);
      }
    }
  }

  /** Sorting puts the fields in order and keeps every one of them, repeated ones included. */
  lemma {:induction false} SortIsOrdered(fields: seq<TypedField>, before: (string, string) -> bool)
    requires TotalOrder(before)
    ensures Ordered(SortFields(fields, before), before)
    ensures multiset(SortFields(fields, before)) == multiset(fields)
  {
    if fields == [] {
    } else {
      assert fields == [fields[0]] + fields[1..];
      SortIsOrdered(fields[1..], before);
      InsertOrdered(fields[0], SortFields(fields[1..], before), before);
    }
  }

  lemma SortKeepsNames(types: Definitions, before: (string, string) -> bool)
    ensures Names(SortByName(types, before)) == Names(types)
  {
    var sorted := SortByName(types, before);
    assert forall i :: 0 <= i < |types| ==> sorted[i].name == types[i].name;
    forall x | x in Names(types)
      ensures x in Names(sorted)
    {
      var i :| 0 <= i < |types| && types[i].name == x;
      assert sorted[i].name == x;
    }
  }

  lemma SortByNameCloses(types: Definitions, before: (string, string) -> bool, names: set<string>)
    requires ClosedIn(types, names)
    ensures ClosedIn(SortByName(types, before), names)
  {
    var sorted := SortByName(types, before);
    forall i | 0 <= i < |sorted|
      ensures RefsIn(sorted[i].fields, names)
    {
      SortKeeps(types[i].fields, before);
    }
  }

  // ----- names of generated types -----

  /** A generated type name ends in a digit, so it has no array suffix. */
  predicate Numbered(name: string) {
    name != "" && IsDigit(name[|name| - 1])
  }

  lemma ArrayBase(name: string)
    ensures Base(name + "[]") == name
  {
    assert (name + "[]")[|name|..] == "[]";
  }

  lemma NumberedBase(name: string)
    requires Numbered(name)
    ensures Base(name) == name && Base(name + "[]") == name
  {
    ArrayBase(name);
  }

  lemma WithDecimal(name: string, n: nat)
    ensures Numbered(name + Decimal(n))
  {
    var d := Decimal(n);
    assert (name + d)[|name + d| - 1] == d[|d| - 1];
  }

  /** Names of value types. */
  predicate IsValueName(name: string) {
    StartsWith(name, "TypeValue") && Numbered(name)
  }

  lemma {:induction false} UntilKeepsPrefix(s: string, t: string, sub: string)
    requires sub != "" && sub[0] !in s
    ensures Until(s + t, sub) == s + Until(t, sub)
  {
    if s == "" {
      assert s + t == t;
    } else {
      assert (s + t)[1..] == s[1..] + t;
      assert !StartsWith(s + t, sub) by {
        assert s[0] in s;
        assert |s + t| >= |sub| ==> (s + t)[..|sub|][0] == s[0];
      }
      UntilKeepsPrefix(s[1..], t, sub);
    }
  }

  lemma {:induction false} UntilDigitKeepsPrefix(s: string, t: string)
    requires forall i :: 0 <= i < |s| ==> !IsDigit(s[i])
    ensures UntilDigit(s + t) == s + UntilDigit(t)
  {
    if s == "" {
      assert s + t == t;
    } else {
      assert (s + t)[1..] == s[1..] + t;
      UntilDigitKeepsPrefix(s[1..], t);
    }
  }

  /** The object name of a value type starts with "Value". */
  lemma ObjectNameOfValue(typeName: string)
    requires StartsWith(typeName, "TypeValue")
    ensures StartsWith(ObjectName(typeName), "Value")
  {
    var prefix, sub := "Value", "Type";
    assert typeName[4..] == prefix + typeName[9..] by {
      assert typeName[..9] == "TypeValue";
      assert forall i :: 0 <= i < 5 ==> typeName[4..][i] == typeName[..9][4 + i] == prefix[i];
    }
    UntilKeepsPrefix(prefix, typeName[9..], sub);
    UntilDigitKeepsPrefix(prefix, Until(typeName[9..], sub));
  }

  lemma NestedNameIsValueName(typeName: string, name: string, n: nat)
    requires StartsWith(typeName, "TypeValue")
    ensures IsValueName(NestedTypeName(ObjectName(typeName), name) + Decimal(n))
  {
    ObjectNameOfValue(typeName);
    var s := NestedTypeName(ObjectName(typeName), name) + Decimal(n);
    WithDecimal(NestedTypeName(ObjectName(typeName), name), n);
    assert s[..4] == "Type" && s[4..9] == ObjectName(typeName)[..5];
    assert s[..9] == s[..4] + s[4..9];
  }

  // ----- getMsgValueType closes what it opens -----

  /** The definitions only grow, and by value names. */
  ghost predicate Extends(defs: Definitions, defs': Definitions) {
    && Names(defs) <= Names(defs')
    && forall x :: x in Names(defs') - Names(defs) ==> IsValueName(x)
  }

  lemma ClosedInMore(types: Definitions, names: set<string>, more: set<string>)
    requires ClosedIn(types, names) && names <= more
    ensures ClosedIn(types, more)
  {
    forall i | 0 <= i < |types|
      ensures RefsIn(types[i].fields, more)
    {
      assert RefsIn(types[i].fields, names);
    }
  }

  /** What a call that is to define `typeName` does to definitions that are closed but for that name. */
  lemma {:induction false} MsgValueTypeCloses(
    schema: Schema, typeUrl: string, value: Json, typeName: string, types: Definitions, defs: Definitions, defs': Definitions)
    requires IsValueName(typeName) && ClosedIn(defs, Names(defs) + {typeName} + PRIMITIVES)
    requires MsgValueType(schema, typeUrl, value, typeName, types, defs) == Done(defs')
    requires IsNonZeroField(value)
    ensures Closed(defs') && typeName in Names(defs') && Extends(defs, defs')
    decreases value, 1, 0
  {
    var fields := schema[PackageOf(typeUrl)][TypeOf(typeUrl)];
    var defs1 := if Has(defs, typeName) then defs else Put(defs, typeName, []);
    PutFacts(defs, typeName, [], typeName);
    PutCloses(defs, typeName, [], Names(defs) + {typeName} + PRIMITIVES);
    assert Has(defs, typeName) ==> typeName in Names(defs);
    assert Names(defs1) == Names(defs) + {typeName};
    AddFieldsCloses(schema, fields, value, typeName, types, defs1, defs');
  }

  lemma {:induction false} AddFieldsCloses(
    schema: Schema, fields: seq<SchemaField>, value: Json, typeName: string, types: Definitions, defs: Definitions, defs': Definitions)
    requires IsValueName(typeName) && typeName in Names(defs) && Closed(defs)
    requires AddFields(schema, fields, value, typeName, types, defs) == Done(defs')
    ensures Closed(defs') && Extends(defs, defs')
    decreases value, 0, |fields|
  {
    if fields == [] {
    } else {
      var next := FirstField(schema, fields, value, typeName, types, defs, defs');
      AddFieldsCloses(schema, fields[1..], value, typeName, types, next, defs');
      ExtendsFurther(defs, next, defs');
    }
  }

  lemma {:induction false} FirstField(
    schema: Schema, fields: seq<SchemaField>, value: Json, typeName: string, types: Definitions, defs: Definitions, defs': Definitions)
    returns (next: Definitions)
    requires IsValueName(typeName) && typeName in Names(defs) && Closed(defs) && fields != []
    requires AddFields(schema, fields, value, typeName, types, defs) == Done(defs')
    ensures AddFields(schema, fields[1..], value, typeName, types, next) == Done(defs')
    ensures Closed(next) && Extends(defs, next)
    decreases value, 0, |fields| - 1
  {
    var fieldValue := Get(FieldSource(value), fields[0].name).value;
    if fieldValue == Null {
      next := defs;
    } else {
      next := AddField(schema, fields[0], fieldValue, typeName, types, defs).value;
      AddFieldCloses(schema, fields[0], fieldValue, typeName, types, defs, next);
    }
  }

  lemma ExtendsFurther(a: Definitions, b: Definitions, c: Definitions)
    requires Extends(a, b) && Extends(b, c)
    ensures Extends(a, c)
  {
    assert forall x :: x in Names(c) - Names(a) ==> x in Names(c) - Names(b) || x in Names(b) - Names(a);
  }

  lemma PrimitiveTypesAreClosed(v: Json)
    ensures Base(PrimitiveType(v)) in PRIMITIVES && Base("string[]") in PRIMITIVES
  {
    assert Base("string[]") == "string";
    assert Base("string") == "string" && Base("int64") == "int64" && Base("bool") == "bool";
  }

  lemma {:induction false} AddFieldCloses(
    schema: Schema, f: SchemaField, fieldValue: Json, typeName: string, types: Definitions, defs: Definitions, defs': Definitions)
    requires IsValueName(typeName) && typeName in Names(defs) && Closed(defs)
    requires AddField(schema, f, fieldValue, typeName, types, defs) == Done(defs')
    ensures Closed(defs') && Extends(defs, defs')
    decreases fieldValue, 2, 0
  {
    PrimitiveTypesAreClosed(fieldValue);
    if !IsNonZeroField(fieldValue) {
    } else if fieldValue == Arr([]) {
      AppendCloses(defs, typeName, TypedField(f.name, "string[]"), Names(defs) + PRIMITIVES);
    } else if f.package == "" {
      AppendCloses(defs, typeName, TypedField(f.name, PrimitiveType(fieldValue)), Names(defs) + PRIMITIVES);
    } else {
      var nested := NestedTypeName(ObjectName(typeName), f.name);
      var nestedName := nested + Decimal(LatestIndex(nested, types));
      NestedNameIsValueName(typeName, f.name, LatestIndex(nested, types));
      var defs1 := NestedFieldOpens(f, typeName, nestedName, defs);
      MsgValueTypeCloses(schema, f.package + "." + UntilDigit(Until(f.typ, "[]")), fieldValue, nestedName, types, defs1, defs');
    }
  }

  /** A field of a nested type leaves the definitions closed but for that type. */
  lemma NestedFieldOpens(f: SchemaField, typeName: string, nestedName: string, defs: Definitions) returns (defs1: Definitions)
    requires Closed(defs) && typeName in Names(defs) && Numbered(nestedName)
    ensures defs1 == Append(defs, typeName, TypedField(f.name, nestedName + if Includes(f.typ, "[]") then "[]" else ""))
    ensures Names(defs1) == Names(defs) && ClosedIn(defs1, Names(defs1) + {nestedName} + PRIMITIVES)
  {
    var field := TypedField(f.name, nestedName + if Includes(f.typ, "[]") then "[]" else "");
    NumberedBase(nestedName);
    assert nestedName + "" == nestedName;
    var names := Names(defs) + {nestedName} + PRIMITIVES;
    ClosedInMore(defs, Names(defs) + PRIMITIVES, names);
    AppendCloses(defs, typeName, field, names);
    defs1 := Append(defs, typeName, field);
    assert Names(defs1) == Names(defs);
  }

  // ----- the message loop -----

  /** The fields of `Tx` after n messages: the default ones, then one per message, of defined types. */
  ghost predicate TxLists(tx: seq<TypedField>, n: nat, names: set<string>) {
    && |tx| == |DEFAULT_TX| + n && tx[..|DEFAULT_TX|] == DEFAULT_TX
    && forall i :: 0 <= i < n ==> tx[|DEFAULT_TX| + i].name == MsgField(i) && tx[|DEFAULT_TX| + i].typ in names
  }

  ghost predicate Good(s: State, n: nat) {
    && Closed(s.types)
    && (forall x :: x in Names(s.types) ==> Base(x) == x)
    && TxLists(FieldsOf(s.types, "Tx"), n, Names(s.types))
  }

  lemma TypeKeyIsNumbered(msg: AminoMsg, types: Definitions)
    ensures Numbered(TypeKey(msg, types)) && TypeKey(msg, types) != "Tx" && Base(TypeKey(msg, types)) == TypeKey(msg, types)
  {
    var name := "Type" + MsgType(msg.typ);
    WithDecimal(name, LatestIndex(name, types));
    NumberedBase(TypeKey(msg, types));
    assert TypeKey(msg, types)[1] == 'y' && "Tx"[1] == 'x';
  }

  lemma ValueTypeIsValueName(n: nat)
    ensures IsValueName("TypeValue" + Decimal(n)) && Base("TypeValue" + Decimal(n)) == "TypeValue" + Decimal(n)
  {
    WithDecimal("TypeValue", n);
    NumberedBase("TypeValue" + Decimal(n));
  }

  lemma ValueNameIsNotTx(names: set<string>)
    requires forall x :: x in names ==> IsValueName(x)
    ensures "Tx" !in names && forall x :: x in names ==> Base(x) == x
  {
    forall x | x in names
      ensures Base(x) == x && x != "Tx"
    {
      NumberedBase(x);
    }
  }

  /** The definitions before the message value is looked at. */
  function TypesWithKey(s: State, msg: AminoMsg, n: nat): Definitions {
    var typeKey := TypeKey(msg, s.types);
    Put(Append(s.types, "Tx", TypedField(MsgField(n), typeKey)), typeKey,
        [TypedField("value", "TypeValue" + Decimal(s.valueIndex)), TypedField("type", "string")])
  }

  lemma TypesWithKeyFacts(s: State, msg: AminoMsg, n: nat, names: set<string>)
    requires Closed(s.types)
    requires names == Names(s.types) + {"Tx", TypeKey(msg, s.types), "TypeValue" + Decimal(s.valueIndex)} + PRIMITIVES
    ensures ClosedIn(TypesWithKey(s, msg, n), names)
    ensures Names(TypesWithKey(s, msg, n)) == Names(s.types) + {"Tx", TypeKey(msg, s.types)}
    ensures FieldsOf(TypesWithKey(s, msg, n), "Tx") == FieldsOf(s.types, "Tx") + [TypedField(MsgField(n), TypeKey(msg, s.types))]
  {
    var typeKey, valueType := TypeKey(msg, s.types), "TypeValue" + Decimal(s.valueIndex);
    var tx := TypedField(MsgField(n), typeKey);
    var types1 := Append(s.types, "Tx", tx);
    var fields := [TypedField("value", valueType), TypedField("type", "string")];
    TypeKeyIsNumbered(msg, s.types);
    ValueTypeIsValueName(s.valueIndex);
    ClosedInMore(s.types, Names(s.types) + PRIMITIVES, names);
    AppendCloses(s.types, "Tx", tx, names);
    PutFacts(s.types, "Tx", FieldsOf(s.types, "Tx") + [tx], "Tx");
    assert Base("string") == "string";
    assert RefsIn(fields, names);
    PutCloses(types1, typeKey, fields, names);
    PutFacts(types1, typeKey, fields, "Tx");
  }

  lemma TxGrows(tx: seq<TypedField>, n: nat, names: set<string>, more: set<string>, typ: string)
    requires TxLists(tx, n, names) && names <= more && typ in more
    ensures TxLists(tx + [TypedField(MsgField(n), typ)], n + 1, more)
  {
    var tx' := tx + [TypedField(MsgField(n), typ)];
    assert tx'[..|DEFAULT_TX|] == tx[..|DEFAULT_TX|];
  }

  /** The definitions of a message value, merged in. */
  lemma MergedIsGood(c: Context, types2: Definitions, defs: Definitions, open: set<string>)
    requires ClosedIn(types2, open) && open <= Names(types2) + Names(defs) + PRIMITIVES && Closed(defs)
    requires forall x :: x in Names(defs) ==> IsValueName(x)
    ensures var types := Merge(types2, SortByName(defs, c.before));
            && Closed(types) && Names(types) == Names(types2) + Names(defs)
            && FieldsOf(types, "Tx") == FieldsOf(types2, "Tx")
            && forall x :: x in Names(types) ==> x in Names(types2) || Base(x) == x
  {
    var names := Names(types2) + Names(defs) + PRIMITIVES;
    ValueNameIsNotTx(Names(defs));
    ClosedInMore(types2, open, names);
    ClosedInMore(defs, Names(defs) + PRIMITIVES, names);
    SortKeepsNames(defs, c.before);
    SortByNameCloses(defs, c.before, names);
    MergeNames(types2, SortByName(defs, c.before), "Tx");
    MergeCloses(types2, SortByName(defs, c.before), names);
  }

  lemma TxBase()
    ensures Base("Tx") == "Tx"
  {
    PlainBase("Tx", 'x');
  }

  lemma DefineTypeShape(c: Context, s: State, msg: AminoMsg, n: nat, s': State, valueType: string) returns (defs: Definitions)
    requires DefineType(c, s, msg, n) == Done(s') && valueType == "TypeValue" + Decimal(s.valueIndex)
    ensures Accepts(c, msg)
    ensures MsgValueType(c.schema, c.typeUrls[msg.typ], msg.value, valueType, TypesWithKey(s, msg, n), []) == Done(defs)
    ensures s'.types == Merge(TypesWithKey(s, msg, n), SortByName(defs, c.before))
  {
    defs := MsgValueType(c.schema, c.typeUrls[msg.typ], msg.value, valueType, TypesWithKey(s, msg, n), []).value;
  }

  lemma DefineTypeIsGood(c: Context, s: State, msg: AminoMsg, n: nat, s': State)
    requires Good(s, n) && IsNonZeroField(msg.value) && DefineType(c, s, msg, n) == Done(s')
    ensures Good(s', n + 1) && Names(s.types) <= Names(s'.types)
  {
    var valueType, types2 := "TypeValue" + Decimal(s.valueIndex), TypesWithKey(s, msg, n);
    var defs := DefineTypeShape(c, s, msg, n, s', valueType);
    ValueTypeIsValueName(s.valueIndex);
    MsgValueTypeCloses(c.schema, c.typeUrls[msg.typ], msg.value, valueType, types2, [], defs);
    DefinedIsGood(c, s, msg, n, s', valueType, TypeKey(msg, s.types), defs);
  }

  lemma DefinedIsGood(c: Context, s: State, msg: AminoMsg, n: nat, s': State, valueType: string, typeKey: string, defs: Definitions)
    requires Good(s, n) && valueType == "TypeValue" + Decimal(s.valueIndex) && typeKey == TypeKey(msg, s.types)
    requires s'.types == Merge(TypesWithKey(s, msg, n), SortByName(defs, c.before))
    requires Closed(defs) && valueType in Names(defs) && forall x :: x in Names(defs) ==> IsValueName(x)
    ensures Good(s', n + 1) && Names(s.types) <= Names(s'.types)
  {
    var open := Names(s.types) + {"Tx", typeKey, valueType} + PRIMITIVES;
    TypesWithKeyFacts(s, msg, n, open);
    MergedIsGood(c, TypesWithKey(s, msg, n), defs, open);
    TypeKeyIsNumbered(msg, s.types);
    TxGrows(FieldsOf(s.types, "Tx"), n, Names(s.types), Names(s'.types), typeKey);
    NamesStayBare(Names(s.types), typeKey, Names(s'.types), Names(defs));
  }

  lemma NamesStayBare(names: set<string>, typeKey: string, more: set<string>, valueNames: set<string>)
    requires (forall x :: x in names ==> Base(x) == x) && (forall x :: x in valueNames ==> IsValueName(x))
    requires Base(typeKey) == typeKey && more == names + {"Tx", typeKey} + valueNames
    ensures forall x :: x in more ==> Base(x) == x
  {
    ValueNameIsNotTx(valueNames);
    TxBase();
  }

  lemma {:induction false} MatchingTypeIsDefined(msg: Json, msgType: string, remaining: Definitions, types: Definitions, key: string)
    requires MatchingType(msg, msgType, remaining, types) == Done(Some(key))
    ensures key in Names(remaining)
    decreases |remaining|
  {
    var found := if Includes(remaining[0].name, msgType) then CompareValues(msg, remaining[0].name, types) else Done(false);
    assert remaining == [remaining[0]] + remaining[1..];
    NamesOfCons(remaining[0], remaining[1..]);
    if !found.value {
      MatchingTypeIsDefined(msg, msgType, remaining[1..], types, key);
    }
  }

  lemma ReuseIsGood(s: State, n: nat, key: string)
    requires Good(s, n) && key in Names(s.types)
    ensures Good(s.(types := Append(s.types, "Tx", TypedField(MsgField(n), key))), n + 1)
  {
    var tx := TypedField(MsgField(n), key);
    AppendCloses(s.types, "Tx", tx, Names(s.types) + PRIMITIVES);
    PutFacts(s.types, "Tx", FieldsOf(s.types, "Tx") + [tx], "Tx");
    ClosedInMore(Append(s.types, "Tx", tx), Names(s.types) + PRIMITIVES, Names(s.types) + {"Tx"} + PRIMITIVES);
    TxGrows(FieldsOf(s.types, "Tx"), n, Names(s.types), Names(s.types) + {"Tx"}, key);
    assert Base("Tx") == "Tx";
  }

  lemma AddMessageIsGood(c: Context, s: State, msg: AminoMsg, n: nat, s': State)
    requires Good(s, n) && IsNonZeroField(msg.value) && AddMessage(c, s, msg, n) == Done(s')
    ensures Good(s', n + 1)
  {
    if msg.typ !in s.includedTypes {
      DefineTypeIsGood(c, s, msg, n, DefineType(c, s, msg, n).value);
    } else {
      var found := MatchingType(AsJson(msg), MsgType(msg.typ), s.types, s.types);
      match found.value
      case Some(key) =>
        MatchingTypeIsDefined(AsJson(msg), MsgType(msg.typ), s.types, s.types, key);
        ReuseIsGood(s, n, key);
      case None =>
        DefineTypeIsGood(c, s, msg, n, s');
    }
  }

  lemma PlainBase(typ: string, last: char)
    requires typ != "" && typ[|typ| - 1] == last && last != ']'
    ensures Base(typ) == typ
  {
    if |typ| >= 2 {
      assert typ[|typ| - 2..][1] == last && "[]"[1] == ']';
    }
  }

  lemma PlainRefs(fields: seq<TypedField>, typ: string, other: string, names: set<string>)
    requires forall i :: 0 <= i < |fields| ==> fields[i].typ == typ || fields[i].typ == other
    requires Base(typ) in names && Base(other) in names
    ensures RefsIn(fields, names)
  {
  }

  lemma DefaultBases()
    ensures Base("string") == "string" && Base("uint256") == "uint256" && Base("Fee") == "Fee"
  {
    PlainBase("string", 'g');
    PlainBase("uint256", '6');
    PlainBase("Fee", 'e');
  }

  lemma CoinBase()
    ensures Base("Coin[]") == "Coin"
  {
    ArrayBase("Coin");
  }

  lemma DefaultName(i: nat)
    requires i < 4
    ensures Base(DEFAULT_EIP712_TYPES[i].name) == DEFAULT_EIP712_TYPES[i].name
  {
    var name := DEFAULT_EIP712_TYPES[i].name;
    match i
    case 0 => PlainBase(name, 'n');
    case 1 => PlainBase(name, 'n');
    case 2 => PlainBase(name, 'e');
    case _ => PlainBase(name, 'x');
  }

  lemma NameIn(types: Definitions, i: nat)
    requires i < |types|
    ensures types[i].name in Names(types)
  {
  }

  lemma DefaultNames()
    ensures "Coin" in Names(DEFAULT_EIP712_TYPES) && "Fee" in Names(DEFAULT_EIP712_TYPES)
    ensures forall x :: x in Names(DEFAULT_EIP712_TYPES) ==> Base(x) == x
  {
    NameIn(DEFAULT_EIP712_TYPES, 0);
    NameIn(DEFAULT_EIP712_TYPES, 2);
    forall x | x in Names(DEFAULT_EIP712_TYPES)
      ensures Base(x) == x
    {
      var i :| 0 <= i < |DEFAULT_EIP712_TYPES| && DEFAULT_EIP712_TYPES[i].name == x;
      DefaultName(i);
    }
  }

  lemma DefaultFields(i: nat, names: set<string>)
    requires i < |DEFAULT_EIP712_TYPES|
    requires {"Coin", "Fee"} + PRIMITIVES <= names
    ensures RefsIn(DEFAULT_EIP712_TYPES[i].fields, names)
  {
    DefaultBases();
    CoinBase();
    match i
    case 0 => PlainRefs(DEFAULT_EIP712_TYPES[0].fields, "string", "string", names);
    case 1 => PlainRefs(DEFAULT_EIP712_TYPES[1].fields, "string", "uint256", names);
    case 2 => PlainRefs(DEFAULT_EIP712_TYPES[2].fields, "string", "Coin[]", names);
    case _ => PlainRefs(DEFAULT_TX, "string", "Fee", names);
  }

  lemma DefaultTxFields()
    ensures FieldsOf(DEFAULT_EIP712_TYPES, "Tx") == DEFAULT_TX
  {
    var t := DEFAULT_EIP712_TYPES;
    FieldsOfFourth(t[0], t[1], t[2], t[3]);
    assert |t[0].name| == 4 && |t[1].name| == 12 && |t[2].name| == 3 && |t[3].name| == 2;
  }

  lemma FieldsOfFourth(a: Definition, b: Definition, c: Definition, d: Definition)
    ensures a.name != d.name && b.name != d.name && c.name != d.name ==> FieldsOf([a, b, c, d], d.name) == d.fields
  {
    assert [a, b, c, d][1..] == [b, c, d] && [b, c, d][1..] == [c, d] && [c, d][1..] == [d];
    assert FieldsOf([d], d.name) == d.fields;
    assert c.name != d.name ==> FieldsOf([c, d], d.name) == FieldsOf([d], d.name);
    assert b.name != d.name ==> FieldsOf([b, c, d], d.name) == FieldsOf([c, d], d.name);
  }

  lemma DefaultsAreGood()
    ensures Good(State(DEFAULT_EIP712_TYPES, [], 0), 0)
  {
    var types := DEFAULT_EIP712_TYPES;
    DefaultNames();
    forall i | 0 <= i < |types|
      ensures RefsIn(types[i].fields, Names(types) + PRIMITIVES)
    {
      DefaultFields(i, Names(types) + PRIMITIVES);
    }
    DefaultTxFields();
  }

  /**
   * For any list of messages with non-zero values, whenever types are generated: every struct
   * type that any field names is defined, whether the type is new or reused, and `Tx` has the
   * default fields followed by exactly one field per message, in order, of a defined type.
   */
  lemma {:induction false} GeneratedTypesAreClosed(c: Context, msgs: seq<AminoMsg>, s: State)
    requires GetTypes(c, msgs) == Done(s)
    requires forall i :: 0 <= i < |msgs| ==> IsNonZeroField(msgs[i].value)
    ensures Good(s, |msgs|)
  {
    if msgs == [] {
      DefaultsAreGood();
    } else {
      var n := |msgs| - 1;
      var before := GetTypes(c, msgs[..n]).value;
      GeneratedTypesAreClosed(c, msgs[..n], before);
      AddMessageIsGood(c, before, msgs[n], n, s);
    }
  }

  // ----- messages without a value -----

  /** The message is given a type that exists already. */
  predicate Reused(s: State, msg: AminoMsg) {
    && msg.typ in s.includedTypes
    && var found := MatchingType(AsJson(msg), MsgType(msg.typ), s.types, s.types);
       found.Done? && found.value.Some?
  }

  lemma ValueTypeIsNoPrimitive(n: nat)
    ensures "TypeValue" + Decimal(n) !in PRIMITIVES
  {
    assert ("TypeValue" + Decimal(n))[0] == 'T';
  }

  lemma ValueTypeIsNotTx(n: nat)
    ensures "TypeValue" + Decimal(n) != "Tx"
  {
    assert ("TypeValue" + Decimal(n))[1] == 'y' && "Tx"[1] == 'x';
  }

  lemma KeyRefersToValueType(types: Definitions, typeKey: string, fields: seq<TypedField>, valueType: string)
    requires fields != [] && fields[0].typ == valueType && Base(valueType) == valueType && valueType !in PRIMITIVES
    requires Closed(Put(types, typeKey, fields))
    ensures valueType in Names(types) + {typeKey}
  {
    var types2 := Put(types, typeKey, fields);
    PutFacts(types, typeKey, fields, typeKey);
    FieldsAreClosed(types2, typeKey, Names(types2) + PRIMITIVES);
    assert fields[0] in FieldsOf(types2, typeKey);
  }

  lemma ZeroValueDangles(c: Context, s: State, msg: AminoMsg, n: nat, s': State)
    requires Good(s, n) && !IsNonZeroField(msg.value) && DefineType(c, s, msg, n) == Done(s')
    ensures Closed(s'.types) <==> "TypeValue" + Decimal(s.valueIndex) in Names(s.types) + {TypeKey(msg, s.types)}
  {
    var valueType, typeKey := "TypeValue" + Decimal(s.valueIndex), TypeKey(msg, s.types);
    var names := Names(s.types) + {"Tx", typeKey, valueType} + PRIMITIVES;
    ZeroValueAddsNothing(c, s, msg, n);
    TypesWithKeyFacts(s, msg, n, names);
    ValueTypeIsValueName(s.valueIndex);
    ValueTypeIsNoPrimitive(s.valueIndex);
    ValueTypeIsNotTx(s.valueIndex);
    if Closed(s'.types) {
      var tx := TypedField(MsgField(n), typeKey);
      var types1 := Append(s.types, "Tx", tx);
      PutFacts(s.types, "Tx", FieldsOf(s.types, "Tx") + [tx], "Tx");
      KeyRefersToValueType(types1, typeKey, [TypedField("value", valueType), TypedField("type", "string")], valueType);
    }
    if valueType in Names(s.types) + {typeKey} {
      ClosedInMore(s'.types, names, Names(s'.types) + PRIMITIVES);
    }
  }

  lemma ZeroValueAddsNothing(c: Context, s: State, msg: AminoMsg, n: nat)
    requires !IsNonZeroField(msg.value) && DefineType(c, s, msg, n).Done?
    ensures DefineType(c, s, msg, n).value.types == TypesWithKey(s, msg, n)
  {
    assert SortByName([], c.before) == [];
  }

  /**
   * One message more keeps the types closed exactly when its value is not zero (`isNonZeroField`),
   * or an existing type is reused, or the name of its value type happens to be taken: a zero
   * value leaves the name of its value type undefined.
   */
  lemma ClosedExactly(c: Context, s: State, msg: AminoMsg, n: nat, s': State)
    requires Good(s, n) && AddMessage(c, s, msg, n) == Done(s')
    ensures Closed(s'.types) <==>
            || IsNonZeroField(msg.value)
            || Reused(s, msg)
            || "TypeValue" + Decimal(s.valueIndex) in Names(s.types) + {TypeKey(msg, s.types)}
  {
    if IsNonZeroField(msg.value) {
      AddMessageIsGood(c, s, msg, n, s');
    } else if Reused(s, msg) {
      var key := MatchingType(AsJson(msg), MsgType(msg.typ), s.types, s.types).value.value;
      MatchingTypeIsDefined(AsJson(msg), MsgType(msg.typ), s.types, s.types, key);
      ReuseIsGood(s, n, key);
    } else {
      ZeroValueDangles(c, s, msg, n, DefineType(c, s, msg, n).value);
    }
  }
}
