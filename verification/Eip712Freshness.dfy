/**
 * The names that the EIP-712 generator invents: a message type's name is new whenever it is
 * chosen, as long as no message name is another one followed by digits; for message names that
 * start with "Value", like the value types, also as long as values are not zero.
 */
module Eip712Freshness {
  import opened Basics
  import opened Eip712Types
  import opened Eip712Closure

  // ----- numbered names -----

  predicate EndsInDigit(s: string) {
    s != "" && IsDigit(s[|s| - 1])
  }

  /** The second name is the first one followed by digits. */
  predicate NumberedFrom(s: string, t: string) {
    |s| < |t| && t[..|s|] == s && forall i :: |s| <= i < |t| ==> IsDigit(t[i])
  }

  /** Neither name is the other one followed by digits. */
  predicate Apart(s: string, t: string) {
    !NumberedFrom(s, t) && !NumberedFrom(t, s)
  }

  lemma {:induction false} DecimalIsInjective(a: nat, b: nat)
    requires Decimal(a) == Decimal(b)
    ensures a == b
    decreases a
  {
    var x, y := Decimal(a), Decimal(b);
    assert x[|x| - 1] == DIGITS[a % 10] && y[|y| - 1] == DIGITS[b % 10];
    assert a % 10 == b % 10;
    if a < 10 || b < 10 {
    } else {
      assert x[..|x| - 1] == Decimal(a / 10) && y[..|y| - 1] == Decimal(b / 10);
      DecimalIsInjective(a / 10, b / 10);
    }
  }

  lemma DigitsFollow(s: string, n: nat)
    ensures IsDigit((s + Decimal(n))[|s|]) && (s + Decimal(n))[..|s|] == s && (s + Decimal(n))[|s|..] == Decimal(n)
    ensures forall i :: |s| <= i < |s + Decimal(n)| ==> IsDigit((s + Decimal(n))[i])
  {
    assert forall i :: |s| <= i < |s + Decimal(n)| ==> (s + Decimal(n))[i] == Decimal(n)[i - |s|];
  }

  /** Of two names with the same numbered name the shorter one is the beginning of the other, which goes on with digits. */
  lemma LongerIsNumbered(s: string, t: string, a: nat, b: nat)
    requires s + Decimal(a) == t + Decimal(b)
    ensures |s| < |t| ==> NumberedFrom(s, t)
  {
    var whole := s + Decimal(a);
    DigitsFollow(s, a);
    DigitsFollow(t, b);
    if |s| < |t| {
      assert t == whole[..|t|];
      assert t[..|s|] == whole[..|s|];
    }
  }

  /** Names that are apart can be read back from their numbered names. */
  lemma NumberedNamesDiffer(s: string, t: string, a: nat, b: nat)
    requires Apart(s, t) && s + Decimal(a) == t + Decimal(b)
    ensures s == t && a == b
  {
    LongerIsNumbered(s, t, a, b);
    LongerIsNumbered(t, s, b, a);
    DigitsFollow(s, a);
    DigitsFollow(t, b);
    DecimalIsInjective(a, b);
  }

  /** A name that ends in no digit is apart from every other such name. */
  lemma PlainNamesAreApart(s: string, t: string)
    requires !EndsInDigit(s) && !EndsInDigit(t)
    ensures Apart(s, t)
  {
  }

  lemma PrefixedApart(prefix: string, s: string, t: string)
    ensures Apart(prefix + s, prefix + t) <==> Apart(s, t)
  {
    PrefixedNumbered(prefix, s, t);
    PrefixedNumbered(prefix, t, s);
  }

  lemma PrefixedNumbered(prefix: string, s: string, t: string)
    ensures NumberedFrom(prefix + s, prefix + t) <==> NumberedFrom(s, t)
  {
    var p, q := prefix + s, prefix + t;
    if |s| < |t| {
      assert q[..|p|] == prefix + t[..|s|];
      assert q[..|p|] == p <==> t[..|s|] == s by {
        assert p[|prefix|..] == s && q[..|p|][|prefix|..] == t[..|s|];
      }
      assert forall i :: |s| <= i < |t| ==> t[i] == q[|prefix| + i];
      assert forall i :: |p| <= i < |q| ==> q[i] == t[i - |prefix|];
    }
  }

  lemma MessageNameIsNoValueName(m: string, k: nat)
    ensures IsValueName("Type" + m + Decimal(k)) ==> StartsWith(m, "Value")
  {
    var base := "Type" + m;
    var name := base + Decimal(k);
    if StartsWith(name, "TypeValue") {
      DigitsFollow(base, k);
      assert forall i :: 0 <= i < 9 ==> name[i] == name[..9][i] && !IsDigit("TypeValue"[i]);
      assert |m| >= 5;
      assert m[..5] == name[..9][4..] && "TypeValue"[4..] == "Value";
    }
  }

  // ----- counting names -----

  lemma {:induction false} IncludesPrefix(s: string, prefix: string)
    requires StartsWith(s, prefix)
    ensures Includes(s, prefix)
  {
  }

  lemma {:induction false} FirstLetterMissing(s: string, sub: string)
    requires sub != "" && sub[0] !in s
    ensures !Includes(s, sub)
  {
    if s == "" {
    } else {
      assert !StartsWith(s, sub) by {
        assert s[0] in s;
        assert |s| >= |sub| ==> s[..|sub|][0] == s[0];
      }
      FirstLetterMissing(s[1..], sub);
    }
  }

  lemma {:induction false} IncludedIsShorter(s: string, sub: string)
    ensures Includes(s, sub) ==> |sub| <= |s|
  {
    if s == "" {
    } else {
      IncludedIsShorter(s[1..], sub);
    }
  }

  lemma {:induction false} PutCounts(types: Definitions, name: string, fields: seq<TypedField>, sub: string)
    ensures LatestIndex(sub, Put(types, name, fields)) ==
            LatestIndex(sub, types) + if name !in Names(types) && Includes(name, sub) then 1 else 0
  {
    if types == [] {
      assert [Definition(name, fields)][1..] == [];
    } else {
      assert types == [types[0]] + types[1..];
      NamesOfCons(types[0], types[1..]);
      var rest := Put(types[1..], name, fields);
      if types[0].name == name {
        assert ([Definition(name, fields)] + types[1..])[1..] == types[1..];
      } else {
        PutCounts(types[1..], name, fields, sub);
        assert ([types[0]] + rest)[1..] == rest;
      }
    }
  }

  lemma {:induction false} MergeCounts(types: Definitions, more: Definitions, sub: string)
    ensures LatestIndex(sub, types) <= LatestIndex(sub, Merge(types, more))
    decreases |more|
  {
    if more == [] {
    } else {
      PutCounts(types, more[0].name, more[0].fields, sub);
      MergeCounts(Put(types, more[0].name, more[0].fields), more[1..], sub);
    }
  }

  /** Merging in a new name that contains `sub` is noticed. */
  lemma {:induction false} MergeCountsNew(types: Definitions, more: Definitions, sub: string, x: string)
    requires x in Names(more) && x !in Names(types) && Includes(x, sub)
    ensures LatestIndex(sub, types) < LatestIndex(sub, Merge(types, more))
    decreases |more|
  {
    var d := more[0];
    assert more == [d] + more[1..];
    NamesOfCons(d, more[1..]);
    PutNames(types, d.name, d.fields);
    PutCounts(types, d.name, d.fields, sub);
    if d.name == x {
      MergeCounts(Put(types, d.name, d.fields), more[1..], sub);
    } else {
      MergeCountsNew(Put(types, d.name, d.fields), more[1..], sub, x);
    }
  }

  /** As many names as are different are counted. */
  lemma {:induction false} CountsNames(types: Definitions, sub: string, some: set<string>)
    requires some <= Names(types) && forall x :: x in some ==> Includes(x, sub)
    ensures |some| <= LatestIndex(sub, types)
  {
    if types == [] {
      assert some == {};
    } else {
      assert types == [types[0]] + types[1..];
      NamesOfCons(types[0], types[1..]);
      CountsNames(types[1..], sub, some - {types[0].name});
    }
  }

  /** The names of the first n value types. */
  function ValueNames(n: nat): set<string> {
    if n == 0 then {} else ValueNames(n - 1) + {"TypeValue" + Decimal(n - 1)}
  }

  lemma {:induction false} ValueNamesAreDistinct(n: nat, j: nat)
    ensures |ValueNames(n)| == n
    ensures j >= n ==> "TypeValue" + Decimal(j) !in ValueNames(n)
  {
    if n == 0 {
    } else {
      ValueNamesAreDistinct(n - 1, n - 1);
      ValueNamesAreDistinct(n - 1, j);
      if "TypeValue" + Decimal(j) == "TypeValue" + Decimal(n - 1) {
        DigitsFollow("TypeValue", j);
        DigitsFollow("TypeValue", n - 1);
        DecimalIsInjective(j, n - 1);
      }
    }
  }

  lemma {:induction false} ValueNamesAreCounted(types: Definitions, n: nat, sub: string)
    requires ValueNames(n) <= Names(types) && sub == "TypeValue"
    ensures n <= LatestIndex(sub, types)
  {
    ValueNamesAreDistinct(n, n);
    forall x | x in ValueNames(n)
      ensures Includes(x, sub)
    {
      ValueNameStarts(n, x);
      IncludesPrefix(x, sub);
    }
    CountsNames(types, sub, ValueNames(n));
  }

  lemma {:induction false} ValueNameStarts(n: nat, x: string)
    requires x in ValueNames(n)
    ensures StartsWith(x, "TypeValue")
  {
    if x in ValueNames(n - 1) {
      ValueNameStarts(n - 1, x);
    } else {
      DigitsFollow("TypeValue", n - 1);
    }
  }

  // ----- the names of one message value -----

  /** A nested field of the schema has this name. */
  ghost predicate NestedFieldName(schema: Schema, name: string) {
    exists p, t, i :: p in schema && t in schema[p] && 0 <= i < |schema[p][t]| && schema[p][t][i].package != "" &&
      schema[p][t][i].name == name
  }

  /** Names of nested types are made from names that do not end in a digit. */
  ghost predicate PlainNested(schema: Schema) {
    forall name :: NestedFieldName(schema, name) ==> !EndsInDigit(NestedName(name))
  }

  /** The name of a nested type: that of the type around it, the field's, and a count. */
  predicate IsNestedOf(x: string, typeName: string, name: string, types: Definitions) {
    StartsWith(typeName, "TypeValue") &&
    var nested := NestedTypeName(ObjectName(typeName), name);
    x == nested + Decimal(LatestIndex(nested, types))
  }

  ghost predicate IsNested(x: string, schema: Schema, types: Definitions) {
    exists typeName, name :: NestedFieldName(schema, name) && IsNestedOf(x, typeName, name, types)
  }

  /** A name that ends in no digit, followed by its count among the types. */
  ghost predicate IsCounted(x: string, types: Definitions) {
    exists base :: !EndsInDigit(base) && x == base + Decimal(LatestIndex(base, types))
  }

  lemma NestedIsCounted(x: string, schema: Schema, types: Definitions)
    requires PlainNested(schema) && IsNested(x, schema, types)
    ensures IsCounted(x, types)
  {
    var typeName, name :| NestedFieldName(schema, name) && IsNestedOf(x, typeName, name, types);
    NestedBaseIsPlain(typeName, name);
  }

  lemma UntilDigitHasNone(s: string)
    ensures !EndsInDigit(UntilDigit(s))
  {
  }

  lemma NestedBaseIsPlain(typeName: string, name: string)
    requires !EndsInDigit(NestedName(name))
    ensures !EndsInDigit(NestedTypeName(ObjectName(typeName), name))
  {
    var objectName, nested := ObjectName(typeName), NestedName(name);
    var base := NestedTypeName(objectName, name);
    if nested != "" {
      assert base[|base| - 1] == nested[|nested| - 1];
    } else if objectName != "" {
      UntilDigitHasNone(Until(typeName[4..], "Type"));
      assert base == "Type" + objectName;
      assert base[|base| - 1] == objectName[|objectName| - 1];
    } else {
      assert base == "Type";
    }
  }

  /** What a message value adds: the name asked for, and names of nested types. */
  lemma {:induction false} MsgValueTypeNames(
    schema: Schema, typeUrl: string, value: Json, typeName: string, types: Definitions, defs: Definitions, defs': Definitions)
    requires StartsWith(typeName, "TypeValue") && MsgValueType(schema, typeUrl, value, typeName, types, defs) == Done(defs')
    ensures forall x :: x in Names(defs') ==> x in Names(defs) || x == typeName || IsNested(x, schema, types)
    decreases value, 1, 0
  {
    if IsNonZeroField(value) {
      var fields := schema[PackageOf(typeUrl)][TypeOf(typeUrl)];
      forall i | 0 <= i < |fields| && fields[i].package != ""
        ensures NestedFieldName(schema, fields[i].name)
      {
      }
      var defs1 := if Has(defs, typeName) then defs else Put(defs, typeName, []);
      PutNames(defs, typeName, []);
      AddFieldsNames(schema, fields, value, typeName, types, defs1, defs');
    }
  }

  lemma {:induction false} AddFieldsNames(
    schema: Schema, fields: seq<SchemaField>, value: Json, typeName: string, types: Definitions, defs: Definitions, defs': Definitions)
    requires StartsWith(typeName, "TypeValue") && AddFields(schema, fields, value, typeName, types, defs) == Done(defs')
    requires forall i :: 0 <= i < |fields| && fields[i].package != "" ==> NestedFieldName(schema, fields[i].name)
    ensures forall x :: x in Names(defs') ==> x in Names(defs) || x == typeName || IsNested(x, schema, types)
    decreases value, 0, |fields|
  {
    if fields == [] {
    } else {
      var fieldValue := Get(FieldSource(value), fields[0].name).value;
      if fieldValue == Null {
        AddFieldsNames(schema, fields[1..], value, typeName, types, defs, defs');
      } else {
        var next := AddField(schema, fields[0], fieldValue, typeName, types, defs).value;
        AddFieldNames(schema, fields[0], fieldValue, typeName, types, defs, next);
        AddFieldsNames(schema, fields[1..], value, typeName, types, next, defs');
      }
    }
  }

  lemma {:induction false} AddFieldNames(
    schema: Schema, f: SchemaField, fieldValue: Json, typeName: string, types: Definitions, defs: Definitions, defs': Definitions)
    requires StartsWith(typeName, "TypeValue") && AddField(schema, f, fieldValue, typeName, types, defs) == Done(defs')
    requires f.package != "" ==> NestedFieldName(schema, f.name)
    ensures forall x :: x in Names(defs') ==> x in Names(defs) || x == typeName || IsNested(x, schema, types)
    decreases fieldValue, 2, 0
  {
    if !IsNonZeroField(fieldValue) {
    } else if fieldValue == Arr([]) {
      PutNames(defs, typeName, FieldsOf(defs, typeName) + [TypedField(f.name, "string[]")]);
    } else if f.package == "" {
      PutNames(defs, typeName, FieldsOf(defs, typeName) + [TypedField(f.name, PrimitiveType(fieldValue))]);
    } else {
      var nested := NestedTypeName(ObjectName(typeName), f.name);
      var nestedName := nested + Decimal(LatestIndex(nested, types));
      var field := TypedField(f.name, nestedName + if Includes(f.typ, "[]") then "[]" else "");
      NestedNameIsValueName(typeName, f.name, LatestIndex(nested, types));
      assert IsNestedOf(nestedName, typeName, f.name, types);
      PutNames(defs, typeName, FieldsOf(defs, typeName) + [field]);
      MsgValueTypeNames(schema, f.package + "." + UntilDigit(Until(f.typ, "[]")), fieldValue, nestedName, types,
                        Append(defs, typeName, field), defs');
    }
  }

  lemma ZeroOrValueNames(c: Context, typeUrl: string, value: Json, n: nat, types: Definitions, defs: Definitions)
    requires MsgValueType(c.schema, typeUrl, value, "TypeValue" + Decimal(n), types, []) == Done(defs)
    ensures forall x :: x in Names(defs) ==> IsValueName(x)
    ensures IsNonZeroField(value) ==> "TypeValue" + Decimal(n) in Names(defs)
  {
    ValueTypeIsValueName(n);
    if IsNonZeroField(value) {
      MsgValueTypeCloses(c.schema, typeUrl, value, "TypeValue" + Decimal(n), types, [], defs);
    }
  }

  // ----- the message loop -----

  /** Every index already used with a base name is below the next one. */
  ghost predicate Below(base: string, types: Definitions) {
    forall k: nat :: base + Decimal(k) in Names(types) ==> k < LatestIndex(base, types)
  }

  lemma BelowIsFresh(base: string, types: Definitions)
    requires Below(base, types)
    ensures base + Decimal(LatestIndex(base, types)) !in Names(types)
  {
  }

  lemma TxIsNoMessageName(m: string, k: nat)
    ensures !Includes("Tx", "Type" + m) && "Type" + m + Decimal(k) != "Tx"
  {
    IncludedIsShorter("Tx", "Type" + m);
  }

  lemma AddTxField(m: string, types: Definitions, f: TypedField)
    ensures Names(Append(types, "Tx", f)) == Names(types) + {"Tx"}
    ensures LatestIndex("Type" + m, Append(types, "Tx", f)) == LatestIndex("Type" + m, types)
    ensures Below("Type" + m, types) ==> Below("Type" + m, Append(types, "Tx", f))
  {
    PutNames(types, "Tx", FieldsOf(types, "Tx") + [f]);
    PutCounts(types, "Tx", FieldsOf(types, "Tx") + [f], "Type" + m);
    forall k: nat
      ensures "Type" + m + Decimal(k) != "Tx" && !Includes("Tx", "Type" + m)
    {
      TxIsNoMessageName(m, k);
    }
    TxIsNoMessageName(m, 0);
  }

  /** Adding the key of a message keeps the indices of a name below the next one. */
  lemma PutKeyStaysBelow(base: string, other: string, types: Definitions, fields: seq<TypedField>, n: nat)
    requires Below(base, types) && Apart(base, other) && n == LatestIndex(other, types)
    ensures Below(base, Put(types, other + Decimal(n), fields))
  {
    var key := other + Decimal(n);
    PutNames(types, key, fields);
    PutCounts(types, key, fields, base);
    forall k: nat | base + Decimal(k) in Names(Put(types, key, fields))
      ensures k < LatestIndex(base, Put(types, key, fields))
    {
      if base + Decimal(k) == key {
        NumberedNamesDiffer(base, other, k, n);
        BelowIsFresh(base, types);
        DigitsFollow(base, k);
        IncludesPrefix(key, base);
      }
    }
  }

  lemma TypesWithKeyStaysBelow(s: State, msg: AminoMsg, n: nat, m: string)
    requires Below("Type" + m, s.types) && Apart(m, MsgType(msg.typ))
    ensures Below("Type" + m, TypesWithKey(s, msg, n))
  {
    var other := "Type" + MsgType(msg.typ);
    var f := TypedField(MsgField(n), TypeKey(msg, s.types));
    var fields := [TypedField("value", "TypeValue" + Decimal(s.valueIndex)), TypedField("type", "string")];
    AddTxField(m, s.types, f);
    AddTxField(MsgType(msg.typ), s.types, f);
    PrefixedApart("Type", m, MsgType(msg.typ));
    PutKeyStaysBelow("Type" + m, other, Append(s.types, "Tx", f), fields, LatestIndex(other, s.types));
  }

  /** Merging keeps the indices of a name below the next one if it brings no index that is not counted. */
  lemma MergeStaysBelow(base: string, types: Definitions, more: Definitions)
    requires Below(base, types)
    requires forall k: nat :: base + Decimal(k) in Names(more) ==>
               k < LatestIndex(base, Merge(types, more)) || k == LatestIndex(base, types)
    ensures Below(base, Merge(types, more))
  {
    MergeNames(types, more, "");
    MergeCounts(types, more, base);
    forall k: nat | base + Decimal(k) in Names(Merge(types, more))
      ensures k < LatestIndex(base, Merge(types, more))
    {
      if base + Decimal(k) in Names(more) && k == LatestIndex(base, types) {
        BelowIsFresh(base, types);
        DigitsFollow(base, k);
        IncludesPrefix(base + Decimal(k), base);
        MergeCountsNew(types, more, base, base + Decimal(k));
      }
    }
  }

  /** What a message name and the messages of a run must be like for its type names to stay new. */
  ghost predicate Suits(c: Context, m: string, msg: AminoMsg) {
    && Apart(m, MsgType(msg.typ))
    && (StartsWith(m, "Value") ==> !EndsInDigit(m) && PlainNested(c.schema) && IsNonZeroField(msg.value))
  }

  /** The value types of the messages so far are defined. */
  ghost predicate ValuesDefined(s: State) {
    ValueNames(s.valueIndex) <= Names(s.types)
  }

  lemma DefineTypeStaysBelow(c: Context, s: State, msg: AminoMsg, n: nat, s': State, m: string)
    requires DefineType(c, s, msg, n) == Done(s') && Suits(c, m, msg) && Below("Type" + m, s.types)
    requires StartsWith(m, "Value") ==> ValuesDefined(s)
    ensures Below("Type" + m, s'.types)
    ensures StartsWith(m, "Value") ==> ValuesDefined(s')
  {
    var valueType, types2 := "TypeValue" + Decimal(s.valueIndex), TypesWithKey(s, msg, n);
    var defs := DefineTypeShape(c, s, msg, n, s', valueType);
    ZeroOrValueNames(c, c.typeUrls[msg.typ], msg.value, s.valueIndex, types2, defs);
    SortKeepsNames(defs, c.before);
    TypesWithKeyStaysBelow(s, msg, n, m);
    if StartsWith(m, "Value") {
      MergeNames(types2, SortByName(defs, c.before), "");
      TypesWithKeyNames(s, msg, n);
      ValueIndicesStayBelow(c, s, msg, n, m, types2, defs);
    } else {
      forall k: nat
        ensures "Type" + m + Decimal(k) !in Names(defs)
      {
        MessageNameIsNoValueName(m, k);
      }
    }
    MergeStaysBelow("Type" + m, types2, SortByName(defs, c.before));
  }

  lemma TypesWithKeyNames(s: State, msg: AminoMsg, n: nat)
    ensures Names(s.types) <= Names(TypesWithKey(s, msg, n))
  {
    var f := TypedField(MsgField(n), TypeKey(msg, s.types));
    PutNames(s.types, "Tx", FieldsOf(s.types, "Tx") + [f]);
    PutNames(Append(s.types, "Tx", f), TypeKey(msg, s.types),
             [TypedField("value", "TypeValue" + Decimal(s.valueIndex)), TypedField("type", "string")]);
  }

  /** For names that start with "Value": what a message value defines is counted afterwards. */
  lemma ValueIndicesStayBelow(c: Context, s: State, msg: AminoMsg, n: nat, m: string, types2: Definitions, defs: Definitions)
    requires StartsWith(m, "Value") && Suits(c, m, msg) && msg.typ in c.typeUrls
    requires types2 == TypesWithKey(s, msg, n) && ValuesDefined(s)
    requires MsgValueType(c.schema, c.typeUrls[msg.typ], msg.value, "TypeValue" + Decimal(s.valueIndex), types2, []) == Done(defs)
    requires "TypeValue" + Decimal(s.valueIndex) in Names(defs)
    ensures var merged := Merge(types2, SortByName(defs, c.before));
            && ValueNames(s.valueIndex + 1) <= Names(merged)
            && forall k: nat :: "Type" + m + Decimal(k) in Names(SortByName(defs, c.before)) ==>
                 k < LatestIndex("Type" + m, merged) || k == LatestIndex("Type" + m, types2)
  {
    var base, more, merged := "Type" + m, SortByName(defs, c.before), Merge(types2, SortByName(defs, c.before));
    SortKeepsNames(defs, c.before);
    MergeNames(types2, more, "");
    TypesWithKeyNames(s, msg, n);
    assert ValueNames(s.valueIndex + 1) <= Names(merged);
    ValueTypeIsValueName(s.valueIndex);
    MsgValueTypeNames(c.schema, c.typeUrls[msg.typ], msg.value, "TypeValue" + Decimal(s.valueIndex), types2, [], defs);
    TypeKeepsPlain(m);
    forall k: nat | base + Decimal(k) in Names(more)
      ensures k < LatestIndex(base, merged) || k == LatestIndex(base, types2)
    {
      if base + Decimal(k) == "TypeValue" + Decimal(s.valueIndex) {
        ValueIndexIsCounted(base, k, s.valueIndex, merged);
      } else {
        NestedIsCounted(base + Decimal(k), c.schema, types2);
        CountedIndex(base, k, types2);
      }
    }
  }

  lemma ValueIndexIsCounted(base: string, k: nat, valueIndex: nat, types: Definitions)
    requires !EndsInDigit(base) && base + Decimal(k) == "TypeValue" + Decimal(valueIndex)
    requires ValueNames(valueIndex + 1) <= Names(types)
    ensures k < LatestIndex(base, types)
  {
    PlainNamesAreApart(base, "TypeValue");
    NumberedNamesDiffer(base, "TypeValue", k, valueIndex);
    ValueNamesAreCounted(types, valueIndex + 1, base);
  }

  lemma TypeKeepsPlain(m: string)
    requires !EndsInDigit(m)
    ensures !EndsInDigit("Type" + m) && !EndsInDigit("TypeValue")
  {
    assert m != "" ==> ("Type" + m)[|"Type" + m| - 1] == m[|m| - 1];
    assert m == "" ==> "Type" + m == "Type";
  }

  lemma CountedIndex(base: string, k: nat, types: Definitions)
    requires IsCounted(base + Decimal(k), types) && !EndsInDigit(base)
    ensures k == LatestIndex(base, types)
  {
    var other :| !EndsInDigit(other) && base + Decimal(k) == other + Decimal(LatestIndex(other, types));
    PlainNamesAreApart(base, other);
    NumberedNamesDiffer(base, other, k, LatestIndex(other, types));
  }

  lemma AddMessageStaysBelow(c: Context, s: State, msg: AminoMsg, n: nat, s': State, m: string)
    requires AddMessage(c, s, msg, n) == Done(s') && Suits(c, m, msg) && Below("Type" + m, s.types)
    requires StartsWith(m, "Value") ==> ValuesDefined(s)
    ensures Below("Type" + m, s'.types)
    ensures StartsWith(m, "Value") ==> ValuesDefined(s')
  {
    if msg.typ !in s.includedTypes {
      DefineTypeStaysBelow(c, s, msg, n, DefineType(c, s, msg, n).value, m);
    } else {
      match MatchingType(AsJson(msg), MsgType(msg.typ), s.types, s.types).value
      case Some(key) =>
        AddTxField(m, s.types, TypedField(MsgField(n), key));
      case None =>
        DefineTypeStaysBelow(c, s, msg, n, s', m);
    }
  }

  lemma DefaultsAreNoMessageNames(m: string, k: nat)
    ensures "Type" + m + Decimal(k) !in Names(DEFAULT_EIP712_TYPES)
  {
    var name, types := "Type" + m + Decimal(k), DEFAULT_EIP712_TYPES;
    assert name[0] == 'T' && name[1] == 'y';
    assert types[0].name[0] == 'C' && types[1].name[0] == 'E' && types[2].name[0] == 'F' && types[3].name[1] == 'x';
  }

  /**
   * For any run of the generator and any message name: the type name that a message of that name
   * would get next is not taken, if that name and the names of the messages so far are pairwise
   * not one another followed by digits. For a name that starts with "Value" it may not end in a
   * digit, nor may the names of nested types, and no message so far may have a zero value.
   */
  lemma {:induction false} TypeKeysAreFresh(c: Context, msgs: seq<AminoMsg>, s: State, m: string)
    requires GetTypes(c, msgs) == Done(s)
    requires forall i :: 0 <= i < |msgs| ==> Suits(c, m, msgs[i])
    ensures "Type" + m + Decimal(LatestIndex("Type" + m, s.types)) !in Names(s.types)
    ensures Below("Type" + m, s.types)
    ensures StartsWith(m, "Value") ==> ValuesDefined(s)
  {
    if msgs == [] {
      forall k: nat
        ensures "Type" + m + Decimal(k) !in Names(s.types)
      {
        DefaultsAreNoMessageNames(m, k);
      }
    } else {
      var n := |msgs| - 1;
      var before := GetTypes(c, msgs[..n]).value;
      TypeKeysAreFresh(c, msgs[..n], before, m);
      AddMessageStaysBelow(c, before, msgs[n], n, s, m);
    }
    BelowIsFresh("Type" + m, s.types);
  }

  // ----- exactly which value types there are -----

  /** Nested types have names of their own that do not end in a digit. */
  ghost predicate NamedNested(schema: Schema) {
    forall name :: NestedFieldName(schema, name) ==> NestedName(name) != "" && !EndsInDigit(NestedName(name))
  }

  lemma NestedIsNoValueType(x: string, k: nat, schema: Schema, types: Definitions, sub: string)
    requires NamedNested(schema) && IsNested(x, schema, types) && sub == "TypeValue"
    ensures x != sub + Decimal(k)
  {
    var typeName, name :| NestedFieldName(schema, name) && IsNestedOf(x, typeName, name, types);
    var base := NestedTypeName(ObjectName(typeName), name);
    NestedBaseIsPlain(typeName, name);
    ObjectNameOfValue(typeName);
    assert |ObjectName(typeName)| >= 5;
    assert |base| > 9;
    TypeKeepsPlain("");
    PlainNamesAreApart(base, sub);
    if x == sub + Decimal(k) {
      NumberedNamesDiffer(base, sub, LatestIndex(base, types), k);
    }
  }

  lemma ValueTypesDiffer(k: nat, n: nat, sub: string)
    requires sub + Decimal(k) == sub + Decimal(n)
    ensures k == n
  {
    DigitsFollow(sub, k);
    DigitsFollow(sub, n);
    DecimalIsInjective(k, n);
  }

  /** A message value, unless it is zero, adds its own value type and no other one. */
  lemma DefinedValueTypes(c: Context, s: State, msg: AminoMsg, n: nat, defs: Definitions, k: nat, sub: string)
    requires NamedNested(c.schema) && msg.typ in c.typeUrls && sub == "TypeValue"
    requires MsgValueType(c.schema, c.typeUrls[msg.typ], msg.value, sub + Decimal(s.valueIndex), TypesWithKey(s, msg, n), []) == Done(defs)
    ensures sub + Decimal(k) in Names(defs) <==> k == s.valueIndex && IsNonZeroField(msg.value)
  {
    var types2 := TypesWithKey(s, msg, n);
    ValueTypeIsValueName(s.valueIndex);
    ZeroOrValueNames(c, c.typeUrls[msg.typ], msg.value, s.valueIndex, types2, defs);
    if IsNonZeroField(msg.value) && sub + Decimal(k) in Names(defs) {
      MsgValueTypeNames(c.schema, c.typeUrls[msg.typ], msg.value, sub + Decimal(s.valueIndex), types2, [], defs);
      if sub + Decimal(k) == sub + Decimal(s.valueIndex) {
        ValueTypesDiffer(k, s.valueIndex, sub);
      } else {
        NestedIsNoValueType(sub + Decimal(k), k, c.schema, types2, sub);
      }
    }
  }

  lemma DefineTypeValueTypes(c: Context, s: State, msg: AminoMsg, n: nat, s': State, k: nat, sub: string)
    requires NamedNested(c.schema) && !StartsWith(MsgType(msg.typ), "Value") && sub == "TypeValue"
    requires DefineType(c, s, msg, n) == Done(s')
    ensures sub + Decimal(k) in Names(s'.types) <==>
            sub + Decimal(k) in Names(s.types) || (k == s.valueIndex && IsNonZeroField(msg.value))
  {
    var key, types2 := TypeKey(msg, s.types), TypesWithKey(s, msg, n);
    var defs := DefineTypeShape(c, s, msg, n, s', sub + Decimal(s.valueIndex));
    DefinedValueTypes(c, s, msg, n, defs, k, sub);
    SortKeepsNames(defs, c.before);
    MergeNames(types2, SortByName(defs, c.before), "");
    var f := TypedField(MsgField(n), key);
    PutNames(s.types, "Tx", FieldsOf(s.types, "Tx") + [f]);
    PutNames(Append(s.types, "Tx", f), key, [TypedField("value", sub + Decimal(s.valueIndex)), TypedField("type", "string")]);
    MessageNameIsNoValueName(MsgType(msg.typ), LatestIndex("Type" + MsgType(msg.typ), s.types));
    ValueTypeIsValueName(k);
    ValueTypeIsNotTx(k);
  }

  /** The messages that were given types of their own, in the order of their numbers. */
  ghost function TypedMessages(c: Context, msgs: seq<AminoMsg>): seq<AminoMsg>
    requires GetTypes(c, msgs).Done?
  {
    if msgs == [] then []
    else
      var n := |msgs| - 1;
      TypedMessages(c, msgs[..n]) + (if Reused(GetTypes(c, msgs[..n]).value, msgs[n]) then [] else [msgs[n]])
  }

  lemma AddMessageValueTypes(c: Context, s: State, msg: AminoMsg, n: nat, s': State, k: nat, sub: string)
    requires NamedNested(c.schema) && !StartsWith(MsgType(msg.typ), "Value") && sub == "TypeValue"
    requires AddMessage(c, s, msg, n) == Done(s')
    ensures s'.valueIndex == s.valueIndex + if Reused(s, msg) then 0 else 1
    ensures sub + Decimal(k) in Names(s'.types) <==>
            sub + Decimal(k) in Names(s.types) || (k == s.valueIndex && IsNonZeroField(msg.value) && !Reused(s, msg))
  {
    if Reused(s, msg) {
      var key := MatchingType(AsJson(msg), MsgType(msg.typ), s.types, s.types).value.value;
      PutNames(s.types, "Tx", FieldsOf(s.types, "Tx") + [TypedField(MsgField(n), key)]);
      ValueTypeIsNotTx(k);
    } else {
      DefineTypeValueTypes(c, s, msg, n, DefineType(c, s, msg, n).value, k, sub);
    }
  }

  /** After any run over messages not named "Value...", value type k is defined exactly when the message typed as number k has a value that is not zero. */
  lemma {:induction false} ValueTypesExactly(c: Context, msgs: seq<AminoMsg>, s: State, k: nat, sub: string)
    requires NamedNested(c.schema) && GetTypes(c, msgs) == Done(s) && sub == "TypeValue"
    requires forall i :: 0 <= i < |msgs| ==> !StartsWith(MsgType(msgs[i].typ), "Value")
    ensures s.valueIndex == |TypedMessages(c, msgs)|
    ensures sub + Decimal(k) in Names(s.types) <==> k < |TypedMessages(c, msgs)| && IsNonZeroField(TypedMessages(c, msgs)[k].value)
  {
    if msgs == [] {
      ValueTypeIsNew(k, s.types);
    } else {
      var n := |msgs| - 1;
      var before := GetTypes(c, msgs[..n]).value;
      ValueTypesExactly(c, msgs[..n], before, k, sub);
      AddMessageValueTypes(c, before, msgs[n], n, s, k, sub);
    }
  }

  lemma ValueTypeIsNew(k: nat, types: Definitions)
    requires types == DEFAULT_EIP712_TYPES
    ensures "TypeValue" + Decimal(k) !in Names(types)
  {
    DefaultsAreNoMessageNames("Value", k);
    assert "Type" + "Value" == "TypeValue";
  }

  /**
   * Exactly when the next type name for messages named "Value" is taken: with as many type names
   * around that contain "TypeValue" as a number says, a message was typed under that number and
   * its value is not zero.
   */
  lemma NextValueNameIsTakenExactly(c: Context, msgs: seq<AminoMsg>, s: State, msg: AminoMsg)
    requires NamedNested(c.schema) && GetTypes(c, msgs) == Done(s) && MsgType(msg.typ) == "Value"
    requires forall i :: 0 <= i < |msgs| ==> !StartsWith(MsgType(msgs[i].typ), "Value")
    ensures TypeKey(msg, s.types) in Names(s.types) <==>
            var k := LatestIndex("TypeValue", s.types);
            k < |TypedMessages(c, msgs)| && IsNonZeroField(TypedMessages(c, msgs)[k].value)
  {
    assert "Type" + MsgType(msg.typ) == "TypeValue";
    ValueTypesExactly(c, msgs, s, LatestIndex("TypeValue", s.types), "TypeValue");
  }
}
