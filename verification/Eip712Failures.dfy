/**
 * Runs of the EIP-712 generator that go wrong: types that name an undefined one, a type name that
 * is taken, and a message type that is overwritten by its own value type. Everything is stated of
 * `GetTypes`, for all contexts that accept the messages.
 */
module Eip712Failures {
  import opened Basics
  import opened Eip712Types
  import opened Eip712Closure
  import opened Eip712Freshness

  function Start(): State {
    State(DEFAULT_EIP712_TYPES, [], 0)
  }

  // ----- one message -----

  lemma OneMessage(c: Context, msg: AminoMsg)
    ensures GetTypes(c, [msg]) == AddMessage(c, Start(), msg, 0)
  {
    var one, none := [msg], [msg][..0];
    assert none == [] && one[..|one| - 1] == none;
    assert GetTypes(c, none) == Done(Start());
  }

  lemma TwoMessages(c: Context, a: AminoMsg, b: AminoMsg, s: State)
    requires GetTypes(c, [a]) == Done(s)
    ensures GetTypes(c, [a, b]) == AddMessage(c, s, b, 1)
  {
    var two := [a, b];
    assert two[..|two| - 1] == [a];
  }

  /** A zero value defines nothing: the message type is there, its value type is not. */
  lemma ZeroValueIsNotDefined(c: Context, s: State, msg: AminoMsg, n: nat)
    requires msg.typ !in s.includedTypes && Accepts(c, msg) && !IsNonZeroField(msg.value)
    requires PackageOf(c.typeUrls[msg.typ]) in c.schema
    ensures AddMessage(c, s, msg, n) == Done(State(TypesWithKey(s, msg, n), s.includedTypes + [msg.typ], s.valueIndex + 1))
  {
    var name, types2 := "TypeValue" + Decimal(s.valueIndex), TypesWithKey(s, msg, n);
    assert MsgValueType(c.schema, c.typeUrls[msg.typ], msg.value, name, types2, []) == Done([]);
    assert SortByName([], c.before) == [];
    assert Merge(types2, []) == types2;
  }

  /** Wherever it comes in a run, it leaves the types open unless the name of its value type is taken. */
  lemma ZeroValueLeavesOpen(c: Context, s: State, msg: AminoMsg, n: nat)
    requires Good(s, n) && msg.typ !in s.includedTypes && Accepts(c, msg) && !IsNonZeroField(msg.value)
    requires PackageOf(c.typeUrls[msg.typ]) in c.schema
    ensures AddMessage(c, s, msg, n).Done?
    ensures Closed(AddMessage(c, s, msg, n).value.types) <==>
            "TypeValue" + Decimal(s.valueIndex) in Names(s.types) + {TypeKey(msg, s.types)}
  {
    ZeroValueIsNotDefined(c, s, msg, n);
    ClosedExactly(c, s, msg, n, AddMessage(c, s, msg, n).value);
  }

  /**
   * A document with one message whose value is zero, such as the empty text, `0` or `false`, gets
   * types; they are closed only for a message named "Value", whose type has the name of its value type.
   */
  lemma ZeroValueLeavesTypesOpen(c: Context, msg: AminoMsg)
    requires Accepts(c, msg) && !IsNonZeroField(msg.value) && PackageOf(c.typeUrls[msg.typ]) in c.schema
    ensures GetTypes(c, [msg]).Done?
    ensures Closed(GetTypes(c, [msg]).value.types) <==> MsgType(msg.typ) == "Value"
  {
    OneMessage(c, msg);
    DefaultsAreGood();
    var s := Start();
    ZeroValueLeavesOpen(c, s, msg, 0);
    NoDefaultValueName(s.types, "TypeValue" + Decimal(0));
    FirstKey(MsgType(msg.typ), s.types, "Type" + MsgType(msg.typ), "TypeValue" + Decimal(0));
  }

  /** Of the first message types only that for "Value" is named like the first value type. */
  lemma FirstKey(m: string, types: Definitions, sub: string, valueType: string)
    requires types == DEFAULT_EIP712_TYPES && sub == "Type" + m && valueType == "TypeValue" + Decimal(0)
    ensures sub + Decimal(LatestIndex(sub, types)) == valueType <==> m == "Value"
  {
    DefaultsCountNoValues(types, sub);
    if sub + Decimal(0) == valueType {
      assert sub == (sub + Decimal(0))[..|sub|] == valueType[..9];
      assert m == sub[4..] && valueType[4..9] == "Value";
    }
  }

  lemma NoDefaultValueName(types: Definitions, name: string)
    requires types == DEFAULT_EIP712_TYPES && name == "TypeValue" + Decimal(0)
    ensures name !in Names(types)
  {
    DefaultsAreNoMessageNames("Value", 0);
    assert "Type" + "Value" == "TypeValue";
  }

  /** The empty text is such a value, for every message name other than "Value". */
  lemma EmptyTextLeavesTypesOpen(c: Context, msg: AminoMsg)
    requires Accepts(c, msg) && msg.value == Str("") && PackageOf(c.typeUrls[msg.typ]) in c.schema
    requires MsgType(msg.typ) != "Value"
    ensures GetTypes(c, [msg]).Done? && !Closed(GetTypes(c, [msg]).value.types)
  {
    ZeroValueLeavesTypesOpen(c, msg);
  }

  // ----- messages named "Value" -----

  /** Exactly when a message type gets the name of the value type defined with it. */
  lemma KeyIsOwnValueType(msg: AminoMsg, types: Definitions, valueIndex: nat)
    requires Apart(MsgType(msg.typ), "Value")
    ensures TypeKey(msg, types) == "TypeValue" + Decimal(valueIndex) <==>
            MsgType(msg.typ) == "Value" && LatestIndex("Type" + MsgType(msg.typ), types) == valueIndex
  {
    var base := "Type" + MsgType(msg.typ);
    if TypeKey(msg, types) == "TypeValue" + Decimal(valueIndex) {
      PrefixedApart("Type", MsgType(msg.typ), "Value");
      assert "Type" + "Value" == "TypeValue";
      NumberedNamesDiffer(base, "TypeValue", LatestIndex(base, types), valueIndex);
      assert base[4..] == MsgType(msg.typ) && "TypeValue"[4..] == "Value";
    }
  }

  /** The message has a known type. */
  predicate HasType(c: Context, msg: AminoMsg) {
    Accepts(c, msg)
    && var url := c.typeUrls[msg.typ];
       PackageOf(url) in c.schema && TypeOf(url) in c.schema[PackageOf(url)]
  }

  /** The empty value has none of the fields. */
  lemma {:induction false} NothingIsAdded(schema: Schema, fields: seq<SchemaField>, name: string, types: Definitions, defs: Definitions)
    ensures AddFields(schema, fields, Obj([]), name, types, defs) == Done(defs)
  {
    if fields == [] {
    } else {
      assert Get(FieldSource(Obj([])), fields[0].name) == Done(Null);
      NothingIsAdded(schema, fields[1..], name, types, defs);
    }
  }

  /** The generator's state after a message with the empty value, of a new type. */
  lemma EmptyValueIsDefined(c: Context, s: State, msg: AminoMsg, n: nat)
    requires msg.typ !in s.includedTypes && msg.value == Obj([]) && HasType(c, msg)
    ensures AddMessage(c, s, msg, n) ==
            Done(State(Put(TypesWithKey(s, msg, n), "TypeValue" + Decimal(s.valueIndex), []), s.includedTypes + [msg.typ],
                       s.valueIndex + 1))
  {
    var name, types2 := "TypeValue" + Decimal(s.valueIndex), TypesWithKey(s, msg, n);
    var defs := [Definition(name, [])];
    assert IsNonZeroField(msg.value) && Put([], name, []) == defs;
    NothingIsAdded(c.schema, c.schema[PackageOf(c.typeUrls[msg.typ])][TypeOf(c.typeUrls[msg.typ])], name, types2, defs);
    assert MsgValueType(c.schema, c.typeUrls[msg.typ], msg.value, name, types2, []) == Done(defs);
    assert SortByName(defs, c.before) == defs;
    assert defs[1..] == [];
    assert Merge(types2, defs) == Merge(Put(types2, name, []), []);
  }

  /**
   * A first message named "Value" loses its type: `TypeValue0` is first the message's type and
   * then its value's, which replaces it.
   */
  lemma ValueMessageLosesItsType(c: Context, msg: AminoMsg)
    requires HasType(c, msg) && msg.value == Obj([]) && MsgType(msg.typ) == "Value"
    ensures GetTypes(c, [msg]).Done?
    ensures FieldsOf(GetTypes(c, [msg]).value.types, TypeKey(msg, DEFAULT_EIP712_TYPES)) == []
  {
    var key := TypeKey(msg, DEFAULT_EIP712_TYPES);
    OneMessage(c, msg);
    EmptyValueIsDefined(c, Start(), msg, 0);
    DefaultsCountNoValues(DEFAULT_EIP712_TYPES, "Type" + MsgType(msg.typ));
    assert "Type" + "Value" == "TypeValue";
    PutFields(TypesWithKey(Start(), msg, 0), key, [], key);
  }

  // ----- a zero value and a name that is taken -----

  lemma {:induction false} CountIsBounded(sub: string, types: Definitions)
    ensures LatestIndex(sub, types) <= |types|
  {
    if types == [] {
    } else {
      CountIsBounded(sub, types[1..]);
    }
  }

  lemma {:induction false} PutLength(types: Definitions, name: string, fields: seq<TypedField>)
    ensures |Put(types, name, fields)| <= |types| + 1
  {
    if types == [] || types[0].name == name {
    } else {
      PutLength(types[1..], name, fields);
    }
  }

  /** A short message name, among few types, gets a key that is no value type. */
  lemma ShortKey(s: State, msg: AminoMsg, n: nat, sub: string)
    requires |MsgType(msg.typ)| < 4 && |s.types| < 10 && sub == "TypeValue"
    ensures |TypeKey(msg, s.types)| < 9 && |TypesWithKey(s, msg, n)| <= |s.types| + 2
    ensures LatestIndex(sub, TypesWithKey(s, msg, n)) == LatestIndex(sub, s.types)
    ensures Names(TypesWithKey(s, msg, n)) == Names(s.types) + {"Tx", TypeKey(msg, s.types)}
  {
    var key := TypeKey(msg, s.types);
    CountIsBounded("Type" + MsgType(msg.typ), s.types);
    var f := TypedField(MsgField(n), key);
    var types1 := Append(s.types, "Tx", f);
    AddTxField("Value", s.types, f);
    assert "Type" + "Value" == sub;
    PutLength(s.types, "Tx", FieldsOf(s.types, "Tx") + [f]);
    var fields := [TypedField("value", "TypeValue" + Decimal(s.valueIndex)), TypedField("type", "string")];
    PutLength(types1, key, fields);
    PutCounts(types1, key, fields, sub);
    IncludedIsShorter(key, sub);
    PutNames(types1, key, fields);
  }

  /** The two messages' states, and the clash: `s0` is any state with few types and no value type. */
  lemma TwoShortMessages(s0: State, a: AminoMsg, b: AminoMsg, sub: string)
    requires |MsgType(a.typ)| < 4 && |MsgType(b.typ)| < 4 && |s0.types| == 4 && s0.valueIndex == 0
    requires sub == "TypeValue" && LatestIndex(sub, s0.types) == 0 && sub + Decimal(1) !in Names(s0.types)
    ensures var types2 := TypesWithKey(State(TypesWithKey(s0, a, 0), [a.typ], 1), b, 1);
            var types := Put(types2, sub + Decimal(1), []);
            LatestIndex(sub, types) == 1 && sub + Decimal(1) in Names(types)
  {
    var s1 := State(TypesWithKey(s0, a, 0), [a.typ], 1);
    var types2, name := TypesWithKey(s1, b, 1), sub + Decimal(1);
    ShortKey(s0, a, 0, sub);
    ShortKey(s1, b, 1, sub);
    assert |name| == 10 && |"Tx"| == 2;
    assert name !in Names(types2);
    PutCounts(types2, name, [], sub);
    PutNames(types2, name, []);
    DigitsFollow(sub, 1);
    IncludesPrefix(name, sub);
  }

  /** The types after a message with the empty text and one with the empty value. */
  lemma AfterTwoMessages(c: Context, a: AminoMsg, b: AminoMsg, sub: string)
    requires HasType(c, a) && HasType(c, b) && a.typ != b.typ && a.value == Str("") && b.value == Obj([])
    requires sub == "TypeValue"
    ensures GetTypes(c, [a, b]).Done?
    ensures var types2 := TypesWithKey(State(TypesWithKey(Start(), a, 0), [a.typ], 1), b, 1);
            GetTypes(c, [a, b]).value.types == Put(types2, sub + Decimal(1), [])
  {
    OneMessage(c, a);
    ZeroValueIsNotDefined(c, Start(), a, 0);
    assert [] + [a.typ] == [a.typ];
    var s1 := State(TypesWithKey(Start(), a, 0), [a.typ], 1);
    TwoMessages(c, a, b, s1);
    EmptyValueIsDefined(c, s1, b, 1);
  }

  /**
   * The condition on zero values is needed: after a message `a` with the empty text for a value
   * and a message `b` with an empty value, the next type name for messages named "Value" is the
   * name of `b`'s value type.
   */
  lemma ValueNamesClash(c: Context, a: AminoMsg, b: AminoMsg, m: string)
    requires HasType(c, a) && HasType(c, b) && a.typ != b.typ && m == "Value"
    requires |MsgType(a.typ)| < 4 && |MsgType(b.typ)| < 4 && a.value == Str("") && b.value == Obj([])
    ensures GetTypes(c, [a, b]).Done?
    ensures var types := GetTypes(c, [a, b]).value.types;
            "Type" + m + Decimal(LatestIndex("Type" + m, types)) in Names(types)
  {
    var sub := "Type" + m;
    assert sub == "TypeValue";
    AfterTwoMessages(c, a, b, sub);
    DefaultsCountNoValues(DEFAULT_EIP712_TYPES, sub);
    DefaultsAreNoMessageNames(m, 1);
    TwoShortMessages(Start(), a, b, sub);
  }

  lemma DefaultNamesWithoutCapitalT()
    ensures 'T' !in "Coin" && 'T' !in "EIP712Domain" && 'T' !in "Fee"
  {
  }

  /** No default type has a name that contains a longer one starting with a capital T. */
  lemma DefaultsCountNoValues(t: Definitions, sub: string)
    requires t == DEFAULT_EIP712_TYPES && |sub| > 2 && sub[0] == 'T'
    ensures LatestIndex(sub, t) == 0
    ensures forall i :: 0 <= i < 4 ==> !Includes(t[i].name, sub)
  {
    DefaultNamesWithoutCapitalT();
    FirstLetterMissing(t[0].name, sub);
    FirstLetterMissing(t[1].name, sub);
    FirstLetterMissing(t[2].name, sub);
    IncludedIsShorter(t[3].name, sub);
    CountOfFour(t[0], t[1], t[2], t[3], sub);
    assert t == [t[0], t[1], t[2], t[3]];
  }

  lemma CountOfFour(a: Definition, b: Definition, c: Definition, d: Definition, sub: string)
    requires !Includes(a.name, sub) && !Includes(b.name, sub) && !Includes(c.name, sub) && !Includes(d.name, sub)
    ensures LatestIndex(sub, [a, b, c, d]) == 0
  {
    assert [a, b, c, d][1..] == [b, c, d] && [b, c, d][1..] == [c, d] && [c, d][1..] == [d] && [d][1..] == [];
    assert LatestIndex(sub, [d]) == 0 && LatestIndex(sub, [c, d]) == 0 && LatestIndex(sub, [b, c, d]) == 0;
  }
}
