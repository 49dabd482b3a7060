/**
 * Whose type a repeated message is given: the search looks at every type whose name contains the
 * name of the message, so it can find one that was made for another message.
 */
module Eip712Own {
  import opened Basics
  import opened Eip712Types
  import opened Eip712Closure
  import opened Eip712Freshness
  import opened Eip712Failures
  import opened Eip712Matching
  import opened Eip712Reuse

  // ----- where type names come from -----

  /** The name of a type made for a message of that name. */
  ghost predicate MadeFor(x: string, m: string) {
    exists k: nat :: x == "Type" + m + Decimal(k)
  }

  /** A default type, the type of a value, or the type of one of the messages. */
  ghost predicate HasOrigin(x: string, msgs: seq<AminoMsg>) {
    || x in Names(DEFAULT_EIP712_TYPES)
    || IsValueName(x)
    || exists i :: 0 <= i < |msgs| && MadeFor(x, MsgType(msgs[i].typ))
  }

  lemma KeyIsMadeFor(msg: AminoMsg, types: Definitions)
    ensures MadeFor(TypeKey(msg, types), MsgType(msg.typ))
  {
  }

  lemma DefinedNames(c: Context, s: State, msg: AminoMsg, n: nat, s': State)
    requires DefineType(c, s, msg, n) == Done(s')
    ensures forall x :: x in Names(s'.types) ==> x in Names(s.types) || x == "Tx" || x == TypeKey(msg, s.types) || IsValueName(x)
  {
    var valueType, types2 := "TypeValue" + Decimal(s.valueIndex), TypesWithKey(s, msg, n);
    var defs := DefineTypeShape(c, s, msg, n, s', valueType);
    ZeroOrValueNames(c, c.typeUrls[msg.typ], msg.value, s.valueIndex, types2, defs);
    SortKeepsNames(defs, c.before);
    MergeNames(types2, SortByName(defs, c.before), "");
    var f := TypedField(MsgField(n), TypeKey(msg, s.types));
    PutNames(s.types, "Tx", FieldsOf(s.types, "Tx") + [f]);
    PutNames(Append(s.types, "Tx", f), TypeKey(msg, s.types), [TypedField("value", valueType), TypedField("type", "string")]);
  }

  lemma AddedNames(c: Context, s: State, msg: AminoMsg, n: nat, s': State)
    requires AddMessage(c, s, msg, n) == Done(s')
    ensures forall x :: x in Names(s'.types) ==> x in Names(s.types) || x == "Tx" || x == TypeKey(msg, s.types) || IsValueName(x)
  {
    if msg.typ !in s.includedTypes {
      DefinedNames(c, s, msg, n, DefineType(c, s, msg, n).value);
    } else {
      match MatchingType(AsJson(msg), MsgType(msg.typ), s.types, s.types).value
      case Some(key) =>
        PutNames(s.types, "Tx", FieldsOf(s.types, "Tx") + [TypedField(MsgField(n), key)]);
      case None =>
        DefinedNames(c, s, msg, n, s');
    }
  }

  /** Every type has an origin. */
  lemma {:induction false} TypesHaveOrigin(c: Context, msgs: seq<AminoMsg>, s: State)
    requires GetTypes(c, msgs) == Done(s)
    ensures forall x :: x in Names(s.types) ==> HasOrigin(x, msgs)
  {
    if msgs == [] {
    } else {
      var n := |msgs| - 1;
      var before := GetTypes(c, msgs[..n]).value;
      TypesHaveOrigin(c, msgs[..n], before);
      AddedNames(c, before, msgs[n], n, s);
      KeyIsMadeFor(msgs[n], before.types);
      NameIn(DEFAULT_EIP712_TYPES, 3);
      forall x | x in Names(s.types)
        ensures HasOrigin(x, msgs)
      {
        OriginStays(x, msgs, n);
      }
    }
  }

  lemma OriginStays(x: string, msgs: seq<AminoMsg>, n: nat)
    requires n <= |msgs|
    ensures HasOrigin(x, msgs[..n]) ==> HasOrigin(x, msgs)
  {
    if i :| 0 <= i < n && MadeFor(x, MsgType(msgs[..n][i].typ)) {
      assert msgs[i] == msgs[..n][i];
    }
  }

  /** The name is in no default type, no value type and no type of a message with another name. */
  ghost predicate Unambiguous(m: string, msgs: seq<AminoMsg>, types: Definitions) {
    && (forall x :: x in Names(DEFAULT_EIP712_TYPES) ==> !Includes(x, m))
    && (forall x :: x in Names(types) && IsValueName(x) ==> !Includes(x, m))
    && (forall i, k: nat :: 0 <= i < |msgs| && MsgType(msgs[i].typ) != m ==> !Includes("Type" + MsgType(msgs[i].typ) + Decimal(k), m))
  }

  /**
   * In any run the type that a message is given, when one is reused, has the name of the message
   * in its own; if that name is unambiguous, the type was made for a message of this name.
   */
  lemma ReusedTypeIsOwn(c: Context, msgs: seq<AminoMsg>, s: State, msg: AminoMsg, key: string)
    requires GetTypes(c, msgs) == Done(s)
    requires MatchingType(AsJson(msg), MsgType(msg.typ), s.types, s.types) == Done(Some(key))
    ensures Includes(key, MsgType(msg.typ)) && HasOrigin(key, msgs)
    ensures Unambiguous(MsgType(msg.typ), msgs, s.types) ==> MadeFor(key, MsgType(msg.typ))
  {
    TypesHaveOrigin(c, msgs, s);
    SearchExactly(AsJson(msg), MsgType(msg.typ), s.types, s.types);
    MatchingTypeIsDefined(AsJson(msg), MsgType(msg.typ), s.types, s.types, key);
    assert SearchFinds(AsJson(msg), MsgType(msg.typ), s.types, s.types, key);
  }

  // ----- a run that gives a message the type of another one -----

  lemma PutPlaces(types: Definitions, name: string, fields: seq<TypedField>)
    ensures |types| <= |Put(types, name, fields)|
    ensures forall i :: 0 <= i < |types| ==> Put(types, name, fields)[i].name == types[i].name
    ensures name !in Names(types) ==> |Put(types, name, fields)| > |types| && Put(types, name, fields)[|types|].name == name
  {
    if name in Names(types) {
      PutKeepsPlaces(types, name, fields);
    } else {
      PutAtEnd(types, name, fields);
    }
  }

  lemma EmptyValuePlaces(s: State, msg: AminoMsg, n: nat, valueType: string)
    ensures var types := Put(TypesWithKey(s, msg, n), valueType, []);
            |s.types| <= |types| && forall i :: 0 <= i < |s.types| ==> types[i].name == s.types[i].name
  {
    var f := TypedField(MsgField(n), TypeKey(msg, s.types));
    PutPlaces(s.types, "Tx", FieldsOf(s.types, "Tx") + [f]);
    PutPlaces(Append(s.types, "Tx", f), TypeKey(msg, s.types),
              [TypedField("value", "TypeValue" + Decimal(s.valueIndex)), TypedField("type", "string")]);
    PutPlaces(TypesWithKey(s, msg, n), valueType, []);
  }

  /** The first message's type comes after the default types. */
  lemma FirstKeyPlace(s: State, msg: AminoMsg, valueType: string)
    requires s == Start()
    ensures var types := Put(TypesWithKey(s, msg, 0), valueType, []);
            |types| > 4 && types[4].name == TypeKey(msg, s.types) && forall i :: 0 <= i < 4 ==> types[i].name == s.types[i].name
  {
    var f, key := TypedField(MsgField(0), TypeKey(msg, s.types)), TypeKey(msg, s.types);
    var types1 := Append(s.types, "Tx", f);
    EmptyValuePlaces(s, msg, 0, valueType);
    NameIn(s.types, 3);
    PutKeepsPlaces(s.types, "Tx", FieldsOf(s.types, "Tx") + [f]);
    PutNames(s.types, "Tx", FieldsOf(s.types, "Tx") + [f]);
    DefaultsAreNoMessageNames(MsgType(msg.typ), LatestIndex("Type" + MsgType(msg.typ), s.types));
    TypeKeyIsNumbered(msg, s.types);
    PutPlaces(types1, key, [TypedField("value", "TypeValue" + Decimal(s.valueIndex)), TypedField("type", "string")]);
    PutPlaces(TypesWithKey(s, msg, 0), valueType, []);
  }

  /** Adding a message with the empty value leaves the fields of other types alone. */
  lemma EmptyValueFields(s: State, msg: AminoMsg, n: nat, valueType: string, name: string)
    requires name != "Tx" && name != valueType
    ensures FieldsOf(Put(TypesWithKey(s, msg, n), valueType, []), name) ==
            if name == TypeKey(msg, s.types) then [TypedField("value", "TypeValue" + Decimal(s.valueIndex)), TypedField("type", "string")]
            else FieldsOf(s.types, name)
  {
    var f := TypedField(MsgField(n), TypeKey(msg, s.types));
    PutFields(s.types, "Tx", FieldsOf(s.types, "Tx") + [f], name);
    PutFields(Append(s.types, "Tx", f), TypeKey(msg, s.types),
              [TypedField("value", "TypeValue" + Decimal(s.valueIndex)), TypedField("type", "string")], name);
    PutFields(TypesWithKey(s, msg, n), valueType, [], name);
  }

  /** Messages `a` and `b` of known types, with empty values; the name of `b` contains that of `a`. */
  ghost predicate Confusable(c: Context, a: AminoMsg, b: AminoMsg) {
    var m, m' := MsgType(a.typ), MsgType(b.typ);
    && HasType(c, a) && HasType(c, b) && a.value == Obj([]) && b.value == Obj([]) && a.typ != b.typ && a.typ != ""
    && m != m' && Apart(m, m') && Includes(m', m) && !StartsWith(m, "Value") && !StartsWith(m', "Value")
    && forall i :: 0 <= i < 4 ==> !Includes(DEFAULT_EIP712_TYPES[i].name, m)
  }

  /** The state after `b` and `a`. */
  function AfterBoth(a: AminoMsg, b: AminoMsg): State {
    var s1 := State(Put(TypesWithKey(Start(), b, 0), "TypeValue" + Decimal(0), []), [b.typ], 1);
    State(Put(TypesWithKey(s1, a, 1), "TypeValue" + Decimal(1), []), [b.typ, a.typ], 2)
  }

  lemma BothAreTyped(c: Context, a: AminoMsg, b: AminoMsg)
    requires Confusable(c, a, b)
    ensures GetTypes(c, [b, a]) == Done(AfterBoth(a, b))
  {
    var s1 := State(Put(TypesWithKey(Start(), b, 0), "TypeValue" + Decimal(0), []), [b.typ], 1);
    OneMessage(c, b);
    EmptyValueIsDefined(c, Start(), b, 0);
    assert [] + [b.typ] == [b.typ] && [b.typ] + [a.typ] == [b.typ, a.typ];
    TwoMessages(c, b, a, s1);
    EmptyValueIsDefined(c, s1, a, 1);
  }

  /** The key of a message not named "Value..." is no value type, and not the key of one with a name apart. */
  lemma KeysDiffer(msg: AminoMsg, other: AminoMsg, types: Definitions, otherTypes: Definitions, n: nat)
    requires !StartsWith(MsgType(msg.typ), "Value")
    ensures TypeKey(msg, types) != "TypeValue" + Decimal(n)
    ensures MsgType(msg.typ) != MsgType(other.typ) && Apart(MsgType(msg.typ), MsgType(other.typ)) ==>
              TypeKey(msg, types) != TypeKey(other, otherTypes)
  {
    var base, base' := "Type" + MsgType(msg.typ), "Type" + MsgType(other.typ);
    MessageNameIsNoValueName(MsgType(msg.typ), LatestIndex(base, types));
    ValueTypeIsValueName(n);
    if MsgType(msg.typ) != MsgType(other.typ) && Apart(MsgType(msg.typ), MsgType(other.typ)) {
      PrefixedApart("Type", MsgType(msg.typ), MsgType(other.typ));
      assert base[4..] == MsgType(msg.typ) && base'[4..] == MsgType(other.typ);
      if TypeKey(msg, types) == TypeKey(other, otherTypes) {
        NumberedNamesDiffer(base, base', LatestIndex(base, types), LatestIndex(base', otherTypes));
      }
    }
  }

  lemma FieldsAfterBoth(c: Context, a: AminoMsg, b: AminoMsg, s: State, valueType: string, key: string)
    requires Confusable(c, a, b) && s == AfterBoth(a, b) && valueType == "TypeValue" + Decimal(0)
    requires key == TypeKey(b, DEFAULT_EIP712_TYPES)
    ensures FieldsOf(s.types, key) == [TypedField("value", valueType), TypedField("type", "string")]
    ensures FieldsOf(s.types, valueType) == []
  {
    var s1, next := State(Put(TypesWithKey(Start(), b, 0), valueType, []), [b.typ], 1), "TypeValue" + Decimal(1);
    KeysDiffer(b, a, DEFAULT_EIP712_TYPES, s1.types, 0);
    KeysDiffer(b, a, DEFAULT_EIP712_TYPES, s1.types, 1);
    KeysDiffer(a, b, s1.types, DEFAULT_EIP712_TYPES, 0);
    TypeKeyIsNumbered(b, DEFAULT_EIP712_TYPES);
    ValueTypeIsNotTx(0);
    if valueType == next {
      ValueTypesDiffer(0, 1, "TypeValue");
    }
    EmptyValueFields(Start(), b, 0, valueType, key);
    EmptyValueFields(s1, a, 1, next, key);
    EmptyValueFields(s1, a, 1, next, valueType);
    PutFields(TypesWithKey(Start(), b, 0), valueType, [], valueType);
    assert Apart(MsgType(b.typ), MsgType(a.typ));
  }

  lemma OriginStarts(x: string, msgs: seq<AminoMsg>)
    requires HasOrigin(x, msgs)
    ensures x != "" && x[0] in {'C', 'E', 'F', 'T'}
  {
    var t := DEFAULT_EIP712_TYPES;
    assert t[0].name[0] == 'C' && t[1].name[0] == 'E' && t[2].name[0] == 'F' && t[3].name[0] == 'T';
    if IsValueName(x) {
      assert x[..9][0] == 'T';
    }
  }

  lemma TextIsNoType(x: string, msgs: seq<AminoMsg>)
    requires x == "string"
    ensures !HasOrigin(x, msgs)
  {
    if HasOrigin(x, msgs) {
      OriginStarts(x, msgs);
    }
  }

  /** A message with the empty value matches a message type whose value type has no fields. */
  lemma EmptyMessageMatches(msg: AminoMsg, key: string, types: Definitions, f: TypedField, g: TypedField)
    requires FieldsOf(types, key) == [f, g] && f.name == "value" && g.name == "type"
    requires !Includes(f.typ, "[]") && !Includes(g.typ, "[]") && FieldsOf(types, f.typ) == [] && !Has(types, g.typ)
    requires msg.value == Obj([]) && msg.typ != ""
    ensures Matches(AsJson(msg), key, types) && !Throws(AsJson(msg), key, types)
  {
    var v := AsJson(msg);
    MessageFields(msg.typ, msg.value);
    EmptyValue(f.typ, types);
    CompareExactly(Obj([]), f.typ, types);
    assert Named(f) == f.typ && Named(g) == g.typ && Part(v, f) == Obj([]);
    assert FieldValue(v, f) == Obj([]) && FieldValue(v, g) == Str(msg.typ);
    assert Covers(v, [f, g], 2);
    MatchesFrom(v, key, types);
  }

  lemma IncludesInside(s: string, sub: string, before: string, after: string)
    requires Includes(s, sub)
    ensures Includes(before + s + after, sub)
    decreases |before| + |s|
  {
    var whole := before + s + after;
    if before != "" {
      assert whole[1..] == before[1..] + s + after;
      IncludesInside(s, sub, before[1..], after);
    } else if StartsWith(s, sub) {
      assert whole[..|sub|] == s[..|sub|];
    } else {
      assert whole[1..] == before + s[1..] + after;
      IncludesInside(s[1..], sub, before, after);
    }
  }

  /**
   * The second message named like `a` is given the type made for `b`, whose name contains its
   * name, and not the one made for the first.
   */
  lemma TypeOfAnotherMessage(c: Context, a: AminoMsg, b: AminoMsg)
    requires Confusable(c, a, b)
    ensures GetTypes(c, [b, a]).Done?
    ensures var types, key := GetTypes(c, [b, a]).value.types, TypeKey(b, DEFAULT_EIP712_TYPES);
            && GetTypes(c, [b, a, a]) == Done(State(Append(types, "Tx", TypedField(MsgField(2), key)), [b.typ, a.typ], 2))
            && !MadeFor(key, MsgType(a.typ))
  {
    var s, key := AfterBoth(a, b), TypeKey(b, DEFAULT_EIP712_TYPES);
    BothAreTyped(c, a, b);
    FindsOther(c, a, b, s, key);
    var three := [b, a, a];
    assert three[..|three| - 1] == [b, a];
    NotMadeFor(a, b, key);
  }

  lemma NotMadeFor(a: AminoMsg, b: AminoMsg, key: string)
    requires MsgType(a.typ) != MsgType(b.typ) && Apart(MsgType(a.typ), MsgType(b.typ)) && key == TypeKey(b, DEFAULT_EIP712_TYPES)
    ensures !MadeFor(key, MsgType(a.typ))
  {
    var base, base' := "Type" + MsgType(a.typ), "Type" + MsgType(b.typ);
    PrefixedApart("Type", MsgType(a.typ), MsgType(b.typ));
    assert base[4..] == MsgType(a.typ) && base'[4..] == MsgType(b.typ);
    if k: nat :| key == base + Decimal(k) {
      NumberedNamesDiffer(base, base', k, LatestIndex(base', DEFAULT_EIP712_TYPES));
    }
  }

  lemma FindsOther(c: Context, a: AminoMsg, b: AminoMsg, s: State, key: string)
    requires Confusable(c, a, b) && s == AfterBoth(a, b) && key == TypeKey(b, DEFAULT_EIP712_TYPES)
    ensures MatchingType(AsJson(a), MsgType(a.typ), s.types, s.types) == Done(Some(key))
  {
    MatchesOther(c, a, b, s, key);
    GetsToOther(c, a, b, s, key);
    SearchExactly(AsJson(a), MsgType(a.typ), s.types, s.types);
  }

  lemma MatchesOther(c: Context, a: AminoMsg, b: AminoMsg, s: State, key: string)
    requires Confusable(c, a, b) && s == AfterBoth(a, b) && key == TypeKey(b, DEFAULT_EIP712_TYPES)
    ensures Matches(AsJson(a), key, s.types) && !Throws(AsJson(a), key, s.types)
  {
    var valueType, text := "TypeValue" + Decimal(0), "string";
    BothAreTyped(c, a, b);
    TypesHaveOrigin(c, [b, a], s);
    TextIsNoType(text, [b, a]);
    HasIsInNames(s.types, text);
    FieldsAfterBoth(c, a, b, s, valueType, key);
    NamesHaveNoBracket("");
    FirstLetterMissing(valueType, "[]");
    TextHasNoBracket(text);
    EmptyMessageMatches(a, key, s.types, TypedField("value", valueType), TypedField("type", text));
  }

  lemma GetsToOther(c: Context, a: AminoMsg, b: AminoMsg, s: State, key: string)
    requires Confusable(c, a, b) && s == AfterBoth(a, b) && key == TypeKey(b, DEFAULT_EIP712_TYPES)
    ensures GetsTo(AsJson(a), MsgType(a.typ), s.types, s.types, 4) && s.types[4].name == key
  {
    var valueType := "TypeValue" + Decimal(0);
    FirstKeyPlace(Start(), b, valueType);
    EmptyValuePlaces(State(Put(TypesWithKey(Start(), b, 0), valueType, []), [b.typ], 1), a, 1, "TypeValue" + Decimal(1));
    IncludesInside(MsgType(b.typ), MsgType(a.typ), "Type", Decimal(LatestIndex("Type" + MsgType(b.typ), DEFAULT_EIP712_TYPES)));
  }
}
