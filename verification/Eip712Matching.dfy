/**
 * When the EIP-712 generator reuses a type (`matchingType`, `compareValues`): exactly what the
 * comparison and the search decide, and when a match is right.
 */
module Eip712Matching {
  import opened Basics
  import opened Eip712Types

  /** The type that a field names, without the array suffix. */
  function Named(f: TypedField): string {
    if Includes(f.typ, "[]") then Until(f.typ, "[]") else f.typ
  }

  /** The value of a field, `Null` where reading it fails. */
  function FieldValue(value: Json, f: TypedField): Json {
    match Get(value, f.name)
    case Done(v) => v
    case _ => Null
  }

  /** The value that a nested type is compared with: of an array field, the first element. */
  function Part(value: Json, f: TypedField): Json {
    if Includes(f.typ, "[]") then First(FieldValue(value, f)) else FieldValue(value, f)
  }

  /** The value has every field, none of them zero, and at most `count` keys. */
  predicate Covers(value: Json, fields: seq<TypedField>, count: nat) {
    forall i :: 0 <= i < |fields| ==>
      IsNonZeroField(FieldValue(value, fields[i])) && KeyCount(value).Done? && KeyCount(value).value <= count
  }

  /** Field j is the last one whose type is a defined struct. */
  predicate IsLastStruct(fields: seq<TypedField>, types: Definitions, j: nat) {
    && j < |fields| && Has(types, Named(fields[j]))
    && forall i :: j < i < |fields| ==> !Has(types, Named(fields[i]))
  }

  /**
   * What `compareValues` decides: no match without all fields; otherwise the last field of a
   * struct type decides alone, whatever the comparisons of the earlier ones said.
   */
  lemma {:induction false} LastStructDecides(
    value: Json, fields: seq<TypedField>, count: nat, types: Definitions, found: bool, r: bool)
    requires CompareFields(value, fields, count, types, found) == Done(r)
    ensures !Covers(value, fields, count) ==> !r
    ensures Covers(value, fields, count) && (forall i :: 0 <= i < |fields| ==> !Has(types, Named(fields[i]))) ==> r == found
    ensures forall j: nat :: IsLastStruct(fields, types, j) && Covers(value, fields, count) ==>
              CompareValues(Part(value, fields[j]), Named(fields[j]), types) == Done(r)
    decreases |fields|
  {
    if fields == [] {
    } else {
      var f := fields[0];
      if IsNonZeroField(FieldValue(value, f)) && KeyCount(value).value <= count {
        var next := if Has(types, Named(f)) then CompareValues(Part(value, f), Named(f), types) else Done(found);
        LastStructDecides(value, fields[1..], count, types, next.value, r);
        CoversCons(value, fields, count);
        forall j: nat | IsLastStruct(fields, types, j) && Covers(value, fields, count)
          ensures CompareValues(Part(value, fields[j]), Named(fields[j]), types) == Done(r)
        {
          if j > 0 {
            assert fields[1..][j - 1] == fields[j];
            assert forall i :: j - 1 < i < |fields[1..]| ==> fields[1..][i] == fields[i + 1];
            assert IsLastStruct(fields[1..], types, j - 1);
          } else {
            assert forall i :: 0 <= i < |fields[1..]| ==> fields[1..][i] == fields[i + 1];
          }
        }
      }
    }
  }

  lemma CoversCons(value: Json, fields: seq<TypedField>, count: nat)
    requires fields != []
    requires IsNonZeroField(FieldValue(value, fields[0])) && KeyCount(value).Done? && KeyCount(value).value <= count
    ensures Covers(value, fields, count) <==> Covers(value, fields[1..], count)
  {
    assert forall i :: 0 <= i < |fields[1..]| ==> fields[1..][i] == fields[i + 1];
    if Covers(value, fields[1..], count) {
      forall i | 0 <= i < |fields|
        ensures IsNonZeroField(FieldValue(value, fields[i]))
      {
        assert i > 0 ==> fields[i] == fields[1..][i - 1];
      }
    }
  }

  // ----- what the comparison decides -----

  /** The comparison gets past field i: that field and all before it are there, and there are not too many keys. */
  predicate ReadsTo(value: Json, fields: seq<TypedField>, count: nat, i: nat)
    requires i < |fields|
  {
    Covers(value, fields[..i + 1], count)
  }

  /** The comparison with one of the fields throws. */
  predicate FieldsThrow(value: Json, fields: seq<TypedField>, count: nat, types: Definitions)
    decreases Size(value), 0
  {
    exists i :: 0 <= i < |fields| && ReadsTo(value, fields, count, i) && Has(types, Named(fields[i])) &&
      (assert fields[..i + 1][i] == fields[i];
       SizeOfPart(value, fields[i].name);
       Throws(Part(value, fields[i]), Named(fields[i]), types))
  }

  /**
   * A missing value is compared with a type that has fields, at the top or in a field that is
   * read: as only fields that are there are read, in the end by an array field without a first
   * element.
   */
  predicate Throws(value: Json, key: string, types: Definitions)
    decreases Size(value), 1
  {
    FieldsOf(types, key) != [] &&
    (value == Null || FieldsThrow(value, FieldsOf(types, key), |FieldsOf(types, key)|, types))
  }

  /** The value has all the fields of the type, and that of its last struct field has all of its, and so on. */
  predicate Matches(value: Json, key: string, types: Definitions)
    decreases Size(value)
  {
    var fields := FieldsOf(types, key);
    && Covers(value, fields, |fields|)
    && forall j :: 0 <= j < |fields| && IsLastStruct(fields, types, j) ==>
         (assert IsNonZeroField(FieldValue(value, fields[j]));
          SizeOfPart(value, fields[j].name);
          Matches(Part(value, fields[j]), Named(fields[j]), types))
  }

  /** `compareValues`, exactly: it throws if `Throws`, and otherwise says whether the value matches. */
  lemma {:induction false} CompareExactly(value: Json, key: string, types: Definitions)
    ensures CompareValues(value, key, types) == if Throws(value, key, types) then TypeError else Done(Matches(value, key, types))
    decreases Size(value), 1, 0
  {
    var fields := FieldsOf(types, key);
    CompareThrows(value, fields, |fields|, types, true);
    if !Throws(value, key, types) {
      var r := CompareValues(value, key, types).value;
      LastStructDecides(value, fields, |fields|, types, true, r);
      if Covers(value, fields, |fields|) {
        if j: nat :| IsLastStruct(fields, types, j) {
          assert IsNonZeroField(FieldValue(value, fields[j]));
          SizeOfPart(value, fields[j].name);
          CompareExactly(Part(value, fields[j]), Named(fields[j]), types);
        } else {
          NoLastStruct(fields, types, |fields|);
        }
      }
    }
  }

  /** Without a last struct field there is no struct field. */
  lemma {:induction false} NoLastStruct(fields: seq<TypedField>, types: Definitions, n: nat)
    requires n <= |fields| && forall j: nat :: !IsLastStruct(fields, types, j)
    requires forall i :: n <= i < |fields| ==> !Has(types, Named(fields[i]))
    ensures forall i :: 0 <= i < |fields| ==> !Has(types, Named(fields[i]))
    decreases n
  {
    if n == 0 {
    } else {
      assert !IsLastStruct(fields, types, n - 1);
      NoLastStruct(fields, types, n - 1);
    }
  }

  lemma {:induction false} CompareThrows(value: Json, fields: seq<TypedField>, count: nat, types: Definitions, found: bool)
    ensures !CompareFields(value, fields, count, types, found).Unmodelled?
    ensures CompareFields(value, fields, count, types, found).TypeError? <==>
            fields != [] && (value == Null || FieldsThrow(value, fields, count, types))
    decreases Size(value), 0, |fields|
  {
    if fields == [] || value == Null {
    } else {
      var f, keys := fields[0], KeyCount(value).value;
      if keys <= count && IsNonZeroField(FieldValue(value, f)) {
        SizeOfPart(value, f.name);
        CompareExactly(Part(value, f), Named(f), types);
        var next := if Has(types, Named(f)) then CompareValues(Part(value, f), Named(f), types) else Done(found);
        FieldsThrowCons(value, fields, count, types);
        if next.Done? {
          CompareThrows(value, fields[1..], count, types, next.value);
        }
      } else {
        NothingIsRead(value, fields, count, types);
      }
    }
  }

  lemma NothingIsRead(value: Json, fields: seq<TypedField>, count: nat, types: Definitions)
    requires fields != [] && (!IsNonZeroField(FieldValue(value, fields[0])) || !KeyCount(value).Done? || KeyCount(value).value > count)
    ensures !FieldsThrow(value, fields, count, types)
  {
    forall i | 0 <= i < |fields|
      ensures !ReadsTo(value, fields, count, i)
    {
      assert fields[..i + 1][0] == fields[0];
    }
  }

  /** The first field, if it is read, throws or leaves it to the others. */
  lemma FieldsThrowCons(value: Json, fields: seq<TypedField>, count: nat, types: Definitions)
    requires fields != [] && IsNonZeroField(FieldValue(value, fields[0])) && KeyCount(value).Done? && KeyCount(value).value <= count
    ensures FieldsThrow(value, fields, count, types) <==>
            || (Has(types, Named(fields[0])) && Throws(Part(value, fields[0]), Named(fields[0]), types))
            || FieldsThrow(value, fields[1..], count, types)
  {
    var rest := fields[1..];
    assert ReadsTo(value, fields, count, 0) by {
      assert fields[..1] == [fields[0]];
    }
    forall i | 0 <= i < |rest|
      ensures ReadsTo(value, fields, count, i + 1) <==> ReadsTo(value, rest, count, i)
    {
      assert fields[..i + 2][1..] == rest[..i + 1];
      CoversCons(value, fields[..i + 2], count);
    }
    if FieldsThrow(value, rest, count, types) {
      var i :| 0 <= i < |rest| && ReadsTo(value, rest, count, i) && Has(types, Named(rest[i])) &&
        Throws(Part(value, rest[i]), Named(rest[i]), types);
      assert ReadsTo(value, fields, count, i + 1) && fields[i + 1] == rest[i];
    }
    if FieldsThrow(value, fields, count, types) {
      var i :| 0 <= i < |fields| && ReadsTo(value, fields, count, i) && Has(types, Named(fields[i])) &&
        Throws(Part(value, fields[i]), Named(fields[i]), types);
      if i > 0 {
        assert ReadsTo(value, rest, count, i - 1) && rest[i - 1] == fields[i];
      }
    }
  }

  // ----- what the search decides -----

  /** The search goes past a type: its name does not contain the message type, or the message does not match it. */
  predicate Passes(msg: Json, msgType: string, d: Definition, types: Definitions) {
    Includes(d.name, msgType) ==> !Throws(msg, d.name, types) && !Matches(msg, d.name, types)
  }

  predicate PassesAll(msg: Json, msgType: string, some: Definitions, types: Definitions) {
    forall i :: 0 <= i < |some| ==> Passes(msg, msgType, some[i], types)
  }

  /** The search gets to type j. */
  predicate GetsTo(msg: Json, msgType: string, remaining: Definitions, types: Definitions, j: nat) {
    j < |remaining| && Includes(remaining[j].name, msgType) && PassesAll(msg, msgType, remaining[..j], types)
  }

  /** The first type that the search does not go past makes the comparison throw. */
  predicate SearchThrows(msg: Json, msgType: string, remaining: Definitions, types: Definitions) {
    exists j :: 0 <= j < |remaining| && GetsTo(msg, msgType, remaining, types, j) && Throws(msg, remaining[j].name, types)
  }

  /** The first type that the search does not go past is matched, and named `key`. */
  predicate SearchFinds(msg: Json, msgType: string, remaining: Definitions, types: Definitions, key: string) {
    && !Throws(msg, key, types) && Matches(msg, key, types)
    && exists j :: 0 <= j < |remaining| && GetsTo(msg, msgType, remaining, types, j) && remaining[j].name == key
  }

  /** `matchingType`, exactly. */
  lemma {:induction false} SearchExactly(msg: Json, msgType: string, remaining: Definitions, types: Definitions)
    ensures var r := MatchingType(msg, msgType, remaining, types);
            && !r.Unmodelled?
            && (r.TypeError? <==> SearchThrows(msg, msgType, remaining, types))
            && (r == Done(None) <==> PassesAll(msg, msgType, remaining, types))
            && forall key :: r == Done(Some(key)) <==> SearchFinds(msg, msgType, remaining, types, key)
    decreases |remaining|
  {
    if remaining == [] {
    } else {
      var d, rest := remaining[0], remaining[1..];
      CompareExactly(msg, d.name, types);
      if Passes(msg, msgType, d, types) {
        SearchExactly(msg, msgType, rest, types);
        SearchGoesOn(msg, msgType, remaining, types);
      } else {
        StopsAtOnce(msg, msgType, remaining, types);
      }
    }
  }

  lemma StopsAtOnce(msg: Json, msgType: string, remaining: Definitions, types: Definitions)
    requires remaining != [] && !Passes(msg, msgType, remaining[0], types)
    ensures SearchThrows(msg, msgType, remaining, types) <==> Throws(msg, remaining[0].name, types)
    ensures forall key :: SearchFinds(msg, msgType, remaining, types, key) <==>
                          key == remaining[0].name && !Throws(msg, key, types)
    ensures !PassesAll(msg, msgType, remaining, types)
  {
    assert GetsTo(msg, msgType, remaining, types, 0);
    forall j | 0 < j < |remaining|
      ensures !GetsTo(msg, msgType, remaining, types, j)
    {
      assert remaining[..j][0] == remaining[0];
    }
  }

  lemma SearchGoesOn(msg: Json, msgType: string, remaining: Definitions, types: Definitions)
    requires remaining != [] && Passes(msg, msgType, remaining[0], types)
    ensures PassesAll(msg, msgType, remaining, types) <==> PassesAll(msg, msgType, remaining[1..], types)
    ensures SearchThrows(msg, msgType, remaining, types) <==> SearchThrows(msg, msgType, remaining[1..], types)
    ensures forall key :: SearchFinds(msg, msgType, remaining, types, key) <==> SearchFinds(msg, msgType, remaining[1..], types, key)
  {
    PassesCons(msg, msgType, remaining, types);
    ThrowsLater(msg, msgType, remaining, types);
    forall key
      ensures SearchFinds(msg, msgType, remaining, types, key) <==> SearchFinds(msg, msgType, remaining[1..], types, key)
    {
      FindsLater(msg, msgType, remaining, types, key);
    }
  }

  lemma GetsToLater(msg: Json, msgType: string, remaining: Definitions, types: Definitions, j: nat)
    requires j < |remaining| - 1 && Passes(msg, msgType, remaining[0], types)
    ensures GetsTo(msg, msgType, remaining, types, j + 1) <==> GetsTo(msg, msgType, remaining[1..], types, j)
    ensures remaining[1..][j] == remaining[j + 1]
  {
    assert remaining[..j + 1][1..] == remaining[1..][..j];
    PassesCons(msg, msgType, remaining[..j + 1], types);
  }

  lemma ThrowsLater(msg: Json, msgType: string, remaining: Definitions, types: Definitions)
    requires remaining != [] && Passes(msg, msgType, remaining[0], types)
    ensures SearchThrows(msg, msgType, remaining, types) <==> SearchThrows(msg, msgType, remaining[1..], types)
  {
    var rest := remaining[1..];
    if SearchThrows(msg, msgType, rest, types) {
      var j :| 0 <= j < |rest| && GetsTo(msg, msgType, rest, types, j) && Throws(msg, rest[j].name, types);
      GetsToLater(msg, msgType, remaining, types, j);
    }
    if SearchThrows(msg, msgType, remaining, types) {
      var j :| 0 <= j < |remaining| && GetsTo(msg, msgType, remaining, types, j) && Throws(msg, remaining[j].name, types);
      GetsToLater(msg, msgType, remaining, types, j - 1);
    }
  }

  lemma FindsLater(msg: Json, msgType: string, remaining: Definitions, types: Definitions, key: string)
    requires remaining != [] && Passes(msg, msgType, remaining[0], types)
    ensures SearchFinds(msg, msgType, remaining, types, key) <==> SearchFinds(msg, msgType, remaining[1..], types, key)
  {
    var rest := remaining[1..];
    if SearchFinds(msg, msgType, rest, types, key) {
      var j :| 0 <= j < |rest| && GetsTo(msg, msgType, rest, types, j) && rest[j].name == key;
      GetsToLater(msg, msgType, remaining, types, j);
    }
    if SearchFinds(msg, msgType, remaining, types, key) {
      var j :| 0 <= j < |remaining| && GetsTo(msg, msgType, remaining, types, j) && remaining[j].name == key;
      GetsToLater(msg, msgType, remaining, types, j - 1);
    }
  }

  lemma PassesCons(msg: Json, msgType: string, some: Definitions, types: Definitions)
    requires some != [] && Passes(msg, msgType, some[0], types)
    ensures PassesAll(msg, msgType, some, types) <==> PassesAll(msg, msgType, some[1..], types)
  {
    if PassesAll(msg, msgType, some[1..], types) {
      forall i | 0 <= i < |some|
        ensures Passes(msg, msgType, some[i], types)
      {
        assert i > 0 ==> some[i] == some[1..][i - 1];
      }
    }
    if PassesAll(msg, msgType, some, types) {
      forall i | 0 <= i < |some[1..]|
        ensures Passes(msg, msgType, some[1..][i], types)
      {
        assert some[1..][i] == some[i + 1];
      }
    }
  }

  // ----- what a match should mean -----

  /** The value has exactly the fields of the type, at every level. */
  predicate DeepMatch(value: Json, key: string, types: Definitions)
    decreases Size(value)
  {
    var fields := FieldsOf(types, key);
    && Covers(value, fields, |fields|)
    && forall i :: 0 <= i < |fields| && Has(types, Named(fields[i])) ==>
         (SizeOfPart(value, fields[i].name);
          assert IsNonZeroField(FieldValue(value, fields[i]));
          DeepMatch(Part(value, fields[i]), Named(fields[i]), types))
  }

  lemma MatchesFrom(value: Json, key: string, types: Definitions)
    requires (value != Null || FieldsOf(types, key) == []) && Covers(value, FieldsOf(types, key), |FieldsOf(types, key)|)
    requires !FieldsThrow(value, FieldsOf(types, key), |FieldsOf(types, key)|, types)
    requires forall k :: 0 <= k < |FieldsOf(types, key)| && IsLastStruct(FieldsOf(types, key), types, k) ==>
               Matches(Part(value, FieldsOf(types, key)[k]), Named(FieldsOf(types, key)[k]), types)
    ensures Matches(value, key, types) && !Throws(value, key, types)
  {
  }

  /** A value that has all the fields of a type is always found to match it. */
  lemma {:induction false} DeepMatchIsFound(value: Json, key: string, types: Definitions)
    requires DeepMatch(value, key, types)
    ensures CompareValues(value, key, types) == Done(true)
    decreases Size(value)
  {
    var fields := FieldsOf(types, key);
    forall i | 0 <= i < |fields| && Has(types, Named(fields[i]))
      ensures !Throws(Part(value, fields[i]), Named(fields[i]), types) && Matches(Part(value, fields[i]), Named(fields[i]), types)
    {
      assert IsNonZeroField(FieldValue(value, fields[i]));
      SizeOfPart(value, fields[i].name);
      DeepMatchIsFound(Part(value, fields[i]), Named(fields[i]), types);
      CompareExactly(Part(value, fields[i]), Named(fields[i]), types);
    }
    if fields != [] {
      assert IsNonZeroField(FieldValue(value, fields[0]));
    }
    MatchesFrom(value, key, types);
    CompareExactly(value, key, types);
  }

  /** Of the fields of a struct type only the last one names a type that has fields. */
  predicate OnlyLastHasFields(fields: seq<TypedField>, types: Definitions) {
    forall i, j | 0 <= i < j < |fields| ::
      Has(types, Named(fields[i])) && Has(types, Named(fields[j])) ==> FieldsOf(types, Named(fields[i])) == []
  }

  ghost predicate OnlyLastHasFieldsEach(types: Definitions) {
    forall key | Has(types, key) :: OnlyLastHasFields(FieldsOf(types, key), types)
  }

  lemma {:induction false} NoFieldsIfMissing(types: Definitions, key: string)
    requires !Has(types, key)
    ensures FieldsOf(types, key) == []
  {
    if types == [] {
    } else {
      assert types[0].name != key;
      assert forall i :: 0 <= i < |types[1..]| ==> types[1..][i] == types[i + 1];
      NoFieldsIfMissing(types[1..], key);
    }
  }

  /** Over such types a match is found exactly when the value has all the fields. */
  lemma {:induction false} MatchIsExact(value: Json, key: string, types: Definitions, r: bool)
    requires OnlyLastHasFieldsEach(types) && CompareValues(value, key, types) == Done(r)
    ensures r <==> DeepMatch(value, key, types)
    decreases Size(value), 1
  {
    if DeepMatch(value, key, types) {
      DeepMatchIsFound(value, key, types);
    }
    if r {
      CompareExactly(value, key, types);
      forall i | 0 <= i < |FieldsOf(types, key)|
        ensures FieldMatches(value, FieldsOf(types, key)[i], types)
      {
        MatchedFieldIsRight(value, key, types, FieldsOf(types, key), i);
      }
      DeepMatchUnfolds(value, key, types);
    }
  }

  lemma {:induction false} MatchedFieldIsRight(value: Json, key: string, types: Definitions, fields: seq<TypedField>, i: nat)
    requires OnlyLastHasFieldsEach(types) && Matches(value, key, types) && !Throws(value, key, types)
    requires fields == FieldsOf(types, key) && i < |fields|
    ensures FieldMatches(value, fields[i], types)
    decreases Size(value), 0
  {
    var f := fields[i];
    if Has(types, Named(f)) {
      assert IsNonZeroField(FieldValue(value, f));
      if IsLastStruct(fields, types, i) {
        SizeOfPart(value, f.name);
        LastPartMatches(value, key, types, i);
        MatchIsExact(Part(value, f), Named(f), types, true);
      } else {
        EarlierStructIsEmpty(types, key, i);
        NothingToMatch(Part(value, f), Named(f), types);
      }
    }
  }

  lemma LastPartMatches(value: Json, key: string, types: Definitions, i: nat)
    requires Matches(value, key, types) && !Throws(value, key, types) && IsLastStruct(FieldsOf(types, key), types, i)
    ensures var f := FieldsOf(types, key)[i];
            CompareValues(Part(value, f), Named(f), types) == Done(true)
  {
    PartIsRead(value, key, types, i);
    CompareExactly(Part(value, FieldsOf(types, key)[i]), Named(FieldsOf(types, key)[i]), types);
  }

  /** Of a value that has all the fields of a type no part makes the comparison throw, unless the value does. */
  lemma PartIsRead(value: Json, key: string, types: Definitions, i: nat)
    requires !Throws(value, key, types) && i < |FieldsOf(types, key)| && Has(types, Named(FieldsOf(types, key)[i]))
    requires Covers(value, FieldsOf(types, key), |FieldsOf(types, key)|)
    ensures !Throws(Part(value, FieldsOf(types, key)[i]), Named(FieldsOf(types, key)[i]), types)
  {
    var fields := FieldsOf(types, key);
    assert ReadsTo(value, fields, |fields|, i) by {
      assert forall j :: 0 <= j <= i ==> fields[..i + 1][j] == fields[j];
    }
  }

  lemma EarlierStructIsEmpty(types: Definitions, key: string, i: nat)
    requires OnlyLastHasFieldsEach(types) && i < |FieldsOf(types, key)|
    requires Has(types, Named(FieldsOf(types, key)[i])) && !IsLastStruct(FieldsOf(types, key), types, i)
    ensures FieldsOf(types, Named(FieldsOf(types, key)[i])) == []
  {
    if !Has(types, key) {
      NoFieldsIfMissing(types, key);
    }
  }

  lemma NothingToMatch(value: Json, key: string, types: Definitions)
    requires FieldsOf(types, key) == []
    ensures DeepMatch(value, key, types)
  {
  }

  /** If the field names a defined struct, its value has all the fields of that. */
  predicate FieldMatches(value: Json, f: TypedField, types: Definitions) {
    Has(types, Named(f)) ==> DeepMatch(Part(value, f), Named(f), types)
  }

  lemma DeepMatchUnfolds(value: Json, key: string, types: Definitions)
    ensures DeepMatch(value, key, types) <==>
            && Covers(value, FieldsOf(types, key), |FieldsOf(types, key)|)
            && forall i :: 0 <= i < |FieldsOf(types, key)| ==> FieldMatches(value, FieldsOf(types, key)[i], types)
  {
    var fields := FieldsOf(types, key);
    if DeepMatch(value, key, types) {
      forall i | 0 <= i < |fields|
        ensures FieldMatches(value, fields[i], types)
      {
      }
    }
    if Covers(value, fields, |fields|) && forall i :: 0 <= i < |fields| ==> FieldMatches(value, fields[i], types) {
      forall i | 0 <= i < |fields| && Has(types, Named(fields[i]))
        ensures DeepMatch(Part(value, fields[i]), Named(fields[i]), types)
      {
        assert FieldMatches(value, fields[i], types);
      }
    }
  }

  /**
   * Of a value that is found to match and whose last struct field has all its fields: the match
   * is right exactly when every earlier struct field has all its fields too.
   */
  lemma MatchIsRightExactly(value: Json, key: string, types: Definitions, j: nat)
    requires CompareValues(value, key, types) == Done(true) && IsLastStruct(FieldsOf(types, key), types, j)
    requires FieldMatches(value, FieldsOf(types, key)[j], types)
    ensures DeepMatch(value, key, types) <==> forall i :: 0 <= i < j ==> FieldMatches(value, FieldsOf(types, key)[i], types)
  {
    FoundIsCovered(value, key, types);
    DeepMatchUnfolds(value, key, types);
    LaterFieldsMatch(value, FieldsOf(types, key), types, j);
  }

  lemma FoundIsCovered(value: Json, key: string, types: Definitions)
    requires CompareValues(value, key, types) == Done(true)
    ensures Covers(value, FieldsOf(types, key), |FieldsOf(types, key)|)
  {
    var fields := FieldsOf(types, key);
    assert CompareFields(value, fields, |fields|, types, true) == Done(true);
    LastStructDecides(value, fields, |fields|, types, true, true);
  }

  lemma LaterFieldsMatch(value: Json, fields: seq<TypedField>, types: Definitions, j: nat)
    requires IsLastStruct(fields, types, j) && FieldMatches(value, fields[j], types)
    ensures (forall i :: 0 <= i < |fields| ==> FieldMatches(value, fields[i], types)) <==>
            forall i :: 0 <= i < j ==> FieldMatches(value, fields[i], types)
  {
    forall i | j < i < |fields|
      ensures FieldMatches(value, fields[i], types)
    {
      assert !Has(types, Named(fields[i]));
    }
  }

  /** An empty object matches exactly the types without fields. */
  lemma EmptyValue(key: string, types: Definitions)
    ensures CompareValues(Obj([]), key, types) == Done(FieldsOf(types, key) == [])
    ensures DeepMatch(Obj([]), key, types) <==> FieldsOf(types, key) == []
  {
    var fields := FieldsOf(types, key);
    if fields != [] {
      assert FieldValue(Obj([]), fields[0]) == Null;
    }
  }

  // ----- for which types every match is right -----

  predicate DistinctNames(fields: seq<TypedField>) {
    forall i, j | 0 <= i < j < |fields| :: fields[i].name != fields[j].name
  }

  /** Every type has distinct fields, and some value has all of them, at every level. */
  ghost predicate Inhabited(types: Definitions) {
    forall key | Has(types, key) ::
      DistinctNames(FieldsOf(types, key)) && exists v: Json :: DeepMatch(v, key, types)
  }

  function SetProperty(fields: seq<Property>, name: string, v: Json): seq<Property> {
    if fields == [] then [] else if fields[0].key == name then [Property(name, v)] + fields[1..]
    else [fields[0]] + SetProperty(fields[1..], name, v)
  }

  lemma {:induction false} SetPropertyFacts(fields: seq<Property>, name: string, v: Json, other: string)
    ensures |SetProperty(fields, name, v)| == |fields|
    ensures other != name ==> Lookup(SetProperty(fields, name, v), other) == Lookup(fields, other)
    ensures Lookup(fields, name) != Null ==> Lookup(SetProperty(fields, name, v), name) == v
  {
    if fields == [] {
    } else {
      var rest := SetProperty(fields[1..], name, v);
      assert ([Property(name, v)] + fields[1..])[1..] == fields[1..] && ([fields[0]] + rest)[1..] == rest;
      SetPropertyFacts(fields[1..], name, v, other);
    }
  }

  /** A struct, or a list of one struct, without any field. */
  function Emptied(f: TypedField): Json {
    if Includes(f.typ, "[]") then Arr([Obj([])]) else Obj([])
  }

  function WithEmptied(value: Json, f: TypedField): Json {
    if value.Obj? then Obj(SetProperty(value.fields, f.name, Emptied(f))) else value
  }

  lemma EmptiedParts(value: Json, fields: seq<TypedField>, i: nat, k: nat)
    requires i < |fields| && k < |fields| && DistinctNames(fields) && Covers(value, fields, |fields|)
    ensures var v := WithEmptied(value, fields[i]);
            && KeyCount(v) == KeyCount(value)
            && FieldValue(v, fields[k]) == (if k == i then Emptied(fields[i]) else FieldValue(value, fields[k]))
            && (k == i ==> Part(v, fields[k]) == Obj([])) && IsNonZeroField(FieldValue(v, fields[k]))
  {
    assert IsNonZeroField(FieldValue(value, fields[i])) && IsNonZeroField(FieldValue(value, fields[k]));
    assert value.Obj?;
    SetPropertyFacts(value.fields, fields[i].name, Emptied(fields[i]), fields[k].name);
  }

  /** A value with an emptied struct still matches if a later struct has its fields, though a field is missing. */
  lemma EmptiedStillMatches(value: Json, key: string, types: Definitions, i: nat, j: nat)
    requires DeepMatch(value, key, types) && DistinctNames(FieldsOf(types, key)) && i < j < |FieldsOf(types, key)|
    requires Has(types, Named(FieldsOf(types, key)[i])) && Has(types, Named(FieldsOf(types, key)[j]))
    requires FieldsOf(types, Named(FieldsOf(types, key)[i])) != []
    ensures var v := WithEmptied(value, FieldsOf(types, key)[i]);
            CompareValues(v, key, types) == Done(true) && !DeepMatch(v, key, types)
  {
    var fields := FieldsOf(types, key);
    var v := WithEmptied(value, fields[i]);
    forall k | 0 <= k < |fields|
      ensures EmptiedField(value, fields, i, k, types)
    {
      EmptiedFieldIsRead(value, key, types, fields, i, k);
    }
    EmptiedIsFound(value, key, types, fields, i, j);
    EmptiedIsWrong(value, key, types, fields, i);
  }

  lemma EmptiedIsFound(value: Json, key: string, types: Definitions, fields: seq<TypedField>, i: nat, j: nat)
    requires fields == FieldsOf(types, key) && i < j < |fields| && Has(types, Named(fields[j]))
    requires forall k :: 0 <= k < |fields| ==> EmptiedField(value, fields, i, k, types)
    ensures CompareValues(WithEmptied(value, fields[i]), key, types) == Done(true)
  {
    var v := WithEmptied(value, fields[i]);
    assert EmptiedField(value, fields, i, 0, types);
    assert Covers(v, fields, |fields|) by {
      forall k | 0 <= k < |fields|
        ensures IsNonZeroField(FieldValue(v, fields[k]))
      {
        assert EmptiedField(value, fields, i, k, types);
      }
    }
    forall k | 0 <= k < |fields| && IsLastStruct(fields, types, k)
      ensures Matches(Part(v, fields[k]), Named(fields[k]), types)
    {
      assert EmptiedField(value, fields, i, k, types);
    }
    assert !FieldsThrow(v, fields, |fields|, types) by {
      forall k | 0 <= k < |fields| && Has(types, Named(fields[k]))
        ensures !Throws(Part(v, fields[k]), Named(fields[k]), types)
      {
        assert EmptiedField(value, fields, i, k, types);
      }
    }
    MatchesFrom(v, key, types);
    CompareExactly(v, key, types);
  }

  lemma EmptiedIsWrong(value: Json, key: string, types: Definitions, fields: seq<TypedField>, i: nat)
    requires fields == FieldsOf(types, key) && i < |fields| && EmptiedField(value, fields, i, i, types)
    requires Has(types, Named(fields[i])) && FieldsOf(types, Named(fields[i])) != []
    ensures !DeepMatch(WithEmptied(value, fields[i]), key, types)
  {
    var v := WithEmptied(value, fields[i]);
    EmptyValue(Named(fields[i]), types);
    DeepMatchUnfolds(v, key, types);
    assert !FieldMatches(v, fields[i], types);
  }

  /** The fields are all still there; no comparison throws, and only that of the emptied field fails. */
  ghost predicate EmptiedField(value: Json, fields: seq<TypedField>, i: nat, k: nat, types: Definitions)
    requires i < |fields| && k < |fields|
  {
    var v := WithEmptied(value, fields[i]);
    && IsNonZeroField(FieldValue(v, fields[k])) && KeyCount(v).Done? && KeyCount(v).value <= |fields|
    && (k == i ==> Part(v, fields[k]) == Obj([]))
    && (Has(types, Named(fields[k])) ==>
          && !Throws(Part(v, fields[k]), Named(fields[k]), types)
          && (k != i ==> Matches(Part(v, fields[k]), Named(fields[k]), types)))
  }

  lemma EmptiedFieldIsRead(value: Json, key: string, types: Definitions, fields: seq<TypedField>, i: nat, k: nat)
    requires fields == FieldsOf(types, key) && i < |fields| && k < |fields| && DistinctNames(fields)
    requires DeepMatch(value, key, types)
    ensures EmptiedField(value, fields, i, k, types)
  {
    DeepMatchUnfolds(value, key, types);
    EmptiedParts(value, fields, i, k);
    assert IsNonZeroField(FieldValue(value, fields[k]));
    if Has(types, Named(fields[k])) {
      CompareExactly(Part(WithEmptied(value, fields[i]), fields[k]), Named(fields[k]), types);
      if k == i {
        EmptyValue(Named(fields[k]), types);
      } else {
        assert FieldMatches(value, fields[k], types);
        DeepMatchIsFound(Part(value, fields[k]), Named(fields[k]), types);
      }
    }
  }

  /**
   * For which types every match is right: those in which only the last field of a struct type
   * names a type that has fields.
   */
  lemma MatchesAreRightExactly(types: Definitions)
    requires Inhabited(types)
    ensures (forall value, key :: CompareValues(value, key, types) == Done(true) ==> DeepMatch(value, key, types)) <==>
            OnlyLastHasFieldsEach(types)
  {
    if OnlyLastHasFieldsEach(types) {
      forall value, key | CompareValues(value, key, types) == Done(true)
        ensures DeepMatch(value, key, types)
      {
        MatchIsExact(value, key, types, true);
      }
    } else {
      var key :| Has(types, key) && !OnlyLastHasFields(FieldsOf(types, key), types);
      var fields := FieldsOf(types, key);
      var i, j :| 0 <= i < j < |fields| && Has(types, Named(fields[i])) && Has(types, Named(fields[j]))
        && FieldsOf(types, Named(fields[i])) != [];
      var value :| DeepMatch(value, key, types);
      EmptiedStillMatches(value, key, types, i, j);
    }
  }
}
