/**
 * When converting a message to Amino form and back gives the message again: for well-typed
 * message trees, exactly when every leaf is in the range of its conversion.
 */
module AminoRoundTrip {
  import opened Basics
  import opened KeyCase
  import opened Amino

  // ----- well-typed trees -----

  /** Longs are signed 64-bit integers. */
  predicate IsInt64(x: int) {
    -0x8000_0000_0000_0000 <= x < 0x8000_0000_0000_0000
  }

  /** Integers that are JavaScript numbers. */
  predicate IsNumber(n: int) {
    ToDouble(n) == n
  }

  predicate GoodKey(key: string) {
    Ascii(key) && '_' !in key && key != "length"
  }

  ghost predicate GoodKeys(fields: seq<Field>) {
    && (forall i :: 0 <= i < |fields| ==> GoodKey(fields[i].key))
    && (forall i, j :: 0 <= i < j < |fields| ==> fields[i].key != fields[j].key)
  }

  /** A duration as protobuf makes them. */
  predicate IsDuration(fields: seq<Field>) {
    && |fields| == 2
    && fields[0].key == "seconds" && fields[0].value.Long? && IsInt64(fields[0].value.v)
    && fields[1].key == "nanos" && fields[1].value.Num?
  }

  /** A scalar that its tag applies to. */
  predicate TypedLeaf(v: Value, tag: Tag) {
    match v
    case Str(_) => tag.Absent?
    case Bool(_) => tag.Absent?
    case DateText(_) => tag.Absent?
    case Num(n) => IsNumber(n) && (tag.Absent? || tag == Leaf(AsNumToStr))
    case Numeral(_, _) => tag.Absent? || tag == Leaf(AsDec) || tag == Leaf(AsDecOrZero)
    case Long(x) => IsInt64(x) && (tag.Absent? || tag == Leaf(AsLong) || tag == Leaf(AsLongToNum))
    case Date(_) => tag == Leaf(AsDate) || tag == Leaf(AsDateToNum)
    case Bytes(_) => tag.Absent?
    case Big(_) => tag.Absent?
    case _ => false
  }

  predicate IsLeaf(v: Value) {
    !v.Arr? && !v.Struct? && !v.Null?
  }

  /** A property value below the top level, with the tag of its key and the tags of its object. */
  ghost predicate TypedValue(v: Value, tag: Tag, parent: Tag)
    decreases v
  {
    match v
    case Arr(items) =>
      || AllText(items)
      || (forall i :: 0 <= i < |items| ==> TypedItem(items[i], parent))
    case Struct(fields) =>
      if DurationShaped(fields) then
        !HasKey(fields, "length") && (tag == Leaf(AsDuration) ==> IsDuration(fields)) && (tag.Leaf? ==> tag.enc == AsDuration)
      else
        && !(HasKey(fields, "seconds") && HasKey(fields, "nanos"))
        && GoodKeys(fields)
        && forall i :: 0 <= i < |fields| ==> TypedValue(fields[i].value, Lookup(tag, fields[i].key), tag)
    case _ => TypedLeaf(v, tag)
  }

  /** An element of an array of objects. */
  ghost predicate TypedItem(v: Value, tags: Tag)
    decreases v
  {
    v.Struct? && GoodKeys(v.fields) &&
    forall i :: 0 <= i < |v.fields| ==> TypedValue(v.fields[i].value, Lookup(tags, v.fields[i].key), tags)
  }

  ghost predicate TypedFields(fields: seq<Field>, tags: Tag) {
    GoodKeys(fields) && forall i :: 0 <= i < |fields| ==> TypedValue(fields[i].value, Lookup(tags, fields[i].key), tags)
  }

  // ----- ranges -----

  predicate DurationInRange(seconds: int, nanos: int) {
    0 <= seconds < TWO_32 && (0 <= nanos < MICRO || (seconds == 0 && -MICRO < nanos < 0))
  }

  /** What each conversion can carry. */
  predicate LeafInRange(v: Value, tag: Tag) {
    if !tag.Leaf? then true
    else match tag.enc
      case AsLong => v.Long? ==> 0 <= v.v < TWO_32
      case AsLongToNum => v.Long? ==> 0 < v.v < TWO_32
      case AsDec => v.Numeral? ==> v.canonical && v.value != 0.0
      case AsDecOrZero => v.Numeral? ==> v.canonical
      case AsDateToNum => v.Date? ==> v.time % 1000 == 0 && v.time != 0
      case _ => true
  }

  ghost predicate InRange(v: Value, tag: Tag, parent: Tag)
    decreases v
  {
    match v
    case Arr(items) =>
      AllText(items) || forall i :: 0 <= i < |items| ==> ItemInRange(items[i], parent)
    case Struct(fields) =>
      if DurationShaped(fields) then
        tag == Leaf(AsDuration) && IsDuration(fields) ==> DurationInRange(fields[0].value.v, fields[1].value.n)
      else forall i :: 0 <= i < |fields| ==> InRange(fields[i].value, Lookup(tag, fields[i].key), tag)
    case _ => LeafInRange(v, tag)
  }

  ghost predicate ItemInRange(v: Value, tags: Tag)
    decreases v
  {
    v.Struct? ==> forall i :: 0 <= i < |v.fields| ==> InRange(v.fields[i].value, Lookup(tags, v.fields[i].key), tags)
  }

  ghost predicate FieldsInRange(fields: seq<Field>, tags: Tag) {
    forall i :: 0 <= i < |fields| ==> InRange(fields[i].value, Lookup(tags, fields[i].key), tags)
  }

  // ----- leaves -----

  lemma SmallIntegersAreDoubles(n: int)
    requires -TWO_53 <= n <= TWO_53
    ensures ToDouble(n) == n
  {
    var m := if n >= 0 then n else -n;
    if m == TWO_53 {
      assert NearestDouble(m, 2) == m;
    }
  }

  /** No positive number is rounded to zero. */
  lemma {:induction false} NearestIsPositive(n: nat, unit: nat)
    requires 0 < unit <= n
    ensures NearestDouble(n, unit) >= unit
    decreases n - unit
  {
    if n < TWO_53 * unit {
      PositiveQuotient(n, unit);
      PositiveProduct(n / unit, unit);
      PositiveProduct(n / unit + 1, unit);
    } else {
      NearestIsPositive(n, 2 * unit);
    }
  }

  lemma PositiveQuotient(n: nat, unit: nat)
    requires 0 < unit <= n
    ensures n / unit >= 1
  {
  }

  lemma PositiveProduct(q: nat, unit: nat)
    requires q >= 1
    ensures q * unit >= unit
  {
  }

  /** A Long comes back as the nearest double's value mod 2^32; as a number, unless it is zero. */
  lemma LongImage(v: int)
    ensures var amino := ParamConverter(Long(v), Leaf(AsLong), true);
            amino.Done? && ParamConverter(amino.value, Leaf(AsLong), false) == Done(Long(ToDouble(v) % TWO_32))
    ensures v != 0 ==>
              var amino := ParamConverter(Long(v), Leaf(AsLongToNum), true);
              amino.Done? && ParamConverter(amino.value, Leaf(AsLongToNum), false) == Done(Long(ToDouble(v) % TWO_32))
    ensures -TWO_53 <= v <= TWO_53 ==> ToDouble(v) == v
  {
    if -TWO_53 <= v <= TWO_53 {
      SmallIntegersAreDoubles(v);
    }
    assert (v as real).Floor == v;
    if v > 0 {
      NearestIsPositive(v, 1);
    } else if v < 0 {
      NearestIsPositive(-v, 1);
    }
  }

  /** A leaf survives its conversion exactly when it is in range. */
  lemma LeafRoundTrip(v: Value, tag: Tag)
    requires TypedLeaf(v, tag)
    ensures var amino := ParamConverter(v, tag, true);
            amino.Done? && (ParamConverter(amino.value, tag, false) == Done(v) <==> LeafInRange(v, tag))
  {
    match v
    case Long(x) =>
      if 0 <= x < TWO_32 {
        SmallIntegersAreDoubles(x);
      }
      assert (x as real).Floor == x;
    case Num(n) =>
      assert (n as real).Floor == n;
    case Date(ms) =>
      TruncThousand(ms);
    case _ =>
  }

  lemma TruncThousand(ms: int)
    ensures Trunc(ms as real / 1000.0) * 1000 == ms <==> ms % 1000 == 0
  {
    TruncQuotient(ms, 1000);
  }

  lemma TruncQuotient(a: int, b: int)
    requires b > 0
    ensures Trunc(a as real / b as real) == if a >= 0 then a / b else -(-a / b)
  {
    var m := if a >= 0 then a else -a;
    FloorQuotient(m, b);
    if a < 0 {
      assert -(a as real / b as real) == m as real / b as real;
    }
  }

  lemma FloorQuotient(m: int, b: int)
    requires m >= 0 && b > 0
    ensures (m as real / b as real).Floor == m / b
  {
    var q, r := m / b, m % b;
    assert m == q * b + r;
    assert m as real == q as real * b as real + r as real;
    assert m as real / b as real == q as real + r as real / b as real;
    assert 0.0 <= r as real / b as real < 1.0;
  }

  /** The quotient by a million, rounded towards zero. */
  function WholePart(total: int): int {
    if total >= 0 then total / MICRO else -(-total / MICRO)
  }

  lemma WholeAndRest(seconds: int, nanos: int)
    ensures var total := seconds * MICRO + nanos;
            var s := WholePart(total);
            && -MICRO < total - s * MICRO < MICRO
            && (s == seconds && 0 <= seconds < TWO_32 <==> DurationInRange(seconds, nanos))
            && (total - s * MICRO == nanos <==> s == seconds)
  {
  }

  /** The codec works on the number of millionths. */
  lemma DurationParts(seconds: int, nanos: int)
    ensures var total, r := seconds * MICRO + nanos, nanos as real / MICRO as real + seconds as real;
            && Trunc(r) == WholePart(total)
            && Trunc((r - Trunc(r) as real) * MICRO as real) == total - WholePart(total) * MICRO
  {
    var total, r := seconds * MICRO + nanos, nanos as real / MICRO as real + seconds as real;
    var s := WholePart(total);
    assert total as real == seconds as real * MICRO as real + nanos as real;
    assert r == total as real / MICRO as real;
    TruncQuotient(total, MICRO);
    Rescale(r, total, s);
    TruncInteger(total - s * MICRO);
  }

  lemma Rescale(r: real, total: int, s: int)
    requires r == total as real / MICRO as real
    ensures (r - s as real) * MICRO as real == (total - s * MICRO) as real
  {
    assert r * MICRO as real == total as real;
    assert (r - s as real) * MICRO as real == r * MICRO as real - s as real * MICRO as real;
    assert (s * MICRO) as real == s as real * MICRO as real;
  }

  function DurationStruct(seconds: int, nanos: int): Value {
    Struct([Field("seconds", Long(seconds)), Field("nanos", Num(nanos))])
  }

  /** What a duration comes back as. */
  lemma DurationImage(seconds: int, nanos: int)
    ensures var total := seconds * MICRO + nanos;
            var s := WholePart(total);
            DurationOf(nanos as real / MICRO as real + seconds as real) ==
            DurationStruct(ToDouble(s) % TWO_32, total - s * MICRO)
  {
    var total := seconds * MICRO + nanos;
    DurationParts(seconds, nanos);
    WholeAndRest(seconds, nanos);
    SmallIntegersAreDoubles(total - WholePart(total) * MICRO);
  }

  lemma DurationSurvives(seconds: int, nanos: int)
    ensures DurationOf(nanos as real / MICRO as real + seconds as real) == DurationStruct(seconds, nanos) <==>
            DurationInRange(seconds, nanos)
  {
    var s := WholePart(seconds * MICRO + nanos);
    DurationImage(seconds, nanos);
    WholeAndRest(seconds, nanos);
    if 0 <= s < TWO_32 {
      SmallIntegersAreDoubles(s);
    }
    StructsDiffer(ToDouble(s) % TWO_32, seconds * MICRO + nanos - s * MICRO, seconds, nanos);
  }

  lemma StructsDiffer(a: int, b: int, c: int, d: int)
    ensures DurationStruct(a, b) == DurationStruct(c, d) <==> a == c && b == d
  {
    var x, y := DurationStruct(a, b), DurationStruct(c, d);
    assert x == y ==> x.fields[0] == y.fields[0] && x.fields[1] == y.fields[1];
  }

  /** A duration survives exactly when its parts are in range: the codec keeps millionths. */
  lemma DurationRoundTrip(fields: seq<Field>)
    requires IsDuration(fields)
    ensures var amino := ParamConverter(Struct(fields), Leaf(AsDuration), true);
            && amino.Done? && amino.value.Numeral?
            && (ParamConverter(amino.value, Leaf(AsDuration), false) == Done(Struct(fields)) <==>
                DurationInRange(fields[0].value.v, fields[1].value.n))
  {
    var seconds, nanos := fields[0].value.v, fields[1].value.n;
    DurationSurvives(seconds, nanos);
    assert Struct(fields) == DurationStruct(seconds, nanos);
  }

  lemma TruncInteger(n: int)
    ensures Trunc(n as real) == n
  {
    assert (n as real).Floor == n && (-n as real).Floor == -n;
    assert -(n as real) == -n as real;
  }

  // ----- the shape of converted objects -----

  lemma {:induction false} PutNew(fields: seq<Field>, key: string, value: Value)
    requires !HasKey(fields, key)
    ensures Put(fields, key, value) == fields + [Field(key, value)]
  {
    if fields == [] {
    } else {
      assert fields[0].key != key;
      assert forall i :: 0 <= i < |fields[1..]| ==> fields[1..][i] == fields[i + 1];
      PutNew(fields[1..], key, value);
    }
  }

  predicate DistinctAltKeys(fields: seq<Field>, toAmino: bool) {
    forall i, j :: 0 <= i < j < |fields| ==> AltKey(fields[i].key, toAmino) != AltKey(fields[j].key, toAmino)
  }

  function ValueAt(fields: seq<Field>, i: nat, tags: Tag, toAmino: bool): Outcome<Value>
    requires i < |fields|
  {
    MapValue(fields[i].value, KeyTag(fields[i].key, tags, toAmino), tags, toAmino)
  }

  /** The converted object when every property could be converted. */
  ghost predicate ConvertedTo(fields: seq<Field>, tags: Tag, toAmino: bool, r: seq<Field>) {
    && |r| == |fields|
    && forall i :: 0 <= i < |fields| ==>
         ValueAt(fields, i, tags, toAmino) == Done(r[i].value) && r[i].key == AltKey(fields[i].key, toAmino)
  }

  lemma NewAltKey(fields: seq<Field>, toAmino: bool, before: seq<Field>, key: string, value: Value)
    requires fields != [] && DistinctAltKeys(fields, toAmino) && |before| == |fields| - 1
    requires key == AltKey(Last(fields).key, toAmino)
    requires forall i :: 0 <= i < |before| ==> before[i].key == AltKey(fields[i].key, toAmino)
    ensures Put(before, key, value) == before + [Field(key, value)]
  {
    PutNew(before, key, value);
  }

  lemma ConvertedSnoc(fields: seq<Field>, tags: Tag, toAmino: bool, before: seq<Field>, value: Value)
    requires fields != [] && DistinctAltKeys(fields, toAmino)
    requires ConvertedTo(fields[..|fields| - 1], tags, toAmino, before)
    requires ValueAt(fields, |fields| - 1, tags, toAmino) == Done(value)
    ensures ConvertedTo(fields, tags, toAmino, Put(before, AltKey(Last(fields).key, toAmino), value))
  {
    var n, front := |fields| - 1, fields[..|fields| - 1];
    forall i | 0 <= i < n
      ensures ValueAt(fields, i, tags, toAmino) == Done(before[i].value) && before[i].key == AltKey(fields[i].key, toAmino)
    {
      SameAt(fields, front, i, tags, toAmino);
    }
    NewAltKey(fields, toAmino, before, AltKey(Last(fields).key, toAmino), value);
  }

  lemma SameAt(fields: seq<Field>, front: seq<Field>, i: nat, tags: Tag, toAmino: bool)
    requires front <= fields && i < |front|
    ensures ValueAt(fields, i, tags, toAmino) == ValueAt(front, i, tags, toAmino) && fields[i] == front[i]
  {
  }

  /** Without key collisions an object is converted property by property, in order, if all can be. */
  lemma {:induction false} MapFieldsShape(fields: seq<Field>, tags: Tag, toAmino: bool)
    requires DistinctAltKeys(fields, toAmino)
    ensures var r := MapFields(fields, tags, toAmino);
            && (r.Done? <==> forall i :: 0 <= i < |fields| ==> ValueAt(fields, i, tags, toAmino).Done?)
            && (r.Done? ==> ConvertedTo(fields, tags, toAmino, r.value))
  {
    if fields == [] {
    } else {
      var n := |fields| - 1;
      var front := fields[..n];
      MapFieldsShape(front, tags, toAmino);
      forall i | 0 <= i < n
        ensures ValueAt(front, i, tags, toAmino) == ValueAt(fields, i, tags, toAmino)
      {
        SameAt(fields, front, i, tags, toAmino);
      }
      var before, value := MapFields(front, tags, toAmino), ValueAt(fields, n, tags, toAmino);
      if before.Done? && value.Done? {
        ConvertedSnoc(fields, tags, toAmino, before.value, value.value);
      }
    }
  }

  ghost predicate ItemsConvertedTo(items: seq<Value>, tags: Tag, toAmino: bool, r: seq<Value>) {
    |r| == |items| && forall i :: 0 <= i < |items| ==> MapEachIndiv(items[i], tags, toAmino) == Done(r[i])
  }

  lemma {:induction false} MapItemsShape(items: seq<Value>, tags: Tag, toAmino: bool)
    ensures var r := MapItems(items, tags, toAmino);
            && (r.Done? <==> forall i :: 0 <= i < |items| ==> MapEachIndiv(items[i], tags, toAmino).Done?)
            && (r.Done? ==> ItemsConvertedTo(items, tags, toAmino, r.value))
  {
    if items == [] {
    } else {
      var n := |items| - 1;
      var front := items[..n];
      MapItemsShape(front, tags, toAmino);
      assert forall i :: 0 <= i < n ==> front[i] == items[i];
      var before, last := MapItems(front, tags, toAmino), MapEachIndiv(items[n], tags, toAmino);
      if before.Done? && last.Done? {
        assert MapItems(items, tags, toAmino) == Done(before.value + [last.value]);
        forall i | 0 <= i < n
          ensures MapEachIndiv(items[i], tags, toAmino) == Done(before.value[i])
        {
          assert MapEachIndiv(front[i], tags, toAmino) == Done(before.value[i]);
        }
      }
    }
  }

  /** Good keys stay distinct in Amino form, and are found again under their own names. */
  lemma GoodKeysRename(fields: seq<Field>)
    requires GoodKeys(fields)
    ensures DistinctAltKeys(fields, true)
    ensures forall i :: 0 <= i < |fields| ==> SnakeToCamel(CamelToSnake(fields[i].key)) == fields[i].key
  {
    forall i | 0 <= i < |fields|
      ensures SnakeToCamel(CamelToSnake(fields[i].key)) == fields[i].key
    {
      KeyRoundTrip(fields[i].key);
    }
  }

  // ----- nested values -----

  /** The Amino form of an object, and what its way back depends on. */
  ghost predicate ReturnsExactly(fields: seq<Field>, tags: Tag, r: seq<Field>) {
    && ConvertedTo(fields, tags, true, r)
    && (MapFields(r, tags, false) == Done(fields) <==> FieldsInRange(fields, tags))
  }

  lemma {:induction false} FieldsRoundTrip(fields: seq<Field>, tags: Tag)
    requires TypedFields(fields, tags)
    ensures MapFields(fields, tags, true).Done?
    ensures ReturnsExactly(fields, tags, MapFields(fields, tags, true).value)
    decreases fields, 0
  {
    GoodKeysRename(fields);
    MapFieldsShape(fields, tags, true);
    forall i | 0 <= i < |fields|
      ensures ValueReturns(fields[i].value, Lookup(tags, fields[i].key), tags)
    {
      ValueRoundTrip(fields[i].value, Lookup(tags, fields[i].key), tags);
    }
    assert forall i :: 0 <= i < |fields| ==> ValueReturns(fields[i].value, KeyTag(fields[i].key, tags, true), tags);
    FieldsComeBack(fields, tags, MapFields(fields, tags, true).value);
  }

  /** A value can be converted, and comes back exactly when it is in range. */
  ghost predicate ValueReturns(v: Value, tag: Tag, parent: Tag) {
    var amino := MapValue(v, tag, parent, true);
    amino.Done? && (MapValue(amino.value, tag, parent, false) == Done(v) <==> InRange(v, tag, parent))
  }

  lemma FieldsComeBack(fields: seq<Field>, tags: Tag, r: seq<Field>)
    requires GoodKeys(fields) && ConvertedTo(fields, tags, true, r)
    requires forall i :: 0 <= i < |fields| ==> ValueReturns(fields[i].value, Lookup(tags, fields[i].key), tags)
    ensures ReturnsExactly(fields, tags, r)
  {
    GoodKeysRename(fields);
    assert forall i :: 0 <= i < |r| ==> AltKey(r[i].key, false) == fields[i].key;
    MapFieldsShape(r, tags, false);
    forall i | 0 <= i < |fields|
      ensures ValueAt(r, i, tags, false) == Done(fields[i].value) <==> InRange(fields[i].value, Lookup(tags, fields[i].key), tags)
    {
      assert ValueAt(fields, i, tags, true) == Done(r[i].value);
      assert ValueReturns(fields[i].value, Lookup(tags, fields[i].key), tags);
    }
    var back := MapFields(r, tags, false);
    if FieldsInRange(fields, tags) {
      assert forall i :: 0 <= i < |fields| ==> InRange(fields[i].value, Lookup(tags, fields[i].key), tags);
      forall i | 0 <= i < |fields|
        ensures back.value[i] == fields[i]
      {
        assert ValueAt(r, i, tags, false) == Done(back.value[i].value);
      }
      assert back.value == fields;
    }
    if back == Done(fields) {
      forall i | 0 <= i < |fields|
        ensures InRange(fields[i].value, Lookup(tags, fields[i].key), tags)
      {
        assert ValueAt(r, i, tags, false) == Done(back.value[i].value);
      }
    }
  }

  lemma {:induction false} ItemRoundTrip(v: Value, tags: Tag)
    requires TypedItem(v, tags)
    ensures MapEachIndiv(v, tags, true).Done? && MapEachIndiv(v, tags, true).value.Struct?
    ensures MapEachIndiv(MapEachIndiv(v, tags, true).value, tags, false) == Done(v) <==> ItemInRange(v, tags)
    decreases v, 1
  {
    FieldsRoundTrip(v.fields, tags);
    ItemIsObject(v.fields, tags, true);
    ItemIsObject(MapFields(v.fields, tags, true).value, tags, false);
  }

  lemma ItemIsObject(fields: seq<Field>, tags: Tag, toAmino: bool)
    ensures MapEachIndiv(Struct(fields), tags, toAmino) == AsStruct(MapFields(fields, tags, toAmino))
  {
  }

  function AsStruct(r: Outcome<seq<Field>>): Outcome<Value> {
    if r.Done? then Done(Struct(r.value)) else r.PropagateFailure()
  }

  function AsArr(r: Outcome<seq<Value>>): Outcome<Value> {
    if r.Done? then Done(Arr(r.value)) else r.PropagateFailure()
  }

  lemma ObjectIsMapped(fields: seq<Field>, tag: Tag, parent: Tag, toAmino: bool)
    requires !HasKey(fields, "length") && !DurationShaped(fields)
    ensures MapValue(Struct(fields), tag, parent, toAmino) == AsStruct(MapFields(fields, tag, toAmino))
  {
    ItemIsObject(fields, tag, toAmino);
  }

  lemma ArrayIsMapped(items: seq<Value>, tag: Tag, parent: Tag, toAmino: bool)
    requires !AllText(items)
    ensures MapValue(Arr(items), tag, parent, toAmino) == AsArr(MapItems(items, parent, toAmino))
  {
  }

  lemma {:induction false} ValueRoundTrip(v: Value, tag: Tag, parent: Tag)
    requires TypedValue(v, tag, parent)
    ensures ValueReturns(v, tag, parent)
    decreases v, 2
  {
    match v
    case Arr(items) =>
      if !AllText(items) {
        forall i | 0 <= i < |items|
          ensures ItemReturns(items[i], parent)
        {
          ItemRoundTrip(items[i], parent);
        }
      }
      ArrayReturns(items, tag, parent);
    case Struct(fields) =>
      if DurationShaped(fields) {
        DurationReturns(fields, tag, parent);
      } else {
        FieldsRoundTrip(fields, tag);
        ObjectReturns(fields, tag, parent);
      }
    case _ =>
      LeafReturns(v, tag, parent);
  }

  lemma LeafReturns(v: Value, tag: Tag, parent: Tag)
    requires TypedLeaf(v, tag)
    ensures ValueReturns(v, tag, parent)
  {
    LeafRoundTrip(v, tag);
    var amino := ParamConverter(v, tag, true).value;
    assert MapValue(v, tag, parent, true) == Done(amino);
    if amino.Null? {
      assert MapValue(amino, tag, parent, false) == TypeError;
    } else {
      assert MapValue(amino, tag, parent, false) == ParamConverter(amino, tag, false);
    }
  }

  lemma DurationReturns(fields: seq<Field>, tag: Tag, parent: Tag)
    requires DurationShaped(fields) && TypedValue(Struct(fields), tag, parent)
    ensures ValueReturns(Struct(fields), tag, parent)
  {
    if tag == Leaf(AsDuration) {
      DurationRoundTrip(fields);
    }
  }

  lemma ObjectReturns(fields: seq<Field>, tag: Tag, parent: Tag)
    requires !DurationShaped(fields) && TypedValue(Struct(fields), tag, parent)
    requires MapFields(fields, tag, true).Done? && ReturnsExactly(fields, tag, MapFields(fields, tag, true).value)
    ensures ValueReturns(Struct(fields), tag, parent)
  {
    var r := MapFields(fields, tag, true).value;
    AminoObjectIsOrdinary(fields, tag, r);
    ObjectIsMapped(fields, tag, parent, true);
    ObjectIsMapped(r, tag, parent, false);
    ObjectInRange(fields, tag, parent);
  }

  lemma ObjectInRange(fields: seq<Field>, tag: Tag, parent: Tag)
    requires !DurationShaped(fields)
    ensures InRange(Struct(fields), tag, parent) <==> FieldsInRange(fields, tag)
  {
  }

  lemma ArrayReturns(items: seq<Value>, tag: Tag, parent: Tag)
    requires AllText(items) || forall i :: 0 <= i < |items| ==> ItemReturns(items[i], parent)
    ensures ValueReturns(Arr(items), tag, parent)
  {
    if AllText(items) {
      assert MapValue(Arr(items), tag, parent, true) == Done(Arr(items));
    } else {
      ObjectArrayReturns(items, tag, parent);
    }
  }

  lemma ObjectArrayReturns(items: seq<Value>, tag: Tag, parent: Tag)
    requires !AllText(items) && forall i :: 0 <= i < |items| ==> ItemReturns(items[i], parent)
    ensures ValueReturns(Arr(items), tag, parent)
  {
    ItemsComeBack(items, parent);
    var r := MapItems(items, parent, true).value;
    assert !AllText(r) by {
      assert r[0].Struct?;
    }
    ArrayIsMapped(items, tag, parent, true);
    ArrayIsMapped(r, tag, parent, false);
    ArrayInRange(items, tag, parent);
  }

  lemma ArrayInRange(items: seq<Value>, tag: Tag, parent: Tag)
    requires !AllText(items)
    ensures InRange(Arr(items), tag, parent) <==> forall i :: 0 <= i < |items| ==> ItemInRange(items[i], parent)
  {
  }

  ghost predicate ItemReturns(v: Value, tags: Tag) {
    var amino := MapEachIndiv(v, tags, true);
    && amino.Done? && amino.value.Struct?
    && (MapEachIndiv(amino.value, tags, false) == Done(v) <==> ItemInRange(v, tags))
  }

  lemma ItemsComeBack(items: seq<Value>, tags: Tag)
    requires forall i :: 0 <= i < |items| ==> ItemReturns(items[i], tags)
    ensures MapItems(items, tags, true).Done? && |MapItems(items, tags, true).value| == |items|
    ensures forall i :: 0 <= i < |items| ==> MapItems(items, tags, true).value[i].Struct?
    ensures MapItems(MapItems(items, tags, true).value, tags, false) == Done(items) <==>
            forall i :: 0 <= i < |items| ==> ItemInRange(items[i], tags)
  {
    MapItemsShape(items, tags, true);
    var r := MapItems(items, tags, true).value;
    forall i | 0 <= i < |items|
      ensures r[i].Struct? && (MapEachIndiv(r[i], tags, false) == Done(items[i]) <==> ItemInRange(items[i], tags))
    {
      assert ItemReturns(items[i], tags) && MapEachIndiv(items[i], tags, true) == Done(r[i]);
    }
    MapItemsShape(r, tags, false);
    var back := MapItems(r, tags, false);
    if forall i :: 0 <= i < |items| ==> ItemInRange(items[i], tags) {
      forall i | 0 <= i < |items|
        ensures back.value[i] == items[i]
      {
        assert MapEachIndiv(r[i], tags, false) == Done(back.value[i]);
      }
      assert back.value == items;
    }
    if back == Done(items) {
      forall i | 0 <= i < |items|
        ensures ItemInRange(items[i], tags)
      {
        assert MapEachIndiv(r[i], tags, false) == Done(back.value[i]);
      }
    }
  }

  /** A key without capital letters is its own Amino key, and of no other good key. */
  lemma OnlyKey(key: string, plain: string)
    requires GoodKey(key) && plain in {"length", "seconds", "nanos"}
    ensures CamelToSnake(key) == plain ==> key == plain
  {
    assert Ascii("length") && '_' !in "length";
    assert Ascii("seconds") && '_' !in "seconds";
    assert Ascii("nanos") && '_' !in "nanos";
    KeyRoundTrip(key);
  }

  /** The Amino form of an object that is not a duration is not taken for a duration or an array. */
  lemma AminoObjectIsOrdinary(fields: seq<Field>, tags: Tag, r: seq<Field>)
    requires GoodKeys(fields) && ConvertedTo(fields, tags, true, r)
    ensures !HasKey(fields, "length") && !HasKey(r, "length")
    ensures !(HasKey(fields, "seconds") && HasKey(fields, "nanos")) ==> !DurationShaped(r)
  {
    forall i | 0 <= i < |r|
      ensures r[i].key != "length"
      ensures r[i].key == "seconds" ==> fields[i].key == "seconds"
      ensures r[i].key == "nanos" ==> fields[i].key == "nanos"
    {
      OnlyKey(fields[i].key, "length");
      OnlyKey(fields[i].key, "seconds");
      OnlyKey(fields[i].key, "nanos");
    }
  }

  // ----- messages -----

  /** A field of a message that is kept, with the tag of its key: a truthy tagged scalar, an object or a non-empty array of objects. */
  ghost predicate TypedTop(v: Value, tag: Tag) {
    !Falsy(v) &&
    match v
    case Arr(items) => items != [] && forall i :: 0 <= i < |items| ==> TypedItem(items[i], tag)
    case Struct(fields) => TypedFields(fields, tag)
    case Long(_) => TypedLeaf(v, tag) && tag.Leaf?
    case Numeral(r, _) => TypedLeaf(v, tag) && (tag == Leaf(AsDec) ==> r != 0.0)
    case Bytes(_) => false
    case Big(_) => false
    case _ => TypedLeaf(v, tag)
  }

  /** A field that `toAmino` drops: a falsy value, or a decimal that is zero. */
  predicate Dropped(v: Value, tag: Tag) {
    Falsy(v) || (v.Numeral? && tag == Leaf(AsDec) && v.value == 0.0)
  }

  /** A field is typed, or dropped. */
  ghost predicate TypedOrDropped(f: Field, tags: Tag) {
    TypedTop(f.value, Lookup(tags, f.key)) || Dropped(f.value, Lookup(tags, f.key))
  }

  ghost predicate TopInRange(v: Value, tag: Tag) {
    !Dropped(v, tag) &&
    match v
    case Arr(items) => forall i :: 0 <= i < |items| ==> ItemInRange(items[i], tag)
    case Struct(fields) => FieldsInRange(fields, tag)
    case _ => LeafInRange(v, tag)
  }

  /** The tags of a message type: their keys are camelCase. */
  ghost predicate WellKeyed(tags: Tag) {
    tags.Node? && forall key :: key in tags.tags ==> '_' !in key
  }

  ghost predicate TypedMessage(fields: seq<Field>, tags: Tag) {
    && WellKeyed(tags) && GoodKeys(fields)
    && forall i :: 0 <= i < |fields| ==> TypedOrDropped(fields[i], tags)
  }

  /** Every field is kept and in range. */
  ghost predicate MessageInRange(fields: seq<Field>, tags: Tag) {
    forall i :: 0 <= i < |fields| ==> TopInRange(fields[i].value, Lookup(tags, fields[i].key))
  }

  /** The conversion of one top-level value. */
  function ConvertTop(v: Value, tag: Tag, toAmino: bool): Outcome<Value> {
    if TypeCheck(v) || !IsObject(v) then ParamConverter(v, tag, toAmino) else ConvertNested(v, tag, toAmino)
  }

  /** A top-level value can be converted, to something that is kept, and comes back exactly when it is in range. */
  ghost predicate TopReturns(v: Value, tag: Tag) {
    var amino := ConvertTop(v, tag, true);
    && amino.Done? && !amino.value.Null? && !TypeCheck(amino.value)
    && (IsObject(amino.value) <==> v.Arr? || v.Struct?)
    && (var back := ConvertTop(amino.value, tag, false);
        (back.Done? ==> !back.value.Null?) && (back == Done(v) <==> TopInRange(v, tag)))
  }

  lemma TopRoundTrip(v: Value, tag: Tag)
    requires TypedTop(v, tag)
    ensures TopReturns(v, tag)
  {
    match v
    case Arr(items) =>
      forall i | 0 <= i < |items|
        ensures ItemReturns(items[i], tag)
      {
        ItemRoundTrip(items[i], tag);
      }
      TopArrayReturns(items, tag);
    case Struct(fields) =>
      TopObjectReturns(fields, tag);
    case _ =>
      TopLeafReturns(v, tag);
  }

  lemma TopLeafReturns(v: Value, tag: Tag)
    requires TypedTop(v, tag) && IsLeaf(v)
    ensures TopReturns(v, tag)
  {
    LeafRoundTrip(v, tag);
  }

  lemma TopObjectReturns(fields: seq<Field>, tag: Tag)
    requires TypedFields(fields, tag)
    ensures TopReturns(Struct(fields), tag)
  {
    FieldsRoundTrip(fields, tag);
    var r := MapFields(fields, tag, true).value;
    AminoObjectIsOrdinary(fields, tag, r);
    ConvertTopObject(fields, tag, true);
    ConvertTopObject(r, tag, false);
    ObjectReturnsAs(fields, r, tag, MapFields(r, tag, false));
  }

  lemma ConvertTopObject(fields: seq<Field>, tag: Tag, toAmino: bool)
    requires !HasKey(fields, "length")
    ensures var mapped := MapFields(fields, tag, toAmino);
            ConvertTop(Struct(fields), tag, toAmino) ==
            if mapped.Done? then Done(Struct(mapped.value)) else mapped.PropagateFailure()
  {
  }

  lemma ObjectReturnsAs(fields: seq<Field>, r: seq<Field>, tag: Tag, back: Outcome<seq<Field>>)
    requires ConvertTop(Struct(fields), tag, true) == Done(Struct(r))
    requires ConvertTop(Struct(r), tag, false) == if back.Done? then Done(Struct(back.value)) else back.PropagateFailure()
    requires back == Done(fields) <==> FieldsInRange(fields, tag)
    ensures TopReturns(Struct(fields), tag)
  {
  }

  lemma ConvertTopArray(items: seq<Value>, tag: Tag, toAmino: bool)
    requires items != []
    ensures var mapped := MapItems(items, tag, toAmino);
            ConvertTop(Arr(items), tag, toAmino) == if mapped.Done? then Done(Arr(mapped.value)) else mapped.PropagateFailure()
  {
  }

  lemma TopArrayReturns(items: seq<Value>, tag: Tag)
    requires items != [] && forall i :: 0 <= i < |items| ==> ItemReturns(items[i], tag)
    ensures TopReturns(Arr(items), tag)
  {
    ItemsComeBack(items, tag);
    var r := MapItems(items, tag, true).value;
    ConvertTopArray(items, tag, true);
    ConvertTopArray(r, tag, false);
    ArrayReturnsAs(items, r, tag, MapItems(r, tag, false));
  }

  lemma ArrayReturnsAs(items: seq<Value>, r: seq<Value>, tag: Tag, back: Outcome<seq<Value>>)
    requires ConvertTop(Arr(items), tag, true) == Done(Arr(r))
    requires ConvertTop(Arr(r), tag, false) == if back.Done? then Done(Arr(back.value)) else back.PropagateFailure()
    requires back == Done(items) <==> forall i :: 0 <= i < |items| ==> ItemInRange(items[i], tag)
    ensures TopReturns(Arr(items), tag)
  {
  }

  /** The loops of `toAmino` and `fromAmino` when every value is converted and kept. */
  ghost predicate TopConvertedTo(fields: seq<Field>, tags: Tag, toAmino: bool, r: seq<Field>) {
    && |r| == |fields|
    && forall i :: 0 <= i < |fields| ==> ConvertedField(fields[i], tags, toAmino, r[i])
  }

  ghost predicate ConvertedField(f: Field, tags: Tag, toAmino: bool, r: Field) {
    && ConvertTop(f.value, KeyTag(f.key, tags, toAmino), toAmino) == Done(r.value)
    && r.key == AltKey(f.key, toAmino)
  }

  lemma TopConvertedSnoc(fields: seq<Field>, tags: Tag, toAmino: bool, before: seq<Field>, value: Value)
    requires fields != [] && DistinctAltKeys(fields, toAmino)
    requires TopConvertedTo(fields[..|fields| - 1], tags, toAmino, before)
    requires ConvertTop(Last(fields).value, KeyTag(Last(fields).key, tags, toAmino), toAmino) == Done(value)
    ensures TopConvertedTo(fields, tags, toAmino, Put(before, AltKey(Last(fields).key, toAmino), value))
  {
    var n := |fields| - 1;
    forall i | 0 <= i < n
      ensures ConvertedField(fields[i], tags, toAmino, before[i])
    {
      assert fields[..n][i] == fields[i];
    }
    NewAltKey(fields, toAmino, before, AltKey(Last(fields).key, toAmino), value);
  }

  lemma {:induction false} ToAminoShape(fields: seq<Field>, tags: Tag)
    requires DistinctAltKeys(fields, true)
    requires forall i :: 0 <= i < |fields| ==> TypedTop(fields[i].value, Lookup(tags, fields[i].key))
    ensures ToAmino(fields, tags).Done? && TopConvertedTo(fields, tags, true, ToAmino(fields, tags).value)
  {
    if fields == [] {
    } else {
      var n := |fields| - 1;
      ToAminoShape(fields[..n], tags);
      TopRoundTrip(fields[n].value, Lookup(tags, fields[n].key));
      AddAminoConverts(ToAmino(fields[..n], tags).value, fields[n], tags);
      TopConvertedSnoc(fields, tags, true, ToAmino(fields[..n], tags).value,
                       ConvertTop(fields[n].value, Lookup(tags, fields[n].key), true).value);
    }
  }

  lemma AddAminoConverts(done: seq<Field>, f: Field, tags: Tag)
    requires TypedTop(f.value, Lookup(tags, f.key)) && TopReturns(f.value, Lookup(tags, f.key))
    ensures AddAmino(done, f, tags) ==
            Done(Put(done, CamelToSnake(f.key), ConvertTop(f.value, Lookup(tags, f.key), true).value))
  {
  }

  /** A field on its way back: the raw key never finds a nested map that its own key does not have. */
  ghost predicate ComesFrom(w: Field, f: Field, tags: Tag) {
    && w.key == CamelToSnake(f.key) && SnakeToCamel(w.key) == f.key
    && ConvertTop(f.value, Lookup(tags, f.key), true) == Done(w.value)
    && TypedTop(f.value, Lookup(tags, f.key)) && TopReturns(f.value, Lookup(tags, f.key))
  }

  lemma AddDirectConverts(done: seq<Field>, w: Field, f: Field, tags: Tag)
    requires WellKeyed(tags) && GoodKey(f.key) && ComesFrom(w, f, tags)
    ensures var back := ConvertTop(w.value, Lookup(tags, f.key), false);
            AddDirect(done, w, tags) == if back.Done? then Done(Put(done, f.key, back.value)) else back.PropagateFailure()
  {
    if w.key != f.key {
      RenamedKeyHasUnderscore(f.key);
      assert Lookup(tags, w.key).Absent?;
    }
    if !IsObject(w.value) {
      assert !Lookup(tags, f.key).Node?;
    }
  }

  lemma RenamedKeyHasUnderscore(key: string)
    requires GoodKey(key) && CamelToSnake(key) != key
    ensures '_' in CamelToSnake(key)
  {
    KeyRoundTrip(key);
  }

  lemma {:induction false} FromAminoShape(r: seq<Field>, fields: seq<Field>, tags: Tag)
    requires |r| == |fields| && WellKeyed(tags) && DistinctAltKeys(r, false)
    requires forall i :: 0 <= i < |r| ==> GoodKey(fields[i].key) && ComesFrom(r[i], fields[i], tags)
    ensures var back := FromAmino(r, tags);
            && (back.Done? <==> forall i :: 0 <= i < |r| ==> ConvertTop(r[i].value, Lookup(tags, fields[i].key), false).Done?)
            && (back.Done? ==> TopConvertedTo(r, tags, false, back.value))
  {
    if r == [] {
    } else {
      var n := |r| - 1;
      FromAminoShape(r[..n], fields[..n], tags);
      var before := FromAmino(r[..n], tags);
      var value := ConvertTop(r[n].value, Lookup(tags, fields[n].key), false);
      if before.Done? {
        AddDirectConverts(before.value, r[n], fields[n], tags);
        if value.Done? {
          TopConvertedSnoc(r, tags, false, before.value, value.value);
        }
      }
    }
  }

  // ----- dropped fields -----

  lemma {:induction false} PutLength(fields: seq<Field>, key: string, value: Value)
    ensures |Put(fields, key, value)| <= |fields| + 1
  {
    if fields == [] || fields[0].key == key {
    } else {
      PutLength(fields[1..], key, value);
    }
  }

  lemma {:induction false} DeleteLength(fields: seq<Field>, key: string)
    ensures |Delete(fields, key)| <= |fields|
  {
    if fields == [] {
    } else {
      DeleteLength(fields[1..], key);
    }
  }

  lemma DroppedAddsNothing(done: seq<Field>, f: Field, tags: Tag)
    requires Dropped(f.value, Lookup(tags, f.key))
    ensures AddAmino(done, f, tags).Done? && |AddAmino(done, f, tags).value| <= |done|
  {
    DeleteLength(done, CamelToSnake(f.key));
  }

  lemma KeptAddsOne(done: seq<Field>, f: Field, tags: Tag)
    requires TypedTop(f.value, Lookup(tags, f.key))
    ensures AddAmino(done, f, tags).Done? && |AddAmino(done, f, tags).value| <= |done| + 1
  {
    TopRoundTrip(f.value, Lookup(tags, f.key));
    AddAminoConverts(done, f, tags);
    PutLength(done, CamelToSnake(f.key), ConvertTop(f.value, Lookup(tags, f.key), true).value);
  }

  predicate DropsOne(fields: seq<Field>, tags: Tag) {
    exists i :: 0 <= i < |fields| && Dropped(fields[i].value, Lookup(tags, fields[i].key))
  }

  /** The Amino form of a message has fewer fields if one is dropped. */
  lemma {:induction false} ToAminoDrops(fields: seq<Field>, tags: Tag)
    requires forall i :: 0 <= i < |fields| ==> TypedOrDropped(fields[i], tags)
    ensures ToAmino(fields, tags).Done? && |ToAmino(fields, tags).value| <= |fields|
    ensures DropsOne(fields, tags) ==> |ToAmino(fields, tags).value| < |fields|
  {
    if fields == [] {
    } else {
      var n := |fields| - 1;
      var front, f := fields[..n], fields[n];
      ToAminoDrops(front, tags);
      var done := ToAmino(front, tags).value;
      assert ToAmino(fields, tags) == AddAmino(done, f, tags);
      if DropsOne(fields, tags) {
        DropsFrontOrLast(fields, tags);
      }
      if Dropped(f.value, Lookup(tags, f.key)) {
        DroppedAddsNothing(done, f, tags);
      } else {
        assert TypedOrDropped(f, tags);
        KeptAddsOne(done, f, tags);
      }
    }
  }

  lemma DropsFrontOrLast(fields: seq<Field>, tags: Tag)
    requires fields != [] && DropsOne(fields, tags)
    ensures DropsOne(fields[..|fields| - 1], tags) || Dropped(Last(fields).value, Lookup(tags, Last(fields).key))
  {
    var i :| 0 <= i < |fields| && Dropped(fields[i].value, Lookup(tags, fields[i].key));
    assert i < |fields| - 1 ==> fields[..|fields| - 1][i] == fields[i];
  }

  lemma AddDirectLength(done: seq<Field>, f: Field, tags: Tag)
    ensures AddDirect(done, f, tags).Done? ==> |AddDirect(done, f, tags).value| <= |done| + 1
  {
    var r := AddDirect(done, f, tags);
    if r.Done? {
      var camelKey := SnakeToCamel(f.key);
      DeleteLength(done, camelKey);
      forall value: Value
        ensures |Put(done, camelKey, value)| <= |done| + 1
      {
        PutLength(done, camelKey, value);
      }
    }
  }

  /** On the way back no fields appear. */
  lemma {:induction false} FromAminoLength(fields: seq<Field>, tags: Tag)
    ensures FromAmino(fields, tags).Done? ==> |FromAmino(fields, tags).value| <= |fields|
  {
    if fields == [] {
    } else {
      var n := |fields| - 1;
      FromAminoLength(fields[..n], tags);
      if FromAmino(fields[..n], tags).Done? {
        AddDirectLength(FromAmino(fields[..n], tags).value, fields[n], tags);
      }
    }
  }

  /**
   * The round trip: every well-typed message can be converted to Amino form, and converting
   * that back gives the message itself exactly when no field is dropped and every leaf is in the
   * range of its conversion. On the way no two keys collide.
   */
  lemma MessageRoundTrip(fields: seq<Field>, tags: Tag)
    requires TypedMessage(fields, tags)
    ensures ToAmino(fields, tags).Done?
    ensures FromAmino(ToAmino(fields, tags).value, tags) == Done(fields) <==> MessageInRange(fields, tags)
  {
    ToAminoDrops(fields, tags);
    if DropsOne(fields, tags) {
      var i :| 0 <= i < |fields| && Dropped(fields[i].value, Lookup(tags, fields[i].key));
      FromAminoLength(ToAmino(fields, tags).value, tags);
      assert !TopInRange(fields[i].value, Lookup(tags, fields[i].key));
    } else {
      assert forall i :: 0 <= i < |fields| ==> TypedOrDropped(fields[i], tags);
      KeptRoundTrip(fields, tags);
    }
  }

  lemma KeptRoundTrip(fields: seq<Field>, tags: Tag)
    requires WellKeyed(tags) && GoodKeys(fields)
    requires forall i :: 0 <= i < |fields| ==> TypedTop(fields[i].value, Lookup(tags, fields[i].key))
    ensures ToAmino(fields, tags).Done?
    ensures FromAmino(ToAmino(fields, tags).value, tags) == Done(fields) <==> MessageInRange(fields, tags)
  {
    GoodKeysRename(fields);
    ToAminoShape(fields, tags);
    var r := ToAmino(fields, tags).value;
    forall i | 0 <= i < |fields|
      ensures ComesFrom(r[i], fields[i], tags)
    {
      TopRoundTrip(fields[i].value, Lookup(tags, fields[i].key));
    }
    assert forall i :: 0 <= i < |r| ==> AltKey(r[i].key, false) == fields[i].key;
    FromAminoShape(r, fields, tags);
    MessageComesBack(fields, tags, r);
  }

  lemma MessageComesBack(fields: seq<Field>, tags: Tag, r: seq<Field>)
    requires |r| == |fields| && forall i :: 0 <= i < |r| ==> ComesFrom(r[i], fields[i], tags)
    requires var back := FromAmino(r, tags);
             && (back.Done? <==> forall i :: 0 <= i < |r| ==> ConvertTop(r[i].value, Lookup(tags, fields[i].key), false).Done?)
             && (back.Done? ==> TopConvertedTo(r, tags, false, back.value))
    ensures FromAmino(r, tags) == Done(fields) <==> MessageInRange(fields, tags)
  {
    var back := FromAmino(r, tags);
    forall i | 0 <= i < |fields|
      ensures ConvertTop(r[i].value, Lookup(tags, fields[i].key), false) == Done(fields[i].value) <==>
              TopInRange(fields[i].value, Lookup(tags, fields[i].key))
    {
      assert ComesFrom(r[i], fields[i], tags);
    }
    if MessageInRange(fields, tags) {
      forall i | 0 <= i < |fields|
        ensures back.value[i] == fields[i]
      {
        assert ComesFrom(r[i], fields[i], tags);
      }
      assert back.value == fields;
    }
    if back == Done(fields) {
      forall i | 0 <= i < |fields|
        ensures TopInRange(fields[i].value, Lookup(tags, fields[i].key))
      {
        assert ComesFrom(r[i], fields[i], tags);
      }
    }
  }
}
