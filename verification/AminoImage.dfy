/**
 * What the Amino form of a message says: each field is there under its renamed key, in order,
 * and its Amino form denotes the same number, time or duration as the field.
 */
module AminoImage {
  import opened Basics
  import opened KeyCase
  import opened Amino
  import opened AminoRoundTrip

  // ----- doubles -----

  predicate PowerOfTwo(unit: nat) {
    unit == 1 || (unit > 1 && unit % 2 == 0 && PowerOfTwo(unit / 2))
  }

  /** x is q times unit and nearest to n among the multiples, the even one of two that are equally near. */
  predicate NearestMultiple(x: int, q: nat, n: nat, unit: nat) {
    x == q * unit && -(unit as int) <= 2 * (x - n) <= unit && (2 * (x - n) in {-(unit as int), unit as int} ==> q % 2 == 0)
  }

  /** The distance of doubles around n: at most 53 bits come before it. */
  predicate IsUnit(n: nat, unit: nat) {
    PowerOfTwo(unit) && n < TWO_53 * unit && (unit == 1 || TWO_53 / 2 * unit <= n)
  }

  lemma RoundToIsNearest(n: nat, unit: nat, q: nat, r: nat)
    requires unit > 0 && q == n / unit && r == n % unit
    ensures NearestMultiple(RoundTo(n, unit), q, n, unit) || NearestMultiple(RoundTo(n, unit), q + 1, n, unit)
  {
    assert n == q * unit + r;
    assert (q + 1) * unit == q * unit + unit;
  }

  lemma {:induction false} NearestFrom(n: nat, unit: nat) returns (u: nat, q: nat)
    requires PowerOfTwo(unit) && (unit == 1 || TWO_53 / 2 * unit <= n)
    ensures IsUnit(n, u) && NearestMultiple(NearestDouble(n, unit), q, n, u)
    decreases if unit <= n then n - unit else 0
  {
    if n < TWO_53 * unit {
      RoundToIsNearest(n, unit, n / unit, n % unit);
      u, q := unit, if NearestMultiple(RoundTo(n, unit), n / unit, n, unit) then n / unit else n / unit + 1;
    } else {
      assert 2 * unit % 2 == 0 && 2 * unit / 2 == unit;
      u, q := NearestFrom(n, 2 * unit);
    }
  }

  /** Numbers are converted to the nearest multiple of the distance of doubles there, ties to even. */
  lemma DoubleIsNearest(n: nat)
    ensures exists unit, q :: IsUnit(n, unit) && NearestMultiple(ToDouble(n), q, n, unit)
    ensures ToDouble(0 - n) == -ToDouble(n)
  {
    var unit, q := NearestFrom(n, 1);
    assert NearestMultiple(ToDouble(n), q, n, unit);
  }

  // ----- leaves -----

  /** A numeral in BigNumber's own text. */
  predicate Denotes(a: Value, number: real) {
    a.Numeral? && a.canonical && a.value == number
  }

  /** The Amino form of a scalar: the same value in another type, or the scalar itself. */
  predicate LeafImage(v: Value, tag: Tag, a: Value) {
    match v
    case Numeral(r, _) => if !tag.Leaf? then a == v else if tag == Leaf(AsDec) && r == 0.0 then a == Null else Denotes(a, r)
    case Long(x) =>
      if tag == Leaf(AsLong) then Denotes(a, x as real)
      else if tag == Leaf(AsLongToNum) then a == Num(ToDouble(x))
      else a == v
    case Num(n) => if tag == Leaf(AsNumToStr) && n != 0 then Denotes(a, n as real) else a == v
    case Date(ms) => if tag == Leaf(AsDate) then a == DateText(ms) else a.Num? && WholeSeconds(ms, a.n)
    case _ => a == v
  }

  /** The whole seconds of a time in milliseconds, towards zero. */
  predicate WholeSeconds(ms: int, seconds: int) {
    if ms >= 0 then seconds * 1000 <= ms < (seconds + 1) * 1000 else (seconds - 1) * 1000 < ms <= seconds * 1000
  }

  lemma LeafHasImage(v: Value, tag: Tag)
    requires TypedLeaf(v, tag)
    ensures var a := ParamConverter(v, tag, true);
            a.Done? && LeafImage(v, tag, a.value)
  {
    if v.Date? {
      TruncQuotient(v.time, 1000);
    }
  }

  /** Decimals are read from numbers, BigNumbers and numerals alike, in both directions. */
  lemma DecimalsAreRead(n: int, r: real, canonical: bool, toAmino: bool)
    requires n != 0 && r != 0.0
    ensures forall v, enc :: v in {Num(n), Big(n as real), Numeral(n as real, canonical)} && enc in {AsDec, AsDecOrZero} ==>
              ParamConverter(v, Leaf(enc), toAmino) == Done(Numeral(n as real, true))
    ensures forall v, enc :: v in {Big(r), Numeral(r, canonical)} && enc in {AsDec, AsDecOrZero} ==>
              ParamConverter(v, Leaf(enc), toAmino) == Done(Numeral(r, true))
    ensures forall v :: v in {Big(0.0), Numeral(0.0, canonical)} ==>
              ParamConverter(v, Leaf(AsDec), toAmino) == Done(Null) && ParamConverter(v, Leaf(AsDecOrZero), toAmino) == Done(Numeral(0.0, true))
  {
  }

  /** What Amino numbers, numerals and dates are read as: the same number mod 2^32, number or time. */
  lemma AminoIsRead(n: int, canonical: bool)
    requires n != 0
    ensures forall v :: v in {Num(n), Numeral(n as real, canonical)} ==>
              var x := if v.Num? then n else ToDouble(n);
              && ParamConverter(v, Leaf(AsNumToStr), false) == Done(Num(x))
              && exists y :: ParamConverter(v, Leaf(AsLong), false) == Done(Long(y)) && 0 <= y < TWO_32 && (x - y) % TWO_32 == 0
    ensures exists y :: ParamConverter(Num(n), Leaf(AsLongToNum), false) == Done(Long(y)) && 0 <= y < TWO_32 && (n - y) % TWO_32 == 0
    ensures forall v :: v in {DateText(n), Date(n), Num(n)} ==> ParamConverter(v, Leaf(AsDate), false) == Done(Date(n))
    ensures ParamConverter(Num(n), Leaf(AsDateToNum), false) == Done(Date(n * 1000))
    ensures forall enc :: enc in {AsLong, AsNumToStr} ==>
              ParamConverter(Numeral(n as real, canonical), Leaf(enc), true) == Done(Numeral(n as real, canonical))
  {
    assert (n as real).Floor == n;
    LowBits(n);
    LowBits(ToDouble(n));
    assert NewLong(n) == Long(n % TWO_32) && NewLong(ToDouble(n)) == Long(ToDouble(n) % TWO_32);
  }

  lemma LowBits(x: int)
    ensures 0 <= x % TWO_32 < TWO_32 && (x - x % TWO_32) % TWO_32 == 0
  {
    assert x == x / TWO_32 * TWO_32 + x % TWO_32;
  }

  /** Seconds and millionths, as one decimal numeral. */
  predicate DurationImage(fields: seq<Field>, a: Value) {
    && |fields| == 2 && fields[0].value.Long? && fields[1].value.Num? && a.Numeral? && a.canonical
    && a.value * 1000000.0 == (fields[0].value.v * 1000000 + fields[1].value.n) as real
  }

  lemma DurationHasImage(fields: seq<Field>)
    requires IsDuration(fields)
    ensures var a := ParamConverter(Struct(fields), Leaf(AsDuration), true);
            a.Done? && DurationImage(fields, a.value)
  {
    var s, n := fields[0].value.v as real, fields[1].value.n as real;
    MicroSum(n, s, (n / 1000000.0 + s) * 1000000.0);
  }

  lemma MicroSum(n: real, s: real, x: real)
    requires x == (n / 1000000.0 + s) * 1000000.0
    ensures x == s * 1000000.0 + n
  {
  }

  // ----- trees -----

  /** The Amino form of a property value; `tag` is that of its key, `parent` those of its object. */
  ghost predicate Image(v: Value, tag: Tag, parent: Tag, a: Value)
    decreases v
  {
    match v
    case Arr(items) =>
      if AllText(items) then a == v
      else a.Arr? && |a.items| == |items| && forall i :: 0 <= i < |items| ==> ItemImage(items[i], parent, a.items[i])
    case Struct(fields) =>
      if DurationShaped(fields) then (if tag.Leaf? then DurationImage(fields, a) else a == v)
      else
        && a.Struct? && |a.fields| == |fields|
        && forall i :: 0 <= i < |fields| ==>
             a.fields[i].key == CamelToSnake(fields[i].key) && Image(fields[i].value, Lookup(tag, fields[i].key), tag, a.fields[i].value)
    case _ => LeafImage(v, tag, a)
  }

  ghost predicate ItemImage(v: Value, tags: Tag, a: Value)
    decreases v
  {
    && v.Struct? && a.Struct? && |a.fields| == |v.fields|
    && forall i :: 0 <= i < |v.fields| ==>
         && a.fields[i].key == CamelToSnake(v.fields[i].key)
         && Image(v.fields[i].value, Lookup(tags, v.fields[i].key), tags, a.fields[i].value)
  }

  ghost predicate FieldsImage(fields: seq<Field>, tags: Tag, r: seq<Field>) {
    && |r| == |fields|
    && forall i :: 0 <= i < |fields| ==>
         && r[i].key == CamelToSnake(fields[i].key)
         && Image(fields[i].value, Lookup(tags, fields[i].key), tags, r[i].value)
  }

  lemma {:induction false} FieldsHaveImages(fields: seq<Field>, tags: Tag)
    requires TypedFields(fields, tags)
    ensures MapFields(fields, tags, true).Done? && FieldsImage(fields, tags, MapFields(fields, tags, true).value)
    decreases fields, 0
  {
    GoodKeysRename(fields);
    MapFieldsShape(fields, tags, true);
    forall i | 0 <= i < |fields|
      ensures ValueAt(fields, i, tags, true).Done? &&
              Image(fields[i].value, Lookup(tags, fields[i].key), tags, ValueAt(fields, i, tags, true).value)
    {
      ValueHasImage(fields[i].value, Lookup(tags, fields[i].key), tags);
    }
    var r := MapFields(fields, tags, true).value;
    forall i | 0 <= i < |fields|
      ensures r[i].key == CamelToSnake(fields[i].key) && Image(fields[i].value, Lookup(tags, fields[i].key), tags, r[i].value)
    {
      assert ValueAt(fields, i, tags, true) == Done(r[i].value);
    }
  }

  lemma {:induction false} ItemHasImage(v: Value, tags: Tag)
    requires TypedItem(v, tags)
    ensures MapEachIndiv(v, tags, true).Done? && ItemImage(v, tags, MapEachIndiv(v, tags, true).value)
    decreases v, 1
  {
    FieldsHaveImages(v.fields, tags);
    ItemIsObject(v.fields, tags, true);
  }

  lemma {:induction false} ValueHasImage(v: Value, tag: Tag, parent: Tag)
    requires TypedValue(v, tag, parent)
    ensures MapValue(v, tag, parent, true).Done? && Image(v, tag, parent, MapValue(v, tag, parent, true).value)
    decreases v, 2
  {
    match v
    case Arr(items) =>
      if !AllText(items) {
        forall i | 0 <= i < |items|
          ensures HasItemImage(items[i], parent)
        {
          ItemHasImage(items[i], parent);
        }
        ItemsHaveImages(items, parent);
        ArrayIsMapped(items, tag, parent, true);
      }
    case Struct(fields) =>
      if DurationShaped(fields) {
        NestedDurationHasImage(fields, tag, parent);
      } else {
        FieldsHaveImages(fields, tag);
        ObjectHasImage(fields, tag, parent);
      }
    case _ =>
      NestedLeafHasImage(v, tag, parent);
  }

  lemma NestedLeafHasImage(v: Value, tag: Tag, parent: Tag)
    requires TypedLeaf(v, tag)
    ensures MapValue(v, tag, parent, true).Done? && Image(v, tag, parent, MapValue(v, tag, parent, true).value)
  {
    LeafHasImage(v, tag);
  }

  lemma ObjectHasImage(fields: seq<Field>, tag: Tag, parent: Tag)
    requires !DurationShaped(fields) && TypedValue(Struct(fields), tag, parent)
    requires MapFields(fields, tag, true).Done? && FieldsImage(fields, tag, MapFields(fields, tag, true).value)
    ensures var a := MapValue(Struct(fields), tag, parent, true);
            a.Done? && Image(Struct(fields), tag, parent, a.value)
  {
    NoLength(fields);
    ObjectIsMapped(fields, tag, parent, true);
  }

  lemma NoLength(fields: seq<Field>)
    requires GoodKeys(fields)
    ensures !HasKey(fields, "length")
  {
  }

  /** Below the top level a date without a conversion is written as text; at the top it stays a date. */
  lemma UntaggedDates(ms: int, parent: Tag, f: Field)
    requires f.value == Date(ms) && Lookup(parent, f.key) == Absent
    ensures MapValue(f.value, Absent, parent, true) == Done(DateText(ms))
    ensures AddAmino([], f, parent) == Done([Field(CamelToSnake(f.key), Date(ms))])
  {
  }

  /** An empty list stays one on the way to Amino form; at the top level it comes back as an empty object. */
  lemma EmptyLists(key: string, tags: Tag, parent: Tag, toAmino: bool)
    requires '_' !in key && Lookup(tags, key) == Absent
    ensures MapValue(Arr([]), Lookup(tags, key), parent, toAmino) == Done(Arr([]))
    ensures AddAmino([], Field(key, Arr([])), tags) == Done([Field(CamelToSnake(key), Arr([]))])
    ensures AddDirect([], Field(key, Arr([])), tags) == Done([Field(key, Struct([]))])
  {
  }

  /** Falsy elements of a list stay as they are. */
  lemma FalsyItems(v: Value, tags: Tag, toAmino: bool)
    requires v in {Null, Str(""), Num(0), Bool(false)}
    ensures MapEachIndiv(v, tags, toAmino) == Done(v)
  {
  }

  /** An object with a `length` that is not falsy is taken for a list and throws; with a length of 0 it becomes the empty list. */
  lemma LengthKeys(v: Value, key: string, tags: Tag, parent: Tag, toAmino: bool)
    requires Lookup(tags, key) == Absent
    ensures var o := Struct([Field("length", v)]);
            && (!Falsy(v) ==> MapValue(o, Absent, parent, toAmino) == TypeError && AddAmino([], Field(key, o), tags) == TypeError)
            && (v == Num(0) ==>
                  MapValue(o, Absent, parent, toAmino) == Done(Arr([])) && AddAmino([], Field(key, o), tags) == Done([Field(CamelToSnake(key), Arr([]))]))
  {
    var fields := [Field("length", v)];
    assert fields[0].key == "length" && Property(fields, "length") == v;
    assert !DurationShaped(fields) by {
      assert "length" != "seconds";
    }
  }

  /** On the way back a decimal of zero is dropped. */
  lemma ZeroDecimalsAreDropped(key: string, canonical: bool, tags: Tag)
    requires '_' !in key && Lookup(tags, key) == Leaf(AsDec)
    ensures AddDirect([], Field(key, Numeral(0.0, canonical)), tags) == Done([])
  {
  }

  lemma NestedDurationHasImage(fields: seq<Field>, tag: Tag, parent: Tag)
    requires DurationShaped(fields) && TypedValue(Struct(fields), tag, parent)
    ensures var a := MapValue(Struct(fields), tag, parent, true);
            a.Done? && Image(Struct(fields), tag, parent, a.value)
  {
    if tag.Leaf? {
      DurationHasImage(fields);
    }
  }

  ghost predicate HasItemImage(v: Value, tags: Tag) {
    MapEachIndiv(v, tags, true).Done? && ItemImage(v, tags, MapEachIndiv(v, tags, true).value)
  }

  lemma ItemsHaveImages(items: seq<Value>, tags: Tag)
    requires forall i :: 0 <= i < |items| ==> HasItemImage(items[i], tags)
    ensures var r := MapItems(items, tags, true);
            && r.Done? && |r.value| == |items|
            && forall i :: 0 <= i < |items| ==> ItemImage(items[i], tags, r.value[i])
  {
    MapItemsShape(items, tags, true);
    var r := MapItems(items, tags, true).value;
    forall i | 0 <= i < |items|
      ensures ItemImage(items[i], tags, r[i])
    {
      assert HasItemImage(items[i], tags) && MapEachIndiv(items[i], tags, true) == Done(r[i]);
    }
  }

  // ----- messages -----

  /** The fields that are kept. */
  function Kept(fields: seq<Field>, tags: Tag): seq<Field> {
    if fields == [] then []
    else
      var before := Kept(Init(fields), tags);
      if Dropped(Last(fields).value, Lookup(tags, Last(fields).key)) then before else before + [Last(fields)]
  }

  /** The Amino form of a top-level value: the tags of its own key hold inside arrays too. */
  ghost predicate TopImage(v: Value, tag: Tag, a: Value) {
    match v
    case Arr(items) => a.Arr? && |a.items| == |items| && forall i :: 0 <= i < |items| ==> ItemImage(items[i], tag, a.items[i])
    case Struct(fields) => ItemImage(v, tag, a)
    case _ => LeafImage(v, tag, a)
  }

  lemma TopHasImage(v: Value, tag: Tag)
    requires TypedTop(v, tag)
    ensures ConvertTop(v, tag, true).Done? && TopImage(v, tag, ConvertTop(v, tag, true).value)
  {
    match v
    case Arr(items) =>
      forall i | 0 <= i < |items|
        ensures HasItemImage(items[i], tag)
      {
        ItemHasImage(items[i], tag);
      }
      ItemsHaveImages(items, tag);
      ConvertTopArray(items, tag, true);
    case Struct(fields) =>
      TopObjectHasImage(fields, tag);
    case _ =>
      TopLeafHasImage(v, tag);
  }

  lemma TopObjectHasImage(fields: seq<Field>, tag: Tag)
    requires TypedFields(fields, tag)
    ensures ConvertTop(Struct(fields), tag, true).Done? && TopImage(Struct(fields), tag, ConvertTop(Struct(fields), tag, true).value)
  {
    FieldsHaveImages(fields, tag);
    NoLength(fields);
    ConvertTopObject(fields, tag, true);
  }

  lemma TopLeafHasImage(v: Value, tag: Tag)
    requires TypedTop(v, tag) && IsLeaf(v)
    ensures ConvertTop(v, tag, true).Done? && TopImage(v, tag, ConvertTop(v, tag, true).value)
  {
    LeafHasImage(v, tag);
  }

  /** The fields of the Amino form, in order. */
  ghost predicate MessageImage(kept: seq<Field>, tags: Tag, r: seq<Field>) {
    && |r| == |kept|
    && forall i :: 0 <= i < |kept| ==>
         r[i].key == CamelToSnake(kept[i].key) && TopImage(kept[i].value, Lookup(tags, kept[i].key), r[i].value)
  }

  lemma {:induction false} KeptAreFields(fields: seq<Field>, tags: Tag)
    ensures forall f :: f in Kept(fields, tags) <==> f in fields && !Dropped(f.value, Lookup(tags, f.key))
  {
    if fields == [] {
    } else {
      KeptAreFields(Init(fields), tags);
      assert fields == Init(fields) + [Last(fields)];
    }
  }

  lemma {:induction false} DeleteNothing(fields: seq<Field>, key: string)
    requires !HasKey(fields, key)
    ensures Delete(fields, key) == fields
  {
    if fields == [] {
    } else {
      assert fields[0].key != key;
      assert forall i :: 0 <= i < |fields[1..]| ==> fields[1..][i] == fields[i + 1];
      DeleteNothing(fields[1..], key);
    }
  }

  /** The key of the last field is new among those kept before it. */
  lemma LastKeyIsNew(fields: seq<Field>, tags: Tag, r: seq<Field>)
    requires fields != [] && GoodKeys(fields) && MessageImage(Kept(Init(fields), tags), tags, r)
    ensures !HasKey(r, CamelToSnake(Last(fields).key))
  {
    var kept := Kept(Init(fields), tags);
    KeptAreFields(Init(fields), tags);
    forall i | 0 <= i < |r|
      ensures r[i].key != CamelToSnake(Last(fields).key)
    {
      assert kept[i] in kept;
      var j :| 0 <= j < |Init(fields)| && Init(fields)[j] == kept[i];
      assert fields[j].key != Last(fields).key;
      RenamedKeysDiffer(kept[i].key, Last(fields).key);
    }
  }

  /**
   * The Amino form of a well-typed message: its fields in order, without those that are dropped,
   * each under its renamed key, with a value that says the same.
   */
  lemma {:induction false} MessageHasImage(fields: seq<Field>, tags: Tag)
    requires GoodKeys(fields) && forall i :: 0 <= i < |fields| ==> TypedOrDropped(fields[i], tags)
    ensures ToAmino(fields, tags).Done? && MessageImage(Kept(fields, tags), tags, ToAmino(fields, tags).value)
  {
    if fields == [] {
    } else {
      var f := Last(fields);
      MessageHasImage(Init(fields), tags);
      var done := ToAmino(Init(fields), tags).value;
      LastKeyIsNew(fields, tags, done);
      if Dropped(f.value, Lookup(tags, f.key)) {
        DeleteNothing(done, CamelToSnake(f.key));
      } else {
        assert TypedOrDropped(f, tags);
        TopHasImage(f.value, Lookup(tags, f.key));
        TopRoundTrip(f.value, Lookup(tags, f.key));
        AddAminoConverts(done, f, tags);
        PutNew(done, CamelToSnake(f.key), ConvertTop(f.value, Lookup(tags, f.key), true).value);
      }
    }
  }
}
