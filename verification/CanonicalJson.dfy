/**
 * Canonical sign documents: `sortObject` of src/util/generic.ts sorts the keys of every object
 * in a JSON tree, so that documents that differ in key order only are signed alike.
 */
module CanonicalJson {
  import opened Basics

  /** A JSON tree; an object lists its properties in insertion order. */
  datatype Json = Atom(text: string) | Arr(items: seq<Json>) | Obj(fields: seq<Field>)
  datatype Field = Field(key: string, value: Json)

  // ----- the order of keys -----

  /** JavaScript compares strings by their code units, shorter prefixes first. */
  predicate LessOrEqual(a: string, b: string) {
    a == "" || (b != "" && (a[0] < b[0] || (a[0] == b[0] && LessOrEqual(a[1..], b[1..]))))
  }

  predicate Less(a: string, b: string) {
    LessOrEqual(a, b) && a != b
  }

  /** A text comes before its continuations, and before those with a larger character where they first differ. */
  lemma {:induction false} OrderIsByCodeUnits(prefix: string, a: string, b: string, x: char, y: char)
    requires x < y
    ensures Less(prefix + [x] + a, prefix + [y] + b) && Less(prefix, prefix + [x] + a)
  {
    var s, t := prefix + [x] + a, prefix + [y] + b;
    if prefix == "" {
      assert s[0] == x && t[0] == y;
    } else {
      OrderIsByCodeUnits(prefix[1..], a, b, x, y);
      assert s[1..] == prefix[1..] + [x] + a && t[1..] == prefix[1..] + [y] + b;
      assert s[0] == t[0] == prefix[0];
    }
  }

  lemma {:induction false} OrderIsTotal(a: string, b: string)
    ensures LessOrEqual(a, b) || LessOrEqual(b, a)
  {
    if a == "" || b == "" {
    } else {
      OrderIsTotal(a[1..], b[1..]);
    }
  }

  lemma {:induction false} OrderIsAntisymmetric(a: string, b: string)
    requires LessOrEqual(a, b) && LessOrEqual(b, a)
    ensures a == b
  {
    if a == "" || b == "" {
    } else {
      OrderIsAntisymmetric(a[1..], b[1..]);
      assert a == [a[0]] + a[1..] && b == [b[0]] + b[1..];
    }
  }

  lemma {:induction false} OrderIsTransitive(a: string, b: string, c: string)
    requires LessOrEqual(a, b) && LessOrEqual(b, c)
    ensures LessOrEqual(a, c)
  {
    if a == "" || b[0] != a[0] || c[0] != b[0] {
    } else {
      OrderIsTransitive(a[1..], b[1..], c[1..]);
    }
  }

  lemma LessIsTransitive(a: string, b: string, c: string)
    requires Less(a, b) && Less(b, c)
    ensures Less(a, c)
  {
    OrderIsTransitive(a, b, c);
    if a == c {
      OrderIsAntisymmetric(a, b);
    }
  }

  // ----- sortObject -----

  function Insert(f: Field, fields: seq<Field>): seq<Field> {
    if fields == [] || LessOrEqual(f.key, fields[0].key) then [f] + fields
    else [fields[0]] + Insert(f, fields[1..])
  }

  /** The properties in the order of `Object.keys(input).sort()`. */
  function SortByKey(fields: seq<Field>): seq<Field> {
    if fields == [] then [] else Insert(fields[0], SortByKey(fields[1..]))
  }

  function SortObject(input: Json): Json
    decreases input
  {
    match input
    case Atom(_) => input
    case Arr(items) => Arr(seq(|items|, i requires 0 <= i < |items| => SortObject(items[i])))
    case Obj(fields) => Obj(SortByKey(SortValues(fields)))
  }

  function SortValues(fields: seq<Field>): (r: seq<Field>)
    ensures |r| == |fields|
    ensures forall i :: 0 <= i < |fields| ==> r[i] == Field(fields[i].key, SortObject(fields[i].value))
    decreases fields
  {
    seq(|fields|, i requires 0 <= i < |fields| => Field(fields[i].key, SortObject(fields[i].value)))
  }

  // ----- well-formed trees -----

  ghost predicate DistinctKeys(fields: seq<Field>) {
    forall i, j :: 0 <= i < j < |fields| ==> fields[i].key != fields[j].key
  }

  /** No object has a key twice. */
  ghost predicate WellFormed(t: Json) {
    match t
    case Atom(_) => true
    case Arr(items) => forall i :: 0 <= i < |items| ==> WellFormed(items[i])
    case Obj(fields) => DistinctKeys(fields) && forall i :: 0 <= i < |fields| ==> WellFormed(fields[i].value)
  }

  ghost predicate StrictlySorted(fields: seq<Field>) {
    forall i, j :: 0 <= i < j < |fields| ==> Less(fields[i].key, fields[j].key)
  }

  // ----- facts about sorting -----

  lemma {:induction false} InsertKeepsElements(f: Field, fields: seq<Field>, x: Field)
    ensures x in Insert(f, fields) <==> x == f || x in fields
  {
    if fields == [] || LessOrEqual(f.key, fields[0].key) {
    } else {
      InsertKeepsElements(f, fields[1..], x);
      assert fields == [fields[0]] + fields[1..];
    }
  }

  lemma {:induction false} SortKeepsElements(fields: seq<Field>, x: Field)
    ensures x in SortByKey(fields) <==> x in fields
  {
    if fields == [] {
    } else {
      SortKeepsElements(fields[1..], x);
      InsertKeepsElements(fields[0], SortByKey(fields[1..]), x);
      assert fields == [fields[0]] + fields[1..];
    }
  }

  lemma ConsSorted(f: Field, fields: seq<Field>)
    requires StrictlySorted(fields)
    requires forall i :: 0 <= i < |fields| ==> Less(f.key, fields[i].key)
    ensures StrictlySorted([f] + fields)
  {
    var s := [f] + fields;
    forall i, j | 0 <= i < j < |s|
      ensures Less(s[i].key, s[j].key)
    {
      assert s[j] == fields[j - 1];
      if i > 0 {
        assert s[i] == fields[i - 1];
      }
    }
  }

  lemma {:induction false} InsertSorted(f: Field, fields: seq<Field>)
    requires StrictlySorted(fields) && forall i :: 0 <= i < |fields| ==> fields[i].key != f.key
    ensures StrictlySorted(Insert(f, fields))
  {
    if fields == [] {
      assert Insert(f, fields) == [f];
    } else if LessOrEqual(f.key, fields[0].key) {
      forall i | 0 <= i < |fields|
        ensures Less(f.key, fields[i].key)
      {
        if i > 0 {
          LessIsTransitive(f.key, fields[0].key, fields[i].key);
        }
      }
      ConsSorted(f, fields);
    } else {
      OrderIsTotal(f.key, fields[0].key);
      InsertSorted(f, fields[1..]);
      var rest := Insert(f, fields[1..]);
      forall i | 0 <= i < |rest|
        ensures Less(fields[0].key, rest[i].key)
      {
        InsertKeepsElements(f, fields[1..], rest[i]);
      }
      ConsSorted(fields[0], rest);
    }
  }

  lemma {:induction false} SortSorted(fields: seq<Field>)
    requires DistinctKeys(fields)
    ensures StrictlySorted(SortByKey(fields))
  {
    if fields == [] {
    } else {
      SortSorted(fields[1..]);
      var rest := SortByKey(fields[1..]);
      forall i | 0 <= i < |rest|
        ensures rest[i].key != fields[0].key
      {
        SortKeepsElements(fields[1..], rest[i]);
      }
      InsertSorted(fields[0], rest);
    }
  }

  lemma HasElement(s: seq<Field>)
    ensures s != [] ==> exists x :: x in s
  {
    if s != [] {
      assert s[0] in s;
    }
  }

  /** Two strictly sorted sequences with the same elements are equal. */
  lemma {:induction false} SortedIsUnique(s: seq<Field>, t: seq<Field>)
    requires StrictlySorted(s) && StrictlySorted(t)
    requires forall x :: x in s <==> x in t
    ensures s == t
    decreases |s|
  {
    if s == [] {
      HasElement(t);
    } else {
      assert s[0] in t && t != [];
      assert t[0] in s;
      if s[0] != t[0] {
        OrderIsAntisymmetric(s[0].key, t[0].key);
      }
      assert s == [s[0]] + s[1..] && t == [t[0]] + t[1..];
      forall x
        ensures x in s[1..] <==> x in t[1..]
      {
        assert x in s <==> x == s[0] || x in s[1..];
        assert x in t <==> x == t[0] || x in t[1..];
      }
      SortedIsUnique(s[1..], t[1..]);
    }
  }

  // ----- equal up to key order -----

  /** The position of the property with the given key, if there is one. */
  function Find(fields: seq<Field>, key: string): (r: Option<nat>)
    ensures match r
            case Some(i) => i < |fields| && fields[i].key == key
            case None => forall i :: 0 <= i < |fields| ==> fields[i].key != key
  {
    if fields == [] then None
    else if fields[0].key == key then Some(0)
    else match Find(fields[1..], key)
      case Some(i) => Some(i + 1)
      case None => None
  }

  /** Equal up to the order of keys, at every level: objects have the same keys, with values that are the same. */
  ghost predicate Same(a: Json, b: Json)
    decreases a
  {
    match (a, b)
    case (Atom(x), Atom(y)) => x == y
    case (Arr(xs), Arr(ys)) => |xs| == |ys| && forall i :: 0 <= i < |xs| ==> Same(xs[i], ys[i])
    case (Obj(xs), Obj(ys)) =>
      && (forall i :: 0 <= i < |xs| ==>
            Find(ys, xs[i].key).Some? && Same(xs[i].value, ys[Find(ys, xs[i].key).value].value))
      && (forall j :: 0 <= j < |ys| ==> Find(xs, ys[j].key).Some?)
    case _ => false
  }

  /**
   * Canonical form: two trees are sorted to the same ordered tree exactly when they are equal
   * up to the order of keys at every level.
   */
  lemma {:induction false} Canonical(a: Json, b: Json)
    requires WellFormed(a) && WellFormed(b)
    ensures SortObject(a) == SortObject(b) <==> Same(a, b)
    decreases a
  {
    match (a, b)
    case (Atom(_), Atom(_)) =>
    case (Arr(xs), Arr(ys)) =>
      forall i | 0 <= i < |xs| && i < |ys|
        ensures SortObject(xs[i]) == SortObject(ys[i]) <==> Same(xs[i], ys[i])
      {
        Canonical(xs[i], ys[i]);
      }
      var us, vs := SortObject(a).items, SortObject(b).items;
      if Same(a, b) {
        forall i | 0 <= i < |us|
          ensures us[i] == vs[i]
        {
          assert Same(xs[i], ys[i]);
        }
      }
      if us == vs {
        forall i | 0 <= i < |xs|
          ensures Same(xs[i], ys[i])
        {
          assert us[i] == vs[i];
        }
      }
    case (Obj(xs), Obj(ys)) =>
      forall i, j | 0 <= i < |xs| && 0 <= j < |ys|
        ensures SortObject(xs[i].value) == SortObject(ys[j].value) <==> Same(xs[i].value, ys[j].value)
      {
        Canonical(xs[i].value, ys[j].value);
      }
      CanonicalFields(xs, ys);
    case _ =>
  }

  ghost predicate SameElements(xs: seq<Field>, ys: seq<Field>) {
    forall x :: x in xs <==> x in ys
  }

  /** Sorted fields are equal exactly when the fields are, as sets. */
  lemma SortedFieldsEqual(xs: seq<Field>, ys: seq<Field>)
    requires DistinctKeys(xs) && DistinctKeys(ys)
    ensures SortByKey(xs) == SortByKey(ys) <==> SameElements(xs, ys)
  {
    forall x
      ensures (x in SortByKey(xs) <==> x in xs) && (x in SortByKey(ys) <==> x in ys)
    {
      SortKeepsElements(xs, x);
      SortKeepsElements(ys, x);
    }
    if SameElements(xs, ys) {
      SortSorted(xs);
      SortSorted(ys);
      SortedIsUnique(SortByKey(xs), SortByKey(ys));
    }
  }

  /** Two lists have the same elements if each key of either is found in the other, with the same value. */
  lemma FoundElements(us: seq<Field>, vs: seq<Field>)
    requires DistinctKeys(us) && DistinctKeys(vs)
    requires forall i :: 0 <= i < |us| ==> Find(vs, us[i].key).Some? && vs[Find(vs, us[i].key).value] == us[i]
    requires forall j :: 0 <= j < |vs| ==> Find(us, vs[j].key).Some?
    ensures SameElements(us, vs)
  {
    forall x | x in vs
      ensures x in us
    {
      var j :| 0 <= j < |vs| && vs[j] == x;
      var i := Find(us, vs[j].key).value;
      assert Find(vs, us[i].key) == Some(j);
    }
  }

  lemma {:induction false} FindInSorted(fields: seq<Field>, key: string)
    ensures Find(SortValues(fields), key) == Find(fields, key)
  {
    if fields == [] {
    } else {
      assert SortValues(fields)[1..] == SortValues(fields[1..]);
      FindInSorted(fields[1..], key);
    }
  }

  lemma SameGivesElements(xs: seq<Field>, ys: seq<Field>)
    requires DistinctKeys(xs) && DistinctKeys(ys) && Same(Obj(xs), Obj(ys))
    requires forall i, j :: 0 <= i < |xs| && 0 <= j < |ys| && Same(xs[i].value, ys[j].value) ==>
               SortObject(xs[i].value) == SortObject(ys[j].value)
    ensures SameElements(SortValues(xs), SortValues(ys))
  {
    var us, vs := SortValues(xs), SortValues(ys);
    forall i | 0 <= i < |us|
      ensures Find(vs, us[i].key).Some? && vs[Find(vs, us[i].key).value] == us[i]
    {
      FindInSorted(ys, xs[i].key);
      assert Same(xs[i].value, ys[Find(ys, xs[i].key).value].value);
    }
    forall j | 0 <= j < |vs|
      ensures Find(us, vs[j].key).Some?
    {
      FindInSorted(xs, ys[j].key);
    }
    FoundElements(us, vs);
  }

  lemma ElementsGiveSame(xs: seq<Field>, ys: seq<Field>)
    requires DistinctKeys(xs) && DistinctKeys(ys) && SameElements(SortValues(xs), SortValues(ys))
    requires forall i, j :: 0 <= i < |xs| && 0 <= j < |ys| && SortObject(xs[i].value) == SortObject(ys[j].value) ==>
               Same(xs[i].value, ys[j].value)
    ensures Same(Obj(xs), Obj(ys))
  {
    var us, vs := SortValues(xs), SortValues(ys);
    forall i | 0 <= i < |xs|
      ensures Find(ys, xs[i].key).Some? && Same(xs[i].value, ys[Find(ys, xs[i].key).value].value)
    {
      assert us[i] in vs;
      var j :| 0 <= j < |vs| && vs[j] == us[i];
      assert Find(ys, xs[i].key) == Some(j);
    }
    forall j | 0 <= j < |ys|
      ensures Find(xs, ys[j].key).Some?
    {
      assert vs[j] in us;
      var i :| 0 <= i < |us| && us[i] == vs[j];
      assert xs[i].key == ys[j].key;
    }
  }

  lemma CanonicalFields(xs: seq<Field>, ys: seq<Field>)
    requires DistinctKeys(xs) && DistinctKeys(ys)
    requires forall i, j :: 0 <= i < |xs| && 0 <= j < |ys| ==>
               (SortObject(xs[i].value) == SortObject(ys[j].value) <==> Same(xs[i].value, ys[j].value))
    ensures SortObject(Obj(xs)) == SortObject(Obj(ys)) <==> Same(Obj(xs), Obj(ys))
  {
    SortedFieldsEqual(SortValues(xs), SortValues(ys));
    if Same(Obj(xs), Obj(ys)) {
      SameGivesElements(xs, ys);
    }
    if SameElements(SortValues(xs), SortValues(ys)) {
      ElementsGiveSame(xs, ys);
    }
  }

  lemma {:induction false} SortWellFormed(t: Json)
    requires WellFormed(t)
    ensures WellFormed(SortObject(t))
    decreases t
  {
    match t
    case Atom(_) =>
    case Arr(items) =>
      forall i | 0 <= i < |items|
        ensures WellFormed(SortObject(items[i]))
      {
        SortWellFormed(items[i]);
      }
    case Obj(fields) =>
      var us := SortValues(fields);
      var sorted := SortByKey(us);
      SortSorted(us);
      forall i | 0 <= i < |sorted|
        ensures WellFormed(sorted[i].value)
      {
        SortKeepsElements(us, sorted[i]);
        var j :| 0 <= j < |us| && us[j] == sorted[i];
        SortWellFormed(fields[j].value);
      }
  }

  lemma {:induction false} SortedIsSame(t: Json)
    requires WellFormed(t)
    ensures Same(t, SortObject(t))
    decreases t
  {
    match t
    case Atom(_) =>
    case Arr(items) =>
      forall i | 0 <= i < |items|
        ensures Same(items[i], SortObject(items[i]))
      {
        SortedIsSame(items[i]);
      }
    case Obj(fields) =>
      forall i | 0 <= i < |fields|
        ensures Same(fields[i].value, SortObject(fields[i].value))
      {
        SortedIsSame(fields[i].value);
      }
      SortedFieldsAreSame(fields);
  }

  lemma SortedFieldsAreSame(fields: seq<Field>)
    requires DistinctKeys(fields)
    requires forall i :: 0 <= i < |fields| ==> Same(fields[i].value, SortObject(fields[i].value))
    ensures Same(Obj(fields), SortObject(Obj(fields)))
  {
    var us := SortValues(fields);
    var sorted := SortByKey(us);
    SortSorted(us);
    forall i | 0 <= i < |fields|
      ensures Find(sorted, fields[i].key).Some? && Same(fields[i].value, sorted[Find(sorted, fields[i].key).value].value)
    {
      SortKeepsElements(us, us[i]);
      var j :| 0 <= j < |sorted| && sorted[j] == us[i];
      assert Find(sorted, fields[i].key) == Some(j);
    }
    forall j | 0 <= j < |sorted|
      ensures Find(fields, sorted[j].key).Some?
    {
      SortKeepsElements(us, sorted[j]);
      var i :| 0 <= i < |us| && us[i] == sorted[j];
      assert fields[i].key == sorted[j].key;
    }
  }

  /** Sorting a sorted tree changes nothing. */
  lemma Idempotent(t: Json)
    requires WellFormed(t)
    ensures SortObject(SortObject(t)) == SortObject(t)
  {
    SortedIsSame(t);
    SortWellFormed(t);
    Canonical(t, SortObject(t));
  }

  // ----- values at paths -----

  datatype Selector = Key(key: string) | Index(index: nat)

  function At(t: Json, path: seq<Selector>): Option<Json>
    decreases |path|
  {
    if path == [] then Some(t)
    else match (t, path[0])
      case (Arr(items), Index(i)) => if i < |items| then At(items[i], path[1..]) else None
      case (Obj(fields), Key(k)) =>
        (match Find(fields, k) case Some(i) => At(fields[i].value, path[1..]) case None => None)
      case _ => None
  }

  /**
   * Every path leads to the same value before and after, up to the sorting of that value; in
   * particular to the same atom.
   */
  lemma {:induction false} PathsArePreserved(t: Json, path: seq<Selector>)
    requires WellFormed(t)
    ensures At(SortObject(t), path) == match At(t, path) case Some(v) => Some(SortObject(v)) case None => None
    decreases |path|
  {
    if path == [] {
    } else {
      match (t, path[0])
      case (Arr(items), Index(i)) =>
        if i < |items| {
          PathsArePreserved(items[i], path[1..]);
        }
      case (Obj(fields), Key(k)) =>
        var us := SortValues(fields);
        var sorted := SortByKey(us);
        SortSorted(us);
        if Find(fields, k).Some? {
          var i := Find(fields, k).value;
          SortKeepsElements(us, us[i]);
          var j :| 0 <= j < |sorted| && sorted[j] == us[i];
          assert Find(sorted, k) == Some(j);
          PathsArePreserved(fields[i].value, path[1..]);
        } else if Find(sorted, k).Some? {
          SortKeepsElements(us, sorted[Find(sorted, k).value]);
        }
      case _ =>
    }
  }
}
