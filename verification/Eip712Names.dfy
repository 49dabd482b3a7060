/**
 * The texts that type names are made of, and the values that count as zero, in plain terms.
 */
module Eip712Names {
  import opened Text
  import opened KeyCase
  import opened Eip712Types

  // ----- decimal numbers -----

  /** The number that a decimal text denotes. */
  function Denoted(s: string): int {
    if s == "" then 0 else 10 * Denoted(s[..|s| - 1]) + (s[|s| - 1] as int - '0' as int)
  }

  /** A number is written in decimal, without leading zeros. */
  lemma {:induction false} DecimalDenotes(n: nat)
    ensures Denoted(Decimal(n)) == n
    ensures n > 0 ==> Decimal(n)[0] != '0'
    ensures n == 0 ==> |Decimal(n)| == 1
  {
    if n < 10 {
      assert Decimal(n)[..0] == "";
    } else {
      DecimalDenotes(n / 10);
      var s := Decimal(n);
      assert s[..|s| - 1] == Decimal(n / 10);
    }
  }

  /** Message number n is the field "msg" and n, in decimal. */
  lemma MessageFieldName(n: nat)
    ensures MsgField(n)[..3] == "msg" && Denoted(MsgField(n)[3..]) == n
  {
    DecimalDenotes(n);
    assert MsgField(n)[..3] == "msg" && MsgField(n)[3..] == Decimal(n);
  }

  // ----- capitals -----

  /** The first letter becomes a capital, all others become small. */
  lemma {:induction false} CapitalizedLetters(s: string, i: nat)
    requires i < |s|
    ensures |Capitalize(s)| == |s| && Capitalize(s)[i] == if i == 0 then ToUpper(s[0]) else ToLower(s[i])
  {
    LoweredLetters(s[1..], if i == 0 then 0 else i - 1);
  }

  lemma {:induction false} LoweredLetters(s: string, i: nat)
    ensures |LowerAll(s)| == |s| && (i < |s| ==> LowerAll(s)[i] == ToLower(s[i]))
  {
    if s == "" {
    } else {
      LoweredLetters(s[1..], if i == 0 then 0 else i - 1);
    }
  }

  function Flat(parts: seq<string>): string {
    if parts == [] then "" else parts[0] + Flat(parts[1..])
  }

  /** A nested name is made of the parts between the underscores, each capitalized. */
  lemma NestedNameOfParts(parts: seq<string>)
    requires parts != [] && forall i :: 0 <= i < |parts| ==> '_' !in parts[i]
    ensures NestedName(Join(parts, '_')) == Flat(seq(|parts|, i requires 0 <= i < |parts| => Capitalize(parts[i])))
  {
    SplitJoin(parts, '_');
    CapitalizedParts(parts);
  }

  lemma {:induction false} CapitalizedParts(parts: seq<string>)
    ensures CapitalizeAll(parts) == Flat(seq(|parts|, i requires 0 <= i < |parts| => Capitalize(parts[i])))
  {
    if parts == [] {
    } else {
      var all := seq(|parts|, i requires 0 <= i < |parts| => Capitalize(parts[i]));
      CapitalizedParts(parts[1..]);
      assert all[1..] == seq(|parts[1..]|, i requires 0 <= i < |parts[1..]| => Capitalize(parts[1..][i]));
    }
  }

  /** The name of a message is what stands between the first slash of its type and the next one, if there is one. */
  lemma MessageName(route: string, name: string, rest: string)
    requires '/' !in route && '/' !in name
    ensures MsgType(route + "/" + name) == name && MsgType(route + "/" + name + "/" + rest) == name
    ensures MsgType(route) == "undefined"
  {
    SplitPart(route, '/');
    SplitPart(name, '/');
    SplitFirst(route, '/', name);
    SplitFirst(name, '/', rest);
    SplitFirst(route, '/', name + ['/'] + rest);
    assert route + "/" + name == route + ['/'] + name;
    assert route + "/" + name + "/" + rest == route + ['/'] + (name + ['/'] + rest);
  }

  // ----- zero values -----

  /** A value inside n lists of one element each. */
  function Wrapped(v: Json, n: nat): Json {
    if n == 0 then v else Arr([Wrapped(v, n - 1)])
  }

  lemma {:induction false} WrappedPrintsZero(v: Json, n: nat)
    ensures PrintsZero(Wrapped(v, n)) <==> PrintsZero(v)
  {
    if n == 0 {
    } else {
      WrappedPrintsZero(v, n - 1);
    }
  }

  lemma {:induction false} PrintsZeroIsWrapped(v: Json) returns (n: nat)
    requires PrintsZero(v)
    ensures v == Wrapped(Num(0), n) || v == Wrapped(Str("0"), n)
  {
    if v.Arr? {
      n := PrintsZeroIsWrapped(v.items[0]);
      n := n + 1;
      assert v.items == [v.items[0]];
    } else {
      n := 0;
    }
  }

  /**
   * The values that count as zero: nothing, the empty text, 0, false, and 0 or "0" in lists of
   * one element. The text "0" and the empty list do not.
   */
  lemma ZeroValuesExactly(v: Json)
    ensures !IsNonZeroField(v) <==>
            || v in {Null, Str(""), Num(0), Bool(false)}
            || exists n: nat :: n > 0 && (v == Wrapped(Num(0), n) || v == Wrapped(Str("0"), n))
  {
    if LooselyZero(v) && v.Arr? {
      var n := PrintsZeroIsWrapped(v);
      assert n > 0;
    }
    if n: nat :| n > 0 && (v == Wrapped(Num(0), n) || v == Wrapped(Str("0"), n)) {
      WrappedPrintsZero(Num(0), n - 1);
      WrappedPrintsZero(Str("0"), n - 1);
    }
  }
}
