/** Renaming of keys between camelCase and snake_case (src/util/type.ts), on ASCII strings. */
module KeyCase {
  import opened Text

  predicate Ascii(s: string) {
    forall i :: 0 <= i < |s| ==> s[i] < 128 as char
  }

  predicate IsUpper(c: char) { 'A' <= c <= 'Z' }

  predicate IsLower(c: char) { 'a' <= c <= 'z' }

  function ToLower(c: char): char {
    if IsUpper(c) then c + 32 as char else c
  }

  function ToUpper(c: char): char {
    if IsLower(c) then c - 32 as char else c
  }

  // ----- camelToSnake -----

  function Snake(s: string): string {
    if s == "" then ""
    else (if s[0] != ToLower(s[0]) then ['_', ToLower(s[0])] else [s[0]]) + Snake(s[1..])
  }

  function CamelToSnake(camelStr: string): string {
    if |camelStr| <= 1 then camelStr else Snake(camelStr)
  }

  lemma {:induction false} SnakeSnoc(s: string, c: char)
    ensures Snake(s + [c]) == Snake(s) + Snake([c])
  {
    if s == "" {
      assert s + [c] == [c];
    } else {
      assert (s + [c])[1..] == s[1..] + [c];
      SnakeSnoc(s[1..], c);
    }
  }

  /** `camelToSnake` as written, with its loop over the letters. */
  method ConvertCamelToSnake(camelStr: string) returns (newSnake: string)
    ensures newSnake == CamelToSnake(camelStr)
  {
    if |camelStr| <= 1 {
      return camelStr;
    }
    newSnake := "";
    for i := 0 to |camelStr|
      invariant newSnake == Snake(camelStr[..i])
    {
      var letter := camelStr[i];
      var newLetter := if letter != ToLower(letter) then ['_', ToLower(letter)] else [letter];
      newSnake := newSnake + newLetter;
      SnakeSnoc(camelStr[..i], letter);
      assert camelStr[..i + 1] == camelStr[..i] + [letter];
    }
    assert camelStr[..|camelStr|] == camelStr;
  }

  const CAPITALS := "ABCDEFGHIJKLMNOPQRSTUVWXYZ"
  const SMALL_LETTERS := "abcdefghijklmnopqrstuvwxyz"

  /** A capital letter becomes an underscore and its small letter; any other letter stays, as does a key of one letter. */
  lemma SnakeOfLetter(c: char, k: nat)
    requires k < 26
    ensures Snake([CAPITALS[k]]) == ['_', SMALL_LETTERS[k]]
    ensures !IsUpper(c) ==> Snake([c]) == [c]
    ensures CamelToSnake([c]) == [c]
  {
    assert [c][1..] == "" && [CAPITALS[k]][1..] == "";
    assert IsUpper(CAPITALS[k]) && ToLower(CAPITALS[k]) == SMALL_LETTERS[k];
  }

  lemma CapitalLetters(c: char)
    ensures IsUpper(c) <==> c in CAPITALS
  {
    if IsUpper(c) {
      assert CAPITALS[c as int - 'A' as int] == c;
    }
  }

  /** Keys of more than one letter are renamed letter by letter. */
  lemma SnakeLetterByLetter(before: string, c: char, after: string)
    requires |before + [c] + after| > 1
    ensures CamelToSnake(before + [c] + after) == Snake(before) + Snake([c]) + Snake(after)
  {
    SnakeConcat(before + [c], after);
    SnakeConcat(before, [c]);
  }

  lemma SnakeCons(c: char, rest: string)
    ensures Snake([c] + rest) == Snake([c]) + Snake(rest)
  {
    assert ([c] + rest)[1..] == rest && [c][1..] == "";
  }

  lemma {:induction false} SnakeConcat(a: string, b: string)
    ensures Snake(a + b) == Snake(a) + Snake(b)
  {
    if a == "" {
      assert a + b == b;
    } else {
      var c, rest := a[0], a[1..];
      assert a == [c] + rest && a + b == [c] + (rest + b);
      SnakeCons(c, rest + b);
      SnakeCons(c, rest);
      SnakeConcat(rest, b);
    }
  }

  // ----- snakeToCamel -----

  function Capitalized(item: string): string {
    if item == "" then "" else [ToUpper(item[0])] + item[1..]
  }

  function CapitalizedAll(items: seq<string>): string {
    if items == [] then "" else Capitalized(items[0]) + CapitalizedAll(items[1..])
  }

  function SnakeToCamel(snakeStr: string): string {
    if '_' !in snakeStr then snakeStr
    else
      var items := Split(snakeStr, '_');
      items[0] + CapitalizedAll(items[1..])
  }

  /** The parts between underscores are joined, all but the first with a capital. */
  lemma SnakeToCamelOfParts(parts: seq<string>)
    requires parts != [] && forall i :: 0 <= i < |parts| ==> '_' !in parts[i]
    ensures SnakeToCamel(Join(parts, '_')) == parts[0] + CapitalizedAll(parts[1..])
  {
    SnakeToCamelBySplit(Join(parts, '_'));
    SplitJoin(parts, '_');
  }

  lemma SnakeToCamelBySplit(s: string)
    ensures SnakeToCamel(s) == Camel(s)
  {
    if '_' !in s {
      SplitPart(s, '_');
    }
  }

  // ----- round trip -----

  lemma SplitLetter(c: char, rest: string)
    ensures Split([c] + rest, '_') ==
            if c == '_' then [""] + Split(rest, '_') else [[c] + Split(rest, '_')[0]] + Split(rest, '_')[1..]
  {
    assert ([c] + rest)[1..] == rest;
  }

  /** The camelCase reading of a string with underscores. */
  function Camel(s: string): string {
    Split(s, '_')[0] + CapitalizedAll(Split(s, '_')[1..])
  }

  /** What follows a first letter keeps its reading. */
  lemma CamelLetter(c: char, rest: string)
    requires c != '_'
    ensures Camel([c] + rest) == [c] + Camel(rest)
  {
    var items := Split(rest, '_');
    SplitLetter(c, rest);
    var first := [c] + items[0];
    assert ([first] + items[1..])[1..] == items[1..];
  }

  /** A letter after an underscore becomes a capital. */
  lemma CamelCapital(c: char, rest: string)
    requires c != '_'
    ensures Camel(['_', c] + rest) == [ToUpper(c)] + Camel(rest)
  {
    var items := Split(rest, '_');
    SplitLetter(c, rest);
    SplitLetter('_', [c] + rest);
    assert ['_', c] + rest == ['_'] + ([c] + rest);
    var first := [c] + items[0];
    assert first[1..] == items[0];
    var parts := [first] + items[1..];
    assert parts[1..] == items[1..] && ([""] + parts)[1..] == parts;
  }

  lemma {:induction false} CamelSnake(s: string)
    requires Ascii(s) && '_' !in s
    ensures Camel(Snake(s)) == s
  {
    if s == "" {
    } else {
      CamelSnake(s[1..]);
      CamelLetter(ToLower(s[0]), Snake(s[1..]));
      CamelCapital(ToLower(s[0]), Snake(s[1..]));
      assert s == [s[0]] + s[1..];
    }
  }

  lemma {:induction false} CapitalizedHasNoUnderscore(items: seq<string>)
    requires forall i :: 0 <= i < |items| ==> '_' !in items[i]
    ensures '_' !in CapitalizedAll(items)
  {
    if items == [] {
    } else {
      CapitalizedHasNoUnderscore(items[1..]);
      assert '_' !in Capitalized(items[0]);
    }
  }

  lemma CamelHasNoUnderscore(s: string)
    ensures '_' !in SnakeToCamel(s)
  {
    SnakeToCamelBySplit(s);
    CapitalizedHasNoUnderscore(Split(s, '_')[1..]);
  }

  /** On ASCII keys, renaming there and back is the identity exactly on the keys without underscore. */
  lemma KeyRoundTrip(s: string)
    requires Ascii(s)
    ensures SnakeToCamel(CamelToSnake(s)) == s <==> '_' !in s
  {
    if '_' !in s {
      if |s| > 1 {
        CamelSnake(s);
        SnakeToCamelBySplit(Snake(s));
      }
    } else {
      CamelHasNoUnderscore(CamelToSnake(s));
    }
  }

  /** Different keys without underscores never collide when renamed. */
  lemma RenamedKeysDiffer(a: string, b: string)
    requires Ascii(a) && Ascii(b) && '_' !in a && '_' !in b && a != b
    ensures CamelToSnake(a) != CamelToSnake(b)
  {
    KeyRoundTrip(a);
    KeyRoundTrip(b);
  }
}
