/**
 * The `Strings` helper class of the runtime, together with the few
 * `java.lang.String` operations the engine relies on (`indexOf`,
 * `lastIndexOf`, `startsWith`, `endsWith`).  Character classification is
 * restricted to ASCII.
 */
module Strings {
  import opened Lang

  // ---------------------------------------------------------------------------
  // java.lang.String primitives
  // ---------------------------------------------------------------------------

  /** `s.indexOf(c)`: the first position of `c` in `s`, or -1. */
  function IndexOf(s: string, c: char): (r: int)
    ensures -1 <= r < |s|
    ensures r == -1 <==> c !in s
    ensures r >= 0 ==> s[r] == c && c !in s[..r]
  {
    if |s| == 0 then -1
    else if s[0] == c then 0
    else
      var k := IndexOf(s[1..], c);
      if k == -1 then -1 else k + 1
  }

  /** `s.lastIndexOf(c)`: the last position of `c` in `s`, or -1. */
  function LastIndexOf(s: string, c: char): (r: int)
    ensures -1 <= r < |s|
    ensures r == -1 <==> c !in s
    ensures r >= 0 ==> s[r] == c && c !in s[r + 1..]
  {
    if |s| == 0 then -1
    else if s[|s| - 1] == c then |s| - 1
    else
      var k := LastIndexOf(s[..|s| - 1], c);
      assert k >= 0 ==> s[k + 1..] == s[..|s| - 1][k + 1..] + [s[|s| - 1]];
      k
  }

  /** A position holding `c` with no `c` after it is the last index of `c`. */
  lemma {:induction false} LastIndexOfAt(s: string, c: char, i: int)
    requires 0 <= i < |s| && s[i] == c && c !in s[i + 1..]
    ensures LastIndexOf(s, c) == i
    decreases |s|
  {
    if i < |s| - 1 {
      assert s[|s| - 1] == s[i + 1..][|s| - 1 - (i + 1)];
      assert s[..|s| - 1][i + 1..] == s[i + 1..|s| - 1];
      LastIndexOfAt(s[..|s| - 1], c, i);
    }
  }

  /** `s.startsWith(p)` */
  predicate StartsWith(s: string, p: string) {
    |p| <= |s| && s[..|p|] == p
  }

  /** `s.endsWith(p)` */
  predicate EndsWith(s: string, p: string) {
    |p| <= |s| && s[|s| - |p|..] == p
  }

  // ---------------------------------------------------------------------------
  // Strings.java
  // ---------------------------------------------------------------------------

  /** `isNullOrEmpty`: null, the empty string, or the text "null". */
  predicate IsNullOrEmpty(text: Option<string>) {
    text.None? || |text.value| == 0 || text.value == "null"
  }

  /** `notEmpty` */
  predicate NotEmpty(text: Option<string>) {
    !IsNullOrEmpty(text)
  }

  /** The three texts that count as empty, and nothing else. */
  lemma EmptyTexts(text: Option<string>)
    ensures IsNullOrEmpty(text) <==> text in {None, Some(""), Some("null")}
    ensures NotEmpty(text) <==> text.Some? && text.value !in {"", "null"}
  {
  }

  /** `Character.isLowerCase`, restricted to ASCII letters. */
  predicate IsLower(c: char) { 'a' <= c <= 'z' }

  /** `Character.isUpperCase`, restricted to ASCII letters. */
  predicate IsUpper(c: char) { 'A' <= c <= 'Z' }

  /** `Character.toUpperCase`, restricted to ASCII letters. */
  function ToUpper(c: char): (u: char)
    ensures IsLower(c) ==> IsUpper(u)
    ensures !IsLower(c) ==> u == c
  {
    if IsLower(c) then (c as int - 'a' as int + 'A' as int) as char else c
  }

  /**
   * `capitalise`: upper-cases the first character and keeps the rest.  The
   * Java code throws on the empty string (`substring(0, 1)`), so the empty
   * string is excluded here.
   */
  function Capitalise(name: string): (r: string)
    requires |name| >= 1
    ensures |r| == |name|
    ensures r[0] == ToUpper(name[0]) && r[1..] == name[1..]
    ensures !IsLower(r[0])
  {
    [ToUpper(name[0])] + name[1..]
  }

  /** Capitalising twice is capitalising once. */
  lemma CapitaliseIdempotent(name: string)
    requires |name| >= 1
    ensures Capitalise(Capitalise(name)) == Capitalise(name)
  {
  }

  /**
   * `removeGenericsFromClassName`: the text before the first `<` when that
   * `<` is not the first character, otherwise the input unchanged.
   */
  function RemoveGenericsFromClassName(typeName: string): (r: string)
    ensures r <= typeName
    ensures r == typeName <==> (typeName == [] || typeName[0] == '<' || '<' !in typeName)
    ensures r != typeName ==> |r| > 0 && '<' !in r && typeName[|r|] == '<'
  {
    var idx := IndexOf(typeName, '<');
    if idx > 0 then typeName[..idx] else typeName
  }

  /** Removing the generics a second time changes nothing. */
  lemma RemoveGenericsIdempotent(typeName: string)
    ensures RemoveGenericsFromClassName(RemoveGenericsFromClassName(typeName))
         == RemoveGenericsFromClassName(typeName)
  {
  }

  /**
   * The loop of `splitCamelCase`: `last` is the previously copied character
   * (initially 'A'); the separator goes before an upper-case character that
   * directly follows a lower-case one.
   */
  function SplitFrom(last: char, text: string, separator: string): string
    decreases |text|
  {
    if |text| == 0 then []
    else
      (if IsLower(last) && IsUpper(text[0]) then separator else [])
      + [text[0]] + SplitFrom(text[0], text[1..], separator)
  }

  /** `splitCamelCase(text, separator)` */
  function SplitCamelCase(text: string, separator: string): string {
    SplitFrom('A', text, separator)
  }

  /** Position `i` of `text` is a camel-case boundary: lower-case then upper-case. */
  predicate Boundary(text: string, i: int) {
    0 < i < |text| && IsLower(text[i - 1]) && IsUpper(text[i])
  }

  /**
   * Reference definition of the split, built from the end of the text: each
   * character is copied, preceded by the separator exactly at boundaries.
   */
  function Spliced(text: string, separator: string): string
    decreases |text|
  {
    if |text| == 0 then []
    else
      var n := |text| - 1;
      Spliced(text[..n], separator)
      + (if Boundary(text, n) then separator else []) + [text[n]]
  }

  /** The number of boundaries in `text`. */
  function Boundaries(text: string): nat
    decreases |text|
  {
    if |text| == 0 then 0
    else Boundaries(text[..|text| - 1]) + (if Boundary(text, |text| - 1) then 1 else 0)
  }

  lemma {:induction false} SplitFromSnoc(last: char, text: string, c: char, separator: string)
    requires |text| > 0
    ensures SplitFrom(last, text + [c], separator)
         == SplitFrom(last, text, separator)
            + (if IsLower(text[|text| - 1]) && IsUpper(c) then separator else []) + [c]
    decreases |text|
  {
    var t := text + [c];
    assert t[0] == text[0];
    assert t[1..] == text[1..] + [c];
    if |text| == 1 {
      assert text[1..] == [];
      assert SplitFrom(text[0], [c], separator)
          == (if IsLower(text[0]) && IsUpper(c) then separator else []) + [c] + SplitFrom(c, [], separator);
    } else {
      SplitFromSnoc(text[0], text[1..], c, separator);
      assert text[1..][|text[1..]| - 1] == text[|text| - 1];
    }
  }

  /** The loop of `splitCamelCase` computes the reference definition. */
  lemma {:induction false} SplitCamelCaseIsSpliced(text: string, separator: string)
    ensures SplitCamelCase(text, separator) == Spliced(text, separator)
    decreases |text|
  {
    if |text| == 0 {
    } else if |text| == 1 {
      assert text[1..] == [];
      assert !IsLower('A');
      assert SplitFrom('A', text, separator) == [text[0]] + SplitFrom(text[0], [], separator);
      assert text[..0] == [];
    } else {
      var n := |text| - 1;
      var init := text[..n];
      SplitCamelCaseIsSpliced(init, separator);
      SplitFromSnoc('A', init, text[n], separator);
      assert init + [text[n]] == text;
    }
  }

  /** The separator is inserted once per boundary and nothing else is added. */
  lemma {:induction false} SplicedLength(text: string, separator: string)
    ensures |Spliced(text, separator)| == |text| + |separator| * Boundaries(text)
    decreases |text|
  {
    if |text| > 0 {
      SplicedLength(text[..|text| - 1], separator);
    }
  }

  /** No separator goes before the first character. */
  lemma SplicedStartsWithFirst(text: string, separator: string)
    requires |text| > 0
    ensures Spliced(text, separator)[0] == text[0]
    decreases |text|
  {
    if |text| > 1 {
      var n := |text| - 1;
      SplicedStartsWithFirst(text[..n], separator);
      SplicedLength(text[..n], separator);
    }
  }

  /** All occurrences of `c` removed from `s`. */
  function Without(s: string, c: char): string
    decreases |s|
  {
    if |s| == 0 then []
    else Without(s[..|s| - 1], c) + (if s[|s| - 1] == c then [] else [s[|s| - 1]])
  }

  lemma WithoutSnoc(s: string, x: char, c: char)
    ensures Without(s + [x], c) == Without(s, c) + (if x == c then [] else [x])
  {
    assert (s + [x])[..|s|] == s;
  }

  /** Deleting the separators from a run, an optional separator and a character keeps the character. */
  lemma WithoutSeparatorThenChar(front: string, boundary: bool, x: char, sep: char)
    requires x != sep
    ensures Without(front + (if boundary then [sep] else []) + [x], sep) == Without(front, sep) + [x]
  {
    if boundary {
      WithoutSnoc(front + [sep], x, sep);
      WithoutSnoc(front, sep, sep);
    } else {
      assert front + [] + [x] == front + [x];
      WithoutSnoc(front, x, sep);
    }
  }

  /**
   * With a one-character separator that does not occur in the text, deleting
   * the separators again gives back the original text: every original
   * character is kept, in order.
   */
  lemma {:induction false} SplicedPreservesText(text: string, sep: char)
    requires sep !in text
    ensures Without(Spliced(text, [sep]), sep) == text
    decreases |text|
  {
    if |text| > 0 {
      var n := |text| - 1;
      var init := text[..n];
      assert text == init + [text[n]];
      SplicedPreservesText(init, sep);
      WithoutSeparatorThenChar(Spliced(init, [sep]), Boundary(text, n), text[n], sep);
    }
  }

  /**
   * `humanize`: split the camel case with spaces and capitalise.  The empty
   * name makes `capitalise` throw, so it is excluded.
   */
  function Humanize(name: string): (r: string)
    requires |name| >= 1
    ensures r == Capitalise(Spliced(name, " "))
    ensures |r| == |name| + Boundaries(name)
    ensures r[0] == ToUpper(name[0])
    ensures !IsLower(r[0])
  {
    SplitCamelCaseIsSpliced(name, " ");
    SplicedLength(name, " ");
    SplicedStartsWithFirst(name, " ");
    Capitalise(SplitCamelCase(name, " "))
  }

  lemma {:induction false} WithoutConcat(a: string, b: string, c: char)
    ensures Without(a + b, c) == Without(a, c) + Without(b, c)
    decreases |b|
  {
    if |b| == 0 {
      assert a + b == a;
    } else {
      var n := |b| - 1;
      WithoutConcat(a, b[..n], c);
      assert a + b == (a + b[..n]) + [b[n]];
      assert b == b[..n] + [b[n]];
      WithoutSnoc(a + b[..n], b[n], c);
      WithoutSnoc(b[..n], b[n], c);
    }
  }

  /**
   * A name without spaces is recovered from its humanized form by deleting
   * the spaces: humanizing only inserts spaces and upper-cases the first
   * character.
   */
  lemma HumanizeOnlyAddsSpaces(name: string)
    requires |name| >= 1 && ' ' !in name
    ensures Without(Humanize(name), ' ') == Capitalise(name)
  {
    var sp := Spliced(name, " ");
    SplicedLength(name, " ");
    SplicedStartsWithFirst(name, " ");
    SplicedPreservesText(name, ' ');
    assert sp == [sp[0]] + sp[1..];
    WithoutConcat([sp[0]], sp[1..], ' ');
    WithoutSnoc([], sp[0], ' ');
    assert [] + [sp[0]] == [sp[0]];
    assert name == [name[0]] + name[1..];
    var h := Humanize(name);
    assert h == [ToUpper(name[0])] + sp[1..];
    WithoutConcat([ToUpper(name[0])], sp[1..], ' ');
    WithoutSnoc([], ToUpper(name[0]), ' ');
    assert [] + [ToUpper(name[0])] == [ToUpper(name[0])];
  }
}
