/**
 * The ordering of `java.lang.String.compareTo` (by UTF-16 code unit) and the sorted collections the
 * engine keeps: a `TreeSet<String>` is a strictly ascending sequence, and
 * insertion keeps it so.
 */
module Sorted {

  /**
   * The UTF-16 code units Java stores for `c`: the character itself below
   * U+10000, else its surrogate pair.
   */
  function CodeUnits(c: char): (r: seq<int>)
    ensures 1 <= |r| <= 2
    ensures forall i :: 0 <= i < |r| ==> 0 <= r[i] < 0x10000
    ensures |r| == 2 <==> c as int >= 0x10000
    ensures |r| == 2 ==> 0xD800 <= r[0] < 0xDC00 && 0xDC00 <= r[1] < 0xE000
  {
    var v := c as int;
    if v < 0x10000 then [v]
    else [0xD800 + (v - 0x10000) / 0x400, 0xDC00 + (v - 0x10000) % 0x400]
  }

  /** A Java string: the code units of its characters, one after the other. */
  function Utf16(s: string): seq<int>
    decreases |s|
  {
    if |s| == 0 then [] else CodeUnits(s[0]) + Utf16(s[1..])
  }

  /** Lexicographic order on code-unit sequences, a proper prefix coming first. */
  predicate UnitsLess(a: seq<int>, b: seq<int>)
    decreases |a|
  {
    if |a| == 0 then |b| > 0
    else if |b| == 0 then false
    else if a[0] == b[0] then UnitsLess(a[1..], b[1..])
    else a[0] < b[0]
  }

  /**
   * Where a character falls in UTF-16 order: characters from U+E000 to
   * U+FFFF are stored as one unit above every surrogate, so they come after
   * the characters beyond U+FFFF; the rest keep their code point order.
   */
  function UnitRank(c: char): int {
    var v := c as int;
    if 0xE000 <= v < 0x10000 then v + 0x110000 else v
  }

  /**
   * `a.compareTo(b) < 0`: lexicographic by UTF-16 code unit, a proper prefix
   * coming first; `LessIsCodeUnitOrder` proves this character-wise form
   * equal to the comparison of the code units.
   */
  predicate Less(a: string, b: string)
    decreases |a|
  {
    if |a| == 0 then |b| > 0
    else if |b| == 0 then false
    else if a[0] == b[0] then Less(a[1..], b[1..])
    else UnitRank(a[0]) < UnitRank(b[0])
  }

  /** U+10000 is stored as 0xD800 0xDC00, so it sorts before U+E000. */
  lemma SupplementaryBeforePrivateUse()
    ensures Less("\U{10000}", "\U{E000}") && !Less("\U{E000}", "\U{10000}")
  {
  }

  /** A shared prefix of code units does not decide the order. */
  lemma {:induction false} UnitsLessCommonPrefix(p: seq<int>, x: seq<int>, y: seq<int>)
    ensures UnitsLess(p + x, p + y) == UnitsLess(x, y)
    decreases |p|
  {
    if |p| > 0 {
      assert (p + x)[1..] == p[1..] + x;
      assert (p + y)[1..] == p[1..] + y;
      UnitsLessCommonPrefix(p[1..], x, y);
    } else {
      assert p + x == x && p + y == y;
    }
  }

  /** Two different characters are ordered within their own code units, as their ranks say. */
  lemma DifferentCharsUnits(c: char, d: char, x: seq<int>, y: seq<int>)
    requires c != d
    ensures UnitsLess(CodeUnits(c) + x, CodeUnits(d) + y) == (UnitRank(c) < UnitRank(d))
  {
    var u, w := CodeUnits(c) + x, CodeUnits(d) + y;
    var v, t := c as int, d as int;
    assert u[0] == CodeUnits(c)[0] && w[0] == CodeUnits(d)[0];
    if u[0] == w[0] {
      assert v >= 0x10000 && t >= 0x10000;
      var h := (v - 0x10000) / 0x400;
      assert h == (t - 0x10000) / 0x400;
      assert v - 0x10000 == 0x400 * h + (v - 0x10000) % 0x400;
      assert t - 0x10000 == 0x400 * h + (t - 0x10000) % 0x400;
      assert u[1] == CodeUnits(c)[1] && w[1] == CodeUnits(d)[1];
      assert u[1] != w[1];
      assert UnitsLess(u, w) == UnitsLess(u[1..], w[1..]);
    } else if v >= 0x10000 && t >= 0x10000 {
      var hv, ht := (v - 0x10000) / 0x400, (t - 0x10000) / 0x400;
      assert v - 0x10000 == 0x400 * hv + (v - 0x10000) % 0x400;
      assert t - 0x10000 == 0x400 * ht + (t - 0x10000) % 0x400;
      assert hv < ht ==> v < t;
      assert ht < hv ==> t < v;
    }
  }

  /** `Less` is exactly the order of the strings' UTF-16 code units. */
  lemma {:induction false} LessIsCodeUnitOrder(a: string, b: string)
    ensures Less(a, b) <==> UnitsLess(Utf16(a), Utf16(b))
    decreases |a|
  {
    if |a| > 0 && |b| > 0 {
      if a[0] == b[0] {
        LessIsCodeUnitOrder(a[1..], b[1..]);
        UnitsLessCommonPrefix(CodeUnits(a[0]), Utf16(a[1..]), Utf16(b[1..]));
      } else {
        DifferentCharsUnits(a[0], b[0], Utf16(a[1..]), Utf16(b[1..]));
      }
    }
  }

  lemma {:induction false} LessIrreflexive(a: string)
    ensures !Less(a, a)
    decreases |a|
  {
    if |a| > 0 {
      LessIrreflexive(a[1..]);
    }
  }

  /** Two different strings are ordered one way or the other. */
  lemma {:induction false} LessTotal(a: string, b: string)
    requires a != b
    ensures Less(a, b) || Less(b, a)
    decreases |a|
  {
    if |a| > 0 && |b| > 0 && a[0] == b[0] {
      assert a == [a[0]] + a[1..] && b == [b[0]] + b[1..];
      LessTotal(a[1..], b[1..]);
    }
  }

  /** No string is ordered both ways. */
  lemma {:induction false} LessAsymmetric(a: string, b: string)
    requires Less(a, b)
    ensures !Less(b, a)
    decreases |a|
  {
    if |a| > 0 && |b| > 0 && a[0] == b[0] {
      LessAsymmetric(a[1..], b[1..]);
    }
  }

  /** Strictly ascending: sorted and free of duplicates. */
  ghost predicate StrictlySorted(s: seq<string>) {
    forall i, j :: 0 <= i < j < |s| ==> Less(s[i], s[j])
  }

  /** A strictly ascending sequence holds no element twice. */
  lemma StrictlySortedDistinct(s: seq<string>)
    requires StrictlySorted(s)
    ensures forall i, j :: 0 <= i < j < |s| ==> s[i] != s[j]
  {
    forall i, j | 0 <= i < j < |s|
      ensures s[i] != s[j]
    {
      LessIrreflexive(s[i]);
    }
  }

  /** The first element of a strictly ascending sequence is below all the others. */
  lemma FirstIsLeast(s: seq<string>, y: string)
    requires StrictlySorted(s) && y in s
    ensures y == s[0] || Less(s[0], y)
  {
  }

  /** `TreeSet.add`: insert `x` at its place, unless it is already present. */
  function Insert(s: seq<string>, x: string): (r: seq<string>)
    requires StrictlySorted(s)
    ensures StrictlySorted(r)
    ensures forall y :: y in r <==> y in s || y == x
    ensures x in s ==> r == s
    ensures x !in s ==> |r| == |s| + 1
    decreases |s|
  {
    if |s| == 0 then [x]
    else if x == s[0] then s
    else if Less(x, s[0]) then
      BelowHeadBelowAll(s, x);
      [x] + s
    else
      LessTotal(x, s[0]);
      var rest := Insert(s[1..], x);
      HeadBelowInsertedRest(s, x, rest);
      [s[0]] + rest
  }

  /** An element below the head of a strictly ascending sequence is below all of it, so not in it. */
  lemma BelowHeadBelowAll(s: seq<string>, x: string)
    requires StrictlySorted(s) && |s| > 0 && Less(x, s[0])
    ensures forall j :: 0 <= j < |s| ==> Less(x, s[j])
    ensures x !in s
  {
    forall j | 0 <= j < |s| ensures Less(x, s[j]) {
      if j > 0 {
        LessTransitive(x, s[0], s[j]);
      }
    }
    forall j | 0 <= j < |s| ensures s[j] != x {
      LessIrreflexive(x);
    }
  }

  /** The head stays below everything in the tail with an element above the head inserted. */
  lemma HeadBelowInsertedRest(s: seq<string>, x: string, rest: seq<string>)
    requires StrictlySorted(s) && |s| > 0 && Less(s[0], x)
    requires forall y :: y in rest <==> y in s[1..] || y == x
    ensures forall y :: y in s <==> y == s[0] || y in s[1..]
    ensures forall j :: 0 <= j < |rest| ==> Less(s[0], rest[j])
  {
    assert s == [s[0]] + s[1..];
    forall j | 0 <= j < |rest| ensures Less(s[0], rest[j]) {
      assert rest[j] in rest;
      if rest[j] != x {
        var k :| 0 <= k < |s[1..]| && s[1..][k] == rest[j];
        assert s[k + 1] == rest[j];
      }
    }
  }

  lemma {:induction false} LessTransitive(a: string, b: string, c: string)
    requires Less(a, b) && Less(b, c)
    ensures Less(a, c)
    decreases |a|
  {
    if |a| > 0 && |b| > 0 && |c| > 0 && a[0] == b[0] && b[0] == c[0] {
      LessTransitive(a[1..], b[1..], c[1..]);
    }
  }

  /** Inserting an element that is already present changes nothing. */
  lemma InsertTwice(s: seq<string>, x: string)
    requires StrictlySorted(s)
    ensures Insert(Insert(s, x), x) == Insert(s, x)
  {
  }

  /**
   * A strictly ascending sequence is determined by its elements: the
   * sequence a `TreeSet` presents depends only on what was added.
   */
  lemma {:induction false} SortedUnique(a: seq<string>, b: seq<string>)
    requires StrictlySorted(a) && StrictlySorted(b)
    requires forall y :: y in a <==> y in b
    ensures a == b
    decreases |a|
  {
    assert |a| > 0 ==> a[0] in b;
    assert |b| > 0 ==> b[0] in a;
    if |a| > 0 {
      FirstIsLeast(b, a[0]);
      FirstIsLeast(a, b[0]);
      assert a[0] == b[0] by {
        if a[0] != b[0] {
          LessAsymmetric(a[0], b[0]);
        }
      }
      assert StrictlySorted(a[1..]) && StrictlySorted(b[1..]);
      forall y
        ensures y in a[1..] <==> y in b[1..]
      {
        assert a == [a[0]] + a[1..] && b == [b[0]] + b[1..];
        LessIrreflexive(y);
        if y in a[1..] {
          var k :| 0 <= k < |a[1..]| && a[1..][k] == y;
          assert Less(a[0], a[k + 1]);
          assert y in a && y in b && y != b[0];
          assert y in b[1..];
        }
        if y in b[1..] {
          var k :| 0 <= k < |b[1..]| && b[1..][k] == y;
          assert Less(b[0], b[k + 1]);
          assert y in b && y in a && y != a[0];
          assert y in a[1..];
        }
      }
      SortedUnique(a[1..], b[1..]);
      assert a == [a[0]] + a[1..] && b == [b[0]] + b[1..];
    }
  }
}

/**
 * A `TreeMap<String, V>`: the keys as a strictly ascending sequence next to
 * the key-to-value map, so that iteration visits the keys in ascending order.
 */
module TreeMaps {
  import opened Sorted

  datatype TreeMap<V> = TreeMap(keys: seq<string>, values: map<string, V>)

  /** The key sequence is strictly ascending and lists exactly the mapped keys. */
  ghost predicate Valid<V>(t: TreeMap<V>) {
    StrictlySorted(t.keys) && forall k :: k in t.keys <==> k in t.values
  }

  function Empty<V>(): (t: TreeMap<V>)
    ensures Valid(t) && |t.keys| == 0
  {
    TreeMap([], map[])
  }

  /** `put(k, v)`: the key is added at its place if new, and its value replaced. */
  function Put<V>(t: TreeMap<V>, k: string, v: V): (r: TreeMap<V>)
    requires Valid(t)
    ensures Valid(r)
    ensures r.values == t.values[k := v]
    ensures k in t.values ==> r.keys == t.keys
    ensures k !in t.values ==> |r.keys| == |t.keys| + 1
  {
    TreeMap(Insert(t.keys, k), t.values[k := v])
  }

  /**
   * The key sequence of a valid tree map depends only on which keys are
   * present, not on the order they were put in.
   */
  lemma KeysDetermined<V>(t: TreeMap<V>, u: TreeMap<V>)
    requires Valid(t) && Valid(u) && t.values.Keys == u.values.Keys
    ensures t.keys == u.keys
  {
    SortedUnique(t.keys, u.keys);
  }
}
