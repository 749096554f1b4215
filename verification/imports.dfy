/**
 * The two `Imports` classes (the runtime's code generator and the Maven
 * plugin): a map from simple class name to the fully-qualified name that
 * claimed it, and the sorted set of names to import.  Both are written here
 * as state-passing functions over one `ImportTable`.
 */
module ImportTable {
  import opened Lang
  import opened Strings
  import Sorted

  /** `simpleNameToClassName` and the `TreeSet` `importList`. */
  datatype ImportTable = ImportTable(simpleNameToClassName: map<string, string>, importList: seq<string>)

  /** The import list is kept as a strictly ascending sequence. */
  ghost predicate Valid(t: ImportTable) {
    Sorted.StrictlySorted(t.importList)
  }

  const Empty: ImportTable := ImportTable(map[], [])

  /** The text after the last `.` of a fully-qualified name. */
  function SimpleOf(fullName: string): string {
    fullName[LastIndexOf(fullName, '.') + 1..]
  }

  /**
   * Every simple name was claimed by a fully-qualified name whose package is
   * not empty and whose text after the last `.` is that simple name, and
   * every import is a name that claimed its simple name.
   */
  ghost predicate Consistent(t: ImportTable) {
    && Valid(t)
    && (forall k :: k in t.simpleNameToClassName ==>
          LastIndexOf(t.simpleNameToClassName[k], '.') > 0 && SimpleOf(t.simpleNameToClassName[k]) == k)
    && (forall y :: y in t.importList ==> y in t.simpleNameToClassName.Values)
  }

  /**
   * The three-argument `simpleName(fullName, packageName, simpleName)` shared
   * by both classes; `admit` is the class's own condition for adding a newly
   * claimed name to the import list.
   */
  function Claim(t: ImportTable, fullName: string, packageName: string, simpleName: string, admit: bool)
    : (res: (string, ImportTable))
    requires Valid(t)
    ensures Valid(res.1)
    ensures IsNullOrEmpty(Some(packageName)) ==> res == (fullName, t)
    ensures NotEmpty(Some(packageName)) && simpleName !in t.simpleNameToClassName ==>
      && res.0 == simpleName
      && res.1.simpleNameToClassName == t.simpleNameToClassName[simpleName := fullName]
      && (forall y :: y in res.1.importList <==> y in t.importList || (admit && y == fullName))
    ensures NotEmpty(Some(packageName)) && simpleName in t.simpleNameToClassName ==>
      && res.1 == t
      && (res.0 == if t.simpleNameToClassName[simpleName] == fullName then simpleName else fullName)
  {
    if IsNullOrEmpty(Some(packageName)) then (fullName, t)
    else if simpleName !in t.simpleNameToClassName then
      var imports := if admit && fullName !in t.importList then Sorted.Insert(t.importList, fullName) else t.importList;
      (simpleName, ImportTable(t.simpleNameToClassName[simpleName := fullName], imports))
    else if t.simpleNameToClassName[simpleName] != fullName then (fullName, t)
    else (simpleName, t)
  }

  /** The text before the last `.` of a fully-qualified name. */
  function PackageOf(fullName: string): string {
    var idx := LastIndexOf(fullName, '.');
    if idx > 0 then fullName[..idx] else ""
  }

  /** A claim made with a name's own simple name keeps the table consistent. */
  lemma ClaimConsistent(t: ImportTable, fullName: string, packageName: string, simpleName: string, admit: bool)
    requires Consistent(t)
    requires LastIndexOf(fullName, '.') > 0 && SimpleOf(fullName) == simpleName
    ensures Consistent(Claim(t, fullName, packageName, simpleName, admit).1)
  {
    var t1 := Claim(t, fullName, packageName, simpleName, admit).1;
    if t1 != t {
      var m := t.simpleNameToClassName;
      var m1 := t1.simpleNameToClassName;
      assert simpleName !in m && m1 == m[simpleName := fullName];
      forall k | k in m1
        ensures LastIndexOf(m1[k], '.') > 0 && SimpleOf(m1[k]) == k
      {
        if k != simpleName {
          assert m1[k] == m[k];
        }
      }
      forall y | y in t1.importList ensures y in m1.Values {
        if y in t.importList {
          var k :| k in m && m[k] == y;
          assert k != simpleName;
          assert m1[k] == y;
        } else {
          assert y == fullName && m1[simpleName] == y;
        }
      }
    }
  }

  /** Claiming the name that the table already maps a simple name to is a no-op. */
  lemma ClaimAgain(t: ImportTable, fullName: string, packageName: string, simpleName: string, admit: bool)
    requires Valid(t)
    ensures var (r, t1) := Claim(t, fullName, packageName, simpleName, admit);
            Claim(t1, fullName, packageName, simpleName, admit) == (r, t1)
  {
  }
}

/** `io.jenkins.functions.runtime.generator.Imports` */
module GeneratorImports {
  import opened Lang
  import opened Strings
  import opened ImportTable

  /** Admission to the generator's import list: a dotted name outside `java.lang`. */
  predicate Importable(fullName: string) {
    IndexOf(fullName, '.') > 0 && !StartsWith(fullName, "java.lang")
  }

  /** The three-argument `simpleName`. */
  function SimpleName3(t: ImportTable, fullName: string, packageName: string, simpleName: string)
    : (res: (string, ImportTable))
    requires Valid(t)
    ensures Valid(res.1)
    ensures forall y :: y in res.1.importList && y !in t.importList ==> Importable(y) && y == fullName
  {
    Claim(t, fullName, packageName, simpleName, Importable(fullName))
  }

  /**
   * `simpleName(String)`: a generic suffix from the first `<` (when that is
   * not the first character) is split off, the rest is split at its last
   * `.`, and the suffix is put back on the simplified name.
   */
  function SimpleName(t: ImportTable, className: string): (res: (string, ImportTable))
    requires Valid(t)
    ensures Valid(res.1)
  {
    var genIdx := IndexOf(className, '<');
    var genericPart := if genIdx > 0 then className[genIdx..] else "";
    var nonGeneric := if genIdx > 0 then className[..genIdx] else className;
    var idx := LastIndexOf(nonGeneric, '.');
    if idx > 0 then
      var (r, t1) := SimpleName3(t, nonGeneric, nonGeneric[..idx], nonGeneric[idx + 1..]);
      (r + genericPart, t1)
    else (className, t)
  }

  /** The part of a class name before its generic suffix. */
  function NonGeneric(className: string): string {
    var genIdx := IndexOf(className, '<');
    if genIdx > 0 then className[..genIdx] else className
  }

  /** The generic suffix of a class name, from its first `<`. */
  function GenericPart(className: string): string {
    var genIdx := IndexOf(className, '<');
    if genIdx > 0 then className[genIdx..] else ""
  }

  lemma SplitGeneric(className: string)
    ensures NonGeneric(className) + GenericPart(className) == className
    ensures '<' in GenericPart(className) ==> GenericPart(className)[0] == '<'
  {
  }

  /** A name without a `.` after its first character comes back unchanged and records nothing. */
  lemma UndottedUnchanged(t: ImportTable, className: string)
    requires Valid(t)
    requires LastIndexOf(NonGeneric(className), '.') <= 0
    ensures SimpleName(t, className) == (className, t)
  {
  }

  /**
   * A dotted name: a package spelled "null" counts as empty and the name
   * comes back whole; otherwise the generic suffix is re-appended to what
   * the non-generic part resolves to: the simple name for the first class to
   * claim it or for that class again, the full name for any other class.
   */
  lemma SimpleNameCases(t: ImportTable, className: string)
    requires Valid(t)
    requires LastIndexOf(NonGeneric(className), '.') > 0
    ensures var full := NonGeneric(className);
            var simple := SimpleOf(full);
            var (r, t1) := SimpleName(t, className);
            && (PackageOf(full) == "null" ==> r == className && t1 == t)
            && (PackageOf(full) != "null" && simple !in t.simpleNameToClassName ==>
                  r == simple + GenericPart(className)
                  && t1.simpleNameToClassName == t.simpleNameToClassName[simple := full]
                  && (forall y :: y in t1.importList <==> y in t.importList || (y == full && Importable(full))))
            && (PackageOf(full) != "null" && simple in t.simpleNameToClassName
                && t.simpleNameToClassName[simple] == full ==>
                  r == simple + GenericPart(className) && t1 == t)
            && (PackageOf(full) != "null" && simple in t.simpleNameToClassName
                && t.simpleNameToClassName[simple] != full ==>
                  r == full + GenericPart(className) && t1 == t)
  {
    SplitGeneric(className);
  }

  /**
   * Registering the same name a second time returns the same text and
   * leaves the table as the first registration left it.
   */
  lemma SimpleNameTwice(t: ImportTable, className: string)
    requires Valid(t)
    ensures var (r, t1) := SimpleName(t, className);
            SimpleName(t1, className) == (r, t1)
  {
    var genIdx := IndexOf(className, '<');
    var nonGeneric := if genIdx > 0 then className[..genIdx] else className;
    var idx := LastIndexOf(nonGeneric, '.');
    if idx > 0 {
      ClaimAgain(t, nonGeneric, nonGeneric[..idx], nonGeneric[idx + 1..], Importable(nonGeneric));
    }
  }

  /**
   * `simpleName(String)` keeps the table consistent: every simple name maps
   * to a dotted name ending in it, the import list holds only claimed names,
   * all of them dotted and outside `java.lang`.
   */
  lemma SimpleNameConsistent(t: ImportTable, className: string)
    requires Consistent(t)
    requires forall y :: y in t.importList ==> Importable(y)
    ensures Consistent(SimpleName(t, className).1)
    ensures forall y :: y in SimpleName(t, className).1.importList ==> Importable(y)
  {
    var genIdx := IndexOf(className, '<');
    var nonGeneric := if genIdx > 0 then className[..genIdx] else className;
    var idx := LastIndexOf(nonGeneric, '.');
    if idx > 0 {
      ClaimConsistent(t, nonGeneric, nonGeneric[..idx], nonGeneric[idx + 1..], Importable(nonGeneric));
    }
  }

  /** `addImports`: `simpleName` on each name, in order. */
  function AddImports(t: ImportTable, classNames: seq<string>): (t1: ImportTable)
    requires Valid(t)
    ensures Valid(t1)
    decreases |classNames|
  {
    if |classNames| == 0 then t
    else AddImports(SimpleName(t, classNames[0]).1, classNames[1..])
  }

  /** Adding two batches is adding their concatenation. */
  lemma {:induction false} AddImportsAppend(t: ImportTable, a: seq<string>, b: seq<string>)
    requires Valid(t)
    ensures AddImports(t, a + b) == AddImports(AddImports(t, a), b)
    decreases |a|
  {
    if |a| > 0 {
      assert (a + b)[0] == a[0];
      assert (a + b)[1..] == a[1..] + b;
      AddImportsAppend(SimpleName(t, a[0]).1, a[1..], b);
    } else {
      assert a + b == b;
    }
  }

  /**
   * Starting from the empty table, every import that `addImports` records is
   * a claimed, dotted name outside `java.lang`, and the list is strictly
   * ascending.
   */
  lemma {:induction false} AddImportsConsistent(t: ImportTable, classNames: seq<string>)
    requires Consistent(t)
    requires forall y :: y in t.importList ==> Importable(y)
    ensures Consistent(AddImports(t, classNames))
    ensures forall y :: y in AddImports(t, classNames).importList ==> Importable(y)
    decreases |classNames|
  {
    if |classNames| > 0 {
      SimpleNameConsistent(t, classNames[0]);
      AddImportsConsistent(SimpleName(t, classNames[0]).1, classNames[1..]);
    }
  }

  /** `getImportList`: ascending, and no name occurs twice. */
  function GetImportList(t: ImportTable): (r: seq<string>)
    requires Valid(t)
    ensures Sorted.StrictlySorted(r)
    ensures forall i, j :: 0 <= i < j < |r| ==> r[i] != r[j]
    ensures forall y :: y in r <==> y in t.importList
  {
    Sorted.StrictlySortedDistinct(t.importList);
    t.importList
  }

  /**
   * After `addImports` on a new table, the import list holds only claimed,
   * dotted names outside `java.lang`, each the class of some simple name.
   */
  lemma ImportListAfterAdding(classNames: seq<string>)
    ensures var t := AddImports(Empty, classNames);
      forall y :: y in GetImportList(t) ==> Importable(y) && y in t.simpleNameToClassName.Values
  {
    AddImportsConsistent(Empty, classNames);
  }
}

/** `io.jenkins.functions.maven.Imports`: no generic handling, every new claim is imported. */
module MavenImports {
  import opened Lang
  import opened Strings
  import opened ImportTable

  /** The three-argument `simpleName`: every newly claimed name joins the import list. */
  function SimpleName3(t: ImportTable, fullName: string, packageName: string, simpleName: string)
    : (res: (string, ImportTable))
    requires Valid(t)
    ensures Valid(res.1)
    ensures NotEmpty(Some(packageName)) && simpleName !in t.simpleNameToClassName ==>
      forall y :: y in res.1.importList <==> y in t.importList || y == fullName
  {
    Claim(t, fullName, packageName, simpleName, true)
  }

  /** `simpleName(String)`: split at the last `.`; an undotted name is returned as is. */
  function SimpleName(t: ImportTable, className: string): (res: (string, ImportTable))
    requires Valid(t)
    ensures Valid(res.1)
    ensures LastIndexOf(className, '.') <= 0 ==> res == (className, t)
  {
    var idx := LastIndexOf(className, '.');
    if idx > 0 then SimpleName3(t, className, className[..idx], className[idx + 1..])
    else (className, t)
  }

  /**
   * A dotted name: a package spelled "null" counts as empty and the name
   * comes back whole; otherwise the first claim of a simple name gets the
   * simple name and imports the full name (even a `java.lang` one), a clash
   * gets the full name, the same class again gets the simple name, and the
   * last two leave the table unchanged.
   */
  lemma SimpleNameCases(t: ImportTable, className: string)
    requires Valid(t)
    requires LastIndexOf(className, '.') > 0
    ensures var simple := SimpleOf(className);
            var (r, t1) := SimpleName(t, className);
            && (PackageOf(className) == "null" ==> r == className && t1 == t)
            && (PackageOf(className) != "null" && simple !in t.simpleNameToClassName ==>
                  r == simple
                  && t1.simpleNameToClassName == t.simpleNameToClassName[simple := className]
                  && (forall y :: y in t1.importList <==> y in t.importList || y == className))
            && (PackageOf(className) != "null" && simple in t.simpleNameToClassName ==>
                  t1 == t && r == if t.simpleNameToClassName[simple] == className then simple else className)
  {
  }

  /** `simpleName(String)` keeps the table consistent. */
  lemma SimpleNameConsistent(t: ImportTable, className: string)
    requires Consistent(t)
    ensures Consistent(SimpleName(t, className).1)
  {
    var idx := LastIndexOf(className, '.');
    if idx > 0 {
      ClaimConsistent(t, className, className[..idx], className[idx + 1..], true);
    }
  }

  /** `addImports`: `simpleName` on each name, in order. */
  function AddImports(t: ImportTable, classNames: seq<string>): (t1: ImportTable)
    requires Valid(t)
    ensures Valid(t1)
    decreases |classNames|
  {
    if |classNames| == 0 then t
    else AddImports(SimpleName(t, classNames[0]).1, classNames[1..])
  }

  /** Every import `addImports` records is a name that claimed its simple name. */
  lemma {:induction false} AddImportsConsistent(t: ImportTable, classNames: seq<string>)
    requires Consistent(t)
    ensures Consistent(AddImports(t, classNames))
    decreases |classNames|
  {
    if |classNames| > 0 {
      SimpleNameConsistent(t, classNames[0]);
      AddImportsConsistent(SimpleName(t, classNames[0]).1, classNames[1..]);
    }
  }
}
