/**
 * What the engine learns about a step-function class through reflection,
 * as plain data, and the three reflective searches the runtime performs on
 * it: `getMethod("call")`, `findApplyMethod` and `loadStepMethods`.
 */
module Classes {
  import opened Lang
  import opened Strings

  /**
   * A formal parameter: its name, the name of its `@Argument` annotation if
   * it has one, the name of its type, whether that type is assignable to
   * `java.util.Map`, and what `newInstance` on that type yields (None when
   * it throws).
   */
  datatype ParamDesc = ParamDesc(
    name: string,
    argumentName: Option<string>,
    typeName: string,
    isMap: bool,
    newInstance: Option<Bean>)

  /** A declared method: name, visibility, parameters, return type and `@Step` annotation. */
  datatype MethodDesc = MethodDesc(
    name: string,
    isPublic: bool,
    params: seq<ParamDesc>,
    returnType: string,
    step: Option<StepAnnotation>)

  /**
   * A class: its name, its declared methods in the order `getDeclaredMethods`
   * returns them (which the JVM leaves unspecified), its superclass, its
   * class-level `@Step`, and what `newInstance` yields (None when it throws).
   */
  datatype ClassDesc = ClassDesc(
    name: string,
    methods: seq<MethodDesc>,
    superclass: Option<ClassDesc>,
    step: Option<StepAnnotation>,
    newInstance: Option<Bean>)

  const ObjectClass := "java.lang.Object"

  /** The class followed by its superclasses, nearest first. */
  function Lineage(c: ClassDesc): (r: seq<ClassDesc>)
    ensures |r| > 0 && r[0] == c
    decreases c
  {
    match c.superclass
    case None => [c]
    case Some(s) => [c] + Lineage(s)
  }

  /** Some method declared along the lineage satisfies `p`. */
  ghost predicate InLineage(c: ClassDesc, p: MethodDesc -> bool) {
    exists k, i :: 0 <= k < |Lineage(c)| && 0 <= i < |Lineage(c)[k].methods| && p(Lineage(c)[k].methods[i])
  }

  /** `m` is declared by the class or one of its superclasses. */
  ghost predicate DeclaredInLineage(c: ClassDesc, m: MethodDesc) {
    exists k :: 0 <= k < |Lineage(c)| && m in Lineage(c)[k].methods
  }

  /**
   * One step up the hierarchy: what a superclass declares the class has
   * inherited, and when the class itself declares nothing satisfying `p`,
   * the lineages of both agree on `p`.
   */
  lemma LineageStep(c: ClassDesc, s: ClassDesc, p: MethodDesc -> bool, m: MethodDesc)
    requires c.superclass == Some(s)
    ensures DeclaredInLineage(s, m) ==> DeclaredInLineage(c, m)
    ensures (forall i :: 0 <= i < |c.methods| ==> !p(c.methods[i])) ==> (InLineage(s, p) <==> InLineage(c, p))
  {
    assert Lineage(c) == [c] + Lineage(s);
    if DeclaredInLineage(s, m) {
      var k :| 0 <= k < |Lineage(s)| && m in Lineage(s)[k].methods;
      assert Lineage(c)[k + 1] == Lineage(s)[k];
    }
    if forall i :: 0 <= i < |c.methods| ==> !p(c.methods[i]) {
      if InLineage(c, p) {
        var k, j :| 0 <= k < |Lineage(c)| && 0 <= j < |Lineage(c)[k].methods| && p(Lineage(c)[k].methods[j]);
        assert k > 0;
        assert Lineage(s)[k - 1] == Lineage(c)[k];
      }
      if InLineage(s, p) {
        var k, j :| 0 <= k < |Lineage(s)| && 0 <= j < |Lineage(s)[k].methods| && p(Lineage(s)[k].methods[j]);
        assert Lineage(c)[k + 1] == Lineage(s)[k];
      }
    }
  }

  /** The position of the first method satisfying `p`, or -1. */
  function FirstIndex(ms: seq<MethodDesc>, p: MethodDesc -> bool): (r: int)
    ensures -1 <= r < |ms|
    ensures r == -1 <==> forall i :: 0 <= i < |ms| ==> !p(ms[i])
    ensures r >= 0 ==> p(ms[r]) && forall i :: 0 <= i < r ==> !p(ms[i])
    decreases |ms|
  {
    if |ms| == 0 then -1
    else if p(ms[0]) then 0
    else
      var k := FirstIndex(ms[1..], p);
      if k == -1 then -1 else k + 1
  }

  // ---------------------------------------------------------------------------
  // clazz.getMethod("call")
  // ---------------------------------------------------------------------------

  /** A public `call()` taking no parameters. */
  predicate IsCallMethod(m: MethodDesc) {
    m.isPublic && m.name == "call" && |m.params| == 0
  }

  /** A `call()` whose return type is not `Object`: never the bridge of a `Callable<T>`. */
  predicate IsTypedCall(m: MethodDesc) {
    IsCallMethod(m) && m.returnType != ObjectClass
  }

  /**
   * `getMethod("call")`: the public zero-parameter `call`, looked up in the
   * class and then in its superclasses; among the class's own, one with a
   * more specific return type than `Object` is preferred to the bridge.
   * None stands for `NoSuchMethodException`.
   */
  function FindCallMethod(c: ClassDesc): (r: Option<MethodDesc>)
    ensures r.Some? ==> IsCallMethod(r.value)
    ensures r.Some? ==> DeclaredInLineage(c, r.value)
    ensures r.None? <==> !InLineage(c, IsCallMethod)
    ensures FirstIndex(c.methods, IsTypedCall) >= 0 ==> r == Some(c.methods[FirstIndex(c.methods, IsTypedCall)])
    ensures FirstIndex(c.methods, IsTypedCall) < 0 && FirstIndex(c.methods, IsCallMethod) >= 0 ==>
      r == Some(c.methods[FirstIndex(c.methods, IsCallMethod)])
    decreases c
  {
    var i := FirstIndex(c.methods, IsCallMethod);
    var typed := FirstIndex(c.methods, IsTypedCall);
    if typed >= 0 then
      assert c.methods[typed] in Lineage(c)[0].methods;
      Some(c.methods[typed])
    else if i >= 0 then
      assert c.methods[i] in Lineage(c)[0].methods;
      Some(c.methods[i])
    else
      match c.superclass
      case None =>
        assert Lineage(c) == [c];
        None
      case Some(s) =>
        var r := FindCallMethod(s);
        LineageStep(c, s, IsCallMethod, if r.Some? then r.value else MethodDesc("", false, [], "", None));
        r
  }

  // ---------------------------------------------------------------------------
  // findApplyMethod
  // ---------------------------------------------------------------------------

  /** A declared `apply` taking exactly one parameter, whatever its visibility. */
  predicate IsApplyCandidate(m: MethodDesc) {
    m.name == "apply" && |m.params| == 1
  }

  /** A candidate whose return type is not `Object`. */
  predicate IsTypedApply(m: MethodDesc) {
    IsApplyCandidate(m) && m.returnType != ObjectClass
  }

  /** The class declares more than one candidate. */
  predicate SeveralCandidates(ms: seq<MethodDesc>) {
    exists i, j :: 0 <= i < j < |ms| && IsApplyCandidate(ms[i]) && IsApplyCandidate(ms[j])
  }

  /**
   * The choice among the candidates declared by one class: with several,
   * the first whose return type is not `Object`, else the first; with one,
   * that one.
   */
  function ChooseApply(ms: seq<MethodDesc>): (r: Option<MethodDesc>)
    ensures r.None? <==> forall i :: 0 <= i < |ms| ==> !IsApplyCandidate(ms[i])
    ensures r.Some? ==> r.value in ms && IsApplyCandidate(r.value)
    ensures r.Some? && SeveralCandidates(ms) && (exists i :: 0 <= i < |ms| && IsTypedApply(ms[i]))
            ==> IsTypedApply(r.value)
    ensures r.Some? && !SeveralCandidates(ms) ==> r.value == ms[FirstIndex(ms, IsApplyCandidate)]
    ensures r.Some? && SeveralCandidates(ms) && FirstIndex(ms, IsTypedApply) >= 0 ==> r.value == ms[FirstIndex(ms, IsTypedApply)]
    ensures r.Some? && SeveralCandidates(ms) && FirstIndex(ms, IsTypedApply) < 0 ==> r.value == ms[FirstIndex(ms, IsApplyCandidate)]
  {
    var first := FirstIndex(ms, IsApplyCandidate);
    if first == -1 then None
    else
      var next := FirstIndex(ms[first + 1..], IsApplyCandidate);
      assert next >= 0 ==> ms[first + 1..][next] == ms[first + 1 + next];
      assert SeveralCandidates(ms) <==> next >= 0 by {
        if SeveralCandidates(ms) {
          var i, j :| 0 <= i < j < |ms| && IsApplyCandidate(ms[i]) && IsApplyCandidate(ms[j]);
          assert first <= i;
          assert ms[first + 1..][j - first - 1] == ms[j];
        }
      }
      if next >= 0 then
        var typed := FirstIndex(ms, IsTypedApply);
        if typed >= 0 then Some(ms[typed]) else Some(ms[first])
      else Some(ms[first])
  }

  /**
   * `findApplyMethod`: the choice among the class's own candidates when it
   * declares any, otherwise the search continues in the superclass; None
   * when the hierarchy is exhausted.
   */
  function FindApplyMethod(c: ClassDesc): (r: Option<MethodDesc>)
    ensures r.Some? ==> IsApplyCandidate(r.value)
    ensures r.Some? ==> DeclaredInLineage(c, r.value)
    ensures r.None? <==> !InLineage(c, IsApplyCandidate)
    ensures ChooseApply(c.methods).Some? ==> r == ChooseApply(c.methods)
    decreases c
  {
    match ChooseApply(c.methods)
    case Some(m) =>
      assert m in Lineage(c)[0].methods;
      Some(m)
    case None =>
      match c.superclass
      case None =>
        assert Lineage(c) == [c];
        None
      case Some(s) =>
        var r := FindApplyMethod(s);
        LineageStep(c, s, IsApplyCandidate, if r.Some? then r.value else MethodDesc("", false, [], "", None));
        r
  }

  // ---------------------------------------------------------------------------
  // loadStepMethods
  // ---------------------------------------------------------------------------

  /** A public method carrying `@Step`. */
  predicate IsStepMethod(m: MethodDesc) {
    m.isPublic && m.step.Some?
  }

  /** The annotation's name, or the method's own name when that is null, "" or "null". */
  function StepMethodName(m: MethodDesc): (r: string)
    requires m.step.Some?
    ensures NotEmpty(Some(m.step.value.name)) ==> r == m.step.value.name
    ensures IsNullOrEmpty(Some(m.step.value.name)) ==> r == m.name
  {
    if IsNullOrEmpty(Some(m.step.value.name)) then m.name else m.step.value.name
  }

  /** `ms[i]` is a step method registered under `name`. */
  predicate StepMethodFor(ms: seq<MethodDesc>, i: int, name: string)
    requires 0 <= i < |ms|
  {
    IsStepMethod(ms[i]) && StepMethodName(ms[i]) == name
  }

  /** A prefix has the same step methods at the same positions. */
  lemma StepMethodsOfPrefix(ms: seq<MethodDesc>, n: nat)
    requires n <= |ms|
    ensures forall i, name :: 0 <= i < n ==> (StepMethodFor(ms[..n], i, name) <==> StepMethodFor(ms, i, name))
  {
  }

  /**
   * `loadStepMethods`: every public `@Step` method under its step name; when
   * two methods claim the same name the earlier one is kept.
   */
  function LoadStepMethods(ms: seq<MethodDesc>): (r: map<string, MethodDesc>)
    ensures forall name :: name in r <==> exists i :: 0 <= i < |ms| && StepMethodFor(ms, i, name)
    ensures forall name :: name in r ==> r[name] in ms && IsStepMethod(r[name]) && StepMethodName(r[name]) == name
    decreases |ms|
  {
    if |ms| == 0 then map[]
    else
      var n := |ms| - 1;
      var init := ms[..n];
      var rest := LoadStepMethods(init);
      StepMethodsOfPrefix(ms, n);
      if IsStepMethod(ms[n]) && StepMethodName(ms[n]) !in rest then
        assert StepMethodFor(ms, n, StepMethodName(ms[n]));
        rest[StepMethodName(ms[n]) := ms[n]]
      else rest
  }

  /** The method registered under a name is the earliest step method claiming it. */
  lemma {:induction false} EarliestStepMethodKept(ms: seq<MethodDesc>, name: string)
    requires name in LoadStepMethods(ms)
    ensures exists i :: 0 <= i < |ms| && StepMethodFor(ms, i, name) && LoadStepMethods(ms)[name] == ms[i]
                        && forall j :: 0 <= j < i ==> !StepMethodFor(ms, j, name)
    decreases |ms|
  {
    var n := |ms| - 1;
    var init := ms[..n];
    var rest := LoadStepMethods(init);
    StepMethodsOfPrefix(ms, n);
    if name in rest {
      EarliestStepMethodKept(init, name);
      var i :| 0 <= i < n && StepMethodFor(init, i, name) && rest[name] == init[i]
               && forall j :: 0 <= j < i ==> !StepMethodFor(init, j, name);
      assert LoadStepMethods(ms)[name] == ms[i];
    } else {
      assert StepMethodFor(ms, n, name) && LoadStepMethods(ms)[name] == ms[n];
    }
  }
}
