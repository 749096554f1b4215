/**
 * The sample step functions the runtime's tests load and invoke, as class
 * descriptions, with an entry point that computes what the sample bodies
 * return.  The `hello` class is described from the test's expectations: its
 * source is not part of this model.
 */
module Scenarios {
  import opened Lang
  import opened Classes
  import opened Beans
  import opened StepProps
  import opened Descriptors
  import opened RuntimeFunctions
  import opened Registry

  const ResultSuccess := Obj("io.jenkins.functions.Result", 0)
  const ResultFailure := Obj("io.jenkins.functions.Result", 1)

  /** The decimal digits of `n`, as `String.valueOf(int)` writes a non-negative int. */
  function Decimal(n: nat): (r: string)
    ensures |r| > 0
    decreases n
  {
    if n < 10 then [(48 + n) as char] else Decimal(n / 10) + [(48 + n % 10) as char]
  }

  /** `"" + i` for an int. */
  function IntText(i: int): string {
    if i < 0 then "-" + Decimal(-i) else Decimal(i)
  }

  /**
   * The bodies of the sample entry points: `call()` greets the `name`
   * property, `apply(context)` succeeds when the context has a message, and
   * `cheese(name, amount)` greets with a number.
   */
  function SampleCall(m: MethodDesc, receiver: Bean, args: seq<Value>): Option<Value> {
    if m.name == "call" && args == [] then
      if "name" in receiver.props && receiver.props["name"].Str? then Some(Str("Hello " + receiver.props["name"].s))
      else Some(Str("Hello null"))
    else if m.name == "apply" && |args| == 1 then
      if args[0].Instance? && "message" in args[0].bean.props && args[0].bean.props["message"] != Null then Some(ResultSuccess)
      else Some(ResultFailure)
    else if m.name == "cheese" && |args| == 2 && args[0].Str? && args[1].Int? then
      Some(Str("Hello " + args[0].s + " #" + IntText(args[1].i)))
    else None
  }

  /** The sample environment: the bodies above, and a conversion that leaves values as they are. */
  const SampleEnv := Env(SampleCall, (v: Value, t: string) => v)

  const Context := FunctionContext(Some(Obj("io.jenkins.functions.Logger", 7)), None)

  /** The properties `BaseFunction` and its subclasses can set. */
  const BaseProps: set<string> := {"logger", "currentDir"}

  const HelloClass := ClassDesc(
    "io.jenkins.functions.sample.HelloFunction",
    [MethodDesc("call", true, [], "java.lang.String", None)],
    None,
    None,
    Some(Bean("io.jenkins.functions.sample.HelloFunction", map[], BaseProps + {"name"})))

  const ExampleContext := ParamDesc(
    "context", None, "io.jenkins.functions.sample.ExampleFunction$Context", false,
    Some(Bean("io.jenkins.functions.sample.ExampleFunction$Context", map[], {"message"})))

  /** `BaseFunction`: abstract, so `newInstance` throws; its accessors are neither `call` nor `apply`. */
  const BaseClass := ClassDesc(
    "io.jenkins.functions.sample.BaseFunction",
    [MethodDesc("getLogger", true, [], "io.jenkins.functions.Logger", None),
     MethodDesc("setLogger", true, [ParamDesc("arg0", None, "io.jenkins.functions.Logger", false, None)], "void", None),
     MethodDesc("getCurrentDir", true, [], "java.io.File", None),
     MethodDesc("setCurrentDir", true, [ParamDesc("arg0", None, "java.io.File", false, None)], "void", None)],
    None,
    None,
    None)

  /** The declared `apply(Context)` returning `Result`. */
  const ExampleApply := MethodDesc("apply", true, [ExampleContext], "io.jenkins.functions.Result", Some(StepAnnotation("", "", "")))

  /** The bridge `Object apply(Object)` the compiler adds for `Function<Context, Result>`. */
  const ExampleBridge := MethodDesc(
    "apply", true,
    [ParamDesc("arg0", None, ObjectClass, false, Some(Bean(ObjectClass, map[], {})))],
    ObjectClass,
    None)

  /**
   * `ExampleFunction`: it declares two `apply` candidates, listed here with
   * the bridge first, and extends `BaseFunction`.
   */
  const ExampleClass := ClassDesc(
    "io.jenkins.functions.sample.ExampleFunction",
    [ExampleBridge, ExampleApply],
    Some(BaseClass),
    Some(StepAnnotation("example", "Some example function", "")),
    Some(Bean("io.jenkins.functions.sample.ExampleFunction", map[], BaseProps)))

  const CheeseMethod := MethodDesc(
    "cheese", true,
    [ParamDesc("arg0", Some("name"), "java.lang.String", false, None),
     ParamDesc("arg1", Some("amount"), "int", false, None)],
    "java.lang.String",
    Some(StepAnnotation("", "Cheesey hello", "")))

  const BeerMethod := MethodDesc(
    "beer", true,
    [ParamDesc("arg0", Some("location"), "java.lang.String", false, None)],
    "java.lang.String",
    Some(StepAnnotation("", "Finds the beer", "")))

  const FunctionsClass := ClassDesc(
    "io.jenkins.functions.sample.Functions",
    [CheeseMethod, BeerMethod],
    None,
    Some(StepAnnotation("", "", "")),
    Some(Bean("io.jenkins.functions.sample.Functions", map[], BaseProps)))

  const SampleLoader := ClassLoader(
    map[HelloClass.name := HelloClass, ExampleClass.name := ExampleClass, FunctionsClass.name := FunctionsClass],
    [],
    map[])

  /** `call()` on the `hello` object with name=James answers "Hello James". */
  lemma HelloCall(f: StepFunction)
    requires f.kind == CallableKind && f.entry == HelloClass.methods[0] && f.clazz == HelloClass
    ensures Invoke(SampleEnv, f, Some([("name", Str("James"))]), Context) == Ok(Str("Hello James"))
  {
    var m := HelloClass.methods[0];
    var obj := HelloClass.newInstance.value.(props := map["logger" := Context.logger.value]);
    assert CreateFunctionObject(HelloClass, Context) == Ok(obj);
    var bound := obj.(props := obj.props["name" := Str("James")]);
    assert BindAll(obj, [("name", Str("James"))], obj.className) == Ok(bound);
    assert m.name == "call" && bound.props["name"] == Str("James");
    assert "Hello " + "James" == "Hello James";
    assert SampleCall(m, bound, []) == Some(Str("Hello James"));
  }

  /** `hello` has `call()`: invoked with name=James it answers "Hello James". */
  lemma HelloScenario()
    ensures LoadStepFunctionsForClass(SampleLoader, StepProperties("hello", None, None, Some(HelloClass.name)), HelloClass, map[]).Ok?
    ensures
      var functions := LoadStepFunctionsForClass(SampleLoader, StepProperties("hello", None, None, Some(HelloClass.name)), HelloClass, map[]).value;
      && "hello" in functions
      && functions["hello"].kind == CallableKind
      && InvokeFunction(SampleEnv, functions, "hello", Some([("name", Str("James"))]), Context) == Ok(Str("Hello James"))
  {
    var p := StepProperties("hello", None, None, Some(HelloClass.name));
    assert FindCallMethod(HelloClass) == Some(HelloClass.methods[0]);
    var functions := LoadStepFunctionsForClass(SampleLoader, p, HelloClass, map[]).value;
    HelloCall(functions["hello"]);
  }

  /** `apply(context)` on the `example` object with message=Hello answers SUCCESS. */
  lemma ExampleCall(f: StepFunction)
    requires f.kind == ArgumentsKind(ExampleContext) && f.entry == ExampleApply && f.clazz == ExampleClass
    ensures Invoke(SampleEnv, f, Some([("message", Str("Hello"))]), Context) == Ok(ResultSuccess)
  {
    var m := ExampleApply;
    var obj := ExampleClass.newInstance.value.(props := map["logger" := Context.logger.value]);
    assert CreateFunctionObject(ExampleClass, Context) == Ok(obj);
    var ctx := ExampleContext.newInstance.value;
    var bound := ctx.(props := map["message" := Str("Hello")]);
    assert BindAll(ctx, [("message", Str("Hello"))], ctx.className) == Ok(bound);
    assert ContextArgument(ExampleContext, Some([("message", Str("Hello"))])) == Ok(Instance(bound));
    assert SampleCall(m, obj, [Instance(bound)]) == Some(ResultSuccess);
  }

  /**
   * `example` declares the bridge `apply(Object)` and `apply(Context)`: the
   * typed one is chosen, and invoked with message=Hello the context carries
   * it and the answer is SUCCESS.
   */
  lemma ExampleScenario()
    ensures SeveralCandidates(ExampleClass.methods)
    ensures LoadStepFunctionsForClass(SampleLoader, StepProperties("example", None, None, Some(ExampleClass.name)), ExampleClass, map[]).Ok?
    ensures
      var functions := LoadStepFunctionsForClass(SampleLoader, StepProperties("example", None, None, Some(ExampleClass.name)), ExampleClass, map[]).value;
      && "example" in functions
      && functions["example"].kind == ArgumentsKind(ExampleContext)
      && functions["example"].entry == ExampleApply
      && InvokeFunction(SampleEnv, functions, "example", Some([("message", Str("Hello"))]), Context) == Ok(ResultSuccess)
  {
    var m := ExampleApply;
    assert SeveralCandidates(ExampleClass.methods) by {
      assert IsApplyCandidate(ExampleClass.methods[0]) && IsApplyCandidate(ExampleClass.methods[1]);
    }
    assert FindCallMethod(ExampleClass).None? by {
      assert forall i :: 0 <= i < |BaseClass.methods| ==> !IsCallMethod(BaseClass.methods[i]);
      assert Lineage(BaseClass) == [BaseClass];
      assert FindCallMethod(BaseClass).None?;
      assert !IsCallMethod(ExampleBridge) && !IsCallMethod(m);
    }
    assert ChooseApply(ExampleClass.methods) == Some(m) by {
      assert FirstIndex(ExampleClass.methods, IsApplyCandidate) == 0;
      assert FirstIndex(ExampleClass.methods, IsTypedApply) == 1;
    }
    var p := StepProperties("example", None, None, Some(ExampleClass.name));
    var functions := LoadStepFunctionsForClass(SampleLoader, p, ExampleClass, map[]).value;
    ExampleCall(functions["example"]);
  }

  /** The `Functions` sample registers its two `@Step` methods under their own names. */
  lemma FunctionsStepMethods()
    ensures LoadStepMethods(FunctionsClass.methods) == map["cheese" := CheeseMethod, "beer" := BeerMethod]
  {
    assert StepMethodName(CheeseMethod) == "cheese" && StepMethodName(BeerMethod) == "beer";
    assert FunctionsClass.methods[..1] == [CheeseMethod];
    assert [CheeseMethod][..0] == [];
    assert LoadStepMethods([CheeseMethod]) == map["cheese" := CheeseMethod];
  }

  /** `Functions` has neither a `call` nor an `apply` method. */
  lemma FunctionsHasNoSingleEntry(p: StepProperties)
    ensures SingleEntry(SampleLoader, p, FunctionsClass).None?
  {
    assert FindCallMethod(FunctionsClass).None? by {
      assert !IsCallMethod(CheeseMethod) && !IsCallMethod(BeerMethod);
      assert Lineage(FunctionsClass) == [FunctionsClass];
    }
    assert FindApplyMethod(FunctionsClass).None? by {
      assert !IsApplyCandidate(CheeseMethod) && !IsApplyCandidate(BeerMethod);
      assert Lineage(FunctionsClass) == [FunctionsClass];
    }
  }

  /** `cheese(name, amount)` on the `Functions` object, with name=James and amount=69, answers "Hello James #69". */
  lemma CheeseCall(f: StepFunction)
    requires f.kind == MethodKind && f.entry == CheeseMethod && f.clazz == FunctionsClass
    ensures Invoke(SampleEnv, f, Some([("name", Str("James")), ("amount", Int(69))]), Context) == Ok(Str("Hello James #69"))
  {
    var obj := FunctionsClass.newInstance.value.(props := map["logger" := Context.logger.value]);
    assert CreateFunctionObject(FunctionsClass, Context) == Ok(obj);
    var entries: ArgMap := [("name", Str("James")), ("amount", Int(69))];
    assert Get(entries, "name") == Str("James");
    assert Get(entries, "amount") == Int(69);
    assert Slots(SampleEnv, CheeseMethod.params, entries) == [Str("James"), Int(69)];
    assert IntText(69) == "69";
    assert "Hello " + "James" + " #" + "69" == "Hello James #69";
    assert SampleCall(CheeseMethod, obj, [Str("James"), Int(69)]) == Some(Str("Hello James #69"));
  }

  /** A class without `call` or `apply` but with a `@Step` method contributes exactly its `Method` functions. */
  lemma MethodClassFunctions(cl: ClassLoader, p: StepProperties, c: ClassDesc, name: string)
    requires SingleEntry(cl, p, c).None? && name in LoadStepMethods(c.methods)
    ensures ClassFunctions(cl, p, c) == Ok(MethodEntries(cl, p, c))
  {
    assert name in MethodEntries(cl, p, c);
  }

  /** Loading a class into an empty registry gives the class's own functions. */
  lemma LoadIntoEmptyRegistry(cl: ClassLoader, p: StepProperties, c: ClassDesc, fs: Functions)
    requires ClassFunctions(cl, p, c) == Ok(fs)
    ensures LoadStepFunctionsForClass(cl, p, c, map[]) == Ok(map[] + fs)
  {
  }

  lemma EmptyUnion(fs: Functions, name: string)
    requires name in fs
    ensures (map[] + fs).Keys == fs.Keys && (map[] + fs)[name] == fs[name]
  {
  }

  /** A class without `call` or `apply` but with a `@Step` method loads as its `Method` functions. */
  lemma MethodClassLoads(cl: ClassLoader, p: StepProperties, c: ClassDesc, name: string)
    requires SingleEntry(cl, p, c).None? && name in LoadStepMethods(c.methods)
    ensures LoadStepFunctionsForClass(cl, p, c, map[]).Ok?
    ensures
      var fs := LoadStepFunctionsForClass(cl, p, c, map[]).value;
      && fs.Keys == LoadStepMethods(c.methods).Keys
      && fs[name].kind == MethodKind && fs[name].clazz == c && fs[name].entry == LoadStepMethods(c.methods)[name]
  {
    var ms := MethodEntries(cl, p, c);
    assert name in ms;
    assert RegisteredFor(cl, p, c, name, ms[name]);
    MethodClassFunctions(cl, p, c, name);
    LoadIntoEmptyRegistry(cl, p, c, ms);
    EmptyUnion(ms, name);
  }

  /** Invoking `cheese` by name reaches the `cheese` method. */
  lemma CheeseDispatch(fs: Functions)
    requires "cheese" in fs && fs["cheese"].kind == MethodKind && fs["cheese"].clazz == FunctionsClass
    requires fs["cheese"].entry == CheeseMethod
    ensures InvokeFunction(SampleEnv, fs, "cheese", Some([("name", Str("James")), ("amount", Int(69))]), Context)
         == Ok(Str("Hello James #69"))
  {
    CheeseCall(fs["cheese"]);
  }

  /**
   * `Functions` has two `@Step` methods and neither `call` nor `apply`:
   * each is registered under its own name, and `cheese` invoked with
   * name=James and amount=69 answers "Hello James #69".
   */
  lemma CheeseScenario()
    ensures LoadStepFunctionsForClass(SampleLoader, StepProperties("functions", None, None, Some(FunctionsClass.name)), FunctionsClass, map[]).Ok?
    ensures
      var functions := LoadStepFunctionsForClass(SampleLoader, StepProperties("functions", None, None, Some(FunctionsClass.name)), FunctionsClass, map[]).value;
      && functions.Keys == {"cheese", "beer"}
      && functions["cheese"].kind == MethodKind
      && InvokeFunction(SampleEnv, functions, "cheese", Some([("name", Str("James")), ("amount", Int(69))]), Context)
         == Ok(Str("Hello James #69"))
  {
    var p := StepProperties("functions", None, None, Some(FunctionsClass.name));
    assert LoadStepMethods(FunctionsClass.methods).Keys == {"cheese", "beer"}
        && LoadStepMethods(FunctionsClass.methods)["cheese"] == CheeseMethod by { FunctionsStepMethods(); }
    assert SingleEntry(SampleLoader, p, FunctionsClass).None? by { FunctionsHasNoSingleEntry(p); }
    MethodClassLoads(SampleLoader, p, FunctionsClass, "cheese");
    CheeseDispatch(LoadStepFunctionsForClass(SampleLoader, p, FunctionsClass, map[]).value);
  }
}
