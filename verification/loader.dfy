/**
 * The earlier loader (`functions-loader`): a descriptor maps each step name
 * straight to a class with a public `call()`, and every step function is a
 * `StepFunctionImpl`.  Its `support` package holds a context-injecting
 * variant of the same machinery.
 */
module Loader {
  import opened Lang
  import opened Strings
  import opened Classes
  import opened Beans
  import opened Descriptors
  import opened LoaderMetadata
  import Registry
  import RuntimeFunctions

  /** `StepFunctionImpl`: the class, its `call()` method and the metadata. */
  datatype StepFunctionImpl = StepFunctionImpl(name: string, clazz: ClassDesc, entry: MethodDesc, metadata: StepMetadata)

  type Functions = map<string, StepFunctionImpl>

  /** Every function is registered under its metadata's name. */
  predicate WellKeyed(functions: Functions) {
    forall k :: k in functions ==> functions[k].metadata.name == k
  }

  /**
   * `createStepFunction`: a class without a public `call()` is rejected;
   * otherwise the metadata carries the key as name, the class annotation's
   * description (null without an annotation), `call`'s return type and an
   * empty argument array.
   */
  function CreateStepFunction(name: string, c: ClassDesc): (r: Outcome<StepFunctionImpl>)
    ensures r.Fail? <==> FindCallMethod(c).None?
    ensures r.Fail? ==> r.failure == NoStepFunction(c.name)
    ensures r.Ok? ==> r.value.clazz == c && r.value.entry == FindCallMethod(c).value && IsCallMethod(r.value.entry)
    ensures r.Ok? ==> r.value.metadata.name == name && r.value.metadata.argumentsMetadata == Some([])
    ensures r.Ok? ==> r.value.metadata.returnType == r.value.entry.returnType
    ensures r.Ok? ==> (r.value.metadata.description.Some? <==> c.step.Some?)
    ensures r.Ok? && c.step.Some? ==> r.value.metadata.description == Some(c.step.value.description)
  {
    match FindCallMethod(c)
    case None => Fail(NoStepFunction(c.name))
    case Some(m) =>
      var description := if c.step.Some? then Some(c.step.value.description) else None;
      Ok(StepFunctionImpl(name, c, m, StepMetadata(name, description, m.returnType, Some([]))))
  }

  /**
   * An entry registers a step only when both its name and its class name are
   * not empty. The loader's own `helpers.Strings.notEmpty` is not part of this
   * model; it is taken to be the runtime's `NotEmpty`.
   */
  predicate Registers(e: Entry) {
    NotEmpty(Some(e.0)) && NotEmpty(Some(e.1))
  }

  /** The step names the registering entries claim. */
  function Claimed(entries: seq<Entry>): (r: set<string>)
    ensures forall n :: n in r <==> exists i :: 0 <= i < |entries| && Registers(entries[i]) && entries[i].0 == n
    decreases |entries|
  {
    if |entries| == 0 then {}
    else
      var rest := Claimed(entries[1..]);
      assert forall i :: 1 <= i < |entries| ==> entries[i] == entries[1..][i - 1];
      if Registers(entries[0]) then {entries[0].0} + rest else rest
  }

  /**
   * The loop of `loadStepFunctionsForURL`: each registering entry's class is
   * loaded and its step function put under the entry's name, replacing any
   * earlier one; a missing class or a class without `call()` aborts.
   */
  function LoadEntries(cl: Registry.ClassLoader, entries: seq<Entry>, functions: Functions): (r: Outcome<Functions>)
    ensures r.Ok? ==> r.value.Keys == functions.Keys + Claimed(entries)
    ensures r.Ok? && WellKeyed(functions) ==> WellKeyed(r.value)
    ensures r.Ok? ==> forall i :: 0 <= i < |entries| && Registers(entries[i]) ==> entries[i].1 in cl.classes
    decreases |entries|
  {
    if |entries| == 0 then Ok(functions)
    else
      var e := entries[0];
      assert forall i :: 1 <= i < |entries| ==> entries[i] == entries[1..][i - 1];
      if !Registers(e) then LoadEntries(cl, entries[1..], functions)
      else if e.1 !in cl.classes then Fail(ClassNotFound(e.1))
      else
        match CreateStepFunction(e.0, cl.classes[e.1])
        case Fail(f) => Fail(f)
        case Ok(f) => LoadEntries(cl, entries[1..], functions[e.0 := f])
  }

  /** Loading two runs of entries is loading the first, then the second into the result. */
  lemma {:induction false} LoadEntriesAppend(cl: Registry.ClassLoader, a: seq<Entry>, b: seq<Entry>, functions: Functions)
    ensures LoadEntries(cl, a + b, functions) ==
      match LoadEntries(cl, a, functions)
      case Fail(f) => Fail(f)
      case Ok(next) => LoadEntries(cl, b, next)
    decreases |a|
  {
    if |a| == 0 {
      assert a + b == b;
    } else {
      assert (a + b)[0] == a[0] && (a + b)[1..] == a[1..] + b;
      var e := a[0];
      if !Registers(e) {
        LoadEntriesAppend(cl, a[1..], b, functions);
      } else if e.1 in cl.classes {
        match CreateStepFunction(e.0, cl.classes[e.1])
        case Fail(_) =>
        case Ok(f) =>
          LoadEntriesAppend(cl, a[1..], b, functions[e.0 := f]);
      }
    }
  }

  /** The last registering entry for a name decides its function. */
  lemma LaterEntryWins(cl: Registry.ClassLoader, entries: seq<Entry>, name: string, className: string, functions: Functions)
    requires NotEmpty(Some(name)) && NotEmpty(Some(className))
    requires LoadEntries(cl, entries + [(name, className)], functions).Ok?
    ensures className in cl.classes && CreateStepFunction(name, cl.classes[className]).Ok?
    ensures name in LoadEntries(cl, entries + [(name, className)], functions).value
    ensures LoadEntries(cl, entries + [(name, className)], functions).value[name]
         == CreateStepFunction(name, cl.classes[className]).value
  {
    LoadEntriesAppend(cl, entries, [(name, className)], functions);
    var next := LoadEntries(cl, entries, functions).value;
    assert [(name, className)][1..] == [];
    assert (entries + [(name, className)])[|entries|] == (name, className);
  }

  /**
   * `loadStepFunctions(classLoader)`: every `steps.properties` resource in
   * enumeration order, all into one map.
   */
  function LoadStepFunctions(cl: Registry.ClassLoader): (r: Outcome<Functions>)
    ensures r.Ok? ==> WellKeyed(r.value)
    ensures r.Ok? ==> r.value.Keys == Claimed(Concat(cl.stepResources))
  {
    ResourcesLoadAsOneStream(cl, cl.stepResources, map[]);
    LoadResources(cl, cl.stepResources, map[])
  }

  function LoadResources(cl: Registry.ClassLoader, resources: seq<seq<Entry>>, functions: Functions): (r: Outcome<Functions>)
    decreases |resources|
  {
    if |resources| == 0 then Ok(functions)
    else
      match LoadEntries(cl, resources[0], functions)
      case Fail(f) => Fail(f)
      case Ok(next) => LoadResources(cl, resources[1..], next)
  }

  /** Reading the resources one after another is reading their concatenation. */
  lemma {:induction false} ResourcesLoadAsOneStream(cl: Registry.ClassLoader, resources: seq<seq<Entry>>, functions: Functions)
    ensures LoadResources(cl, resources, functions) == LoadEntries(cl, Concat(resources), functions)
    decreases |resources|
  {
    if |resources| > 0 {
      LoadEntriesAppend(cl, resources[0], Concat(resources[1..]), functions);
      match LoadEntries(cl, resources[0], functions)
      case Fail(_) =>
      case Ok(next) =>
        ResourcesLoadAsOneStream(cl, resources[1..], next);
    }
  }

  /**
   * `StepFunctionImpl.invoke`: a new instance with every argument set on it
   * (a null map sets nothing), then `call()`; no context is injected.
   */
  function InvokeImpl(env: RuntimeFunctions.Env, f: StepFunctionImpl, arguments: Option<ArgMap>): (r: Outcome<Value>)
    ensures f.clazz.newInstance.None? ==> r == Fail(InstantiationError(f.clazz.name))
    ensures f.clazz.newInstance.Some? ==>
      r == RuntimeFunctions.CallableInvokeOnInstance(env, f.entry, arguments, f.clazz.newInstance.value)
  {
    match f.clazz.newInstance
    case None => Fail(InstantiationError(f.clazz.name))
    case Some(obj) => RuntimeFunctions.CallableInvokeOnInstance(env, f.entry, arguments, obj)
  }

  /**
   * A `StepFunctionImpl` behaves as the runtime's `Callable` variant invoked
   * with an empty context.
   */
  lemma ImplIsCallableWithoutContext(env: RuntimeFunctions.Env, f: StepFunctionImpl, g: RuntimeFunctions.StepFunction, arguments: Option<ArgMap>)
    requires g.kind == RuntimeFunctions.CallableKind && g.clazz == f.clazz && g.entry == f.entry
    ensures InvokeImpl(env, f, arguments) == RuntimeFunctions.Invoke(env, g, arguments, FunctionContext(None, None))
  {
    if f.clazz.newInstance.Some? {
      EmptyContextInjectsNothing(f.clazz.newInstance.value);
    }
  }

  // ---------------------------------------------------------------------------
  // The loader's support package
  // ---------------------------------------------------------------------------

  /** The two support variants; the context variant's context type is the apply method's first parameter. */
  datatype SupportKind = CallableFn | ContextFn(contextType: ParamDesc)

  datatype SupportFunction = SupportFunction(kind: SupportKind, name: string, clazz: ClassDesc, metadata: StepMetadata, entry: MethodDesc)

  /** `getName`: the metadata's name. */
  function SupportName(f: SupportFunction): (r: string)
    ensures r == f.metadata.name
  {
    f.metadata.name
  }

  /**
   * `ContextStepFunction.invokeOnInstance`: as the runtime's `Arguments`
   * variant, except that a property the context object cannot take is
   * reported against the function object.
   */
  function ContextInvokeOnInstance(env: RuntimeFunctions.Env, m: MethodDesc, contextType: ParamDesc, arguments: Option<ArgMap>, obj: Bean)
    : (r: Outcome<Value>)
    ensures contextType.isMap ==>
      r == RuntimeFunctions.CallResult(env.call(m, obj, [if arguments.Some? then MapValue(arguments.value) else Null]), m)
    ensures !contextType.isMap && contextType.newInstance.None? ==> r == Fail(InstantiationError(contextType.typeName))
    ensures !contextType.isMap && contextType.newInstance.Some? ==>
      var context := contextType.newInstance.value;
      var bound := BindArguments(context, arguments, obj.className);
      (bound.Fail? ==> r == Fail(bound.failure))
      && (bound.Ok? ==> r == RuntimeFunctions.CallResult(env.call(m, obj, [Instance(bound.value)]), m))
  {
    if contextType.isMap then
      RuntimeFunctions.CallResult(env.call(m, obj, [if arguments.Some? then MapValue(arguments.value) else Null]), m)
    else
      match contextType.newInstance
      case None => Fail(InstantiationError(contextType.typeName))
      case Some(context) =>
        match BindArguments(context, arguments, obj.className)
        case Fail(e) => Fail(e)
        case Ok(bound) => RuntimeFunctions.CallResult(env.call(m, obj, [Instance(bound)]), m)
  }

  /**
   * The context variant and the runtime's `Arguments` variant agree except
   * in the bean a binding error names: the same property and value are
   * reported, against the function object instead of the context object.
   */
  lemma ContextMatchesArgumentsVariant(env: RuntimeFunctions.Env, m: MethodDesc, contextType: ParamDesc, arguments: Option<ArgMap>, obj: Bean)
    ensures RuntimeFunctions.ArgumentsInvokeOnInstance(env, m, contextType, arguments, obj).Fail?
        <==> ContextInvokeOnInstance(env, m, contextType, arguments, obj).Fail?
    ensures ContextInvokeOnInstance(env, m, contextType, arguments, obj).Ok? ==>
      ContextInvokeOnInstance(env, m, contextType, arguments, obj)
      == RuntimeFunctions.ArgumentsInvokeOnInstance(env, m, contextType, arguments, obj)
    ensures
      var a := RuntimeFunctions.ArgumentsInvokeOnInstance(env, m, contextType, arguments, obj);
      var b := ContextInvokeOnInstance(env, m, contextType, arguments, obj);
      a.Fail? && a.failure.BindError? ==>
        b.Fail? && b.failure == BindError(a.failure.property, a.failure.value, obj.className)
  {
    if !contextType.isMap && contextType.newInstance.Some? && arguments.Some? {
      var context := contextType.newInstance.value;
      BindTargetOnlyInError(context, arguments.value, context.className, obj.className);
    }
  }

  /** The bean named in a binding error does not affect which entry fails or what a success binds. */
  lemma {:induction false} BindTargetOnlyInError(b: Bean, entries: ArgMap, t1: string, t2: string)
    ensures BindAll(b, entries, t1).Ok? <==> BindAll(b, entries, t2).Ok?
    ensures BindAll(b, entries, t1).Ok? ==> BindAll(b, entries, t1) == BindAll(b, entries, t2)
    ensures BindAll(b, entries, t1).Fail? ==>
      && BindAll(b, entries, t1).failure.BindError?
      && BindAll(b, entries, t2).failure
         == BindError(BindAll(b, entries, t1).failure.property, BindAll(b, entries, t1).failure.value, t2)
    decreases |entries|
  {
    if |entries| > 0 {
      match SetBeanProperty(b, entries[0].0, entries[0].1)
      case None =>
      case Some(b1) =>
        BindTargetOnlyInError(b1, entries[1..], t1, t2);
    }
  }

  /**
   * The support package's `invoke`: a new function object with the context
   * injected, then the variant's `invokeOnInstance` (the two-argument form
   * its subclasses declare).
   */
  function SupportInvoke(env: RuntimeFunctions.Env, f: SupportFunction, arguments: Option<ArgMap>, ctx: FunctionContext)
    : (r: Outcome<Value>)
    ensures RuntimeFunctions.CreateFunctionObject(f.clazz, ctx).Fail? ==>
      r == Fail(RuntimeFunctions.CreateFunctionObject(f.clazz, ctx).failure)
    ensures RuntimeFunctions.CreateFunctionObject(f.clazz, ctx).Ok? ==>
      var obj := RuntimeFunctions.CreateFunctionObject(f.clazz, ctx).value;
      && (f.kind.CallableFn? ==> r == RuntimeFunctions.CallableInvokeOnInstance(env, f.entry, arguments, obj))
      && (f.kind.ContextFn? ==> r == ContextInvokeOnInstance(env, f.entry, f.kind.contextType, arguments, obj))
    ensures r.Ok? ==> exists receiver, args :: env.call(f.entry, receiver, args) == Some(r.value)
  {
    match RuntimeFunctions.CreateFunctionObject(f.clazz, ctx)
    case Fail(e) => Fail(e)
    case Ok(obj) =>
      match f.kind
      case CallableFn =>
        var r := RuntimeFunctions.CallableInvokeOnInstance(env, f.entry, arguments, obj);
        assert r.Ok? ==> env.call(f.entry, RuntimeFunctions.CreateArgumentsObject(obj, arguments).value, []) == Some(r.value);
        r
      case ContextFn(contextType) =>
        var r := ContextInvokeOnInstance(env, f.entry, contextType, arguments, obj);
        assert r.Ok? ==> exists receiver, args :: env.call(f.entry, receiver, args) == Some(r.value) by {
          if r.Ok? {
            if contextType.isMap {
              assert env.call(f.entry, obj, [if arguments.Some? then MapValue(arguments.value) else Null]) == Some(r.value);
            } else {
              var bound := BindArguments(contextType.newInstance.value, arguments, obj.className);
              assert env.call(f.entry, obj, [Instance(bound.value)]) == Some(r.value);
            }
          }
        }
        r
  }

  /**
   * The support package's callable variant invokes exactly as the runtime's
   * `Callable` variant over the same class and `call` method, context
   * included.
   */
  lemma SupportCallableIsRuntimeCallable(env: RuntimeFunctions.Env, f: SupportFunction, g: RuntimeFunctions.StepFunction,
                                         arguments: Option<ArgMap>, ctx: FunctionContext)
    requires f.kind == CallableFn && g.kind == RuntimeFunctions.CallableKind && g.clazz == f.clazz && g.entry == f.entry
    ensures SupportInvoke(env, f, arguments, ctx) == RuntimeFunctions.Invoke(env, g, arguments, ctx)
  {
  }

  /**
   * The support package's context variant succeeds exactly when the
   * runtime's `Arguments` variant over the same class and `apply` method
   * does, with the same value; a binding error names the same property and
   * value, against the function object.
   */
  lemma SupportContextMatchesRuntime(env: RuntimeFunctions.Env, f: SupportFunction, g: RuntimeFunctions.StepFunction,
                                     arguments: Option<ArgMap>, ctx: FunctionContext)
    requires f.kind.ContextFn? && g.kind == RuntimeFunctions.ArgumentsKind(f.kind.contextType)
    requires g.clazz == f.clazz && g.entry == f.entry
    ensures SupportInvoke(env, f, arguments, ctx).Ok? <==> RuntimeFunctions.Invoke(env, g, arguments, ctx).Ok?
    ensures SupportInvoke(env, f, arguments, ctx).Ok? ==>
      SupportInvoke(env, f, arguments, ctx) == RuntimeFunctions.Invoke(env, g, arguments, ctx)
    ensures
      var a := RuntimeFunctions.Invoke(env, g, arguments, ctx);
      var b := SupportInvoke(env, f, arguments, ctx);
      a.Fail? && a.failure.BindError? && RuntimeFunctions.CreateFunctionObject(f.clazz, ctx).Ok? ==>
        b.Fail? && b.failure == BindError(a.failure.property, a.failure.value, RuntimeFunctions.CreateFunctionObject(f.clazz, ctx).value.className)
  {
    match RuntimeFunctions.CreateFunctionObject(f.clazz, ctx)
    case Fail(_) =>
    case Ok(obj) =>
      ContextMatchesArgumentsVariant(env, f.entry, f.kind.contextType, arguments, obj);
  }
}
