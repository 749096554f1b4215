/**
 * The runtime's step-function objects (`StepFunctionSupport` and its
 * `Callable`, `Arguments` and `Method` variants) and how each one invokes
 * its entry point.  The entry point's body and `ConvertUtils.convert` are
 * not modelled: they are the functions of an `Env`.
 */
module RuntimeFunctions {
  import opened Lang
  import opened Strings
  import opened Classes
  import opened Beans
  import opened StepProps
  import opened ArgumentProps

  /**
   * What the engine calls out to: `call(m, receiver, args)` is
   * `m.invoke(receiver, args)`, None when it throws; `convert(v, type)` is
   * `ConvertUtils.convert`.
   */
  datatype Env = Env(call: (MethodDesc, Bean, seq<Value>) -> Option<Value>, convert: (Value, string) -> Value)

  /** The variant, with the `Arguments` variant's context type (the apply method's first parameter). */
  datatype Kind = CallableKind | ArgumentsKind(contextType: ParamDesc) | MethodKind

  /**
   * The metadata a registered function carries.  The registry passes the
   * merged `StepProperties` where `StepMetadata`'s constructor expects a
   * `Step`, so the merged properties are kept as they are.
   */
  datatype EntryMetadata = EntryMetadata(
    name: string,
    props: StepProperties,
    returnType: string,
    arguments: seq<AttributeArgs>,
    implementationClass: Option<string>)

  /** A step function: its variant, constructor name, implementation class, metadata and entry method. */
  datatype StepFunction = StepFunction(kind: Kind, name: string, clazz: ClassDesc, metadata: EntryMetadata, entry: MethodDesc)

  /** `new ArgumentsStepFunction(...)`: the context type is the apply method's first parameter. */
  function NewArgumentsStepFunction(name: string, clazz: ClassDesc, metadata: EntryMetadata, applyMethod: MethodDesc)
    : (f: StepFunction)
    requires |applyMethod.params| >= 1
    ensures f.kind == ArgumentsKind(applyMethod.params[0])
    ensures f.name == name && f.clazz == clazz && f.metadata == metadata && f.entry == applyMethod
  {
    StepFunction(ArgumentsKind(applyMethod.params[0]), name, clazz, metadata, applyMethod)
  }

  /** The outcome of `method.invoke`: its return value, or the wrapped exception naming the method. */
  function CallResult(v: Option<Value>, m: MethodDesc): (r: Outcome<Value>)
    ensures r.Ok? <==> v.Some?
    ensures r.Ok? ==> r.value == v.value
    ensures r.Fail? ==> r.failure == InvokeError(m.name)
  {
    match v
    case Some(x) => Ok(x)
    case None => Fail(InvokeError(m.name))
  }

  /** `getName`: the metadata's name, not the name given to the constructor. */
  function GetName(f: StepFunction): (r: string)
    ensures r == f.metadata.name
  {
    f.metadata.name
  }

  /** Two functions that differ only in the name given to their constructor report the same name. */
  lemma GetNameIgnoresConstructorName(f: StepFunction, other: string)
    ensures GetName(f.(name := other)) == GetName(f)
    ensures GetName(f) == f.metadata.name
  {
  }

  /**
   * `toString`: `Simple{impl::name()}`, where `impl::` appears only when the
   * implementation class name is not empty; the `Arguments` variant
   * overrides it with `ArgumentsStepFunction{name}`.
   */
  function ToString(f: StepFunction): (r: string)
    ensures f.kind.ArgumentsKind? ==> r == "ArgumentsStepFunction{" + GetName(f) + "}"
    ensures !f.kind.ArgumentsKind? && f.metadata.implementationClass.Some? && NotEmpty(f.metadata.implementationClass)
            ==> r == SimpleClassName(f.kind) + "{" + f.metadata.implementationClass.value + "::" + GetName(f) + "()}"
    ensures !f.kind.ArgumentsKind? && f.metadata.implementationClass.Some? && IsNullOrEmpty(f.metadata.implementationClass)
            ==> r == SimpleClassName(f.kind) + "{" + f.metadata.implementationClass.value + GetName(f) + "()}"
    ensures !f.kind.ArgumentsKind? && f.metadata.implementationClass.None?
            ==> r == SimpleClassName(f.kind) + "{" + GetName(f) + "()}"
  {
    if f.kind.ArgumentsKind? then "ArgumentsStepFunction{" + GetName(f) + "}"
    else
      var className := if f.metadata.implementationClass.Some? then f.metadata.implementationClass.value else "";
      var prefix := if NotEmpty(Some(className)) then className + "::" else className;
      SimpleClassName(f.kind) + "{" + prefix + GetName(f) + "()}"
  }

  /**
   * The text of a function opens with its class's simple name and a brace,
   * and closes with the name `getName` reports: followed by `}` for the
   * `Arguments` variant and by `()}` for the others.
   */
  lemma ToStringShowsName(f: StepFunction)
    ensures var head := (if f.kind.ArgumentsKind? then "ArgumentsStepFunction" else SimpleClassName(f.kind)) + "{";
      StartsWith(ToString(f), head)
    ensures EndsWith(ToString(f), GetName(f) + (if f.kind.ArgumentsKind? then "}" else "()}"))
  {
    var r := ToString(f);
    var head := (if f.kind.ArgumentsKind? then "ArgumentsStepFunction" else SimpleClassName(f.kind)) + "{";
    var tail := GetName(f) + (if f.kind.ArgumentsKind? then "}" else "()}");
    var middle := if f.kind.ArgumentsKind? || f.metadata.implementationClass.None? then ""
                  else if NotEmpty(f.metadata.implementationClass) then f.metadata.implementationClass.value + "::"
                  else f.metadata.implementationClass.value;
    assert r == head + middle + tail;
    assert r[..|head|] == head;
    assert r[|r| - |tail|..] == tail;
  }

  function SimpleClassName(k: Kind): string {
    match k
    case CallableKind => "CallableStepFunction"
    case ArgumentsKind(_) => "ArgumentsStepFunction"
    case MethodKind => "MethodStepFunction"
  }

  /**
   * `createFunctionObject`: a new instance of the implementation class with
   * the context injected; instantiation failure names the class.
   */
  function CreateFunctionObject(clazz: ClassDesc, ctx: FunctionContext): (r: Outcome<Bean>)
    ensures clazz.newInstance.None? ==> r == Fail(InstantiationError(clazz.name))
    ensures clazz.newInstance.Some? ==> r == InjectContext(clazz.newInstance.value, ctx)
  {
    match clazz.newInstance
    case None => Fail(InstantiationError(clazz.name))
    case Some(b) => InjectContext(b, ctx)
  }

  // ---------------------------------------------------------------------------
  // CallableStepFunction
  // ---------------------------------------------------------------------------

  /**
   * `createArgumentsObject(object, arguments)` of the `Callable` variant:
   * every entry set on the function object itself, which is then returned.
   */
  function CreateArgumentsObject(obj: Bean, arguments: Option<ArgMap>): (r: Outcome<Bean>)
    ensures arguments.None? ==> r == Ok(obj)
    ensures r.Ok? ==> r.value.className == obj.className && r.value.writable == obj.writable
    ensures arguments.Some? ==> r == BindAll(obj, arguments.value, obj.className)
  {
    BindArguments(obj, arguments, obj.className)
  }

  /** `invokeOnInstance` of the `Callable` variant: bind the arguments onto the object, then `call()`. */
  function CallableInvokeOnInstance(env: Env, m: MethodDesc, arguments: Option<ArgMap>, obj: Bean): (r: Outcome<Value>)
    ensures CreateArgumentsObject(obj, arguments).Fail? ==> r == Fail(CreateArgumentsObject(obj, arguments).failure)
    ensures CreateArgumentsObject(obj, arguments).Ok? ==>
      r == CallResult(env.call(m, CreateArgumentsObject(obj, arguments).value, []), m)
  {
    match CreateArgumentsObject(obj, arguments)
    case Fail(e) => Fail(e)
    case Ok(bound) => CallResult(env.call(m, bound, []), m)
  }

  // ---------------------------------------------------------------------------
  // ArgumentsStepFunction
  // ---------------------------------------------------------------------------

  /**
   * The single argument `apply` receives: the caller's map itself when the
   * context type is a `Map`; otherwise a new context object with every entry
   * set on it (left default-constructed for a null map).
   */
  function ContextArgument(contextType: ParamDesc, arguments: Option<ArgMap>): (r: Outcome<Value>)
    ensures contextType.isMap ==> r == Ok(if arguments.Some? then MapValue(arguments.value) else Null)
    ensures !contextType.isMap && contextType.newInstance.None? ==> r == Fail(InstantiationError(contextType.typeName))
    ensures !contextType.isMap && contextType.newInstance.Some? && arguments.None?
            ==> r == Ok(Instance(contextType.newInstance.value))
    ensures !contextType.isMap && contextType.newInstance.Some? && arguments.Some? ==>
      var bound := BindAll(contextType.newInstance.value, arguments.value, contextType.newInstance.value.className);
      (bound.Fail? ==> r == Fail(bound.failure)) && (bound.Ok? ==> r == Ok(Instance(bound.value)))
  {
    if contextType.isMap then
      Ok(if arguments.Some? then MapValue(arguments.value) else Null)
    else
      match contextType.newInstance
      case None => Fail(InstantiationError(contextType.typeName))
      case Some(c) =>
        match BindArguments(c, arguments, c.className)
        case Fail(e) => Fail(e)
        case Ok(bound) => Ok(Instance(bound))
  }

  /**
   * `invokeOnInstance` of the `Arguments` variant: `apply` is called on the
   * function object, untouched by the arguments, with exactly one argument.
   */
  function ArgumentsInvokeOnInstance(env: Env, m: MethodDesc, contextType: ParamDesc, arguments: Option<ArgMap>, obj: Bean)
    : (r: Outcome<Value>)
    ensures ContextArgument(contextType, arguments).Fail? ==> r == Fail(ContextArgument(contextType, arguments).failure)
    ensures ContextArgument(contextType, arguments).Ok? ==>
      r == CallResult(env.call(m, obj, [ContextArgument(contextType, arguments).value]), m)
  {
    match ContextArgument(contextType, arguments)
    case Fail(e) => Fail(e)
    case Ok(a) => CallResult(env.call(m, obj, [a]), m)
  }

  // ---------------------------------------------------------------------------
  // MethodStepFunction
  // ---------------------------------------------------------------------------

  /** The name a parameter is bound by: its `@Argument` name, or its own name when that is null, "" or "null". */
  function BindingName(p: ParamDesc): (r: string)
    ensures NotEmpty(p.argumentName) ==> r == p.argumentName.value
    ensures IsNullOrEmpty(p.argumentName) ==> r == p.name
  {
    if IsNullOrEmpty(p.argumentName) then p.name else p.argumentName.value
  }

  /** One slot: the looked-up value converted to the parameter's type, or null when missing or null. */
  function Slot(env: Env, p: ParamDesc, entries: ArgMap): (v: Value)
    ensures Get(entries, BindingName(p)) == Null ==> v == Null
    ensures Get(entries, BindingName(p)) != Null ==> v == env.convert(Get(entries, BindingName(p)), p.typeName)
  {
    var value := Get(entries, BindingName(p));
    if value == Null then Null else env.convert(value, p.typeName)
  }

  /** The argument array: one slot per formal parameter, in parameter order. */
  function Slots(env: Env, params: seq<ParamDesc>, entries: ArgMap): (r: seq<Value>)
    ensures |r| == |params|
    ensures forall i :: 0 <= i < |params| ==> r[i] == Slot(env, params[i], entries)
  {
    seq(|params|, i requires 0 <= i < |params| => Slot(env, params[i], entries))
  }

  /**
   * `invokeOnInstance` of the `Method` variant as written: `arguments.get`
   * is called for the first parameter without a null check, so a null map
   * throws `NullPointerException` whenever the method has a parameter.
   */
  function MethodInvokeOnInstanceAsWritten(env: Env, m: MethodDesc, arguments: Option<ArgMap>, obj: Bean): (r: Outcome<Value>)
    ensures arguments.None? && |m.params| > 0 ==> r == Fail(NullArguments)
    ensures arguments.Some? ==> r == CallResult(env.call(m, obj, Slots(env, m.params, arguments.value)), m)
  {
    if arguments.None? && |m.params| > 0 then Fail(NullArguments)
    else CallResult(env.call(m, obj, Slots(env, m.params, if arguments.Some? then arguments.value else [])), m)
  }

  /**
   * `invokeOnInstance` of the `Method` variant, with a null map read as an
   * empty one as every other variant does: each parameter receives the
   * converted value bound to its name, or null.
   */
  function MethodInvokeOnInstance(env: Env, m: MethodDesc, arguments: Option<ArgMap>, obj: Bean): (r: Outcome<Value>)
    ensures r.Fail? ==> r.failure == InvokeError(m.name)
    ensures arguments.Some? ==> r == MethodInvokeOnInstanceAsWritten(env, m, arguments, obj)
  {
    CallResult(env.call(m, obj, Slots(env, m.params, if arguments.Some? then arguments.value else [])), m)
  }

  /** The corrected variant treats a null map exactly as an empty one. */
  lemma MethodNullMapLikeEmpty(env: Env, m: MethodDesc, obj: Bean)
    ensures MethodInvokeOnInstance(env, m, None, obj) == MethodInvokeOnInstance(env, m, Some([]), obj)
  {
  }

  /**
   * The discrepancy: for a method with at least one parameter, a null map
   * makes the code as written fail without ever reaching the method, while
   * an empty map, and the corrected variant with a null map, call it with
   * null for every parameter.
   */
  lemma MethodNullMapFails(env: Env, m: MethodDesc, obj: Bean)
    requires |m.params| > 0
    ensures MethodInvokeOnInstanceAsWritten(env, m, None, obj) == Fail(NullArguments)
    ensures MethodInvokeOnInstanceAsWritten(env, m, Some([]), obj)
         == CallResult(env.call(m, obj, seq(|m.params|, _ => Null)), m)
    ensures MethodInvokeOnInstance(env, m, None, obj)
         == CallResult(env.call(m, obj, seq(|m.params|, _ => Null)), m)
  {
    assert Slots(env, m.params, []) == seq(|m.params|, _ => Null);
  }

  // ---------------------------------------------------------------------------
  // StepFunctionSupport
  // ---------------------------------------------------------------------------

  /** `invokeOnInstance`, dispatched on the variant. */
  function InvokeOnInstance(env: Env, f: StepFunction, arguments: Option<ArgMap>, obj: Bean): Outcome<Value> {
    match f.kind
    case CallableKind => CallableInvokeOnInstance(env, f.entry, arguments, obj)
    case ArgumentsKind(contextType) => ArgumentsInvokeOnInstance(env, f.entry, contextType, arguments, obj)
    case MethodKind => MethodInvokeOnInstance(env, f.entry, arguments, obj)
  }

  /**
   * `invoke(arguments, context)`: a new function object with the context
   * injected, then the variant's `invokeOnInstance`.  A successful result is
   * always a value the entry method returned.
   */
  function Invoke(env: Env, f: StepFunction, arguments: Option<ArgMap>, ctx: FunctionContext): (r: Outcome<Value>)
    ensures CreateFunctionObject(f.clazz, ctx).Fail? ==> r == Fail(CreateFunctionObject(f.clazz, ctx).failure)
    ensures CreateFunctionObject(f.clazz, ctx).Ok? ==>
      r == InvokeOnInstance(env, f, arguments, CreateFunctionObject(f.clazz, ctx).value)
    ensures r.Ok? ==> exists receiver, args :: env.call(f.entry, receiver, args) == Some(r.value)
  {
    match CreateFunctionObject(f.clazz, ctx)
    case Fail(e) => Fail(e)
    case Ok(obj) =>
      var r := InvokeOnInstance(env, f, arguments, obj);
      assert r.Ok? ==> exists receiver, args :: env.call(f.entry, receiver, args) == Some(r.value) by {
        if r.Ok? {
          if f.kind.CallableKind? {
            assert env.call(f.entry, CreateArgumentsObject(obj, arguments).value, []) == Some(r.value);
          } else if f.kind.ArgumentsKind? {
            assert env.call(f.entry, obj, [ContextArgument(f.kind.contextType, arguments).value]) == Some(r.value);
          } else {
            assert env.call(f.entry, obj, Slots(env, f.entry.params, if arguments.Some? then arguments.value else [])) == Some(r.value);
          }
        }
      }
      r
  }

  /**
   * A `Callable` function whose argument map names a property without a
   * setter fails with the first such entry, whatever the entry point would
   * do: `call` is never reached.
   */
  lemma CallableBindFailureSkipsCall(env1: Env, env2: Env, f: StepFunction, entries: ArgMap, ctx: FunctionContext, i: int)
    requires f.kind == CallableKind
    requires CreateFunctionObject(f.clazz, ctx).Ok?
    requires FirstUnwritable(entries, CreateFunctionObject(f.clazz, ctx).value.writable, i)
    ensures Invoke(env1, f, Some(entries), ctx) == Invoke(env2, f, Some(entries), ctx)
    ensures Invoke(env1, f, Some(entries), ctx)
         == Fail(BindError(entries[i].0, entries[i].1, CreateFunctionObject(f.clazz, ctx).value.className))
  {
    var obj := CreateFunctionObject(f.clazz, ctx).value;
    var r := BindAll(obj, entries, obj.className);
    var j :| FirstUnwritable(entries, obj.writable, j) && r.failure == BindError(entries[j].0, entries[j].1, obj.className);
    assert j == i;
  }

  /**
   * For a `Callable` function every argument reaches the object `call` runs
   * on: its property holds the value of the last entry for it.
   */
  lemma CallableSeesArguments(env: Env, f: StepFunction, entries: ArgMap, ctx: FunctionContext)
    requires f.kind == CallableKind
    requires CreateFunctionObject(f.clazz, ctx).Ok?
    requires forall i :: 0 <= i < |entries| ==> entries[i].0 in CreateFunctionObject(f.clazz, ctx).value.writable
    ensures exists bound: Bean ::
      && Invoke(env, f, Some(entries), ctx) == CallResult(env.call(f.entry, bound, []), f.entry)
      && forall name :: LastValue(entries, name).Some? ==>
           name in bound.props && bound.props[name] == LastValue(entries, name).value
  {
    var obj := CreateFunctionObject(f.clazz, ctx).value;
    var bound := BindAll(obj, entries, obj.className).value;
    assert Invoke(env, f, Some(entries), ctx) == CallResult(env.call(f.entry, bound, []), f.entry);
  }

  /**
   * `getArguments` of the `Callable` variant: a new function object with
   * the arguments bound, described as its property map; the entry point is
   * not called, so the outcome does not depend on it.
   */
  function GetArguments(env: Env, f: StepFunction, arguments: Option<ArgMap>, ctx: FunctionContext): (r: Outcome<map<string, Value>>)
    requires f.kind == CallableKind
    ensures r.Ok? ==> forall name :: arguments.Some? && LastValue(arguments.value, name).Some? ==>
      name in r.value && r.value[name] == LastValue(arguments.value, name).value
    ensures CreateFunctionObject(f.clazz, ctx).Fail? ==> r == Fail(CreateFunctionObject(f.clazz, ctx).failure)
  {
    match CreateFunctionObject(f.clazz, ctx)
    case Fail(e) => Fail(e)
    case Ok(obj) =>
      match CreateArgumentsObject(obj, arguments)
      case Fail(e) => Fail(e)
      case Ok(bound) => Ok(bound.props)
  }

  /** `getArguments` never calls the entry point. */
  lemma GetArgumentsIgnoresEntryPoint(env1: Env, env2: Env, f: StepFunction, arguments: Option<ArgMap>, ctx: FunctionContext)
    requires f.kind == CallableKind
    ensures GetArguments(env1, f, arguments, ctx) == GetArguments(env2, f, arguments, ctx)
  {
  }

  /**
   * An `Arguments` function whose context type is a `Map` hands the caller's
   * map to `apply` unchanged, on a function object that received no
   * argument properties.
   */
  lemma MapContextPassesMapThrough(env: Env, f: StepFunction, entries: ArgMap, ctx: FunctionContext)
    requires f.kind.ArgumentsKind? && f.kind.contextType.isMap
    requires CreateFunctionObject(f.clazz, ctx).Ok?
    ensures Invoke(env, f, Some(entries), ctx)
         == CallResult(env.call(f.entry, CreateFunctionObject(f.clazz, ctx).value, [MapValue(entries)]), f.entry)
  {
  }
}
