/**
 * The runtime registry (`StepFunctions`): turning the step descriptors and
 * the classes they name into a map from step name to step function, and
 * dispatching an invocation by name.
 */
module Registry {
  import opened Lang
  import opened Strings
  import opened Classes
  import opened StepProps
  import opened ArgumentProps
  import opened Descriptors
  import opened Beans
  import opened RuntimeFunctions

  /**
   * What the class loader can see: the classes it loads by name, the
   * contents of every `io/jenkins/functions/steps.properties` resource in
   * enumeration order, and the `<step>-arguments.properties` resource of
   * each step that has one.
   */
  datatype ClassLoader = ClassLoader(
    classes: map<string, ClassDesc>,
    stepResources: seq<seq<Entry>>,
    argumentResources: map<string, seq<Entry>>)

  type Functions = map<string, StepFunction>

  /** Every function is registered under the name it reports. */
  predicate WellKeyed(functions: Functions) {
    forall k :: k in functions ==> GetName(functions[k]) == k
  }

  /**
   * `loadArgumentMetadataFromProperties(name, classLoader)`: the step's
   * argument resource, read as empty when there is none; the metadata is in
   * argument-name order and only for arguments the resource names.
   */
  function ArgumentMetadataFor(cl: ClassLoader, name: string): (r: seq<AttributeArgs>)
    ensures name !in cl.argumentResources ==> r == []
    ensures Sorted.StrictlySorted(AttributeNames(r))
    ensures forall a :: a in AttributeNames(r) ==> name in cl.argumentResources && a in Owners(cl.argumentResources[name])
    ensures name in cl.argumentResources ==> forall a :: a in Owners(cl.argumentResources[name]) ==>
      (a in AttributeNames(r) <==> NotEmpty(ReadArguments(TreeMaps.Empty(), name, cl.argumentResources[name]).values[a].typeName))
    ensures name in cl.argumentResources ==> forall i :: 0 <= i < |r| ==>
      && r[i].attributeName in ReadArguments(TreeMaps.Empty(), name, cl.argumentResources[name]).values
      && Some(r[i]) == CreateAttributeMetadata(ReadArguments(TreeMaps.Empty(), name, cl.argumentResources[name]).values[r[i].attributeName], cl.classes.Keys)
  {
    var entries := if name in cl.argumentResources then cl.argumentResources[name] else [];
    LoadArgumentMetadataFromProperties(name, entries, cl.classes.Keys)
  }

  /**
   * The metadata of a function registered under `key` for entry method `m`:
   * the class's configured properties with the method's `@Step` layered on,
   * the method's return type, the argument metadata of `key`, and the class.
   */
  function MetadataFor(cl: ClassLoader, key: string, configured: StepProperties, c: ClassDesc, m: MethodDesc)
    : (r: EntryMetadata)
    ensures r.name == key && r.implementationClass == Some(c.name)
    ensures r.props == ChildStepProperties(configured, m.step) && r.returnType == m.returnType
    ensures r.arguments == ArgumentMetadataFor(cl, key)
  {
    EntryMetadata(key, ChildStepProperties(configured, m.step), m.returnType, ArgumentMetadataFor(cl, key), Some(c.name))
  }

  /** The names a class registers: its step name when it has `call` or `apply`, else its `@Step` method names. */
  function ClaimedNames(p: StepProperties, c: ClassDesc): set<string> {
    if FindCallMethod(c).Some? || FindApplyMethod(c).Some? then {p.name}
    else LoadStepMethods(c.methods).Keys
  }

  /** `f` is the function registered under `key` for class `c` with entry method `f.entry`. */
  predicate RegisteredFor(cl: ClassLoader, p: StepProperties, c: ClassDesc, key: string, f: StepFunction) {
    GetName(f) == key && f.clazz == c && f.metadata == MetadataFor(cl, key, Configure(p, c.step), c, f.entry)
  }

  /**
   * The single function of a class with a public `call()` (the `Callable`
   * variant) or, failing that, an `apply` method (the `Arguments` variant),
   * under the step's name as read from the descriptor.
   */
  function SingleEntry(cl: ClassLoader, p: StepProperties, c: ClassDesc): (r: Option<StepFunction>)
    ensures r.Some? <==> FindCallMethod(c).Some? || FindApplyMethod(c).Some?
    ensures FindCallMethod(c).Some? ==>
      r.Some? && r.value.kind == CallableKind && r.value.entry == FindCallMethod(c).value
    ensures FindCallMethod(c).None? && FindApplyMethod(c).Some? ==>
      && r.Some?
      && r.value.kind == ArgumentsKind(FindApplyMethod(c).value.params[0])
      && r.value.entry == FindApplyMethod(c).value
    ensures r.Some? ==> RegisteredFor(cl, p, c, p.name, r.value)
  {
    var configured := Configure(p, c.step);
    match FindCallMethod(c)
    case Some(m) => Some(StepFunction(CallableKind, p.name, c, MetadataFor(cl, p.name, configured, c, m), m))
    case None =>
      match FindApplyMethod(c)
      case Some(m) => Some(NewArgumentsStepFunction(p.name, c, MetadataFor(cl, p.name, configured, c, m), m))
      case None => None
  }

  /** The `Method` function of step method `m`, registered under `key`. */
  function MethodFunction(cl: ClassLoader, p: StepProperties, c: ClassDesc, key: string, m: MethodDesc): (f: StepFunction)
    ensures f.kind == MethodKind && f.entry == m && RegisteredFor(cl, p, c, key, f)
  {
    StepFunction(MethodKind, p.name, c, MetadataFor(cl, key, Configure(p, c.step), c, m), m)
  }

  /** One `Method` function per `@Step` method, registered under the method's step name. */
  function MethodEntries(cl: ClassLoader, p: StepProperties, c: ClassDesc): (r: Functions)
    ensures r.Keys == LoadStepMethods(c.methods).Keys
    ensures forall k :: k in r ==>
      r[k].kind == MethodKind && r[k].entry == LoadStepMethods(c.methods)[k] && RegisteredFor(cl, p, c, k, r[k])
  {
    var steps := LoadStepMethods(c.methods);
    map k | k in steps :: MethodFunction(cl, p, c, k, steps[k])
  }

  /**
   * The functions a class contributes: its single `Callable` or `Arguments`
   * function, or else its `Method` functions; a class with none of these is
   * rejected.
   */
  function ClassFunctions(cl: ClassLoader, p: StepProperties, c: ClassDesc): (r: Outcome<Functions>)
    ensures r.Fail? <==> SingleEntry(cl, p, c).None? && |MethodEntries(cl, p, c)| == 0
    ensures r.Fail? ==> r.failure == NoStepFunction(c.name)
    ensures r.Ok? ==> r.value.Keys == ClaimedNames(p, c)
    ensures r.Ok? ==> forall k :: k in r.value ==> RegisteredFor(cl, p, c, k, r.value[k])
    ensures SingleEntry(cl, p, c).Some? ==> r == Ok(map[p.name := SingleEntry(cl, p, c).value])
  {
    match SingleEntry(cl, p, c)
    case Some(f) => Ok(map[p.name := f])
    case None =>
      var ms := MethodEntries(cl, p, c);
      if |ms| == 0 then Fail(NoStepFunction(c.name)) else Ok(ms)
  }

  /**
   * `loadStepFunctionsForClass`: the class's functions put into the
   * registry, each replacing whatever was registered under its name.
   */
  function LoadStepFunctionsForClass(cl: ClassLoader, p: StepProperties, c: ClassDesc, registry: Functions)
    : (r: Outcome<Functions>)
    ensures r.Fail? <==> ClassFunctions(cl, p, c).Fail?
    ensures r.Fail? ==> r.failure == NoStepFunction(c.name)
    ensures r.Ok? ==> r.value.Keys == registry.Keys + ClaimedNames(p, c)
    ensures r.Ok? ==> forall k :: k in registry && k !in ClaimedNames(p, c) ==> r.value[k] == registry[k]
    ensures r.Ok? ==> forall k :: k in ClaimedNames(p, c) ==> RegisteredFor(cl, p, c, k, r.value[k])
  {
    match ClassFunctions(cl, p, c)
    case Fail(e) => Fail(e)
    case Ok(fs) => Ok(registry + fs)
  }

  /**
   * A class that has `call()` is registered under the descriptor's name even
   * when its `@Step` renames the step: the new name reaches only the
   * metadata's properties.
   */
  lemma CallableKeptUnderDescriptorName(cl: ClassLoader, p: StepProperties, c: ClassDesc, registry: Functions, renamed: string)
    requires FindCallMethod(c).Some? && FindCallMethod(c).value.step.None?
    requires c.step.Some? && c.step.value.name == renamed && NotEmpty(Some(renamed)) && renamed != p.name
    ensures LoadStepFunctionsForClass(cl, p, c, registry).Ok?
    ensures renamed !in registry ==> renamed !in LoadStepFunctionsForClass(cl, p, c, registry).value
    ensures GetName(LoadStepFunctionsForClass(cl, p, c, registry).value[p.name]) == p.name
    ensures LoadStepFunctionsForClass(cl, p, c, registry).value[p.name].metadata.props.name == renamed
  {
    var f := SingleEntry(cl, p, c).value;
    assert LoadStepFunctionsForClass(cl, p, c, registry).value[p.name] == f;
    assert f.metadata.props == ChildStepProperties(Configure(p, c.step), f.entry.step);
    assert Configure(p, c.step).name == renamed;
  }

  /**
   * One iteration of the loading loop: a step without a type is skipped, a
   * type the loader cannot find aborts, and otherwise the step's class
   * registers its functions, each replacing whatever was registered under
   * its name.
   */
  function LoadStep(cl: ClassLoader, p: StepProperties, registry: Functions): (r: Outcome<Functions>)
    ensures IsNullOrEmpty(p.typeName) ==> r == Ok(registry)
    ensures r.Fail? ==> Rejects(cl, p, r.failure)
    ensures r.Ok? && NotEmpty(p.typeName) ==> p.typeName.value in cl.classes
    ensures r.Ok? ==> registry.Keys <= r.value.Keys
    ensures r.Ok? ==> r.value.Keys == registry.Keys + StepClaims(cl, p)
    ensures r.Ok? ==> forall k :: k in r.value ==>
      if k in StepClaims(cl, p) then RegisteredByStep(cl, p, k, r.value[k]) else r.value[k] == registry[k]
    ensures r.Ok? && WellKeyed(registry) ==> WellKeyed(r.value)
  {
    if IsNullOrEmpty(p.typeName) then Ok(registry)
    else if p.typeName.value !in cl.classes then Fail(ClassNotFound(p.typeName.value))
    else
      ClassLoadKeepsRegistry(cl, p, cl.classes[p.typeName.value], registry);
      LoadStepFunctionsForClass(cl, p, cl.classes[p.typeName.value], registry)
  }

  /** The names step `p` claims: those of its class, or none when it has no type or its class is missing. */
  function StepClaims(cl: ClassLoader, p: StepProperties): set<string> {
    if NotEmpty(p.typeName) && p.typeName.value in cl.classes then ClaimedNames(p, cl.classes[p.typeName.value]) else {}
  }

  /** `f` is what the class of typed step `p` registers under the name `k` it claims. */
  predicate RegisteredByStep(cl: ClassLoader, p: StepProperties, k: string, f: StepFunction) {
    && NotEmpty(p.typeName) && p.typeName.value in cl.classes
    && k in ClaimedNames(p, cl.classes[p.typeName.value])
    && RegisteredFor(cl, p, cl.classes[p.typeName.value], k, f)
  }

  /** Loading a class keeps every name already registered, and keeps the registry well keyed. */
  lemma ClassLoadKeepsRegistry(cl: ClassLoader, p: StepProperties, c: ClassDesc, registry: Functions)
    ensures var r := LoadStepFunctionsForClass(cl, p, c, registry);
      && (r.Ok? ==> registry.Keys <= r.value.Keys)
      && (r.Ok? && WellKeyed(registry) ==> WellKeyed(r.value))
  {
    var r := LoadStepFunctionsForClass(cl, p, c, registry);
    if r.Ok? && WellKeyed(registry) {
      forall k | k in r.value ensures GetName(r.value[k]) == k {
        if k in ClaimedNames(p, c) {
          assert RegisteredFor(cl, p, c, k, r.value[k]);
        }
      }
    }
  }

  /** A loader of one step into a registry, as `LoadStep` is for a given class loader. */
  type StepLoader = (StepProperties, Functions) -> Outcome<Functions>

  function StepLoaderOf(cl: ClassLoader): StepLoader {
    (p: StepProperties, registry: Functions) => LoadStep(cl, p, registry)
  }

  /**
   * The loading loop over the steps in `order`, for any step loader: each
   * step is loaded in turn into the registry, and the first step that
   * fails aborts the whole load.
   */
  function LoadLoop(load: StepLoader, steps: map<string, StepProperties>, order: seq<string>, registry: Functions)
    : (r: Outcome<Functions>)
    requires forall i :: 0 <= i < |order| ==> order[i] in steps
    decreases |order|
  {
    if |order| == 0 then Ok(registry)
    else
      match load(steps[order[0]], registry)
      case Fail(e) => Fail(e)
      case Ok(next) => LoadLoop(load, steps, order[1..], next)
  }

  /** Each step load keeps the names already registered and keeps the registry well keyed. */
  ghost predicate KeepsRegistry(load: StepLoader) {
    forall p: StepProperties, registry: Functions :: load(p, registry).Ok? ==>
      && registry.Keys <= load(p, registry).value.Keys
      && (WellKeyed(registry) ==> WellKeyed(load(p, registry).value))
  }

  /** Each successful step load of a typed step found its class. */
  ghost predicate ResolvesTypes(load: StepLoader, cl: ClassLoader) {
    forall p: StepProperties, registry: Functions :: load(p, registry).Ok? && NotEmpty(p.typeName) ==> p.typeName.value in cl.classes
  }

  /** Each failed step load is rejected by the step's type. */
  ghost predicate FailsByType(load: StepLoader, cl: ClassLoader) {
    forall p: StepProperties, registry: Functions :: load(p, registry).Fail? ==> Rejects(cl, p, load(p, registry).failure)
  }

  /** A step without a type leaves the registry as it is. */
  ghost predicate SkipsUntyped(load: StepLoader) {
    forall p: StepProperties, registry: Functions :: IsNullOrEmpty(p.typeName) ==> load(p, registry) == Ok(registry)
  }

  /** Each successful step load adds exactly the names the step claims. */
  ghost predicate AddsClaims(load: StepLoader, cl: ClassLoader) {
    forall p: StepProperties, registry: Functions :: load(p, registry).Ok? ==>
      load(p, registry).value.Keys == registry.Keys + StepClaims(cl, p)
  }

  /** Each successful step load keeps an entry or replaces it with what the step's class registers. */
  ghost predicate BuildsClaims(load: StepLoader, cl: ClassLoader) {
    forall p: StepProperties, registry: Functions :: load(p, registry).Ok? ==>
      forall k :: k in load(p, registry).value ==>
        (k in registry && load(p, registry).value[k] == registry[k]) || RegisteredByStep(cl, p, k, load(p, registry).value[k])
  }

  lemma StepLoaderFacts(cl: ClassLoader)
    ensures KeepsRegistry(StepLoaderOf(cl))
    ensures AddsClaims(StepLoaderOf(cl), cl)
    ensures BuildsClaims(StepLoaderOf(cl), cl)
    ensures ResolvesTypes(StepLoaderOf(cl), cl)
    ensures FailsByType(StepLoaderOf(cl), cl)
    ensures SkipsUntyped(StepLoaderOf(cl))
  {
  }

  lemma {:induction false} LoopKeepsRegistry(load: StepLoader, steps: map<string, StepProperties>, order: seq<string>, registry: Functions)
    requires forall i :: 0 <= i < |order| ==> order[i] in steps
    requires KeepsRegistry(load)
    ensures var r := LoadLoop(load, steps, order, registry);
      && (r.Ok? ==> registry.Keys <= r.value.Keys)
      && (r.Ok? && WellKeyed(registry) ==> WellKeyed(r.value))
    decreases |order|
  {
    if |order| > 0 {
      match load(steps[order[0]], registry)
      case Fail(_) =>
      case Ok(next) => LoopKeepsRegistry(load, steps, order[1..], next);
    }
  }

  /** The names the steps of `order` claim together. */
  function AllClaims(cl: ClassLoader, steps: map<string, StepProperties>, order: seq<string>): (r: set<string>)
    requires forall i :: 0 <= i < |order| ==> order[i] in steps
    ensures forall i :: 0 <= i < |order| ==> StepClaims(cl, steps[order[i]]) <= r
    ensures forall k :: k in r ==> exists i :: 0 <= i < |order| && k in StepClaims(cl, steps[order[i]])
    decreases |order|
  {
    if |order| == 0 then {}
    else
      var rest := AllClaims(cl, steps, order[1..]);
      assert forall i :: 1 <= i < |order| ==> order[i] == order[1..][i - 1];
      StepClaims(cl, steps[order[0]]) + rest
  }

  lemma {:induction false} LoopAddsClaims(load: StepLoader, cl: ClassLoader, steps: map<string, StepProperties>, order: seq<string>, registry: Functions)
    requires forall i :: 0 <= i < |order| ==> order[i] in steps
    requires AddsClaims(load, cl)
    ensures LoadLoop(load, steps, order, registry).Ok? ==>
      LoadLoop(load, steps, order, registry).value.Keys == registry.Keys + AllClaims(cl, steps, order)
    decreases |order|
  {
    if |order| > 0 {
      match load(steps[order[0]], registry)
      case Fail(_) =>
      case Ok(next) =>
        LoopAddsClaims(load, cl, steps, order[1..], next);
        assert next.Keys == registry.Keys + StepClaims(cl, steps[order[0]]);
    }
  }

  /** Every entry of the loop's registry is an original one or what some visited step's class registers. */
  ghost predicate BuiltBy(cl: ClassLoader, steps: map<string, StepProperties>, order: seq<string>, registry: Functions, r: Functions)
    requires forall i :: 0 <= i < |order| ==> order[i] in steps
  {
    forall k :: k in r ==>
      (k in registry && r[k] == registry[k]) || exists i :: 0 <= i < |order| && RegisteredByStep(cl, steps[order[i]], k, r[k])
  }

  lemma {:induction false} LoopBuildsClaims(load: StepLoader, cl: ClassLoader, steps: map<string, StepProperties>, order: seq<string>, registry: Functions)
    requires forall i :: 0 <= i < |order| ==> order[i] in steps
    requires BuildsClaims(load, cl)
    ensures LoadLoop(load, steps, order, registry).Ok? ==> BuiltBy(cl, steps, order, registry, LoadLoop(load, steps, order, registry).value)
    decreases |order|
  {
    if |order| > 0 {
      match load(steps[order[0]], registry)
      case Fail(_) =>
      case Ok(next) =>
        var r := LoadLoop(load, steps, order, registry);
        LoopBuildsClaims(load, cl, steps, order[1..], next);
        if r.Ok? {
          forall k | k in r.value
            ensures (k in registry && r.value[k] == registry[k])
                    || exists i :: 0 <= i < |order| && RegisteredByStep(cl, steps[order[i]], k, r.value[k])
          {
            if k in next && r.value[k] == next[k] {
              if !(k in registry && next[k] == registry[k]) {
                assert RegisteredByStep(cl, steps[order[0]], k, r.value[k]);
              }
            } else {
              var i :| 0 <= i < |order[1..]| && RegisteredByStep(cl, steps[order[1..][i]], k, r.value[k]);
              assert order[1..][i] == order[i + 1];
            }
          }
        }
    }
  }

  /**
   * `loadStepFunctions(functions, classLoader, properties)`: the step
   * descriptors' accumulators, visited in `order` (the iteration order of
   * the map's values), each loaded by `LoadStep`.
   */
  function LoadStepFunctions(cl: ClassLoader, steps: map<string, StepProperties>, order: seq<string>, registry: Functions)
    : (r: Outcome<Functions>)
    requires forall i :: 0 <= i < |order| ==> order[i] in steps
    ensures r.Ok? ==> registry.Keys <= r.value.Keys
    ensures r.Ok? ==> r.value.Keys == registry.Keys + AllClaims(cl, steps, order)
    ensures r.Ok? ==> forall i :: 0 <= i < |order| ==> StepClaims(cl, steps[order[i]]) <= r.value.Keys
    ensures r.Ok? ==> forall k :: k in r.value && k !in registry ==>
      exists i :: 0 <= i < |order| && k in StepClaims(cl, steps[order[i]])
    ensures r.Ok? ==> BuiltBy(cl, steps, order, registry, r.value)
    ensures r.Ok? && WellKeyed(registry) ==> WellKeyed(r.value)
  {
    StepLoaderFacts(cl);
    LoopKeepsRegistry(StepLoaderOf(cl), steps, order, registry);
    LoopAddsClaims(StepLoaderOf(cl), cl, steps, order, registry);
    LoopBuildsClaims(StepLoaderOf(cl), cl, steps, order, registry);
    LoadLoop(StepLoaderOf(cl), steps, order, registry)
  }

  lemma {:induction false} LoopResolvesTypes(load: StepLoader, cl: ClassLoader, steps: map<string, StepProperties>, order: seq<string>, registry: Functions)
    requires forall i :: 0 <= i < |order| ==> order[i] in steps
    requires ResolvesTypes(load, cl)
    ensures LoadLoop(load, steps, order, registry).Ok? ==>
      forall i :: 0 <= i < |order| && NotEmpty(steps[order[i]].typeName) ==> steps[order[i]].typeName.value in cl.classes
    decreases |order|
  {
    if |order| > 0 && LoadLoop(load, steps, order, registry).Ok? {
      var next := load(steps[order[0]], registry).value;
      LoopResolvesTypes(load, cl, steps, order[1..], next);
      forall i | 0 < i < |order| ensures order[i] == order[1..][i - 1] { }
    }
  }

  /** A successful load resolved the class of every typed step it visited. */
  lemma LoadedTypesResolve(cl: ClassLoader, steps: map<string, StepProperties>, order: seq<string>, registry: Functions)
    requires forall i :: 0 <= i < |order| ==> order[i] in steps
    ensures LoadStepFunctions(cl, steps, order, registry).Ok? ==>
      forall i :: 0 <= i < |order| && NotEmpty(steps[order[i]].typeName) ==> steps[order[i]].typeName.value in cl.classes
  {
    StepLoaderFacts(cl);
    LoopResolvesTypes(StepLoaderOf(cl), cl, steps, order, registry);
  }

  lemma {:induction false} LoopFailureNamesAStep(load: StepLoader, cl: ClassLoader, steps: map<string, StepProperties>, order: seq<string>, registry: Functions)
    requires forall i :: 0 <= i < |order| ==> order[i] in steps
    requires FailsByType(load, cl)
    ensures LoadLoop(load, steps, order, registry).Fail? ==>
      exists i :: 0 <= i < |order| && Rejects(cl, steps[order[i]], LoadLoop(load, steps, order, registry).failure)
    decreases |order|
  {
    var r := LoadLoop(load, steps, order, registry);
    if |order| > 0 && r.Fail? {
      match load(steps[order[0]], registry)
      case Fail(e) =>
        assert Rejects(cl, steps[order[0]], r.failure);
      case Ok(next) =>
        LoopFailureNamesAStep(load, cl, steps, order[1..], next);
        var i :| 0 <= i < |order[1..]| && Rejects(cl, steps[order[1..][i]], r.failure);
        assert order[1..][i] == order[i + 1];
    }
  }

  /** A failed load names a typed step whose class is missing or has no entry point. */
  lemma FailureNamesAStep(cl: ClassLoader, steps: map<string, StepProperties>, order: seq<string>, registry: Functions)
    requires forall i :: 0 <= i < |order| ==> order[i] in steps
    ensures LoadStepFunctions(cl, steps, order, registry).Fail? ==>
      exists i :: 0 <= i < |order| && Rejects(cl, steps[order[i]], LoadStepFunctions(cl, steps, order, registry).failure)
  {
    StepLoaderFacts(cl);
    LoopFailureNamesAStep(StepLoaderOf(cl), cl, steps, order, registry);
  }

  /** How a typed step can abort loading: its class is missing, or the class has no entry point. */
  predicate Rejects(cl: ClassLoader, p: StepProperties, e: Failure) {
    NotEmpty(p.typeName)
    && ((p.typeName.value !in cl.classes && e == ClassNotFound(p.typeName.value))
        || (p.typeName.value in cl.classes && e == NoStepFunction(cl.classes[p.typeName.value].name)))
  }

  /** The steps of `order` that name a type, in the same order. */
  function Typed(steps: map<string, StepProperties>, order: seq<string>): (r: seq<string>)
    requires forall i :: 0 <= i < |order| ==> order[i] in steps
    ensures forall i :: 0 <= i < |r| ==> r[i] in steps && NotEmpty(steps[r[i]].typeName)
    ensures |r| <= |order|
    decreases |order|
  {
    if |order| == 0 then []
    else if IsNullOrEmpty(steps[order[0]].typeName) then Typed(steps, order[1..])
    else [order[0]] + Typed(steps, order[1..])
  }

  lemma {:induction false} LoopSkipsUntyped(load: StepLoader, steps: map<string, StepProperties>, order: seq<string>, registry: Functions)
    requires forall i :: 0 <= i < |order| ==> order[i] in steps
    requires SkipsUntyped(load)
    ensures LoadLoop(load, steps, order, registry) == LoadLoop(load, steps, Typed(steps, order), registry)
    decreases |order|
  {
    if |order| > 0 {
      if IsNullOrEmpty(steps[order[0]].typeName) {
        LoopSkipsUntyped(load, steps, order[1..], registry);
      } else {
        var t := Typed(steps, order);
        assert t[0] == order[0] && t[1..] == Typed(steps, order[1..]);
        match load(steps[order[0]], registry)
        case Fail(e) =>
        case Ok(next) =>
          LoopSkipsUntyped(load, steps, order[1..], next);
      }
    }
  }

  /** Steps without a type contribute nothing: loading only the typed ones gives the same outcome. */
  lemma UntypedStepsIgnored(cl: ClassLoader, steps: map<string, StepProperties>, order: seq<string>, registry: Functions)
    requires forall i :: 0 <= i < |order| ==> order[i] in steps
    ensures LoadStepFunctions(cl, steps, order, registry) == LoadStepFunctions(cl, steps, Typed(steps, order), registry)
  {
    StepLoaderFacts(cl);
    LoopSkipsUntyped(StepLoaderOf(cl), steps, order, registry);
  }

  /** The visiting order lists every descriptor exactly once. */
  ghost predicate IsOrderOf(order: seq<string>, steps: map<string, StepProperties>) {
    (forall i, j :: 0 <= i < j < |order| ==> order[i] != order[j])
    && (forall k :: k in steps <==> k in order)
  }

  /**
   * `loadStepFunctions(classLoader)`: every descriptor resource read, then
   * every step loaded into a new registry, visiting the steps in `order`.
   */
  function LoadAll(cl: ClassLoader, order: seq<string>): (r: Outcome<Functions>)
    requires IsOrderOf(order, LoadStepFunctionMetadata(cl.stepResources))
    ensures r.Ok? ==> WellKeyed(r.value)
    ensures r.Ok? ==> forall s :: s in LoadStepFunctionMetadata(cl.stepResources) ==>
      StepClaims(cl, LoadStepFunctionMetadata(cl.stepResources)[s]) <= r.value.Keys
    ensures r.Ok? ==> forall k :: k in r.value ==>
      exists s :: s in LoadStepFunctionMetadata(cl.stepResources) && k in StepClaims(cl, LoadStepFunctionMetadata(cl.stepResources)[s])
    ensures r.Ok? ==> forall k :: k in r.value ==>
      exists s :: s in LoadStepFunctionMetadata(cl.stepResources) && RegisteredByStep(cl, LoadStepFunctionMetadata(cl.stepResources)[s], k, r.value[k])
  {
    var steps := LoadStepFunctionMetadata(cl.stepResources);
    var r := LoadStepFunctions(cl, steps, order, map[]);
    OrderCoversClaims(cl, steps, order, r);
    r
  }

  lemma OrderCoversClaims(cl: ClassLoader, steps: map<string, StepProperties>, order: seq<string>, r: Outcome<Functions>)
    requires IsOrderOf(order, steps)
    requires r == LoadStepFunctions(cl, steps, order, map[])
    ensures r.Ok? ==> forall s :: s in steps ==> StepClaims(cl, steps[s]) <= r.value.Keys
    ensures r.Ok? ==> forall k :: k in r.value ==> exists s :: s in steps && k in StepClaims(cl, steps[s])
    ensures r.Ok? ==> forall k :: k in r.value ==> exists s :: s in steps && RegisteredByStep(cl, steps[s], k, r.value[k])
  {
    if r.Ok? {
      forall k | k in r.value ensures exists s :: s in steps && RegisteredByStep(cl, steps[s], k, r.value[k]) {
        var i :| 0 <= i < |order| && RegisteredByStep(cl, steps[order[i]], k, r.value[k]);
        assert order[i] in steps;
      }
      forall s | s in steps ensures StepClaims(cl, steps[s]) <= r.value.Keys {
        var i :| 0 <= i < |order| && order[i] == s;
      }
      forall k | k in r.value ensures exists s :: s in steps && k in StepClaims(cl, steps[s]) {
        var i :| 0 <= i < |order| && k in StepClaims(cl, steps[order[i]]);
        assert order[i] in steps;
      }
    }
  }

  /**
   * `invokeFunction(name, arguments, context, functions)`: the function
   * registered under `name`, invoked; `FunctionNotFound` when there is none.
   */
  function InvokeFunction(env: Env, functions: Functions, name: string, arguments: Option<ArgMap>, ctx: FunctionContext)
    : (r: Outcome<Value>)
    ensures name !in functions ==> r == Fail(FunctionNotFound(name))
    ensures name in functions ==> r == Invoke(env, functions[name], arguments, ctx)
    ensures r.Ok? ==> exists receiver, args :: env.call(functions[name].entry, receiver, args) == Some(r.value)
  {
    if name !in functions then Fail(FunctionNotFound(name))
    else Invoke(env, functions[name], arguments, ctx)
  }

  /** In a well-keyed registry the function that runs for `name` is the one that reports `name`. */
  lemma InvokedFunctionIsNamed(env: Env, functions: Functions, name: string, arguments: Option<ArgMap>, ctx: FunctionContext)
    requires WellKeyed(functions)
    ensures InvokeFunction(env, functions, name, arguments, ctx).Fail? || name in functions
    ensures name in functions ==> GetName(functions[name]) == name
  {
  }

  /**
   * `invokeFunction(name, arguments, context, classLoader)`: load every step
   * function the loader can see, then invoke by name; a loading failure
   * aborts before any lookup.
   */
  function InvokeFunctionWithLoader(env: Env, cl: ClassLoader, order: seq<string>, name: string,
                                    arguments: Option<ArgMap>, ctx: FunctionContext): (r: Outcome<Value>)
    requires IsOrderOf(order, LoadStepFunctionMetadata(cl.stepResources))
    ensures LoadAll(cl, order).Fail? ==> r == Fail(LoadAll(cl, order).failure)
    ensures LoadAll(cl, order).Ok? ==> r == InvokeFunction(env, LoadAll(cl, order).value, name, arguments, ctx)
  {
    match LoadAll(cl, order)
    case Fail(e) => Fail(e)
    case Ok(functions) => InvokeFunction(env, functions, name, arguments, ctx)
  }
}
