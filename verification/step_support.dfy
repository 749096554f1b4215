/**
 * `StepSupport`, the base class of the generated pipeline steps: a step
 * function and the arguments the step's setters have collected so far.
 */
module PipelineStep {
  import opened Lang
  import Loader

  /** A step: its function and its arguments by name. */
  datatype StepSupport = StepSupport(stepFunction: Loader.StepFunctionImpl, arguments: map<string, Value>)

  /** What `start` hands to the execution: the step's function and its arguments. */
  datatype Execution = Execution(stepFunction: Loader.StepFunctionImpl, arguments: map<string, Value>)

  /** `new StepSupport(function)`: no arguments yet. */
  function NewStepSupport(stepFunction: Loader.StepFunctionImpl): (s: StepSupport)
    ensures s.stepFunction == stepFunction && s.arguments == map[]
  {
    StepSupport(stepFunction, map[])
  }

  /** `start(context)`: an execution of the step's own function over the arguments collected so far. */
  function Start(s: StepSupport): (e: Execution)
    ensures e.stepFunction == s.stepFunction && e.arguments == s.arguments
  {
    Execution(s.stepFunction, s.arguments)
  }

  /** `arguments()`: a read-only view of the arguments, with exactly their entries. */
  function Arguments(s: StepSupport): (r: map<string, Value>)
    ensures r.Keys == s.arguments.Keys
    ensures forall k :: k in r ==> r[k] == s.arguments[k]
  {
    s.arguments
  }

  /**
   * `getArgument(name, type)`: the value stored under `name` when it is an
   * instance of `type`, and null otherwise (missing, null, or of another
   * type).  `isInstance` is `Class.isInstance`, which is false for null.
   */
  function GetArgument(s: StepSupport, name: string, typeName: string, isInstance: (Value, string) -> bool): (r: Value)
    ensures r != Null ==> name in s.arguments && r == s.arguments[name] && isInstance(r, typeName)
    ensures name in s.arguments && s.arguments[name] != Null && isInstance(s.arguments[name], typeName)
            ==> r == s.arguments[name]
  {
    var value := if name in s.arguments then s.arguments[name] else Null;
    if value != Null && isInstance(value, typeName) then value else Null
  }

  /** `setArgument(name, value)`: stores `value` under `name`, replacing any earlier value. */
  function SetArgument(s: StepSupport, name: string, value: Value): (t: StepSupport)
    ensures t.stepFunction == s.stepFunction
    ensures name in t.arguments && t.arguments[name] == value
    ensures forall k :: k != name ==> (k in t.arguments <==> k in s.arguments)
    ensures forall k :: k != name && k in s.arguments ==> t.arguments[k] == s.arguments[k]
  {
    s.(arguments := s.arguments[name := value])
  }

  /** An argument set is read back when it has the requested type; other names are unaffected. */
  lemma SetThenGet(s: StepSupport, name: string, other: string, value: Value, typeName: string,
                   isInstance: (Value, string) -> bool)
    requires other != name
    ensures value != Null && isInstance(value, typeName) ==>
      GetArgument(SetArgument(s, name, value), name, typeName, isInstance) == value
    ensures !(value != Null && isInstance(value, typeName)) ==>
      GetArgument(SetArgument(s, name, value), name, typeName, isInstance) == Null
    ensures GetArgument(SetArgument(s, name, value), other, typeName, isInstance)
         == GetArgument(s, other, typeName, isInstance)
  {
  }

  /**
   * A new step whose setters ran for two different names starts an
   * execution of its own function over exactly those two arguments.
   */
  lemma StartSeesSetArguments(f: Loader.StepFunctionImpl, n1: string, v1: Value, n2: string, v2: Value)
    requires n1 != n2
    ensures Start(SetArgument(SetArgument(NewStepSupport(f), n1, v1), n2, v2))
         == Execution(f, map[n1 := v1, n2 := v2])
  {
  }

  /** `DescriptorSupport`: the step's function name and display name. */
  datatype DescriptorSupport = DescriptorSupport(functionName: string, displayName: string)

  /** The descriptor's accessors return exactly what it was constructed with. */
  function GetFunctionName(d: DescriptorSupport): (r: string)
    ensures d == DescriptorSupport(r, d.displayName)
  {
    d.functionName
  }

  function GetDisplayName(d: DescriptorSupport): (r: string)
    ensures d == DescriptorSupport(d.functionName, r)
  {
    d.displayName
  }
}
