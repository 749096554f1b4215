/**
 * The Java-level vocabulary the step-function engine is written against:
 * nullable references, runtime values, bean instances, and the exceptions
 * that the engine raises, all as immutable datatypes.
 */
module Lang {

  /** A Java reference that may be null. */
  datatype Option<+T> = None | Some(value: T)

  /**
   * A runtime object as the engine sees it.  `Instance` is a JavaBean (an
   * implementation object or an argument-holder object); `MapValue` is a
   * `java.util.Map` whose entries are listed in iteration order.
   */
  datatype Value =
    | Null
    | Str(s: string)
    | Int(i: int)
    | Obj(className: string, id: nat)
    | MapValue(entries: seq<(string, Value)>)
    | Instance(bean: Bean)

  /**
   * A JavaBean instance: the name of its class, the current values of its
   * properties, and the names of the properties that have a setter.
   */
  datatype Bean = Bean(className: string, props: map<string, Value>, writable: set<string>)

  /**
   * The `@Step` annotation (`io.jenkins.functions.Step`); a member that is
   * not given in the source defaults to the empty string.
   */
  datatype StepAnnotation = StepAnnotation(name: string, displayName: string, description: string)

  /** The exceptions the engine raises, with the data their messages carry. */
  datatype Failure =
      /** `FunctionNotFound`: no function is registered under `name`. */
    | FunctionNotFound(name: string)
      /** a caller-supplied property could not be set on the bean called `target` */
    | BindError(property: string, value: Value, target: string)
      /** an ambient context property (`logger`, `currentDir`) could not be injected */
    | InjectError(property: string)
      /** `Class.newInstance` failed for the named class */
    | InstantiationError(className: string)
      /** the entry point threw; `target` names the method reported */
    | InvokeError(target: string)
      /** the class has neither `call`, `apply` nor any `@Step` method */
    | NoStepFunction(className: string)
      /** `ClassLoader.loadClass` could not find the named class */
    | ClassNotFound(className: string)
      /** a `NullPointerException` from dereferencing a null argument map */
    | NullArguments

  /** The result of an operation that either returns a value or throws. */
  datatype Outcome<+T> = Ok(value: T) | Fail(failure: Failure)
}
