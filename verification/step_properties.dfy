/**
 * The runtime's `StepProperties` accumulator: the metadata of one step as it
 * is gathered from descriptor entries and layered with `@Step` annotations.
 * The accumulator is a value; every mutator of the Java class becomes a
 * function from the old state to the new one.
 */
module StepProps {
  import opened Lang
  import opened Strings

  datatype StepProperties = StepProperties(
    name: string,
    displayName: Option<string>,
    description: Option<string>,
    typeName: Option<string>)

  /** One field under `configure`: an annotation value replaces it only when it is not empty. */
  function Override(current: Option<string>, annotated: string): (r: Option<string>)
    ensures NotEmpty(Some(annotated)) ==> r == Some(annotated)
    ensures IsNullOrEmpty(Some(annotated)) ==> r == current
  {
    if NotEmpty(Some(annotated)) then Some(annotated) else current
  }

  /**
   * `configure(step)`: each of name, displayName and description is replaced
   * by the annotation's value when that value is not empty; typeName is
   * never touched, and a null annotation changes nothing.
   */
  function Configure(p: StepProperties, step: Option<StepAnnotation>): (q: StepProperties)
    ensures step.None? ==> q == p
    ensures q.typeName == p.typeName
    ensures step.Some? && NotEmpty(Some(step.value.name)) ==> q.name == step.value.name
    ensures step.Some? && NotEmpty(Some(step.value.displayName)) ==> q.displayName == Some(step.value.displayName)
    ensures step.Some? && NotEmpty(Some(step.value.description)) ==> q.description == Some(step.value.description)
    ensures step.Some? && IsNullOrEmpty(Some(step.value.name)) ==> q.name == p.name
    ensures step.Some? && IsNullOrEmpty(Some(step.value.displayName)) ==> q.displayName == p.displayName
    ensures step.Some? && IsNullOrEmpty(Some(step.value.description)) ==> q.description == p.description
  {
    match step
    case None => p
    case Some(s) =>
      p.(name := if NotEmpty(Some(s.name)) then s.name else p.name,
         displayName := Override(p.displayName, s.displayName),
         description := Override(p.description, s.description))
  }

  /** An empty annotation field never blanks a value that is already set. */
  lemma ConfigureNeverBlanks(p: StepProperties, step: Option<StepAnnotation>)
    ensures NotEmpty(Some(p.name)) ==> NotEmpty(Some(Configure(p, step).name))
    ensures NotEmpty(p.displayName) ==> NotEmpty(Configure(p, step).displayName)
    ensures NotEmpty(p.description) ==> NotEmpty(Configure(p, step).description)
  {
  }

  /** Applying the same annotation twice is applying it once. */
  lemma ConfigureIdempotent(p: StepProperties, step: Option<StepAnnotation>)
    ensures Configure(Configure(p, step), step) == Configure(p, step)
  {
  }

  /**
   * Annotations whose non-empty fields are disjoint may be layered in either
   * order: the result is the same.
   */
  lemma ConfigureCommutes(p: StepProperties, a: StepAnnotation, b: StepAnnotation)
    requires IsNullOrEmpty(Some(a.name)) || IsNullOrEmpty(Some(b.name))
    requires IsNullOrEmpty(Some(a.displayName)) || IsNullOrEmpty(Some(b.displayName))
    requires IsNullOrEmpty(Some(a.description)) || IsNullOrEmpty(Some(b.description))
    ensures Configure(Configure(p, Some(a)), Some(b)) == Configure(Configure(p, Some(b)), Some(a))
  {
  }

  /** The annotation applied last wins wherever its fields are set. */
  lemma ConfigureLastWins(p: StepProperties, a: StepAnnotation, b: StepAnnotation)
    requires NotEmpty(Some(b.name)) && NotEmpty(Some(b.displayName)) && NotEmpty(Some(b.description))
    ensures Configure(Configure(p, Some(a)), Some(b)) == Configure(p, Some(b))
  {
  }

  /** `getDisplayName`: the displayName, or the name when displayName is empty. */
  function GetDisplayName(p: StepProperties): (r: string)
    ensures NotEmpty(p.displayName) ==> r == p.displayName.value
    ensures IsNullOrEmpty(p.displayName) ==> r == p.name
  {
    if IsNullOrEmpty(p.displayName) then p.name else p.displayName.value
  }

  /** The display name is empty only when both the displayName and the name are. */
  lemma DisplayNameFallback(p: StepProperties)
    ensures IsNullOrEmpty(Some(GetDisplayName(p)))
        <==> IsNullOrEmpty(p.displayName) && IsNullOrEmpty(Some(p.name))
  {
  }

  /**
   * `setProperty(stepName, propertyName, value)`: "description",
   * "displayName" and "typeName" each set exactly their own field; any other
   * property name is reported and changes nothing.  The name is never set.
   */
  function SetProperty(p: StepProperties, stepName: string, propertyName: string, value: string): (q: StepProperties)
    ensures q.name == p.name
    ensures propertyName == "description" ==> q == p.(description := Some(value))
    ensures propertyName == "displayName" ==> q == p.(displayName := Some(value))
    ensures propertyName == "typeName" ==> q == p.(typeName := Some(value))
    ensures propertyName !in {"description", "displayName", "typeName"} ==> q == p
  {
    match propertyName
    case "description" => p.(description := Some(value))
    case "displayName" => p.(displayName := Some(value))
    case "typeName" => p.(typeName := Some(value))
    case _ => p
  }

  /** A later value for the same property overwrites an earlier one. */
  lemma SetPropertyLastWins(p: StepProperties, stepName: string, propertyName: string, v1: string, v2: string)
    ensures SetProperty(SetProperty(p, stepName, propertyName, v1), stepName, propertyName, v2)
         == SetProperty(p, stepName, propertyName, v2)
  {
  }

  /** Settings of two different properties do not interfere. */
  lemma SetPropertyCommutes(p: StepProperties, stepName: string, k1: string, v1: string, k2: string, v2: string)
    requires k1 != k2
    ensures SetProperty(SetProperty(p, stepName, k1, v1), stepName, k2, v2)
         == SetProperty(SetProperty(p, stepName, k2, v2), stepName, k1, v1)
  {
  }

  /**
   * `new StepProperties(name, step)`: a fresh accumulator for `name` with
   * the annotation layered on; no type is known yet.
   */
  function NewStepProperties(name: string, step: Option<StepAnnotation>): (r: StepProperties)
    ensures r.typeName.None?
    ensures step.None? ==> r == StepProperties(name, None, None, None)
    ensures r.name == if step.Some? && NotEmpty(Some(step.value.name)) then step.value.name else name
    ensures r.displayName
         == if step.Some? && NotEmpty(Some(step.value.displayName)) then Some(step.value.displayName) else None
    ensures r.description
         == if step.Some? && NotEmpty(Some(step.value.description)) then Some(step.value.description) else None
  {
    Configure(StepProperties(name, None, None, None), step)
  }

  /**
   * `new StepProperties(parent, method)`: the parent's name, display name
   * (through the getter, so the fallback to the name is stored), description
   * and typeName, with the method's `@Step` layered on top.
   */
  function ChildStepProperties(parent: StepProperties, methodStep: Option<StepAnnotation>): (r: StepProperties)
    ensures r.typeName == parent.typeName
    ensures r.displayName.Some?
    ensures methodStep.None? ==>
      r == StepProperties(parent.name, Some(GetDisplayName(parent)), parent.description, parent.typeName)
    ensures r.name
         == if methodStep.Some? && NotEmpty(Some(methodStep.value.name)) then methodStep.value.name else parent.name
    ensures r.displayName
         == if methodStep.Some? && NotEmpty(Some(methodStep.value.displayName)) then Some(methodStep.value.displayName)
            else Some(GetDisplayName(parent))
    ensures r.description
         == if methodStep.Some? && NotEmpty(Some(methodStep.value.description)) then Some(methodStep.value.description)
            else parent.description
  {
    Configure(StepProperties(parent.name, Some(GetDisplayName(parent)), parent.description, parent.typeName), methodStep)
  }

  /**
   * Without a method annotation the child shows the parent's display name.
   * With one that renames the step but sets no displayName, the child still
   * shows the parent's display name (materialised from the parent's name),
   * not its own new name.
   */
  lemma ChildKeepsParentDisplayName(parent: StepProperties, methodStep: Option<StepAnnotation>)
    requires methodStep.Some? ==> IsNullOrEmpty(Some(methodStep.value.displayName))
    requires methodStep.Some? ==> NotEmpty(Some(GetDisplayName(parent)))
    ensures GetDisplayName(ChildStepProperties(parent, methodStep)) == GetDisplayName(parent)
  {
  }
}

/**
 * The annotation processor's `StepProperties`.  Its fields, `configure` and
 * `getDisplayName` coincide with the runtime class, so the runtime
 * definitions are reused; what differs is the pair of constructors and
 * `store`, which writes the descriptor entries the runtime reads back.
 */
module AptStepProps {
  import opened Lang
  import opened Strings
  import opened StepProps

  /** `new StepProperties(name, typeName, step)` */
  function NewAptStepProperties(name: string, typeName: Option<string>, step: Option<StepAnnotation>): (r: StepProperties)
    ensures r.typeName == typeName
    ensures step.None? ==> r == StepProperties(name, None, None, typeName)
    ensures r.name == if step.Some? && NotEmpty(Some(step.value.name)) then step.value.name else name
    ensures r.displayName
         == if step.Some? && NotEmpty(Some(step.value.displayName)) then Some(step.value.displayName) else None
    ensures r.description
         == if step.Some? && NotEmpty(Some(step.value.description)) then Some(step.value.description) else None
  {
    Configure(StepProperties(name, None, None, typeName), step)
  }

  /**
   * `new StepProperties(parent, name, step)`: the explicit name when it is
   * not empty, else the parent's; then the parent's getter values, with the
   * annotation on top.
   */
  function ChildAptStepProperties(parent: StepProperties, name: Option<string>, step: Option<StepAnnotation>): (r: StepProperties)
    ensures r.typeName == parent.typeName
    ensures r.displayName.Some?
    ensures step.None? && NotEmpty(name) ==> r.name == name.value
    ensures step.None? && IsNullOrEmpty(name) ==> r.name == parent.name
    ensures step.None? ==> r.displayName == Some(GetDisplayName(parent)) && r.description == parent.description
    ensures r.name
         == if step.Some? && NotEmpty(Some(step.value.name)) then step.value.name
            else if NotEmpty(name) then name.value else parent.name
    ensures r.displayName
         == if step.Some? && NotEmpty(Some(step.value.displayName)) then Some(step.value.displayName)
            else Some(GetDisplayName(parent))
    ensures r.description
         == if step.Some? && NotEmpty(Some(step.value.description)) then Some(step.value.description)
            else parent.description
  {
    var n := if NotEmpty(name) then name.value else parent.name;
    Configure(StepProperties(n, Some(GetDisplayName(parent)), parent.description, parent.typeName), step)
  }

  /** The descriptor key for one property of a step. */
  function Key(name: string, property: string): string {
    name + "." + property
  }

  /**
   * `store(properties)`: the entries put into the descriptor, in the order
   * they are put — `<name>.typeName`, `<name>.displayName` (the raw field,
   * not the getter) and `<name>.description`, each only when not empty.
   */
  function Store(p: StepProperties): (entries: seq<(string, string)>)
    ensures |entries| <= 3
    ensures forall e :: e in entries ==> NotEmpty(Some(e.1))
    ensures (p.typeName.Some? && (Key(p.name, "typeName"), p.typeName.value) in entries) <==> NotEmpty(p.typeName)
    ensures (p.displayName.Some? && (Key(p.name, "displayName"), p.displayName.value) in entries) <==> NotEmpty(p.displayName)
    ensures (p.description.Some? && (Key(p.name, "description"), p.description.value) in entries) <==> NotEmpty(p.description)
  {
    (if NotEmpty(p.typeName) then [(Key(p.name, "typeName"), p.typeName.value)] else [])
    + (if NotEmpty(p.displayName) then [(Key(p.name, "displayName"), p.displayName.value)] else [])
    + (if NotEmpty(p.description) then [(Key(p.name, "description"), p.description.value)] else [])
  }

  /** A field as it survives `store`: kept when not empty, otherwise absent. */
  function Stored(field: Option<string>): (r: Option<string>)
    ensures r.Some? <==> NotEmpty(field)
    ensures r.Some? ==> r == field
  {
    if NotEmpty(field) then field else None
  }
}
