/**
 * The runtime's `ArgumentMetadata` and `StepMetadata` records, and the
 * prototype text both render (`hello(java.lang.String name)`).
 */
module Metadata {
  import opened Lang

  /** `parts` separated by `sep`, built from the end as a `StringBuilder` would. */
  function Join(parts: seq<string>, sep: string): string
    decreases |parts|
  {
    if |parts| == 0 then ""
    else if |parts| == 1 then parts[0]
    else Join(parts[..|parts| - 1], sep) + sep + parts[|parts| - 1]
  }

  function TotalLength(parts: seq<string>): nat
    decreases |parts|
  {
    if |parts| == 0 then 0 else TotalLength(parts[..|parts| - 1]) + |parts[|parts| - 1]|
  }

  /** Joining adds exactly one separator between each two neighbouring parts. */
  lemma {:induction false} JoinLength(parts: seq<string>, sep: string)
    requires |parts| > 0
    ensures |Join(parts, sep)| == TotalLength(parts) + |sep| * (|parts| - 1)
    decreases |parts|
  {
    if |parts| > 1 {
      JoinLength(parts[..|parts| - 1], sep);
    } else {
      assert parts[..0] == [];
    }
  }

  /** Joining a longer list extends the join of its first parts. */
  lemma JoinPrefix(parts: seq<string>, sep: string)
    requires |parts| > 1
    ensures Join(parts[..|parts| - 1], sep) + sep <= Join(parts, sep)
  {
  }

  /**
   * The loop of `getPrototype`: the name, "(", the argument prototypes
   * separated by ", ", then ")".  A null argument array renders no
   * arguments.
   */
  method RenderPrototype(name: string, args: Option<seq<string>>) returns (r: string)
    ensures args.None? ==> r == name + "()"
    ensures args.Some? ==> r == name + "(" + Join(args.value, ", ") + ")"
  {
    r := name + "(";
    if args.Some? {
      var parts := args.value;
      var count := 0;
      while count < |parts|
        invariant 0 <= count <= |parts|
        invariant r == name + "(" + Join(parts[..count], ", ")
      {
        if count > 0 {
          r := r + ", ";
        }
        r := r + parts[count];
        assert parts[..count + 1][..count] == parts[..count];
        count := count + 1;
      }
      assert parts[..|parts|] == parts;
    }
    r := r + ")";
  }

  /** A null argument array and an empty one render alike. */
  lemma NullArgumentsLikeEmpty(name: string)
    ensures name + "(" + Join([], ", ") + ")" == name + "()"
  {
  }

  /** `ArgumentMetadata`: the class of the argument (`type`, by name), its name and description. */
  datatype ArgumentMetadata = ArgumentMetadata(clazz: Option<string>, name: Option<string>, description: Option<string>)

  /**
   * `ArgumentMetadata.getPrototype`: the type's name, then the argument name
   * when it is not null and not empty, separated by a space only when both
   * are present.
   */
  function ArgumentPrototype(a: ArgumentMetadata): (r: string)
    ensures a.clazz.Some? && |a.clazz.value| > 0 && a.name.Some? && |a.name.value| > 0
            ==> r == a.clazz.value + " " + a.name.value
    ensures (a.clazz.None? || |a.clazz.value| == 0) && a.name.Some? ==> r == a.name.value
    ensures a.name.None? || |a.name.value| == 0 ==> r == (if a.clazz.Some? then a.clazz.value else "")
  {
    var t := if a.clazz.Some? then a.clazz.value else "";
    if a.name.Some? && |a.name.value| > 0 then
      (if |t| > 0 then t + " " + a.name.value else a.name.value)
    else t
  }

  /**
   * The rendering is by emptiness, not by `isNullOrEmpty`: a name spelled
   * "null" is rendered like any other.
   */
  lemma NullNameRendered(className: string)
    requires |className| > 0
    ensures ArgumentPrototype(ArgumentMetadata(Some(className), Some("null"), None)) == className + " null"
  {
  }

  /** The prototype is empty exactly when neither a type name nor an argument name is present. */
  lemma PrototypeEmptyOnlyWithoutBoth(a: ArgumentMetadata)
    ensures ArgumentPrototype(a) == ""
        <==> (a.clazz.None? || |a.clazz.value| == 0) && (a.name.None? || |a.name.value| == 0)
  {
  }

  /** The runtime `StepMetadata`: every field is final. */
  datatype StepMetadata = StepMetadata(
    name: string,
    displayName: string,
    description: string,
    returnType: string,
    argumentMetadata: Option<seq<ArgumentMetadata>>,
    implementationClass: string)

  /**
   * `new StepMetadata(name, step, returnType, argumentMetadata,
   * implementationClass)`: with an annotation its displayName and
   * description are copied verbatim, even when empty; without one the
   * display name is the step name and the description is "".
   */
  function NewStepMetadata(name: string, step: Option<StepAnnotation>, returnType: string,
                           args: Option<seq<ArgumentMetadata>>, implementationClass: string): (m: StepMetadata)
    ensures m.name == name && m.returnType == returnType
    ensures m.argumentMetadata == args && m.implementationClass == implementationClass
    ensures step.Some? ==> m.displayName == step.value.displayName && m.description == step.value.description
    ensures step.None? ==> m.displayName == name && m.description == ""
  {
    match step
    case Some(s) => StepMetadata(name, s.displayName, s.description, returnType, args, implementationClass)
    case None => StepMetadata(name, name, "", returnType, args, implementationClass)
  }

  function ArgumentPrototypes(args: seq<ArgumentMetadata>): (r: seq<string>)
    ensures |r| == |args|
    ensures forall i :: 0 <= i < |args| ==> r[i] == ArgumentPrototype(args[i])
  {
    seq(|args|, i requires 0 <= i < |args| => ArgumentPrototype(args[i]))
  }

  /** `StepMetadata.getPrototype`; no return type is appended. */
  method GetPrototype(m: StepMetadata) returns (r: string)
    ensures m.argumentMetadata.None? ==> r == m.name + "()"
    ensures m.argumentMetadata.Some? ==>
      r == m.name + "(" + Join(ArgumentPrototypes(m.argumentMetadata.value), ", ") + ")"
  {
    var parts := if m.argumentMetadata.Some? then Some(ArgumentPrototypes(m.argumentMetadata.value)) else None;
    r := RenderPrototype(m.name, parts);
  }
}

/**
 * The loader's `StepMetadata`.  The loader's own `ArgumentMetadata` class is
 * not part of this model, so each argument is represented by the prototype
 * text it renders.
 */
module LoaderMetadata {
  import opened Lang
  import Metadata

  datatype StepMetadata = StepMetadata(
    name: string,
    description: Option<string>,
    returnType: string,
    argumentsMetadata: Option<seq<string>>)

  /** `StepMetadata.getPrototype` of the loader: the same rendering as the runtime's. */
  method GetPrototype(m: StepMetadata) returns (r: string)
    ensures m.argumentsMetadata.None? ==> r == m.name + "()"
    ensures m.argumentsMetadata.Some? ==> r == m.name + "(" + Metadata.Join(m.argumentsMetadata.value, ", ") + ")"
  {
    r := Metadata.RenderPrototype(m.name, m.argumentsMetadata);
  }
}
