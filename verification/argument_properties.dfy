/**
 * The runtime's `ArgumentProperties` accumulator: the metadata of one
 * argument of a step, gathered from `<step>-arguments.properties` entries.
 */
module ArgumentProps {
  import opened Lang
  import opened Strings

  datatype ArgumentProperties = ArgumentProperties(
    attributeName: string,
    displayName: Option<string>,
    description: Option<string>,
    typeName: Option<string>)

  /**
   * The five arguments `createAttributeMetadata` passes to the
   * `ArgumentMetadata` constructor: attribute name, display name,
   * description, the resolved class (None when it could not be loaded) and
   * the class name with its generic suffix removed.
   */
  datatype AttributeArgs = AttributeArgs(
    attributeName: string,
    displayName: Option<string>,
    description: Option<string>,
    clazz: Option<string>,
    className: string)

  /** `new ArgumentProperties(attributeName)`: displayed under its own name, nothing else known. */
  function NewArgumentProperties(attributeName: string): (r: ArgumentProperties)
    ensures r.attributeName == attributeName
    ensures r.displayName == Some(attributeName)
    ensures r.description.None? && r.typeName.None?
  {
    ArgumentProperties(attributeName, Some(attributeName), None, None)
  }

  /**
   * `setProperty(stepName, propertyName, value)`: "description",
   * "displayName" and "type" (not "typeName") each set their own field; any
   * other property name changes nothing.  The attribute name is final.
   */
  function SetProperty(p: ArgumentProperties, stepName: string, propertyName: string, value: string): (q: ArgumentProperties)
    ensures q.attributeName == p.attributeName
    ensures propertyName == "description" ==> q == p.(description := Some(value))
    ensures propertyName == "displayName" ==> q == p.(displayName := Some(value))
    ensures propertyName == "type" ==> q == p.(typeName := Some(value))
    ensures propertyName !in {"description", "displayName", "type"} ==> q == p
  {
    match propertyName
    case "description" => p.(description := Some(value))
    case "displayName" => p.(displayName := Some(value))
    case "type" => p.(typeName := Some(value))
    case _ => p
  }

  /**
   * The spelling "typeName", which step descriptors use, sets nothing on an
   * argument.
   */
  lemma TypeNameKeyIgnored(p: ArgumentProperties, stepName: string, value: string)
    ensures SetProperty(p, stepName, "typeName", value) == p
  {
  }

  /**
   * `createAttributeMetadata(classLoader)`: nothing for an argument without
   * a type; otherwise the constructor arguments, where the class name is the
   * type with its generic suffix removed and the class is resolved through
   * `loadable` (the primitive types and the class loader).  An unresolvable
   * class still yields metadata, with no class.
   */
  function CreateAttributeMetadata(p: ArgumentProperties, loadable: set<string>): (r: Option<AttributeArgs>)
    ensures r.None? <==> IsNullOrEmpty(p.typeName)
    ensures r.Some? ==>
      && r.value.attributeName == p.attributeName
      && r.value.displayName == p.displayName
      && r.value.description == p.description
      && r.value.className == RemoveGenericsFromClassName(p.typeName.value)
    ensures r.Some? ==> (r.value.clazz.Some? <==> r.value.className in loadable)
    ensures r.Some? && r.value.clazz.Some? ==> r.value.clazz.value == r.value.className
  {
    if IsNullOrEmpty(p.typeName) then None
    else
      var className := RemoveGenericsFromClassName(p.typeName.value);
      var clazz := if className in loadable then Some(className) else None;
      Some(AttributeArgs(p.attributeName, p.displayName, p.description, clazz, className))
  }

  /** A generic type such as `List<String>` is resolved by its raw class name. */
  lemma GenericTypeResolvedRaw(p: ArgumentProperties, raw: string, suffix: string, loadable: set<string>)
    requires |raw| > 0 && '<' !in raw && raw != "null"
    requires p.typeName == Some(raw + "<" + suffix)
    ensures CreateAttributeMetadata(p, loadable).Some?
    ensures CreateAttributeMetadata(p, loadable).value.className == raw
  {
    var t := raw + "<" + suffix;
    assert t[|raw|] == '<' && t[..|raw|] == raw;
    assert IndexOf(t, '<') == |raw| by {
      assert '<' !in t[..|raw|];
    }
  }
}
