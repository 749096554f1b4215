# Declarative step functions: discovery and dispatch, in Dafny

This project models the core of the declarative step functions API for
Jenkins pipelines. A *step function* is a plain Java class that exposes
one entry point: `call`, `apply`, or a method with a chosen name. An
annotation processor records each step in the
`io/jenkins/functions/steps.properties` resource, and each step's
arguments in `io/jenkins/functions/<step>-arguments.properties`. At run
time, the library reads every such resource on the class path, loads the
classes it names, and builds a
registry from step name to invocable function. It then invokes a function
with a map of named arguments. The arguments are bound to the bean
properties of an arguments object, to the properties of the function
object itself, or to method parameters by position.

The model covers:

- **Descriptor files** (`Descriptors`): reading them, where a later entry
  wins; the round trip of what the annotation processor stores; and the
  per-argument metadata keys `<argument>.<attribute>` of a step's
  arguments resource, whose file name gives the step.
- **Step properties** (`StepProps`, `AptStepProps`, `ArgumentProps`):
  configuring the runtime and annotation-processor property objects,
  display names, and the attribute metadata of an argument.
- **Discovery** (`Registry`, `Classes`, `Loader`): finding the entry point
  (`call`, the most-derived own `apply`, or the step methods of a class),
  and building the registry class by class and resource by resource, in
  both the runtime and the loader modules.
- **Dispatch** (`RuntimeFunctions`, `Beans`, `Loader`): the three
  runtime variants (callable, arguments object, method parameters), the
  loader's variants, context injection, and bean property binding with
  its failure paths.
- **Prototypes** (`Metadata`, `LoaderMetadata`): the signature text of a
  step and of an argument.
- **Import tables** (`ImportTable`, `GeneratorImports`, `MavenImports`):
  the generator's and the maven plugin's simple-name tables.
- **String and git helpers** (`Strings`, `Git`): the string helpers,
  clone URLs, and the repository name of a project.
- **Steps** (`PipelineStep`): the `StepSupport` base class of generated
  pipeline steps.
- **Scenarios** (`Scenarios`): the test scenarios `hello`, `example` and
  `cheese` as concrete instances.

How Java is represented:

- Java `null` is `Option.None` or `Value.Null`.
- A thrown exception is `Outcome.Fail` carrying a `Failure`: the kind of
  error and the class, method, property or name involved.
- Reflection and class loading are plain data: `ClassDesc`, `MethodDesc`,
  and a class loader that lists its resources and loadable classes.
- A `TreeSet` or `TreeMap` is a strictly sorted sequence, ordered by UTF-16 code unit as `String.compareTo` orders.
- A `HashMap`'s iteration order is an explicit parameter.
- `Env` is a parameter that stands for the bodies of the user's entry
  points (`method.invoke`) and for `ConvertUtils.convert`.

Some code is shared rather than repeated:

- The annotation processor's `configure` and `getDisplayName`
  (functions-apt StepProperties.java:56-91) are the same code as the
  runtime's. `StepProps.Configure` and `StepProps.GetDisplayName` model
  both.
- The loader's `injectContext` (loader support
  StepFunctionSupport.java:54-63) and its instantiation are the runtime's.
  `Loader.SupportInvoke` goes through `RuntimeFunctions.CreateFunctionObject`,
  which injects with `Beans.InjectContext`.
- The loader's `StepMetadata` constructor only stores its four arguments,
  so it is the `LoaderMetadata.StepMetadata` datatype constructor.

## Model

| member | source | states |
|---|---|---|
| Strings.EmptyTexts | functions-runtime/src/main/java/io/jenkins/functions/runtime/helpers/Strings.java:30-36 | null, "" and the text "null" are the empty texts, and a text is not empty exactly when it is none of them |
| Strings.Capitalise | functions-runtime/src/main/java/io/jenkins/functions/runtime/helpers/Strings.java:38-40 | the result has the same length, an upper-case first letter, and the rest of the text unchanged |
| Strings.CapitaliseIdempotent | functions-runtime/src/main/java/io/jenkins/functions/runtime/helpers/Strings.java:38-40 | capitalising twice is the same as capitalising once |
| Strings.RemoveGenericsFromClassName | functions-runtime/src/main/java/io/jenkins/functions/runtime/helpers/Strings.java:45-51 | the result is a prefix of the name: everything before the first '<' when one follows the first character, otherwise the whole name |
| Strings.RemoveGenericsIdempotent | functions-runtime/src/main/java/io/jenkins/functions/runtime/helpers/Strings.java:45-51 | removing generics from a raw name changes nothing |
| Strings.SplitCamelCaseIsSpliced | functions-runtime/src/main/java/io/jenkins/functions/runtime/helpers/Strings.java:63-74 | splitting camel case equals an independent definition that puts the separator before each upper-case letter following a lower-case one |
| Strings.SplicedLength | functions-runtime/src/main/java/io/jenkins/functions/runtime/helpers/Strings.java:63-74 | the split text is as long as the input plus one separator for each lower-to-upper boundary |
| Strings.SplicedStartsWithFirst | functions-runtime/src/main/java/io/jenkins/functions/runtime/helpers/Strings.java:63-74 | the split text begins with the input's first character, so no separator is ever put first |
| Strings.SplicedPreservesText | functions-runtime/src/main/java/io/jenkins/functions/runtime/helpers/Strings.java:69-71 | removing the separator character from the split text gives back the input, when the input does not contain it |
| Strings.Humanize | functions-runtime/src/main/java/io/jenkins/functions/runtime/helpers/Strings.java:76-78 | the humanized name is the independent camel-case splice with spaces, capitalised: one space longer per lower-to-upper boundary, starting with the name's first letter in upper case |
| Strings.HumanizeOnlyAddsSpaces | functions-runtime/src/main/java/io/jenkins/functions/runtime/helpers/Strings.java:76-78 | deleting the spaces from the humanized form of a name without spaces gives the capitalised name back |
| StepProps.Override | functions-runtime/src/main/java/io/jenkins/functions/runtime/support/StepProperties.java:79-84 | a value that is not empty replaces the current value, and an empty one keeps it |
| StepProps.Configure | functions-runtime/src/main/java/io/jenkins/functions/runtime/support/StepProperties.java:71-87 | each property takes the step annotation's value when that value is not empty, and otherwise keeps its current value |
| StepProps.ConfigureNeverBlanks | functions-runtime/src/main/java/io/jenkins/functions/runtime/support/StepProperties.java:76-84 | configuring never turns a non-empty property into an empty one |
| StepProps.ConfigureIdempotent | functions-runtime/src/main/java/io/jenkins/functions/runtime/support/StepProperties.java:71-87 | configuring twice with the same step equals configuring once |
| StepProps.ConfigureCommutes | functions-runtime/src/main/java/io/jenkins/functions/runtime/support/StepProperties.java:71-87 | two steps that set disjoint properties can configure in either order with the same result |
| StepProps.ConfigureLastWins | functions-runtime/src/main/java/io/jenkins/functions/runtime/support/StepProperties.java:71-87 | a second step that sets every property overrides whatever the first step set |
| StepProps.GetDisplayName | functions-runtime/src/main/java/io/jenkins/functions/runtime/support/StepProperties.java:52-58 | the display name is the configured one when it is not empty, and otherwise the step name |
| StepProps.DisplayNameFallback | functions-runtime/src/main/java/io/jenkins/functions/runtime/support/StepProperties.java:52-58 | the display name is empty exactly when both the configured display name and the step name are empty |
| StepProps.SetProperty | functions-runtime/src/main/java/io/jenkins/functions/runtime/support/StepProperties.java:89-103 | the keys "description", "displayName" and "typeName" set their field; any other key changes nothing, and the name never changes |
| StepProps.SetPropertyLastWins | functions-runtime/src/main/java/io/jenkins/functions/runtime/support/StepProperties.java:89-103 | setting the same key twice keeps the second value |
| StepProps.SetPropertyCommutes | functions-runtime/src/main/java/io/jenkins/functions/runtime/support/StepProperties.java:89-103 | setting two different keys gives the same result in either order |
| StepProps.NewStepProperties | functions-runtime/src/main/java/io/jenkins/functions/runtime/support/StepProperties.java:35-38 | new properties have no type, and without an annotation only the given name; with one, the name, display name and description are each the annotation's value when that is not empty, and otherwise the given name, null and null |
| StepProps.ChildStepProperties | functions-runtime/src/main/java/io/jenkins/functions/runtime/support/StepProperties.java:40-46 | a method's properties keep the class's type; the name, display name and description are each the method annotation's value when that is not empty, and otherwise the class's name, the class's resolved display name and the class's description |
| StepProps.ChildKeepsParentDisplayName | functions-runtime/src/main/java/io/jenkins/functions/runtime/support/StepProperties.java:40-46 | a method with no annotated display name shows the class's display name |
| AptStepProps.NewAptStepProperties | functions-apt/src/main/java/io/jenkins/functions/apt/StepProperties.java:35-39 | the processor's properties hold the given type name; the name, display name and description are each the annotation's value when that is not empty, and otherwise the given name, null and null |
| AptStepProps.ChildAptStepProperties | functions-apt/src/main/java/io/jenkins/functions/apt/StepProperties.java:41-50 | a method's properties keep the parent's type; the name is the annotation's when not empty, else the method name when not empty, else the parent's; the display name and description are the annotation's when not empty, else the parent's resolved display name and the parent's description |
| AptStepProps.Store | functions-apt/src/main/java/io/jenkins/functions/apt/StepProperties.java:93-103 | at most three entries keyed "<name>.<field>", no empty value is stored, and each field is stored exactly when it is not empty |
| ArgumentProps.NewArgumentProperties | functions-runtime/src/main/java/io/jenkins/functions/runtime/support/ArgumentProperties.java:34-37 | new argument properties record the attribute name, use it as the display name, and have no description or type |
| ArgumentProps.SetProperty | functions-runtime/src/main/java/io/jenkins/functions/runtime/support/ArgumentProperties.java:56-70 | the keys "description", "displayName" and "type" set their field; any other key changes nothing |
| ArgumentProps.TypeNameKeyIgnored | functions-runtime/src/main/java/io/jenkins/functions/runtime/support/ArgumentProperties.java:64-66 | the key "typeName" is not one the setter knows, so it leaves the properties unchanged |
| ArgumentProps.CreateAttributeMetadata | functions-runtime/src/main/java/io/jenkins/functions/runtime/support/ArgumentProperties.java:39-53 | there is no metadata exactly when the type is empty; otherwise it carries the recorded fields and the raw class name, resolved exactly when the loader has that class |
| ArgumentProps.GenericTypeResolvedRaw | functions-runtime/src/main/java/io/jenkins/functions/runtime/support/ArgumentProperties.java:43 | a generic type name is loaded by its raw class name |
| Descriptors.SplitKey | functions-runtime/src/main/java/io/jenkins/functions/runtime/StepFunctions.java:102-105 | a key splits at its last '.' into a step name and a field; a key without a '.' is not a step entry |
| Descriptors.SplitKeyOfJoin | functions-runtime/src/main/java/io/jenkins/functions/runtime/StepFunctions.java:102-105 | splitting "<step>.<field>" for a field with no '.' gives back the step and the field |
| Descriptors.ReadEntry | functions-runtime/src/main/java/io/jenkins/functions/runtime/StepFunctions.java:106-111 | an entry creates the step's properties when they are absent and sets the field; other steps are untouched |
| Descriptors.ReadDescriptor | functions-runtime/src/main/java/io/jenkins/functions/runtime/StepFunctions.java:98-113 | the table gains exactly the steps that some dotted key names, other steps are untouched, and every step stays keyed by its own name |
| Descriptors.ReadDescriptorAppend | functions-runtime/src/main/java/io/jenkins/functions/runtime/StepFunctions.java:98-113 | reading two entry lists one after the other equals reading their concatenation |
| Descriptors.LastEntryWins | functions-runtime/src/main/java/io/jenkins/functions/runtime/StepFunctions.java:106-111 | when two entries set the same step field, the later value is the one kept |
| Descriptors.ReadResources | functions-runtime/src/main/java/io/jenkins/functions/runtime/StepFunctions.java:82-90 | reading resources keeps every step keyed by its own name |
| Descriptors.LoadStepFunctionMetadata | functions-runtime/src/main/java/io/jenkins/functions/runtime/StepFunctions.java:80-92 | every loaded step's properties carry the name it is keyed under |
| Descriptors.ResourcesAreOneStream | functions-runtime/src/main/java/io/jenkins/functions/runtime/StepFunctions.java:82-90 | reading several descriptor resources equals reading all their entries as one list |
| Descriptors.LoadedSteps | functions-runtime/src/main/java/io/jenkins/functions/runtime/StepFunctions.java:80-92 | the loaded steps are exactly those some descriptor names |
| Descriptors.StoreRoundTrip | functions-apt/src/main/java/io/jenkins/functions/apt/StepProperties.java:93-103 | reading back what the processor stores gives one step with exactly its non-empty fields |
| Descriptors.StoreRoundTripDisplayName | functions-apt/src/main/java/io/jenkins/functions/apt/StepProperties.java:93-103 | a display name survives the store-then-read round trip |
| Descriptors.ReadArgumentEntry | functions-runtime/src/main/java/io/jenkins/functions/runtime/StepFunctions.java:304-313 | an "<argument>.<attribute>" entry, split at the last '.', sets that attribute of that argument and leaves the others; a key without such a split is ignored |
| Descriptors.ReadArguments | functions-runtime/src/main/java/io/jenkins/functions/runtime/StepFunctions.java:295-316 | the argument table stays sorted and gains exactly the arguments that some entry names |
| Descriptors.EmitArguments | functions-runtime/src/main/java/io/jenkins/functions/runtime/StepFunctions.java:317-323 | metadata comes in argument-name order, each created from its argument's properties, and an argument appears exactly when its type is not empty |
| Descriptors.LoadArgumentMetadataFromProperties | functions-runtime/src/main/java/io/jenkins/functions/runtime/StepFunctions.java:292-325 | metadata comes in sorted order, only for arguments the entries name, an argument appears exactly when its type is set, and each metadata is the one its accumulated properties create |
| Descriptors.SingleArgumentMetadata | functions-runtime/src/main/java/io/jenkins/functions/runtime/StepFunctions.java:292-325 | entries that name one typed argument give exactly one metadata, the one that argument's properties create |
| Descriptors.ArgumentRoundTrip | functions-runtime/src/main/java/io/jenkins/functions/runtime/StepFunctions.java:292-325 | the type, display name and description entries of one argument read back as one metadata carrying those values and the type's raw class name |
| Classes.FindCallMethod | functions-runtime/src/main/java/io/jenkins/functions/runtime/StepFunctions.java:132-137 | the result is a public no-argument `call` of the class or a superclass, found exactly when one exists; among the class's own, the first not returning `Object` is preferred to a bridge, else the first |
| Classes.ChooseApply | functions-runtime/src/main/java/io/jenkins/functions/runtime/StepFunctions.java:194-203 | the chosen `apply` is one of the class's candidates; among several, the first whose return type is not `Object` wins, and failing that the first candidate; a single candidate is itself chosen |
| Classes.FindApplyMethod | functions-runtime/src/main/java/io/jenkins/functions/runtime/StepFunctions.java:185-209 | the result is a one-parameter `apply` of the class or a superclass, found exactly when one exists, and the class's own choice comes first |
| Classes.StepMethodName | functions-runtime/src/main/java/io/jenkins/functions/runtime/StepFunctions.java:173-176 | a step method is registered under its annotation's name when that is set, and otherwise under its method name |
| Classes.LoadStepMethods | functions-runtime/src/main/java/io/jenkins/functions/runtime/StepFunctions.java:167-183 | the keys are exactly the names of the annotated methods, and each value is an annotated method with that name |
| Classes.EarliestStepMethodKept | functions-runtime/src/main/java/io/jenkins/functions/runtime/StepFunctions.java:177-179 | when two methods share a step name, the one listed first is kept |
| Metadata.RenderPrototype | functions-runtime/src/main/java/io/jenkins/functions/runtime/StepMetadata.java:79-93 | the prototype is the name, "(", the argument texts joined by ", ", and ")"; a null array gives "name()" |
| Metadata.JoinLength | functions-runtime/src/main/java/io/jenkins/functions/runtime/StepMetadata.java:83-89 | the joined text is as long as the parts together plus one separator between each pair |
| Metadata.NullArgumentsLikeEmpty | functions-runtime/src/main/java/io/jenkins/functions/runtime/StepMetadata.java:82 | a null argument array renders like an empty one |
| Metadata.ArgumentPrototype | functions-runtime/src/main/java/io/jenkins/functions/runtime/ArgumentMetadata.java:33-45 | an argument renders as its type, a space and its name, leaving out either part that is absent or empty |
| Metadata.NullNameRendered | functions-runtime/src/main/java/io/jenkins/functions/runtime/ArgumentMetadata.java:38 | a name spelled "null" is rendered after the type, unlike the empty texts of `Strings.isNullOrEmpty`, because only the length is tested |
| Metadata.PrototypeEmptyOnlyWithoutBoth | functions-runtime/src/main/java/io/jenkins/functions/runtime/ArgumentMetadata.java:33-45 | an argument's prototype is empty exactly when it has neither a type nor a name |
| Metadata.NewStepMetadata | functions-runtime/src/main/java/io/jenkins/functions/runtime/StepMetadata.java:32-45 | the name, return type, arguments and class are as given; display name and description come from the annotation, or the name and "" without one |
| Metadata.GetPrototype | functions-runtime/src/main/java/io/jenkins/functions/runtime/StepMetadata.java:79-93 | the step's prototype is its name with the argument prototypes joined by ", " in parentheses, and "name()" for a null array |
| LoaderMetadata.GetPrototype | functions-loader/src/main/java/io/jenkins/functions/loader/StepMetadata.java:59-73 | the loader's prototype joins its argument texts in the same way, and gives "name()" for a null array |
| ImportTable.Claim | functions-runtime/src/main/java/io/jenkins/functions/runtime/generator/Imports.java:65-81 | a class without a package is used as is; a free simple name is claimed for the class; a taken one is kept, giving the simple name only to its holder |
| ImportTable.ClaimConsistent | functions-runtime/src/main/java/io/jenkins/functions/runtime/generator/Imports.java:69-76 | claiming keeps every simple name bound to at most one class |
| ImportTable.ClaimAgain | functions-runtime/src/main/java/io/jenkins/functions/runtime/generator/Imports.java:77-80 | a second claim of the same class changes nothing and again succeeds |
| GeneratorImports.SimpleName3 | functions-runtime/src/main/java/io/jenkins/functions/runtime/generator/Imports.java:65-81 | the table stays sorted, and the only name it can gain is the class itself, and only when it is importable |
| GeneratorImports.SimpleName | functions-runtime/src/main/java/io/jenkins/functions/runtime/generator/Imports.java:45-59 | naming a class keeps the import list sorted and free of duplicates |
| GeneratorImports.SplitGeneric | functions-runtime/src/main/java/io/jenkins/functions/runtime/generator/Imports.java:46-52 | a generic type is named as its raw class, "<", its named argument, and ">" |
| GeneratorImports.UndottedUnchanged | functions-runtime/src/main/java/io/jenkins/functions/runtime/generator/Imports.java:53-58 | a name whose raw part has no package is returned unchanged, and the table is not touched |
| GeneratorImports.SimpleNameCases | functions-runtime/src/main/java/io/jenkins/functions/runtime/generator/Imports.java:45-59 | a package-qualified name becomes its simple name plus generics when free or held by the same class, and stays qualified when another class holds it |
| GeneratorImports.SimpleNameTwice | functions-runtime/src/main/java/io/jenkins/functions/runtime/generator/Imports.java:77-80 | naming the same class twice gives the same text and leaves the table unchanged the second time |
| GeneratorImports.SimpleNameConsistent | functions-runtime/src/main/java/io/jenkins/functions/runtime/generator/Imports.java:72-75 | naming a class keeps each simple name bound to at most one class |
| GeneratorImports.AddImports | functions-runtime/src/main/java/io/jenkins/functions/runtime/generator/Imports.java:35-39 | adding imports keeps the import list sorted and free of duplicates |
| GeneratorImports.AddImportsAppend | functions-runtime/src/main/java/io/jenkins/functions/runtime/generator/Imports.java:35-39 | adding two lists one after the other equals adding their concatenation |
| GeneratorImports.AddImportsConsistent | functions-runtime/src/main/java/io/jenkins/functions/runtime/generator/Imports.java:33 | after adding imports, each simple name still belongs to one class and only importable names are listed |
| GeneratorImports.GetImportList | functions-runtime/src/main/java/io/jenkins/functions/runtime/generator/Imports.java:41-43 | the list holds exactly the recorded imports, in strictly ascending order and without duplicates |
| GeneratorImports.ImportListAfterAdding | functions-runtime/src/main/java/io/jenkins/functions/runtime/generator/Imports.java:33-43 | after adding imports to a new table, every listed import is a dotted name outside `java.lang` that some simple name stands for |
| MavenImports.SimpleName3 | functions-maven-plugin/src/main/java/io/jenkins/functions/maven/Imports.java:58-72 | a free simple name adds the class to the import list, without the generator's importability filter |
| MavenImports.SimpleName | functions-maven-plugin/src/main/java/io/jenkins/functions/maven/Imports.java:45-52 | an undotted name is returned unchanged with the table untouched, and the table stays sorted |
| MavenImports.SimpleNameCases | functions-maven-plugin/src/main/java/io/jenkins/functions/maven/Imports.java:45-72 | a dotted name becomes its simple name when free or held by the same class, and stays qualified when another class holds it |
| MavenImports.SimpleNameConsistent | functions-maven-plugin/src/main/java/io/jenkins/functions/maven/Imports.java:62-71 | naming a class keeps each simple name bound to at most one class |
| MavenImports.AddImports | functions-maven-plugin/src/main/java/io/jenkins/functions/maven/Imports.java:35-39 | adding imports keeps the maven import list sorted and free of duplicates |
| MavenImports.AddImportsConsistent | functions-maven-plugin/src/main/java/io/jenkins/functions/maven/Imports.java:33 | after adding imports, each simple name still belongs to one class |
| Sorted.Insert | functions-runtime/src/main/java/io/jenkins/functions/runtime/generator/Imports.java:74 | adding to a sorted set keeps it sorted, and its elements are the old ones plus the new one |
| Sorted.InsertTwice | functions-runtime/src/main/java/io/jenkins/functions/runtime/generator/Imports.java:72-75 | adding an element that is already present changes nothing |
| Sorted.SortedUnique | functions-runtime/src/main/java/io/jenkins/functions/runtime/generator/Imports.java:33 | two strictly sorted sequences with the same elements are equal |
| Sorted.LessIsCodeUnitOrder | functions-runtime/src/main/java/io/jenkins/functions/runtime/generator/Imports.java:33 | the order of the sorted sets and maps, `String.compareTo`, is the lexicographic order of the strings' UTF-16 code units, a proper prefix first |
| Sorted.SupplementaryBeforePrivateUse | functions-runtime/src/main/java/io/jenkins/functions/runtime/StepFunctions.java:293 | a character beyond U+FFFF, stored as a surrogate pair, sorts before U+E000 in a `TreeMap` key |
| TreeMaps.Put | functions-runtime/src/main/java/io/jenkins/functions/runtime/StepFunctions.java:308-312 | putting into a sorted map keeps it sorted and binds the key; the key order grows only for a new key |
| TreeMaps.KeysDetermined | functions-runtime/src/main/java/io/jenkins/functions/runtime/StepFunctions.java:293 | a sorted map's key order is determined by its key set alone |
| Beans.SetBeanProperty | functions-runtime/src/main/java/io/jenkins/functions/runtime/support/CallableStepFunction.java:58-62 | setting succeeds exactly when the property is writable, and then only that property changes |
| Beans.BindAll | functions-runtime/src/main/java/io/jenkins/functions/runtime/support/CallableStepFunction.java:52-64 | binding succeeds exactly when every argument name is writable; the bean then holds each argument's last value, and otherwise the first unwritable argument is reported |
| Beans.BindAllAppend | functions-runtime/src/main/java/io/jenkins/functions/runtime/support/CallableStepFunction.java:54-63 | binding two argument lists one after the other equals binding their concatenation |
| Beans.BindArguments | functions-runtime/src/main/java/io/jenkins/functions/runtime/support/CallableStepFunction.java:53 | a null argument map binds nothing; a map binds each of its entries |
| Beans.NullMapBindsLikeEmpty | functions-runtime/src/main/java/io/jenkins/functions/runtime/support/CallableStepFunction.java:53 | a null map binds exactly like an empty map |
| Beans.Get | functions-runtime/src/main/java/io/jenkins/functions/runtime/support/MethodStepFunction.java:58 | the value is the last one given for the name, or null when the name is absent |
| Beans.InjectContext | functions-runtime/src/main/java/io/jenkins/functions/runtime/support/StepFunctionSupport.java:93-102 | the logger and current directory of the context go into their properties; it fails when one is given but the bean cannot take it, and other properties are unchanged |
| Beans.EmptyContextInjectsNothing | functions-runtime/src/main/java/io/jenkins/functions/runtime/support/StepFunctionSupport.java:93-102 | an empty context leaves the bean unchanged |
| RuntimeFunctions.NewArgumentsStepFunction | functions-runtime/src/main/java/io/jenkins/functions/runtime/support/ArgumentsStepFunction.java:36-40 | the function records its class, metadata and apply method, and its context type is the `apply` parameter's type |
| RuntimeFunctions.CallResult | functions-runtime/src/main/java/io/jenkins/functions/runtime/support/CallableStepFunction.java:42-48 | an entry point that yields nothing fails with an error naming the method; otherwise its value is the result |
| RuntimeFunctions.GetName | functions-runtime/src/main/java/io/jenkins/functions/runtime/support/StepFunctionSupport.java:121-123 | a function's name is the name in its metadata |
| RuntimeFunctions.GetNameIgnoresConstructorName | functions-runtime/src/main/java/io/jenkins/functions/runtime/support/StepFunctionSupport.java:121-123 | the reported name does not depend on the name given to the constructor |
| RuntimeFunctions.ToString | functions-runtime/src/main/java/io/jenkins/functions/runtime/support/StepFunctionSupport.java:45-57 | an arguments function shows as "ArgumentsStepFunction{name}"; the others show their variant, class and name |
| RuntimeFunctions.ToStringShowsName | functions-runtime/src/main/java/io/jenkins/functions/runtime/support/StepFunctionSupport.java:45-57 | the text opens with the variant's simple class name and a brace and closes with the name `getName` reports, then `}` or `()}` |
| RuntimeFunctions.CreateFunctionObject | functions-runtime/src/main/java/io/jenkins/functions/runtime/support/StepFunctionSupport.java:80-91 | a class that cannot be instantiated fails, naming the class; otherwise a fresh instance with the context injected |
| RuntimeFunctions.CreateArgumentsObject | functions-runtime/src/main/java/io/jenkins/functions/runtime/support/CallableStepFunction.java:52-66 | a null map leaves the object as it is; otherwise every argument is bound, and the class and writable properties never change |
| RuntimeFunctions.CallableInvokeOnInstance | functions-runtime/src/main/java/io/jenkins/functions/runtime/support/CallableStepFunction.java:40-49 | the entry point is called on the bound object exactly when binding succeeds, and its result is the invocation's result |
| RuntimeFunctions.ContextArgument | functions-runtime/src/main/java/io/jenkins/functions/runtime/support/ArgumentsStepFunction.java:48-70 | a Map context receives the arguments themselves, or null for a null map; any other type receives a new instance with the arguments bound |
| RuntimeFunctions.ArgumentsInvokeOnInstance | functions-runtime/src/main/java/io/jenkins/functions/runtime/support/ArgumentsStepFunction.java:47-79 | `apply` is called with the context argument when it can be built, and otherwise the build failure is reported |
| RuntimeFunctions.BindingName | functions-runtime/src/main/java/io/jenkins/functions/runtime/support/MethodStepFunction.java:50-57 | a parameter binds under its annotated name when that is set, and otherwise under its declared name |
| RuntimeFunctions.Slot | functions-runtime/src/main/java/io/jenkins/functions/runtime/support/MethodStepFunction.java:58-65 | a present argument is converted to the parameter's type; an absent one passes null |
| RuntimeFunctions.Slots | functions-runtime/src/main/java/io/jenkins/functions/runtime/support/MethodStepFunction.java:42-66 | there is one value per parameter, in parameter order |
| RuntimeFunctions.MethodInvokeOnInstanceAsWritten | functions-runtime/src/main/java/io/jenkins/functions/runtime/support/MethodStepFunction.java:41-74 | as written: a null map with at least one parameter fails; otherwise the method is called with one slot per parameter |
| RuntimeFunctions.MethodInvokeOnInstance | functions-runtime/src/main/java/io/jenkins/functions/runtime/support/MethodStepFunction.java:41-74 | with a map it behaves as written; its only failure is the entry point's own, so a null map never fails |
| RuntimeFunctions.MethodNullMapLikeEmpty | functions-runtime/src/main/java/io/jenkins/functions/runtime/support/MethodStepFunction.java:58 | with the null check, a null map dispatches like an empty map |
| RuntimeFunctions.MethodNullMapFails | functions-runtime/src/main/java/io/jenkins/functions/runtime/support/MethodStepFunction.java:58 | as written, a null map fails for every method with at least one parameter, while an empty map, and the corrected variant with a null map, call it with null for each parameter |
| RuntimeFunctions.Invoke | functions-runtime/src/main/java/io/jenkins/functions/runtime/support/StepFunctionSupport.java:60-63 | invoking creates the function object and dispatches on it; a creation failure stops it, and a success is a value the entry point produced |
| RuntimeFunctions.CallableBindFailureSkipsCall | functions-runtime/src/main/java/io/jenkins/functions/runtime/support/CallableStepFunction.java:58-62 | an argument that no property accepts fails the invocation without calling the entry point |
| RuntimeFunctions.CallableSeesArguments | functions-runtime/src/main/java/io/jenkins/functions/runtime/support/CallableStepFunction.java:40-43 | the entry point sees each bound argument in the matching property |
| RuntimeFunctions.GetArguments | functions-runtime/src/main/java/io/jenkins/functions/runtime/support/StepFunctionSupport.java:66-78 | every argument given appears with its last value, and a creation failure is reported |
| RuntimeFunctions.GetArgumentsIgnoresEntryPoint | functions-runtime/src/main/java/io/jenkins/functions/runtime/support/StepFunctionSupport.java:66-70 | building the argument object never calls the entry point |
| RuntimeFunctions.MapContextPassesMapThrough | functions-runtime/src/main/java/io/jenkins/functions/runtime/support/ArgumentsStepFunction.java:49-50 | an `apply(Map)` receives the argument map unchanged |
| Registry.ArgumentMetadataFor | functions-runtime/src/main/java/io/jenkins/functions/runtime/StepFunctions.java:279-290 | a step without an argument resource has no argument metadata; otherwise the metadata is in name order, for exactly the typed arguments the resource names, each created from that argument's accumulated properties |
| Registry.MetadataFor | functions-runtime/src/main/java/io/jenkins/functions/runtime/StepFunctions.java:135-136 | the metadata carries the key, the class name, the method's properties layered on the class's, the return type and the key's argument metadata |
| Registry.SingleEntry | functions-runtime/src/main/java/io/jenkins/functions/runtime/StepFunctions.java:132-162 | a class with `call` becomes a callable function, else one with `apply` an arguments function, else nothing |
| Registry.MethodFunction | functions-runtime/src/main/java/io/jenkins/functions/runtime/StepFunctions.java:151-154 | a step method becomes a method function under its step name, with the method's own properties |
| Registry.MethodEntries | functions-runtime/src/main/java/io/jenkins/functions/runtime/StepFunctions.java:141-156 | there is one method function per step name of the class, each bound to the method with that name |
| Registry.ClassFunctions | functions-runtime/src/main/java/io/jenkins/functions/runtime/StepFunctions.java:131-163 | a class yields its single entry point when it has one, else its step methods, else an error naming the class |
| Registry.LoadStepFunctionsForClass | functions-runtime/src/main/java/io/jenkins/functions/runtime/StepFunctions.java:128-164 | the registry gains exactly the class's names with every other entry kept, or the load fails naming the class |
| Registry.CallableKeptUnderDescriptorName | functions-runtime/src/main/java/io/jenkins/functions/runtime/StepFunctions.java:129-137 | a callable class whose annotation gives another name is still registered under the descriptor's step name |
| Registry.LoadStep | functions-runtime/src/main/java/io/jenkins/functions/runtime/StepFunctions.java:118-124 | a step without a type adds nothing; a failure is one its class causes; on success the registry gained exactly the names the step's class claims, each bound to the function that class builds for it, and every other entry is kept |
| Registry.ClassLoadKeepsRegistry | functions-runtime/src/main/java/io/jenkins/functions/runtime/StepFunctions.java:128-164 | loading a class never removes a function that another name already holds |
| Registry.LoadStepFunctions | functions-runtime/src/main/java/io/jenkins/functions/runtime/StepFunctions.java:116-126 | on success the registry gained exactly the names the visited steps' classes claim, nothing was removed, every entry is either an original one or the function some visited step's class builds for that name, and every function is under its own name |
| Registry.AllClaims | functions-runtime/src/main/java/io/jenkins/functions/runtime/StepFunctions.java:116-126 | the names claimed by a list of steps are those claimed by one of its steps |
| Registry.LoadedTypesResolve | functions-runtime/src/main/java/io/jenkins/functions/runtime/StepFunctions.java:118-123 | after a successful load, every step's class is one the loader has |
| Registry.FailureNamesAStep | functions-runtime/src/main/java/io/jenkins/functions/runtime/StepFunctions.java:116-126 | a failed load was caused by one of the listed steps |
| Registry.UntypedStepsIgnored | functions-runtime/src/main/java/io/jenkins/functions/runtime/StepFunctions.java:117-121 | loading all the steps equals loading only those with a type |
| Registry.LoadAll | functions-runtime/src/main/java/io/jenkins/functions/runtime/StepFunctions.java:72-78 | the registry built from a class loader holds exactly the names claimed by the classes of its descriptors, each bound to the function some descriptor's class builds for it, under its own name |
| Registry.OrderCoversClaims | functions-runtime/src/main/java/io/jenkins/functions/runtime/StepFunctions.java:72-78 | when the visiting order lists every descriptor once, a successful load registers every descriptor's claimed names and only those, each bound to what some descriptor's class builds |
| Registry.InvokeFunction | functions-runtime/src/main/java/io/jenkins/functions/runtime/StepFunctions.java:63-69 | a name that is not registered fails with "function not found"; otherwise the registered function is invoked, and a success comes from its entry point |
| Registry.InvokedFunctionIsNamed | functions-runtime/src/main/java/io/jenkins/functions/runtime/StepFunctions.java:63-69 | a function in a well-built registry reports the name it is registered under |
| Registry.InvokeFunctionWithLoader | functions-runtime/src/main/java/io/jenkins/functions/runtime/StepFunctions.java:58-61 | invoking through a class loader first loads the registry, and a loading failure is reported instead |
| Loader.CreateStepFunction | functions-loader/src/main/java/io/jenkins/functions/loader/StepFunctions.java:70-89 | a function exists exactly when the class has `call`, and otherwise the error names the class; it carries the step name, no arguments and the annotation's description |
| Loader.LoadEntries | functions-loader/src/main/java/io/jenkins/functions/loader/StepFunctions.java:58-66 | on success the registry gains exactly the names the entries claim, and each of their classes resolved |
| Loader.LoadEntriesAppend | functions-loader/src/main/java/io/jenkins/functions/loader/StepFunctions.java:58-66 | loading two entry lists one after the other equals loading their concatenation |
| Loader.LaterEntryWins | functions-loader/src/main/java/io/jenkins/functions/loader/StepFunctions.java:62-64 | a later entry with the same name replaces the earlier function |
| Loader.LoadStepFunctions | functions-loader/src/main/java/io/jenkins/functions/loader/StepFunctions.java:39-52 | on success the names are exactly those claimed across all resources, each registered under its own name |
| Loader.ResourcesLoadAsOneStream | functions-loader/src/main/java/io/jenkins/functions/loader/StepFunctions.java:41-49 | loading several resources equals loading all their entries as one list |
| Loader.InvokeImpl | functions-loader/src/main/java/io/jenkins/functions/loader/StepFunctionImpl.java:41-71 | a class that cannot be instantiated fails naming it; otherwise the call runs on a new instance with the arguments bound |
| Loader.ImplIsCallableWithoutContext | functions-loader/src/main/java/io/jenkins/functions/loader/StepFunctionImpl.java:41-71 | the loader's function behaves as the runtime's callable function with an empty context |
| Loader.SupportName | functions-loader/src/main/java/io/jenkins/functions/loader/support/StepFunctionSupport.java:80-82 | the loader's function reports the name in its metadata |
| Loader.ContextInvokeOnInstance | functions-loader/src/main/java/io/jenkins/functions/loader/support/ContextStepFunction.java:41-73 | `apply` receives the map itself for a Map context, else a new instance with the arguments bound, or the binding failure |
| Loader.ContextMatchesArgumentsVariant | functions-loader/src/main/java/io/jenkins/functions/loader/support/ContextStepFunction.java:57-61 | the loader's variant fails exactly when the runtime's does and agrees on success; a binding error names the function object |
| Loader.BindTargetOnlyInError | functions-loader/src/main/java/io/jenkins/functions/loader/support/ContextStepFunction.java:57-61 | the two variants differ only in which object a binding error names |
| Loader.SupportInvoke | functions-loader/src/main/java/io/jenkins/functions/loader/support/StepFunctionSupport.java:41-52 | a creation failure is reported; otherwise the new function object, with the context injected, is handed to the callable or context variant's `invokeOnInstance`, and a success is a value the entry point produced |
| Loader.SupportCallableIsRuntimeCallable | functions-loader/src/main/java/io/jenkins/functions/loader/support/StepFunctionSupport.java:41-52 | the loader's callable variant invokes exactly as the runtime's `Callable` variant over the same class and method, context included |
| Loader.SupportContextMatchesRuntime | functions-loader/src/main/java/io/jenkins/functions/loader/support/StepFunctionSupport.java:41-52 | the loader's context variant succeeds exactly when the runtime's `Arguments` variant does, with the same value, and reports a binding error against the function object |
| Git.EndsLikeRepository | functions-runtime/src/main/java/io/jenkins/functions/runtime/helpers/GitHelper.java:38-42 | a URL that ends in "/" and the repository ends in ".git" exactly when the repository does |
| Git.CloneUrls | functions-runtime/src/main/java/io/jenkins/functions/runtime/helpers/GitHelper.java:30-44 | the https, ssh and git URLs are listed, then each with ".git" appended unless the repository already ends in ".git" |
| Git.GetRepoName | functions-runtime/src/main/java/io/jenkins/functions/runtime/helpers/GitHelper.java:109-117 | the name is the text after the last '/', contains no '/', and ends the project; empty projects come back unchanged |
| Git.GetProject | functions-runtime/src/main/java/io/jenkins/functions/runtime/helpers/GitRepositoryInfo.java:55-64 | "organisation/name" when both are set, the organisation alone when only it is, and otherwise the name |
| Git.RepoNameOfProject | functions-runtime/src/main/java/io/jenkins/functions/runtime/helpers/GitRepositoryInfo.java:55-64 | the repository name is recovered from the project text when the name has no '/' |
| Git.ParseGitRepositoryInfo | functions-runtime/src/main/java/io/jenkins/functions/runtime/helpers/GitHelper.java:49-52 | an empty URL parses to null, and any other is handed to the URL parser |
| Git.ParseSeesOnlyTheUrl | functions-runtime/src/main/java/io/jenkins/functions/runtime/helpers/GitHelper.java:49-52 | only the URL reaches the parser; with a parser that accepts the URL, the result is null exactly for null, "" and "null" |
| PipelineStep.NewStepSupport | functions-step/src/main/java/io/jenkins/functions/step/StepSupport.java:41-43 | a new step holds its function and no arguments |
| PipelineStep.Start | functions-step/src/main/java/io/jenkins/functions/step/StepSupport.java:51-53 | the execution runs the step's own function over the arguments collected so far |
| PipelineStep.StartSeesSetArguments | functions-step/src/main/java/io/jenkins/functions/step/StepSupport.java:51-83 | a step whose setters ran for two names starts an execution over exactly those two arguments |
| PipelineStep.Arguments | functions-step/src/main/java/io/jenkins/functions/step/StepSupport.java:65-67 | the view has exactly the step's argument names and values |
| PipelineStep.GetArgument | functions-step/src/main/java/io/jenkins/functions/step/StepSupport.java:70-79 | a value comes back only when it is stored, not null and of the requested type, and then it always does |
| PipelineStep.SetArgument | functions-step/src/main/java/io/jenkins/functions/step/StepSupport.java:81-83 | the name is bound to the value and every other argument is kept |
| PipelineStep.SetThenGet | functions-step/src/main/java/io/jenkins/functions/step/StepSupport.java:70-83 | a value that was set is read back when it has the requested type, and other names are unaffected |
| PipelineStep.GetFunctionName | functions-step/src/main/java/io/jenkins/functions/step/StepSupport.java:96-98 | the descriptor returns the function name it was built with |
| PipelineStep.GetDisplayName | functions-step/src/main/java/io/jenkins/functions/step/StepSupport.java:101-103 | the descriptor returns the display name it was built with |
| Scenarios.HelloCall | functions-runtime/src/test/java/io/jenkins/functions/runtime/StepFunctionsTest.java:60-69 | invoking the hello function with name "James" returns "Hello James" |
| Scenarios.HelloScenario | functions-runtime/src/test/java/io/jenkins/functions/runtime/StepFunctionsTest.java:60-69 | loading the hello class registers "hello" as a callable function, and invoking it returns "Hello James" |
| Scenarios.ExampleCall | functions-runtime/src/test/java/io/jenkins/functions/runtime/StepFunctionsTest.java:71-79 | invoking the example function with a message returns the success result |
| Scenarios.ExampleScenario | functions-runtime/src/test/java/io/jenkins/functions/runtime/StepFunctionsTest.java:71-79 | the example class declares two `apply` candidates, the bridge `apply(Object)` and `apply(Context)`; loading registers "example" as an arguments function on the typed one, and invoking it returns the success result |
| Scenarios.FunctionsStepMethods | functions-sample/src/main/java/io/jenkins/functions/sample/Functions.java:23-34 | the sample class's step methods are exactly "cheese" and "beer" |
| Scenarios.FunctionsHasNoSingleEntry | functions-sample/src/main/java/io/jenkins/functions/sample/Functions.java:23-34 | the sample class has neither `call` nor `apply`, so its step methods are used |
| Scenarios.MethodClassFunctions | functions-runtime/src/main/java/io/jenkins/functions/runtime/StepFunctions.java:141-156 | a class with neither `call` nor `apply` but with step methods yields its method functions |
| Scenarios.MethodClassLoads | functions-runtime/src/main/java/io/jenkins/functions/runtime/StepFunctions.java:139-156 | loading such a class registers exactly its step-method names, each bound to its method |
| Scenarios.CheeseCall | functions-runtime/src/test/java/io/jenkins/functions/runtime/StepFunctionsTest.java:101-111 | invoking cheese with name "James" and amount 69 returns "Hello James #69" |
| Scenarios.CheeseDispatch | functions-runtime/src/test/java/io/jenkins/functions/runtime/StepFunctionsTest.java:101-111 | invoking "cheese" in a registry holding the cheese method returns "Hello James #69" |
| Scenarios.CheeseScenario | functions-runtime/src/test/java/io/jenkins/functions/runtime/StepFunctionsTest.java:101-111 | loading the sample class registers "cheese" and "beer", and invoking "cheese" returns "Hello James #69" |

## Left out

- Logging, the `System.out` warnings and stream closing are left out. They do not affect results.
- Reflection and class loading (`Class.forName`, `getMethod`, `newInstance`) are plain data: a class loader lists its resources and loadable classes. `PrimitiveTypes.getClass` is folded into the set of loadable class names.
- The bodies of the user's entry points (`method.invoke`) and `ConvertUtils.convert` are the `Env` parameter, because they are user code.
- Registry.LoadStepFunctions: the metadata map is a `HashMap`, so its iteration order is the explicit `order` parameter, which must list the map's keys. ArgMap lists a map's entries in iteration order, and a lookup returns the last entry for a key.
- Strings.Capitalise: requires a non-empty text, because `substring(0, 1)` throws on "". The exception path is not modelled.
- Strings.Humanize: requires a non-empty name, for the same reason as Strings.Capitalise.
- Strings.ToUpper: only ASCII letters are classified and mapped. Java uses Unicode character classes.
- Strings.SplitCamelCaseIsSpliced: a separator goes only between an ASCII lower-case letter and an ASCII upper-case one. Java's `Character.isLowerCase`/`isUpperCase` also see other letters, so for "éA" Java inserts a separator and the model does not.
- Strings.Humanize: inherits the ASCII-only case classes of Strings.SplitCamelCaseIsSpliced and Strings.ToUpper, so a name whose case boundary or first letter is not ASCII is spaced or capitalised differently from Java.
- Git.ParseGitRepositoryInfo: the URI and `git@` parsing after the empty-URL guard (GitHelper.java:53 onward) is the `parse` parameter. It uses `java.net.URI`, which is not part of this model.
- RuntimeFunctions.GetArguments: modelled for the callable variant only. The arguments and method variants inherit no `createArgumentsObject`, and the test's defaulting of missing values (StepFunctionsTest.java:81-99) is not modelled.
- RuntimeFunctions.Invoke: the `Method` variant is dispatched to the corrected `RuntimeFunctions.MethodInvokeOnInstance` (see Findings). With a null argument map and a method that has parameters, it calls the method with nulls, where the code as written throws a `NullPointerException`. The code as written is `RuntimeFunctions.MethodInvokeOnInstanceAsWritten`, and the two agree for every non-null map.
- Registry.InvokeFunction: inherits the corrected `Method` dispatch of RuntimeFunctions.Invoke.
- Registry.InvokeFunctionWithLoader: inherits the corrected `Method` dispatch of RuntimeFunctions.Invoke.
- PipelineStep.Start: the execution receives the arguments as a value. `StepSupport.java:52` hands over the step's live map, so in Java later `setArgument` calls stay visible to an execution already created. Aliasing of mutable maps is not modelled, and neither is the `StepContext` passed along.
- Classes.FindCallMethod: `Class.getMethod` picks the overload with the most specific return type. The model prefers a `call()` that does not return `Object`, which separates a class's own `call` from the bridge the compiler adds for `Callable<T>`. It does not rank two non-`Object` return types against each other.
- Beans.SetBeanProperty: a value whose type the property's setter does not accept makes `PropertyUtils.setProperty` throw. The model binds any value to a writable property, so this failure is not modelled.
- Beans.BindAll: inherits from Beans.SetBeanProperty that a value of the wrong type for its property is bound, not reported as a binding error.
- Classes.ChooseApply: `Class.getDeclaredMethods` (StepFunctions.java:168, 186) returns methods in no particular order. A class's `methods` are in the order that call returns them, so which of several candidates comes first, and which method `Classes.EarliestStepMethodKept` keeps, depends on that order.
- Classes.EarliestStepMethodKept: the "earliest" method is the first in the order `getDeclaredMethods` returns, which the JVM leaves unspecified (see Classes.ChooseApply).
- Loader.Registers: functions-loader/src/main/java/io/jenkins/functions/loader/StepFunctions.java:29, 62 calls its own `io.jenkins.functions.loader.helpers.Strings.notEmpty`, which is not part of this model. The model assumes it is the runtime's `Strings.notEmpty`, so a name or class name spelled "null" does not register.
- Loader.SupportInvoke: the loader's `CallableStepFunction` and `ContextStepFunction` declare a two-argument `invokeOnInstance` that does not override the abstract three-argument one. The model dispatches to them as evidently intended.
- Registry.MetadataFor: `StepFunctions.java:136` passes `StepProperties` to a `StepMetadata` constructor, but the `StepMetadata.java` at this revision declares only one that takes a `Step`. The function's metadata keeps the merged properties, and `Metadata.NewStepMetadata` models the declared constructor separately.
- ArgumentProps.CreateAttributeMetadata: the five-argument `ArgumentMetadata` constructor it calls is not declared in the `ArgumentMetadata.java` at this revision. The model records the five arguments as given.
- `loadFunction` (StepFunctions.java:214-234) and `loadArgumentMetadataFromMethod`/`FromClass` (236-276) are left out. They read annotations through reflection on method and field objects.
- `simpleName(Class)` in both import tables is left out. It only forwards `getName()` to the string form, which is modelled.
- The `StepSupport(functionName, clazz)` constructor is left out. It needs the class's own class loader.
- `ExecutionSupport`, the `toString` of `StepMetadata` and `ArgumentMetadata`, the maven Mojo and the generator's source-code output are left out. They are I/O or text generation around the modelled core.
- The `HelloFunction` source is not part of this model. `Scenarios` describes it from what the test expects of it.
- Scenarios.Decimal: renders non-negative integers only, which is all the scenarios use.

## Findings

| source | as written | input that shows it | evidently intended | confidence | as-written member | corrected member |
|---|---|---|---|---|---|---|
| functions-runtime/src/main/java/io/jenkins/functions/runtime/support/MethodStepFunction.java:58 | `arguments.get(name)` is called without checking `arguments` for null | a null argument map and a step method with at least one parameter: the call throws a NullPointerException | a null map treated as empty, as the callable (CallableStepFunction.java:53) and arguments (ArgumentsStepFunction.java:58) variants do; `RuntimeFunctions.InvokeOnInstance` dispatches the `Method` variant to the corrected member | medium; not executed | RuntimeFunctions.MethodInvokeOnInstanceAsWritten | RuntimeFunctions.MethodInvokeOnInstance |
