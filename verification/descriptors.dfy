/**
 * Reading the step descriptors (`io/jenkins/functions/steps.properties`)
 * and the per-step argument descriptors into
 * accumulators.  A descriptor is given as its entries in iteration order;
 * each key is split at its last '.' into the owner (a step or argument
 * name) and the property being set.
 */
module Descriptors {
  import opened Lang
  import opened Strings
  import opened Sorted
  import opened TreeMaps
  import opened StepProps
  import ArgumentProps
  import AptStepProps

  /** A key/value entry of a `.properties` resource. */
  type Entry = (string, string)

  /**
   * `lastIndexOf('.')` split of a key: the owner before the last '.', the
   * property after it; no split when the key has no '.' or only a leading one.
   */
  function SplitKey(key: string): (r: Option<(string, string)>)
    ensures r.Some? <==> LastIndexOf(key, '.') > 0
    ensures r.Some? ==> |r.value.0| > 0 && '.' !in r.value.1 && key == r.value.0 + "." + r.value.1
  {
    var idx := LastIndexOf(key, '.');
    if idx > 0 then
      assert key == key[..idx] + "." + key[idx + 1..];
      Some((key[..idx], key[idx + 1..]))
    else None
  }

  /** Splitting undoes joining, for an owner that is not empty and a property without '.'. */
  lemma SplitKeyOfJoin(owner: string, property: string)
    requires |owner| > 0 && '.' !in property
    ensures SplitKey(owner + "." + property) == Some((owner, property))
  {
    var key := owner + "." + property;
    assert key[|owner|] == '.';
    assert key[|owner| + 1..] == property;
    LastIndexOfAt(key, '.', |owner|);
    assert key[..|owner|] == owner;
  }

  /** The owners named by the splittable keys of `entries`. */
  function Owners(entries: seq<Entry>): set<string>
  {
    if |entries| == 0 then {}
    else
      var rest := Owners(entries[1..]);
      match SplitKey(entries[0].0)
      case None => rest
      case Some(split) => {split.0} + rest
  }

  // ---------------------------------------------------------------------------
  // Step descriptors
  // ---------------------------------------------------------------------------

  /** Every accumulator is stored under its own name. */
  ghost predicate NamedByKey(m: map<string, StepProperties>) {
    forall n :: n in m ==> m[n].name == n
  }

  /** The accumulator for `name`, created with no annotation when absent. */
  function Lookup(m: map<string, StepProperties>, name: string): StepProperties {
    if name in m then m[name] else NewStepProperties(name, None)
  }

  /**
   * One iteration of `loadStepFunctionMetadataForURL`: a splittable key
   * sets its property on the accumulator for its step name, created on
   * first sight; any other key is ignored.
   */
  function ReadEntry(m: map<string, StepProperties>, e: Entry): (r: map<string, StepProperties>)
    ensures SplitKey(e.0).None? ==> r == m
    ensures SplitKey(e.0).Some? ==>
      var (n, k) := SplitKey(e.0).value;
      && r.Keys == m.Keys + {n}
      && r[n] == StepProps.SetProperty(Lookup(m, n), n, k, e.1)
      && forall x :: x in m && x != n ==> r[x] == m[x]
    ensures NamedByKey(m) ==> NamedByKey(r)
  {
    match SplitKey(e.0)
    case None => m
    case Some(split) =>
      var (n, k) := split;
      m[n := StepProps.SetProperty(Lookup(m, n), n, k, e.1)]
  }

  /** All entries of one descriptor, in iteration order. */
  function ReadDescriptor(m: map<string, StepProperties>, entries: seq<Entry>): (r: map<string, StepProperties>)
    ensures r.Keys == m.Keys + Owners(entries)
    ensures forall n :: n in m && n !in Owners(entries) ==> r[n] == m[n]
    ensures NamedByKey(m) ==> NamedByKey(r)
    decreases |entries|
  {
    if |entries| == 0 then m
    else ReadDescriptor(ReadEntry(m, entries[0]), entries[1..])
  }

  /** Reading two runs of entries one after the other is reading their concatenation. */
  lemma {:induction false} ReadDescriptorAppend(m: map<string, StepProperties>, a: seq<Entry>, b: seq<Entry>)
    ensures ReadDescriptor(m, a + b) == ReadDescriptor(ReadDescriptor(m, a), b)
    decreases |a|
  {
    if |a| > 0 {
      assert (a + b)[0] == a[0];
      assert (a + b)[1..] == a[1..] + b;
      ReadDescriptorAppend(ReadEntry(m, a[0]), a[1..], b);
    } else {
      assert a + b == b;
    }
  }

  /**
   * A later entry for the same step and property overwrites whatever came
   * before it: the step ends up with that value set on top of what the
   * earlier entries built.
   */
  lemma LastEntryWins(m: map<string, StepProperties>, entries: seq<Entry>, name: string, property: string, value: string)
    requires |name| > 0 && '.' !in property
    ensures var r := ReadDescriptor(m, entries + [(name + "." + property, value)]);
      && name in r
      && r[name] == StepProps.SetProperty(Lookup(ReadDescriptor(m, entries), name), name, property, value)
  {
    ReadDescriptorAppend(m, entries, [(name + "." + property, value)]);
    SplitKeyOfJoin(name, property);
    var e := (name + "." + property, value);
    assert [e][1..] == [];
  }

  /** The descriptors of all resources, one after the other. */
  function ReadResources(m: map<string, StepProperties>, resources: seq<seq<Entry>>): (r: map<string, StepProperties>)
    ensures NamedByKey(m) ==> NamedByKey(r)
    decreases |resources|
  {
    if |resources| == 0 then m
    else ReadResources(ReadDescriptor(m, resources[0]), resources[1..])
  }

  function Concat(resources: seq<seq<Entry>>): seq<Entry>
    decreases |resources|
  {
    if |resources| == 0 then [] else resources[0] + Concat(resources[1..])
  }

  /**
   * `loadStepFunctionMetadata`: one map shared by every descriptor resource,
   * so all entries for a step, from whichever resource, accumulate into one
   * `StepProperties`, and each is stored under its own name.
   */
  function LoadStepFunctionMetadata(resources: seq<seq<Entry>>): (r: map<string, StepProperties>)
    ensures NamedByKey(r)
  {
    ReadResources(map[], resources)
  }

  /** Reading the resources one by one is reading the concatenation of their entries. */
  lemma {:induction false} ResourcesAreOneStream(m: map<string, StepProperties>, resources: seq<seq<Entry>>)
    ensures ReadResources(m, resources) == ReadDescriptor(m, Concat(resources))
    decreases |resources|
  {
    if |resources| > 0 {
      ResourcesAreOneStream(ReadDescriptor(m, resources[0]), resources[1..]);
      ReadDescriptorAppend(m, resources[0], Concat(resources[1..]));
    }
  }

  /** The steps that the loaded metadata knows are exactly the owners named across all resources. */
  lemma LoadedSteps(resources: seq<seq<Entry>>)
    ensures LoadStepFunctionMetadata(resources).Keys == Owners(Concat(resources))
  {
    ResourcesAreOneStream(map[], resources);
  }

  /** The entry `store` writes for one field: none when the field is empty. */
  function StoredEntry(name: string, property: string, field: Option<string>): seq<Entry> {
    if NotEmpty(field) then [(AptStepProps.Key(name, property), field.value)] else []
  }

  /**
   * Reading the entry `store` writes for one field, into accumulators that
   * know at most the step itself: the field is set when it was written.
   */
  lemma ReadStoredField(m: map<string, StepProperties>, name: string, property: string, field: Option<string>)
    requires |name| > 0 && '.' !in property && m.Keys <= {name}
    ensures ReadDescriptor(m, StoredEntry(name, property, field)).Keys <= {name}
    ensures NotEmpty(field) ==>
      ReadDescriptor(m, StoredEntry(name, property, field)) == m[name := StepProps.SetProperty(Lookup(m, name), name, property, field.value)]
    ensures !NotEmpty(field) ==> ReadDescriptor(m, StoredEntry(name, property, field)) == m
  {
    if NotEmpty(field) {
      var e := StoredEntry(name, property, field);
      SplitKeyOfJoin(name, property);
      assert e[1..] == [];
      assert ReadDescriptor(m, e) == ReadDescriptor(ReadEntry(m, e[0]), []);
    }
  }

  /**
   * Round trip with the annotation processor: reading back what `store`
   * writes for a step with a non-empty name yields that step, with every
   * non-empty field reproduced and every empty one unset, and nothing else.
   */
  lemma {:induction false} StoreRoundTrip(p: StepProperties)
    requires |p.name| > 0
    ensures var r := ReadDescriptor(map[], AptStepProps.Store(p));
      && r.Keys <= {p.name}
      && (p.name in r <==> |AptStepProps.Store(p)| > 0)
      && (p.name in r ==>
            r[p.name] == StepProperties(p.name, AptStepProps.Stored(p.displayName),
                                        AptStepProps.Stored(p.description), AptStepProps.Stored(p.typeName)))
  {
    var t := StoredEntry(p.name, "typeName", p.typeName);
    var d := StoredEntry(p.name, "displayName", p.displayName);
    var c := StoredEntry(p.name, "description", p.description);
    assert ReadDescriptor(map[], AptStepProps.Store(p)) == ReadDescriptor(ReadDescriptor(ReadDescriptor(map[], t), d), c) by {
      assert AptStepProps.Store(p) == t + d + c;
      ReadDescriptorAppend(map[], t, d);
      ReadDescriptorAppend(map[], t + d, c);
    }
    assert |AptStepProps.Store(p)| > 0 <==> NotEmpty(p.typeName) || NotEmpty(p.displayName) || NotEmpty(p.description);
    var m1 := ReadDescriptor(map[], t);
    var m2 := ReadDescriptor(m1, d);
    ReadStoredField(map[], p.name, "typeName", p.typeName);
    assert p.name in m1 ==> m1[p.name] == StepProperties(p.name, None, None, AptStepProps.Stored(p.typeName));
    ReadStoredField(m1, p.name, "displayName", p.displayName);
    assert p.name in m2 ==> m2[p.name] == StepProperties(p.name, AptStepProps.Stored(p.displayName), None, AptStepProps.Stored(p.typeName));
    ReadStoredField(m2, p.name, "description", p.description);
  }

  /**
   * The runtime's display name of a stored-and-read step equals the
   * annotation processor's display name of the original.
   */
  lemma StoreRoundTripDisplayName(p: StepProperties)
    requires |p.name| > 0 && NotEmpty(p.displayName)
    ensures var r := ReadDescriptor(map[], AptStepProps.Store(p));
      p.name in r && GetDisplayName(r[p.name]) == GetDisplayName(p)
  {
    StoreRoundTrip(p);
  }

  // ---------------------------------------------------------------------------
  // Argument descriptors
  // ---------------------------------------------------------------------------

  /** Every argument accumulator is stored under its own attribute name. */
  ghost predicate ArgsNamedByKey(t: TreeMap<ArgumentProps.ArgumentProperties>) {
    forall n :: n in t.values ==> t.values[n].attributeName == n
  }

  /** The argument accumulator for `name`, created when absent. */
  function LookupArg(t: TreeMap<ArgumentProps.ArgumentProperties>, name: string): ArgumentProps.ArgumentProperties {
    if name in t.values then t.values[name] else ArgumentProps.NewArgumentProperties(name)
  }

  /**
   * One iteration of the first loop of
   * `loadArgumentMetadataFromProperties(stepName, properties, classLoader)`.
   */
  function ReadArgumentEntry(t: TreeMap<ArgumentProps.ArgumentProperties>, stepName: string, e: Entry)
    : (r: TreeMap<ArgumentProps.ArgumentProperties>)
    requires Valid(t)
    ensures Valid(r)
    ensures SplitKey(e.0).None? ==> r == t
    ensures SplitKey(e.0).Some? ==>
      var (a, k) := SplitKey(e.0).value;
      && r.values.Keys == t.values.Keys + {a}
      && r.values[a] == ArgumentProps.SetProperty(LookupArg(t, a), stepName, k, e.1)
      && forall x :: x in t.values && x != a ==> r.values[x] == t.values[x]
    ensures ArgsNamedByKey(t) ==> ArgsNamedByKey(r)
  {
    match SplitKey(e.0)
    case None => t
    case Some(split) =>
      var (a, k) := split;
      Put(t, a, ArgumentProps.SetProperty(LookupArg(t, a), stepName, k, e.1))
  }

  function ReadArguments(t: TreeMap<ArgumentProps.ArgumentProperties>, stepName: string, entries: seq<Entry>)
    : (r: TreeMap<ArgumentProps.ArgumentProperties>)
    requires Valid(t)
    ensures Valid(r)
    ensures r.values.Keys == t.values.Keys + Owners(entries)
    ensures ArgsNamedByKey(t) ==> ArgsNamedByKey(r)
    decreases |entries|
  {
    if |entries| == 0 then t
    else ReadArguments(ReadArgumentEntry(t, stepName, entries[0]), stepName, entries[1..])
  }

  function AttributeNames(args: seq<ArgumentProps.AttributeArgs>): (r: seq<string>)
    ensures |r| == |args|
    ensures forall i :: 0 <= i < |args| ==> r[i] == args[i].attributeName
  {
    seq(|args|, i requires 0 <= i < |args| => args[i].attributeName)
  }

  /**
   * The names emitted after the first key of a strictly ascending run come
   * from the rest of the run, so they all follow it and none equals it.
   */
  lemma HeadPrecedesRest(keys: seq<string>, names: seq<string>)
    requires |keys| > 0 && StrictlySorted(keys)
    requires forall i :: 0 <= i < |names| ==> names[i] in keys[1..]
    ensures forall k :: k in keys <==> k == keys[0] || k in keys[1..]
    ensures forall j :: 0 <= j < |names| ==> Less(keys[0], names[j])
    ensures keys[0] !in names
  {
    assert keys == [keys[0]] + keys[1..];
    forall j | 0 <= j < |names| ensures Less(keys[0], names[j]) {
      assert names[j] in keys[1..];
      var k :| 0 <= k < |keys[1..]| && keys[1..][k] == names[j];
      assert keys[k + 1] == names[j];
    }
    LessIrreflexive(keys[0]);
  }

  /** What the second loop promises of the metadata `r` it emits for `keys`. */
  ghost predicate Emitted(keys: seq<string>, values: map<string, ArgumentProps.ArgumentProperties>, loadable: set<string>,
                          r: seq<ArgumentProps.AttributeArgs>)
    requires forall k :: k in keys ==> k in values
  {
    && StrictlySorted(AttributeNames(r))
    && (forall i :: 0 <= i < |r| ==>
          r[i].attributeName in keys
          && Some(r[i]) == ArgumentProps.CreateAttributeMetadata(values[r[i].attributeName], loadable))
    && (forall k :: k in keys ==> (k in AttributeNames(r) <==> NotEmpty(values[k].typeName)))
  }

  /** One step of the second loop for a first key without a type: nothing is emitted for it. */
  lemma EmitSkip(keys: seq<string>, values: map<string, ArgumentProps.ArgumentProperties>, loadable: set<string>,
                 rest: seq<ArgumentProps.AttributeArgs>)
    requires forall k :: k in keys ==> k in values && values[k].attributeName == k
    requires |keys| > 0 && StrictlySorted(keys) && IsNullOrEmpty(values[keys[0]].typeName)
    requires Emitted(keys[1..], values, loadable, rest)
    ensures Emitted(keys, values, loadable, rest)
  {
    HeadPrecedesRest(keys, AttributeNames(rest));
  }

  /** One step of the second loop for a first key with a type: its metadata goes in front. */
  lemma EmitFront(keys: seq<string>, values: map<string, ArgumentProps.ArgumentProperties>, loadable: set<string>,
                  rest: seq<ArgumentProps.AttributeArgs>, x: ArgumentProps.AttributeArgs)
    requires forall k :: k in keys ==> k in values && values[k].attributeName == k
    requires |keys| > 0 && StrictlySorted(keys)
    requires ArgumentProps.CreateAttributeMetadata(values[keys[0]], loadable) == Some(x)
    requires Emitted(keys[1..], values, loadable, rest)
    ensures Emitted(keys, values, loadable, [x] + rest)
  {
    HeadPrecedesRest(keys, AttributeNames(rest));
    var r := [x] + rest;
    assert AttributeNames(r) == [keys[0]] + AttributeNames(rest);
    assert forall i :: 0 < i < |r| ==> r[i] == rest[i - 1];
  }

  /**
   * The second loop: the accumulators visited in key order, each turned
   * into metadata, the ones without a type dropped.
   */
  function EmitArguments(keys: seq<string>, values: map<string, ArgumentProps.ArgumentProperties>, loadable: set<string>)
    : (r: seq<ArgumentProps.AttributeArgs>)
    requires forall k :: k in keys ==> k in values && values[k].attributeName == k
    requires StrictlySorted(keys)
    ensures StrictlySorted(AttributeNames(r))
    ensures forall i :: 0 <= i < |r| ==>
      r[i].attributeName in keys
      && Some(r[i]) == ArgumentProps.CreateAttributeMetadata(values[r[i].attributeName], loadable)
    ensures forall k :: k in keys ==> (k in AttributeNames(r) <==> NotEmpty(values[k].typeName))
    decreases |keys|
  {
    if |keys| == 0 then []
    else
      var rest := EmitArguments(keys[1..], values, loadable);
      match ArgumentProps.CreateAttributeMetadata(values[keys[0]], loadable)
      case None =>
        EmitSkip(keys, values, loadable, rest);
        rest
      case Some(x) =>
        EmitFront(keys, values, loadable, rest, x);
        [x] + rest
  }

  /**
   * `loadArgumentMetadataFromProperties(stepName, properties, classLoader)`:
   * the entries grouped by the text before the last '.', then emitted in
   * ascending attribute-name order; attributes without a type are dropped.
   */
  function LoadArgumentMetadataFromProperties(stepName: string, entries: seq<Entry>, loadable: set<string>)
    : (r: seq<ArgumentProps.AttributeArgs>)
    ensures StrictlySorted(AttributeNames(r))
    ensures forall a :: a in AttributeNames(r) ==> a in Owners(entries)
    ensures forall a :: a in Owners(entries) ==>
      (a in AttributeNames(r) <==> NotEmpty(ReadArguments(Empty(), stepName, entries).values[a].typeName))
    ensures forall i :: 0 <= i < |r| ==>
      && r[i].attributeName in ReadArguments(Empty(), stepName, entries).values
      && Some(r[i]) == ArgumentProps.CreateAttributeMetadata(ReadArguments(Empty(), stepName, entries).values[r[i].attributeName], loadable)
  {
    var t := ReadArguments(Empty(), stepName, entries);
    var r := EmitArguments(t.keys, t.values, loadable);
    assert forall a :: a in AttributeNames(r) ==> a in t.keys by {
      forall a | a in AttributeNames(r) ensures a in t.keys {
        var i :| 0 <= i < |AttributeNames(r)| && AttributeNames(r)[i] == a;
        assert r[i].attributeName == a;
      }
    }
    r
  }

  /** The key `<argument>.<attribute>` of an argument resource. */
  function ArgumentKey(a: string, attribute: string): string {
    a + "." + attribute
  }

  /** The three entries that describe one typed argument: its type, display name and description. */
  function StoredArgument(a: string, typeName: string, displayName: string, description: string): seq<Entry> {
    [(ArgumentKey(a, "type"), typeName), (ArgumentKey(a, "displayName"), displayName), (ArgumentKey(a, "description"), description)]
  }

  /** Entries whose keys all belong to `a` have `a` as their only owner. */
  lemma {:induction false} OwnersAllSame(entries: seq<Entry>, a: string)
    requires |entries| > 0
    requires forall i :: 0 <= i < |entries| ==> SplitKey(entries[i].0).Some? && SplitKey(entries[i].0).value.0 == a
    ensures Owners(entries) == {a}
    decreases |entries|
  {
    if |entries| > 1 {
      OwnersAllSame(entries[1..], a);
    } else {
      assert entries[1..] == [];
    }
  }

  lemma OwnersOfStoredArgument(a: string, typeName: string, displayName: string, description: string)
    requires |a| > 0
    ensures Owners(StoredArgument(a, typeName, displayName, description)) == {a}
  {
    var entries := StoredArgument(a, typeName, displayName, description);
    SplitKeyOfJoin(a, "type");
    SplitKeyOfJoin(a, "displayName");
    SplitKeyOfJoin(a, "description");
    forall i | 0 <= i < |entries| ensures SplitKey(entries[i].0).Some? && SplitKey(entries[i].0).value.0 == a {
      if i == 0 {
        assert entries[i].0 == ArgumentKey(a, "type");
      } else if i == 1 {
        assert entries[i].0 == ArgumentKey(a, "displayName");
      } else {
        assert entries[i].0 == ArgumentKey(a, "description");
      }
    }
    OwnersAllSame(entries, a);
  }

  /** Reading one `<argument>.<attribute>` entry sets that attribute of that argument. */
  lemma ReadOneAttribute(t: TreeMap<ArgumentProps.ArgumentProperties>, stepName: string, a: string, attribute: string, value: string)
    requires Valid(t) && |a| > 0 && '.' !in attribute
    ensures var r := ReadArgumentEntry(t, stepName, (ArgumentKey(a, attribute), value));
      a in r.values && r.values[a] == ArgumentProps.SetProperty(LookupArg(t, a), stepName, attribute, value)
  {
    SplitKeyOfJoin(a, attribute);
  }

  lemma ReadStoredArgument(stepName: string, a: string, typeName: string, displayName: string, description: string)
    requires |a| > 0
    ensures var t := ReadArguments(Empty(), stepName, StoredArgument(a, typeName, displayName, description));
      a in t.values && t.values[a] == ArgumentProps.ArgumentProperties(a, Some(displayName), Some(description), Some(typeName))
  {
    var e0, e1, e2 := (ArgumentKey(a, "type"), typeName), (ArgumentKey(a, "displayName"), displayName), (ArgumentKey(a, "description"), description);
    var t0: TreeMap<ArgumentProps.ArgumentProperties> := Empty();
    var t1 := ReadArgumentEntry(t0, stepName, e0);
    ReadOneAttribute(t0, stepName, a, "type", typeName);
    var t2 := ReadArgumentEntry(t1, stepName, e1);
    ReadOneAttribute(t1, stepName, a, "displayName", displayName);
    var t3 := ReadArgumentEntry(t2, stepName, e2);
    ReadOneAttribute(t2, stepName, a, "description", description);
    assert t3.values[a] == ArgumentProps.ArgumentProperties(a, Some(displayName), Some(description), Some(typeName));
    var entries := StoredArgument(a, typeName, displayName, description);
    assert entries[1..][1..] == [e2] && [e2][1..] == [];
    assert ReadArguments(t3, stepName, []) == t3;
    assert ReadArguments(t2, stepName, [e2]) == t3;
    assert entries[1..] == [e1, e2];
    assert ReadArguments(t1, stepName, [e1, e2]) == t3;
  }

  /** Entries that name a single typed argument give exactly that argument's metadata. */
  lemma SingleArgumentMetadata(stepName: string, entries: seq<Entry>, loadable: set<string>, a: string)
    requires Owners(entries) == {a}
    requires a in ReadArguments(Empty(), stepName, entries).values
    requires NotEmpty(ReadArguments(Empty(), stepName, entries).values[a].typeName)
    ensures var r := LoadArgumentMetadataFromProperties(stepName, entries, loadable);
      |r| == 1 && Some(r[0]) == ArgumentProps.CreateAttributeMetadata(ReadArguments(Empty(), stepName, entries).values[a], loadable)
  {
    var r := LoadArgumentMetadataFromProperties(stepName, entries, loadable);
    var names := AttributeNames(r);
    assert a in names;
    assert forall i :: 0 <= i < |names| ==> names[i] == a;
    if |r| > 1 {
      assert names[0] == a && names[1] == a;
      StrictlySortedDistinct(names);
    }
    assert r[0].attributeName == names[0];
  }

  /**
   * The entries describing one typed argument read back as exactly one
   * metadata, carrying the stored display name and description and the
   * stored type's raw class name.
   */
  lemma ArgumentRoundTrip(stepName: string, a: string, typeName: string, displayName: string, description: string,
                          loadable: set<string>)
    requires |a| > 0 && NotEmpty(Some(typeName))
    ensures var r := LoadArgumentMetadataFromProperties(stepName, StoredArgument(a, typeName, displayName, description), loadable);
      && |r| == 1
      && r[0].attributeName == a
      && r[0].displayName == Some(displayName)
      && r[0].description == Some(description)
      && r[0].className == RemoveGenericsFromClassName(typeName)
      && (r[0].clazz.Some? <==> r[0].className in loadable)
  {
    var entries := StoredArgument(a, typeName, displayName, description);
    OwnersOfStoredArgument(a, typeName, displayName, description);
    ReadStoredArgument(stepName, a, typeName, displayName, description);
    SingleArgumentMetadata(stepName, entries, loadable, a);
  }
}
