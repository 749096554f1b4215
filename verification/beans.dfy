/**
 * Setting bean properties the way `PropertyUtils.setProperty` does, and the
 * binding loop every step-function variant runs over its argument map.  An
 * argument map is its entries in iteration order; a null map is `None`.
 */
module Beans {
  import opened Lang

  type ArgMap = seq<(string, Value)>

  /** `PropertyUtils.setProperty`: only a property with a setter can be set; None stands for the exception. */
  function SetBeanProperty(b: Bean, name: string, value: Value): (r: Option<Bean>)
    ensures r.Some? <==> name in b.writable
    ensures r.Some? ==> r.value.className == b.className && r.value.writable == b.writable
    ensures r.Some? ==> r.value.props == b.props[name := value]
  {
    if name in b.writable then Some(b.(props := b.props[name := value])) else None
  }

  /** The value the last entry for `name` carries, if any entry does. */
  function LastValue(entries: ArgMap, name: string): Option<Value>
    decreases |entries|
  {
    if |entries| == 0 then None
    else
      var later := LastValue(entries[1..], name);
      if later.Some? then later
      else if entries[0].0 == name then Some(entries[0].1)
      else None
  }

  /** The first entry whose property has no setter. */
  predicate FirstUnwritable(entries: ArgMap, writable: set<string>, i: int) {
    0 <= i < |entries| && entries[i].0 !in writable
    && forall j :: 0 <= j < i ==> entries[j].0 in writable
  }

  /**
   * Every entry set as a property of `b`, in iteration order.  The first
   * entry that cannot be set aborts with an error naming the property, the
   * value and `target`, the bean the message reports.
   */
  function BindAll(b: Bean, entries: ArgMap, target: string): (r: Outcome<Bean>)
    ensures r.Ok? <==> forall i :: 0 <= i < |entries| ==> entries[i].0 in b.writable
    ensures r.Ok? ==> r.value.className == b.className && r.value.writable == b.writable
    ensures r.Ok? ==> forall name :: LastValue(entries, name).Some? ==>
      name in r.value.props && r.value.props[name] == LastValue(entries, name).value
    ensures r.Ok? ==> forall name :: LastValue(entries, name).None? ==>
      (name in r.value.props <==> name in b.props)
      && (name in b.props ==> r.value.props[name] == b.props[name])
    ensures r.Fail? ==> exists i :: (FirstUnwritable(entries, b.writable, i) && r.failure == BindError(entries[i].0, entries[i].1, target))
    decreases |entries|
  {
    if |entries| == 0 then Ok(b)
    else
      match SetBeanProperty(b, entries[0].0, entries[0].1)
      case None =>
        assert FirstUnwritable(entries, b.writable, 0);
        Fail(BindError(entries[0].0, entries[0].1, target))
      case Some(b1) =>
        var r := BindAll(b1, entries[1..], target);
        assert r.Fail? ==> exists i :: (FirstUnwritable(entries, b.writable, i) && r.failure == BindError(entries[i].0, entries[i].1, target)) by {
          if r.Fail? {
            var i :| FirstUnwritable(entries[1..], b1.writable, i) && r.failure == BindError(entries[1..][i].0, entries[1..][i].1, target);
            assert FirstUnwritable(entries, b.writable, i + 1);
          }
        }
        assert r.Ok? <==> forall i :: 0 <= i < |entries| ==> entries[i].0 in b.writable by {
          assert forall i :: 1 <= i < |entries| ==> entries[i] == entries[1..][i - 1];
        }
        r
  }

  /** Binding two runs of entries is binding the first, then the second onto the result. */
  lemma {:induction false} BindAllAppend(b: Bean, a: ArgMap, c: ArgMap, target: string)
    ensures BindAll(b, a + c, target) ==
      match BindAll(b, a, target)
      case Fail(f) => Fail(f)
      case Ok(b1) => BindAll(b1, c, target)
    decreases |a|
  {
    if |a| == 0 {
      assert a + c == c;
    } else {
      assert (a + c)[0] == a[0] && (a + c)[1..] == a[1..] + c;
      match SetBeanProperty(b, a[0].0, a[0].1)
      case None =>
      case Some(b1) =>
        BindAllAppend(b1, a[1..], c, target);
    }
  }

  /** A null argument map binds nothing; otherwise every entry is bound. */
  function BindArguments(b: Bean, arguments: Option<ArgMap>, target: string): (r: Outcome<Bean>)
    ensures arguments.None? ==> r == Ok(b)
    ensures arguments.Some? ==> r == BindAll(b, arguments.value, target)
  {
    match arguments
    case None => Ok(b)
    case Some(entries) => BindAll(b, entries, target)
  }

  /** The map binds the same as the empty map when it is null. */
  lemma NullMapBindsLikeEmpty(b: Bean, target: string)
    ensures BindArguments(b, None, target) == BindArguments(b, Some([]), target)
  {
  }

  /** `Map.get(name)`: the value the last entry for `name` carries, or null when there is none. */
  function Get(entries: ArgMap, name: string): (v: Value)
    ensures LastValue(entries, name).Some? ==> v == LastValue(entries, name).value
    ensures LastValue(entries, name).None? ==> v == Null
  {
    match LastValue(entries, name)
    case Some(v) => v
    case None => Null
  }

  /** The ambient context of an invocation: the logger and current directory, each possibly null. */
  datatype FunctionContext = FunctionContext(logger: Option<Value>, currentDir: Option<Value>)

  /**
   * `injectContext`: "logger" and then "currentDir" are set only when the
   * context holds them; a property that cannot be set aborts with an error
   * naming it.
   */
  function InjectContext(b: Bean, ctx: FunctionContext): (r: Outcome<Bean>)
    ensures ctx.logger.Some? && "logger" !in b.writable ==> r == Fail(InjectError("logger"))
    ensures r.Ok? ==> r.value.className == b.className && r.value.writable == b.writable
    ensures r.Ok? ==> forall name :: name !in {"logger", "currentDir"} ==>
      (name in r.value.props <==> name in b.props) && (name in b.props ==> r.value.props[name] == b.props[name])
    ensures r.Ok? && ctx.logger.Some? ==> "logger" in r.value.props && r.value.props["logger"] == ctx.logger.value
    ensures r.Ok? && ctx.currentDir.Some? ==> "currentDir" in r.value.props && r.value.props["currentDir"] == ctx.currentDir.value
    ensures r.Ok? && ctx.logger.None? ==>
      ("logger" in r.value.props <==> "logger" in b.props)
      && ("logger" in b.props ==> r.value.props["logger"] == b.props["logger"])
    ensures r.Ok? <==>
      (ctx.logger.Some? ==> "logger" in b.writable) && (ctx.currentDir.Some? ==> "currentDir" in b.writable)
    ensures r.Fail? ==> r.failure in {InjectError("logger"), InjectError("currentDir")}
  {
    var withLogger :=
      match ctx.logger
      case None => Some(b)
      case Some(l) => SetBeanProperty(b, "logger", l);
    match withLogger
    case None => Fail(InjectError("logger"))
    case Some(b1) =>
      match ctx.currentDir
      case None => Ok(b1)
      case Some(d) =>
        match SetBeanProperty(b1, "currentDir", d)
        case None => Fail(InjectError("currentDir"))
        case Some(b2) => Ok(b2)
  }

  /** An empty context injects nothing. */
  lemma EmptyContextInjectsNothing(b: Bean)
    ensures InjectContext(b, FunctionContext(None, None)) == Ok(b)
  {
  }
}
