/**
 * The legacy context builder (`org.creek` `ContextBuilder`): extension
 * builders are asked, at construction, whether they handle each resource
 * of the component; options are offered to every builder; `build` asks each
 * builder for its extension and hands the class-checked, class-sorted list
 * to the legacy context.
 */
module CreekContextBuilder {
  import opened Types
  import ExtensionList
  import CreekContext

  /**
   * An installed extension builder: its name, the resources and options its
   * `handles` and `with` accept, the options offered to it so far, and what
   * its `build` does.
   */
  datatype ExtBuilder = ExtBuilder(
    name: string,
    handles: set<Resource>,
    accepts: set<ExtensionOptions>,
    offered: seq<ExtensionOptions>,
    built: CallbackResult)

  datatype Builder = Builder(
    component: seq<Resource>,
    builders: seq<ExtBuilder>,
    installed: seq<string>,
    explicitClock: Option<Clock>)

  datatype BuildError =
    | UnsupportedResourceTypes(unsupported: seq<Resource>, installed: seq<string>)
    | UnsupportedOptions(options: ExtensionOptions, installed: seq<string>)
      /** A builder's `build` threw, or handed back no extension. */
    | BuilderFailed(name: string)
    | ExtensionTypeClash(extensionType: TypeId)

  /** What `build` did, in order. */
  datatype Phase = InstallHandler | CreateClock | CreateExtensions | BuildContext

  datatype Built = Built(trace: seq<Phase>, result: Result<CreekContext.Context, BuildError>)

  /** The builder state after an options offer, and the error thrown if nobody took them. */
  datatype Offered = Offered(builder: Builder, error: Option<BuildError>)

  predicate Handled(builders: seq<ExtBuilder>, r: Resource) {
    exists i :: 0 <= i < |builders| && r in builders[i].handles
  }

  function BuilderNames(builders: seq<ExtBuilder>): (r: seq<string>)
    ensures |r| == |builders|
    ensures forall i :: 0 <= i < |builders| ==> r[i] == builders[i].name
  {
    if builders == [] then [] else [builders[0].name] + BuilderNames(builders[1..])
  }

  /** The component's resources no installed builder handles, in declaration order. */
  function Unsupported(component: seq<Resource>, builders: seq<ExtBuilder>): (u: seq<Resource>)
    ensures forall r :: r in u <==> r in component && !Handled(builders, r)
    ensures |u| <= |component|
  {
    if component == [] then []
    else
      var rest := Unsupported(component[1..], builders);
      if Handled(builders, component[0]) then rest else [component[0]] + rest
  }

  /**
   * The constructor: records the builders' names, then refuses a component
   * that declares a resource no builder handles.
   */
  function New(component: seq<Resource>, builders: seq<ExtBuilder>): (r: Result<Builder, BuildError>)
    ensures r.Ok? <==> forall x :: x in component ==> Handled(builders, x)
    ensures r.Ok? ==> r.value == Builder(component, builders, BuilderNames(builders), None)
    ensures r.Err? ==>
      && r.error.UnsupportedResourceTypes?
      && r.error.installed == BuilderNames(builders)
      && r.error.unsupported != []
      && forall x :: x in r.error.unsupported <==> x in component && !Handled(builders, x)
  {
    var unsupported := Unsupported(component, builders);
    if unsupported != [] then
      assert unsupported[0] in unsupported;
      Err(UnsupportedResourceTypes(unsupported, BuilderNames(builders)))
    else
      Ok(Builder(component, builders, BuilderNames(builders), None))
  }

  /** `with(clock)`: the clock the context will be built with. */
  function WithClock(b: Builder, c: Clock): (r: Builder)
    ensures r.explicitClock == Some(c)
    ensures r.(explicitClock := b.explicitClock) == b
  {
    b.(explicitClock := Some(c))
  }

  /** Every builder is offered `o`, in order, whatever an earlier one answered. */
  function OfferAll(builders: seq<ExtBuilder>, o: ExtensionOptions): (r: seq<ExtBuilder>)
    ensures |r| == |builders|
    ensures forall i :: 0 <= i < |builders| ==> r[i] == builders[i].(offered := builders[i].offered + [o])
  {
    if builders == [] then [] else [builders[0].(offered := builders[0].offered + [o])] + OfferAll(builders[1..], o)
  }

  /**
   * `with(options)`: every builder sees the options; the builder keeps those
   * offers and fails only when no builder accepted them.
   */
  function WithOptions(b: Builder, o: ExtensionOptions): (r: Offered)
    ensures r.builder == b.(builders := OfferAll(b.builders, o))
    ensures r.error.None? <==> exists i :: 0 <= i < |b.builders| && o in b.builders[i].accepts
    ensures r.error.Some? ==> r.error.value == UnsupportedOptions(o, b.installed)
  {
    var accepted := exists i :: 0 <= i < |b.builders| && o in b.builders[i].accepts;
    Offered(b.(builders := OfferAll(b.builders, o)), if accepted then None else Some(UnsupportedOptions(o, b.installed)))
  }

  /** Builder `k` is the first whose `build` does not hand back an extension. */
  predicate FirstFailure(builders: seq<ExtBuilder>, k: int) {
    && 0 <= k < |builders|
    && !builders[k].built.Returns?
    && forall i :: 0 <= i < k ==> builders[i].built.Returns?
  }

  /** Each builder's extension, in builder order; the first failing builder aborts. */
  function BuildEach(builders: seq<ExtBuilder>): (r: Result<seq<Extension>, BuildError>)
    ensures r.Ok? <==> forall i :: 0 <= i < |builders| ==> builders[i].built.Returns?
    ensures r.Ok? ==> |r.value| == |builders| && forall i :: 0 <= i < |builders| ==> r.value[i] == builders[i].built.ext
    ensures r.Err? ==> exists k :: FirstFailure(builders, k) && r.error == BuilderFailed(builders[k].name)
  {
    if builders == [] then Ok([])
    else
      match builders[0].built
      case Returns(e) =>
        var rest := BuildEach(builders[1..]);
        if rest.Err? then
          var k :| FirstFailure(builders[1..], k) && rest.error == BuilderFailed(builders[1..][k].name);
          assert FirstFailure(builders, k + 1);
          Err(rest.error)
        else
          Ok([e] + rest.value)
      case _ => Err(BuilderFailed(builders[0].name))
  }

  /** `createExtensions`: build, refuse a class built twice, sort by class name. */
  function CreateExtensionList(builders: seq<ExtBuilder>): (r: Result<seq<Extension>, BuildError>)
    ensures r.Err? <==> BuildEach(builders).Err? || !ExtensionList.ClassesDistinct(BuildEach(builders).value)
    ensures r.Err? && BuildEach(builders).Ok? ==>
      exists i, j :: 0 <= i < j < |builders| && r.error == ExtensionTypeClash(BuildEach(builders).value[i].cls)
        && BuildEach(builders).value[i].cls == BuildEach(builders).value[j].cls
    ensures r.Err? && BuildEach(builders).Err? ==> r.error == BuildEach(builders).error
    ensures r.Ok? ==> ExtensionList.SortedByClass(r.value)
    ensures r.Ok? ==> forall e :: e in r.value <==> exists i :: 0 <= i < |builders| && builders[i].built == Returns(e)
  {
    var exts := BuildEach(builders);
    if exts.Err? then Err(exts.error)
    else match ExtensionList.CheckClash(exts.value)
      case Err(cls) => Err(ExtensionTypeClash(cls))
      case Ok(distinct) => Ok(ExtensionList.SortByClass(distinct))
  }

  /** `contextFactory.build` on a class-sorted list, which cannot clash. */
  function NewContext(clock: Clock, exts: seq<Extension>): (ctx: CreekContext.Context)
    requires ExtensionList.SortedByClass(exts)
    ensures CreekContext.Create(clock, exts) == Ok(ctx)
  {
    ExtensionList.SortedIsDistinct(exts);
    CreekContext.Create(clock, exts).value
  }

  /**
   * `build`: installs the uncaught-exception handler, picks the clock, builds
   * the extensions and hands them to the context.
   */
  function Build(b: Builder): (r: Built)
    ensures |r.trace| >= 3 && r.trace[..3] == [InstallHandler, CreateClock, CreateExtensions]
    ensures r.result.Ok? <==> CreateExtensionList(b.builders).Ok?
    ensures r.result.Ok? <==> r.trace == [InstallHandler, CreateClock, CreateExtensions, BuildContext]
    ensures r.result.Err? ==> r.result.error == CreateExtensionList(b.builders).error
    ensures r.result.Ok? ==> r.result.value.clock == ChooseClock(b.explicitClock)
  {
    var clock := ChooseClock(b.explicitClock);
    match CreateExtensionList(b.builders)
    case Err(e) => Built([InstallHandler, CreateClock, CreateExtensions], Err(e))
    case Ok(exts) =>
      Built([InstallHandler, CreateClock, CreateExtensions, BuildContext], Ok(NewContext(clock, exts)))
  }

  /**
   * A build fails exactly when some builder fails, or, all having
   * succeeded, two of them built the same concrete class; a clash names
   * that class.
   */
  lemma BuildFailsOnlyOnFailureOrClash(b: Builder)
    ensures Build(b).result.Err? <==> AnyFailure(b.builders) || (!AnyFailure(b.builders) && SameClassTwice(b.builders))
    ensures Build(b).result.Err? && Build(b).result.error.ExtensionTypeClash? ==>
      exists i, j :: ClassBuiltTwice(b.builders, i, j) && Build(b).result.error.extensionType == b.builders[i].built.ext.cls
  {
    CreateFailsOnlyOnFailureOrClash(b.builders);
  }

  lemma CreateFailsOnlyOnFailureOrClash(builders: seq<ExtBuilder>)
    ensures CreateExtensionList(builders).Err? <==> AnyFailure(builders) || (!AnyFailure(builders) && SameClassTwice(builders))
    ensures CreateExtensionList(builders).Err? && CreateExtensionList(builders).error.ExtensionTypeClash? ==>
      exists i, j :: ClassBuiltTwice(builders, i, j) && CreateExtensionList(builders).error.extensionType == builders[i].built.ext.cls
  {
    var each := BuildEach(builders);
    if each.Ok? {
      ClashIsClassBuiltTwice(builders);
      var r := CreateExtensionList(builders);
      if r.Err? {
        var i, j :| 0 <= i < j < |builders| && r.error == ExtensionTypeClash(each.value[i].cls) && each.value[i].cls == each.value[j].cls;
        assert ClassBuiltTwice(builders, i, j);
      }
    }
  }

  /** When every builder succeeds, a repeated class in the built list is one two builders built. */
  lemma ClashIsClassBuiltTwice(builders: seq<ExtBuilder>)
    requires BuildEach(builders).Ok?
    ensures !ExtensionList.ClassesDistinct(BuildEach(builders).value) <==> SameClassTwice(builders)
  {
    var exts := BuildEach(builders).value;
    if !ExtensionList.ClassesDistinct(exts) {
      var i, j :| 0 <= i < j < |exts| && exts[i].cls == exts[j].cls;
      assert ClassBuiltTwice(builders, i, j);
    }
    if SameClassTwice(builders) {
      var i, j :| ClassBuiltTwice(builders, i, j);
      assert exts[i].cls == exts[j].cls;
    }
  }

  ghost predicate AnyFailure(builders: seq<ExtBuilder>) {
    exists i :: 0 <= i < |builders| && !builders[i].built.Returns?
  }

  /** Builders `i` and `j` both built an extension of the same concrete class. */
  predicate ClassBuiltTwice(builders: seq<ExtBuilder>, i: int, j: int) {
    && 0 <= i < j < |builders|
    && builders[i].built.Returns?
    && builders[j].built.Returns?
    && builders[i].built.ext.cls == builders[j].built.ext.cls
  }

  ghost predicate SameClassTwice(builders: seq<ExtBuilder>) {
    exists i, j :: ClassBuiltTwice(builders, i, j)
  }

  /**
   * The built context holds every builder's extension under its own class:
   * asking for that class hands the extension back.
   */
  lemma ContextHoldsEveryBuiltExtension(b: Builder, i: nat)
    requires i < |b.builders|
    requires Build(b).result.Ok?
    ensures b.builders[i].built.Returns?
    ensures CreekContext.GetExtension(Build(b).result.value, b.builders[i].built.ext.cls) == Ok(b.builders[i].built.ext)
  {
    var exts := CreateExtensionList(b.builders).value;
    var e := b.builders[i].built.ext;
    assert e in exts;
    ExtensionList.SortedIsDistinct(exts);
    CreekContext.ExtensionByExactClass(ChooseClock(b.explicitClock), exts, e.cls);
  }

  /**
   * The extension list does not depend on the order the builders were
   * installed in: reordering the builders gives the same sorted list.
   */
  lemma ExtensionOrderIndependentOfBuilderOrder(a: seq<ExtBuilder>, c: seq<ExtBuilder>)
    requires multiset(a) == multiset(c)
    requires CreateExtensionList(a).Ok? && CreateExtensionList(c).Ok?
    ensures CreateExtensionList(a).value == CreateExtensionList(c).value
  {
    var ea := CreateExtensionList(a).value;
    var ec := CreateExtensionList(c).value;
    forall e
      ensures e in ea <==> e in ec
    {
      if e in ea {
        var i :| 0 <= i < |a| && a[i].built == Returns(e);
        assert a[i] in multiset(c);
        var j :| 0 <= j < |c| && c[j] == a[i];
      }
      if e in ec {
        var i :| 0 <= i < |c| && c[i].built == Returns(e);
        assert c[i] in multiset(a);
        var j :| 0 <= j < |a| && a[j] == c[i];
      }
    }
    ExtensionList.SortedByClassUnique(ea, ec);
  }

  /** The last clock given wins; without one the context runs on the accurate clock. */
  lemma LastClockWins(b: Builder, c1: Clock, c2: Clock)
    ensures Build(WithClock(WithClock(b, c1), c2)).result.Ok? ==> Build(WithClock(WithClock(b, c1), c2)).result.value.clock == c2
    ensures b.explicitClock.None? && Build(b).result.Ok? ==> Build(b).result.value.clock == AccurateClock
    ensures Build(WithClock(b, c1)).result.Ok? <==> Build(b).result.Ok?
  {
  }
}
