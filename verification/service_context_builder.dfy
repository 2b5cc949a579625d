/**
 * The context builder (`org.creekservice` `ContextBuilder`): options go
 * straight into the api's option registry; `build` initialises every
 * provider inside its own registration window, checks the extensions for
 * class clashes and sorts them, builds the context, and then refuses a
 * component with a resource no registered handler covers or options no
 * provider read.
 */
module ServiceContextBuilder {
  import opened Types
  import ExtensionList
  import ApiComponentModel
  import ApiOptions

  /** A call a provider makes on the api during its `initialize`. */
  datatype ApiCall =
    | Register(resourceType: TypeId, handler: HandlerId)
    | ReadOption(optionType: TypeId)

  /** An extension provider: the api calls its `initialize` makes, then what it hands back. */
  datatype Provider = Provider(id: ProviderId, calls: seq<ApiCall>, result: CallbackResult)

  /** The api the providers see: the resource model and the option registry. */
  datatype Api = Api(model: ApiComponentModel.Model, options: ApiOptions.Registry)

  datatype Builder = Builder(
    component: seq<Resource>,
    api: Api,
    providers: seq<Provider>,
    explicitClock: Option<Clock>)

  /** The context handed back: the clock and the class-sorted extensions. */
  datatype Context = Context(clock: Clock, extensions: seq<Extension>)

  datatype BuildError =
    | DuplicateOption(cls: TypeId)
    | ModelFailure(provider: ProviderId, error: ApiComponentModel.ModelError)
    | NullExtension(provider: ProviderId)
    | ProviderFailed(provider: ProviderId)
    | ExtensionTypeClash(extensionType: TypeId)
    | HandlerLookupFailed(error: ApiComponentModel.ModelError)
    | UnsupportedResourceTypes(unsupported: seq<Resource>, installed: seq<string>)
    | UnusedOptions(unused: set<ExtensionOptions>, installed: seq<string>)

  /** What `build` did, in order. */
  datatype Phase = InstallHandler | CreateExtensions | BuildContext | CheckResources | CheckOptions | InitializeResources

  datatype Stepped = Stepped(api: Api, error: Option<BuildError>)

  datatype Initialized = Initialized(api: Api, result: Result<Extension, BuildError>)

  datatype Created = Created(api: Api, result: Result<seq<Extension>, BuildError>)

  datatype Built = Built(trace: seq<Phase>, api: Api, result: Result<Context, BuildError>)

  /**
   * `after` keeps every registration of `before` and attributes every new
   * one to one of `sources`.
   */
  ghost predicate Attributed(before: ApiComponentModel.Model, after: ApiComponentModel.Model, sources: set<ProviderId>) {
    && (forall k :: k in before.resourceExtensions ==>
          k in after.resourceExtensions && after.resourceExtensions[k] == before.resourceExtensions[k])
    && (forall k :: k in after.resourceExtensions && k !in before.resourceExtensions ==>
          after.resourceExtensions[k].source in sources)
  }

  /** The option classes a list of calls reads. */
  function ReadTypes(calls: seq<ApiCall>): (s: set<TypeId>)
    ensures forall t :: t in s <==> ReadOption(t) in calls
  {
    set c | c in calls && c.ReadOption? :: c.optionType
  }

  /** The option classes any of the providers reads. */
  function ReadTypesAll(providers: seq<Provider>): (s: set<TypeId>)
    ensures forall t :: t in s <==> exists i :: 0 <= i < |providers| && ReadOption(t) in providers[i].calls
  {
    if providers == [] then {}
    else
      var rest := ReadTypesAll(providers[1..]);
      assert forall i :: 1 <= i < |providers| ==> providers[i] == providers[1..][i - 1];
      ReadTypes(providers[0].calls) + rest
  }

  /** `with(options)`: added to the option registry at once; a second option of a class is refused. */
  function WithOptions(b: Builder, o: ExtensionOptions): (r: Result<Builder, BuildError>)
    ensures r.Err? <==> o.cls in b.api.options.options
    ensures r.Err? ==> r.error == DuplicateOption(o.cls)
    ensures ApiOptions.Valid(b.api.options) && r.Ok? ==>
      && ApiOptions.Valid(r.value.api.options)
      && ApiOptions.Unused(r.value.api.options) == ApiOptions.Unused(b.api.options) + {o}
    ensures r.Ok? ==> r.value.api.model == b.api.model && r.value.providers == b.providers
  {
    match ApiOptions.Add(b.api.options, o)
    case Err(cls) => Err(DuplicateOption(cls))
    case Ok(options) =>
      assert ApiOptions.Valid(b.api.options) ==> ApiOptions.Unused(options) == ApiOptions.Unused(b.api.options) + {o} by {
        if ApiOptions.Valid(b.api.options) {
          ApiOptions.AddedOptionsAreUnusedUntilAskedFor(b.api.options, o);
        }
      }
      Ok(b.(api := b.api.(options := options)))
  }

  /** `with(clock)`: the clock the context will be built with. */
  function WithClock(b: Builder, c: Clock): (r: Builder)
    ensures r.explicitClock == Some(c)
    ensures r.(explicitClock := b.explicitClock) == b
  {
    b.(explicitClock := Some(c))
  }

  /**
   * A provider's api calls, in order: registrations go to the model (the
   * first refused one aborts), option reads to the registry.
   */
  function RunCalls(api: Api, p: ProviderId, calls: seq<ApiCall>): (r: Stepped)
    requires api.model.currentSource == Some(p)
    ensures r.api.model.currentSource == Some(p)
    ensures Attributed(api.model, r.api.model, {p})
    ensures r.api.options.options == api.options.options
    ensures api.options.unused - ReadTypes(calls) <= r.api.options.unused <= api.options.unused
    ensures ApiOptions.Valid(api.options) ==> ApiOptions.Valid(r.api.options)
    ensures r.error.Some? ==>
      && r.error.value.ModelFailure? && r.error.value.provider == p
      && r.error.value.error.AlreadyRegistered?
    decreases |calls|
  {
    if calls == [] then Stepped(api, None)
    else
      var rest := calls[1..];
      assert forall c :: c in rest ==> c in calls;
      match calls[0]
      case Register(t, h) =>
        (match ApiComponentModel.AddResource(api.model, t, h)
         case Err(e) => Stepped(api, Some(ModelFailure(p, e)))
         case Ok(model) => RunCalls(api.(model := model), p, rest))
      case ReadOption(t) =>
        RunCalls(api.(options := ApiOptions.Get(api.options, t).registry), p, rest)
  }

  /**
   * `initialize`: opens the registration window for the provider, runs its
   * `initialize`, and closes the window whatever happened.
   */
  function Initialize(api: Api, p: Provider): (r: Initialized)
    ensures r.api.model.currentSource.None?
    ensures Attributed(api.model, r.api.model, {p.id})
    ensures r.api.options.options == api.options.options
    ensures api.options.unused - ReadTypes(p.calls) <= r.api.options.unused <= api.options.unused
    ensures ApiOptions.Valid(api.options) ==> ApiOptions.Valid(r.api.options)
    ensures r.result.Ok? ==> p.result.Returns? && r.result.value == p.result.ext
    ensures p.result.ReturnsNull? ==> r.result.Err?
    ensures p.result.Throws? ==> r.result.Err?
    ensures r.result.Err? ==> FromProvider(r.result.error, {p.id})
  {
    var during := api.(model := ApiComponentModel.Initializing(api.model, Some(p.id)));
    var ran := RunCalls(during, p.id, p.calls);
    var closed := ran.api.(model := ApiComponentModel.Initializing(ran.api.model, None));
    var result :=
      if ran.error.Some? then Err(ran.error.value)
      else match p.result
        case Returns(e) => Ok(e)
        case ReturnsNull => Err(NullExtension(p.id))
        case Throws => Err(ProviderFailed(p.id));
    Initialized(closed, result)
  }

  /** A failure one of the providers `ids` caused during its initialisation. */
  predicate FromProvider(e: BuildError, ids: set<ProviderId>) {
    (e.NullExtension? || e.ProviderFailed? || e.ModelFailure?) && e.provider in ids
  }

  function ProviderIds(providers: seq<Provider>): (s: set<ProviderId>)
    ensures forall x :: x in s <==> exists i :: 0 <= i < |providers| && providers[i].id == x
  {
    set i | 0 <= i < |providers| :: providers[i].id
  }

  /** Every provider is initialised, in order; the first failure aborts the rest. */
  function InitializeAll(api: Api, providers: seq<Provider>): (r: Created)
    ensures providers != [] ==> r.api.model.currentSource.None?
    ensures providers == [] ==> r == Created(api, Ok([]))
    ensures r.result.Err? ==> FromProvider(r.result.error, ProviderIds(providers))
    ensures Attributed(api.model, r.api.model, ProviderIds(providers))
    ensures r.api.options.options == api.options.options
    ensures api.options.unused - ReadTypesAll(providers) <= r.api.options.unused <= api.options.unused
    ensures ApiOptions.Valid(api.options) ==> ApiOptions.Valid(r.api.options)
    ensures r.result.Ok? ==>
      && |r.result.value| == |providers|
      && forall i :: 0 <= i < |providers| ==> providers[i].result.Returns? && r.result.value[i] == providers[i].result.ext
    decreases |providers|
  {
    if providers == [] then Created(api, Ok([]))
    else
      var first := Initialize(api, providers[0]);
      assert ProviderIds(providers) == {providers[0].id} + ProviderIds(providers[1..]);
      if first.result.Err? then Created(first.api, Err(first.result.error))
      else
        var rest := InitializeAll(first.api, providers[1..]);
        if rest.result.Err? then Created(rest.api, Err(rest.result.error))
        else Created(rest.api, Ok([first.result.value] + rest.result.value))
  }

  /**
   * `createExtensions`: initialise every provider, refuse a class produced
   * twice, sort by class name.
   */
  function CreateExtensionList(api: Api, providers: seq<Provider>): (r: Created)
    ensures r.api == InitializeAll(api, providers).api
    ensures InitializeAll(api, providers).result.Err? ==> r.result == InitializeAll(api, providers).result
    ensures r.result.Ok? ==> ExtensionList.SortedByClass(r.result.value)
  {
    var init := InitializeAll(api, providers);
    if init.result.Err? then init
    else
      var exts := init.result.value;
      match ExtensionList.CheckClash(exts)
      case Err(cls) => Created(init.api, Err(ExtensionTypeClash(cls)))
      case Ok(distinct) => Created(init.api, Ok(ExtensionList.SortByClass(distinct)))
  }

  /**
   * The extension list holds exactly the providers' extensions, and a clash
   * names a class two providers produced.
   */
  lemma CreatedExtensions(api: Api, providers: seq<Provider>)
    ensures var r := CreateExtensionList(api, providers);
      r.result.Ok? ==> forall e :: e in r.result.value <==> exists i :: 0 <= i < |providers| && providers[i].result == Returns(e)
    ensures var r := CreateExtensionList(api, providers);
      r.result.Err? && r.result.error.ExtensionTypeClash? ==>
        exists i, j :: 0 <= i < j < |providers| && providers[i].result.Returns? && providers[j].result.Returns?
          && providers[i].result.ext.cls == providers[j].result.ext.cls
          && r.result.error.extensionType == providers[i].result.ext.cls
  {
    var init := InitializeAll(api, providers);
    if init.result.Ok? {
      InitializedExtensions(api, providers);
    }
  }

  /** The initialised extensions are the providers' results, one per provider, in order. */
  lemma InitializedExtensions(api: Api, providers: seq<Provider>)
    requires InitializeAll(api, providers).result.Ok?
    ensures var exts := InitializeAll(api, providers).result.value;
      && (forall e :: e in exts <==> exists i :: 0 <= i < |providers| && providers[i].result == Returns(e))
      && forall i, j :: 0 <= i < j < |exts| && exts[i].cls == exts[j].cls ==>
           providers[i].result.Returns? && providers[j].result.Returns?
           && providers[i].result.ext.cls == providers[j].result.ext.cls && exts[i].cls == providers[i].result.ext.cls
  {
    var exts := InitializeAll(api, providers).result.value;
    forall e | e in exts
      ensures exists i :: 0 <= i < |providers| && providers[i].result == Returns(e)
    {
      var i :| 0 <= i < |exts| && exts[i] == e;
      assert providers[i].result == Returns(e);
    }
  }

  /**
   * The component's resources `hasType` says nothing handles, in
   * declaration order; the first resource whose lookup is ambiguous aborts.
   */
  function Unsupported(sub: SubtypeRel, m: ApiComponentModel.Model, component: seq<Resource>): (r: Result<seq<Resource>, BuildError>)
    ensures r.Ok? <==> forall x :: x in component ==> ApiComponentModel.HasType(sub, m, x.cls).Ok?
    ensures r.Ok? ==> forall x :: x in r.value <==> x in component && ApiComponentModel.HasType(sub, m, x.cls) == Ok(false)
    ensures r.Err? ==>
      exists x :: x in component && ApiComponentModel.HasType(sub, m, x.cls).Err?
        && r.error == HandlerLookupFailed(ApiComponentModel.HasType(sub, m, x.cls).error)
  {
    if component == [] then Ok([])
    else
      var x := component[0];
      assert forall y :: y in component[1..] ==> y in component;
      match ApiComponentModel.HasType(sub, m, x.cls)
      case Err(e) => Err(HandlerLookupFailed(e))
      case Ok(has) =>
        var rest :- Unsupported(sub, m, component[1..]);
        Ok(if has then rest else [x] + rest)
  }

  /**
   * `build`: installs the uncaught-exception handler, creates the
   * extensions, builds the context, then refuses unsupported resources and
   * unused options; the resource initialiser runs last.
   */
  function Build(sub: SubtypeRel, b: Builder): (r: Built)
    requires ApiOptions.Valid(b.api.options)
    ensures |r.trace| >= 2 && r.trace[..2] == [InstallHandler, CreateExtensions]
    ensures r.api == InitializeAll(b.api, b.providers).api
    ensures r.result.Ok? <==>
      r.trace == [InstallHandler, CreateExtensions, BuildContext, CheckResources, CheckOptions, InitializeResources]
    ensures BuildContext in r.trace <==> CreateExtensionList(b.api, b.providers).result.Ok?
    ensures r.result.Ok? ==>
      && r.result.value.clock == ChooseClock(b.explicitClock)
      && r.result.value.extensions == CreateExtensionList(b.api, b.providers).result.value
      && (forall x :: x in b.component ==> ApiComponentModel.HasType(sub, r.api.model, x.cls) == Ok(true))
      && ApiOptions.Valid(r.api.options)
      && ApiOptions.Unused(r.api.options) == {}
    ensures r.result.Err? && r.result.error.UnsupportedResourceTypes? ==>
      && r.result.error.unsupported != []
      && forall x :: x in r.result.error.unsupported <==>
           x in b.component && ApiComponentModel.HasType(sub, r.api.model, x.cls) == Ok(false)
  {
    var created := CreateExtensionList(b.api, b.providers);
    if created.result.Err? then
      Built([InstallHandler, CreateExtensions], created.api, Err(created.result.error))
    else
      var exts := created.result.value;
      var checked := [InstallHandler, CreateExtensions, BuildContext, CheckResources];
      match CheckResourceTypes(sub, created.api.model, b.component, Names(exts))
      case Some(e) => Built(checked, created.api, Err(e))
      case None =>
        match CheckOptionsUsed(created.api.options, Names(exts))
        case Some(e) => Built(checked + [CheckOptions], created.api, Err(e))
        case None => Built(checked + [CheckOptions, InitializeResources], created.api, Ok(Context(ChooseClock(b.explicitClock), exts)))
  }

  /** `throwOnUnsupportedResourceType`: every resource of the component must have a handler. */
  function CheckResourceTypes(sub: SubtypeRel, m: ApiComponentModel.Model, component: seq<Resource>, installed: seq<string>): (r: Option<BuildError>)
    ensures r.None? <==> forall x :: x in component ==> ApiComponentModel.HasType(sub, m, x.cls) == Ok(true)
    ensures r.Some? && r.value.UnsupportedResourceTypes? ==>
      && r.value.unsupported != []
      && r.value.installed == installed
      && forall x :: x in r.value.unsupported <==> x in component && ApiComponentModel.HasType(sub, m, x.cls) == Ok(false)
    ensures r.Some? ==> r.value.UnsupportedResourceTypes? || r.value.HandlerLookupFailed?
  {
    match Unsupported(sub, m, component)
    case Err(e) =>
      var x :| x in component && ApiComponentModel.HasType(sub, m, x.cls).Err?;
      Some(e)
    case Ok(unsupported) =>
      if unsupported != [] then
        assert unsupported[0] in unsupported;
        Some(UnsupportedResourceTypes(unsupported, installed))
      else None
  }

  /** `throwOnUnusedOptionType`: every option given must have been read by some provider. */
  function CheckOptionsUsed(options: ApiOptions.Registry, installed: seq<string>): (r: Option<BuildError>)
    requires ApiOptions.Valid(options)
    ensures r.None? <==> ApiOptions.Unused(options) == {}
    ensures r.Some? ==> r.value == UnusedOptions(ApiOptions.Unused(options), installed)
  {
    var unused := ApiOptions.Unused(options);
    if unused != {} then Some(UnusedOptions(unused, installed)) else None
  }

  /**
   * Every resource of a successfully built component resolves to a handler,
   * which is what the resource initialiser asks the model for.
   */
  lemma ResourcesResolveAfterBuild(sub: SubtypeRel, b: Builder, x: Resource)
    requires ApiOptions.Valid(b.api.options)
    requires Build(sub, b).result.Ok? && x in b.component
    ensures ApiComponentModel.ResourceHandler(sub, Build(sub, b).api.model, x.cls).Ok?
  {
    ApiComponentModel.HasTypeAgreesWithResourceHandler(sub, Build(sub, b).api.model, x.cls);
  }

  /**
   * Options given to the builder that no provider reads fail the build:
   * they are still unused when it checks.
   */
  lemma UnreadOptionsFailBuild(sub: SubtypeRel, b: Builder, o: ExtensionOptions)
    requires ApiOptions.Valid(b.api.options)
    requires WithOptions(b, o).Ok?
    requires o.cls !in ReadTypesAll(b.providers)
    ensures ApiOptions.Valid(WithOptions(b, o).value.api.options)
    ensures Build(sub, WithOptions(b, o).value).result.Err?
  {
  }

  /**
   * The extensions do not depend on the order the providers were loaded in:
   * reordering them gives the same class-sorted list.
   */
  lemma ExtensionOrderIndependentOfProviderOrder(api: Api, a: seq<Provider>, c: seq<Provider>)
    requires multiset(a) == multiset(c)
    requires CreateExtensionList(api, a).result.Ok? && CreateExtensionList(api, c).result.Ok?
    ensures CreateExtensionList(api, a).result.value == CreateExtensionList(api, c).result.value
  {
    CreatedExtensions(api, a);
    CreatedExtensions(api, c);
    var ea := CreateExtensionList(api, a).result.value;
    var ec := CreateExtensionList(api, c).result.value;
    forall e
      ensures e in ea <==> e in ec
    {
      if e in ea {
        var i :| 0 <= i < |a| && a[i].result == Returns(e);
        assert a[i] in multiset(c);
        var j :| 0 <= j < |c| && c[j] == a[i];
      }
      if e in ec {
        var i :| 0 <= i < |c| && c[i].result == Returns(e);
        assert c[i] in multiset(a);
        var j :| 0 <= j < |a| && a[j] == c[i];
      }
    }
    ExtensionList.SortedByClassUnique(ea, ec);
  }

  /**
   * A handler a provider registers is attributed to it, and no registration
   * is possible once the build has closed the window.
   */
  lemma RegistrationAttributedToProvider(api: Api, p: Provider, t: TypeId, h: HandlerId)
    requires api.model.currentSource.None? && t !in api.model.resourceExtensions
    requires p.calls == [Register(t, h)]
    ensures Initialize(api, p).api.model.resourceExtensions[t] == ApiComponentModel.ResourceExtension(h, p.id)
    ensures ApiComponentModel.AddResource(api.model, t, h) == Err(ApiComponentModel.NotWithinInitialize)
  {
  }

  /**
   * After a build, every registration made during it is attributed to one
   * of the providers, earlier registrations are untouched, and the
   * registration window is closed again.
   */
  lemma BuildAttributesRegistrations(sub: SubtypeRel, b: Builder)
    requires ApiOptions.Valid(b.api.options)
    ensures Attributed(b.api.model, Build(sub, b).api.model, ProviderIds(b.providers))
    ensures b.providers != [] ==> Build(sub, b).api.model.currentSource.None?
  {
  }
}
