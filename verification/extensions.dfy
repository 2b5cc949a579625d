/**
 * The extension registry of the current generation (`Extensions`): ensures
 * each provider class is initialised at most once, keeps the extensions in
 * the order their providers finished, tracks the stack of providers being
 * initialised (nested `ensureExtension` calls made from inside a provider's
 * callback push onto it), and hands extensions back by type.
 *
 * A provider's `initialize` callback is modelled as a script: the API calls it
 * makes, in order, and what it finally returns. Its registrations go to the
 * component model, attributed to whatever provider is on top of the stack.
 */
module Extensions {
  import opened Types
  import ComponentModel

  /** One call a provider's callback makes on the API. */
  datatype Step =
      /** `api.extensions().ensureExtension(providerClass)` */
    | EnsureProvider(provider: ProviderId)
      /** `api.components().model().addResource(type, handler)` */
    | AddResource(resourceType: TypeId, handler: HandlerId)

  /** A provider's `initialize` callback: its API calls, then its outcome. */
  datatype Behaviour = Behaviour(steps: seq<Step>, result: CallbackResult)

  /**
   * The provider classes `ensureExtension(Class)` can instantiate, with the
   * callback a fresh instance runs; a class missing here has no usable
   * no-argument constructor.
   */
  type Catalogue = map<ProviderId, Behaviour>

  /** An extension and the class of the provider that returned it. */
  datatype ExtensionData = ExtensionData(extension: Extension, provider: ProviderId)

  /**
   * The registry's state: the initialisation stack (top last), the applied
   * providers, the extensions in insertion order (one per concrete class),
   * and the component model the callbacks register with.
   */
  datatype Registry = Registry(
    initStack: seq<ProviderId>,
    applied: map<ProviderId, ExtensionData>,
    extensions: seq<ExtensionData>,
    model: ComponentModel.Model)

  datatype ExtError =
    | FailedToInstantiateProvider(provider: ProviderId)
    | NullExtension(provider: ProviderId)
      /** The callback itself threw. */
    | ProviderFailed(provider: ProviderId)
    | ExtensionTypeClash(extensionType: TypeId, currentProvider: ProviderId, existingProvider: ProviderId)
      /** Nesting went deeper than the thread's stack allows. */
    | StackOverflow
      /** A component-model call made by a callback threw. */
    | ModelFailure(error: ComponentModel.ModelError)
    | UnknownExtension(requested: TypeId, installed: seq<string>)

  /** The state after an `ensureExtension` call and what it returned or threw. */
  datatype Ensured = Ensured(registry: Registry, result: Result<Extension, ExtError>)

  /** The state after running (a suffix of) a callback's steps, and the first exception, if any. */
  datatype Stepped = Stepped(registry: Registry, error: Option<ExtError>)

  function Empty(): (r: Registry)
    ensures Valid(r) && r.initStack == [] && r.extensions == []
  {
    Registry([], map[], [], map[])
  }

  /** Concrete extension classes are unique, and every applied provider's data is among the extensions. */
  ghost predicate Valid(r: Registry) {
    && (forall i, j :: 0 <= i < j < |r.extensions| ==> r.extensions[i].extension.cls != r.extensions[j].extension.cls)
    && (forall p :: p in r.applied ==> r.applied[p] in r.extensions && r.applied[p].provider == p)
  }

  /** `after` only adds to `before`: extensions appended, providers applied, handlers registered. */
  ghost predicate Grows(before: Registry, after: Registry) {
    && |before.extensions| <= |after.extensions|
    && after.extensions[..|before.extensions|] == before.extensions
    && (forall p :: p in before.applied ==> p in after.applied && after.applied[p] == before.applied[p])
    && (forall t :: t in before.model ==> t in after.model && after.model[t] == before.model[t])
  }

  /** `currentlyInitialising`: the top of the stack, if any. */
  function CurrentlyInitialising(r: Registry): (c: Option<ProviderId>)
    ensures c.None? <==> r.initStack == []
    ensures c.Some? ==> c.value == r.initStack[|r.initStack| - 1]
  {
    if r.initStack == [] then None else Some(r.initStack[|r.initStack| - 1])
  }

  /** The registered extension whose concrete class is `cls`, if any. */
  function FindByClass(exts: seq<ExtensionData>, cls: TypeId): (d: Option<ExtensionData>)
    ensures d.Some? ==> d.value in exts && d.value.extension.cls == cls
    ensures d.None? ==> forall i :: 0 <= i < |exts| ==> exts[i].extension.cls != cls
  {
    if exts == [] then None
    else if exts[0].extension.cls == cls then Some(exts[0])
    else FindByClass(exts[1..], cls)
  }

  /**
   * `ensureExtension(Class)`: instantiate the provider class, then ensure that
   * instance. Instantiation happens before the applied check.
   */
  function EnsureByClass(cat: Catalogue, maxDepth: nat, r: Registry, p: ProviderId): (e: Ensured)
    requires |r.initStack| <= maxDepth
    ensures p !in cat ==> e == Ensured(r, Err(FailedToInstantiateProvider(p)))
    ensures e.registry.initStack == r.initStack
    ensures Grows(r, e.registry)
    ensures p in r.applied && p in cat ==> e == Ensured(r, Ok(r.applied[p].extension))
    ensures e.result.Ok? ==> p in e.registry.applied && e.registry.applied[p].extension == e.result.value
    decreases maxDepth - |r.initStack|, 2, 0
  {
    if p !in cat then Ensured(r, Err(FailedToInstantiateProvider(p)))
    else EnsureExtension(cat, maxDepth, r, p, cat[p])
  }

  /**
   * `ensureExtension(provider)` for an instance of class `p` whose callback is
   * `b`: an applied class answers its extension without running anything;
   * otherwise the callback runs with `p` pushed, the stack is popped whatever
   * happens, and the result is recorded unless it is null, the callback threw,
   * or another provider already returned an extension of that class.
   */
  function EnsureExtension(cat: Catalogue, maxDepth: nat, r: Registry, p: ProviderId, b: Behaviour): (e: Ensured)
    requires |r.initStack| <= maxDepth
    ensures e.registry.initStack == r.initStack
    ensures Grows(r, e.registry)
    ensures p in r.applied ==> e == Ensured(r, Ok(r.applied[p].extension))
    ensures e.result.Ok? ==> p in e.registry.applied && e.registry.applied[p].extension == e.result.value
    ensures e.result.Ok? && p !in r.applied ==>
      && |e.registry.extensions| > |r.extensions|
      && e.registry.extensions[|e.registry.extensions| - 1] == ExtensionData(e.result.value, p)
      && e.registry.applied[p] == ExtensionData(e.result.value, p)
    decreases maxDepth - |r.initStack|, 1, 0
  {
    if p in r.applied then Ensured(r, Ok(r.applied[p].extension))
    else if |r.initStack| == maxDepth then Ensured(r, Err(StackOverflow))
    else
      var ran := RunSteps(cat, maxDepth, r.(initStack := r.initStack + [p]), b.steps);
      var popped := ran.registry.(initStack := r.initStack);
      assert Grows(r, popped);
      if ran.error.Some? then Ensured(popped, Err(ran.error.value))
      else
        GrowsByRecord(r, popped, p, b.result);
        Record(popped, p, b.result)
  }

  /**
   * What happens once a callback has completed: a null or a throw fails, an
   * extension whose class is already registered clashes, and anything else is
   * appended to the extensions and recorded as the provider's.
   */
  function Record(r: Registry, p: ProviderId, result: CallbackResult): (e: Ensured)
    ensures result.ReturnsNull? ==> e == Ensured(r, Err(NullExtension(p)))
    ensures result.Throws? ==> e == Ensured(r, Err(ProviderFailed(p)))
    ensures e.result.Err? ==> e.registry == r
    ensures e.result.Ok? <==> result.Returns? && forall i :: 0 <= i < |r.extensions| ==> r.extensions[i].extension.cls != result.ext.cls
    ensures e.result.Ok? ==>
      && e.result.value == result.ext
      && e.registry == r.(extensions := r.extensions + [ExtensionData(result.ext, p)],
                          applied := r.applied[p := ExtensionData(result.ext, p)])
  {
    match result
    case ReturnsNull => Ensured(r, Err(NullExtension(p)))
    case Throws => Ensured(r, Err(ProviderFailed(p)))
    case Returns(ext) =>
      match FindByClass(r.extensions, ext.cls)
      case Some(existing) => Ensured(r, Err(ExtensionTypeClash(ext.cls, p, existing.provider)))
      case None =>
        var data := ExtensionData(ext, p);
        Ensured(r.(extensions := r.extensions + [data], applied := r.applied[p := data]), Ok(ext))
  }

  /** Recording an outcome keeps the registry valid. */
  lemma RecordKeepsValid(r: Registry, p: ProviderId, result: CallbackResult)
    requires Valid(r)
    ensures Valid(Record(r, p, result).registry)
  {
    var e := Record(r, p, result);
    if e.result.Ok? {
      forall q | q in e.registry.applied
        ensures e.registry.applied[q] in e.registry.extensions
      {
        if q != p {
          assert r.applied[q] in r.extensions;
        }
      }
    }
  }

  /**
   * Ensuring a provider keeps the registry valid: no concrete extension class
   * is recorded twice, and every applied provider's extension is listed.
   */
  lemma {:induction false} EnsureByClassKeepsValid(cat: Catalogue, maxDepth: nat, r: Registry, p: ProviderId)
    requires |r.initStack| <= maxDepth && Valid(r)
    ensures Valid(EnsureByClass(cat, maxDepth, r, p).registry)
    decreases maxDepth - |r.initStack|, 2, 0
  {
    if p in cat {
      EnsureExtensionKeepsValid(cat, maxDepth, r, p, cat[p]);
    }
  }

  lemma {:induction false} EnsureExtensionKeepsValid(cat: Catalogue, maxDepth: nat, r: Registry, p: ProviderId, b: Behaviour)
    requires |r.initStack| <= maxDepth && Valid(r)
    ensures Valid(EnsureExtension(cat, maxDepth, r, p, b).registry)
    decreases maxDepth - |r.initStack|, 1, 0
  {
    if p !in r.applied && |r.initStack| < maxDepth {
      var pushed := r.(initStack := r.initStack + [p]);
      RunStepsKeepsValid(cat, maxDepth, pushed, b.steps);
      var popped := RunSteps(cat, maxDepth, pushed, b.steps).registry.(initStack := r.initStack);
      RecordKeepsValid(popped, p, b.result);
    }
  }

  lemma {:induction false} RunStepsKeepsValid(cat: Catalogue, maxDepth: nat, r: Registry, steps: seq<Step>)
    requires |r.initStack| <= maxDepth && Valid(r)
    ensures Valid(RunSteps(cat, maxDepth, r, steps).registry)
    decreases maxDepth - |r.initStack|, 3, |steps|
  {
    if steps != [] {
      match steps[0]
      case EnsureProvider(q) =>
        EnsureByClassKeepsValid(cat, maxDepth, r, q);
        var e := EnsureByClass(cat, maxDepth, r, q);
        if e.result.Ok? {
          RunStepsKeepsValid(cat, maxDepth, e.registry, steps[1..]);
        }
      case AddResource(t, h) =>
        var added := ComponentModel.AddResource(r.model, t, h, CurrentlyInitialising(r));
        if added.Ok? {
          RunStepsKeepsValid(cat, maxDepth, r.(model := added.value), steps[1..]);
        }
    }
  }

  /** Recording a new provider's outcome in a grown registry keeps it grown. */
  lemma GrowsByRecord(r: Registry, mid: Registry, p: ProviderId, result: CallbackResult)
    requires Grows(r, mid) && p !in r.applied
    ensures Grows(r, Record(mid, p, result).registry)
  {
    var data := ExtensionData(if result.Returns? then result.ext else Extension("", ""), p);
    assert (mid.extensions + [data])[..|r.extensions|] == mid.extensions[..|r.extensions|];
  }

  lemma GrowsTransitive(a: Registry, b: Registry, c: Registry)
    requires Grows(a, b) && Grows(b, c)
    ensures Grows(a, c)
  {
    assert c.extensions[..|a.extensions|] == c.extensions[..|b.extensions|][..|a.extensions|];
  }

  /** Runs a callback's steps in order, stopping at the first one that throws. */
  function RunSteps(cat: Catalogue, maxDepth: nat, r: Registry, steps: seq<Step>): (s: Stepped)
    requires |r.initStack| <= maxDepth
    ensures s.registry.initStack == r.initStack
    ensures Grows(r, s.registry)
    decreases maxDepth - |r.initStack|, 3, |steps|
  {
    if steps == [] then Stepped(r, None)
    else match steps[0]
      case EnsureProvider(q) =>
        var e := EnsureByClass(cat, maxDepth, r, q);
        if e.result.Err? then Stepped(e.registry, Some(e.result.error))
        else
          var rest := RunSteps(cat, maxDepth, e.registry, steps[1..]);
          GrowsTransitive(r, e.registry, rest.registry);
          rest
      case AddResource(t, h) =>
        match ComponentModel.AddResource(r.model, t, h, CurrentlyInitialising(r))
        case Err(err) => Stepped(r, Some(ModelFailure(err)))
        case Ok(m) =>
          var registered := r.(model := m);
          var rest := RunSteps(cat, maxDepth, registered, steps[1..]);
          assert Grows(r, registered);
          GrowsTransitive(r, registered, rest.registry);
          rest
  }

  /** `iterator`: the extensions in insertion order. */
  function Iterate(r: Registry): (xs: seq<Extension>)
    ensures |xs| == |r.extensions|
    ensures forall i :: 0 <= i < |xs| ==> xs[i] == r.extensions[i].extension
  {
    Values(r.extensions)
  }

  function Values(exts: seq<ExtensionData>): (xs: seq<Extension>)
    ensures |xs| == |exts|
    ensures forall i :: 0 <= i < |xs| ==> xs[i] == exts[i].extension
  {
    if exts == [] then [] else [exts[0].extension] + Values(exts[1..])
  }

  /** Index of the first extension assignable to `t`. */
  function FirstAssignable(sub: SubtypeRel, exts: seq<ExtensionData>, t: TypeId): (i: Option<nat>)
    ensures i.Some? ==>
      && i.value < |exts| && sub(exts[i.value].extension.cls, t)
      && forall j :: 0 <= j < i.value ==> !sub(exts[j].extension.cls, t)
    ensures i.None? ==> forall j :: 0 <= j < |exts| ==> !sub(exts[j].extension.cls, t)
  {
    if exts == [] then None
    else if sub(exts[0].extension.cls, t) then Some(0)
    else match FirstAssignable(sub, exts[1..], t)
      case None => None
      case Some(k) => Some(k + 1)
  }

  /**
   * `get`: the first extension, in insertion order, whose class is assignable
   * to `t`; an error naming every installed extension when there is none.
   */
  function Get(sub: SubtypeRel, r: Registry, t: TypeId): (res: Result<Extension, ExtError>)
    ensures res.Ok? ==> exists i ::
      && 0 <= i < |r.extensions| && res.value == r.extensions[i].extension && sub(res.value.cls, t)
      && forall j :: 0 <= j < i ==> !sub(r.extensions[j].extension.cls, t)
    ensures res.Err? <==> forall j :: 0 <= j < |r.extensions| ==> !sub(r.extensions[j].extension.cls, t)
    ensures res.Err? ==> res.error == UnknownExtension(t, Names(Iterate(r)))
  {
    match FirstAssignable(sub, r.extensions, t)
    case None => Err(UnknownExtension(t, Names(Iterate(r))))
    case Some(i) => Ok(r.extensions[i].extension)
  }

  /** Every direct `addResource` step of `steps` is recorded in `m` against `p`. */
  ghost predicate AttributedTo(steps: seq<Step>, m: ComponentModel.Model, p: ProviderId) {
    forall i :: 0 <= i < |steps| && steps[i].AddResource? ==>
      steps[i].resourceType in m && m[steps[i].resourceType] == ComponentModel.ResourceExtension(steps[i].handler, p)
  }

  /** Every direct `ensureExtension` step of `steps` names an applied provider. */
  ghost predicate AllApplied(steps: seq<Step>, applied: map<ProviderId, ExtensionData>) {
    forall i :: 0 <= i < |steps| && steps[i].EnsureProvider? ==> steps[i].provider in applied
  }

  /**
   * Every handler a callback registers directly, in a run of steps that
   * completes, is recorded against the provider on top of the stack — even
   * when nested `ensureExtension` steps ran other providers in between — and
   * every provider it ensured is applied.
   */
  lemma {:induction false} RunStepsAttribution(cat: Catalogue, maxDepth: nat, r: Registry, steps: seq<Step>)
    requires |r.initStack| <= maxDepth
    requires r.initStack != []
    ensures Attributed(steps, RunSteps(cat, maxDepth, r, steps), r.initStack[|r.initStack| - 1])
    decreases |steps|, 1
  {
    if steps != [] {
      if steps[0].EnsureProvider? {
        EnsureStepAttribution(cat, maxDepth, r, steps);
      } else {
        AddStepAttribution(cat, maxDepth, r, steps);
      }
    }
  }

  /** A completed run's direct registrations and ensured providers are all recorded, the former against `p`. */
  ghost predicate Attributed(steps: seq<Step>, s: Stepped, p: ProviderId) {
    s.error.None? ==> AttributedTo(steps, s.registry.model, p) && AllApplied(steps, s.registry.applied)
  }

  lemma {:induction false} EnsureStepAttribution(cat: Catalogue, maxDepth: nat, r: Registry, steps: seq<Step>)
    requires |r.initStack| <= maxDepth
    requires r.initStack != [] && steps != [] && steps[0].EnsureProvider?
    ensures Attributed(steps, RunSteps(cat, maxDepth, r, steps), r.initStack[|r.initStack| - 1])
    decreases |steps|, 0
  {
    var s := RunSteps(cat, maxDepth, r, steps);
    var q := steps[0].provider;
    var e := EnsureByClass(cat, maxDepth, r, q);
    if e.result.Ok? {
      assert s == RunSteps(cat, maxDepth, e.registry, steps[1..]);
      assert q in e.registry.applied;
      RunStepsAttribution(cat, maxDepth, e.registry, steps[1..]);
      if s.error.None? {
        assert Grows(e.registry, s.registry);
        assert q in s.registry.applied;
        ExtendAttribution(steps, s, r.initStack[|r.initStack| - 1]);
      }
    } else {
      assert s.error.Some?;
    }
  }

  lemma {:induction false} AddStepAttribution(cat: Catalogue, maxDepth: nat, r: Registry, steps: seq<Step>)
    requires |r.initStack| <= maxDepth
    requires r.initStack != [] && steps != [] && steps[0].AddResource?
    ensures Attributed(steps, RunSteps(cat, maxDepth, r, steps), r.initStack[|r.initStack| - 1])
    decreases |steps|, 0
  {
    var s := RunSteps(cat, maxDepth, r, steps);
    var added := ComponentModel.AddResource(r.model, steps[0].resourceType, steps[0].handler, CurrentlyInitialising(r));
    if added.Ok? {
      var registered := r.(model := added.value);
      assert s == RunSteps(cat, maxDepth, registered, steps[1..]);
      RunStepsAttribution(cat, maxDepth, registered, steps[1..]);
      if s.error.None? {
        assert Grows(registered, s.registry);
        ExtendAttribution(steps, s, r.initStack[|r.initStack| - 1]);
      }
    }
  }

  /** The two facts for a whole run follow from those for its tail and its first step. */
  lemma ExtendAttribution(steps: seq<Step>, s: Stepped, p: ProviderId)
    requires steps != [] && s.error.None?
    requires Attributed(steps[1..], s, p)
    requires steps[0].AddResource? ==>
      && steps[0].resourceType in s.registry.model
      && s.registry.model[steps[0].resourceType] == ComponentModel.ResourceExtension(steps[0].handler, p)
    requires steps[0].EnsureProvider? ==> steps[0].provider in s.registry.applied
    ensures Attributed(steps, s, p)
  {
    forall i | 1 <= i < |steps|
      ensures steps[i] == steps[1..][i - 1]
    {
    }
  }

  /**
   * A provider that is initialised successfully owns every handler its own
   * callback registered, and every provider its callback ensured (other than
   * itself) finished first: its extension precedes the new one.
   */
  lemma EnsureAttributionAndOrder(cat: Catalogue, maxDepth: nat, r: Registry, p: ProviderId, b: Behaviour)
    requires |r.initStack| <= maxDepth && Valid(r)
    requires p !in r.applied
    ensures var e := EnsureExtension(cat, maxDepth, r, p, b);
      e.result.Ok? ==> forall i :: 0 <= i < |b.steps| && b.steps[i].AddResource? ==>
        && b.steps[i].resourceType in e.registry.model
        && e.registry.model[b.steps[i].resourceType] == ComponentModel.ResourceExtension(b.steps[i].handler, p)
    ensures var e := EnsureExtension(cat, maxDepth, r, p, b);
      e.result.Ok? ==> forall i :: 0 <= i < |b.steps| && b.steps[i].EnsureProvider? && b.steps[i].provider != p ==>
        && b.steps[i].provider in e.registry.applied
        && exists k :: 0 <= k < |e.registry.extensions| - 1 && e.registry.extensions[k] == e.registry.applied[b.steps[i].provider]
  {
    var e := EnsureExtension(cat, maxDepth, r, p, b);
    if e.result.Ok? {
      var pushed := r.(initStack := r.initStack + [p]);
      var ran := RunSteps(cat, maxDepth, pushed, b.steps);
      RunStepsAttribution(cat, maxDepth, pushed, b.steps);
      RunStepsKeepsValid(cat, maxDepth, pushed, b.steps);
      var before := ran.registry.extensions;
      assert Attributed(b.steps, ran, p);
      assert e.registry.extensions == before + [ExtensionData(e.result.value, p)];
      forall i | 0 <= i < |b.steps| && b.steps[i].EnsureProvider? && b.steps[i].provider != p
        ensures exists k :: 0 <= k < |e.registry.extensions| - 1 && e.registry.extensions[k] == e.registry.applied[b.steps[i].provider]
      {
        var q := b.steps[i].provider;
        assert e.registry.applied[q] == ran.registry.applied[q];
        var k :| 0 <= k < |before| && before[k] == ran.registry.applied[q];
        assert e.registry.extensions[k] == before[k];
      }
    }
  }

  /**
   * A callback that returns null or throws, having called nothing, leaves the
   * registry exactly as it was.
   */
  lemma FailedCallbackRecordsNothing(cat: Catalogue, maxDepth: nat, r: Registry, p: ProviderId, b: Behaviour)
    requires |r.initStack| < maxDepth
    requires p !in r.applied && b.steps == [] && !b.result.Returns?
    ensures EnsureExtension(cat, maxDepth, r, p, b) ==
      Ensured(r, Err(if b.result.ReturnsNull? then NullExtension(p) else ProviderFailed(p)))
  {
  }

  /**
   * A provider returning an extension of a class some other provider already
   * returned fails, names that provider, and leaves the registry as it was.
   */
  lemma ClashRecordsNothing(cat: Catalogue, maxDepth: nat, r: Registry, p: ProviderId, ext: Extension, i: nat)
    requires |r.initStack| < maxDepth && Valid(r)
    requires p !in r.applied && i < |r.extensions| && r.extensions[i].extension.cls == ext.cls
    ensures EnsureExtension(cat, maxDepth, r, p, Behaviour([], Returns(ext))) ==
      Ensured(r, Err(ExtensionTypeClash(ext.cls, p, r.extensions[i].provider)))
  {
    var found := FindByClass(r.extensions, ext.cls);
    var j :| 0 <= j < |r.extensions| && r.extensions[j] == found.value;
    assert i == j;
  }

  /**
   * Once `get` finds an extension, it keeps answering the same one however
   * many providers are initialised afterwards: later extensions are appended
   * behind it.
   */
  lemma {:induction false} GetStableAsRegistryGrows(sub: SubtypeRel, r: Registry, later: Registry, t: TypeId)
    requires Grows(r, later)
    requires Get(sub, r, t).Ok?
    ensures Get(sub, later, t) == Get(sub, r, t)
  {
    var i := FirstAssignable(sub, r.extensions, t).value;
    assert later.extensions[i] == r.extensions[i];
    assert forall j :: 0 <= j < i ==> later.extensions[j] == r.extensions[j];
  }

  /**
   * Ensuring a provider that is already applied — by class or by instance —
   * runs nothing and answers the recorded extension.
   */
  lemma EnsureIdempotent(cat: Catalogue, maxDepth: nat, r: Registry, p: ProviderId, b: Behaviour, b2: Behaviour)
    requires |r.initStack| <= maxDepth
    requires EnsureExtension(cat, maxDepth, r, p, b).result.Ok?
    ensures var first := EnsureExtension(cat, maxDepth, r, p, b);
      && EnsureExtension(cat, maxDepth, first.registry, p, b2) == first
      && (p in cat ==> EnsureByClass(cat, maxDepth, first.registry, p) == first)
  {
  }
}
