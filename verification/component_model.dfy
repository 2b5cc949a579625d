/**
 * The resource-handler registry of the current generation
 * (`component.model.ComponentModel`): a subtype-aware map from resource class
 * to handler, each registration attributed to the provider that was on top of
 * the extension initialisation stack when it was made.
 */
module ComponentModel {
  import opened Types
  import SubTypeAwareMap

  /** A registered handler and the provider that registered it. */
  datatype ResourceExtension = ResourceExtension(handler: HandlerId, provider: ProviderId)

  /** The registry's only state: `resourceExtensions`. */
  type Model = map<TypeId, ResourceExtension>

  datatype ModelError =
    | AlreadyRegistered(resourceType: TypeId, registeredBy: ProviderId)
    | NotWithinInitialize
      /** The lookup's ambiguity, re-thrown with the ambiguous candidates. */
    | UndeterminedHandler(resourceType: TypeId, candidates: seq<TypeId>)
    | UnknownResourceType(resourceType: TypeId, known: set<TypeId>)

  /**
   * `addResource`, where `current` is what `Extensions.currentlyInitialising()`
   * answers at the time of the call. The exact-type duplicate check comes
   * first; a failure leaves the registry as it was.
   */
  function AddResource(m: Model, t: TypeId, h: HandlerId, current: Option<ProviderId>): (r: Result<Model, ModelError>)
    ensures t in m ==> r == Err(AlreadyRegistered(t, m[t].provider))
    ensures t !in m && current.None? ==> r == Err(NotWithinInitialize)
    ensures r.Ok? <==> t !in m && current.Some?
    ensures r.Ok? ==> r.value.Keys == m.Keys + {t} && r.value[t] == ResourceExtension(h, current.value)
    ensures r.Ok? ==> forall k :: k in m ==> r.value[k] == m[k]
  {
    if t in m then Err(AlreadyRegistered(t, m[t].provider))
    else if current.None? then Err(NotWithinInitialize)
    else Ok(SubTypeAwareMap.Put(m, t, ResourceExtension(h, current.value)))
  }

  /** `resourceExtension`: `getOrSub`, its ambiguity wrapped in a handler-specific error. */
  function Lookup(sub: SubtypeRel, m: Model, t: TypeId): (r: Result<Option<ResourceExtension>, ModelError>)
    ensures t in m ==> r == Ok(Some(m[t]))
    ensures r.Ok? && r.value.Some? ==> exists s :: s in m && (s == t || sub(t, s)) && r.value.value == m[s]
    ensures r.Err? ==> r.error.UndeterminedHandler? && r.error.resourceType == t && |r.error.candidates| >= 2
    ensures r.Err? ==> forall c :: c in r.error.candidates ==> c in m && sub(t, c)
  {
    match SubTypeAwareMap.GetOrSub(sub, m, t)
    case Ok(found) => Ok(found)
    case Err(Ambiguous(_, candidates)) => Err(UndeterminedHandler(t, candidates))
  }

  /** `hasType`: whether a handler resolves; an ambiguity is an error, never `false`. */
  function HasType(sub: SubtypeRel, m: Model, t: TypeId): (r: Result<bool, ModelError>)
    ensures t in m ==> r == Ok(true)
    ensures r.Err? <==> Lookup(sub, m, t).Err?
  {
    var found :- Lookup(sub, m, t);
    Ok(found.Some?)
  }

  /** `resourceHandler`: the resolved handler, or an error listing every registered type. */
  function ResourceHandler(sub: SubtypeRel, m: Model, t: TypeId): (r: Result<HandlerId, ModelError>)
    ensures t in m ==> r == Ok(m[t].handler)
    ensures r.Ok? ==> exists s :: s in m && (s == t || sub(t, s)) && m[s].handler == r.value
    ensures r.Err? ==> r.error.UndeterminedHandler? || r.error == UnknownResourceType(t, m.Keys)
  {
    var found :- Lookup(sub, m, t);
    if found.None? then Err(UnknownResourceType(t, m.Keys))
    else Ok(found.value.handler)
  }

  /**
   * `resourceHandler` resolves to the handler of the most specific registered
   * supertype, fails listing all registered types when there is no registered
   * supertype, and fails on ambiguity when there are supertypes but no most
   * specific one.
   */
  lemma ResourceHandlerMostSpecific(sub: SubtypeRel, m: Model, t: TypeId)
    requires PartialOrder(sub)
    ensures forall s :: SubTypeAwareMap.MostSpecificSuper(sub, m, t, s) ==> ResourceHandler(sub, m, t) == Ok(m[s].handler)
    ensures ResourceHandler(sub, m, t) == Err(UnknownResourceType(t, m.Keys)) <==> forall k :: k in m ==> !sub(t, k)
    ensures ResourceHandler(sub, m, t).Err? && ResourceHandler(sub, m, t).error.UndeterminedHandler? <==>
      (exists k :: k in m && sub(t, k)) && forall s :: !SubTypeAwareMap.MostSpecificSuper(sub, m, t, s)
  {
    SubTypeAwareMap.GetOrSubMostSpecific(sub, m, t);
  }

  /**
   * `hasType` and `resourceHandler` agree: `true` exactly when a handler
   * resolves, `false` exactly when the unknown-type error would be raised,
   * and the same ambiguity error from both.
   */
  lemma HasTypeAgreesWithResourceHandler(sub: SubtypeRel, m: Model, t: TypeId)
    ensures HasType(sub, m, t) == Ok(true) <==> ResourceHandler(sub, m, t).Ok?
    ensures HasType(sub, m, t) == Ok(false) <==> ResourceHandler(sub, m, t) == Err(UnknownResourceType(t, m.Keys))
    ensures HasType(sub, m, t).Err? ==> ResourceHandler(sub, m, t) == Err(HasType(sub, m, t).error)
  {
  }

  /**
   * A successful registration keeps every earlier exact registration
   * resolving to its own handler, and makes the new type resolve to the new
   * handler, whatever the subtype relation between them.
   */
  lemma AddKeepsExactResolutions(sub: SubtypeRel, m: Model, t: TypeId, h: HandlerId, p: ProviderId)
    requires t !in m
    ensures AddResource(m, t, h, Some(p)).Ok?
    ensures ResourceHandler(sub, AddResource(m, t, h, Some(p)).value, t) == Ok(h)
    ensures forall k :: k in m ==> ResourceHandler(sub, AddResource(m, t, h, Some(p)).value, k) == Ok(m[k].handler)
  {
  }

  /**
   * Registering a supertype and a subtype, in either order, both succeed; each
   * exact type keeps its own handler and a class below the subtype resolves
   * to the subtype's handler.
   */
  lemma SubtypeAndSupertypeBothRegister(sub: SubtypeRel, base: TypeId, derived: TypeId, leaf: TypeId,
                                        hBase: HandlerId, hDerived: HandlerId, p: ProviderId)
    requires PartialOrder(sub)
    requires base != derived && sub(derived, base)
    requires leaf != base && leaf != derived && sub(leaf, derived)
    ensures var m1 := AddResource(map[], base, hBase, Some(p));
      && m1.Ok? && AddResource(m1.value, derived, hDerived, Some(p)).Ok?
      && var m2 := AddResource(m1.value, derived, hDerived, Some(p)).value;
      && ResourceHandler(sub, m2, base) == Ok(hBase)
      && ResourceHandler(sub, m2, derived) == Ok(hDerived)
      && ResourceHandler(sub, m2, leaf) == Ok(hDerived)
    ensures var m1 := AddResource(map[], derived, hDerived, Some(p));
      && m1.Ok? && AddResource(m1.value, base, hBase, Some(p)).Ok?
      && var m2 := AddResource(m1.value, base, hBase, Some(p)).value;
      && ResourceHandler(sub, m2, base) == Ok(hBase)
      && ResourceHandler(sub, m2, derived) == Ok(hDerived)
      && ResourceHandler(sub, m2, leaf) == Ok(hDerived)
  {
    var m2 := map[base := ResourceExtension(hBase, p), derived := ResourceExtension(hDerived, p)];
    assert AddResource(AddResource(map[], base, hBase, Some(p)).value, derived, hDerived, Some(p)).value == m2;
    assert AddResource(AddResource(map[], derived, hDerived, Some(p)).value, base, hBase, Some(p)).value == m2;
    assert sub(leaf, base);
    assert SubTypeAwareMap.MostSpecificSuper(sub, m2, leaf, derived);
    ResourceHandlerMostSpecific(sub, m2, leaf);
  }
}
