/**
 * The earlier resource-handler registry (`api.ComponentModel`): the same
 * most-specific-supertype resolution written inline, with registrations
 * attributed to a "current source" slot that the build sets around each
 * provider's initialisation.
 */
module ApiComponentModel {
  import opened Types
  import SubTypeAwareMap
  import StringOrder

  /** A registered handler and the source (provider) current when it was registered. */
  datatype ResourceExtension = ResourceExtension(handler: HandlerId, source: ProviderId)

  datatype Model = Model(resourceExtensions: map<TypeId, ResourceExtension>, currentSource: Option<ProviderId>)

  datatype ModelError =
    | AlreadyRegistered(resourceType: TypeId, registeredBy: ProviderId)
    | NotWithinInitialize
      /** The most specific candidates, each with the source that registered it. */
    | UndeterminedHandler(resourceType: TypeId, candidates: seq<(TypeId, ProviderId)>)
    | UnknownResourceType(resourceType: TypeId, known: set<TypeId>)

  function Empty(): (m: Model)
    ensures m.resourceExtensions == map[] && m.currentSource.None?
  {
    Model(map[], None)
  }

  /** `initializing`: replaces the current-source slot and nothing else. */
  function Initializing(m: Model, source: Option<ProviderId>): (r: Model)
    ensures r.currentSource == source
    ensures r.resourceExtensions == m.resourceExtensions
  {
    m.(currentSource := source)
  }

  /** `addResource`: exact-type duplicate check first, then the current-source check. */
  function AddResource(m: Model, t: TypeId, h: HandlerId): (r: Result<Model, ModelError>)
    ensures t in m.resourceExtensions ==> r == Err(AlreadyRegistered(t, m.resourceExtensions[t].source))
    ensures t !in m.resourceExtensions && m.currentSource.None? ==> r == Err(NotWithinInitialize)
    ensures r.Ok? <==> t !in m.resourceExtensions && m.currentSource.Some?
    ensures r.Ok? ==>
      && r.value.currentSource == m.currentSource
      && r.value.resourceExtensions.Keys == m.resourceExtensions.Keys + {t}
      && r.value.resourceExtensions[t] == ResourceExtension(h, m.currentSource.value)
      && forall k :: k in m.resourceExtensions ==> r.value.resourceExtensions[k] == m.resourceExtensions[k]
  {
    if t in m.resourceExtensions then Err(AlreadyRegistered(t, m.resourceExtensions[t].source))
    else if m.currentSource.None? then Err(NotWithinInitialize)
    else Ok(m.(resourceExtensions := m.resourceExtensions[t := ResourceExtension(h, m.currentSource.value)]))
  }

  /** Pairs each named class with the source of its registration. */
  function WithSources(exts: map<TypeId, ResourceExtension>, names: seq<TypeId>): (r: seq<(TypeId, ProviderId)>)
    requires forall i :: 0 <= i < |names| ==> names[i] in exts
    ensures |r| == |names|
    ensures forall i :: 0 <= i < |names| ==> r[i] == (names[i], exts[names[i]].source)
  {
    if names == [] then [] else [(names[0], exts[names[0]].source)] + WithSources(exts, names[1..])
  }

  /**
   * `resourceExtension`: the exact entry, else the single registered
   * supertype left once supertypes of other candidates are removed.
   */
  function Lookup(sub: SubtypeRel, m: Model, t: TypeId): (r: Result<Option<ResourceExtension>, ModelError>)
    ensures t in m.resourceExtensions ==> r == Ok(Some(m.resourceExtensions[t]))
    ensures r.Err? ==> r.error.UndeterminedHandler? && r.error.resourceType == t && |r.error.candidates| >= 2
  {
    match SubTypeAwareMap.GetOrSub(sub, m.resourceExtensions, t)
    case Ok(found) => Ok(found)
    case Err(Ambiguous(_, candidates)) =>
      var survivors := SubTypeAwareMap.RemoveSuperTypes(sub, SubTypeAwareMap.Candidates(sub, m.resourceExtensions, SubTypeAwareMap.OrSub, t));
      assert forall i :: 0 <= i < |candidates| ==> candidates[i] in survivors;
      Err(UndeterminedHandler(t, WithSources(m.resourceExtensions, candidates)))
  }

  /** `hasType`: whether a handler resolves; an ambiguity propagates as an error. */
  function HasType(sub: SubtypeRel, m: Model, t: TypeId): (r: Result<bool, ModelError>)
    ensures t in m.resourceExtensions ==> r == Ok(true)
    ensures r.Err? <==> Lookup(sub, m, t).Err?
  {
    var found :- Lookup(sub, m, t);
    Ok(found.Some?)
  }

  /** `resourceHandler`: the resolved handler, or an error listing the known types. */
  function ResourceHandler(sub: SubtypeRel, m: Model, t: TypeId): (r: Result<HandlerId, ModelError>)
    ensures t in m.resourceExtensions ==> r == Ok(m.resourceExtensions[t].handler)
    ensures r.Err? ==> r.error.UndeterminedHandler? || r.error == UnknownResourceType(t, m.resourceExtensions.Keys)
  {
    var found :- Lookup(sub, m, t);
    if found.None? then Err(UnknownResourceType(t, m.resourceExtensions.Keys))
    else Ok(found.value.handler)
  }

  /**
   * Resolution picks the most specific registered supertype; zero registered
   * supertypes is absence; supertypes without a most specific one are an
   * error.
   */
  lemma ResolutionMostSpecific(sub: SubtypeRel, m: Model, t: TypeId)
    requires PartialOrder(sub)
    ensures forall s :: SubTypeAwareMap.MostSpecificSuper(sub, m.resourceExtensions, t, s) ==>
      ResourceHandler(sub, m, t) == Ok(m.resourceExtensions[s].handler)
    ensures ResourceHandler(sub, m, t) == Err(UnknownResourceType(t, m.resourceExtensions.Keys)) <==>
      forall k :: k in m.resourceExtensions ==> !sub(t, k)
    ensures HasType(sub, m, t).Err? <==>
      (exists k :: k in m.resourceExtensions && sub(t, k))
      && forall s :: !SubTypeAwareMap.MostSpecificSuper(sub, m.resourceExtensions, t, s)
  {
    SubTypeAwareMap.GetOrSubMostSpecific(sub, m.resourceExtensions, t);
  }

  /**
   * An ambiguity names registered supertypes of the requested type, each with
   * the source that registered it, no two of them related.
   */
  lemma AmbiguityNamesUnrelatedSources(sub: SubtypeRel, m: Model, t: TypeId)
    requires Lookup(sub, m, t).Err?
    ensures forall i, j :: 0 <= i < |Lookup(sub, m, t).error.candidates| && 0 <= j < |Lookup(sub, m, t).error.candidates| && i != j ==>
      var (a, sa) := Lookup(sub, m, t).error.candidates[i];
      var (b, _) := Lookup(sub, m, t).error.candidates[j];
      a in m.resourceExtensions && sub(t, a) && sa == m.resourceExtensions[a].source && !sub(b, a)
  {
    var g := SubTypeAwareMap.GetOrSub(sub, m.resourceExtensions, t);
    var names := g.error.candidates;
    var c := SubTypeAwareMap.Candidates(sub, m.resourceExtensions, SubTypeAwareMap.OrSub, t);
    var red := SubTypeAwareMap.RemoveSuperTypes(sub, c);
    assert forall i :: 0 <= i < |names| ==> names[i] in red;
    forall i, j | 0 <= i < |names| && 0 <= j < |names| && i != j
      ensures names[i] != names[j]
    {
      assert StringOrder.StrictlySorted(names);
    }
  }

  /** `hasType` holds exactly when `resourceHandler` resolves, and both report the same ambiguity. */
  lemma HasTypeAgreesWithResourceHandler(sub: SubtypeRel, m: Model, t: TypeId)
    ensures HasType(sub, m, t) == Ok(true) <==> ResourceHandler(sub, m, t).Ok?
    ensures HasType(sub, m, t) == Ok(false) <==>
      ResourceHandler(sub, m, t) == Err(UnknownResourceType(t, m.resourceExtensions.Keys))
    ensures HasType(sub, m, t).Err? ==> ResourceHandler(sub, m, t) == Err(HasType(sub, m, t).error)
  {
  }

  /**
   * Registering inside an `initializing(Some(p))` window attributes the
   * handler to `p`; once the window is closed with `initializing(None)` the
   * registration stays and any further new registration is refused.
   */
  lemma RegistrationWithinWindow(sub: SubtypeRel, m: Model, p: ProviderId, t: TypeId, h: HandlerId)
    requires t !in m.resourceExtensions
    ensures var during := Initializing(m, Some(p));
      && AddResource(during, t, h).Ok?
      && var closed := Initializing(AddResource(during, t, h).value, None);
      && closed.resourceExtensions[t] == ResourceExtension(h, p)
      && ResourceHandler(sub, closed, t) == Ok(h)
      && forall t2, h2 :: t2 !in closed.resourceExtensions ==> AddResource(closed, t2, h2) == Err(NotWithinInitialize)
  {
  }
}
