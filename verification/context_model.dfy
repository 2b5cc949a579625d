/**
 * The oldest resource-handler registry (`context.api.Model`): a lookup that
 * does not reduce candidates — any two registered supertypes of a class make
 * it ambiguous — and a duplicate check that goes through that lookup, so
 * registering a subtype of an already handled type is refused.
 */
module ContextModel {
  import opened Types
  import StringOrder

  datatype ResourceExtension = ResourceExtension(handler: HandlerId, provider: ProviderId)

  datatype Model = Model(resourceExtensions: map<TypeId, ResourceExtension>, currentProvider: Option<ProviderId>)

  datatype ModelError =
    | AlreadyRegistered(resourceType: TypeId, registeringProvider: ProviderId)
    | NotWithinInitialize
    | MultipleHandlers(resourceType: TypeId)
    | UnknownResourceType(resourceType: TypeId)

  /** Registered classes that instances of `t` are assignable to. */
  function Supertypes(sub: SubtypeRel, m: Model, t: TypeId): (r: set<TypeId>)
    ensures forall k :: k in r <==> k in m.resourceExtensions && sub(t, k)
  {
    set k | k in m.resourceExtensions && sub(t, k)
  }

  /**
   * `resourceExtension`: the exact entry, else the one registered supertype,
   * else absent; two or more registered supertypes are an error.
   */
  function Lookup(sub: SubtypeRel, m: Model, t: TypeId): (r: Result<Option<ResourceExtension>, ModelError>)
    ensures t in m.resourceExtensions ==> r == Ok(Some(m.resourceExtensions[t]))
    ensures t !in m.resourceExtensions ==>
      && (r == Ok(None) <==> Supertypes(sub, m, t) == {})
      && (r.Err? <==> |Supertypes(sub, m, t)| >= 2)
      && (r.Err? ==> r.error == MultipleHandlers(t))
      && (r.Ok? && r.value.Some? ==> exists k :: Supertypes(sub, m, t) == {k} && r.value.value == m.resourceExtensions[k])
  {
    if t in m.resourceExtensions then Ok(Some(m.resourceExtensions[t]))
    else
      var found := Supertypes(sub, m, t);
      if |found| == 0 then Ok(None)
      else if |found| == 1 then
        var k := StringOrder.Minimum(found);
        assert found == {k} by {
          assert |found - {k}| == 0;
        }
        Ok(Some(m.resourceExtensions[k]))
      else Err(MultipleHandlers(t))
  }

  /**
   * `addResource`: refused when the type already resolves — exactly or via a
   * registered supertype — with the lookup's ambiguity propagating; then
   * refused outside an initialisation window.
   */
  function AddResource(sub: SubtypeRel, m: Model, t: TypeId, h: HandlerId): (r: Result<Model, ModelError>)
    ensures Lookup(sub, m, t).Err? ==> r == Err(Lookup(sub, m, t).error)
    ensures Lookup(sub, m, t) == Ok(None) && m.currentProvider.None? ==> r == Err(NotWithinInitialize)
    ensures t in m.resourceExtensions ==> r == Err(AlreadyRegistered(t, m.resourceExtensions[t].provider))
    ensures Lookup(sub, m, t).Ok? && Lookup(sub, m, t).value.Some? ==>
      r == Err(AlreadyRegistered(t, Lookup(sub, m, t).value.value.provider))
    ensures r.Ok? <==> t !in m.resourceExtensions && Supertypes(sub, m, t) == {} && m.currentProvider.Some?
    ensures r.Ok? ==>
      && t !in m.resourceExtensions
      && Supertypes(sub, m, t) == {}
      && r.value.currentProvider == m.currentProvider
      && r.value.resourceExtensions == m.resourceExtensions[t := ResourceExtension(h, m.currentProvider.value)]
    ensures r.Err? && r.error.AlreadyRegistered? ==>
      && r.error.resourceType == t
      && exists k :: k in m.resourceExtensions && (k == t || sub(t, k)) && r.error.registeringProvider == m.resourceExtensions[k].provider
  {
    var existing :- Lookup(sub, m, t);
    if existing.Some? then Err(AlreadyRegistered(t, existing.value.provider))
    else if m.currentProvider.None? then Err(NotWithinInitialize)
    else Ok(m.(resourceExtensions := m.resourceExtensions[t := ResourceExtension(h, m.currentProvider.value)]))
  }

  function HasType(sub: SubtypeRel, m: Model, t: TypeId): (r: Result<bool, ModelError>)
    ensures r.Err? <==> Lookup(sub, m, t).Err?
    ensures r == Ok(true) <==> t in m.resourceExtensions || |Supertypes(sub, m, t)| == 1
  {
    var found :- Lookup(sub, m, t);
    Ok(found.Some?)
  }

  function ResourceHandler(sub: SubtypeRel, m: Model, t: TypeId): (r: Result<HandlerId, ModelError>)
    ensures t in m.resourceExtensions ==> r == Ok(m.resourceExtensions[t].handler)
    ensures r == Err(UnknownResourceType(t)) <==> t !in m.resourceExtensions && Supertypes(sub, m, t) == {}
    ensures r.Err? ==> r.error == MultipleHandlers(t) || r.error == UnknownResourceType(t)
  {
    var found :- Lookup(sub, m, t);
    if found.None? then Err(UnknownResourceType(t))
    else Ok(found.value.handler)
  }

  /** `initializing`: replaces the current-provider slot and nothing else. */
  function Initializing(m: Model, provider: Option<ProviderId>): (r: Model)
    ensures r.currentProvider == provider && r.resourceExtensions == m.resourceExtensions
  {
    m.(currentProvider := provider)
  }

  /**
   * A successful registration resolves the new type to its handler and keeps
   * every earlier exact resolution.
   */
  lemma AddKeepsExactResolutions(sub: SubtypeRel, m: Model, t: TypeId, h: HandlerId)
    requires AddResource(sub, m, t, h).Ok?
    ensures ResourceHandler(sub, AddResource(sub, m, t, h).value, t) == Ok(h)
    ensures forall k :: k in m.resourceExtensions ==>
      ResourceHandler(sub, AddResource(sub, m, t, h).value, k) == Ok(m.resourceExtensions[k].handler)
  {
    var m2 := AddResource(sub, m, t, h).value;
    forall k | k in m.resourceExtensions
      ensures ResourceHandler(sub, m2, k) == Ok(m.resourceExtensions[k].handler)
    {
      assert k != t && m2.resourceExtensions[k] == m.resourceExtensions[k];
    }
  }

  /**
   * Once a type is registered, registering any of its subtypes fails: as a
   * duplicate of that registration when it is the only registered
   * supertype, and as an ambiguity when there are others.
   */
  lemma SubtypeOfRegisteredIsRefused(sub: SubtypeRel, m: Model, base: TypeId, t: TypeId, h: HandlerId)
    requires base in m.resourceExtensions && sub(t, base)
    ensures AddResource(sub, m, t, h).Err?
    ensures t !in m.resourceExtensions && Supertypes(sub, m, t) == {base} ==>
      AddResource(sub, m, t, h) == Err(AlreadyRegistered(t, m.resourceExtensions[base].provider))
    ensures t !in m.resourceExtensions && Supertypes(sub, m, t) != {base} ==>
      AddResource(sub, m, t, h) == Err(MultipleHandlers(t))
  {
    assert base in Supertypes(sub, m, t);
    if t !in m.resourceExtensions && Supertypes(sub, m, t) != {base} {
      var other :| other in Supertypes(sub, m, t) && other != base;
      assert {base, other} <= Supertypes(sub, m, t);
      assert |{base, other}| == 2;
    }
  }

  /**
   * A supertype of a registered type can still be registered inside an
   * initialisation window, provided it is new and has no registered supertype
   * of its own: the check looks only upwards from the new type.
   */
  lemma SupertypeAfterSubtypeAccepted(sub: SubtypeRel, m: Model, derived: TypeId, base: TypeId, h: HandlerId, p: ProviderId)
    requires derived in m.resourceExtensions && sub(derived, base)
    requires base !in m.resourceExtensions && Supertypes(sub, m, base) == {}
    ensures AddResource(sub, Initializing(m, Some(p)), base, h).Ok?
    ensures var m2 := AddResource(sub, Initializing(m, Some(p)), base, h).value;
      && ResourceHandler(sub, m2, base) == Ok(h)
      && ResourceHandler(sub, m2, derived) == Ok(m.resourceExtensions[derived].handler)
  {
    assert Supertypes(sub, Initializing(m, Some(p)), base) == {};
  }
}
