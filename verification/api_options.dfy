/**
 * The earlier option registry (`api.Options`): options keyed by concrete
 * class and looked up by exact class only, with the set of classes not yet
 * asked for.
 */
module ApiOptions {
  import opened Types

  datatype Registry = Registry(options: map<TypeId, ExtensionOptions>, unused: set<TypeId>)

  datatype Got = Got(registry: Registry, result: Option<ExtensionOptions>)

  ghost predicate Valid(r: Registry) {
    && r.unused <= r.options.Keys
    && forall k :: k in r.options ==> r.options[k].cls == k
  }

  function Empty(): (r: Registry)
    ensures Valid(r) && r.options == map[] && r.unused == {}
  {
    Registry(map[], {})
  }

  /** `add`: a second option of the same concrete class is refused and changes nothing. */
  function Add(r: Registry, o: ExtensionOptions): (res: Result<Registry, TypeId>)
    ensures res.Err? <==> o.cls in r.options
    ensures res.Err? ==> res.error == o.cls
    ensures res.Ok? ==> res.value.options == r.options[o.cls := o] && res.value.unused == r.unused + {o.cls}
    ensures Valid(r) && res.Ok? ==> Valid(res.value)
  {
    if o.cls in r.options then Err(o.cls)
    else Ok(Registry(r.options[o.cls := o], r.unused + {o.cls}))
  }

  /** `get`: exact-class lookup that marks the requested class used. */
  function Get(r: Registry, t: TypeId): (g: Got)
    ensures g.registry.options == r.options
    ensures Valid(r) ==> Valid(g.registry)
    ensures Valid(r) ==> (g.result.Some? <==> t in r.options)
    ensures Valid(r) && g.result.Some? ==> g.result.value.cls == t
    ensures g.result.Some? ==> g.result.value in r.options.Values
    ensures g.registry.unused == r.unused - {t}
  {
    Got(r.(unused := r.unused - {t}), if t in r.options then Some(r.options[t]) else None)
  }

  /** `unused`: the options whose class is still unused. */
  function Unused(r: Registry): (u: set<ExtensionOptions>)
    requires Valid(r)
    ensures forall o :: o in u <==> o in r.options.Values && o.cls in r.unused
  {
    set k | k in r.unused :: r.options[k]
  }

  /**
   * A `get` hands back exactly the option registered under that class and
   * takes exactly that option off the unused list.
   */
  lemma GetMarksExactlyThatOptionUsed(r: Registry, t: TypeId)
    requires Valid(r)
    ensures Get(r, t).result.Some? ==> Unused(Get(r, t).registry) == Unused(r) - {Get(r, t).result.value}
    ensures Get(r, t).result.None? ==> Unused(Get(r, t).registry) == Unused(r)
  {
    var after := Get(r, t).registry;
    forall x | x in Unused(r) && x.cls != t
      ensures x in Unused(after)
    {
      var k :| k in r.options && r.options[k] == x;
      assert k == x.cls;
    }
  }

  /** Every added option starts unused; asking for each by its class leaves nothing unused. */
  lemma AddedOptionsAreUnusedUntilAskedFor(r: Registry, o: ExtensionOptions)
    requires Valid(r) && o.cls !in r.options
    ensures Unused(Add(r, o).value) == Unused(r) + {o}
    ensures Get(Add(r, o).value, o.cls).result == Some(o)
  {
    var added := Add(r, o).value;
    forall x | x in Unused(added)
      ensures x in Unused(r) + {o}
    {
      var k :| k in added.options && added.options[k] == x;
      if k != o.cls {
        assert r.options[k] == x;
      }
    }
    forall x | x in Unused(r)
      ensures x in Unused(added)
    {
      var k :| k in r.options && r.options[k] == x;
      assert added.options[k] == x;
    }
  }

  /** Lookup is exact: a registered subtype never answers for its supertype. */
  lemma NoSubtypeResolution(r: Registry, base: TypeId, o: ExtensionOptions)
    requires Valid(r) && o.cls !in r.options && o.cls != base && base !in r.options
    ensures Get(Add(r, o).value, base).result == None
    ensures Unused(Get(Add(r, o).value, base).registry) == Unused(Add(r, o).value)
  {
    GetMarksExactlyThatOptionUsed(Add(r, o).value, base);
  }
}
