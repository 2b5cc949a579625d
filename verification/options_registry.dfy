/**
 * The current option registry (`options.Options`): options keyed by their
 * concrete class in a subtype-aware map, looked up by a requested type that
 * any registered subtype satisfies, with a set of concrete classes nobody has
 * asked for yet.
 */
module OptionsRegistry {
  import opened Types
  import SubTypeAwareMap
  import ApiOptions

  /**
   * The registry's state, `add` and `unused` are those of `api.Options`
   * (`ApiOptions.Registry`, `ApiOptions.Add`, `ApiOptions.Unused`): only the
   * lookup differs.
   */
  type Registry = ApiOptions.Registry

  datatype OptionsError = AmbiguousOption(requested: TypeId)

  /** A registry's state and what a `get` answered. */
  datatype Got = Got(registry: Registry, result: Result<Option<ExtensionOptions>, OptionsError>)

  /**
   * `get` as written: marks the REQUESTED type used — also when the lookup
   * then fails — and resolves it with `getOrSuper`.
   */
  function Get(sub: SubtypeRel, r: Registry, t: TypeId): (g: Got)
    ensures g.registry == ApiOptions.Registry(r.options, r.unused - {t})
    ensures ApiOptions.Valid(r) ==> ApiOptions.Valid(g.registry)
    ensures t in r.options ==> g.result == Ok(Some(r.options[t]))
    ensures g.result.Ok? && g.result.value.Some? ==>
      exists s :: s in r.options && (s == t || sub(s, t)) && g.result.value.value == r.options[s]
    ensures g.result.Err? ==> t !in r.options && g.result.error == AmbiguousOption(t)
  {
    var marked := r.(unused := r.unused - {t});
    match SubTypeAwareMap.GetOrSuper(sub, r.options, t)
    case Ok(found) => Got(marked, Ok(found))
    case Err(_) => Got(marked, Err(AmbiguousOption(t)))
  }

  /**
   * `get` as evidently intended: also marks the concrete class of the option
   * it hands back as used.
   */
  function GetMarkingResolved(sub: SubtypeRel, r: Registry, t: TypeId): (g: Got)
    ensures g.result == Get(sub, r, t).result
    ensures g.registry.options == r.options
    ensures ApiOptions.Valid(r) ==> ApiOptions.Valid(g.registry)
    ensures g.result.Ok? && g.result.value.Some? ==> g.registry.unused == r.unused - {t, g.result.value.value.cls}
    ensures !(g.result.Ok? && g.result.value.Some?) ==> g.registry.unused == r.unused - {t}
  {
    var got := Get(sub, r, t);
    if got.result.Ok? && got.result.value.Some? then
      Got(got.registry.(unused := got.registry.unused - {got.result.value.value.cls}), got.result)
    else got
  }

  /**
   * Looking up a registered option by its own class finds it and takes it
   * off the unused list, leaving every other unused option there.
   */
  lemma AddThenGetExact(sub: SubtypeRel, r: Registry, o: ExtensionOptions)
    requires ApiOptions.Valid(r) && o.cls !in r.options
    ensures var added := ApiOptions.Add(r, o).value;
      && o in ApiOptions.Unused(added)
      && Get(sub, added, o.cls).result == Ok(Some(o))
      && ApiOptions.Unused(Get(sub, added, o.cls).registry) == ApiOptions.Unused(r)
  {
    var added := ApiOptions.Add(r, o).value;
    var after := Get(sub, added, o.cls).registry;
    assert o.cls in added.unused && added.options[o.cls] == o;
    forall x | x in ApiOptions.Unused(after)
      ensures x in ApiOptions.Unused(r)
    {
      var k :| k in after.options && after.options[k] == x;
      assert k == x.cls && k != o.cls;
    }
    forall x | x in ApiOptions.Unused(r)
      ensures x in ApiOptions.Unused(after)
    {
      var k :| k in r.options && r.options[k] == x;
      assert k == x.cls && after.options[k] == x;
    }
  }

  /**
   * The requested type resolves to the deepest registered subtype, is empty
   * when no registered class is a subtype of it, and is ambiguous when there
   * are subtypes but no deepest one.
   */
  lemma GetResolvesDeepestSubtype(sub: SubtypeRel, r: Registry, t: TypeId)
    requires PartialOrder(sub)
    ensures t !in r.options ==>
      forall s :: SubTypeAwareMap.DeepestSub(sub, r.options, t, s) ==> Get(sub, r, t).result == Ok(Some(r.options[s]))
    ensures Get(sub, r, t).result == Ok(None) <==> forall k :: k in r.options ==> !sub(k, t)
    ensures Get(sub, r, t).result.Err? <==>
      t !in r.options && (exists k :: k in r.options && sub(k, t)) && forall s :: !SubTypeAwareMap.DeepestSub(sub, r.options, t, s)
  {
    SubTypeAwareMap.GetOrSuperDeepest(sub, r.options, t);
  }

  /**
   * As written, a lookup by a supertype hands back the registered option but
   * leaves it on the unused list.
   */
  lemma GetBySupertypeLeavesOptionUnused(sub: SubtypeRel, base: TypeId, o: ExtensionOptions)
    requires PartialOrder(sub)
    requires o.cls != base && sub(o.cls, base)
    ensures ApiOptions.Add(ApiOptions.Empty(), o).Ok?
    ensures var g := Get(sub, ApiOptions.Add(ApiOptions.Empty(), o).value, base);
      g.result == Ok(Some(o)) && ApiOptions.Unused(g.registry) == {o}
  {
    var added := ApiOptions.Add(ApiOptions.Empty(), o).value;
    assert added.options == map[o.cls := o];
    assert SubTypeAwareMap.DeepestSub(sub, added.options, base, o.cls);
    GetResolvesDeepestSubtype(sub, added, base);
    var g := Get(sub, added, base);
    assert g.registry.unused == {o.cls};
    assert o in ApiOptions.Unused(g.registry);
  }

  /** The corrected lookup leaves no option it handed back on the unused list. */
  lemma GetMarkingResolvedMarksUsed(sub: SubtypeRel, r: Registry, t: TypeId)
    requires ApiOptions.Valid(r)
    ensures var g := GetMarkingResolved(sub, r, t);
      g.result.Ok? && g.result.value.Some? ==>
        && g.result.value.value !in ApiOptions.Unused(g.registry)
        && ApiOptions.Unused(g.registry) == ApiOptions.Unused(r) - {g.result.value.value}
  {
    var g := GetMarkingResolved(sub, r, t);
    if g.result.Ok? && g.result.value.Some? {
      var o := g.result.value.value;
      var s :| s in r.options && (s == t || sub(s, t)) && o == r.options[s];
      assert o.cls == s;
      forall x | x in ApiOptions.Unused(r) - {o}
        ensures x in ApiOptions.Unused(g.registry)
      {
        var k :| k in r.options && r.options[k] == x;
        assert k == x.cls && k != t;
      }
    }
  }

  /** The corrected lookup by a supertype leaves nothing unused in the same scenario. */
  lemma GetMarkingResolvedBySupertype(sub: SubtypeRel, base: TypeId, o: ExtensionOptions)
    requires PartialOrder(sub)
    requires o.cls != base && sub(o.cls, base)
    ensures ApiOptions.Add(ApiOptions.Empty(), o).Ok?
    ensures var g := GetMarkingResolved(sub, ApiOptions.Add(ApiOptions.Empty(), o).value, base);
      g.result == Ok(Some(o)) && ApiOptions.Unused(g.registry) == {}
  {
    GetBySupertypeLeavesOptionUnused(sub, base, o);
    GetMarkingResolvedMarksUsed(sub, ApiOptions.Add(ApiOptions.Empty(), o).value, base);
  }
}
