/**
 * The legacy context (`org.creek` `Context`): the clock and the built
 * extensions keyed by their concrete class, looked up by exact class only.
 */
module CreekContext {
  import opened Types
  import ExtensionList

  datatype Context = Context(clock: Clock, extensions: map<TypeId, Extension>)

  datatype ContextError =
    | ExtensionTypeClash(extensionType: TypeId)
      /** The requested class and every installed extension (the message lists their names). */
    | UnknownExtension(requested: TypeId, installed: set<Extension>)

  /** Each extension of a class-distinct list, keyed by its class. */
  function KeyByClass(exts: seq<Extension>): (m: map<TypeId, Extension>)
    requires ExtensionList.ClassesDistinct(exts)
    ensures m.Keys == ExtensionList.Classes(exts)
    ensures forall i :: 0 <= i < |exts| ==> m[exts[i].cls] == exts[i]
    ensures forall k :: k in m ==> m[k].cls == k && m[k] in exts
  {
    map i | 0 <= i < |exts| :: exts[i].cls := exts[i]
  }

  /**
   * The constructor: collecting by concrete class fails on the first class
   * met a second time, otherwise every extension is kept under its class.
   */
  function Create(clock: Clock, exts: seq<Extension>): (r: Result<Context, ContextError>)
    ensures r.Ok? <==> ExtensionList.ClassesDistinct(exts)
    ensures r.Err? ==>
      exists i, j :: 0 <= i < j < |exts| && exts[i].cls == exts[j].cls && r.error == ExtensionTypeClash(exts[i].cls)
    ensures r.Ok? ==>
      && r.value.clock == clock
      && (forall e :: e in exts ==> e.cls in r.value.extensions && r.value.extensions[e.cls] == e)
      && (forall k :: k in r.value.extensions ==> r.value.extensions[k].cls == k && r.value.extensions[k] in exts)
  {
    match ExtensionList.CheckClash(exts)
    case Err(cls) => Err(ExtensionTypeClash(cls))
    case Ok(_) => Ok(Context(clock, KeyByClass(exts)))
  }

  /** `extension`: the extension registered under exactly the requested class. */
  function GetExtension(ctx: Context, t: TypeId): (r: Result<Extension, ContextError>)
    ensures r.Ok? <==> t in ctx.extensions
    ensures r.Ok? ==> r.value == ctx.extensions[t]
    ensures r.Err? ==> r.error == UnknownExtension(t, ctx.extensions.Values)
  {
    if t in ctx.extensions then Ok(ctx.extensions[t]) else Err(UnknownExtension(t, ctx.extensions.Values))
  }

  /**
   * A context built from a list of extensions hands back, for a requested
   * class, the listed extension of exactly that class, and fails for every
   * class no listed extension has — a supertype included.
   */
  lemma ExtensionByExactClass(clock: Clock, exts: seq<Extension>, t: TypeId)
    requires ExtensionList.ClassesDistinct(exts)
    ensures Create(clock, exts).Ok?
    ensures var got := GetExtension(Create(clock, exts).value, t);
      && (got.Ok? <==> exists e :: e in exts && e.cls == t)
      && (got.Ok? ==> got.value in exts && got.value.cls == t)
      && (got.Err? ==> got.error.UnknownExtension? && got.error.installed == set e | e in exts)
  {
    var ctx := Create(clock, exts).value;
    forall e | e in ctx.extensions.Values
      ensures e in exts
    {
      var k :| k in ctx.extensions && ctx.extensions[k] == e;
    }
    forall e | e in exts
      ensures e in ctx.extensions.Values
    {
      assert ctx.extensions[e.cls] == e;
    }
  }

  /**
   * Lookup does not resolve supertypes: a single extension is not found
   * under any other class, even one it is assignable to.
   */
  lemma SupertypeNotResolved(sub: SubtypeRel, clock: Clock, e: Extension, base: TypeId)
    requires sub(e.cls, base) && e.cls != base
    ensures Create(clock, [e]).Ok?
    ensures GetExtension(Create(clock, [e]).value, base) == Err(UnknownExtension(base, {e}))
  {
    ExtensionByExactClass(clock, [e], base);
    assert (set x | x in [e]) == {e};
  }
}
