/**
 * Vocabulary shared by every registry of the model: class identifiers, the
 * subtype relation between them, and the Option/Result wrappers that stand in
 * for Java's `Optional` and for thrown exceptions.
 */
module Types {

  /** A Java class, identified by its fully qualified name (`Class.getName()`). */
  type TypeId = string

  /**
   * `sub(a, b)` holds when a value of class `a` is assignable to class `b`,
   * i.e. Java's `b.isAssignableFrom(a)`. The relation is a parameter of every
   * lookup; where a proof needs it, it is required to be a partial order.
   */
  type SubtypeRel = (TypeId, TypeId) -> bool

  ghost predicate PartialOrder(sub: SubtypeRel) {
    && (forall a :: sub(a, a))
    && (forall a, b, c :: sub(a, b) && sub(b, c) ==> sub(a, c))
    && (forall a, b :: sub(a, b) && sub(b, a) ==> a == b)
  }

  /** Identifier of an extension provider class (`CreekExtensionProvider`). */
  type ProviderId = string

  /** Opaque identity of a `ResourceHandler` instance. */
  type HandlerId = nat

  /** Java's `Optional<T>`. */
  datatype Option<+T> = None | Some(value: T)

  /** A value, or the exception a Java call would have thrown instead. */
  datatype Result<+T, +E> = Ok(value: T) | Err(error: E) {

    predicate IsFailure() {
      Err?
    }

    function PropagateFailure<U>(): Result<U, E>
      requires Err?
    {
      Err(error)
    }

    function Extract(): T
      requires Ok?
    {
      value
    }
  }

  /** An extension instance: its concrete class and the name it reports. */
  datatype Extension = Extension(cls: TypeId, name: string)

  /** What a provider's (or builder's) callback hands back once its work is done. */
  datatype CallbackResult =
    | Returns(ext: Extension)
    | ReturnsNull
    | Throws

  /** A `CreekExtensionOptions` instance: its concrete class and an identity. */
  datatype ExtensionOptions = ExtensionOptions(cls: TypeId, id: nat)

  /** A resource descriptor declared by a component: its id and concrete class. */
  datatype Resource = Resource(id: string, cls: TypeId)

  /** The time source bound into a built context. */
  datatype Clock = AccurateClock | ExplicitClock(id: nat)

  /** The clock a builder binds: the one last given to `with(clock)`, else the accurate clock. */
  function ChooseClock(explicit: Option<Clock>): (c: Clock)
    ensures explicit.Some? ==> c == explicit.value
    ensures explicit.None? ==> c == AccurateClock
  {
    match explicit
    case Some(c) => c
    case None => AccurateClock
  }

  function Names(exts: seq<Extension>): (r: seq<string>)
    ensures |r| == |exts|
    ensures forall i :: 0 <= i < |exts| ==> r[i] == exts[i].name
  {
    if exts == [] then [] else [exts[0].name] + Names(exts[1..])
  }
}
