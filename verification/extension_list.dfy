/**
 * What both context builders do with the extensions their providers or
 * builders produced: group them by concrete class, fail if any class was
 * produced twice, and order the survivors by class name.
 */
module ExtensionList {
  import opened Types
  import StringOrder

  /** No two extensions share a concrete class. */
  predicate ClassesDistinct(exts: seq<Extension>) {
    forall i, j :: 0 <= i < j < |exts| ==> exts[i].cls != exts[j].cls
  }

  /** Ordered by concrete class name, each class once. */
  predicate SortedByClass(exts: seq<Extension>) {
    forall i, j :: 0 <= i < j < |exts| ==> StringOrder.LessEq(exts[i].cls, exts[j].cls) && exts[i].cls != exts[j].cls
  }

  function Classes(exts: seq<Extension>): (s: set<TypeId>)
    ensures forall c :: c in s <==> exists i :: 0 <= i < |exts| && exts[i].cls == c
  {
    set i | 0 <= i < |exts| :: exts[i].cls
  }

  /** Index of the first extension whose class already occurred earlier in the list. */
  function FirstRepeat(exts: seq<Extension>): (k: Option<nat>)
    ensures k.None? <==> ClassesDistinct(exts)
    ensures k.Some? ==>
      && k.value < |exts|
      && (exists j :: 0 <= j < k.value && exts[j].cls == exts[k.value].cls)
      && ClassesDistinct(exts[..k.value])
  {
    if |exts| == 0 then None
    else
      var init := exts[..|exts| - 1];
      var last := exts[|exts| - 1];
      match FirstRepeat(init)
      case Some(k) =>
        assert exts[..k] == init[..k];
        Some(k)
      case None =>
        if exists j :: 0 <= j < |init| && init[j].cls == last.cls then
          assert exts[..|exts| - 1] == init;
          Some(|exts| - 1)
        else
          None
  }

  /**
   * `createExtensions`' grouping: every class produced once survives; a class
   * produced twice fails the whole list.
   */
  function CheckClash(exts: seq<Extension>): (r: Result<seq<Extension>, TypeId>)
    ensures r.Ok? <==> ClassesDistinct(exts)
    ensures r.Ok? ==> r.value == exts
    ensures r.Err? ==> exists i, j :: 0 <= i < j < |exts| && exts[i].cls == exts[j].cls && exts[i].cls == r.error
  {
    match FirstRepeat(exts)
    case None => Ok(exts)
    case Some(k) => Err(exts[k].cls)
  }

  /** The extension of class `c` in a list whose classes are distinct. */
  function ByClass(exts: seq<Extension>, c: TypeId): (e: Extension)
    requires c in Classes(exts)
    ensures e in exts && e.cls == c
  {
    if exts[0].cls == c then exts[0] else ByClass(exts[1..], c)
  }

  function ByClassAll(exts: seq<Extension>, cs: seq<TypeId>): (r: seq<Extension>)
    requires forall i :: 0 <= i < |cs| ==> cs[i] in Classes(exts)
    ensures |r| == |cs|
    ensures forall i :: 0 <= i < |cs| ==> r[i] in exts && r[i].cls == cs[i]
  {
    if cs == [] then [] else [ByClass(exts, cs[0])] + ByClassAll(exts, cs[1..])
  }

  /** The extensions ordered by concrete class name. */
  function SortByClass(exts: seq<Extension>): (r: seq<Extension>)
    requires ClassesDistinct(exts)
    ensures |r| == |exts|
    ensures SortedByClass(r)
    ensures forall e :: e in r <==> e in exts
  {
    var cs := StringOrder.SortedElements(Classes(exts));
    SortByClassFacts(exts, cs);
    ByClassAll(exts, cs)
  }

  lemma SortByClassFacts(exts: seq<Extension>, cs: seq<TypeId>)
    requires ClassesDistinct(exts)
    requires cs == StringOrder.SortedElements(Classes(exts))
    ensures |ByClassAll(exts, cs)| == |exts|
    ensures SortedByClass(ByClassAll(exts, cs))
    ensures forall e :: e in exts ==> e in ByClassAll(exts, cs)
  {
    DistinctClassesCount(exts);
    var r := ByClassAll(exts, cs);
    assert forall i :: 0 <= i < |r| ==> r[i].cls == cs[i];
    forall e | e in exts
      ensures e in r
    {
      assert e.cls in Classes(exts);
      PickedByClass(exts, cs, e);
    }
  }

  lemma PickedByClass(exts: seq<Extension>, cs: seq<TypeId>, e: Extension)
    requires ClassesDistinct(exts)
    requires forall i :: 0 <= i < |cs| ==> cs[i] in Classes(exts)
    requires e.cls in cs
    requires e in exts
    ensures e in ByClassAll(exts, cs)
  {
    var r := ByClassAll(exts, cs);
    var k :| 0 <= k < |exts| && exts[k] == e;
    var i :| 0 <= i < |cs| && cs[i] == e.cls;
    var j :| 0 <= j < |exts| && exts[j] == r[i];
    assert exts[j].cls == exts[k].cls;
  }

  lemma {:induction false} DistinctClassesCount(exts: seq<Extension>)
    requires ClassesDistinct(exts)
    ensures |Classes(exts)| == |exts|
  {
    if exts != [] {
      var init := exts[..|exts| - 1];
      DistinctClassesCount(init);
      assert Classes(exts) == Classes(init) + {exts[|exts| - 1].cls};
      assert exts[|exts| - 1].cls !in Classes(init);
    }
  }

  /**
   * The order is fixed by the extensions alone: two class-sorted lists with
   * the same members are the same list, whatever order the providers ran in.
   */
  lemma {:induction false} SortedByClassUnique(a: seq<Extension>, b: seq<Extension>)
    requires SortedByClass(a) && SortedByClass(b)
    requires forall e :: e in a <==> e in b
    ensures a == b
    decreases |a|
  {
    SameMembersBothEmpty(a, b);
    if a != [] {
      assert a[0] in b && b[0] in a;
      var i :| 0 <= i < |b| && b[i] == a[0];
      var j :| 0 <= j < |a| && a[j] == b[0];
      if i != 0 {
        assert StringOrder.LessEq(b[0].cls, a[0].cls) && b[0].cls != a[0].cls;
        assert j != 0;
        assert StringOrder.LessEq(a[0].cls, b[0].cls);
        StringOrder.Antisymmetric(a[0].cls, b[0].cls);
        assert false;
      }
      assert a[0] == b[0];
      forall e
        ensures e in a[1..] <==> e in b[1..]
      {
        if e in a[1..] {
          var k :| 1 <= k < |a| && a[k] == e;
          assert e.cls != a[0].cls;
          assert e in a && e in b;
          var m :| 0 <= m < |b| && b[m] == e;
          assert m != 0;
          assert b[1..][m - 1] == e;
        }
        if e in b[1..] {
          var k :| 1 <= k < |b| && b[k] == e;
          assert e.cls != b[0].cls;
          assert e in b && e in a;
          var m :| 0 <= m < |a| && a[m] == e;
          assert m != 0;
          assert a[1..][m - 1] == e;
        }
      }
      SortedByClassUnique(a[1..], b[1..]);
      assert a == [a[0]] + a[1..] && b == [b[0]] + b[1..];
    }
  }

  lemma SameMembersBothEmpty(a: seq<Extension>, b: seq<Extension>)
    requires forall e :: e in a <==> e in b
    ensures a == [] <==> b == []
  {
    if a != [] {
      assert a[0] in b;
    }
    if b != [] {
      assert b[0] in a;
    }
  }

  /** A class-sorted list of extensions has no repeated class and no repeated extension. */
  lemma SortedIsDistinct(exts: seq<Extension>)
    requires SortedByClass(exts)
    ensures ClassesDistinct(exts)
    ensures forall i, j :: 0 <= i < j < |exts| ==> exts[i] != exts[j]
  {
  }
}
