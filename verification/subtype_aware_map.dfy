/**
 * The subtype-aware map (`SubTypeAwareMap`): a map keyed by class that, when a
 * query class has no exact entry, resolves it to the most specific related
 * registered class, or reports the ambiguity.
 */
module SubTypeAwareMap {
  import opened Types
  import StringOrder

  /** `getOrSub` searches registered supertypes of the query; `getOrSuper` registered subtypes. */
  datatype Direction = OrSub | OrSuper

  datatype MapError =
    /** More than one most-specific candidate; `candidates` lists them sorted by name. */
    | Ambiguous(key: TypeId, candidates: seq<TypeId>)

  /** Whether registered class `k` takes part in a `dir` search for `key`. */
  predicate Related(sub: SubtypeRel, dir: Direction, key: TypeId, k: TypeId) {
    match dir
    case OrSub => sub(key, k)
    case OrSuper => sub(k, key)
  }

  /** The registered classes a `dir` search for `key` collects. */
  function Candidates<V>(sub: SubtypeRel, m: map<TypeId, V>, dir: Direction, key: TypeId): (c: set<TypeId>)
    ensures c <= m.Keys
  {
    set k | k in m.Keys && Related(sub, dir, key, k)
  }

  /** `e` is kept by `removeSuperTypes`: no other candidate is a subtype of it. */
  predicate Survivor(sub: SubtypeRel, c: set<TypeId>, e: TypeId) {
    e in c && forall t :: t in c && t != e ==> !sub(t, e)
  }

  /** `s` is below every candidate: the unique most specific one. */
  ghost predicate IsLeast(sub: SubtypeRel, c: set<TypeId>, s: TypeId) {
    s in c && forall t :: t in c ==> sub(s, t)
  }

  /**
   * `removeSuperTypes`: drops every candidate that is a supertype of another
   * candidate.
   */
  function RemoveSuperTypes(sub: SubtypeRel, c: set<TypeId>): (r: set<TypeId>)
    ensures r <= c
    ensures forall e, t :: e in r && t in r && t != e ==> !sub(t, e)
    ensures forall e :: e in c && e !in r ==> exists t :: t in c && t != e && sub(t, e)
  {
    set e | e in c && Survivor(sub, c, e)
  }

  /** A non-empty candidate set has a survivor, in a partial order. */
  lemma {:induction false} SurvivorExists(sub: SubtypeRel, c: set<TypeId>)
    requires PartialOrder(sub)
    requires c != {}
    ensures exists e :: Survivor(sub, c, e)
    decreases |c|
  {
    var x :| x in c;
    if c == {x} {
      assert Survivor(sub, c, x);
    } else {
      SurvivorExists(sub, c - {x});
      var m :| Survivor(sub, c - {x}, m);
      if sub(x, m) {
        forall t | t in c && t != x
          ensures !sub(t, x)
        {
          assert t in c - {x};
        }
        assert Survivor(sub, c, x);
      } else {
        assert Survivor(sub, c, m);
      }
    }
  }

  /** Every candidate has a survivor below it, in a partial order. */
  lemma SurvivorBelow(sub: SubtypeRel, c: set<TypeId>, x: TypeId)
    requires PartialOrder(sub)
    requires x in c
    ensures exists e :: Survivor(sub, c, e) && sub(e, x)
  {
    var below := set t | t in c && sub(t, x);
    assert x in below;
    SurvivorExists(sub, below);
    var e :| Survivor(sub, below, e);
    assert Survivor(sub, c, e);
  }

  /**
   * In a partial order the reduction is empty exactly for an empty candidate
   * set, and has a single survivor exactly when some candidate is below all
   * the others, that candidate being the survivor.
   */
  lemma ReductionCharacterised(sub: SubtypeRel, c: set<TypeId>)
    requires PartialOrder(sub)
    ensures RemoveSuperTypes(sub, c) == {} <==> c == {}
    ensures forall s :: IsLeast(sub, c, s) ==> RemoveSuperTypes(sub, c) == {s}
    ensures |RemoveSuperTypes(sub, c)| == 1 ==> exists s :: IsLeast(sub, c, s)
  {
    var r := RemoveSuperTypes(sub, c);
    if c != {} {
      SurvivorExists(sub, c);
      var e :| Survivor(sub, c, e);
      assert e in r;
    }
    forall s | IsLeast(sub, c, s)
      ensures r == {s}
    {
      assert Survivor(sub, c, s);
      forall e | e in r
        ensures e == s
      {
        assert sub(s, e);
      }
    }
    if |r| == 1 {
      var s :| s in r;
      forall t | t in c
        ensures sub(s, t)
      {
        SurvivorBelow(sub, c, t);
        var e :| Survivor(sub, c, e) && sub(e, t);
        assert e in r;
        assert r == {s} by {
          assert |r - {s}| == 0;
        }
      }
      assert IsLeast(sub, c, s);
    }
  }

  /** `put`: stores `v` under `key`, overwriting any previous value. */
  function Put<V>(m: map<TypeId, V>, key: TypeId, v: V): (r: map<TypeId, V>)
    ensures key in r && r[key] == v
    ensures r.Keys == m.Keys + {key}
    ensures forall k :: k in m && k != key ==> r[k] == m[k]
  {
    m[key := v]
  }

  /**
   * `find`: the exact entry, else the value of the single most specific
   * related class, else nothing; several most specific classes are an error.
   */
  function Find<V>(sub: SubtypeRel, m: map<TypeId, V>, dir: Direction, key: TypeId): (r: Result<Option<V>, MapError>)
    ensures key in m ==> r == Ok(Some(m[key]))
    ensures r.Ok? && r.value.Some? ==> exists s :: s in m && (s == key || Related(sub, dir, key, s)) && r.value.value == m[s]
    ensures r.Err? ==>
      && key !in m
      && r.error.key == key
      && |r.error.candidates| >= 2
      && StringOrder.StrictlySorted(r.error.candidates)
      && (forall k :: k in r.error.candidates <==> k in RemoveSuperTypes(sub, Candidates(sub, m, dir, key)))
  {
    if key in m then Ok(Some(m[key]))
    else
      var survivors := StringOrder.SortedElements(RemoveSuperTypes(sub, Candidates(sub, m, dir, key)));
      if |survivors| == 1 then
        assert survivors[0] in RemoveSuperTypes(sub, Candidates(sub, m, dir, key));
        Ok(Some(m[survivors[0]]))
      else if |survivors| == 0 then Ok(None)
      else Err(Ambiguous(key, survivors))
  }

  /** `getOrSub`: exact entry, else the entry of the most specific registered supertype. */
  function GetOrSub<V>(sub: SubtypeRel, m: map<TypeId, V>, key: TypeId): (r: Result<Option<V>, MapError>)
    ensures key in m ==> r == Ok(Some(m[key]))
    ensures r.Ok? && r.value.Some? ==> exists s :: s in m && (s == key || sub(key, s)) && r.value.value == m[s]
    ensures r.Err? ==> key !in m && r.error.key == key && |r.error.candidates| >= 2
    ensures r.Err? ==> forall c :: c in r.error.candidates ==> c in m && sub(key, c)
    ensures r.Err? ==> forall a, b :: a in r.error.candidates && b in r.error.candidates && a != b ==> !sub(a, b)
  {
    Find(sub, m, OrSub, key)
  }

  /** `getOrSuper`: exact entry, else the entry of the deepest registered subtype. */
  function GetOrSuper<V>(sub: SubtypeRel, m: map<TypeId, V>, key: TypeId): (r: Result<Option<V>, MapError>)
    ensures key in m ==> r == Ok(Some(m[key]))
    ensures r.Ok? && r.value.Some? ==> exists s :: s in m && (s == key || sub(s, key)) && r.value.value == m[s]
    ensures r.Err? ==> key !in m && r.error.key == key && |r.error.candidates| >= 2
    ensures r.Err? ==> forall c :: c in r.error.candidates ==> c in m && sub(c, key)
    ensures r.Err? ==> forall a, b :: a in r.error.candidates && b in r.error.candidates && a != b ==> !sub(a, b)
  {
    Find(sub, m, OrSuper, key)
  }

  /**
   * The three outcomes of a lookup without an exact hit, against a reference
   * description that does not mention the reduction: nothing related means
   * empty; a related class below all related classes means its value; related
   * classes without such a least one mean an ambiguity naming exactly the
   * pairwise-unrelated most specific classes.
   */
  lemma {:induction false} FindOutcomes<V>(sub: SubtypeRel, m: map<TypeId, V>, dir: Direction, key: TypeId)
    requires PartialOrder(sub)
    requires key !in m
    ensures Find(sub, m, dir, key) == Ok(None) <==> Candidates(sub, m, dir, key) == {}
    ensures forall s :: IsLeast(sub, Candidates(sub, m, dir, key), s) ==> Find(sub, m, dir, key) == Ok(Some(m[s]))
    ensures Find(sub, m, dir, key).Ok? && Find(sub, m, dir, key).value.Some? ==>
      exists s :: IsLeast(sub, Candidates(sub, m, dir, key), s) && Find(sub, m, dir, key).value.value == m[s]
    ensures Find(sub, m, dir, key).Err? <==>
      Candidates(sub, m, dir, key) != {} && forall s :: !IsLeast(sub, Candidates(sub, m, dir, key), s)
  {
    var c := Candidates(sub, m, dir, key);
    var red := RemoveSuperTypes(sub, c);
    var survivors := StringOrder.SortedElements(red);
    ReductionCharacterised(sub, c);
    if |survivors| == 1 {
      assert survivors[0] in red;
      var s :| IsLeast(sub, c, s);
      assert red == {s};
      assert survivors[0] == s;
    }
    forall s | IsLeast(sub, c, s)
      ensures Find(sub, m, dir, key) == Ok(Some(m[s]))
    {
      assert red == {s};
      assert survivors[0] in red;
    }
  }

  /** `s` is a registered supertype of `key` below every other registered supertype of it. */
  ghost predicate MostSpecificSuper<V>(sub: SubtypeRel, m: map<TypeId, V>, key: TypeId, s: TypeId) {
    s in m && sub(key, s) && forall t :: t in m && sub(key, t) ==> sub(s, t)
  }

  /** `s` is a registered subtype of `key` below every other registered subtype of it. */
  ghost predicate DeepestSub<V>(sub: SubtypeRel, m: map<TypeId, V>, key: TypeId, s: TypeId) {
    s in m && sub(s, key) && forall t :: t in m && sub(t, key) ==> sub(s, t)
  }

  /**
   * `getOrSub` answers the value of the most specific registered supertype of
   * `key` (an exact entry is one), empty when no registered class is a
   * supertype of `key`, and fails when there are supertypes but no most
   * specific one.
   */
  lemma GetOrSubMostSpecific<V>(sub: SubtypeRel, m: map<TypeId, V>, key: TypeId)
    requires PartialOrder(sub)
    ensures forall s :: MostSpecificSuper(sub, m, key, s) ==> GetOrSub(sub, m, key) == Ok(Some(m[s]))
    ensures GetOrSub(sub, m, key) == Ok(None) <==> forall t :: t in m ==> !sub(key, t)
    ensures GetOrSub(sub, m, key).Err? <==>
      (exists t :: t in m && sub(key, t)) && forall s :: !MostSpecificSuper(sub, m, key, s)
  {
    var c := Candidates(sub, m, OrSub, key);
    assert forall s :: MostSpecificSuper(sub, m, key, s) <==> IsLeast(sub, c, s);
    if key in m {
      assert MostSpecificSuper(sub, m, key, key);
      forall s | MostSpecificSuper(sub, m, key, s)
        ensures s == key
      {
        assert sub(key, s) && sub(s, key);
      }
    } else {
      FindOutcomes(sub, m, OrSub, key);
      if GetOrSub(sub, m, key) != Ok(None) {
        var t :| t in c;
        assert t in m && sub(key, t);
      }
    }
  }

  /**
   * `getOrSuper` answers the exact entry, else the value of the deepest
   * registered subtype of `key` (the same supertype-removing reduction as
   * `getOrSub`, not its mirror image), empty when no registered class is a
   * subtype of `key`, and fails when there are subtypes but no deepest one.
   */
  lemma GetOrSuperDeepest<V>(sub: SubtypeRel, m: map<TypeId, V>, key: TypeId)
    requires PartialOrder(sub)
    ensures key in m ==> GetOrSuper(sub, m, key) == Ok(Some(m[key]))
    ensures key !in m ==> forall s :: DeepestSub(sub, m, key, s) ==> GetOrSuper(sub, m, key) == Ok(Some(m[s]))
    ensures GetOrSuper(sub, m, key) == Ok(None) <==> forall t :: t in m ==> !sub(t, key)
    ensures key !in m ==>
      (GetOrSuper(sub, m, key).Err? <==> (exists t :: t in m && sub(t, key)) && forall s :: !DeepestSub(sub, m, key, s))
  {
    var c := Candidates(sub, m, OrSuper, key);
    assert forall s :: DeepestSub(sub, m, key, s) <==> IsLeast(sub, c, s);
    if key in m {
      assert sub(key, key);
    } else {
      FindOutcomes(sub, m, OrSuper, key);
      if GetOrSuper(sub, m, key) != Ok(None) {
        var t :| t in c;
        assert t in m && sub(t, key);
      }
    }
  }

  /**
   * An ambiguity names exactly the pairwise-unrelated survivors: a common
   * supertype of two survivors is never among them.
   */
  lemma AmbiguityOmitsCommonBase<V>(sub: SubtypeRel, m: map<TypeId, V>, dir: Direction, key: TypeId, base: TypeId)
    requires PartialOrder(sub)
    requires Find(sub, m, dir, key).Err?
    requires exists a, b ::
      (&& a in Find(sub, m, dir, key).error.candidates
       && b in Find(sub, m, dir, key).error.candidates
       && a != b && sub(a, base) && sub(b, base))
    ensures base !in Find(sub, m, dir, key).error.candidates
  {
    var cands := Find(sub, m, dir, key).error.candidates;
    var c := Candidates(sub, m, dir, key);
    var a, b :| a in cands && b in cands && a != b && sub(a, base) && sub(b, base);
    var red := RemoveSuperTypes(sub, c);
    var x := if a != base then a else b;
    assert x in red && x != base && sub(x, base);
    assert !Survivor(sub, c, base);
  }
}
