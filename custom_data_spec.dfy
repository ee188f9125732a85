/**
  What LambdaFinder.IsCustomDataType decides, as a function, and what that decision means.

  The source threads one `typesUnderProcess` set through the whole recursion: it adds
  every type it enters, never removes one, and answers `true` for a type it meets
  again. `CustomData` returns the verdict together with that set, so that siblings see
  what earlier siblings added. `DataRule` is the per-type part of the check (the
  source's fixed order of cases); `AllCustomData` is the left-to-right, short-circuit
  walk over the types a case depends on.

  The main result, `CustomDataCharacterisation`, says the recursion computes a greatest
  fixpoint: a type is custom data exactly when it lies in some set of types each of
  which passes its local check with all its dependencies inside the set.
 */
module CustomDataSpec {
  import opened Wrappers
  import opened HostModel

  /** The key and value type of every ancestor substitution, in the order the source checks them. */
  function PairTypes(ps: seq<(TypeId, TypeId)>): seq<TypeId> {
    if ps == [] then [] else [ps[0].0, ps[0].1] + PairTypes(ps[1..])
  }

  /** The member types CheckMemberTypes checks: real fields and properties that are not indexers. */
  function MemberTypes(ms: seq<Member>): seq<TypeId> {
    if ms == [] then []
    else
      match ms[0]
      case FieldMember(isField, fieldType) => (if isField then [fieldType] else []) + MemberTypes(ms[1..])
      case PropertyMember(isDefault, propertyType) => (if isDefault then [] else [propertyType]) + MemberTypes(ms[1..])
      case OtherMember => MemberTypes(ms[1..])
  }

  /** The element types of a generic collection: IEnumerable<T> first, IList<T> otherwise. */
  function CollectionElements(view: DeclaredView): Option<seq<TypeId>> {
    if view.enumerableElements.Some? then view.enumerableElements else view.listElements
  }

  /**
    The local check on a type not yet under process, case by case in the source's order:
    None when the type is rejected outright, Some(deps) when it is custom data exactly
    when every type of deps is.
   */
  function DataRule(h: Host, t: TypeId): Option<seq<TypeId>> {
    match Shape(h, t)
    case VoidType => None
    case SimplePredefined => Some([])
    case DateTimeType => Some([])
    case DateTimeOffsetType => Some([])
    case ArrayType(elementType) => Some([elementType])
    case DeclaredType(_, _, view) =>
      var element := TypeElementOf(h, t);
      if element.None? then None
      else if view.dictionaryAncestors.Some? then Some(PairTypes(view.dictionaryAncestors.value))
      else if CollectionElements(view).Some? then CollectionElements(view)
      else if view.untypedCollection then Some([])
      else
        var te := h.elements[element.value];
        (match te.kind
         case ClassKind =>
           if te.baseClass.Some? && te.baseClass.value != h.objectType then None
           else if !te.instantiableWithPublicDefaultConstructor then None
           else Some(MemberTypes(view.members))
         case StructKind => Some(MemberTypes(view.members))
         case _ => None)
    case OtherType => None
  }

  lemma SubsetCardinality(a: set<TypeId>, b: set<TypeId>)
    requires a <= b
    ensures |a| <= |b|
  {
    assert b == a + (b - a);
  }

  /** Growing the set under process never enlarges the part of the universe still to visit. */
  lemma NoGrowth(u: set<TypeId>, v: set<TypeId>, w: set<TypeId>)
    requires v <= w
    ensures |u - w| <= |u - v|
  {
    SubsetCardinality(u - w, u - v);
  }

  /** Entering a fresh type of the universe strictly shrinks the part still to visit. */
  lemma Shrinks(u: set<TypeId>, v: set<TypeId>, w: set<TypeId>, t: TypeId)
    requires v + {t} <= w && t in u && t !in v
    ensures |u - w| < |u - v|
  {
    SubsetCardinality(u - w, (u - v) - {t});
    assert u - v == ((u - v) - {t}) + {t};
  }

  /**
    IsCustomDataType(t, visited): the verdict and the set under process afterwards.
    The set only grows, and always ends up holding `t`.
   */
  function CustomData(h: Host, t: TypeId, visited: set<TypeId>): (r: (bool, set<TypeId>))
    ensures visited + {t} <= r.1
    decreases |h.types.Keys - visited|, 0, 0
  {
    if t in visited then (true, visited)
    else
      match DataRule(h, t)
      case None => (false, visited + {t})
      case Some(deps) =>
        Shrinks(h.types.Keys, visited, visited + {t}, t);
        AllCustomData(h, deps, visited + {t})
  }

  /** Checks `ts` left to right, sharing the set under process, and stops at the first failure. */
  function AllCustomData(h: Host, ts: seq<TypeId>, visited: set<TypeId>): (r: (bool, set<TypeId>))
    ensures visited <= r.1
    decreases |h.types.Keys - visited|, 1, |ts|
  {
    if ts == [] then (true, visited)
    else
      var (ok, afterFirst) := CustomData(h, ts[0], visited);
      if !ok then (false, afterFirst)
      else
        NoGrowth(h.types.Keys, visited, afterFirst);
        AllCustomData(h, ts[1..], afterFirst)
  }

  /** A one-type walk is the check of that type. */
  lemma AllCustomDataOne(h: Host, c: TypeId, visited: set<TypeId>)
    ensures AllCustomData(h, [c], visited) == CustomData(h, c, visited)
  {
    assert [c][1..] == [];
  }

  /** `t` passes its local check and every type it depends on lies in `s`. */
  predicate LocallyCustom(h: Host, t: TypeId, s: set<TypeId>) {
    DataRule(h, t).Some? && forall c :: c in DataRule(h, t).value ==> c in s
  }

  /** Every type of `s` outside `visited` passes its local check within `s`. */
  predicate ClosedOutside(h: Host, s: set<TypeId>, visited: set<TypeId>) {
    forall u :: u in s && u !in visited ==> LocallyCustom(h, u, s)
  }

  /** `s` is a post-fixpoint of the local check: a set of types that are custom data together. */
  predicate Closed(h: Host, s: set<TypeId>) {
    forall u :: u in s ==> LocallyCustom(h, u, s)
  }

  lemma LocallyCustomMonotone(h: Host, t: TypeId, a: set<TypeId>, b: set<TypeId>)
    requires LocallyCustom(h, t, a) && a <= b
    ensures LocallyCustom(h, t, b)
  {
  }

  /** A `true` verdict is justified: the final set is closed outside the starting one. */
  lemma {:induction false} CustomDataSound(h: Host, t: TypeId, visited: set<TypeId>)
    requires CustomData(h, t, visited).0
    ensures ClosedOutside(h, CustomData(h, t, visited).1, visited)
    decreases |h.types.Keys - visited|, 0, 0
  {
    if t !in visited {
      var deps := DataRule(h, t).value;
      var w := CustomData(h, t, visited).1;
      Shrinks(h.types.Keys, visited, visited + {t}, t);
      AllCustomDataSound(h, deps, visited + {t});
      assert LocallyCustom(h, t, w);
    }
  }

  lemma {:induction false} AllCustomDataSound(h: Host, ts: seq<TypeId>, visited: set<TypeId>)
    requires AllCustomData(h, ts, visited).0
    ensures forall c :: c in ts ==> c in AllCustomData(h, ts, visited).1
    ensures ClosedOutside(h, AllCustomData(h, ts, visited).1, visited)
    decreases |h.types.Keys - visited|, 1, |ts|
  {
    if ts != [] {
      var mid := CustomData(h, ts[0], visited).1;
      CustomDataSound(h, ts[0], visited);
      NoGrowth(h.types.Keys, visited, mid);
      AllCustomDataSound(h, ts[1..], mid);
      var w := AllCustomData(h, ts, visited).1;
      assert w == AllCustomData(h, ts[1..], mid).1;
      forall u | u in w && u !in visited
        ensures LocallyCustom(h, u, w)
      {
        if u in mid {
          LocallyCustomMonotone(h, u, mid, w);
        }
      }
      forall c | c in ts
        ensures c in w
      {
        if c != ts[0] {
          assert c in ts[1..];
        }
      }
    }
  }

  /** Every type of a set closed outside `visited` is found to be custom data. */
  lemma {:induction false} CustomDataComplete(h: Host, s: set<TypeId>, t: TypeId, visited: set<TypeId>)
    requires ClosedOutside(h, s, visited) && t in s
    ensures CustomData(h, t, visited).0
    decreases |h.types.Keys - visited|, 0, 0
  {
    if t !in visited {
      Shrinks(h.types.Keys, visited, visited + {t}, t);
      AllCustomDataComplete(h, s, DataRule(h, t).value, visited + {t});
    }
  }

  lemma {:induction false} AllCustomDataComplete(h: Host, s: set<TypeId>, ts: seq<TypeId>, visited: set<TypeId>)
    requires ClosedOutside(h, s, visited)
    requires forall c :: c in ts ==> c in s
    ensures AllCustomData(h, ts, visited).0
    decreases |h.types.Keys - visited|, 1, |ts|
  {
    if ts != [] {
      CustomDataComplete(h, s, ts[0], visited);
      var mid := CustomData(h, ts[0], visited).1;
      NoGrowth(h.types.Keys, visited, mid);
      assert ClosedOutside(h, s, mid);
      AllCustomDataComplete(h, s, ts[1..], mid);
    }
  }

  /** The verdict is the greatest fixpoint of the local check, relative to the types already under process. */
  lemma CustomDataCharacterisation(h: Host, t: TypeId, visited: set<TypeId>)
    ensures CustomData(h, t, visited).0 <==> exists s :: t in s && ClosedOutside(h, s, visited)
  {
    if CustomData(h, t, visited).0 {
      CustomDataSound(h, t, visited);
      var w := CustomData(h, t, visited).1;
      assert t in w && ClosedOutside(h, w, visited);
    }
    if exists s :: t in s && ClosedOutside(h, s, visited) {
      var s :| t in s && ClosedOutside(h, s, visited);
      CustomDataComplete(h, s, t, visited);
    }
  }

  /** From an empty set under process (as every caller starts): custom data iff inside a closed set. */
  lemma CustomDataIsGreatestFixpoint(h: Host, t: TypeId)
    ensures CustomData(h, t, {}).0 <==> exists s :: t in s && Closed(h, s)
  {
    CustomDataCharacterisation(h, t, {});
    if exists s :: t in s && ClosedOutside(h, s, {}) {
      var s :| t in s && ClosedOutside(h, s, {});
      assert Closed(h, s);
    }
    if exists s :: t in s && Closed(h, s) {
      var s :| t in s && Closed(h, s);
      assert ClosedOutside(h, s, {});
    }
  }

  /** The cycle guard only adds `true` answers: more types under process never turn a verdict to false. */
  lemma CustomDataMonotoneInVisited(h: Host, t: TypeId, v: set<TypeId>, w: set<TypeId>)
    requires v <= w && CustomData(h, t, v).0
    ensures CustomData(h, t, w).0
  {
    CustomDataSound(h, t, v);
    var s := CustomData(h, t, v).1;
    assert ClosedOutside(h, s, w);
    CustomDataComplete(h, s, t, w);
  }

  /**
    A self-referential type (every type it depends on is itself, e.g. a class with a field of
    its own type) is custom data exactly when it passes its local check: the recursion
    terminates on it and the cycle guard answers for the inner occurrence.
   */
  lemma SelfReferentialType(h: Host, t: TypeId)
    requires DataRule(h, t).Some? && forall c :: c in DataRule(h, t).value ==> c == t
    ensures CustomData(h, t, {}).0
  {
    assert Closed(h, {t});
    CustomDataComplete(h, {t}, t, {});
  }

  /** A type the local check rejects is never custom data unless it is already under process. */
  lemma RejectedType(h: Host, t: TypeId, visited: set<TypeId>)
    requires DataRule(h, t).None?
    ensures CustomData(h, t, visited).0 <==> t in visited
  {
  }
}
