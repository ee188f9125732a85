/**
  What LambdaFinder.IsSuitableLambdaMethod promises, stated over the model.
 */
module FinderProperties {
  import opened Wrappers
  import opened HostModel
  import opened CustomDataSpec
  import opened LambdaFinder

  // ---- Custom data: the verdict does not depend on the shared set under process ----

  /** Two sets of types that are custom data together stay so when merged. */
  lemma ClosedUnion(h: Host, a: set<TypeId>, b: set<TypeId>, u: set<TypeId>)
    requires Closed(h, a) && Closed(h, b) && u == a + b
    ensures Closed(h, u)
  {
    forall x | x in a {
      LocallyCustomMonotone(h, x, a, u);
    }
    forall x | x in b {
      LocallyCustomMonotone(h, x, b, u);
    }
  }

  predicate AllIn(ts: seq<TypeId>, s: set<TypeId>) {
    forall c :: c in ts ==> c in s
  }

  /** Types that are each custom data lie in one closed set. */
  lemma {:induction false} CommonClosedSet(h: Host, ts: seq<TypeId>)
    requires forall c :: c in ts ==> IsCustomData(h, c)
    ensures exists s :: Closed(h, s) && AllIn(ts, s)
  {
    if ts == [] {
      assert Closed(h, {});
    } else {
      CommonClosedSet(h, ts[1..]);
      var rest :| Closed(h, rest) && AllIn(ts[1..], rest);
      assert ts[0] in ts;
      CustomDataIsGreatestFixpoint(h, ts[0]);
      var first :| ts[0] in first && Closed(h, first);
      var both := rest + first;
      ClosedUnion(h, rest, first, both);
      forall c | c in ts
        ensures c in both
      {
        if c != ts[0] {
          assert c in ts[1..];
        }
      }
    }
  }

  /**
    A type that passes its local check is custom data exactly when every type it depends
    on is custom data (each checked from a fresh set): the shared set under process never
    changes an answer.
   */
  lemma CustomDataCompositional(h: Host, t: TypeId)
    requires DataRule(h, t).Some?
    ensures IsCustomData(h, t) <==> forall c :: c in DataRule(h, t).value ==> IsCustomData(h, c)
  {
    var deps := DataRule(h, t).value;
    CustomDataIsGreatestFixpoint(h, t);
    if IsCustomData(h, t) {
      var s :| t in s && Closed(h, s);
      forall c | c in deps
        ensures IsCustomData(h, c)
      {
        CustomDataIsGreatestFixpoint(h, c);
        assert c in s;
      }
    }
    if forall c :: c in deps ==> IsCustomData(h, c) {
      CommonClosedSet(h, deps);
      var s :| Closed(h, s) && AllIn(deps, s);
      var withT := s + {t};
      forall u | u in s {
        LocallyCustomMonotone(h, u, s, withT);
      }
      assert LocallyCustom(h, t, withT);
      assert t in withT && Closed(h, withT);
    }
  }

  /** Void is never custom data; primitives, DateTime and DateTimeOffset always are. */
  lemma CustomDataBaseCases(h: Host, t: TypeId)
    ensures Shape(h, t).VoidType? ==> !IsCustomData(h, t)
    ensures Shape(h, t).SimplePredefined? || Shape(h, t).DateTimeType? || Shape(h, t).DateTimeOffsetType? ==> IsCustomData(h, t)
  {
  }

  /** An array is custom data exactly when its element type is. */
  lemma ArrayCustomData(h: Host, t: TypeId)
    requires Shape(h, t).ArrayType?
    ensures IsCustomData(h, t) <==> IsCustomData(h, Shape(h, t).elementType)
  {
    CustomDataCompositional(h, t);
    assert Shape(h, t).elementType in DataRule(h, t).value;
  }

  /** A generic dictionary is custom data exactly when every ancestor's key and value types are. */
  lemma {:induction false} PairTypesMembers(ps: seq<(TypeId, TypeId)>, c: TypeId)
    ensures c in PairTypes(ps) <==> exists k :: 0 <= k < |ps| && (ps[k].0 == c || ps[k].1 == c)
  {
    if ps != [] {
      PairTypesMembers(ps[1..], c);
      if exists k :: 0 <= k < |ps| - 1 && (ps[1..][k].0 == c || ps[1..][k].1 == c) {
        var k :| 0 <= k < |ps| - 1 && (ps[1..][k].0 == c || ps[1..][k].1 == c);
        assert ps[k + 1] == ps[1..][k];
      }
      if exists k :: 0 <= k < |ps| && (ps[k].0 == c || ps[k].1 == c) {
        var k :| 0 <= k < |ps| && (ps[k].0 == c || ps[k].1 == c);
        if k > 0 {
          assert ps[1..][k - 1] == ps[k];
        }
      }
    }
  }

  lemma DictionaryCustomData(h: Host, t: TypeId)
    requires IsDeclared(h, t) && TypeElementOf(h, t).Some?
    requires Shape(h, t).view.dictionaryAncestors.Some?
    ensures var ps := Shape(h, t).view.dictionaryAncestors.value;
      IsCustomData(h, t) <==>
        forall k :: 0 <= k < |ps| ==> IsCustomData(h, ps[k].0) && IsCustomData(h, ps[k].1)
  {
    var ps := Shape(h, t).view.dictionaryAncestors.value;
    CustomDataCompositional(h, t);
    forall c
      ensures c in PairTypes(ps) <==> exists k :: 0 <= k < |ps| && (ps[k].0 == c || ps[k].1 == c)
    {
      PairTypesMembers(ps, c);
    }
    if forall k :: 0 <= k < |ps| ==> IsCustomData(h, ps[k].0) && IsCustomData(h, ps[k].1) {
      forall c | c in PairTypes(ps)
        ensures IsCustomData(h, c)
      {
        var k :| 0 <= k < |ps| && (ps[k].0 == c || ps[k].1 == c);
      }
    }
    if IsCustomData(h, t) {
      forall k | 0 <= k < |ps|
        ensures IsCustomData(h, ps[k].0) && IsCustomData(h, ps[k].1)
      {
        assert ps[k].0 in PairTypes(ps) && ps[k].1 in PairTypes(ps);
      }
    }
  }

  /**
    A class with a base class other than object, or with no public default constructor, is
    never custom data, whatever its members.
   */
  lemma ClassRequirements(h: Host, t: TypeId)
    requires IsDeclared(h, t) && TypeElementOf(h, t).Some?
    requires CollectionElements(Shape(h, t).view).None? && Shape(h, t).view.dictionaryAncestors.None?
    requires !Shape(h, t).view.untypedCollection
    requires h.elements[TypeElementOf(h, t).value].kind == ClassKind
    requires IsCustomData(h, t)
    ensures var te := h.elements[TypeElementOf(h, t).value];
      (te.baseClass.None? || te.baseClass.value == h.objectType) && te.instantiableWithPublicDefaultConstructor
  {
    var te := h.elements[TypeElementOf(h, t).value];
    if !((te.baseClass.None? || te.baseClass.value == h.objectType) && te.instantiableWithPublicDefaultConstructor) {
      RejectedType(h, t, {});
    }
  }

  /** A type whose element is an interface (or anything but a class or struct) is never custom data. */
  lemma InterfaceRejected(h: Host, t: TypeId)
    requires IsDeclared(h, t) && TypeElementOf(h, t).Some?
    requires CollectionElements(Shape(h, t).view).None? && Shape(h, t).view.dictionaryAncestors.None?
    requires !Shape(h, t).view.untypedCollection
    requires h.elements[TypeElementOf(h, t).value].kind == InterfaceKind
    ensures !IsCustomData(h, t)
  {
    RejectedType(h, t, {});
  }

  // ---- Event types ----

  /** Only namespaces whose name ends in "Events" are consulted: changing the elements of any other leaves the verdict. */
  lemma EventTypeIgnoresOtherNamespaces(h: Host, t: TypeId, ns: string, es: seq<ElementId>)
    requires !EndsWith(ns, "Events")
    ensures IsAmazonEventType(h.(namespaceElements := h.namespaceElements[ns := es]), t) == IsAmazonEventType(h, t)
  {
    var h' := h.(namespaceElements := h.namespaceElements[ns := es]);
    assert DeclaredClrName(h', t) == DeclaredClrName(h, t);
    assert TypeElementOf(h', t) == TypeElementOf(h, t);
    if AmazonLambdaNamespaceTypeName in h.nestedNamespaces && TypeElementOf(h, t).Some? {
      var nested := h.nestedNamespaces[AmazonLambdaNamespaceTypeName];
      forall k | 0 <= k < |nested| && EndsWith(nested[k], "Events")
        ensures DescendsFromClassIn(h', TypeElementOf(h, t).value, nested[k]) ==
                DescendsFromClassIn(h, TypeElementOf(h, t).value, nested[k])
      {
        assert nested[k] != ns;
        DescendsFromOtherNamespace(h, TypeElementOf(h, t).value, ns, es, nested[k]);
      }
    }
  }

  lemma DescendsFromOtherNamespace(h: Host, e: ElementId, ns: string, es: seq<ElementId>, other: string)
    requires other != ns
    ensures DescendsFromClassIn(h.(namespaceElements := h.namespaceElements[ns := es]), e, other) == DescendsFromClassIn(h, e, other)
  {
    var h' := h.(namespaceElements := h.namespaceElements[ns := es]);
    assert h'.elements == h.elements && h'.descendants == h.descendants;
    assert other in h'.namespaceElements <==> other in h.namespaceElements;
    if other in h.namespaceElements {
      assert h'.namespaceElements[other] == h.namespaceElements[other];
    }
  }

  // ---- The serializer lookup ----

  lemma {:induction false} InstancesOfIndex(attributes: seq<Attribute>, name: string, h: Host)
    ensures AnyNamesSerializer(h, InstancesOf(attributes, name)) <==>
      exists k :: 0 <= k < |attributes| && attributes[k].attributeType == name && NamesSerializer(h, attributes[k])
  {
    var r := InstancesOf(attributes, name);
    if AnyNamesSerializer(h, r) {
      var k :| 0 <= k < |r| && NamesSerializer(h, r[k]);
      assert r[k] in attributes;
      var j :| 0 <= j < |attributes| && attributes[j] == r[k];
      assert attributes[j].attributeType == name;
    }
    if exists k :: 0 <= k < |attributes| && attributes[k].attributeType == name && NamesSerializer(h, attributes[k]) {
      var k :| 0 <= k < |attributes| && attributes[k].attributeType == name && NamesSerializer(h, attributes[k]);
      assert attributes[k] in r;
      var j :| 0 <= j < |r| && r[j] == attributes[k];
    }
  }

  /** Some LambdaSerializerAttribute in `attributes` names a subtype of ILambdaSerializer. */
  predicate SerializerAttributeIn(h: Host, attributes: seq<Attribute>) {
    exists k :: 0 <= k < |attributes| &&
      attributes[k].attributeType == AmazonAttributeTypeName && NamesSerializer(h, attributes[k])
  }

  /**
    A serializer is defined exactly when a method-level or an assembly-level
    LambdaSerializerAttribute has a positional type argument that is an ILambdaSerializer.
   */
  lemma SerializerDefinedCharacterisation(h: Host, m: Method)
    ensures IsSerializerDefined(h, m) <==>
      SerializerAttributeIn(h, m.attributes) || SerializerAttributeIn(h, h.assemblyAttributes)
  {
    InstancesOfIndex(m.attributes, AmazonAttributeTypeName, h);
    InstancesOfIndex(h.assemblyAttributes, AmazonAttributeTypeName, h);
  }

  /**
    An attribute none of whose positional arguments is an ILambdaSerializer subtype does not
    count: adding it to the method leaves the verdict unchanged.
   */
  lemma NonSerializerArgumentIgnored(h: Host, m: Method, a: Attribute)
    requires !NamesSerializer(h, a)
    ensures IsSerializerDefined(h, m.(attributes := m.attributes + [a])) == IsSerializerDefined(h, m)
  {
    SerializerDefinedCharacterisation(h, m);
    SerializerDefinedCharacterisation(h, m.(attributes := m.attributes + [a]));
    SerializerAttributeInAppend(h, m.attributes, a);
  }

  lemma SerializerAttributeInAppend(h: Host, attributes: seq<Attribute>, a: Attribute)
    requires !NamesSerializer(h, a)
    ensures SerializerAttributeIn(h, attributes + [a]) == SerializerAttributeIn(h, attributes)
  {
    var longer := attributes + [a];
    if SerializerAttributeIn(h, longer) {
      var k :| 0 <= k < |longer| && longer[k].attributeType == AmazonAttributeTypeName && NamesSerializer(h, longer[k]);
      assert k < |attributes| && longer[k] == attributes[k];
    }
    if SerializerAttributeIn(h, attributes) {
      var k :| 0 <= k < |attributes| && attributes[k].attributeType == AmazonAttributeTypeName && NamesSerializer(h, attributes[k]);
      assert longer[k] == attributes[k];
    }
  }

  /** More attributes never take a serializer away. */
  lemma SerializerMonotone(h: Host, m: Method, more: seq<Attribute>)
    requires IsSerializerDefined(h, m)
    ensures IsSerializerDefined(h, m.(attributes := m.attributes + more))
  {
    var longer := m.(attributes := m.attributes + more);
    SerializerDefinedCharacterisation(h, m);
    SerializerDefinedCharacterisation(h, longer);
    if SerializerAttributeIn(h, m.attributes) {
      var k :| 0 <= k < |m.attributes| && m.attributes[k].attributeType == AmazonAttributeTypeName && NamesSerializer(h, m.attributes[k]);
      assert longer.attributes[k] == m.attributes[k];
    }
  }

  // ---- The method-level checks ----

  /** A suitable method is non-null and public, and its class has at most one supertype. */
  lemma SuitableIsPublic(h: Host, m: Option<Method>)
    requires IsSuitableLambdaMethod(h, m)
    ensures m.Some? && m.value.isPublic
    ensures ContainingClass(h, m.value).Some?
    ensures h.elements[m.value.containingType.value].superTypeCount <= 1
  {
  }

  /** Adding attributes to a suitable method never makes it unsuitable. */
  lemma SuitableMonotoneInAttributes(h: Host, m: Method, more: seq<Attribute>)
    requires IsSuitableLambdaMethod(h, Some(m))
    ensures IsSuitableLambdaMethod(h, Some(m.(attributes := m.attributes + more)))
  {
    if IsSerializerDefined(h, m) {
      SerializerMonotone(h, m, more);
    }
  }

  /** The method's name plays no part in the verdict (a static Main included). */
  lemma NameIgnored(h: Host, m: Method, name: string)
    ensures IsSuitableLambdaMethod(h, Some(m.(shortName := name))) == IsSuitableLambdaMethod(h, Some(m))
  {
  }

  /**
    Making a method static never makes it unsuitable; in a class the Lambda runtime can
    instantiate, being static or not changes nothing.
   */
  lemma StaticNeverHurts(h: Host, m: Method)
    ensures IsSuitableLambdaMethod(h, Some(m)) ==> IsSuitableLambdaMethod(h, Some(m.(isStatic := true)))
    ensures ContainingClass(h, m).Some? && CanBeInstantiatedByLambda(h.elements[m.containingType.value]) ==>
      IsSuitableLambdaMethod(h, Some(m.(isStatic := true))) == IsSuitableLambdaMethod(h, Some(m.(isStatic := false)))
  {
  }

  /** Only one or two parameters are accepted. */
  lemma ParameterCount(h: Host, m: Method)
    requires HasRequiredParameters(h, m)
    ensures |m.parameters| == 1 || |m.parameters| == 2
  {
  }

  /**
    With a Stream first parameter the second parameter is never looked at: any second
    parameter, or none, gives the same verdict.
   */
  lemma StreamFirstIgnoresSecond(h: Host, m: Method, p: TypeId, q: TypeId)
    requires IsStreamType(h, p)
    ensures IsSuitableLambdaMethod(h, Some(m.(parameters := [p, q]))) == IsSuitableLambdaMethod(h, Some(m.(parameters := [p])))
  {
  }

  /** An ILambdaContext second parameter changes nothing: the method is judged as if it took the first alone. */
  lemma ContextParameterNeutral(h: Host, m: Method, p: TypeId, context: TypeId)
    requires IsLambdaContextType(h, context)
    ensures IsSuitableLambdaMethod(h, Some(m.(parameters := [p, context]))) == IsSuitableLambdaMethod(h, Some(m.(parameters := [p])))
  {
  }

  /** A subtype of ILambdaContext with another name is not accepted as the context parameter. */
  lemma ContextSubtypeRejected(h: Host, m: Method)
    requires |m.parameters| == 2 && !IsStreamType(h, m.parameters[0])
    requires DeclaredClrName(h, m.parameters[1]) != Some(LambdaContextTypeName)
    ensures !HasRequiredParameters(h, m)
  {
  }

  /** A synchronous result is accepted exactly when the same type is accepted as the only parameter. */
  lemma SyncReturnLikeParameter(h: Host, m: Method)
    requires !m.isAsync
    ensures HasRequiredReturnType(h, m) == HasRequiredParameters(h, m.(parameters := [m.returnType]))
  {
  }

  /**
    An accepted async Task<T> result has its T accepted as a synchronous result. The converse
    fails for a Stream T, which the async check still makes need a serializer.
   */
  lemma AsyncResultAcceptedSynchronously(h: Host, m: Method)
    requires m.isAsync && TaskShapeOf(h, m.returnType).GenericTask?
    requires HasRequiredReturnType(h, m)
    ensures HasRequiredReturnType(h, m.(isAsync := false, returnType := TaskShapeOf(h, m.returnType).underlying))
    ensures IsSerializerDefined(h, m)
  {
  }

  /** A Stream-in, Stream-out (or fire-and-forget async) signature needs no serializer: attributes cannot change its verdict. */
  lemma StreamSignatureIgnoresAttributes(h: Host, m: Method, attributes: seq<Attribute>)
    requires |m.parameters| == 1 || |m.parameters| == 2
    requires IsStreamType(h, m.parameters[0])
    requires if m.isAsync then Shape(h, m.returnType).VoidType? || TaskShapeOf(h, m.returnType).BareTask?
             else IsStreamType(h, m.returnType)
    ensures IsSuitableLambdaMethod(h, Some(m.(attributes := attributes))) == IsSuitableLambdaMethod(h, Some(m))
  {
  }

  /** In a well-formed host, a sync method returning void is rejected: void is no Stream and no data type. */
  lemma SyncVoidRejected(h: Host, m: Option<Method>)
    requires WellFormed(h)
    requires m.Some? && !m.value.isAsync && Shape(h, m.value.returnType).VoidType?
    ensures !IsSuitableLambdaMethod(h, m)
  {
    RejectedType(h, m.value.returnType, {});
    if (m.value.returnType, h.streamType) in h.subtypes {
      assert m.value.returnType == h.streamType;
    }
  }

  /**
    In a well-formed host, `public static Stream Handler(Stream input)` of a class with at most
    one supertype is a handler, with no serializer anywhere.
   */
  lemma StreamHandlerAccepted(h: Host, m: Method)
    requires WellFormed(h)
    requires m.isPublic && m.isStatic && !m.isAsync
    requires m.parameters == [h.streamType] && m.returnType == h.streamType
    requires ContainingClass(h, m).Some? && h.elements[m.containingType.value].superTypeCount <= 1
    ensures IsSuitableLambdaMethod(h, Some(m))
  {
    assert h.streamType in h.types;
  }
}
