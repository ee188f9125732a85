/**
  What the run-marker provider's check promises, stated over the model.
 */
module ProviderProperties {
  import opened Wrappers
  import opened HostModel
  import opened LambdaRunMarkerProvider

  /** A static method named Main is never suitable. */
  lemma StaticMainRejected(h: Host, m: Method)
    requires m.isStatic && m.shortName == "Main"
    ensures !IsValidInstanceOrStaticMethod(h, m)
    ensures !IsSuitableLambdaMethod(h, m)
  {
  }

  /** Namespaces outside the fixed list are never consulted by the event-type check. */
  lemma EventTypeIgnoresOtherNamespaces(h: Host, t: TypeId, ns: string, es: seq<ElementId>)
    requires ns !in AmazonLambdaEventNamespaces
    ensures IsAmazonEventType(h.(namespaceElements := h.namespaceElements[ns := es]), t) == IsAmazonEventType(h, t)
  {
    var h' := h.(namespaceElements := h.namespaceElements[ns := es]);
    assert DeclaredClrName(h', t) == DeclaredClrName(h, t);
    assert TypeElementOf(h', t) == TypeElementOf(h, t);
    forall i | 0 <= i < |AmazonLambdaEventNamespaces| && DeclaredClrName(h, t).Some?
      ensures EventClassIn(h', AmazonLambdaEventNamespaces[i], DeclaredClrName(h, t).value, TypeElementOf(h, t)) ==
              EventClassIn(h, AmazonLambdaEventNamespaces[i], DeclaredClrName(h, t).value, TypeElementOf(h, t))
    {
      assert AmazonLambdaEventNamespaces[i] != ns;
    }
  }

  /** A class of a listed namespace with exactly the type's CLR name makes it an event type. */
  lemma EventTypeByName(h: Host, t: TypeId, i: nat, k: nat)
    requires DeclaredClrName(h, t).Some?
    requires i < |AmazonLambdaEventNamespaces| && AmazonLambdaEventNamespaces[i] in h.namespaceElements
    requires k < |h.namespaceElements[AmazonLambdaEventNamespaces[i]]|
    requires IsClassElement(h, h.namespaceElements[AmazonLambdaEventNamespaces[i]][k])
    requires h.elements[h.namespaceElements[AmazonLambdaEventNamespaces[i]][k]].clrName == DeclaredClrName(h, t).value
    ensures IsAmazonEventType(h, t)
  {
    assert EventClassIn(h, AmazonLambdaEventNamespaces[i], DeclaredClrName(h, t).value, TypeElementOf(h, t));
  }

  /** An async method's return check does not look at attributes. */
  lemma AsyncReturnIgnoresSerializer(h: Host, m: Method, attributes: seq<Attribute>)
    requires m.isAsync
    ensures HasRequiredReturnType(h, m.(attributes := attributes)) == HasRequiredReturnType(h, m)
  {
  }

  /** Outside a static method named Main, in either form, the name plays no part in the verdict. */
  lemma NameIgnoredExceptStaticMain(h: Host, m: Method, name: string)
    requires !m.isStatic || (m.shortName != "Main" && name != "Main")
    ensures IsSuitableLambdaMethod(h, m.(shortName := name)) == IsSuitableLambdaMethod(h, m)
  {
  }

  /**
    Making a method not named Main static never makes it unsuitable; a static method not
    named Main passes the callability check whatever its containing type.
   */
  lemma StaticNeverHurts(h: Host, m: Method)
    requires m.shortName != "Main"
    ensures IsValidInstanceOrStaticMethod(h, m.(isStatic := true))
    ensures IsSuitableLambdaMethod(h, m) ==> IsSuitableLambdaMethod(h, m.(isStatic := true))
  {
  }

  /** Adding attributes to a suitable method never makes it unsuitable. */
  lemma SuitableMonotoneInAttributes(h: Host, m: Method, more: seq<Attribute>)
    requires IsSuitableLambdaMethod(h, m)
    ensures IsSuitableLambdaMethod(h, m.(attributes := m.attributes + more))
  {
    var longer := m.(attributes := m.attributes + more);
    if IsMethodOrAssemblySerializable(m) {
      var k :| 0 <= k < |m.attributes| && m.attributes[k].attributeType == SerializerLambdaType;
      assert longer.attributes[k] == m.attributes[k];
    }
  }

  /**
    No structural check: two valid types that are both event types, or both not, are
    indistinguishable as custom data, whatever their shape.
   */
  lemma CustomDataIgnoresStructure(h: Host, m: Method, t: TypeId, u: TypeId)
    requires t in h.validTypes && u in h.validTypes
    requires IsAmazonEventType(h, t) == IsAmazonEventType(h, u)
    ensures IsCustomDataType(h, m, t) == IsCustomDataType(h, m, u)
  {
  }

  /** An ILambdaContext second parameter changes nothing: the method is judged as if it took the first alone. */
  lemma ContextParameterNeutral(h: Host, m: Method, p: TypeId, context: TypeId)
    requires IsLambdaContextType(h, context)
    ensures IsSuitableLambdaMethod(h, m.(parameters := [p, context])) == IsSuitableLambdaMethod(h, m.(parameters := [p]))
  {
  }

  /** A second parameter that is not ILambdaContext is always rejected, even after a Stream. */
  lemma NonContextSecondRejected(h: Host, m: Method)
    requires |m.parameters| == 2 && !IsLambdaContextType(h, m.parameters[1])
    ensures !HasRequiredParameters(h, m)
  {
  }

  /** A signature of Streams only (or none) with a Stream or async result: attributes cannot change the verdict. */
  lemma StreamSignatureIgnoresAttributes(h: Host, m: Method, attributes: seq<Attribute>)
    requires |m.parameters| <= 2
    requires |m.parameters| >= 1 ==> IsStreamType(h, m.parameters[0])
    requires !m.isAsync ==> IsStreamType(h, m.returnType)
    ensures IsSuitableLambdaMethod(h, m.(attributes := attributes)) == IsSuitableLambdaMethod(h, m)
  {
  }
}
