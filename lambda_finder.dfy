/**
  LambdaFinder: the C# handler eligibility check used to list handlers
  (LambdaFinder.IsSuitableLambdaMethod and its helpers).

  IsCustomDataType works by mutating one shared HashSet, so it is a method here, over the
  class `TypeSet`, proved to compute `CustomDataSpec.CustomData`. The other checks are
  boolean expressions and are predicates; they use the function, as every call site in the
  source starts from a fresh set.
 */
module LambdaFinder {
  import opened Wrappers
  import opened HostModel
  import opened CustomDataSpec

  const LambdaContextTypeName := "Amazon.Lambda.Core.ILambdaContext"
  const AmazonLambdaNamespaceTypeName := "Amazon.Lambda"
  const AmazonAttributeTypeName := "Amazon.Lambda.Core.LambdaSerializerAttribute"

  /** The `HashSet<IType> typesUnderProcess` of IsCustomDataType. */
  class TypeSet {
    var elements: set<TypeId>

    constructor ()
      ensures elements == {}
    {
      elements := {};
    }

    /** HashSet.Add: adds `t` and answers whether it was absent. */
    method Add(t: TypeId) returns (added: bool)
      modifies this
      ensures added == (t !in old(elements))
      ensures elements == old(elements) + {t}
    {
      added := t !in elements;
      elements := elements + {t};
    }
  }

  /**
    The source's IsCustomDataType, statement by statement: the verdict and the set under
    process afterwards are those of CustomData. The declared-type branch is
    IsCustomDeclaredType below.
   */
  method IsCustomDataType(h: Host, t: TypeId, typesUnderProcess: TypeSet) returns (r: bool)
    modifies typesUnderProcess
    ensures (r, typesUnderProcess.elements) == CustomData(h, t, old(typesUnderProcess.elements))
    decreases |h.types.Keys - typesUnderProcess.elements|, 0
  {
    ghost var visited := typesUnderProcess.elements;
    var added := typesUnderProcess.Add(t);
    if !added {
      assert typesUnderProcess.elements == visited;
      return true;
    }
    var shape := Shape(h, t);
    if shape.VoidType? {
      return false;
    }
    if shape.SimplePredefined? || shape.DateTimeType? || shape.DateTimeOffsetType? {
      return true;
    }
    if shape.ArrayType? {
      Shrinks(h.types.Keys, visited, typesUnderProcess.elements, t);
      AllCustomDataOne(h, shape.elementType, typesUnderProcess.elements);
      r := IsCustomDataType(h, shape.elementType, typesUnderProcess);
      return;
    }
    if shape.DeclaredType? {
      Shrinks(h.types.Keys, visited, typesUnderProcess.elements, t);
      r := IsCustomDeclaredType(h, t, typesUnderProcess);
      return;
    }
    return false;
  }

  /**
    The `type is IDeclaredType` branch of IsCustomDataType, entered with `t` already under
    process: dictionary, generic collection, non-generic collection, class, struct.
   */
  method IsCustomDeclaredType(h: Host, t: TypeId, typesUnderProcess: TypeSet) returns (r: bool)
    requires IsDeclared(h, t)
    modifies typesUnderProcess
    ensures DataRule(h, t).None? ==> !r && typesUnderProcess.elements == old(typesUnderProcess.elements)
    ensures DataRule(h, t).Some? ==>
      (r, typesUnderProcess.elements) == AllCustomData(h, DataRule(h, t).value, old(typesUnderProcess.elements))
    decreases |h.types.Keys - typesUnderProcess.elements|, 2
  {
    var typeElement := TypeElementOf(h, t);
    if typeElement.None? {
      return false;
    }
    var view := Shape(h, t).view;

    // Dictionary types: every ancestor substitution's key and value type.
    if view.dictionaryAncestors.Some? {
      r := CheckAncestors(h, view.dictionaryAncestors.value, typesUnderProcess);
      return;
    }

    // Generic collection types: elementTypes.All(IsCustomDataType).
    var elementTypes := if view.enumerableElements.Some? then view.enumerableElements else view.listElements;
    if elementTypes.Some? {
      r := CheckAll(h, elementTypes.value, typesUnderProcess);
      return;
    }

    // Non-generic IList, IEnumerable, IDictionary.
    if view.untypedCollection {
      return true;
    }

    // POCO types.
    var te := h.elements[typeElement.value];
    if te.kind.ClassKind? {
      var superClass := te.baseClass;
      if superClass.Some? && superClass.value != h.objectType {
        return false;
      }
      if !te.instantiableWithPublicDefaultConstructor {
        return false;
      }
      r := CheckMemberTypes(h, view.members, typesUnderProcess);
      return;
    }
    if te.kind.StructKind? {
      r := CheckMemberTypes(h, view.members, typesUnderProcess);
      return;
    }
    return false;
  }

  /** The loop over GetAncestorSubstitution: key type, then value type, of each substitution. */
  method CheckAncestors(h: Host, ancestors: seq<(TypeId, TypeId)>, typesUnderProcess: TypeSet) returns (r: bool)
    modifies typesUnderProcess
    ensures (r, typesUnderProcess.elements) == AllCustomData(h, PairTypes(ancestors), old(typesUnderProcess.elements))
    decreases |h.types.Keys - typesUnderProcess.elements|, 1
  {
    ghost var start := typesUnderProcess.elements;
    var i := 0;
    while i < |ancestors|
      invariant 0 <= i <= |ancestors|
      invariant start <= typesUnderProcess.elements
      invariant AllCustomData(h, PairTypes(ancestors), start) == AllCustomData(h, PairTypes(ancestors[i..]), typesUnderProcess.elements)
    {
      assert ancestors[i..][1..] == ancestors[i + 1..];
      ghost var rest := PairTypes(ancestors[i + 1..]);
      assert ([ancestors[i].0, ancestors[i].1] + rest)[1..] == [ancestors[i].1] + rest;
      assert ([ancestors[i].1] + rest)[1..] == rest;
      NoGrowth(h.types.Keys, start, typesUnderProcess.elements);
      var keyOk := IsCustomDataType(h, ancestors[i].0, typesUnderProcess);
      if !keyOk {
        return false;
      }
      NoGrowth(h.types.Keys, start, typesUnderProcess.elements);
      var valueOk := IsCustomDataType(h, ancestors[i].1, typesUnderProcess);
      if !valueOk {
        return false;
      }
      i := i + 1;
    }
    return true;
  }

  /** `elementTypes.All(IsCustomDataType)`: left to right, stopping at the first failure. */
  method CheckAll(h: Host, ts: seq<TypeId>, typesUnderProcess: TypeSet) returns (r: bool)
    modifies typesUnderProcess
    ensures (r, typesUnderProcess.elements) == AllCustomData(h, ts, old(typesUnderProcess.elements))
    decreases |h.types.Keys - typesUnderProcess.elements|, 1
  {
    ghost var start := typesUnderProcess.elements;
    var j := 0;
    while j < |ts|
      invariant 0 <= j <= |ts|
      invariant start <= typesUnderProcess.elements
      invariant AllCustomData(h, ts, start) == AllCustomData(h, ts[j..], typesUnderProcess.elements)
    {
      assert ts[j..][1..] == ts[j + 1..];
      NoGrowth(h.types.Keys, start, typesUnderProcess.elements);
      var ok := IsCustomDataType(h, ts[j], typesUnderProcess);
      if !ok {
        return false;
      }
      j := j + 1;
    }
    return true;
  }

  /** The local function CheckMemberTypes: every field and non-indexer property, in order. */
  method CheckMemberTypes(h: Host, members: seq<Member>, typesUnderProcess: TypeSet) returns (r: bool)
    modifies typesUnderProcess
    ensures (r, typesUnderProcess.elements) == AllCustomData(h, MemberTypes(members), old(typesUnderProcess.elements))
    decreases |h.types.Keys - typesUnderProcess.elements|, 1
  {
    ghost var start := typesUnderProcess.elements;
    var i := 0;
    while i < |members|
      invariant 0 <= i <= |members|
      invariant start <= typesUnderProcess.elements
      invariant AllCustomData(h, MemberTypes(members), start) == AllCustomData(h, MemberTypes(members[i..]), typesUnderProcess.elements)
    {
      assert members[i..][1..] == members[i + 1..];
      ghost var rest := MemberTypes(members[i + 1..]);
      match members[i] {
      case FieldMember(isField, fieldType) =>
        if isField {
          assert ([fieldType] + rest)[1..] == rest;
          NoGrowth(h.types.Keys, start, typesUnderProcess.elements);
          var ok := IsCustomDataType(h, fieldType, typesUnderProcess);
          if !ok {
            return false;
          }
        } else {
          assert [] + rest == rest;
        }
      case PropertyMember(isDefault, propertyType) =>
        if !isDefault {
          assert ([propertyType] + rest)[1..] == rest;
          NoGrowth(h.types.Keys, start, typesUnderProcess.elements);
          var ok := IsCustomDataType(h, propertyType, typesUnderProcess);
          if !ok {
            return false;
          }
        } else {
          assert [] + rest == rest;
        }
      case OtherMember =>
      }
      i := i + 1;
    }
    return true;
  }

  /** IsCustomDataType(type, new HashSet<IType>(), logger), as every caller invokes it. */
  predicate IsCustomData(h: Host, t: TypeId) {
    CustomData(h, t, {}).0
  }

  /** A class among the type elements of namespace `ns` from which `e` descends. */
  predicate DescendsFromClassIn(h: Host, e: ElementId, ns: string) {
    ns in h.namespaceElements &&
    exists k :: 0 <= k < |h.namespaceElements[ns]| &&
      IsClassElement(h, h.namespaceElements[ns][k]) && (e, h.namespaceElements[ns][k]) in h.descendants
  }

  /** IsAmazonEventType: the type element descends from a class of some Amazon.Lambda.*Events namespace. */
  predicate IsAmazonEventType(h: Host, t: TypeId) {
    DeclaredClrName(h, t).Some? &&
    TypeElementOf(h, t).Some? &&
    AmazonLambdaNamespaceTypeName in h.nestedNamespaces &&
    exists k :: 0 <= k < |h.nestedNamespaces[AmazonLambdaNamespaceTypeName]| &&
      EndsWith(h.nestedNamespaces[AmazonLambdaNamespaceTypeName][k], "Events") &&
      DescendsFromClassIn(h, TypeElementOf(h, t).value, h.nestedNamespaces[AmazonLambdaNamespaceTypeName][k])
  }

  /** IsStreamType: a subtype of System.IO.Stream. */
  predicate IsStreamType(h: Host, t: TypeId) {
    (t, h.streamType) in h.subtypes
  }

  /** GetAttributeInstances(name, inherit: true): the attributes of that type, in order. */
  function InstancesOf(attributes: seq<Attribute>, name: string): (r: seq<Attribute>)
    ensures forall a :: a in r <==> a in attributes && a.attributeType == name
  {
    if attributes == [] then []
    else (if attributes[0].attributeType == name then [attributes[0]] else []) + InstancesOf(attributes[1..], name)
  }

  /** Some positional argument of the attribute is a type that is a subtype of ILambdaSerializer. */
  predicate NamesSerializer(h: Host, a: Attribute) {
    exists k :: 0 <= k < |a.positional| && a.positional[k].Some? && (a.positional[k].value, h.serializerType) in h.subtypes
  }

  predicate AnyNamesSerializer(h: Host, attributes: seq<Attribute>) {
    exists k :: 0 <= k < |attributes| && NamesSerializer(h, attributes[k])
  }

  /** IsSerializerDefined: method-level LambdaSerializerAttribute first, then assembly-level. */
  predicate IsSerializerDefined(h: Host, m: Method) {
    var methodAttributes := InstancesOf(m.attributes, AmazonAttributeTypeName);
    var assemblyAttributes := InstancesOf(h.assemblyAttributes, AmazonAttributeTypeName);
    (|methodAttributes| > 0 && AnyNamesSerializer(h, methodAttributes)) ||
    (|assemblyAttributes| > 0 && AnyNamesSerializer(h, assemblyAttributes))
  }

  /** IsLambdaContextType: the CLR name is exactly Amazon.Lambda.Core.ILambdaContext. */
  predicate IsLambdaContextType(h: Host, t: TypeId) {
    DeclaredClrName(h, t) == Some(LambdaContextTypeName)
  }

  /** An input or output that needs a serializer: an Amazon event type or a custom data type. */
  predicate IsDataType(h: Host, t: TypeId) {
    IsAmazonEventType(h, t) || IsCustomData(h, t)
  }

  /** HasRequiredParameters, with C#'s `&&` binding tighter than `||`. */
  predicate HasRequiredParameters(h: Host, m: Method) {
    if |m.parameters| == 1 then
      IsStreamType(h, m.parameters[0]) || (IsDataType(h, m.parameters[0]) && IsSerializerDefined(h, m))
    else if |m.parameters| == 2 then
      IsStreamType(h, m.parameters[0]) ||
      (IsDataType(h, m.parameters[0]) && IsSerializerDefined(h, m) && IsLambdaContextType(h, m.parameters[1]))
    else false
  }

  /** IsTask() / IsGenericTask() of a type: what the host reports for a declared type, nothing otherwise. */
  function TaskShapeOf(h: Host, t: TypeId): TaskShape {
    match Shape(h, t)
    case DeclaredType(_, _, view) => view.task
    case _ => NotTask
  }

  /** HasRequiredReturnType. */
  predicate HasRequiredReturnType(h: Host, m: Method) {
    var returnType := m.returnType;
    if m.isAsync then
      if Shape(h, returnType).VoidType? || TaskShapeOf(h, returnType).BareTask? then true
      else if TaskShapeOf(h, returnType).GenericTask? then
        IsDataType(h, TaskShapeOf(h, returnType).underlying) && IsSerializerDefined(h, m)
      else false
    else
      IsStreamType(h, returnType) || (IsDataType(h, returnType) && IsSerializerDefined(h, m))
  }

  /** `method.GetContainingType() as IClass`. */
  function ContainingClass(h: Host, m: Method): (r: Option<ElementId>)
    ensures r.Some? <==> m.containingType.Some? && IsClassElement(h, m.containingType.value)
    ensures r.Some? ==> r == m.containingType
  {
    if m.containingType.Some? && IsClassElement(h, m.containingType.value) then m.containingType else None
  }

  /** HasSuperTypes: a class with more than one supertype; false for a non-class. */
  predicate HasSuperTypes(h: Host, c: Option<ElementId>) {
    c.Some? && c.value in h.elements && h.elements[c.value].superTypeCount > 1
  }

  /** CanBeInstantiatedByLambda. */
  predicate CanBeInstantiatedByLambda(te: TypeElement) {
    te.isPublic && te.instantiableWithPublicDefaultConstructor
  }

  /** IsValidInstanceOrStaticMethod. */
  predicate IsValidInstanceOrStaticMethod(h: Host, m: Method) {
    var c := ContainingClass(h, m);
    c.Some? && (m.isStatic || CanBeInstantiatedByLambda(h.elements[c.value]))
  }

  /** IsSuitableLambdaMethod: `None` is a null method. */
  predicate IsSuitableLambdaMethod(h: Host, m: Option<Method>) {
    m.Some? &&
    m.value.isPublic &&
    !HasSuperTypes(h, ContainingClass(h, m.value)) &&
    IsValidInstanceOrStaticMethod(h, m.value) &&
    HasRequiredParameters(h, m.value) &&
    HasRequiredReturnType(h, m.value)
  }
}
