/**
  The host IDE's type system, as the handler classifiers see it.

  The ReSharper symbol API (IType, ITypeElement, IsSubtypeOf, IsDescendantOf,
  GetAncestorSubstitution, CollectionTypeUtil, CanInstantiateWithPublicDefaultConstructor,
  the symbol scope's namespace lookup) is not re-implemented: a `Host` value records the
  answers it gives, as finite tables and relations over type ids and type-element ids.
 */
module HostModel {
  import opened Wrappers

  /** A type (IType) of the host's finite type universe `Host.types`. */
  type TypeId = nat

  /** A type element (ITypeElement): a declared class, struct, interface, ... */
  type ElementId = nat

  /** What IsTask / IsGenericTask / GetGenericUnderlyingType answer for a declared type. */
  datatype TaskShape = NotTask | BareTask | GenericTask(underlying: TypeId)

  /** A member returned by GetMembers(), with the declared type's substitution already applied. */
  datatype Member =
    | FieldMember(isField: bool, fieldType: TypeId)             // IField; IsField is false for constants
    | PropertyMember(isDefault: bool, propertyType: TypeId)     // IProperty; IsDefault marks an indexer
    | OtherMember                                               // methods, events, nested types, ...

  /**
    The structural queries the classifier asks of a declared type.
    - dictionaryAncestors: None when the type's element is not a descendant of IDictionary<TKey, TValue>
      (or that element cannot be found); otherwise the (key, value) types of every ancestor substitution.
    - enumerableElements / listElements: GetElementTypesForGenericType for IEnumerable<T> / IList<T>
      (None is the source's null).
    - untypedCollection: subtype of the non-generic IList, IEnumerable or IDictionary.
    - members: every member of the type element, substitution applied.
   */
  datatype DeclaredView = DeclaredView(
    dictionaryAncestors: Option<seq<(TypeId, TypeId)>>,
    enumerableElements: Option<seq<TypeId>>,
    listElements: Option<seq<TypeId>>,
    untypedCollection: bool,
    members: seq<Member>,
    task: TaskShape)

  datatype TypeShape =
    | VoidType
    | SimplePredefined                 // IsSimplePredefined(): bool, char, numeric types, string, ...
    | DateTimeType
    | DateTimeOffsetType
    | ArrayType(elementType: TypeId)
    | DeclaredType(clrName: string, element: Option<ElementId>, view: DeclaredView)
    | OtherType                        // type parameters, pointers, function types, ...

  datatype ElementKind = ClassKind | StructKind | InterfaceKind | OtherKind

  datatype Constructor = Constructor(isPublic: bool, parameterCount: nat)

  datatype TypeElement = TypeElement(
    clrName: string,                                    // GetClrName() / GetFullClrName()
    kind: ElementKind,
    isPublic: bool,                                     // GetAccessRights() == PUBLIC
    isAbstract: bool,
    superTypeCount: nat,                                // GetSuperTypes().Count
    baseClass: Option<TypeId>,                          // GetBaseClassType()
    constructors: seq<Constructor>,
    instantiableWithPublicDefaultConstructor: bool)     // CanInstantiateWithPublicDefaultConstructor()

  /** An attribute instance: its CLR type name and the TypeValue of each positional argument. */
  datatype Attribute = Attribute(attributeType: string, positional: seq<Option<TypeId>>)

  /** A method (IMethod) as the classifiers read it. */
  datatype Method = Method(
    shortName: string,
    isPublic: bool,                        // GetAccessRights() == PUBLIC
    isStatic: bool,
    isAsync: bool,
    containingType: Option<ElementId>,     // GetContainingType()
    parameters: seq<TypeId>,               // the parameters' types, in order
    returnType: TypeId,
    attributes: seq<Attribute>)            // GetAttributeInstances(_, inherit: true)

  datatype Host = Host(
    types: map<TypeId, TypeShape>,
    elements: map<ElementId, TypeElement>,
    subtypes: set<(TypeId, TypeId)>,               // (t, u): t.IsSubtypeOf(u)
    descendants: set<(ElementId, ElementId)>,      // (e, f): e.IsDescendantOf(f)
    validTypes: set<TypeId>,                       // IType.IsValid()
    objectType: TypeId,                            // predefined object
    streamType: TypeId,                            // the type named System.IO.Stream
    serializerType: TypeId,                        // the type named Amazon.Lambda.Core.ILambdaSerializer
    taskType: TypeId,                              // predefined System.Threading.Tasks.Task
    elementByName: map<string, ElementId>,         // CLR name -> type element, where it resolves
    nestedNamespaces: map<string, seq<string>>,    // namespace -> qualified names of its nested namespaces
    namespaceElements: map<string, seq<ElementId>>,// namespace -> type elements nested in it
    assemblyAttributes: seq<Attribute>)            // GetModuleAttributes(module)

  /** The shape of a type; an id outside the universe is an unresolved type. */
  function Shape(h: Host, t: TypeId): TypeShape {
    if t in h.types then h.types[t] else OtherType
  }

  predicate IsDeclared(h: Host, t: TypeId) {
    Shape(h, t).DeclaredType?
  }

  /** `type.GetTypeElement()`: the element of a declared type, when it resolves. */
  function TypeElementOf(h: Host, t: TypeId): Option<ElementId> {
    match Shape(h, t)
    case DeclaredType(_, Some(e), _) => if e in h.elements then Some(e) else None
    case _ => None
  }

  /** The CLR name of a declared type (`(type as IDeclaredType)?.GetClrName()`). */
  function DeclaredClrName(h: Host, t: TypeId): Option<string> {
    match Shape(h, t)
    case DeclaredType(name, _, _) => Some(name)
    case _ => None
  }

  predicate IsClassElement(h: Host, e: ElementId) {
    e in h.elements && h.elements[e].kind == ClassKind
  }

  /**
    What the host's answers always satisfy: IsSubtypeOf is reflexive, void is a subtype of
    nothing but itself, and System.IO.Stream is a declared type.
   */
  predicate WellFormed(h: Host) {
    (forall t :: t in h.types ==> (t, t) in h.subtypes) &&
    (forall p :: p in h.subtypes && Shape(h, p.0).VoidType? ==> p.0 == p.1) &&
    IsDeclared(h, h.streamType)
  }

  predicate EndsWith(s: string, suffix: string) {
    |suffix| <= |s| && s[|s| - |suffix|..] == suffix
  }
}
