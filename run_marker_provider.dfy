/**
  The second, independent handler check of the run-marker provider
  (LambdaRunMarkerProvider.IsSuitableLambdaMethod and its helpers). It differs from
  LambdaFinder: zero parameters are allowed, a static `Main` is excluded, instantiability is
  checked from IsAbstract and the constructor list, event types come from a fixed list of
  namespaces, and "custom data" is a validity check plus an attribute lookup with no
  structural check of the type.
 */
module LambdaRunMarkerProvider {
  import opened Wrappers
  import opened HostModel

  const LambdaContextTypeName := "Amazon.Lambda.Core.ILambdaContext"
  const StreamTypeName := "System.IO.Stream"
  const SerializerLambdaType := "Amazon.Lambda.Core.ILambdaSerializer"
  const TaskTypeName := "System.Threading.Tasks.Task"

  /** The fixed list of Amazon event namespaces searched by IsAmazonEventType. */
  const AmazonLambdaEventNamespaces: seq<string> := [
    "Amazon.Lambda.APIGatewayEvents",
    "Amazon.Lambda.ApplicationLoadBalancerEvents",
    "Amazon.Lambda.CloudWatchLogsEvents",
    "Amazon.Lambda.CognitoEvents",
    "Amazon.Lambda.ConfigEvents",
    "Amazon.Lambda.DynamoDBEvents",
    "Amazon.Lambda.LexEvents",
    "Amazon.Lambda.KinesisAnalyticsEvents",
    "Amazon.Lambda.KinesisEvents",
    "Amazon.Lambda.KinesisFirehoseEvents",
    "Amazon.Lambda.S3Events",
    "Amazon.Lambda.SimpleEmailEvents",
    "Amazon.Lambda.SNSEvents",
    "Amazon.Lambda.SQSEvents"
  ]

  /**
    IsDescendantOf(baseTypeClrName, type): false for a null element; otherwise the element
    descends from the element the name resolves to (a name that resolves to nothing has no
    descendants).
   */
  predicate IsDescendantOf(h: Host, baseTypeClrName: string, e: Option<ElementId>) {
    e.Some? && baseTypeClrName in h.elementByName && (e.value, h.elementByName[baseTypeClrName]) in h.descendants
  }

  predicate IsPublic(m: Method) {
    m.isPublic
  }

  /** HasPublicNoArgsConstructor: no declared constructors, or a public one without parameters. */
  predicate HasPublicNoArgsConstructor(te: TypeElement) {
    |te.constructors| == 0 ||
    exists k :: 0 <= k < |te.constructors| && te.constructors[k].isPublic && te.constructors[k].parameterCount == 0
  }

  predicate CanBeInstantiatedByLambda(te: TypeElement) {
    te.isPublic && !te.isAbstract && HasPublicNoArgsConstructor(te)
  }

  /** IsValidInstanceOrStaticMethod: a static non-Main method, or an instance method of an instantiable class. */
  predicate IsValidInstanceOrStaticMethod(h: Host, m: Method) {
    var isStaticValid := m.isStatic && m.shortName != "Main";
    if isStaticValid then true
    else if !(m.containingType.Some? && IsClassElement(h, m.containingType.value)) then false
    else !m.isStatic && CanBeInstantiatedByLambda(h.elements[m.containingType.value])
  }

  /** IsMethodOrAssemblySerializable: any attribute instance of type ILambdaSerializer on the method. */
  predicate IsMethodOrAssemblySerializable(m: Method) {
    exists k :: 0 <= k < |m.attributes| && m.attributes[k].attributeType == SerializerLambdaType
  }

  /**
    A class of the namespace `ns` whose CLR name is `clrName`, or from which the type element
    `e` descends.
   */
  predicate EventClassIn(h: Host, ns: string, clrName: string, e: Option<ElementId>) {
    ns in h.namespaceElements &&
    exists k :: 0 <= k < |h.namespaceElements[ns]| &&
      IsClassElement(h, h.namespaceElements[ns][k]) &&
      (h.elements[h.namespaceElements[ns][k]].clrName == clrName ||
       IsDescendantOf(h, h.elements[h.namespaceElements[ns][k]].clrName, e))
  }

  /** IsAmazonEventType: the search over the fixed namespace list. */
  predicate IsAmazonEventType(h: Host, t: TypeId) {
    DeclaredClrName(h, t).Some? &&
    exists i :: 0 <= i < |AmazonLambdaEventNamespaces| &&
      EventClassIn(h, AmazonLambdaEventNamespaces[i], DeclaredClrName(h, t).value, TypeElementOf(h, t))
  }

  /** IsStreamType: System.IO.Stream itself, or a type whose element descends from it. */
  predicate IsStreamType(h: Host, t: TypeId) {
    (IsDeclared(h, t) && t == h.streamType) || IsDescendantOf(h, StreamTypeName, TypeElementOf(h, t))
  }

  /** IsCustomDataType: a valid type that is an event type, or any type if the method carries the attribute. */
  predicate IsCustomDataType(h: Host, m: Method, t: TypeId) {
    t in h.validTypes && (IsAmazonEventType(h, t) || IsMethodOrAssemblySerializable(m))
  }

  predicate IsLambdaContextType(h: Host, t: TypeId) {
    DeclaredClrName(h, t) == Some(LambdaContextTypeName)
  }

  /** HasRequiredParameters. */
  predicate HasRequiredParameters(h: Host, m: Method) {
    var parameters := m.parameters;
    if |parameters| == 0 then true
    else if |parameters| == 1 then IsStreamType(h, parameters[0]) || IsCustomDataType(h, m, parameters[0])
    else if |parameters| == 2 then
      (IsStreamType(h, parameters[0]) || IsCustomDataType(h, m, parameters[0])) && IsLambdaContextType(h, parameters[1])
    else false
  }

  /** HasRequiredReturnType: sync needs Stream or custom data; async needs void, Task or a Task descendant. */
  predicate HasRequiredReturnType(h: Host, m: Method) {
    var returnType := m.returnType;
    (!m.isAsync && (IsStreamType(h, returnType) || IsCustomDataType(h, m, returnType))) ||
    (m.isAsync && (Shape(h, returnType).VoidType? || returnType == h.taskType ||
                   IsDescendantOf(h, TaskTypeName, TypeElementOf(h, returnType))))
  }

  /** IsSuitableLambdaMethod: the first of its two return statements. */
  predicate IsSuitableLambdaMethod(h: Host, m: Method) {
    var isPublic := IsPublic(m);
    var isValidInstanceOrStaticMethod := IsValidInstanceOrStaticMethod(h, m);
    var hasRequiredParameters := HasRequiredParameters(h, m);
    var hasRequiredReturnType := HasRequiredReturnType(h, m);
    isPublic && isValidInstanceOrStaticMethod && hasRequiredParameters && hasRequiredReturnType
  }
}
