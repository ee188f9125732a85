# Lambda handler detection and handler strings

This project models the part of the AWS Toolkit for JetBrains IDEs that decides which methods
are AWS Lambda handlers and builds or parses handler strings. It covers:

- **LambdaFinder** (Rider backend, C#). `IsSuitableLambdaMethod` makes five checks in order:
  the method is public; its class has at most one supertype; it is callable (static, or an
  instance method of a class instantiable by Lambda); its parameter shape is valid; its return
  shape is valid. The helpers are the recursive custom-data classifier `IsCustomDataType`,
  which has a cycle guard, the two-tier serializer lookup, and the exact-name check for the
  context type.
- **LambdaRunMarkerProvider** (C#). This is the divergent second variant of the same check.
  It accepts zero parameters and rejects static `Main`. It checks abstractness and
  constructors itself, uses a fixed list of 14 event namespaces, and makes no structural data
  check.
- **LambdaHost** (C#). `DetermineHandlers` walks the solution in five nested loops.
  `ComposeHandlerString` builds `assembly::type::method`.
- **LambdaRunMarkerGutterMark** (C#). `ComposeHandlerString` cuts the type from the marker's
  full name by length.
- **DotNetLambdaHandlerResolver** (Kotlin). It splits a handler on `"::"`, checks the segment
  count and rebuilds the handler.
- **NodeJsLambdaHandlerResolver** (Kotlin). It handles handlers of the form `path/file.function`,
  and the syntax `exports.name = function (a, b[, c])` that marks a handler.

The modules, one file each:

- `HostModel` (host_model.dfy). The IDE's type system as finite data. Types and type
elements are ids, and the answers of the symbol API (subtyping, descent, ancestor
substitutions, collection element types, instantiability, namespace contents) are tables
and relations of a `Host` value.
- `CustomDataSpec`. `CustomData` is the function that the imperative `IsCustomDataType` computes:
the verdict together with the shared set of types under process. The main theorem is
`CustomDataIsGreatestFixpoint`: a type is custom data exactly when it lies in a set of types
each of which passes its local check with all of its dependencies inside the set.
- `LambdaFinder`. The C# `HashSet` is the class `TypeSet`, and `IsCustomDataType` is a
method over it with the source's loops and early returns. The method is proved to compute
`CustomData`. The remaining checks are predicates.
- `FinderProperties`. What `IsSuitableLambdaMethod` promises.
- `LambdaRunMarkerProvider` and `ProviderProperties`. The second variant and its properties.
- `DetectionVariants`. The two variants side by side, and a concrete program.
- `KotlinText`. Kotlin's `indexOf`, `split`, `joinToString` and `lastIndexOf`, with split and
join proved to be inverse.
- `DotNetLambdaHandlerResolver`, `NodeJsLambdaHandlerResolver`, `LambdaHost`,
`LambdaRunMarkerGutterMark`.

## Model

| member | source | states |
|---|---|---|
| LambdaFinder.TypeSet.Add | jetbrains-rider/ReSharper.AWS/src/AWS.Daemon/Lambda/LambdaFinder.cs:113 | adding a type reports whether it was new and leaves the set as the old set plus that type (HashSet.Add) |
| LambdaFinder.IsCustomDataType | jetbrains-rider/ReSharper.AWS/src/AWS.Daemon/Lambda/LambdaFinder.cs:111-198 | the verdict and the set under process afterwards are exactly `CustomDataSpec.CustomData` of the type and the set before the call; a type already under process is accepted at once |
| LambdaFinder.IsCustomDeclaredType | jetbrains-rider/ReSharper.AWS/src/AWS.Daemon/Lambda/LambdaFinder.cs:137-198 | a declared type the local rule rejects gives false and leaves the set unchanged; otherwise the verdict and new set are those of checking its dependencies left to right |
| LambdaFinder.CheckAncestors | jetbrains-rider/ReSharper.AWS/src/AWS.Daemon/Lambda/LambdaFinder.cs:137-158 | the loop over the dictionary's ancestor substitutions checks each key then value type, stops at the first failure, and computes `AllCustomData` over those types |
| LambdaFinder.CheckAll | jetbrains-rider/ReSharper.AWS/src/AWS.Daemon/Lambda/LambdaFinder.cs:161-170 | the loop over a collection's element types computes `AllCustomData` over them |
| LambdaFinder.CheckMemberTypes | jetbrains-rider/ReSharper.AWS/src/AWS.Daemon/Lambda/LambdaFinder.cs:201-225 | the loop over the members checks fields and non-indexer properties in order, stops at the first failure, and computes `AllCustomData` over their types |
| LambdaFinder.InstancesOf | jetbrains-rider/ReSharper.AWS/src/AWS.Daemon/Lambda/LambdaFinder.cs:286-299 | the attribute instances of the given type are exactly the attributes carrying that type name |
| LambdaFinder.ContainingClass | jetbrains-rider/ReSharper.AWS/src/AWS.Daemon/Lambda/LambdaFinder.cs:49-62 | the containing type seen as a class exists exactly when the method's containing type is a class element, and it is that element |
| CustomDataSpec.CustomData | jetbrains-rider/ReSharper.AWS/src/AWS.Daemon/Lambda/LambdaFinder.cs:111-124 | the set under process after the check holds the old set and the checked type |
| CustomDataSpec.AllCustomData | jetbrains-rider/ReSharper.AWS/src/AWS.Daemon/Lambda/LambdaFinder.cs:144-155 | the set under process only grows while the types are checked |
| CustomDataSpec.AllCustomDataOne | jetbrains-rider/ReSharper.AWS/src/AWS.Daemon/Lambda/LambdaFinder.cs:121-124 | checking the single element type of an array is checking that type |
| CustomDataSpec.CustomDataSound | jetbrains-rider/ReSharper.AWS/src/AWS.Daemon/Lambda/LambdaFinder.cs:111-198 | a true verdict is justified: every type the check entered passes its local rule with all its dependencies among the entered types |
| CustomDataSpec.AllCustomDataSound | jetbrains-rider/ReSharper.AWS/src/AWS.Daemon/Lambda/LambdaFinder.cs:144-222 | a walk that succeeds enters every type it was given, and every type it entered passes its local rule inside the final set |
| CustomDataSpec.CustomDataComplete | jetbrains-rider/ReSharper.AWS/src/AWS.Daemon/Lambda/LambdaFinder.cs:111-198 | every type of a set whose members all pass their local rule inside the set is accepted |
| CustomDataSpec.AllCustomDataComplete | jetbrains-rider/ReSharper.AWS/src/AWS.Daemon/Lambda/LambdaFinder.cs:144-222 | a walk over types of such a set succeeds |
| CustomDataSpec.CustomDataCharacterisation | jetbrains-rider/ReSharper.AWS/src/AWS.Daemon/Lambda/LambdaFinder.cs:111-198 | the verdict is true exactly when the type lies in a set closed under the local rule outside the types already under process |
| CustomDataSpec.CustomDataIsGreatestFixpoint | jetbrains-rider/ReSharper.AWS/src/AWS.Daemon/Lambda/LambdaFinder.cs:111-198 | from an empty set under process, a type is custom data exactly when it lies in some set closed under the local rule: the greatest fixpoint |
| CustomDataSpec.CustomDataMonotoneInVisited | jetbrains-rider/ReSharper.AWS/src/AWS.Daemon/Lambda/LambdaFinder.cs:113 | more types under process never turn a true verdict false |
| CustomDataSpec.SelfReferentialType | jetbrains-rider/ReSharper.AWS/src/AWS.Daemon/Lambda/LambdaFinder.cs:113-116 | a type whose only dependency is itself (a class with a field of its own type) terminates and is custom data when it passes its local rule |
| CustomDataSpec.RejectedType | jetbrains-rider/ReSharper.AWS/src/AWS.Daemon/Lambda/LambdaFinder.cs:113-116 | a type rejected by its local rule is custom data only when it is already under process |
| LambdaFinder.IsSuitableLambdaMethod | jetbrains-rider/ReSharper.AWS/src/AWS.Daemon/Lambda/LambdaFinder.cs:45-53 | the five checks in order: non-null, public, no class with several supertypes, callable, parameters and result; its properties are the FinderProperties rows below |
| LambdaFinder.HasSuperTypes | jetbrains-rider/ReSharper.AWS/src/AWS.Daemon/Lambda/LambdaFinder.cs:55-58 | a class with more than one supertype; false for a non-class |
| LambdaFinder.IsValidInstanceOrStaticMethod | jetbrains-rider/ReSharper.AWS/src/AWS.Daemon/Lambda/LambdaFinder.cs:60-66 | a class method that is static or whose class the runtime can instantiate; see FinderProperties.StaticNeverHurts |
| LambdaFinder.CanBeInstantiatedByLambda | jetbrains-rider/ReSharper.AWS/src/AWS.Daemon/Lambda/LambdaFinder.cs:68-72 | a public class instantiable with a public default constructor |
| LambdaFinder.HasRequiredParameters | jetbrains-rider/ReSharper.AWS/src/AWS.Daemon/Lambda/LambdaFinder.cs:74-102 | one or two parameters, a Stream first or a data type with a serializer and then exactly ILambdaContext; see StreamFirstIgnoresSecond and ContextParameterNeutral |
| LambdaFinder.IsCustomData | jetbrains-rider/ReSharper.AWS/src/AWS.Daemon/Lambda/LambdaFinder.cs:84 | the custom-data check from an empty set under process, as every caller starts it; characterised by CustomDataSpec.CustomDataIsGreatestFixpoint |
| LambdaFinder.IsAmazonEventType | jetbrains-rider/ReSharper.AWS/src/AWS.Daemon/Lambda/LambdaFinder.cs:233-265 | a declared type with an element that descends from a class of a nested Amazon.Lambda namespace ending in Events; see FinderProperties.EventTypeIgnoresOtherNamespaces |
| LambdaFinder.IsStreamType | jetbrains-rider/ReSharper.AWS/src/AWS.Daemon/Lambda/LambdaFinder.cs:267-271 | a subtype of System.IO.Stream |
| LambdaFinder.IsSerializerDefined | jetbrains-rider/ReSharper.AWS/src/AWS.Daemon/Lambda/LambdaFinder.cs:279-304 | a method-level, then an assembly-level LambdaSerializerAttribute naming an ILambdaSerializer subtype; characterised by FinderProperties.SerializerDefinedCharacterisation |
| LambdaFinder.IsLambdaContextType | jetbrains-rider/ReSharper.AWS/src/AWS.Daemon/Lambda/LambdaFinder.cs:312-316 | the CLR name is exactly Amazon.Lambda.Core.ILambdaContext |
| LambdaFinder.HasRequiredReturnType | jetbrains-rider/ReSharper.AWS/src/AWS.Daemon/Lambda/LambdaFinder.cs:318-336 | async: void, Task, or Task<T> of a data type with a serializer; sync: a Stream or a data type with a serializer; see SyncReturnLikeParameter and AsyncResultAcceptedSynchronously |
| FinderProperties.ClosedUnion | jetbrains-rider/ReSharper.AWS/src/AWS.Daemon/Lambda/LambdaFinder.cs:111-198 | the union of two sets closed under the local rule is closed |
| FinderProperties.CommonClosedSet | jetbrains-rider/ReSharper.AWS/src/AWS.Daemon/Lambda/LambdaFinder.cs:111-198 | types that are each custom data lie together in one closed set |
| FinderProperties.CustomDataCompositional | jetbrains-rider/ReSharper.AWS/src/AWS.Daemon/Lambda/LambdaFinder.cs:111-198 | for a type the local rule accepts with some dependencies, it is custom data exactly when every dependency is |
| FinderProperties.CustomDataBaseCases | jetbrains-rider/ReSharper.AWS/src/AWS.Daemon/Lambda/LambdaFinder.cs:116-119 | void is never custom data; simple predefined types, DateTime and DateTimeOffset always are |
| FinderProperties.ArrayCustomData | jetbrains-rider/ReSharper.AWS/src/AWS.Daemon/Lambda/LambdaFinder.cs:121-124 | an array is custom data exactly when its element type is |
| FinderProperties.PairTypesMembers | jetbrains-rider/ReSharper.AWS/src/AWS.Daemon/Lambda/LambdaFinder.cs:144-155 | the types checked for a dictionary are exactly the keys and values of its ancestor substitutions |
| FinderProperties.DictionaryCustomData | jetbrains-rider/ReSharper.AWS/src/AWS.Daemon/Lambda/LambdaFinder.cs:137-158 | a generic dictionary is custom data exactly when every ancestor's key and value types are |
| FinderProperties.ClassRequirements | jetbrains-rider/ReSharper.AWS/src/AWS.Daemon/Lambda/LambdaFinder.cs:182-192 | a class accepted as custom data has no base or object as base and a public default constructor |
| FinderProperties.InterfaceRejected | jetbrains-rider/ReSharper.AWS/src/AWS.Daemon/Lambda/LambdaFinder.cs:182-197 | a declared type whose element is an interface, not a collection, is never custom data |
| FinderProperties.EventTypeIgnoresOtherNamespaces | jetbrains-rider/ReSharper.AWS/src/AWS.Daemon/Lambda/LambdaFinder.cs:244-262 | only namespaces nested in Amazon.Lambda whose name ends in Events are consulted; changing the elements of any other namespace never changes the event-type verdict |
| FinderProperties.InstancesOfIndex | jetbrains-rider/ReSharper.AWS/src/AWS.Daemon/Lambda/LambdaFinder.cs:286-291 | some LambdaSerializerAttribute instance names a serializer exactly when some attribute of that type at some index does |
| FinderProperties.SerializerDefinedCharacterisation | jetbrains-rider/ReSharper.AWS/src/AWS.Daemon/Lambda/LambdaFinder.cs:279-304 | a serializer is defined exactly when a method-level LambdaSerializerAttribute names a subtype of ILambdaSerializer, or an assembly-level one does |
| FinderProperties.NonSerializerArgumentIgnored | jetbrains-rider/ReSharper.AWS/src/AWS.Daemon/Lambda/LambdaFinder.cs:289-303 | adding an attribute whose argument is not an ILambdaSerializer subtype never changes the serializer verdict |
| FinderProperties.SerializerMonotone | jetbrains-rider/ReSharper.AWS/src/AWS.Daemon/Lambda/LambdaFinder.cs:286-303 | more method attributes never take a defined serializer away |
| FinderProperties.SuitableIsPublic | jetbrains-rider/ReSharper.AWS/src/AWS.Daemon/Lambda/LambdaFinder.cs:45-58 | a suitable method is non-null and public, its containing type is a class, and that class has at most one supertype |
| FinderProperties.SuitableMonotoneInAttributes | jetbrains-rider/ReSharper.AWS/src/AWS.Daemon/Lambda/LambdaFinder.cs:45-53 | adding attributes to a suitable method never makes it unsuitable: attributes only ever enable the serializer |
| FinderProperties.NameIgnored | jetbrains-rider/ReSharper.AWS/src/AWS.Daemon/Lambda/LambdaFinder.cs:45-72 | the verdict does not depend on the method's name, so a static Main is judged like any other method |
| FinderProperties.StaticNeverHurts | jetbrains-rider/ReSharper.AWS/src/AWS.Daemon/Lambda/LambdaFinder.cs:60-72 | making a method static never makes it unsuitable; in a class the runtime can instantiate, static or not gives the same verdict |
| FinderProperties.ParameterCount | jetbrains-rider/ReSharper.AWS/src/AWS.Daemon/Lambda/LambdaFinder.cs:74-101 | only one or two parameters are accepted |
| FinderProperties.StreamFirstIgnoresSecond | jetbrains-rider/ReSharper.AWS/src/AWS.Daemon/Lambda/LambdaFinder.cs:87-94 | after a Stream first parameter, any second parameter or none gives the same verdict: the context check is skipped |
| FinderProperties.ContextParameterNeutral | jetbrains-rider/ReSharper.AWS/src/AWS.Daemon/Lambda/LambdaFinder.cs:80-94 | an ILambdaContext second parameter gives the verdict of the method with the first parameter alone |
| FinderProperties.ContextSubtypeRejected | jetbrains-rider/ReSharper.AWS/src/AWS.Daemon/Lambda/LambdaFinder.cs:312-316 | a second parameter whose type only derives from ILambdaContext is not accepted |
| FinderProperties.SyncReturnLikeParameter | jetbrains-rider/ReSharper.AWS/src/AWS.Daemon/Lambda/LambdaFinder.cs:335 | a synchronous result type is accepted exactly when it would be accepted as the only parameter |
| FinderProperties.AsyncResultAcceptedSynchronously | jetbrains-rider/ReSharper.AWS/src/AWS.Daemon/Lambda/LambdaFinder.cs:322-335 | an accepted async Task<T> result has T accepted as a synchronous result, and a serializer is defined even when T is a Stream |
| FinderProperties.StreamSignatureIgnoresAttributes | jetbrains-rider/ReSharper.AWS/src/AWS.Daemon/Lambda/LambdaFinder.cs:74-101 | a Stream parameter with a Stream result, or an async void or Task result, gets the same verdict whatever the attributes |
| FinderProperties.SyncVoidRejected | jetbrains-rider/ReSharper.AWS/src/AWS.Daemon/Lambda/LambdaFinder.cs:335 | in a well-formed host (void below nothing but itself) a sync void method is rejected |
| FinderProperties.StreamHandlerAccepted | jetbrains-rider/ReSharper.AWS/src/AWS.Daemon/Lambda/LambdaFinder.cs:45-101 | in a well-formed host a public static Stream-to-Stream method of a class with at most one supertype is a handler without any serializer |
| LambdaRunMarkerProvider.IsSuitableLambdaMethod | jetbrains-rider/ReSharper.AWS/src/AWS.Daemon/RunMarkers/LambdaRunMarkerProvider.cs:87-100 | public, callable, parameters and result, the first return only; its properties are the ProviderProperties rows below |
| LambdaRunMarkerProvider.IsPublic | jetbrains-rider/ReSharper.AWS/src/AWS.Daemon/RunMarkers/LambdaRunMarkerProvider.cs:102-105 | the method is public |
| LambdaRunMarkerProvider.IsValidInstanceOrStaticMethod | jetbrains-rider/ReSharper.AWS/src/AWS.Daemon/RunMarkers/LambdaRunMarkerProvider.cs:107-120 | a static method not named Main, or an instance method of an instantiable class |
| LambdaRunMarkerProvider.CanBeInstantiatedByLambda | jetbrains-rider/ReSharper.AWS/src/AWS.Daemon/RunMarkers/LambdaRunMarkerProvider.cs:122-127 | a public, non-abstract class with a usable constructor |
| LambdaRunMarkerProvider.HasPublicNoArgsConstructor | jetbrains-rider/ReSharper.AWS/src/AWS.Daemon/RunMarkers/LambdaRunMarkerProvider.cs:129-134 | no declared constructor, or a public one without parameters |
| LambdaRunMarkerProvider.HasRequiredParameters | jetbrains-rider/ReSharper.AWS/src/AWS.Daemon/RunMarkers/LambdaRunMarkerProvider.cs:136-155 | none, or a Stream or custom-data first parameter, optionally followed by exactly ILambdaContext |
| LambdaRunMarkerProvider.IsCustomDataType | jetbrains-rider/ReSharper.AWS/src/AWS.Daemon/RunMarkers/LambdaRunMarkerProvider.cs:157-161 | a valid type that is an event type, or any valid type once the method has the attribute; see CustomDataIgnoresStructure |
| LambdaRunMarkerProvider.IsAmazonEventType | jetbrains-rider/ReSharper.AWS/src/AWS.Daemon/RunMarkers/LambdaRunMarkerProvider.cs:163-184 | a class of one of the 14 listed namespaces has the type's CLR name or is an ancestor of its element |
| LambdaRunMarkerProvider.EventClassIn | jetbrains-rider/ReSharper.AWS/src/AWS.Daemon/RunMarkers/LambdaRunMarkerProvider.cs:170-181 | the per-namespace search of IsAmazonEventType |
| LambdaRunMarkerProvider.IsStreamType | jetbrains-rider/ReSharper.AWS/src/AWS.Daemon/RunMarkers/LambdaRunMarkerProvider.cs:186-190 | Stream itself, or a type whose element descends from Stream |
| LambdaRunMarkerProvider.IsMethodOrAssemblySerializable | jetbrains-rider/ReSharper.AWS/src/AWS.Daemon/RunMarkers/LambdaRunMarkerProvider.cs:193-196 | some attribute instance of type ILambdaSerializer on the method |
| LambdaRunMarkerProvider.IsLambdaContextType | jetbrains-rider/ReSharper.AWS/src/AWS.Daemon/RunMarkers/LambdaRunMarkerProvider.cs:198-202 | the CLR name is exactly Amazon.Lambda.Core.ILambdaContext |
| LambdaRunMarkerProvider.HasRequiredReturnType | jetbrains-rider/ReSharper.AWS/src/AWS.Daemon/RunMarkers/LambdaRunMarkerProvider.cs:204-211 | sync: a Stream or custom data; async: void, Task or a Task descendant, attributes ignored |
| LambdaRunMarkerProvider.IsDescendantOf | jetbrains-rider/ReSharper.AWS/src/AWS.Daemon/RunMarkers/LambdaRunMarkerProvider.cs:427-434 | false for a null element; otherwise descent from the element the name resolves to |
| ProviderProperties.StaticMainRejected | jetbrains-rider/ReSharper.AWS/src/AWS.Daemon/RunMarkers/LambdaRunMarkerProvider.cs:107-120 | a static method named Main never passes the callability check, so it is never suitable |
| ProviderProperties.NameIgnoredExceptStaticMain | jetbrains-rider/ReSharper.AWS/src/AWS.Daemon/RunMarkers/LambdaRunMarkerProvider.cs:107-120 | outside a static method named Main, renaming a method never changes its verdict |
| ProviderProperties.StaticNeverHurts | jetbrains-rider/ReSharper.AWS/src/AWS.Daemon/RunMarkers/LambdaRunMarkerProvider.cs:107-120 | a static method not named Main passes callability whatever its containing type, so making such a method static never makes it unsuitable |
| ProviderProperties.SuitableMonotoneInAttributes | jetbrains-rider/ReSharper.AWS/src/AWS.Daemon/RunMarkers/LambdaRunMarkerProvider.cs:87-100 | adding attributes to a suitable method never makes it unsuitable |
| ProviderProperties.CustomDataIgnoresStructure | jetbrains-rider/ReSharper.AWS/src/AWS.Daemon/RunMarkers/LambdaRunMarkerProvider.cs:157-161 | two valid types with the same event-type status are indistinguishable as custom data, whatever their shape |
| ProviderProperties.ContextParameterNeutral | jetbrains-rider/ReSharper.AWS/src/AWS.Daemon/RunMarkers/LambdaRunMarkerProvider.cs:136-155 | an ILambdaContext second parameter gives the verdict of the method with the first parameter alone |
| ProviderProperties.NonContextSecondRejected | jetbrains-rider/ReSharper.AWS/src/AWS.Daemon/RunMarkers/LambdaRunMarkerProvider.cs:148-150 | a second parameter without the CLR name ILambdaContext is rejected, even after a Stream |
| ProviderProperties.StreamSignatureIgnoresAttributes | jetbrains-rider/ReSharper.AWS/src/AWS.Daemon/RunMarkers/LambdaRunMarkerProvider.cs:87-100 | a signature of at most a Stream and a context with a Stream or async result gets the same verdict whatever the attributes |
| ProviderProperties.EventTypeIgnoresOtherNamespaces | jetbrains-rider/ReSharper.AWS/src/AWS.Daemon/RunMarkers/LambdaRunMarkerProvider.cs:163-184 | changing a namespace outside the fixed list of 14 never changes the event-type verdict |
| ProviderProperties.EventTypeByName | jetbrains-rider/ReSharper.AWS/src/AWS.Daemon/RunMarkers/LambdaRunMarkerProvider.cs:163-184 | a class of a listed namespace with exactly the type's CLR name makes it an event type |
| ProviderProperties.AsyncReturnIgnoresSerializer | jetbrains-rider/ReSharper.AWS/src/AWS.Daemon/RunMarkers/LambdaRunMarkerProvider.cs:204-211 | an async method's return check does not depend on its attributes |
| DetectionVariants.NoParameters | jetbrains-rider/ReSharper.AWS/src/AWS.Daemon/RunMarkers/LambdaRunMarkerProvider.cs:136-139 | a method without parameters is never a LambdaFinder handler, although the provider's parameter check accepts it |
| DetectionVariants.StreamThenNonContext | jetbrains-rider/ReSharper.AWS/src/AWS.Daemon/Lambda/LambdaFinder.cs:87-94 | two parameters, a Stream then a type not named ILambdaContext: LambdaFinder's parameter check passes and the provider's fails |
| DetectionVariants.ProgramWellFormed | jetbrains-rider/ReSharper.AWS/src/AWS.Daemon/Lambda/LambdaFinder.cs:267-271 | the concrete program's host is well formed: subtyping reflexive, void below nothing else, Stream declared |
| DetectionVariants.StaticMain | jetbrains-rider/ReSharper.AWS/src/AWS.Daemon/RunMarkers/LambdaRunMarkerProvider.cs:116-119 | LambdaFinder's verdict does not depend on the name Main; the provider rejects every static Main |
| DetectionVariants.PocoIsCustomData | jetbrains-rider/ReSharper.AWS/src/AWS.Daemon/Lambda/LambdaFinder.cs:182-195 | a public class with object as base, a default constructor and one int property is custom data |
| DetectionVariants.DescribeIsHandler | jetbrains-rider/ReSharper.AWS/src/AWS.Daemon/Lambda/LambdaFinder.cs:45-53 | a public instance method taking and returning such classes, with a method-level serializer attribute, is a handler |
| DetectionVariants.DescribeWithoutSerializer | jetbrains-rider/ReSharper.AWS/src/AWS.Daemon/Lambda/LambdaFinder.cs:279-304 | without any serializer attribute the same method is not a handler |
| DetectionVariants.AbstractClassRejected | jetbrains-rider/ReSharper.AWS/src/AWS.Daemon/RunMarkers/LambdaRunMarkerProvider.cs:122-127 | the same method in an abstract class is rejected by both checks |
| DetectionVariants.StaticMainWithSerializer | jetbrains-rider/tst/software/aws/toolkits/jetbrains/services/lambda/dotnet/LambdaGutterMarkHighlightingTest.kt:117 | a static Main with a serializer is listed by LambdaFinder and not by the provider |
| DetectionVariants.AsyncNoParameterHandler | jetbrains-rider/ReSharper.AWS/src/AWS.Daemon/RunMarkers/LambdaRunMarkerProvider.cs:136-139 | an async void method without parameters passes the provider and never LambdaFinder |
| KotlinText.IndexOf | jetbrains-rider/src/software/aws/toolkits/jetbrains/services/lambda/dotnet/DotNetLambdaHandlerResolver.kt:44 | the index found is an occurrence at or after the start with none before it; none means no occurrence from the start |
| KotlinText.Split | jetbrains-rider/src/software/aws/toolkits/jetbrains/services/lambda/dotnet/DotNetLambdaHandlerResolver.kt:44 | splitting always yields at least one part |
| KotlinText.JoinSplit | jetbrains-rider/src/software/aws/toolkits/jetbrains/services/lambda/dotnet/DotNetLambdaHandlerResolver.kt:44-49 | joining the parts of a split with the delimiter gives back the string |
| KotlinText.SplitPartsFree | jetbrains-rider/src/software/aws/toolkits/jetbrains/services/lambda/dotnet/DotNetLambdaHandlerResolver.kt:44 | no part of a split contains the delimiter |
| KotlinText.FreeBeforeFirst | jetbrains-rider/src/software/aws/toolkits/jetbrains/services/lambda/dotnet/DotNetLambdaHandlerResolver.kt:44 | the text before the first occurrence contains no occurrence |
| KotlinText.SplitAtFirst | jetbrains-rider/src/software/aws/toolkits/jetbrains/services/lambda/dotnet/DotNetLambdaHandlerResolver.kt:44 | a string whose first occurrence follows `p` splits into `p` and the split of the rest |
| KotlinText.IndexOfIsFirst | jetbrains-rider/src/software/aws/toolkits/jetbrains/services/lambda/dotnet/DotNetLambdaHandlerResolver.kt:44 | the search finds an occurrence with none before it |
| KotlinText.LastIndexOf | jetbrains-ultimate/src/software/aws/toolkits/jetbrains/services/lambda/nodejs/NodeJsLambdaHandlerResolver.kt:30 | the index found holds the character with none after it; none means the character does not occur |
| DotNetLambdaHandlerResolver.FormatHandler | jetbrains-rider/src/software/aws/toolkits/jetbrains/services/lambda/dotnet/DotNetLambdaHandlerResolver.kt:65 | the template assembly::type::method; inverse of ParseHandler by ParseThenFormat and FormatThenParse |
| DotNetLambdaHandlerResolver.ParseHandler | jetbrains-rider/src/software/aws/toolkits/jetbrains/services/lambda/dotnet/DotNetLambdaHandlerResolver.kt:44-49 | a handler parses exactly when the split on :: has three parts, and the parts are those three |
| DotNetLambdaHandlerResolver.ParseThenFormat | jetbrains-rider/src/software/aws/toolkits/jetbrains/services/lambda/dotnet/DotNetLambdaHandlerResolver.kt:44-49 | a parsed handler is rebuilt exactly by the template, and no part contains :: |
| DotNetLambdaHandlerResolver.ColonFree | jetbrains-rider/src/software/aws/toolkits/jetbrains/services/lambda/dotnet/DotNetLambdaHandlerResolver.kt:44 | a name without ':' contains no :: and does not end in ':' |
| DotNetLambdaHandlerResolver.FirstSeparator | jetbrains-rider/src/software/aws/toolkits/jetbrains/services/lambda/dotnet/DotNetLambdaHandlerResolver.kt:44 | the first :: after a part free of :: and not ending in ':' follows that part |
| DotNetLambdaHandlerResolver.SplitJoin | jetbrains-rider/src/software/aws/toolkits/jetbrains/services/lambda/dotnet/DotNetLambdaHandlerResolver.kt:44-45 | parts free of ::, all but the last not ending in ':', are exactly what the split of their join on :: gives back, whatever their number |
| DotNetLambdaHandlerResolver.FormatThenParse | jetbrains-rider/src/software/aws/toolkits/jetbrains/services/lambda/dotnet/DotNetLambdaHandlerResolver.kt:44-49 | three parts free of ::, the first two not ending in ':', parse back from the template |
| DotNetLambdaHandlerResolver.FormatThenParseTrailingColon | jetbrains-rider/src/software/aws/toolkits/jetbrains/services/lambda/dotnet/DotNetLambdaHandlerResolver.kt:44-49 | an assembly name ending in ':' moves that ':' into the type part |
| DotNetLambdaHandlerResolver.FindProject | jetbrains-rider/src/software/aws/toolkits/jetbrains/services/lambda/dotnet/DotNetLambdaHandlerResolver.kt:53 | the project found has the assembly's name and is the first such in the list; none is found only when no project has that name |
| DotNetLambdaHandlerResolver.FindPsiElements | jetbrains-rider/src/software/aws/toolkits/jetbrains/services/lambda/dotnet/DotNetLambdaHandlerResolver.kt:44-65 | at most one element; none unless the handler has three parts; the element carries the rebuilt handler |
| DotNetLambdaHandlerResolver.IsHandlerValid | jetbrains-rider/src/software/aws/toolkits/jetbrains/services/lambda/dotnet/DotNetLambdaHandlerResolver.kt:90-101 | a valid handler has three parts and names a publishable project |
| DotNetLambdaHandlerResolver.ShouldShowLineMarker | jetbrains-rider/src/software/aws/toolkits/jetbrains/services/lambda/dotnet/DotNetLambdaHandlerResolver.kt:121-123 | a line marker is shown exactly when the handler has three parts |
| DotNetLambdaHandlerResolver.EmptySegmentsCount | jetbrains-rider/src/software/aws/toolkits/jetbrains/services/lambda/dotnet/DotNetLambdaHandlerResolver.kt:121-123 | "::::" splits into three empty parts and gets a line marker |
| DotNetLambdaHandlerResolver.WrongSegmentCounts | jetbrains-rider/src/software/aws/toolkits/jetbrains/services/lambda/dotnet/DotNetLambdaHandlerResolver.kt:121-123 | two or four parts get no line marker |
| DotNetLambdaHandlerResolver.DetermineHandler | jetbrains-rider/src/software/aws/toolkits/jetbrains/services/lambda/dotnet/DotNetLambdaHandlerResolver.kt:75-83 | a handler is determined exactly for a C# element with text ILambdaContext; it is the file name, HelloWorld.Function and FunctionHandler in the template |
| DotNetLambdaHandlerResolver.DetermineHandlers | jetbrains-rider/src/software/aws/toolkits/jetbrains/services/lambda/dotnet/DotNetLambdaHandlerResolver.kt:85-88 | the set holds exactly the determined handler, if any |
| DotNetLambdaHandlerResolver.DetermineHandlerParses | jetbrains-rider/src/software/aws/toolkits/jetbrains/services/lambda/dotnet/DotNetLambdaHandlerResolver.kt:75-83 | a determined handler for a file name free of :: parses back into its three parts |
| NodeJsLambdaHandlerResolver.IsExports | jetbrains-ultimate/src/software/aws/toolkits/jetbrains/services/lambda/nodejs/NodeJsLambdaHandlerResolver.kt:116-120 | a reference whose only child is the IDENTIFIER exports |
| NodeJsLambdaHandlerResolver.IsExportsReference | jetbrains-ultimate/src/software/aws/toolkits/jetbrains/services/lambda/nodejs/NodeJsLambdaHandlerResolver.kt:108-113 | a reference of three children: exports, DOT, IDENTIFIER |
| NodeJsLambdaHandlerResolver.IsExportsDefinition | jetbrains-ultimate/src/software/aws/toolkits/jetbrains/services/lambda/nodejs/NodeJsLambdaHandlerResolver.kt:97-100 | a definition whose only child is an exports reference |
| NodeJsLambdaHandlerResolver.IsLambdaFunctionExpression | jetbrains-ultimate/src/software/aws/toolkits/jetbrains/services/lambda/nodejs/NodeJsLambdaHandlerResolver.kt:103-105 | a function with two or three parameters |
| NodeJsLambdaHandlerResolver.IsValidLambdaHandler | jetbrains-ultimate/src/software/aws/toolkits/jetbrains/services/lambda/nodejs/NodeJsLambdaHandlerResolver.kt:88-91 | an assignment of an exports definition to a two- or three-parameter function |
| NodeJsLambdaHandlerResolver.IsValidHandlerElement | jetbrains-ultimate/src/software/aws/toolkits/jetbrains/services/lambda/nodejs/NodeJsLambdaHandlerResolver.kt:45-51 | navigatable, its parent a valid handler, in the file whose stem is the given name |
| NodeJsLambdaHandlerResolver.DetermineHandler | jetbrains-ultimate/src/software/aws/toolkits/jetbrains/services/lambda/nodejs/NodeJsLambdaHandlerResolver.kt:56-79 | the file stem, '.', and the identifier's text, for an identifier under `exports.name = function ...`; see DetermineThenSplit and DetermineThenFind |
| NodeJsLambdaHandlerResolver.SplitAtLastDot | jetbrains-ultimate/src/software/aws/toolkits/jetbrains/services/lambda/nodejs/NodeJsLambdaHandlerResolver.kt:30-35 | no split exactly when the handler has no '.'; otherwise file name, '.' and function name rebuild the handler and the function name has no '.' |
| NodeJsLambdaHandlerResolver.FilterValid | jetbrains-ultimate/src/software/aws/toolkits/jetbrains/services/lambda/nodejs/NodeJsLambdaHandlerResolver.kt:38 | the filter keeps exactly the candidates that are valid handler elements |
| NodeJsLambdaHandlerResolver.FindPsiElements | jetbrains-ultimate/src/software/aws/toolkits/jetbrains/services/lambda/nodejs/NodeJsLambdaHandlerResolver.kt:30-39 | no '.' gives no elements; otherwise the elements are exactly the named candidates that are valid handler elements of that file |
| NodeJsLambdaHandlerResolver.DetermineHandlers | jetbrains-ultimate/src/software/aws/toolkits/jetbrains/services/lambda/nodejs/NodeJsLambdaHandlerResolver.kt:81-82 | at most one handler, exactly the determined one |
| NodeJsLambdaHandlerResolver.DetermineThenSplit | jetbrains-ultimate/src/software/aws/toolkits/jetbrains/services/lambda/nodejs/NodeJsLambdaHandlerResolver.kt:30-35 | a determined handler whose name has no '.' splits back into the file stem and the name |
| NodeJsLambdaHandlerResolver.DetermineThenFind | jetbrains-ultimate/src/software/aws/toolkits/jetbrains/services/lambda/nodejs/NodeJsLambdaHandlerResolver.kt:25-52 | the handler determined from the name of `exports.name = function ...` finds that definition again, when the name lookup returns it and it lies in the same file |
| NodeJsLambdaHandlerResolver.FormatThenSplit | jetbrains-ultimate/src/software/aws/toolkits/jetbrains/services/lambda/nodejs/NodeJsLambdaHandlerResolver.kt:30-35 | `prefix.name` with no '.' in the name splits at its last dot into the two |
| LambdaHost.ComposeHandlerString | jetbrains-rider/ReSharper.AWS/src/AWS.Daemon/Lambda/LambdaHost.cs:104-118 | empty for a null project or a method without containing type; otherwise the Rider template over assembly, full CLR name and short name |
| LambdaHost.ComposeThenParse | jetbrains-rider/ReSharper.AWS/src/AWS.Daemon/Lambda/LambdaHost.cs:117 | a composed handler whose names contain no ':' parses back into those names |
| LambdaHost.ClassesIn | jetbrains-rider/ReSharper.AWS/src/AWS.Daemon/Lambda/LambdaHost.cs:79 | the classes of a namespace are exactly its nested elements that are classes |
| LambdaHost.Classes | jetbrains-rider/ReSharper.AWS/src/AWS.Daemon/Lambda/LambdaHost.cs:79 | the OfType<IClass> filter keeps exactly the class elements |
| LambdaHost.VisitMethods | jetbrains-rider/ReSharper.AWS/src/AWS.Daemon/Lambda/LambdaHost.cs:82-84 | one visit per method of a class, in order |
| LambdaHost.VisitClasses | jetbrains-rider/ReSharper.AWS/src/AWS.Daemon/Lambda/LambdaHost.cs:79-81 | the visits of each class of a namespace, in order |
| LambdaHost.VisitNamespaces | jetbrains-rider/ReSharper.AWS/src/AWS.Daemon/Lambda/LambdaHost.cs:74-78 | the visits of each namespace nested in the global namespace, in order |
| LambdaHost.VisitModules | jetbrains-rider/ReSharper.AWS/src/AWS.Daemon/Lambda/LambdaHost.cs:68-72 | the visits of each PSI module of a project, in order |
| LambdaHost.Visits | jetbrains-rider/ReSharper.AWS/src/AWS.Daemon/Lambda/LambdaHost.cs:64-67 | the visits of each project, in order |
| LambdaHost.Listed | jetbrains-rider/ReSharper.AWS/src/AWS.Daemon/Lambda/LambdaHost.cs:85 | LambdaFinder accepts the visited method |
| LambdaHost.HandlerOf | jetbrains-rider/ReSharper.AWS/src/AWS.Daemon/Lambda/LambdaHost.cs:87 | the composed handler of the visited method's project and method |
| LambdaHost.Render | jetbrains-rider/ReSharper.AWS/src/AWS.Daemon/Lambda/LambdaHost.cs:85-91 | no more items than visited methods |
| LambdaHost.RenderAppend | jetbrains-rider/ReSharper.AWS/src/AWS.Daemon/Lambda/LambdaHost.cs:60-100 | the items of two stretches of the traversal are the items of the first followed by those of the second |
| LambdaHost.RenderMembers | jetbrains-rider/ReSharper.AWS/src/AWS.Daemon/Lambda/LambdaHost.cs:85-91 | a handler is offered exactly when some visited method is accepted by LambdaFinder and composes to it |
| LambdaHost.RenderNoneListed | jetbrains-rider/ReSharper.AWS/src/AWS.Daemon/Lambda/LambdaHost.cs:85-91 | nothing is offered when LambdaFinder rejects every visited method |
| LambdaHost.VisitMethodsShape | jetbrains-rider/ReSharper.AWS/src/AWS.Daemon/Lambda/LambdaHost.cs:82-83 | the methods of one class are visited in order, one visit each |
| LambdaHost.VisitsThroughClasses | jetbrains-rider/ReSharper.AWS/src/AWS.Daemon/Lambda/LambdaHost.cs:79-80 | every visited method was reached through a class element, never a struct or interface |
| LambdaHost.OnlyClassMethods | jetbrains-rider/ReSharper.AWS/src/AWS.Daemon/Lambda/LambdaHost.cs:79-91 | every offered handler comes from an accepted method of a class element |
| LambdaHost.VisitsAppend | jetbrains-rider/ReSharper.AWS/src/AWS.Daemon/Lambda/LambdaHost.cs:66 | the traversal of several projects is that of each project in turn |
| LambdaHost.ScanMethods | jetbrains-rider/ReSharper.AWS/src/AWS.Daemon/Lambda/LambdaHost.cs:82-92 | appends, in order, the handler of each method of the class that LambdaFinder accepts |
| LambdaHost.ScanNamespace | jetbrains-rider/ReSharper.AWS/src/AWS.Daemon/Lambda/LambdaHost.cs:79-93 | appends the items of every class of the namespace, in order |
| LambdaHost.ScanModule | jetbrains-rider/ReSharper.AWS/src/AWS.Daemon/Lambda/LambdaHost.cs:74-94 | appends the items of every namespace nested in the module's global namespace, in order |
| LambdaHost.ScanProject | jetbrains-rider/ReSharper.AWS/src/AWS.Daemon/Lambda/LambdaHost.cs:68-96 | appends the items of every PSI module of the project, in order |
| LambdaHost.DetermineHandlers | jetbrains-rider/ReSharper.AWS/src/AWS.Daemon/Lambda/LambdaHost.cs:58-101 | starting from an empty list, the result is the handlers of the accepted methods in traversal order, no longer than the traversal, and holds a string exactly when some accepted visited method composes to it |
| LambdaRunMarkerGutterMark.ComposeHandlerString | jetbrains-rider/ReSharper.AWS/src/AWS.Daemon/RunMarkers/LambdaRunMarkerGutterMark.cs:75-87 | empty for a null marker or a FullName too short; a non-empty result is the template over the assembly, the prefix of FullName that leaves room for '.' and the method name, and the method name |
| LambdaRunMarkerGutterMark.TypeSegmentFromFullName | jetbrains-rider/ReSharper.AWS/src/AWS.Daemon/RunMarkers/LambdaRunMarkerGutterMark.cs:80-86 | a FullName of the form type.method gives exactly that type as the middle segment |
| LambdaRunMarkerGutterMark.NonEmptyIff | jetbrains-rider/ReSharper.AWS/src/AWS.Daemon/RunMarkers/LambdaRunMarkerGutterMark.cs:77-83 | the string is non-empty exactly for a marker whose FullName is longer than the method name |
| LambdaRunMarkerGutterMark.AgreesWithLambdaHost | jetbrains-rider/ReSharper.AWS/src/AWS.Daemon/RunMarkers/LambdaRunMarkerGutterMark.cs:75-87 | a marker named clrName.method gives the same string as LambdaHost's ComposeHandlerString for that method |
| LambdaRunMarkerGutterMark.FullNameWithoutMethod | jetbrains-rider/ReSharper.AWS/src/AWS.Daemon/RunMarkers/LambdaRunMarkerGutterMark.cs:82-86 | a FullName that does not end in .method gives a three-part string with a wrong type segment |

## Left out

- Host type-system and PSI queries: `IsSubtypeOf`, `IsDescendantOf`, `GetAncestorSubstitution`, `CollectionTypeUtil`, `CanInstantiateWithPublicDefaultConstructor`, namespace lookup, `JSClassResolver`, `VfsUtilCore.findRelativePath`, `inferSourceRoot` and `FileUtilRt.getNameWithoutExtension`. They are given as tables of a `Host`, as fields of a PSI node, or as function parameters. They are not re-implemented.
- Substitutions of generic types are taken as already applied: member and ancestor types in a `DeclaredView` are the substituted types.
- RPC and backend calls in DotNetLambdaHandlerResolver (`findPublicMethod`, `publishableProjectsModel`, `isMethodExists`) are parameters of the model.
- DotNetLambdaHandlerResolver.IsHandlerValid: only the dispatch-thread path is modelled. The `invokeLater` hand-off, `SpinWait` and its timeout are concurrency and are left out. On a timeout the source answers false, which the model does not express.
- Logging (`logger.Trace`, `ourLogger.Warn`) has no bearing on any verdict and is left out.
- The icons of the completion items in LambdaHost.DetermineHandlers (`GetImage`, `Transform`) are UI. An item is modelled by its handler string only. The read lock and the compilation-context cookie are left out.
- `RunLambda`, `DebugLambda`, `CreateNewLambda`, `GetBulbMenuItems`, `GetRunMethodItems`, `CollectRunMarkers`, and the completion, line-marker and settings-editor classes are editor UI. They are not part of this model.
- The commented-out draft in LambdaRunMarkerProvider.cs (lines 287-425) is dead code and is not modelled.
- LambdaRunMarkerProvider.IsSuitableLambdaMethod: only the first `return` is modelled. The statements after it (lines 96-99) cannot run.
- The RD protocol model, the Gradle configuration task and the test fixtures are not part of this model.
- NodeJsLambdaHandlerResolver.IsValidHandlerElement: the file's relative path is one optional field, `fileStem`, that records what `findRelativePath` and `getNameWithoutExtension` answer.
- LambdaRunMarkerGutterMark.ComposeHandlerString: lengths are counted in Unicode scalar values (Dafny characters), while C#'s `FullName.Length` counts UTF-16 code units. The cut therefore differs for names with characters outside the Basic Multilingual Plane whose FullName does not end in `.method`.
- In LambdaHost one `Host` value per PSI module stands for two symbol scopes. The traversal reads the scope without references (`GetSymbolScope(psiModule, false, true)`), so `nestedNamespaces[""]` and the namespace contents it walks are that scope's answers. The event-type lookup reads the scope with references (`GetSymbolScope(type.Module, true, true)`), from the `Amazon.Lambda` tables. The two read different entries of the `Host`.
- In LambdaHost nothing ties a class's listed methods to that class (`containingType`). The handler of a visited method is composed from the method's own containing type, as in the source.
- DotNetLambdaHandlerResolver.FormatThenParse: the round trip is proved only for segments free of `::` whose first two segments do not end in `:`. `FormatThenParseTrailingColon` shows that the round trip fails otherwise.

## Notes on the source

- LambdaRunMarkerProvider's `IsMethodOrAssemblySerializable` (lines 192-196) asks for attribute
  instances whose type is `Amazon.Lambda.Core.ILambdaSerializer`. LambdaFinder looks instead for
  `LambdaSerializerAttribute` instances that name an `ILambdaSerializer` subtype. The source marks
  this check as unfinished. The model follows the code as written: the provider accepts any valid
  type as custom data once such an attribute is present.
- The two variants disagree on several inputs. `DetectionVariants` proves five of them: a method
  without parameters, a static `Main`, a static `Main` with a serializer, an async handler
  without parameters, and a Stream followed by a second parameter that is not `ILambdaContext`
  (LambdaFinder, lines 92-94, never looks at the second parameter after a Stream).
- `HostModel.WellFormed` records what a real host always answers (reflexive subtyping, void
  below nothing but itself, a declared Stream). Lemmas that need such facts assume it instead
  of ad hoc hypotheses.
- `LambdaRunMarkerGutterMark.ComposeHandlerString` takes the type segment by length, not by
  looking for `.method` at the end of the full name. `FullNameWithoutMethod` shows the string it
  builds when the full name does not end that way.
