/**
  The two handler checks side by side, and the concrete handlers of the scenarios the
  detection is meant to handle.
 */
module DetectionVariants {
  import opened Wrappers
  import opened HostModel
  import opened CustomDataSpec
  import LambdaFinder
  import FinderProperties
  import LambdaRunMarkerProvider

  /** A method without parameters is never a handler for LambdaFinder; the provider's parameter check accepts it. */
  lemma NoParameters(h: Host, m: Method)
    requires |m.parameters| == 0
    ensures !LambdaFinder.IsSuitableLambdaMethod(h, Some(m))
    ensures LambdaRunMarkerProvider.HasRequiredParameters(h, m)
  {
  }

  /**
    After a Stream first parameter LambdaFinder never looks at the second; the provider still
    demands ILambdaContext there, so two Streams pass one check and fail the other.
   */
  lemma StreamThenNonContext(h: Host, m: Method)
    requires |m.parameters| == 2 && LambdaFinder.IsStreamType(h, m.parameters[0])
    requires DeclaredClrName(h, m.parameters[1]) != Some(LambdaFinder.LambdaContextTypeName)
    ensures LambdaFinder.HasRequiredParameters(h, m)
    ensures !LambdaRunMarkerProvider.HasRequiredParameters(h, m)
  {
  }

  /** LambdaFinder ignores the method's name; the provider rejects every static Main. */
  lemma StaticMain(h: Host, m: Method)
    requires m.isStatic && m.shortName == "Main"
    ensures LambdaFinder.IsSuitableLambdaMethod(h, Some(m)) == LambdaFinder.IsSuitableLambdaMethod(h, Some(m.(shortName := "Handler")))
    ensures !LambdaRunMarkerProvider.IsSuitableLambdaMethod(h, m)
  {
  }

  // ---- A small program: class Function, a request and a response type, a JSON serializer ----

  const Int: TypeId := 0
  const DescribeRequest: TypeId := 1
  const Product: TypeId := 2
  const JsonSerializer: TypeId := 3
  const ILambdaSerializer: TypeId := 4
  const Void: TypeId := 5
  const Stream: TypeId := 6
  const Task: TypeId := 7
  const Object: TypeId := 8

  const FunctionClass: ElementId := 0

  /** A plain class: public, object as base, one non-indexer int property. */
  function PocoView(): DeclaredView {
    DeclaredView(None, None, None, false, [PropertyMember(false, Int)], NotTask)
  }

  function PlainType(): DeclaredView {
    DeclaredView(None, None, None, false, [], NotTask)
  }

  function PublicClass(name: string, isAbstract: bool): TypeElement {
    TypeElement(name, ClassKind, true, isAbstract, 1, None, [], !isAbstract)
  }

  /** The program, with the Function class abstract or not. */
  function Program(abstractFunction: bool): Host {
    var types: map<TypeId, TypeShape> := map[
        0 := SimplePredefined,   // Int
        1 := DeclaredType("HelloWorld.DescribeRequest", Some(1), PocoView()),   // DescribeRequest
        2 := DeclaredType("HelloWorld.Product", Some(2), PocoView()),   // Product
        3 := DeclaredType("Amazon.Lambda.Serialization.Json.JsonSerializer", Some(3), PlainType()),   // JsonSerializer
        4 := DeclaredType("Amazon.Lambda.Core.ILambdaSerializer", Some(4), PlainType()),   // ILambdaSerializer
        5 := VoidType,   // Void
        6 := DeclaredType("System.IO.Stream", Some(5), PlainType()),   // Stream
        7 := DeclaredType("System.Threading.Tasks.Task", Some(6), DeclaredView(None, None, None, false, [], BareTask)),   // Task
        8 := DeclaredType("System.Object", Some(7), PlainType())];   // Object
    var elements: map<ElementId, TypeElement> := map[
        FunctionClass := PublicClass("HelloWorld.Function", abstractFunction),
        1 := PublicClass("HelloWorld.DescribeRequest", false),
        2 := PublicClass("HelloWorld.Product", false),
        3 := PublicClass("Amazon.Lambda.Serialization.Json.JsonSerializer", false)];
    Host(
      types, elements,
      {(JsonSerializer, ILambdaSerializer), (Int, Int), (DescribeRequest, DescribeRequest), (Product, Product),
       (JsonSerializer, JsonSerializer), (ILambdaSerializer, ILambdaSerializer), (Void, Void), (Stream, Stream),
       (Task, Task), (Object, Object)},
      {},
      {Int, DescribeRequest, Product, JsonSerializer, ILambdaSerializer, Void, Stream, Task, Object},
      Object, Stream, ILambdaSerializer, Task,
      map[], map[], map[],
      [])
  }

  /** The program's host answers as a real one does: subtyping reflexive, void below nothing else. */
  lemma ProgramWellFormed(abstractFunction: bool)
    ensures WellFormed(Program(abstractFunction))
  {
    var h := Program(abstractFunction);
    forall p | p in h.subtypes && Shape(h, p.0).VoidType?
      ensures p.0 == p.1
    {
      assert p.0 == Void;
    }
  }

  const SerializerAttribute := Attribute("Amazon.Lambda.Core.LambdaSerializerAttribute", [Some(JsonSerializer)])

  /** public Product Describe(DescribeRequest r), with the given attributes. */
  function Describe(attributes: seq<Attribute>): Method {
    Method("Describe", true, false, false, Some(FunctionClass), [DescribeRequest], Product, attributes)
  }

  lemma PocoIsCustomData(abstractFunction: bool, t: TypeId)
    requires t == DescribeRequest || t == Product
    ensures LambdaFinder.IsCustomData(Program(abstractFunction), t)
  {
    var h := Program(abstractFunction);
    var e: ElementId := t;
    assert Shape(h, t) == DeclaredType(if t == DescribeRequest then "HelloWorld.DescribeRequest" else "HelloWorld.Product", Some(e), PocoView());
    assert TypeElementOf(h, t) == Some(e);
    assert h.elements[e].kind == ClassKind && h.elements[e].baseClass.None? && h.elements[e].instantiableWithPublicDefaultConstructor;
    assert MemberTypes(PocoView().members) == [Int];
    assert DataRule(h, t) == Some([Int]);
    FinderProperties.CustomDataBaseCases(h, Int);
    FinderProperties.CustomDataCompositional(h, t);
  }

  /** The method-level serializer makes Describe a handler: custom data in, custom data out, synchronous. */
  lemma DescribeIsHandler()
    ensures LambdaFinder.IsSuitableLambdaMethod(Program(false), Some(Describe([SerializerAttribute])))
  {
    var h := Program(false);
    var m := Describe([SerializerAttribute]);
    PocoIsCustomData(false, DescribeRequest);
    PocoIsCustomData(false, Product);
    assert LambdaFinder.NamesSerializer(h, SerializerAttribute) by {
      assert SerializerAttribute.positional[0] == Some(JsonSerializer);
    }
    FinderProperties.SerializerDefinedCharacterisation(h, m);
    assert m.attributes[0] == SerializerAttribute;
  }

  /** Without the attribute (and no assembly-level serializer) Describe is not a handler. */
  lemma DescribeWithoutSerializer()
    ensures !LambdaFinder.IsSuitableLambdaMethod(Program(false), Some(Describe([])))
  {
    var h := Program(false);
    var m := Describe([]);
    FinderProperties.SerializerDefinedCharacterisation(h, m);
    assert !LambdaFinder.IsStreamType(h, DescribeRequest);
  }

  /** The same method of an abstract class is rejected by both checks, at callability. */
  lemma AbstractClassRejected()
    ensures !LambdaFinder.IsSuitableLambdaMethod(Program(true), Some(Describe([SerializerAttribute])))
    ensures !LambdaRunMarkerProvider.IsSuitableLambdaMethod(Program(true), Describe([SerializerAttribute]))
  {
    var h := Program(true);
    assert h.elements[FunctionClass].isAbstract;
  }

  /** public static Product Main(DescribeRequest r) with the serializer: LambdaFinder lists it, the provider does not. */
  lemma StaticMainWithSerializer()
    ensures var m := Describe([SerializerAttribute]).(shortName := "Main", isStatic := true);
      LambdaFinder.IsSuitableLambdaMethod(Program(false), Some(m)) &&
      !LambdaRunMarkerProvider.IsSuitableLambdaMethod(Program(false), m)
  {
    var h := Program(false);
    var m := Describe([SerializerAttribute]).(shortName := "Main", isStatic := true);
    PocoIsCustomData(false, DescribeRequest);
    PocoIsCustomData(false, Product);
    assert LambdaFinder.NamesSerializer(h, SerializerAttribute) by {
      assert SerializerAttribute.positional[0] == Some(JsonSerializer);
    }
    FinderProperties.SerializerDefinedCharacterisation(h, m);
    assert m.attributes[0] == SerializerAttribute;
  }

  /** public static async void Handler(): the provider passes it, LambdaFinder never lists a method without parameters. */
  lemma AsyncNoParameterHandler()
    ensures var m := Method("Handler", true, true, true, Some(FunctionClass), [], Void, []);
      LambdaRunMarkerProvider.IsSuitableLambdaMethod(Program(false), m) &&
      !LambdaFinder.IsSuitableLambdaMethod(Program(false), Some(m))
  {
  }
}
