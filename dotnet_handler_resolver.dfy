/**
  DotNetLambdaHandlerResolver: Rider's handler string `assembly::type::method`.
  The backend calls (the publishable-projects list, findPublicMethod, isMethodExists) are
  parameters; RiderLambdaHandlerFakePsiElement is reduced to the handler string it carries
  and the file id.
 */
module DotNetLambdaHandlerResolver {
  import opened Wrappers
  import opened KotlinText

  const Separator := "::"

  datatype HandlerParts = HandlerParts(assemblyName: string, typeName: string, methodName: string)

  /** `handler.split("::")` when it has exactly three parts (findPsiElements, isHandlerValid). */
  function ParseHandler(handler: string): (r: Option<HandlerParts>)
    ensures r.Some? <==> |Split(handler, Separator)| == 3
    ensures r.Some? ==> [r.value.assemblyName, r.value.typeName, r.value.methodName] == Split(handler, Separator)
  {
    var handlerParts := Split(handler, Separator);
    if |handlerParts| != 3 then None
    else Some(HandlerParts(handlerParts[0], handlerParts[1], handlerParts[2]))
  }

  /** The template "$assemblyName::$type::$methodName". */
  function FormatHandler(p: HandlerParts): string {
    p.assemblyName + Separator + p.typeName + Separator + p.methodName
  }

  /** A handler with three parts is rebuilt exactly by the template, and no part contains "::". */
  lemma ParseThenFormat(handler: string)
    requires ParseHandler(handler).Some?
    ensures FormatHandler(ParseHandler(handler).value) == handler
    ensures var p := ParseHandler(handler).value;
      Free(p.assemblyName, Separator) && Free(p.typeName, Separator) && Free(p.methodName, Separator)
  {
    var parts := Split(handler, Separator);
    JoinSplit(handler, Separator);
    SplitPartsFree(handler, Separator);
    assert parts == [parts[0], parts[1], parts[2]];
    JoinThree(parts[0], parts[1], parts[2]);
  }

  /** A string without ':' has no "::". */
  lemma ColonFree(s: string)
    requires forall i :: 0 <= i < |s| ==> s[i] != ':'
    ensures Free(s, Separator) && (|s| == 0 || s[|s| - 1] != ':')
  {
    forall k | 0 <= k <= |s|
      ensures !OccursAt(s, Separator, k)
    {
      if k < |s| {
        assert s[k] != ':';
      }
    }
  }

  /** A segment without "::" that does not end in ':' is ended by the next "::". */
  lemma FirstSeparator(p: string, rest: string)
    requires Free(p, Separator) && (|p| == 0 || p[|p| - 1] != ':')
    ensures IndexOf(p + Separator + rest, Separator, 0) == Some(|p|)
  {
    var s := p + Separator + rest;
    assert s[|p|..|p| + 2] == Separator;
    forall k | 0 <= k < |p|
      ensures !OccursAt(s, Separator, k)
    {
      if k + 2 <= |p| {
        assert s[k..k + 2] == p[k..k + 2];
        assert !OccursAt(p, Separator, k);
      } else {
        assert s[k] == p[|p| - 1];
      }
    }
    IndexOfIsFirst(s, Separator, 0, |p|);
  }

  /** Parts free of "::", all but the last not ending in ':', are split back out of their join. */
  lemma {:induction false} SplitJoin(parts: seq<string>)
    requires |parts| >= 1
    requires forall k :: 0 <= k < |parts| ==> Free(parts[k], Separator)
    requires forall k :: 0 <= k < |parts| - 1 ==> |parts[k]| == 0 || parts[k][|parts[k]| - 1] != ':'
    ensures Split(Join(parts, Separator), Separator) == parts
    decreases |parts|
  {
    if |parts| == 1 {
      SplitFree(parts[0], Separator);
    } else {
      var rest := parts[1..];
      assert [parts[0]] + rest == parts;
      JoinCons(parts[0], rest, Separator);
      FirstSeparator(parts[0], Join(rest, Separator));
      SplitAtFirst(parts[0], Separator, Join(rest, Separator));
      assert forall k :: 0 <= k < |rest| ==> rest[k] == parts[k + 1];
      SplitJoin(rest);
    }
  }

  /**
    Format then parse gives the parts back when no part contains "::" and the first two do
    not end in ':'.
   */
  lemma FormatThenParse(p: HandlerParts)
    requires Free(p.assemblyName, Separator) && Free(p.typeName, Separator) && Free(p.methodName, Separator)
    requires |p.assemblyName| == 0 || p.assemblyName[|p.assemblyName| - 1] != ':'
    requires |p.typeName| == 0 || p.typeName[|p.typeName| - 1] != ':'
    ensures ParseHandler(FormatHandler(p)) == Some(p)
  {
    var parts := [p.assemblyName, p.typeName, p.methodName];
    JoinThree(p.assemblyName, p.typeName, p.methodName);
    SplitJoin(parts);
  }

  lemma JoinThree(a: string, b: string, c: string)
    ensures Join([a, b, c], Separator) == a + Separator + b + Separator + c
  {
    assert [b, c][1..] == [c];
    assert Join([b, c], Separator) == b + Separator + c;
    assert [a, b, c][1..] == [b, c];
  }

  /** A segment ending in ':' does not survive the round trip: its ':' moves to the next segment. */
  lemma FormatThenParseTrailingColon()
    ensures ParseHandler(FormatHandler(HandlerParts("x:", "T", "M"))) == Some(HandlerParts("x", ":T", "M"))
  {
    assert FormatHandler(HandlerParts("x:", "T", "M")) == "x" + Separator + ":T" + Separator + "M";
    JoinThree("x", ":T", "M");
    ColonFree("x");
    ColonFree("M");
    assert Free(":T", Separator) by {
      assert !OccursAt(":T", Separator, 0) by {
        assert ":T"[1] == 'T';
      }
    }
    SplitJoin(["x", ":T", "M"]);
  }

  /** An entry of the publishable-projects model. */
  datatype PublishableProject = PublishableProject(projectName: string, projectFilePath: string)

  /** RiderLambdaHandlerFakePsiElement: the handler it names and the backend file id. */
  datatype HandlerElement = HandlerElement(handler: string, fileId: nat)

  /** `publishableProjects.find { it.projectName == assemblyName }`. */
  function FindProject(projects: seq<PublishableProject>, assemblyName: string): (r: Option<PublishableProject>)
    ensures r.Some? ==> r.value in projects && r.value.projectName == assemblyName
    ensures r.Some? ==>
      exists k :: 0 <= k < |projects| && projects[k] == r.value &&
        forall j :: 0 <= j < k ==> projects[j].projectName != assemblyName
    ensures r.None? ==> forall k :: 0 <= k < |projects| ==> projects[k].projectName != assemblyName
  {
    if |projects| == 0 then None
    else if projects[0].projectName == assemblyName then Some(projects[0])
    else FindProject(projects[1..], assemblyName)
  }

  /**
    findPsiElements. `findPublicMethod(className, methodName, projectFilePath)` stands for the
    backend call and gives the found method's file id, None when the method or its file id is null.
   */
  function FindPsiElements(projects: seq<PublishableProject>, findPublicMethod: (string, string, string) -> Option<nat>,
                           handler: string): (r: seq<HandlerElement>)
    ensures |r| <= 1
    ensures ParseHandler(handler).None? ==> r == []
    ensures |r| == 1 ==> r[0].handler == handler
  {
    var parsed := ParseHandler(handler);
    if parsed.None? then []
    else
      var HandlerParts(assemblyName, typeName, methodName) := parsed.value;
      var projectToProcess := FindProject(projects, assemblyName);
      if projectToProcess.None? then []
      else
        var fileId := findPublicMethod(typeName, methodName, projectToProcess.value.projectFilePath);
        if fileId.None? then []
        else
          ParseThenFormat(handler);
          [HandlerElement(FormatHandler(parsed.value), fileId.value)]
  }

  /**
    isHandlerValid, on the path that runs isMethodExists directly. `isMethodExists(className,
    methodName, projectFilePath)` stands for the backend call.
   */
  function IsHandlerValid(projects: seq<PublishableProject>, isMethodExists: (string, string, string) -> bool,
                          handler: string): (r: bool)
    ensures r ==> ParseHandler(handler).Some? && FindProject(projects, ParseHandler(handler).value.assemblyName).Some?
  {
    var parsed := ParseHandler(handler);
    if parsed.None? then false
    else
      var projectToProcess := FindProject(projects, parsed.value.assemblyName);
      if projectToProcess.None? then false
      else isMethodExists(parsed.value.typeName, parsed.value.methodName, projectToProcess.value.projectFilePath)
  }

  /** shouldShowLineMarker. */
  function ShouldShowLineMarker(handler: string): (r: bool)
    ensures r <==> ParseHandler(handler).Some?
  {
    |Split(handler, Separator)| == 3
  }

  /** Empty segments count: "::::" splits into three empty parts. */
  lemma EmptySegmentsCount()
    ensures Split("::::", Separator) == ["", "", ""]
    ensures ShouldShowLineMarker("::::")
  {
    JoinThree("", "", "");
    ColonFree("");
    SplitJoin(["", "", ""]);
  }

  /** Two parts or four parts are not a handler. */
  lemma WrongSegmentCounts()
    ensures !ShouldShowLineMarker("a::b")
    ensures !ShouldShowLineMarker("a::b::c::d")
  {
    ColonFree("a");
    ColonFree("b");
    ColonFree("c");
    ColonFree("d");
    assert Join(["a", "b"], Separator) == "a::b" by {
      assert ["a", "b"][1..] == ["b"];
    }
    SplitJoin(["a", "b"]);
    assert Join(["a", "b", "c", "d"], Separator) == "a::b::c::d" by {
      assert ["a", "b", "c", "d"][1..] == ["b", "c", "d"];
      JoinThree("b", "c", "d");
    }
    SplitJoin(["a", "b", "c", "d"]);
  }


  datatype Language = CSharpLanguage | OtherLanguage

  /** determineHandler: a fixed handler for the `ILambdaContext` token of a C# file. */
  function DetermineHandler(language: Language, text: string, containingFileName: string): (r: Option<string>)
    ensures r.Some? <==> language == CSharpLanguage && text == "ILambdaContext"
    ensures r.Some? ==> r.value == FormatHandler(HandlerParts(containingFileName, "HelloWorld.Function", "FunctionHandler"))
  {
    if language != CSharpLanguage then None
    else if text != "ILambdaContext" then None
    else
      var assemblyName := containingFileName;
      var typeName := "HelloWorld.Function";
      var methodName := "FunctionHandler";
      Some(assemblyName + "::" + typeName + "::" + methodName)
  }

  /** determineHandlers: the singleton of determineHandler's result, or empty. */
  function DetermineHandlers(language: Language, text: string, containingFileName: string): (r: set<string>)
    ensures forall x :: x in r <==> DetermineHandler(language, text, containingFileName) == Some(x)
  {
    var handler := DetermineHandler(language, text, containingFileName);
    if handler.None? then {} else {handler.value}
  }

  /** A determined handler parses back into the file name, the type and the method, when the file name allows it. */
  lemma DetermineHandlerParses(containingFileName: string)
    requires Free(containingFileName, Separator)
    requires |containingFileName| == 0 || containingFileName[|containingFileName| - 1] != ':'
    ensures var r := DetermineHandler(CSharpLanguage, "ILambdaContext", containingFileName);
      r.Some? && ParseHandler(r.value) == Some(HandlerParts(containingFileName, "HelloWorld.Function", "FunctionHandler"))
  {
    var p := HandlerParts(containingFileName, "HelloWorld.Function", "FunctionHandler");
    ColonFree(p.typeName);
    ColonFree(p.methodName);
    FormatThenParse(p);
  }
}
