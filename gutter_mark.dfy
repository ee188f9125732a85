/**
  LambdaRunMarkerGutterMark.ComposeHandlerString: the handler string behind the Run, Debug and
  Create menu items of a run marker. The type segment is not looked up: it is cut from the
  marker's `FullName` by length, on the assumption that `FullName` is `type.method`.
 */
module LambdaRunMarkerGutterMark {
  import opened Wrappers
  import opened HostModel
  import DotNetLambdaHandlerResolver
  import LambdaHost

  /**
    The parts of a RunMarkerHighlighting the string is built from: the project's output
    assembly name for the marker's target framework, the method's short name and the
    marker's FullName.
   */
  datatype RunMarker = RunMarker(assemblyName: string, methodName: string, fullName: string)

  /** `""` for a null marker or a FullName shorter than the method name plus one; otherwise the template. */
  function ComposeHandlerString(runMarker: Option<RunMarker>): (r: string)
    ensures runMarker.None? ==> r == ""
    ensures runMarker.Some? && |runMarker.value.fullName| - |runMarker.value.methodName| - 1 < 0 ==> r == ""
    ensures r != "" ==>
      (runMarker.Some? &&
       exists typeString :: |typeString| + |runMarker.value.methodName| + 1 == |runMarker.value.fullName| &&
         typeString <= runMarker.value.fullName &&
         r == DotNetLambdaHandlerResolver.FormatHandler(
           DotNetLambdaHandlerResolver.HandlerParts(runMarker.value.assemblyName, typeString, runMarker.value.methodName)))
  {
    if runMarker.None? then ""
    else
      var assemblyName := runMarker.value.assemblyName;
      var methodName := runMarker.value.methodName;
      var subStringLength := |runMarker.value.fullName| - |methodName| - 1;
      if subStringLength < 0 then ""
      else
        var typeString := runMarker.value.fullName[..subStringLength];
        assemblyName + "::" + typeString + "::" + methodName
  }

  /** A marker whose FullName is `type.method` yields exactly the type as the middle segment. */
  lemma TypeSegmentFromFullName(assemblyName: string, typeString: string, methodName: string)
    ensures ComposeHandlerString(Some(RunMarker(assemblyName, methodName, typeString + "." + methodName))) ==
      DotNetLambdaHandlerResolver.FormatHandler(DotNetLambdaHandlerResolver.HandlerParts(assemblyName, typeString, methodName))
  {
    var fullName := typeString + "." + methodName;
    assert fullName[..|typeString|] == typeString;
  }

  /** The string is non-empty exactly for a marker whose FullName is longer than the method name. */
  lemma NonEmptyIff(runMarker: Option<RunMarker>)
    ensures ComposeHandlerString(runMarker) != "" <==>
      runMarker.Some? && |runMarker.value.fullName| > |runMarker.value.methodName|
  {
    if runMarker.Some? && |runMarker.value.fullName| > |runMarker.value.methodName| {
      var r := ComposeHandlerString(runMarker);
      assert r[|runMarker.value.assemblyName|] == ':';
    }
  }

  /** For a method of element `e`, a marker named `clrName.method` gives LambdaHost's handler string. */
  lemma AgreesWithLambdaHost(h: Host, assemblyName: string, m: Method)
    requires m.containingType.Some? && m.containingType.value in h.elements
    ensures ComposeHandlerString(Some(RunMarker(assemblyName, m.shortName,
              h.elements[m.containingType.value].clrName + "." + m.shortName))) ==
            LambdaHost.ComposeHandlerString(h, Some(assemblyName), m)
  {
    TypeSegmentFromFullName(assemblyName, h.elements[m.containingType.value].clrName, m.shortName);
  }

  /** A FullName that does not end with `.method` still gives a three-part string, with the wrong type segment. */
  lemma FullNameWithoutMethod()
    ensures ComposeHandlerString(Some(RunMarker("A", "Run", "N.C.Handler"))) == "A::N.C.Han::Run"
  {
    assert "N.C.Handler"[..7] == "N.C.Han";
  }
}
