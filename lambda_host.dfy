/**
  LambdaHost: the handler strings the backend offers for completion.

  The solution is a tree: projects, each with its PSI modules; each module's symbol scope is
  a `Host`, whose global namespace has nested namespaces holding type elements, and the
  module lists the methods of each class. DetermineHandlers walks that tree in the source's
  order and keeps the methods LambdaFinder accepts; it is proved to compute `Render(Visits(..))`,
  the filter over the sequence of scanned methods.
 */
module LambdaHost {
  import opened Wrappers
  import opened HostModel
  import LambdaFinder
  import DotNetLambdaHandlerResolver

  /** The qualified name of the global namespace. */
  const GlobalNamespace := ""

  /** A PSI module: its symbol scope and `IClass.Methods` of each class element. */
  datatype PsiModule = PsiModule(scope: Host, classMethods: map<ElementId, seq<Method>>)

  /** A project: `GetOutputAssemblyName(GetCurrentTargetFrameworkId())` and `GetPsiModules()`. */
  datatype Project = Project(outputAssemblyName: string, psiModules: seq<PsiModule>)

  /** One method the traversal reaches, with the project, module and class it was reached through. */
  datatype Visit = Visit(project: Project, psiModule: PsiModule, cls: ElementId, target: Method)

  /**
    ComposeHandlerString: `""` for a null project or a method without a containing type,
    otherwise the Rider handler template over the assembly, the type's full CLR name and
    the method's short name. `project` is the output assembly name of a non-null project.
   */
  function ComposeHandlerString(h: Host, project: Option<string>, m: Method): (r: string)
    ensures project.None? ==> r == ""
    ensures m.containingType.None? || m.containingType.value !in h.elements ==> r == ""
    ensures project.Some? && m.containingType.Some? && m.containingType.value in h.elements ==>
      r == DotNetLambdaHandlerResolver.FormatHandler(DotNetLambdaHandlerResolver.HandlerParts(
        project.value, h.elements[m.containingType.value].clrName, m.shortName))
  {
    if project.None? then ""
    else
      var assemblyName := project.value;
      var containingType := m.containingType;
      if containingType.None? || containingType.value !in h.elements then ""
      else
        var typeString := h.elements[containingType.value].clrName;
        var methodName := m.shortName;
        assemblyName + "::" + typeString + "::" + methodName
  }

  /** A composed handler whose three names contain no ':' parses back into those names. */
  lemma ComposeThenParse(h: Host, assembly: string, m: Method)
    requires m.containingType.Some? && m.containingType.value in h.elements
    requires forall k :: 0 <= k < |assembly| ==> assembly[k] != ':'
    requires var n := h.elements[m.containingType.value].clrName; forall k :: 0 <= k < |n| ==> n[k] != ':'
    requires forall k :: 0 <= k < |m.shortName| ==> m.shortName[k] != ':'
    ensures DotNetLambdaHandlerResolver.ParseHandler(ComposeHandlerString(h, Some(assembly), m)) ==
      Some(DotNetLambdaHandlerResolver.HandlerParts(assembly, h.elements[m.containingType.value].clrName, m.shortName))
  {
    var n := h.elements[m.containingType.value].clrName;
    DotNetLambdaHandlerResolver.ColonFree(assembly);
    DotNetLambdaHandlerResolver.ColonFree(n);
    DotNetLambdaHandlerResolver.ColonFree(m.shortName);
    DotNetLambdaHandlerResolver.FormatThenParse(DotNetLambdaHandlerResolver.HandlerParts(assembly, n, m.shortName));
  }

  // ---- The traversal, as the sequence of methods it reaches ----

  /** `GetNestedNamespaces` of a namespace (none when the scope does not know it). */
  function NestedNamespaces(h: Host, ns: string): seq<string> {
    if ns in h.nestedNamespaces then h.nestedNamespaces[ns] else []
  }

  /** `GetNestedElements(scope).OfType<IClass>()`: the class elements of a namespace, in order. */
  function ClassesIn(h: Host, ns: string): (r: seq<ElementId>)
    ensures forall k :: 0 <= k < |r| ==> IsClassElement(h, r[k])
    ensures forall c :: c in r <==> ns in h.namespaceElements && c in h.namespaceElements[ns] && IsClassElement(h, c)
  {
    if ns !in h.namespaceElements then [] else Classes(h, h.namespaceElements[ns])
  }

  function Classes(h: Host, es: seq<ElementId>): (r: seq<ElementId>)
    ensures forall k :: 0 <= k < |r| ==> IsClassElement(h, r[k])
    ensures forall c :: c in r <==> c in es && IsClassElement(h, c)
  {
    if es == [] then []
    else (if IsClassElement(h, es[0]) then [es[0]] else []) + Classes(h, es[1..])
  }

  /** `@class.Methods` (none when the module lists none for the class). */
  function MethodsOf(md: PsiModule, c: ElementId): seq<Method> {
    if c in md.classMethods then md.classMethods[c] else []
  }

  /** Takes every class of the visits to be reached through a class element of its module's scope. */
  predicate ThroughClasses(vs: seq<Visit>) {
    forall k :: 0 <= k < |vs| ==> IsClassElement(vs[k].psiModule.scope, vs[k].cls)
  }

  function VisitMethods(p: Project, md: PsiModule, c: ElementId, ms: seq<Method>): seq<Visit> {
    if ms == [] then [] else VisitMethods(p, md, c, ms[..|ms| - 1]) + [Visit(p, md, c, ms[|ms| - 1])]
  }

  function VisitClasses(p: Project, md: PsiModule, cs: seq<ElementId>): seq<Visit> {
    if cs == [] then []
    else VisitClasses(p, md, cs[..|cs| - 1]) + VisitMethods(p, md, cs[|cs| - 1], MethodsOf(md, cs[|cs| - 1]))
  }

  function VisitNamespaces(p: Project, md: PsiModule, nss: seq<string>): seq<Visit> {
    if nss == [] then []
    else VisitNamespaces(p, md, nss[..|nss| - 1]) + VisitClasses(p, md, ClassesIn(md.scope, nss[|nss| - 1]))
  }

  function VisitModules(p: Project, mds: seq<PsiModule>): seq<Visit> {
    if mds == [] then []
    else
      var md := mds[|mds| - 1];
      VisitModules(p, mds[..|mds| - 1]) + VisitNamespaces(p, md, NestedNamespaces(md.scope, GlobalNamespace))
  }

  /** Every method the traversal reaches, in order: project, module, namespace, class, method. */
  function Visits(projects: seq<Project>): seq<Visit> {
    if projects == [] then []
    else
      var p := projects[|projects| - 1];
      Visits(projects[..|projects| - 1]) + VisitModules(p, p.psiModules)
  }

  lemma ThroughClassesAppend(a: seq<Visit>, b: seq<Visit>)
    requires ThroughClasses(a) && ThroughClasses(b)
    ensures ThroughClasses(a + b)
  {
    forall k | 0 <= k < |a + b|
      ensures IsClassElement((a + b)[k].psiModule.scope, (a + b)[k].cls)
    {
      if k >= |a| {
        assert (a + b)[k] == b[k - |a|];
      }
    }
  }

  /** The methods of one class are all reached through that class, in order. */
  lemma {:induction false} VisitMethodsShape(p: Project, md: PsiModule, c: ElementId, ms: seq<Method>)
    ensures |VisitMethods(p, md, c, ms)| == |ms|
    ensures forall k :: 0 <= k < |ms| ==> VisitMethods(p, md, c, ms)[k] == Visit(p, md, c, ms[k])
  {
    if ms != [] {
      VisitMethodsShape(p, md, c, ms[..|ms| - 1]);
    }
  }

  lemma {:induction false} VisitClassesThroughClasses(p: Project, md: PsiModule, cs: seq<ElementId>)
    requires forall k :: 0 <= k < |cs| ==> IsClassElement(md.scope, cs[k])
    ensures ThroughClasses(VisitClasses(p, md, cs))
  {
    if cs != [] {
      var c := cs[|cs| - 1];
      VisitClassesThroughClasses(p, md, cs[..|cs| - 1]);
      VisitMethodsShape(p, md, c, MethodsOf(md, c));
      ThroughClassesAppend(VisitClasses(p, md, cs[..|cs| - 1]), VisitMethods(p, md, c, MethodsOf(md, c)));
    }
  }

  lemma {:induction false} VisitNamespacesThroughClasses(p: Project, md: PsiModule, nss: seq<string>)
    ensures ThroughClasses(VisitNamespaces(p, md, nss))
  {
    if nss != [] {
      var ns := nss[|nss| - 1];
      VisitNamespacesThroughClasses(p, md, nss[..|nss| - 1]);
      VisitClassesThroughClasses(p, md, ClassesIn(md.scope, ns));
      ThroughClassesAppend(VisitNamespaces(p, md, nss[..|nss| - 1]), VisitClasses(p, md, ClassesIn(md.scope, ns)));
    }
  }

  lemma {:induction false} VisitModulesThroughClasses(p: Project, mds: seq<PsiModule>)
    ensures ThroughClasses(VisitModules(p, mds))
  {
    if mds != [] {
      var md := mds[|mds| - 1];
      VisitModulesThroughClasses(p, mds[..|mds| - 1]);
      VisitNamespacesThroughClasses(p, md, NestedNamespaces(md.scope, GlobalNamespace));
      ThroughClassesAppend(VisitModules(p, mds[..|mds| - 1]), VisitNamespaces(p, md, NestedNamespaces(md.scope, GlobalNamespace)));
    }
  }

  /** Only class elements are scanned: no visited method belongs to a struct, interface or other element. */
  lemma {:induction false} VisitsThroughClasses(projects: seq<Project>)
    ensures ThroughClasses(Visits(projects))
  {
    if projects != [] {
      var p := projects[|projects| - 1];
      VisitsThroughClasses(projects[..|projects| - 1]);
      VisitModulesThroughClasses(p, p.psiModules);
      ThroughClassesAppend(Visits(projects[..|projects| - 1]), VisitModules(p, p.psiModules));
    }
  }

  /** A visited method is listed when LambdaFinder accepts it in its module's scope. */
  predicate Listed(v: Visit) {
    LambdaFinder.IsSuitableLambdaMethod(v.psiModule.scope, Some(v.target))
  }

  function HandlerOf(v: Visit): string {
    ComposeHandlerString(v.psiModule.scope, Some(v.project.outputAssemblyName), v.target)
  }

  /** `show` of each element `keep` accepts, in order (the `if (...) handlers.Add(...)` pattern). */
  function Keep<T>(vs: seq<T>, keep: T -> bool, show: T -> string): (r: seq<string>)
    ensures |r| <= |vs|
  {
    if vs == [] then []
    else (if keep(vs[0]) then [show(vs[0])] else []) + Keep(vs[1..], keep, show)
  }

  lemma {:induction false} KeepAppend<T>(a: seq<T>, b: seq<T>, keep: T -> bool, show: T -> string)
    ensures Keep(a + b, keep, show) == Keep(a, keep, show) + Keep(b, keep, show)
  {
    if a == [] {
      assert a + b == b;
    } else {
      var first := if keep(a[0]) then [show(a[0])] else [];
      assert (a + b)[0] == a[0];
      assert (a + b)[1..] == a[1..] + b;
      assert Keep(a + b, keep, show) == first + Keep(a[1..] + b, keep, show);
      assert Keep(a, keep, show) == first + Keep(a[1..], keep, show);
      KeepAppend(a[1..], b, keep, show);
    }
  }

  lemma {:induction false} KeepMembers<T>(vs: seq<T>, keep: T -> bool, show: T -> string, x: string)
    ensures x in Keep(vs, keep, show) <==> exists k :: 0 <= k < |vs| && keep(vs[k]) && x == show(vs[k])
  {
    if vs != [] {
      KeepMembers(vs[1..], keep, show, x);
      if exists k :: 0 <= k < |vs| && keep(vs[k]) && x == show(vs[k]) {
        var k :| 0 <= k < |vs| && keep(vs[k]) && x == show(vs[k]);
        if k > 0 {
          assert vs[1..][k - 1] == vs[k];
        }
      }
      if exists k :: 0 <= k < |vs[1..]| && keep(vs[1..][k]) && x == show(vs[1..][k]) {
        var k :| 0 <= k < |vs[1..]| && keep(vs[1..][k]) && x == show(vs[1..][k]);
        assert vs[k + 1] == vs[1..][k];
      }
    }
  }

  lemma {:induction false} KeepNone<T>(vs: seq<T>, keep: T -> bool, show: T -> string)
    requires forall k :: 0 <= k < |vs| ==> !keep(vs[k])
    ensures Keep(vs, keep, show) == []
  {
    if vs != [] {
      KeepNone(vs[1..], keep, show);
    }
  }

  /** The completion items for a sequence of visited methods: the handler of each listed one, in order. */
  function Render(vs: seq<Visit>): (r: seq<string>)
    ensures |r| <= |vs|
  {
    Keep(vs, Listed, HandlerOf)
  }

  lemma RenderAppend(a: seq<Visit>, b: seq<Visit>)
    ensures Render(a + b) == Render(a) + Render(b)
  {
    KeepAppend(a, b, Listed, HandlerOf);
  }

  /** One visited method gives its handler when listed and nothing otherwise. */
  lemma RenderOne(v: Visit)
    ensures Render([v]) == if Listed(v) then [HandlerOf(v)] else []
  {
    assert [v][1..] == [];
  }

  /** A handler is offered exactly for some listed visited method. */
  lemma RenderMembers(vs: seq<Visit>, x: string)
    ensures x in Render(vs) <==> exists k :: 0 <= k < |vs| && Listed(vs[k]) && x == HandlerOf(vs[k])
  {
    KeepMembers(vs, Listed, HandlerOf, x);
  }

  /** Nothing is listed from a sequence of methods LambdaFinder all rejects, whatever their number. */
  lemma RenderNoneListed(vs: seq<Visit>)
    requires forall k :: 0 <= k < |vs| ==> !Listed(vs[k])
    ensures Render(vs) == []
  {
    KeepNone(vs, Listed, HandlerOf);
  }

  /** Every scanned method was reached through a class element: struct and interface methods are never offered. */
  lemma OnlyClassMethods(projects: seq<Project>, x: string)
    requires x in Render(Visits(projects))
    ensures exists k :: 0 <= k < |Visits(projects)| &&
                        IsClassElement(Visits(projects)[k].psiModule.scope, Visits(projects)[k].cls) &&
                        Listed(Visits(projects)[k]) && x == HandlerOf(Visits(projects)[k])
  {
    RenderMembers(Visits(projects), x);
    VisitsThroughClasses(projects);
  }

  /** The items of several projects are those of each project in turn. */
  lemma {:induction false} VisitsAppend(a: seq<Project>, b: seq<Project>)
    ensures Visits(a + b) == Visits(a) + Visits(b)
    decreases |b|
  {
    if b == [] {
      assert a + b == a;
    } else {
      assert (a + b)[..|a + b| - 1] == a + b[..|b| - 1];
      assert (a + b)[|a + b| - 1] == b[|b| - 1];
      VisitsAppend(a, b[..|b| - 1]);
    }
  }

  // ---- DetermineHandlers ----

  /** One loop step: the items so far followed by the items of the next part are the items of both. */
  lemma RenderStep(handlers: seq<string>, before: seq<string>, out: seq<string>, done: seq<Visit>, next: seq<Visit>, whole: seq<Visit>)
    requires before == handlers + Render(done)
    requires out == before + Render(next)
    requires whole == done + next
    ensures out == handlers + Render(whole)
  {
    RenderAppend(done, next);
  }

  lemma VisitMethodsSnoc(p: Project, md: PsiModule, c: ElementId, ms: seq<Method>, i: nat)
    requires i < |ms|
    ensures VisitMethods(p, md, c, ms[..i + 1]) == VisitMethods(p, md, c, ms[..i]) + [Visit(p, md, c, ms[i])]
  {
    assert ms[..i + 1][..i] == ms[..i];
  }

  lemma VisitClassesSnoc(p: Project, md: PsiModule, cs: seq<ElementId>, i: nat)
    requires i < |cs|
    ensures VisitClasses(p, md, cs[..i + 1]) == VisitClasses(p, md, cs[..i]) + VisitMethods(p, md, cs[i], MethodsOf(md, cs[i]))
  {
    assert cs[..i + 1][..i] == cs[..i];
  }

  lemma VisitNamespacesSnoc(p: Project, md: PsiModule, nss: seq<string>, i: nat)
    requires i < |nss|
    ensures VisitNamespaces(p, md, nss[..i + 1]) == VisitNamespaces(p, md, nss[..i]) + VisitClasses(p, md, ClassesIn(md.scope, nss[i]))
  {
    assert nss[..i + 1][..i] == nss[..i];
  }

  lemma VisitModulesSnoc(p: Project, mds: seq<PsiModule>, i: nat)
    requires i < |mds|
    ensures VisitModules(p, mds[..i + 1]) ==
      VisitModules(p, mds[..i]) + VisitNamespaces(p, mds[i], NestedNamespaces(mds[i].scope, GlobalNamespace))
  {
    assert mds[..i + 1][..i] == mds[..i];
  }

  lemma VisitsSnoc(projects: seq<Project>, i: nat)
    requires i < |projects|
    ensures Visits(projects[..i + 1]) == Visits(projects[..i]) + VisitModules(projects[i], projects[i].psiModules)
  {
    assert projects[..i + 1][..i] == projects[..i];
  }

  /** The innermost loop: every method of one class. */
  method ScanMethods(p: Project, md: PsiModule, c: ElementId, handlers: seq<string>) returns (out: seq<string>)
    ensures out == handlers + Render(VisitMethods(p, md, c, MethodsOf(md, c)))
  {
    var methods := MethodsOf(md, c);
    out := handlers;
    var i := 0;
    while i < |methods|
      invariant 0 <= i <= |methods|
      invariant out == handlers + Render(VisitMethods(p, md, c, methods[..i]))
    {
      var candidate := methods[i];
      ghost var before := out;
      if LambdaFinder.IsSuitableLambdaMethod(md.scope, Some(candidate)) {
        var handlerString := ComposeHandlerString(md.scope, Some(p.outputAssemblyName), candidate);
        out := out + [handlerString];
      }
      VisitMethodsSnoc(p, md, c, methods, i);
      RenderOne(Visit(p, md, c, candidate));
      RenderStep(handlers, before, out, VisitMethods(p, md, c, methods[..i]), [Visit(p, md, c, candidate)],
        VisitMethods(p, md, c, methods[..i + 1]));
      i := i + 1;
    }
    assert methods[..i] == methods;
  }

  /** The class loop of one namespace. */
  method ScanNamespace(p: Project, md: PsiModule, ns: string, handlers: seq<string>) returns (out: seq<string>)
    ensures out == handlers + Render(VisitClasses(p, md, ClassesIn(md.scope, ns)))
  {
    var classes := ClassesIn(md.scope, ns);
    out := handlers;
    var i := 0;
    while i < |classes|
      invariant 0 <= i <= |classes|
      invariant out == handlers + Render(VisitClasses(p, md, classes[..i]))
    {
      ghost var before := out;
      out := ScanMethods(p, md, classes[i], out);
      VisitClassesSnoc(p, md, classes, i);
      RenderStep(handlers, before, out, VisitClasses(p, md, classes[..i]), VisitMethods(p, md, classes[i], MethodsOf(md, classes[i])),
        VisitClasses(p, md, classes[..i + 1]));
      i := i + 1;
    }
    assert classes[..i] == classes;
  }

  /** The loop over the namespaces nested in one PSI module's global namespace. */
  method ScanModule(p: Project, md: PsiModule, handlers: seq<string>) returns (out: seq<string>)
    ensures out == handlers + Render(VisitNamespaces(p, md, NestedNamespaces(md.scope, GlobalNamespace)))
  {
    var namespaces := NestedNamespaces(md.scope, GlobalNamespace);
    out := handlers;
    var i := 0;
    while i < |namespaces|
      invariant 0 <= i <= |namespaces|
      invariant out == handlers + Render(VisitNamespaces(p, md, namespaces[..i]))
    {
      ghost var before := out;
      out := ScanNamespace(p, md, namespaces[i], out);
      VisitNamespacesSnoc(p, md, namespaces, i);
      RenderStep(handlers, before, out, VisitNamespaces(p, md, namespaces[..i]), VisitClasses(p, md, ClassesIn(md.scope, namespaces[i])),
        VisitNamespaces(p, md, namespaces[..i + 1]));
      i := i + 1;
    }
    assert namespaces[..i] == namespaces;
  }

  /** The PSI-module loop of one project. */
  method ScanProject(p: Project, handlers: seq<string>) returns (out: seq<string>)
    ensures out == handlers + Render(VisitModules(p, p.psiModules))
  {
    var psiModules := p.psiModules;
    out := handlers;
    var i := 0;
    while i < |psiModules|
      invariant 0 <= i <= |psiModules|
      invariant out == handlers + Render(VisitModules(p, psiModules[..i]))
    {
      var md := psiModules[i];
      ghost var before := out;
      out := ScanModule(p, md, out);
      VisitModulesSnoc(p, psiModules, i);
      RenderStep(handlers, before, out, VisitModules(p, psiModules[..i]), VisitNamespaces(p, md, NestedNamespaces(md.scope, GlobalNamespace)),
        VisitModules(p, psiModules[..i + 1]));
      i := i + 1;
    }
    assert psiModules[..i] == psiModules;
  }

  /**
    DetermineHandlers: a fresh list, filled by the walk over every project. The result is
    the handler of each method LambdaFinder accepts, in traversal order, and nothing else.
   */
  method DetermineHandlers(projects: seq<Project>) returns (handlers: seq<string>)
    ensures handlers == Render(Visits(projects))
    ensures |handlers| <= |Visits(projects)|
    ensures forall x :: x in handlers <==>
      exists k :: 0 <= k < |Visits(projects)| && Listed(Visits(projects)[k]) && x == HandlerOf(Visits(projects)[k])
  {
    handlers := [];
    var i := 0;
    while i < |projects|
      invariant 0 <= i <= |projects|
      invariant handlers == Render(Visits(projects[..i]))
    {
      var project := projects[i];
      ghost var before := handlers;
      handlers := ScanProject(project, handlers);
      VisitsSnoc(projects, i);
      RenderStep([], before, handlers, Visits(projects[..i]), VisitModules(project, project.psiModules), Visits(projects[..i + 1]));
      i := i + 1;
    }
    assert projects[..i] == projects;
    forall x
      ensures x in handlers <==>
        exists k :: 0 <= k < |Visits(projects)| && Listed(Visits(projects)[k]) && x == HandlerOf(Visits(projects)[k])
    {
      RenderMembers(Visits(projects), x);
    }
  }
}
