/**
  NodeJsLambdaHandlerResolver: the handler string `path/file.function` and the syntax shape
  `exports.name = function (a, b[, c]) { ... }` that marks a handler.

  The JavaScript PSI tree is a map from node ids to nodes. JSClassResolver's name lookup is
  a parameter; inferSourceRoot, findRelativePath and getNameWithoutExtension are folded into
  one per-node field, `fileStem`.
 */
module NodeJsLambdaHandlerResolver {
  import opened Wrappers
  import opened KotlinText

  type NodeId = nat

  /** The PSI interfaces the predicates test with `is`. */
  datatype PsiKind = AssignmentExpression | DefinitionExpression | ReferenceExpression | FunctionElement | OtherElement

  datatype TokenType = IDENTIFIER | DOT | OtherToken

  /**
    A PSI element:
    - elementType: `node?.elementType` (None when the element has no AST node);
    - lOperand / rOperand: an assignment's operands;
    - parameterCount: `parameterList?.parameters?.size` of a function;
    - navigatable: the element is a NavigatablePsiElement;
    - fileStem: the path of the element's file relative to its source root, without extension
      (None when no relative path exists).
   */
  datatype PsiNode = PsiNode(
    kind: PsiKind,
    elementType: Option<TokenType>,
    text: string,
    parent: Option<NodeId>,
    children: seq<NodeId>,
    lOperand: Option<NodeId>,
    rOperand: Option<NodeId>,
    parameterCount: Option<nat>,
    navigatable: bool,
    fileStem: Option<string>)

  type PsiTree = map<NodeId, PsiNode>

  predicate HasKind(tree: PsiTree, id: NodeId, kind: PsiKind) {
    id in tree && tree[id].kind == kind
  }

  predicate HasElementType(tree: PsiTree, id: NodeId, t: TokenType) {
    id in tree && tree[id].elementType == Some(t)
  }

  /** isExports: a reference with one IDENTIFIER child whose text is "exports". */
  predicate IsExports(tree: PsiTree, id: NodeId) {
    HasKind(tree, id, ReferenceExpression) &&
    |tree[id].children| == 1 &&
    HasElementType(tree, tree[id].children[0], IDENTIFIER) &&
    tree[tree[id].children[0]].text == "exports"
  }

  /** isExportsReference: `exports`, DOT, IDENTIFIER. */
  predicate IsExportsReference(tree: PsiTree, id: NodeId) {
    HasKind(tree, id, ReferenceExpression) &&
    |tree[id].children| == 3 &&
    IsExports(tree, tree[id].children[0]) &&
    HasElementType(tree, tree[id].children[1], DOT) &&
    HasElementType(tree, tree[id].children[2], IDENTIFIER)
  }

  /** isExportsDefinition: a definition expression whose only child is an exports reference. */
  predicate IsExportsDefinition(tree: PsiTree, id: NodeId) {
    HasKind(tree, id, DefinitionExpression) &&
    |tree[id].children| == 1 &&
    IsExportsReference(tree, tree[id].children[0])
  }

  /** isLambdaFunctionExpression: a function with 2 or 3 parameters. */
  predicate IsLambdaFunctionExpression(tree: PsiTree, id: NodeId) {
    HasKind(tree, id, FunctionElement) &&
    (tree[id].parameterCount == Some(2) || tree[id].parameterCount == Some(3))
  }

  /** isValidLambdaHandler: `exports.name = <2- or 3-parameter function>`. */
  predicate IsValidLambdaHandler(tree: PsiTree, id: NodeId) {
    HasKind(tree, id, AssignmentExpression) &&
    tree[id].lOperand.Some? && IsExportsDefinition(tree, tree[id].lOperand.value) &&
    tree[id].rOperand.Some? && IsLambdaFunctionExpression(tree, tree[id].rOperand.value)
  }

  /** isValidHandlerElement: navigatable, its parent a valid handler, in a file whose stem is `fileName`. */
  predicate IsValidHandlerElement(tree: PsiTree, id: NodeId, fileName: string) {
    id in tree &&
    tree[id].fileStem.Some? &&
    tree[id].navigatable &&
    tree[id].parent.Some? && IsValidLambdaHandler(tree, tree[id].parent.value) &&
    tree[id].fileStem.value == fileName
  }

  /** The split of findPsiElements: the text before and after the last '.', None without a '.'. */
  function SplitAtLastDot(handler: string): (r: Option<(string, string)>)
    ensures r.None? <==> forall k :: 0 <= k < |handler| ==> handler[k] != '.'
    ensures r.Some? ==> r.value.0 + "." + r.value.1 == handler
    ensures r.Some? ==> forall k :: 0 <= k < |r.value.1| ==> r.value.1[k] != '.'
  {
    var lastDotIndex := LastIndexOf(handler, '.');
    if lastDotIndex.None? then None
    else
      var i := lastDotIndex.value;
      var fileName := handler[..i];
      var elementName := handler[i + 1..];
      assert handler == fileName + [handler[i]] + elementName;
      assert forall k :: 0 <= k < |elementName| ==> elementName[k] == handler[i + 1 + k];
      Some((fileName, elementName))
  }

  /** `filter { it.isValidHandlerElement(fileName) }`, keeping order. */
  function FilterValid(tree: PsiTree, candidates: seq<NodeId>, fileName: string): (r: seq<NodeId>)
    ensures forall x :: x in r <==> x in candidates && IsValidHandlerElement(tree, x, fileName)
    ensures |r| <= |candidates|
  {
    if |candidates| == 0 then []
    else
      (if IsValidHandlerElement(tree, candidates[0], fileName) then [candidates[0]] else []) +
      FilterValid(tree, candidates[1..], fileName)
  }

  /**
    findPsiElements. `findElementsByName(name)` stands for
    JSClassResolver.findElementsByNameIncludingImplicit over the search scope.
   */
  function FindPsiElements(tree: PsiTree, findElementsByName: string -> seq<NodeId>, handler: string): (r: seq<NodeId>)
    ensures SplitAtLastDot(handler).None? ==> r == []
    ensures SplitAtLastDot(handler).Some? ==>
      var (fileName, elementName) := SplitAtLastDot(handler).value;
      forall x :: x in r <==> x in findElementsByName(elementName) && IsValidHandlerElement(tree, x, fileName)
  {
    var split := SplitAtLastDot(handler);
    if split.None? then []
    else
      var (fileName, elementName) := split.value;
      FilterValid(tree, findElementsByName(elementName), fileName)
  }

  /** determineHandler. */
  function DetermineHandler(tree: PsiTree, id: NodeId): Option<string> {
    if !HasElementType(tree, id, IDENTIFIER) then None
    else if tree[id].parent.None? || tree[id].parent.value !in tree then None
    else
      var parentNode := tree[tree[id].parent.value];
      if parentNode.parent.None? then None
      else
        var exportsDefinition := parentNode.parent.value;
        if !IsExportsDefinition(tree, exportsDefinition) then None
        else if tree[exportsDefinition].parent.None? then None
        else
          var lambdaHandlerAssignment := tree[exportsDefinition].parent.value;
          if !HasKind(tree, lambdaHandlerAssignment, AssignmentExpression) then None
          else if !(tree[lambdaHandlerAssignment].rOperand.Some? &&
                    IsLambdaFunctionExpression(tree, tree[lambdaHandlerAssignment].rOperand.value)) then None
          else if tree[id].fileStem.None? then None
          else
            var prefix := tree[id].fileStem.value;
            var handlerName := tree[id].text;
            Some(prefix + "." + handlerName)
  }

  /** determineHandlers. */
  function DetermineHandlers(tree: PsiTree, id: NodeId): (r: set<string>)
    ensures |r| <= 1
    ensures forall x :: x in r <==> DetermineHandler(tree, id) == Some(x)
  {
    var handler := DetermineHandler(tree, id);
    if handler.None? then {} else {handler.value}
  }

  /** The grandparent of `id`, when both links exist. */
  function Grandparent(tree: PsiTree, id: NodeId): Option<NodeId> {
    if id in tree && tree[id].parent.Some? && tree[id].parent.value in tree then tree[tree[id].parent.value].parent
    else None
  }

  /** A determined handler whose function name has no '.' splits back into the file stem and the name. */
  lemma DetermineThenSplit(tree: PsiTree, id: NodeId)
    requires DetermineHandler(tree, id).Some?
    requires forall k :: 0 <= k < |tree[id].text| ==> tree[id].text[k] != '.'
    ensures SplitAtLastDot(DetermineHandler(tree, id).value) == Some((tree[id].fileStem.value, tree[id].text))
  {
    var prefix := tree[id].fileStem.value;
    var name := tree[id].text;
    FormatThenSplit(prefix, name);
  }

  /** `"$prefix.$name"` splits at its last dot into (prefix, name) when the name has no '.'. */
  lemma FormatThenSplit(prefix: string, name: string)
    requires forall k :: 0 <= k < |name| ==> name[k] != '.'
    ensures SplitAtLastDot(prefix + "." + name) == Some((prefix, name))
  {
    var s := prefix + "." + name;
    assert s[|prefix|] == '.';
    assert forall k :: |prefix| < k < |s| ==> s[k] == name[k - |prefix| - 1];
    var r := SplitAtLastDot(s);
    assert r.Some?;
    var i := LastIndexOf(s, '.').value;
    assert i == |prefix|;
    assert s[..i] == prefix;
    assert s[i + 1..] == name;
  }

  /**
    Round trip: the handler determined from the name identifier of `exports.name = function ...`
    finds that definition again, when the name lookup returns it, the definition is the
    assignment's left operand, it is navigatable, and it lies in the identifier's file.
   */
  lemma DetermineThenFind(tree: PsiTree, findElementsByName: string -> seq<NodeId>, id: NodeId)
    requires DetermineHandler(tree, id).Some?
    requires forall k :: 0 <= k < |tree[id].text| ==> tree[id].text[k] != '.'
    requires Grandparent(tree, id).Some?
    requires var definition := Grandparent(tree, id).value;
      definition in tree && tree[definition].parent.Some? &&
      tree[definition].parent.value in tree && tree[tree[definition].parent.value].lOperand == Some(definition) &&
      tree[definition].navigatable && tree[definition].fileStem == tree[id].fileStem &&
      definition in findElementsByName(tree[id].text)
    ensures Grandparent(tree, id).value in FindPsiElements(tree, findElementsByName, DetermineHandler(tree, id).value)
  {
    DetermineThenSplit(tree, id);
    var definition := Grandparent(tree, id).value;
    assert IsValidLambdaHandler(tree, tree[definition].parent.value);
    assert IsValidHandlerElement(tree, definition, tree[id].fileStem.value);
  }
}
