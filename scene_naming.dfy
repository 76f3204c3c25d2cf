// Naming and argument rules of the scene factories (mpyscene.py, mpyfactory.py):
// unique names, shape-file names, default node names, namespace and
// reference filters, `createNode` and `setSelection`.
module SceneNaming {
  import opened Wrappers

  predicate IsDigit(c: char)
  {
    '0' <= c <= '9'
  }

  predicate EndsWith(s: string, suffix: string)
  {
    |suffix| <= |s| && s[|s| - |suffix|..] == suffix
  }

  /** `name.rstrip(string.digits)`. */
  function RStripDigits(name: string): (r: string)
    ensures |r| <= |name| && name[..|r|] == r
    ensures r == [] || !IsDigit(r[|r| - 1])
    ensures forall i :: |r| <= i < |name| ==> IsDigit(name[i])
  {
    if name != [] && IsDigit(name[|name| - 1]) then RStripDigits(name[..|name| - 1]) else name
  }

  function DigitChar(d: nat): (c: char)
    requires d < 10
    ensures IsDigit(c)
  {
    ['0', '1', '2', '3', '4', '5', '6', '7', '8', '9'][d]
  }

  /** `str(n)` of a non-negative int. */
  function NatToString(n: nat): (s: string)
    ensures |s| > 0 && forall i :: 0 <= i < |s| ==> IsDigit(s[i])
    ensures n < 10 <==> |s| == 1
  {
    if n < 10 then [DigitChar(n)] else NatToString(n / 10) + [DigitChar(n % 10)]
  }

  lemma {:induction false} NatToStringInjective(a: nat, b: nat)
    requires NatToString(a) == NatToString(b)
    ensures a == b
  {
    var s := NatToString(a);
    if a >= 10 && b >= 10 {
      assert s[..|s| - 1] == NatToString(a / 10) && s[..|s| - 1] == NatToString(b / 10);
      NatToStringInjective(a / 10, b / 10);
      assert DigitChar(a % 10) == DigitChar(b % 10);
      DigitCharInjective(a % 10, b % 10);
    } else {
      DigitCharInjective(a, b);
    }
  }

  lemma DigitCharInjective(a: nat, b: nat)
    requires a < 10 && b < 10 && DigitChar(a) == DigitChar(b)
    ensures a == b
  {
  }

  /** The name `makeNameUnique` tries in its k-th round. */
  function Candidate(stem: string, k: nat): string
  {
    stem + NatToString(k)
  }

  lemma CandidateInjective(stem: string, j: nat, k: nat)
    requires Candidate(stem, j) == Candidate(stem, k)
    ensures j == k
  {
    assert NatToString(j) == Candidate(stem, j)[|stem|..];
    assert NatToString(k) == Candidate(stem, k)[|stem|..];
    NatToStringInjective(j, k);
  }

  /** The candidates of rounds 1..k. */
  ghost function Tried(stem: string, k: nat): (r: set<string>)
    ensures forall d :: 1 <= d <= k ==> Candidate(stem, d) in r
    ensures forall x :: x in r ==> exists d :: 1 <= d <= k && x == Candidate(stem, d)
    ensures |r| == k
  {
    if k == 0 then {}
    else
      var rest := Tried(stem, k - 1);
      assert Candidate(stem, k) !in rest by {
        if Candidate(stem, k) in rest {
          var d :| 1 <= d <= k - 1 && Candidate(stem, k) == Candidate(stem, d);
          CandidateInjective(stem, k, d);
        }
      }
      rest + {Candidate(stem, k)}
  }

  lemma SubsetSize(a: set<string>, b: set<string>)
    requires a <= b
    ensures |a| <= |b|
  {
    assert b == a + (b - a);
  }

  /**
   * `makeNameUnique`: an unused name is returned as is; otherwise the stem
   * (the name without trailing digits) followed by the smallest number from 1
   * up that gives an unused name. `existing` stands for `mc.objExists`.
   */
  method MakeNameUnique(name: string, existing: set<string>) returns (newName: string)
    ensures newName !in existing
    ensures name !in existing ==> newName == name
    ensures name in existing ==> exists k :: (k >= 1 && newName == Candidate(RStripDigits(name), k)
      && forall j :: 1 <= j < k ==> Candidate(RStripDigits(name), j) in existing)
  {
    var strippedName := RStripDigits(name);
    newName := name;
    var digit: nat := 1;
    while newName in existing
      invariant digit >= 1
      invariant digit == 1 ==> newName == name
      invariant digit > 1 ==> newName == Candidate(strippedName, digit - 1) && name in existing
      invariant forall j :: 1 <= j < digit - 1 ==> Candidate(strippedName, j) in existing
      decreases |existing| + 1 - digit
    {
      if digit > 1 {
        assert Tried(strippedName, digit - 1) <= existing;
        SubsetSize(Tried(strippedName, digit - 1), existing);
      }
      newName := strippedName + NatToString(digit);
      digit := digit + 1;
    }
    if digit > 1 {
      assert forall j :: 1 <= j < digit - 1 ==> Candidate(strippedName, j) in existing;
    }
  }

  /** `getAbsoluteShapePath`'s file name: `.json` is appended only when missing. */
  function ShapeFileName(name: string): (r: string)
  {
    if !EndsWith(name, ".json") then name + ".json" else name
  }

  /** `getShapeTemplate`'s file name: `.json` is always appended. */
  function ShapeTemplateFileName(name: string): string
  {
    name + ".json"
  }

  /** The scene's shape file name always ends with `.json`, keeps a name that does, and applying it twice changes nothing. */
  lemma ShapeFileNameRule(name: string)
    ensures EndsWith(ShapeFileName(name), ".json")
    ensures EndsWith(name, ".json") <==> ShapeFileName(name) == name
    ensures ShapeFileName(ShapeFileName(name)) == ShapeFileName(name)
  {
    var r := name + ".json";
    assert r[|r| - 5..] == ".json";
  }

  /** The factory's template file name doubles an existing `.json` suffix. */
  lemma ShapeTemplateDoublesSuffix(name: string)
    requires EndsWith(name, ".json")
    ensures ShapeTemplateFileName(name) != ShapeFileName(name)
    ensures |ShapeTemplateFileName(name)| == |name| + 5
  {
    assert |ShapeTemplateFileName(name)| != |name|;
  }

  /** `stringutils.isNullOrEmpty` over an optional string. */
  predicate IsNullOrEmpty(s: Option<string>)
  {
    s.None? || s.value == ""
  }

  /** `createShadingNode`'s name: `'<type>1'` for a null or empty name. */
  function ShadingNodeName(typeName: string, name: Option<string>): (r: string)
    ensures IsNullOrEmpty(name) ==> r == typeName + "1"
    ensures !IsNullOrEmpty(name) ==> r == name.value
  {
    if IsNullOrEmpty(name) then typeName + "1" else name.value
  }

  /** `createShader`'s names: the shader (defaulting like a shading node) and its group `'<shader>SG'`. */
  function ShaderNames(typeName: string, name: Option<string>): (r: (string, string))
    ensures r.0 == ShadingNodeName(typeName, name)
    ensures r.1 == r.0 + "SG"
  {
    if IsNullOrEmpty(name) then (typeName + "1", typeName + "1" + "SG") else (name.value, name.value + "SG")
  }

  /** `createDisplayLayer`'s name: `'layer1'` for a null or empty name. */
  function DisplayLayerName(name: Option<string>): (r: string)
    ensures r != ""
    ensures IsNullOrEmpty(name) ==> r == "layer1"
    ensures !IsNullOrEmpty(name) ==> r == name.value
  {
    if IsNullOrEmpty(name) then "layer1" else name.value
  }

  /** `iterNodesByNamespace`: a null or empty namespace means the root namespace ':'. */
  function SearchNamespace(namespace: Option<string>): (r: string)
    ensures r != ""
    ensures IsNullOrEmpty(namespace) ==> r == ":"
    ensures !IsNullOrEmpty(namespace) ==> r == namespace.value
  {
    if IsNullOrEmpty(namespace) then ":" else namespace.value
  }

  /** `iterNodesByNamespace`: the namespace's objects when it exists, nothing otherwise. */
  function NodesInNamespace(namespace: Option<string>, namespaces: map<string, seq<nat>>): (r: seq<nat>)
    ensures SearchNamespace(namespace) in namespaces ==> r == namespaces[SearchNamespace(namespace)]
    ensures SearchNamespace(namespace) !in namespaces ==> r == []
  {
    var ns := SearchNamespace(namespace);
    if ns in namespaces then namespaces[ns] else []
  }

  /** `iterReferenceNodes`: reference node names, without the shared reference node when asked. */
  function ReferenceNodes(names: seq<string>, skipShared: bool): (r: seq<string>)
    ensures |r| <= |names|
  {
    if names == [] then []
    else
      var head := names[0];
      (if EndsWith(head, "sharedReferenceNode") && skipShared then [] else [head]) + ReferenceNodes(names[1..], skipShared)
  }

  /** A name is kept exactly when it does not end with `sharedReferenceNode` or shared nodes are not skipped; order is kept. */
  lemma {:induction false} ReferenceNodesFilter(names: seq<string>, skipShared: bool)
    ensures forall x :: x in ReferenceNodes(names, skipShared) <==>
      x in names && !(EndsWith(x, "sharedReferenceNode") && skipShared)
    ensures !skipShared ==> ReferenceNodes(names, skipShared) == names
  {
    if names != [] {
      ReferenceNodesFilter(names[1..], skipShared);
      assert names == [names[0]] + names[1..];
    }
  }

  /** The `name` argument of `createNode`: a string, a dict of name parts, or anything else. */
  datatype NameArg = StrName(s: string) | DictName(parts: map<string, string>) | OtherName

  /** The kind of node `MPyFactory.createNode` makes. */
  datatype Created = DependNode | DagNode(parent: nat)

  /** What `MPyFactory.createNode` does: which node it makes, the name it sets, and whether it selects. */
  datatype CreatePlan = CreatePlan(node: Created, rename: Option<string>, selectReplacing: bool)

  /**
   * `MPyFactory.createNode`: a dict name is concatenated first; the node is a
   * dependency node without a parent and a DAG node under the parent
   * otherwise; it is renamed only for a non-empty string name and selected,
   * replacing the selection, unless `skipSelect`. `concatenate` stands for
   * `namingutils.concatenateName`.
   */
  function CreateNodePlan(name: NameArg, parent: Option<nat>, skipSelect: bool,
                          concatenate: map<string, string> -> string): (r: CreatePlan)
  {
    var resolved := if name.DictName? then StrName(concatenate(name.parts)) else name;
    var rename := if resolved.StrName? && resolved.s != "" then Some(resolved.s) else None;
    CreatePlan(if parent.None? then DependNode else DagNode(parent.value), rename, !skipSelect)
  }

  lemma CreateNodePlanRules(name: NameArg, parent: Option<nat>, skipSelect: bool, concatenate: map<string, string> -> string)
    ensures var r := CreateNodePlan(name, parent, skipSelect, concatenate);
      && (r.node.DependNode? <==> parent.None?)
      && (parent.Some? ==> r.node == DagNode(parent.value))
      && (r.rename.Some? <==> (name.StrName? && name.s != "") || (name.DictName? && concatenate(name.parts) != ""))
      && (name.StrName? && name.s != "" ==> r.rename == Some(name.s))
      && (name.DictName? && concatenate(name.parts) != "" ==> r.rename == Some(concatenate(name.parts)))
      && (r.selectReplacing <==> !skipSelect)
  {
  }

  /** A node listed in a selection argument: a wrapper (its object) or a name or object to look up. */
  datatype SelectionArg =
    | SelectionList(items: seq<nat>)
    | PyList(nodes: seq<nat>)
    | PyTuple(nodes: seq<nat>)
    | PySet(nodes: seq<nat>)
    | OtherSelection

  /** `MSelectionList.merge`: the items of `other` not already listed are added at the end. */
  function Merge(sel: seq<nat>, other: seq<nat>): (r: seq<nat>)
    ensures forall x :: x in r <==> x in sel || x in other
    ensures |sel| <= |r| && r[..|sel|] == sel
    decreases |other|
  {
    if other == [] then sel
    else
      var next := if other[0] in sel then sel else sel + [other[0]];
      var r := Merge(next, other[1..]);
      assert other == [other[0]] + other[1..];
      r
  }

  /**
   * `MPyScene.setSelection`: the new active selection. A list, tuple or set is
   * made into a selection list first; without `replace` the current selection
   * is merged in; anything else raises TypeError.
   */
  function SceneSetSelection(current: seq<nat>, selection: SelectionArg, replace: bool): (r: Result<seq<nat>>)
  {
    var items :=
      match selection
      case SelectionList(xs) => Some(xs)
      case PyList(xs) => Some(xs)
      case PyTuple(xs) => Some(xs)
      case PySet(xs) => Some(xs)
      case OtherSelection => None;
    if items.None? then Err(TypeError)
    else if replace then Ok(items.value)
    else Ok(Merge(items.value, current))
  }

  /** `MPyFactory.setSelection`: only a selection list or a python list is accepted; it always replaces. */
  function FactorySetSelection(selection: SelectionArg): (r: Result<seq<nat>>)
  {
    match selection
    case SelectionList(xs) => Ok(xs)
    case PyList(xs) => Ok(xs)
    case _ => Err(TypeError)
  }

  /**
   * Both `setSelection`s agree on selection lists and lists when replacing;
   * the factory rejects tuples and sets, which the scene accepts; without
   * `replace` the scene keeps the current selection too.
   */
  lemma SetSelectionRules(current: seq<nat>, selection: SelectionArg, replace: bool)
    ensures (selection.SelectionList? || selection.PyList?) && replace ==>
      SceneSetSelection(current, selection, replace) == FactorySetSelection(selection)
    ensures (selection.PyTuple? || selection.PySet?) ==>
      FactorySetSelection(selection) == Err(TypeError) && SceneSetSelection(current, selection, replace).Ok?
    ensures selection.OtherSelection? ==> SceneSetSelection(current, selection, replace) == Err(TypeError)
    ensures SceneSetSelection(current, selection, replace).Ok? && !replace ==>
      forall x :: x in current ==> x in SceneSetSelection(current, selection, replace).value
  {
  }
}
