// `ReferenceMixin` (builtins/referencemixin.py): the load state, edits, file
// path and namespace of a file reference, and the lookup of its nodes by UUID.
module References {
  import opened Wrappers

  /** `s.rstrip(chars)`: trailing characters drawn from the set are removed, however they are ordered. */
  function RStrip(s: string, chars: set<char>): (r: string)
    ensures |r| <= |s| && s[..|r|] == r
    ensures r == [] || r[|r| - 1] !in chars
    ensures forall i :: |r| <= i < |s| ==> s[i] in chars
  {
    if s != [] && s[|s| - 1] in chars then RStrip(s[..|s| - 1], chars) else s
  }

  /** `s.replace('RN', '')`: every non-overlapping "RN", scanning left to right, is removed in one pass. */
  function ReplaceRN(s: string): (r: string)
    ensures |r| <= |s|
  {
    if |s| >= 2 && s[0] == 'R' && s[1] == 'N' then ReplaceRN(s[2..])
    else if s == [] then []
    else [s[0]] + ReplaceRN(s[1..])
  }

  /** A name with no "RN" in it is left as it is. */
  lemma {:induction false} ReplaceRNNoOccurrence(s: string)
    requires forall i :: 0 <= i < |s| - 1 ==> !(s[i] == 'R' && s[i + 1] == 'N')
    ensures ReplaceRN(s) == s
  {
    if s != [] {
      assert !(|s| >= 2 && s[0] == 'R' && s[1] == 'N');
      ReplaceRNNoOccurrence(s[1..]);
    }
  }

  /** One pass only: removing the inner "RN" of "RRNN" leaves an "RN" behind. */
  lemma ReplaceRNSinglePass()
    ensures ReplaceRN("RRNN") == "RN"
  {
    assert "RRNN"[1..] == "RNN";
    assert "RNN"[2..] == "N";
    assert "N"[1..] == "";
  }

  /**
   * `associatedNamespace` of an unloaded reference as written:
   * `name.rstrip('RN')`, the longest prefix of the name that does not end in
   * an R or an N.
   */
  function UnloadedNamespace(name: string): (r: string)
    ensures |r| <= |name| && name[..|r|] == r
    ensures r == [] || (r[|r| - 1] != 'R' && r[|r| - 1] != 'N')
    ensures forall i :: |r| <= i < |name| ==> name[i] == 'R' || name[i] == 'N'
  {
    RStrip(name, {'R', 'N'})
  }

  /** The character-set strip also eats an R or N that belongs to the namespace: "BARRN" gives "BA". */
  lemma UnloadedNamespaceOverStrips()
    ensures UnloadedNamespace("BARRN") == "BA"
    ensures UnloadedNamespaceCorrected("BARRN") == "BAR"
  {
    assert "BARRN"[..4] == "BARR";
    assert "BARR"[..3] == "BAR";
    assert "BAR"[..2] == "BA";
  }

  /** The fallback as evidently intended: the reference node `<namespace>RN` gives back `<namespace>`. */
  function UnloadedNamespaceCorrected(name: string): (r: string)
    ensures |name| >= 2 && name[|name| - 2..] == "RN" ==> r + "RN" == name
    ensures !(|name| >= 2 && name[|name| - 2..] == "RN") ==> r == name
  {
    if |name| >= 2 && name[|name| - 2..] == "RN" then name[..|name| - 2] else name
  }

  /** Naming a reference node `<namespace>RN` and reading the namespace back, unloaded, is the identity. */
  lemma UnloadedNamespaceRoundTrip(namespace: string)
    ensures UnloadedNamespaceCorrected(namespace + "RN") == namespace
  {
    var name := namespace + "RN";
    assert name[|name| - 2..] == "RN";
    assert name[..|name| - 2] == namespace;
  }

  /** What `dagutils.getMObjectByMUuid` returns: one node, several, or something else. */
  datatype Found = OneNode(node: nat) | Nodes(nodes: seq<nat>) | NotFound

  /** The nodes of `nodes` that belong to the reference, in order. */
  function InReference(nodes: seq<nat>, members: set<nat>): (r: seq<nat>)
    ensures forall x :: x in r <==> x in nodes && x in members
    ensures |r| <= |nodes|
  {
    if nodes == [] then []
    else
      var rest := InReference(nodes[1..], members);
      assert forall x :: x in nodes <==> x == nodes[0] || x in nodes[1..];
      if nodes[0] in members then [nodes[0]] + rest else rest
  }

  /**
   * `getNodeByUuid`: a single node is returned as it is; of several, the
   * ones in this reference decide: none gives None, one gives that node,
   * more raise TypeError; anything else gives None.
   */
  function GetNodeByUuid(found: Found, members: set<nat>): (r: Result<Option<nat>>)
    ensures found.OneNode? ==> r == Ok(Some(found.node))
    ensures found.NotFound? ==> r == Ok(None)
    ensures found.Nodes? ==> (r.Err? <==> |InReference(found.nodes, members)| > 1)
    ensures r.Err? ==> r.error == TypeError
    ensures found.Nodes? && r.Ok? && r.value.Some? ==>
      r.value.value in found.nodes && r.value.value in members
      && forall x :: x in found.nodes && x in members ==> x == r.value.value
    ensures found.Nodes? && r == Ok(None) ==> forall x :: x in found.nodes ==> x !in members
  {
    match found
    case OneNode(node) => Ok(Some(node))
    case Nodes(nodes) =>
      var inside := InReference(nodes, members);
      if |inside| == 0 then
        assert forall x :: x in nodes && x in members ==> x in inside;
        Ok(None)
      else if |inside| == 1 then
        assert forall x :: x in inside ==> x == inside[0];
        Ok(Some(inside[0]))
      else Err(TypeError)
    case NotFound => Ok(None)
  }

  class ReferenceNode {
    var loaded: bool
    /** The reference edits, in the order `getEdits` lists them. */
    var edits: seq<string>
    var filePath: string
    /** The reference node's name. */
    var name: string
    var locked: bool
    /** `MFnReference.associatedNamespace` while loaded. */
    var namespace: string
    /** The namespaces that exist in the scene. */
    var namespaces: set<string>
    /** `isTopLevelReference`: the reference has no parent reference. */
    const topLevel: bool

    constructor (name: string, filePath: string, namespace: string, namespaces: set<string>, topLevel: bool)
      ensures this.name == name && this.filePath == filePath && this.namespace == namespace
      ensures this.namespaces == namespaces && this.topLevel == topLevel
      ensures !loaded && edits == [] && !locked
    {
      this.name := name;
      this.filePath := filePath;
      this.namespace := namespace;
      this.namespaces := namespaces;
      this.topLevel := topLevel;
      loaded := false;
      edits := [];
      locked := false;
    }

    /** `load`: loads an unloaded reference; nothing else changes, and a loaded one is left alone. */
    method Load()
      modifies this
      ensures loaded
      ensures edits == old(edits) && filePath == old(filePath) && name == old(name) && namespace == old(namespace)
      ensures locked == old(locked) && namespaces == old(namespaces)
    {
      if !loaded {
        loaded := true;
      }
    }

    /** `unload`: unloads a loaded reference; nothing else changes, and an unloaded one is left alone. */
    method Unload()
      modifies this
      ensures !loaded
      ensures edits == old(edits) && filePath == old(filePath) && name == old(name) && namespace == old(namespace)
      ensures locked == old(locked) && namespaces == old(namespaces)
    {
      if loaded {
        loaded := false;
      }
    }

    /** `reload`: unload when loaded, then load; it always ends loaded, with its edits kept. */
    method Reload()
      modifies this
      ensures loaded
      ensures edits == old(edits) && filePath == old(filePath) && name == old(name) && namespace == old(namespace)
      ensures locked == old(locked) && namespaces == old(namespaces)
    {
      if loaded {
        Unload();
      }
      Load();
    }

    /** `clearEdits`: the edits are removed with the reference unloaded, and the prior load state comes back. */
    method ClearEdits()
      modifies this
      ensures edits == [] && loaded == old(loaded)
      ensures filePath == old(filePath) && name == old(name) && namespace == old(namespace)
      ensures locked == old(locked) && namespaces == old(namespaces)
    {
      var wasLoaded := loaded;
      if wasLoaded {
        Unload();
      }
      edits := [];
      if wasLoaded {
        Load();
      }
    }

    /**
     * `setFilePath`: the new path is set and the load state kept; with
     * `clearEdits` the edits are removed first.
     */
    method SetFilePath(path: string, clearEdits: bool)
      modifies this
      ensures filePath == path && loaded == old(loaded)
      ensures clearEdits ==> edits == []
      ensures !clearEdits ==> edits == old(edits)
      ensures name == old(name) && namespace == old(namespace) && locked == old(locked) && namespaces == old(namespaces)
    {
      if loaded {
        if clearEdits {
          Unload();
          ClearEdits();
        }
        // `file(path, loadReference=...)`: the reference is (re)loaded from the new path.
        filePath := path;
        loaded := true;
      } else {
        if clearEdits {
          ClearEdits();
        }
        // `file(path, unloadReference=...)`: the path changes and the reference stays unloaded.
        filePath := path;
      }
    }

    /** `associatedNamespace`: the live namespace while loaded, otherwise the fallback from the node name. */
    function AssociatedNamespace(): (r: string)
      reads this
      ensures loaded ==> r == namespace
      ensures !loaded ==> r == UnloadedNamespace(name)
    {
      if loaded then namespace else UnloadedNamespace(name)
    }

    /**
     * `setAssociatedNamespace`: False, with nothing changed, when the
     * reference is unloaded or not top-level, when the new namespace ("RN"
     * removed) is empty or equals the current one, or when the current
     * namespace is missing or the new one is taken. Otherwise the namespace
     * is renamed and the node is renamed `<new>RN` and left locked.
     */
    method SetAssociatedNamespace(requested: string) returns (ok: bool)
      modifies this
      ensures loaded == old(loaded) && edits == old(edits) && filePath == old(filePath)
      ensures ok <==>
        && old(loaded) && topLevel
        && ReplaceRN(requested) != "" && ReplaceRN(requested) != old(namespace)
        && old(namespace) in old(namespaces) && ReplaceRN(requested) !in old(namespaces)
      ensures !ok ==> name == old(name) && namespace == old(namespace) && locked == old(locked) && namespaces == old(namespaces)
      ensures ok ==>
        && namespace == ReplaceRN(requested)
        && namespaces == old(namespaces) - {old(namespace)} + {ReplaceRN(requested)}
        && name == ReplaceRN(requested) + "RN"
        && locked
    {
      if !loaded || !topLevel {
        return false;
      }
      var newNamespace := ReplaceRN(requested);
      var oldNamespace := AssociatedNamespace();
      if oldNamespace == newNamespace || newNamespace == "" {
        return false;
      }
      if oldNamespace in namespaces && newNamespace !in namespaces {
        namespaces := namespaces - {oldNamespace} + {newNamespace};
        namespace := newNamespace;
        locked := false;
        name := newNamespace + "RN";
        locked := true;
        return true;
      }
      return false;
    }
  }
}
