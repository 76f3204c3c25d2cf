// `MPyNodeExtension` (mpynodeextension.py): the compound `metadata`
// attribute gathered from every class of an extension's MRO, and the
// extension class and module fields written onto the node.
module NodeExtension {

  /** A value of a class `__dict__`: an MPyAttribute with its constructor keywords, or anything else. */
  datatype Member = Attr(name: string, constructors: map<string, string>) | OtherMember

  /** A class as far as the definition needs it: name, module and `__dict__` items in order. */
  datatype PyClass = PyClass(name: string, modulePath: string, dict: seq<(string, Member)>)

  /** The attribute definition passed to `addAttribute`. */
  datatype Definition = Definition(longName: string, attributeType: string, children: seq<map<string, string>>)

  /** `iterBases`: the MRO (class first, `object` last) reversed. */
  function IterBases<T>(mro: seq<T>): (r: seq<T>)
    ensures |r| == |mro|
    ensures forall i :: 0 <= i < |mro| ==> r[i] == mro[|mro| - 1 - i]
  {
    if mro == [] then [] else IterBases(mro[1..]) + [mro[0]]
  }

  /** The root class comes first and the class itself last. */
  lemma IterBasesEnds<T>(mro: seq<T>)
    requires mro != []
    ensures IterBases(mro)[0] == mro[|mro| - 1]
    ensures IterBases(mro)[|mro| - 1] == mro[0]
  {
  }

  /** Whether a member becomes a child: an MPyAttribute with at least one constructor keyword. */
  predicate IsChild(m: Member)
  {
    m.Attr? && |m.constructors| > 0
  }

  /** A child's definition: long and short name from the attribute name, overridden by its constructors. */
  function ChildDefinition(m: Member): map<string, string>
    requires m.Attr?
  {
    map["longName" := m.name, "shortName" := m.name] + m.constructors
  }

  /**
   * Both names are the attribute's name unless a constructor keyword
   * overrides them; every constructor keyword is kept, and nothing else is added.
   */
  lemma ChildDefinitionSpec(m: Member)
    requires m.Attr?
    ensures var c := ChildDefinition(m);
      && "longName" in c && "shortName" in c
      && c["longName"] == (if "longName" in m.constructors then m.constructors["longName"] else m.name)
      && c["shortName"] == (if "shortName" in m.constructors then m.constructors["shortName"] else m.name)
      && (forall k :: k in m.constructors ==> k in c && c[k] == m.constructors[k])
      && (forall k :: k in c ==> k in m.constructors || k == "longName" || k == "shortName")
  {
  }

  /** The children one class contributes, in `__dict__` order. */
  function DictChildren(dict: seq<(string, Member)>): seq<map<string, string>>
  {
    if dict == [] then []
    else DictChildren(dict[..|dict| - 1]) + (if IsChild(dict[|dict| - 1].1) then [ChildDefinition(dict[|dict| - 1].1)] else [])
  }

  /** The children of several classes, class by class. */
  function ClassesChildren(classes: seq<PyClass>): seq<map<string, string>>
  {
    if classes == [] then []
    else ClassesChildren(classes[..|classes| - 1]) + DictChildren(classes[|classes| - 1].dict)
  }

  /** Every child comes from an MPyAttribute with constructors. */
  lemma {:induction false} DictChildrenSound(dict: seq<(string, Member)>, c: map<string, string>)
    requires c in DictChildren(dict)
    ensures exists i :: 0 <= i < |dict| && IsChild(dict[i].1) && c == ChildDefinition(dict[i].1)
  {
    var n := |dict| - 1;
    var front := dict[..n];
    var m := dict[n].1;
    if c in DictChildren(front) {
      DictChildrenSound(front, c);
      var i :| 0 <= i < n && IsChild(front[i].1) && c == ChildDefinition(front[i].1);
      assert dict[i] == front[i];
    } else {
      assert IsChild(m) && c == ChildDefinition(m);
    }
  }

  /** Every MPyAttribute with constructors gives a child. */
  lemma {:induction false} DictChildrenComplete(dict: seq<(string, Member)>, i: nat)
    requires i < |dict| && IsChild(dict[i].1)
    ensures ChildDefinition(dict[i].1) in DictChildren(dict)
  {
    var n := |dict| - 1;
    var front := dict[..n];
    var tail := if IsChild(dict[n].1) then [ChildDefinition(dict[n].1)] else [];
    assert DictChildren(dict) == DictChildren(front) + tail;
    if i < n {
      assert front[i] == dict[i];
      DictChildrenComplete(front, i);
    } else {
      assert tail == [ChildDefinition(dict[i].1)];
    }
  }

  /** Exactly the MPyAttributes with constructors become children, and nothing else does. */
  lemma DictChildrenSpec(dict: seq<(string, Member)>)
    ensures forall c :: c in DictChildren(dict) <==> exists i :: 0 <= i < |dict| && IsChild(dict[i].1) && c == ChildDefinition(dict[i].1)
  {
    forall c | c in DictChildren(dict)
      ensures exists i :: 0 <= i < |dict| && IsChild(dict[i].1) && c == ChildDefinition(dict[i].1)
    {
      DictChildrenSound(dict, c);
    }
    forall c | exists i :: 0 <= i < |dict| && IsChild(dict[i].1) && c == ChildDefinition(dict[i].1)
      ensures c in DictChildren(dict)
    {
      var i :| 0 <= i < |dict| && IsChild(dict[i].1) && c == ChildDefinition(dict[i].1);
      DictChildrenComplete(dict, i);
    }
  }

  /** The definition of an extension with the given MRO. */
  function UserAttributeDefinition(mro: seq<PyClass>): Definition
  {
    Definition("metadata", "compound", ClassesChildren(IterBases(mro)))
  }

  /** The children of the root-most classes come first: a base's children precede its subclass's. */
  lemma {:induction false} ClassesChildrenSplit(a: seq<PyClass>, b: seq<PyClass>)
    ensures ClassesChildren(a + b) == ClassesChildren(a) + ClassesChildren(b)
    decreases |b|
  {
    if b == [] {
      assert a + b == a;
    } else {
      var n := |b| - 1;
      var ab := a + b;
      assert ab[..|ab| - 1] == a + b[..n];
      assert ab[|ab| - 1] == b[n];
      assert ClassesChildren(ab) == ClassesChildren(a + b[..n]) + DictChildren(b[n].dict);
      ClassesChildrenSplit(a, b[..n]);
      assert ClassesChildren(b) == ClassesChildren(b[..n]) + DictChildren(b[n].dict);
    }
  }

  /** With the class itself last in `iterBases`, its own attributes close the children list. */
  lemma OwnChildrenLast(mro: seq<PyClass>)
    requires mro != []
    ensures var children := UserAttributeDefinition(mro).children;
      var own := DictChildren(mro[0].dict);
      |own| <= |children| && children[|children| - |own|..] == own
  {
    var bases := IterBases(mro);
    IterBasesEnds(mro);
    assert bases == bases[..|bases| - 1] + [mro[0]];
    ClassesChildrenSplit(bases[..|bases| - 1], [mro[0]]);
    assert ClassesChildren([mro[0]]) == DictChildren(mro[0].dict) by {
      assert [mro[0]][..0] == [];
    }
  }

  /**
   * `getUserAttributeDefinition`: the nested loops over the classes of
   * `iterBases` and their `__dict__` items, appending a child for every
   * attribute with constructors.
   */
  method GetUserAttributeDefinition(mro: seq<PyClass>) returns (d: Definition)
    ensures d == UserAttributeDefinition(mro)
  {
    var bases := IterBases(mro);
    var children := [];
    var b := 0;
    while b < |bases|
      invariant b <= |bases|
      invariant children == ClassesChildren(bases[..b])
    {
      var dict := bases[b].dict;
      var k := 0;
      assert bases[..b + 1][..b] == bases[..b];
      while k < |dict|
        invariant k <= |dict|
        invariant children == ClassesChildren(bases[..b]) + DictChildren(dict[..k])
      {
        var value := dict[k].1;
        assert dict[..k + 1][..k] == dict[..k];
        if IsChild(value) {
          children := children + [ChildDefinition(value)];
        }
        k := k + 1;
      }
      assert dict[..k] == dict;
      b := b + 1;
    }
    assert bases[..b] == bases;
    d := Definition("metadata", "compound", children);
  }

  /** The extension attributes of a node. */
  class ExtensionNode {
    var extensionName: string
    var extensionPath: string
    /** The definitions handed to `addAttribute`, in order. */
    var added: seq<Definition>

    constructor ()
      ensures extensionName == "" && extensionPath == "" && added == []
    {
      extensionName := "";
      extensionPath := "";
      added := [];
    }

    /**
     * `ensureUserAttributes`: the definition is merged into the node, then
     * the class and module fields name the last direct base of the node's class and its module.
     */
    method EnsureUserAttributes(mro: seq<PyClass>, directBases: seq<PyClass>)
      requires directBases != []
      modifies this
      ensures added == old(added) + [UserAttributeDefinition(mro)]
      ensures extensionName == directBases[|directBases| - 1].name
      ensures extensionPath == directBases[|directBases| - 1].modulePath
    {
      var definition := GetUserAttributeDefinition(mro);
      added := added + [definition];
      extensionName := directBases[|directBases| - 1].name;
      extensionPath := directBases[|directBases| - 1].modulePath;
    }
  }
}
