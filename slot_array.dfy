// The sparse array plugs behind hyper layouts, containers and display
// layers: elements listed by logical index in physical order, and for each
// element the node whose `message` plug is connected into it.
module SlotArray {
  import opened Wrappers

  /** Logical indices listed in physical order: strictly ascending. */
  predicate Increasing(s: seq<nat>)
  {
    forall i, j :: 0 <= i < j < |s| ==> s[i] < s[j]
  }

  /** The tail of an increasing list is increasing and lies above its head. */
  lemma IncreasingTail(s: seq<nat>)
    requires Increasing(s) && s != []
    ensures Increasing(s[1..]) && forall x :: x in s[1..] ==> s[0] < x
  {
    forall x | x in s[1..] ensures s[0] < x {
      var j :| 0 <= j < |s| - 1 && s[1..][j] == x;
      assert s[j + 1] == x;
    }
  }

  /** The element list after element `k` is created by a connection: `k` joins in order, once. */
  function InsertSorted(s: seq<nat>, k: nat): (r: seq<nat>)
    requires Increasing(s)
    ensures Increasing(r)
    ensures forall x :: x in r <==> x in s || x == k
    ensures k in s ==> r == s
  {
    if s == [] then [k]
    else if k < s[0] then [k] + s
    else if k == s[0] then s
    else
      IncreasingTail(s);
      var rest := InsertSorted(s[1..], k);
      [s[0]] + rest
  }

  /** Every connection goes into an existing element, and no node is connected twice. */
  ghost predicate WellFormed(indices: seq<nat>, sources: map<nat, nat>)
  {
    && Increasing(indices)
    && (forall k :: k in sources ==> k in indices)
    && (forall k, l :: k in sources && l in sources && sources[k] == sources[l] ==> k == l)
  }

  /**
   * `getMemberIndex` / `getPublishedNodeIndex`: the logical index of the
   * element connected from the node, the first in physical order; None for
   * a node that is not connected.
   */
  function MemberIndex(indices: seq<nat>, sources: map<nat, nat>, node: nat): (r: Option<nat>)
    ensures r.Some? ==> r.value in indices && r.value in sources && sources[r.value] == node
    ensures r.None? ==> forall k :: k in indices && k in sources ==> sources[k] != node
  {
    if indices == [] then None
    else if indices[0] in sources && sources[indices[0]] == node then Some(indices[0])
    else MemberIndex(indices[1..], sources, node)
  }

  /** `iterMembers`: the node at each element that has one, in physical order. */
  function MembersOf(indices: seq<nat>, sources: map<nat, nat>): seq<nat>
  {
    if indices == [] then []
    else (if indices[0] in sources then [sources[indices[0]]] else []) + MembersOf(indices[1..], sources)
  }

  /** A node is listed by `iterMembers` exactly when `hasMember` holds for it. */
  lemma {:induction false} MembersAgree(indices: seq<nat>, sources: map<nat, nat>, node: nat)
    ensures node in MembersOf(indices, sources) <==> MemberIndex(indices, sources, node).Some?
  {
    if indices != [] {
      MembersAgree(indices[1..], sources, node);
    }
  }

  /** The connected elements. */
  function Connected(indices: seq<nat>, sources: map<nat, nat>): set<nat>
  {
    set k | k in indices && k in sources
  }

  /** Each element with a connection gives exactly one member, so there are as many members as connections. */
  lemma {:induction false} MembersCount(indices: seq<nat>, sources: map<nat, nat>)
    requires forall i, j :: 0 <= i < j < |indices| ==> indices[i] != indices[j]
    ensures |MembersOf(indices, sources)| == |Connected(indices, sources)|
  {
    if indices != [] {
      var rest := indices[1..];
      MembersCount(rest, sources);
      assert indices[0] !in rest by {
        forall i | 0 <= i < |rest| ensures rest[i] != indices[0] {
          assert rest[i] == indices[i + 1];
        }
      }
      if indices[0] in sources {
        assert Connected(indices, sources) == Connected(rest, sources) + {indices[0]};
        assert MembersOf(indices, sources) == [sources[indices[0]]] + MembersOf(rest, sources);
      } else {
        assert Connected(indices, sources) == Connected(rest, sources);
        assert MembersOf(indices, sources) == [] + MembersOf(rest, sources);
      }
    }
  }

  /** A connection of a non-member, into a free element or over another node, keeps the array well formed. */
  lemma ConnectKeepsWellFormed(indices: seq<nat>, sources: map<nat, nat>, index: nat, node: nat)
    requires WellFormed(indices, sources)
    requires MemberIndex(indices, sources, node).None?
    ensures WellFormed(InsertSorted(indices, index), sources[index := node])
  {
    forall k | k in sources ensures sources[k] != node {
      assert k in indices;
    }
  }

  /** A node connected at an element of the list is a member. */
  lemma {:induction false} MemberIndexFinds(indices: seq<nat>, sources: map<nat, nat>, k: nat, node: nat)
    requires k in indices && k in sources && sources[k] == node
    ensures MemberIndex(indices, sources, node).Some?
  {
    if indices[0] != k {
      MemberIndexFinds(indices[1..], sources, k, node);
    }
  }

  /** A node no connection comes from is not a member. */
  lemma NotConnected(indices: seq<nat>, sources: map<nat, nat>, node: nat)
    requires forall k :: k in sources ==> sources[k] != node
    ensures MemberIndex(indices, sources, node).None?
  {
  }

  /** In a well-formed array a connected node is found at its one element. */
  lemma MemberIndexUnique(indices: seq<nat>, sources: map<nat, nat>, k: nat, node: nat)
    requires WellFormed(indices, sources)
    requires k in sources && sources[k] == node
    ensures MemberIndex(indices, sources, node) == Some(k)
  {
    MemberIndexFinds(indices, sources, k, node);
  }

  /** In a well-formed array every connection is counted once. */
  lemma ConnectedCount(indices: seq<nat>, sources: map<nat, nat>)
    requires WellFormed(indices, sources)
    ensures |MembersOf(indices, sources)| == |sources|
  {
    MembersCount(indices, sources);
    assert Connected(indices, sources) == sources.Keys;
  }
}
