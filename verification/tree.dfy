/** The ORG/LOT/ENT organisation tree. Nodes live in a dict keyed by node id
    (`OrganizationTree.nodes`); a node's parent and children are held as
    node ids, which is how they are looked up anyway. */
module Tree {
  import opened Wrappers
  import opened Sequences

  /** One ORG_TREE row, after the `str(...)` / `pd.notna` conversions of
      `_build_tree`: a missing parent or activity is `None`. */
  datatype NodeRow = NodeRow(nodeId: string, parentId: Option<string>, nodeType: string, nodeName: string, activity: Option<string>)

  /** `TreeNode`. */
  datatype TreeNode = TreeNode(
    nodeId: string, parentId: Option<string>, nodeType: string, nodeName: string, activity: Option<string>,
    children: seq<string>, parent: Option<string>)

  /** The node of a row, not linked yet. */
  function Fresh(row: NodeRow): (n: TreeNode)
    ensures n.children == [] && n.parent == None && n.nodeId == row.nodeId && n.parentId == row.parentId
  {
    TreeNode(row.nodeId, row.parentId, row.nodeType, row.nodeName, row.activity, [], None)
  }

  /** A node without a parent id, or whose parent id is "" or "nan", is the root. */
  predicate IsRootEntry(parentId: Option<string>) {
    parentId.None? || parentId.value == "" || parentId.value == "nan"
  }

  /** `self.nodes` as a dict: its keys in insertion order, and its entries. */
  ghost predicate DictOf(order: seq<string>, nodes: map<string, TreeNode>) {
    && (forall i, j :: 0 <= i < j < |order| ==> order[i] != order[j])
    && (forall id :: id in nodes <==> id in order)
  }

  /** The first loop of `_build_tree`: one node per row, stored under its id;
      a repeated id keeps its first place and takes the last row's node. */
  function Registered(rows: seq<NodeRow>): (r: (seq<string>, map<string, TreeNode>))
    ensures DictOf(r.0, r.1)
    ensures forall id :: id in r.1 ==> r.1[id].children == [] && r.1[id].parent == None && r.1[id].nodeId == id
    decreases |rows|
  {
    if rows == [] then ([], map[])
    else
      var prev := Registered(rows[..|rows| - 1]);
      var row := rows[|rows| - 1];
      (if row.nodeId in prev.1 then prev.0 else prev.0 + [row.nodeId], prev.1[row.nodeId := Fresh(row)])
  }

  /** Every row's id is a key, holding the node of the last row with that id. */
  lemma {:induction false} RegisteredRows(rows: seq<NodeRow>, k: nat)
    requires k < |rows|
    ensures rows[k].nodeId in Registered(rows).1
    ensures (forall j :: k < j < |rows| ==> rows[j].nodeId != rows[k].nodeId) ==>
      Registered(rows).1[rows[k].nodeId] == Fresh(rows[k])
    decreases |rows|
  {
    if k < |rows| - 1 {
      RegisteredRows(rows[..|rows| - 1], k);
    }
  }

  /** Why `_build_tree` raises. */
  datatype BuildError =
    | MultipleRoots(first: string, second: string)
    | MissingParent(parentId: string, nodeId: string)
    | NoRoot
    | RootNotOrg(nodeType: string)

  /** What `_build_tree` works on: the node dict and the root found so far. */
  datatype Forest = Forest(order: seq<string>, nodes: map<string, TreeNode>, root: Option<string>)

  ghost predicate Keyed(f: Forest) {
    forall id :: id in f.order ==> id in f.nodes
  }

  /** One turn of the linking loop, for node `id`: a root entry becomes the
      root (a second one raises); any other node is appended to its parent's
      children and points back to it (a missing parent raises). */
  function LinkStep(f: Forest, id: string): (r: Result<Forest, BuildError>)
    requires id in f.nodes
    ensures r.Success? ==> r.value.order == f.order && r.value.nodes.Keys == f.nodes.Keys
    ensures r.Success? ==> (r.value.root.Some? ==> r.value.root.value in f.nodes || r.value.root == f.root)
  {
    var node := f.nodes[id];
    if IsRootEntry(node.parentId) then
      if f.root.Some? then Failure(MultipleRoots(f.root.value, id)) else Success(f.(root := Some(id)))
    else
      var p := node.parentId.value;
      if p !in f.nodes then Failure(MissingParent(p, id))
      else
        var linked := f.nodes[p := f.nodes[p].(children := f.nodes[p].children + [id])];
        Success(f.(nodes := linked[id := linked[id].(parent := Some(p))]))
  }

  /** The linking loop run over the first `i` keys of the dict. */
  function Linked(f0: Forest, i: nat): (r: Result<Forest, BuildError>)
    requires i <= |f0.order| && Keyed(f0)
    ensures r.Success? ==> r.value.order == f0.order && r.value.nodes.Keys == f0.nodes.Keys
    ensures r.Success? && r.value.root.Some? ==> r.value.root.value in f0.nodes || r.value.root == f0.root
  {
    if i == 0 then Success(f0)
    else match Linked(f0, i - 1)
      case Failure(err) => Failure(err)
      case Success(f) => LinkStep(f, f0.order[i - 1])
  }

  /** The dict after the first loop of `_build_tree`, with no root yet. */
  function Registry(rows: seq<NodeRow>): (f0: Forest)
    ensures Keyed(f0) && f0.root.None?
  {
    var reg := Registered(rows);
    Forest(reg.0, reg.1, None)
  }

  /** The outcome of `_build_tree` on the rows of ORG_TREE. */
  function Built(rows: seq<NodeRow>): Result<Forest, BuildError> {
    var f0 := Registry(rows);
    match Linked(f0, |f0.order|)
    case Failure(err) => Failure(err)
    case Success(f) =>
      if f.root.None? then Failure(NoRoot)
      else if f.nodes[f.root.value].nodeType != "ORG" then Failure(RootNotOrg(f.nodes[f.root.value].nodeType))
      else Success(f)
  }

  /** Linking changes only the `children` and `parent` links. */
  predicate SameEntry(a: TreeNode, b: TreeNode) {
    a.nodeId == b.nodeId && a.parentId == b.parentId && a.nodeType == b.nodeType
    && a.nodeName == b.nodeName && a.activity == b.activity
  }

  lemma {:induction false} LinkedKeepsEntry(f0: Forest, i: nat, id: string)
    requires i <= |f0.order| && Keyed(f0) && Linked(f0, i).Success? && id in f0.nodes
    ensures SameEntry(Linked(f0, i).value.nodes[id], f0.nodes[id])
  {
    if i > 0 {
      LinkedKeepsEntry(f0, i - 1, id);
    }
  }

  /** When a turn of the linking loop succeeds, and which root it leaves. */
  lemma LinkStepOutcome(f: Forest, id: string)
    requires id in f.nodes
    ensures var pid := f.nodes[id].parentId;
      && (LinkStep(f, id).Success? <==> if IsRootEntry(pid) then f.root.None? else pid.value in f.nodes)
      && (LinkStep(f, id).Success? ==> LinkStep(f, id).value.root == if IsRootEntry(pid) then Some(id) else f.root)
  {
  }

  /** Key `j` is a root entry. */
  predicate RootAt(f0: Forest, j: nat)
    requires j < |f0.order| && Keyed(f0)
  {
    IsRootEntry(f0.nodes[f0.order[j]].parentId)
  }

  /** Key `j` is a root entry or its parent id is a key. */
  predicate ParentFound(f0: Forest, j: nat)
    requires j < |f0.order| && Keyed(f0)
  {
    RootAt(f0, j) || f0.nodes[f0.order[j]].parentId.value in f0.nodes
  }

  /** Each of the first `i` keys is a root entry or has its parent among the keys. */
  ghost predicate ParentsFound(f0: Forest, i: nat)
    requires i <= |f0.order| && Keyed(f0)
  {
    forall j :: 0 <= j < i ==> ParentFound(f0, j)
  }

  /** At most one of the first `i` keys is a root entry. */
  ghost predicate AtMostOneRoot(f0: Forest, i: nat)
    requires i <= |f0.order| && Keyed(f0)
  {
    forall j, k :: 0 <= j < k < i ==> !(RootAt(f0, j) && RootAt(f0, k))
  }

  /** Linking the first `i` keys succeeds exactly when each of them is a
      root entry or has its parent among the keys, and at most one of them is
      a root entry. */
  lemma {:induction false} LinkedSucceeds(f0: Forest, i: nat)
    requires i <= |f0.order| && Keyed(f0) && f0.root.None?
    ensures Linked(f0, i).Success? <==> ParentsFound(f0, i) && AtMostOneRoot(f0, i)
  {
    if i > 0 {
      LinkedSucceeds(f0, i - 1);
      if Linked(f0, i - 1).Success? {
        LinkedSucceedsStep(f0, i);
      } else {
        assert !Linked(f0, i).Success?;
        if ParentsFound(f0, i - 1) {
          var j, k :| 0 <= j < k < i - 1 && RootAt(f0, j) && RootAt(f0, k);
          assert 0 <= j < k < i;
          assert !AtMostOneRoot(f0, i);
        } else {
          var j :| 0 <= j < i - 1 && !ParentFound(f0, j);
          assert 0 <= j < i;
          assert !ParentsFound(f0, i);
        }
      }
    }
  }

  /** The last turn of the linking loop, in terms of the keys. */
  lemma LinkedLast(f0: Forest, i: nat)
    requires 0 < i <= |f0.order| && Keyed(f0) && Linked(f0, i - 1).Success?
    ensures Linked(f0, i).Success? <==>
      if RootAt(f0, i - 1) then Linked(f0, i - 1).value.root.None? else ParentFound(f0, i - 1)
    ensures Linked(f0, i).Success? ==>
      Linked(f0, i).value.root == if RootAt(f0, i - 1) then Some(f0.order[i - 1]) else Linked(f0, i - 1).value.root
  {
    var f := Linked(f0, i - 1).value;
    var id := f0.order[i - 1];
    LinkedKeepsEntry(f0, i - 1, id);
    LinkStepOutcome(f, id);
    assert Linked(f0, i) == LinkStep(f, id);
  }

  /** The last turn of `LinkedSucceeds`, when the earlier ones succeeded. */
  lemma LinkedSucceedsStep(f0: Forest, i: nat)
    requires 0 < i <= |f0.order| && Keyed(f0) && f0.root.None?
    requires Linked(f0, i - 1).Success? && ParentsFound(f0, i - 1) && AtMostOneRoot(f0, i - 1)
    ensures Linked(f0, i).Success? <==> ParentsFound(f0, i) && AtMostOneRoot(f0, i)
  {
    LinkedLast(f0, i);
    if RootAt(f0, i - 1) && Linked(f0, i - 1).value.root.Some? {
      assert !AtMostOneRoot(f0, i) by {
        LinkedRoot(f0, i - 1);
        var j :| 0 <= j < i - 1 && RootAt(f0, j);
        assert 0 <= j < i - 1 < i && RootAt(f0, j) && RootAt(f0, i - 1);
      }
    } else if !ParentFound(f0, i - 1) {
      assert !ParentsFound(f0, i);
    } else {
      assert ParentsFound(f0, i) by {
        forall j | 0 <= j < i ensures ParentFound(f0, j) {
          if j < i - 1 {
            assert ParentsFound(f0, i - 1);
          }
        }
      }
      OneRootKept(f0, i);
    }
  }

  /** A root entry at key `i - 1` with no root linked before it is the only one. */
  lemma OneRootKept(f0: Forest, i: nat)
    requires 0 < i <= |f0.order| && Keyed(f0) && f0.root.None?
    requires Linked(f0, i - 1).Success? && AtMostOneRoot(f0, i - 1)
    requires RootAt(f0, i - 1) ==> Linked(f0, i - 1).value.root.None?
    ensures AtMostOneRoot(f0, i)
  {
    LinkedRoot(f0, i - 1);
    forall j, k | 0 <= j < k < i ensures !(RootAt(f0, j) && RootAt(f0, k)) {
      if k == i - 1 && RootAt(f0, k) {
        assert !RootAt(f0, j);
      }
    }
  }

  /** After linking, the root is the root entry among the linked keys, if any. */
  lemma {:induction false} LinkedRoot(f0: Forest, i: nat)
    requires i <= |f0.order| && Keyed(f0) && f0.root.None?
    ensures Linked(f0, i).Success? ==>
      (Linked(f0, i).value.root.Some? <==> exists j :: 0 <= j < i && RootAt(f0, j))
      && forall j :: 0 <= j < i && RootAt(f0, j) ==> Linked(f0, i).value.root == Some(f0.order[j])
  {
    if i > 0 && Linked(f0, i).Success? {
      var f := Linked(f0, i - 1).value;
      var id := f0.order[i - 1];
      LinkedRoot(f0, i - 1);
      LinkedLast(f0, i);
      var g := Linked(f0, i).value;
      if RootAt(f0, i - 1) {
        assert f.root.None? && g.root == Some(id);
      } else {
        assert g.root == f.root;
        if g.root.Some? {
          var j :| 0 <= j < i - 1 && RootAt(f0, j);
          assert 0 <= j < i && RootAt(f0, j);
        }
      }
      forall j | 0 <= j < i && RootAt(f0, j) ensures g.root == Some(f0.order[j]) {
        if j < i - 1 {
          assert f.root == Some(f0.order[j]);
        }
      }
    }
  }

  /** No key is listed twice. */
  ghost predicate DistinctOrder(f0: Forest) {
    forall a, b :: 0 <= a < b < |f0.order| ==> f0.order[a] != f0.order[b]
  }

  /** Node `id` hangs under `p`: its parent id is `p`, and `p` is not one of
      the values that make a root entry. */
  function ChildOf(f0: Forest, p: string): string -> bool {
    id => id in f0.nodes && f0.nodes[id].parentId == Some(p) && !IsRootEntry(Some(p))
  }

  /** A turn of the linking loop appends `id` to its parent's children and
      to no other list. */
  lemma LinkStepChildren(f: Forest, id: string, p: string)
    requires id in f.nodes && p in f.nodes && LinkStep(f, id).Success?
    ensures LinkStep(f, id).value.nodes[p].children
         == f.nodes[p].children + (if f.nodes[id].parentId == Some(p) && !IsRootEntry(Some(p)) then [id] else [])
  {
  }

  /** A turn of the linking loop sets the parent of `id` and of no other node. */
  lemma LinkStepParent(f: Forest, id: string, x: string)
    requires id in f.nodes && x in f.nodes && LinkStep(f, id).Success?
    ensures LinkStep(f, id).value.nodes[x].parent
         == if x == id && !IsRootEntry(f.nodes[id].parentId) then f.nodes[id].parentId else f.nodes[x].parent
  {
  }

  /** After linking the first `i` keys, the children of `p` are those keys
      that hang under `p`, in dict order. */
  lemma {:induction false} LinkedChildren(f0: Forest, i: nat, p: string)
    requires i <= |f0.order| && Keyed(f0) && Linked(f0, i).Success? && p in f0.nodes
    ensures Linked(f0, i).value.nodes[p].children == f0.nodes[p].children + Filter(f0.order[..i], ChildOf(f0, p))
  {
    if i == 0 {
      assert f0.order[..0] == [];
    } else {
      LinkedChildren(f0, i - 1, p);
      LinkedLastChildren(f0, i, p);
      FilterSnoc(f0.order, i, ChildOf(f0, p));
    }
  }

  /** The last turn of the linking loop appends key `i - 1` to the children
      of `p` exactly when it hangs under `p`. */
  lemma LinkedLastChildren(f0: Forest, i: nat, p: string)
    requires 0 < i <= |f0.order| && Keyed(f0) && Linked(f0, i).Success? && p in f0.nodes
    ensures Linked(f0, i - 1).Success?
    ensures var id := f0.order[i - 1];
      Linked(f0, i).value.nodes[p].children
        == Linked(f0, i - 1).value.nodes[p].children + if ChildOf(f0, p)(id) then [id] else []
  {
    var id := f0.order[i - 1];
    LinkedKeepsEntry(f0, i - 1, id);
    LinkStepChildren(Linked(f0, i - 1).value, id, p);
  }

  /** After linking the first `i` keys, each of them that is not a root entry
      points to its parent; the other nodes keep their parent link. */
  lemma {:induction false} LinkedParent(f0: Forest, i: nat, k: nat)
    requires i <= |f0.order| && k < |f0.order| && Keyed(f0) && DistinctOrder(f0) && Linked(f0, i).Success?
    ensures Linked(f0, i).value.nodes[f0.order[k]].parent
         == if k < i && !RootAt(f0, k) then f0.nodes[f0.order[k]].parentId else f0.nodes[f0.order[k]].parent
  {
    if i > 0 {
      LinkedParent(f0, i - 1, k);
      LinkedLastParent(f0, i, f0.order[k]);
      assert (f0.order[k] == f0.order[i - 1]) == (k == i - 1);
    }
  }

  /** The last turn of the linking loop sets the parent of key `i - 1`, when
      it is not a root entry, and of no other node. */
  lemma LinkedLastParent(f0: Forest, i: nat, x: string)
    requires 0 < i <= |f0.order| && Keyed(f0) && Linked(f0, i).Success? && x in f0.nodes
    ensures Linked(f0, i - 1).Success?
    ensures var id := f0.order[i - 1];
      Linked(f0, i).value.nodes[x].parent
        == if x == id && !RootAt(f0, i - 1) then f0.nodes[id].parentId else Linked(f0, i - 1).value.nodes[x].parent
  {
    var id := f0.order[i - 1];
    LinkedKeepsEntry(f0, i - 1, id);
    LinkStepParent(Linked(f0, i - 1).value, id, x);
  }

  /** One more turn of the linking loop. */
  lemma LinkedNext(f0: Forest, i: nat, f: Forest)
    requires i < |f0.order| && Keyed(f0) && Linked(f0, i) == Success(f)
    ensures f0.order[i] in f.nodes && Linked(f0, i + 1) == LinkStep(f, f0.order[i])
  {
  }

  /** Once a turn fails, linking stops with that error. */
  lemma {:induction false} LinkedFailureSticks(f0: Forest, i: nat, n: nat, e: BuildError)
    requires i <= n <= |f0.order| && Keyed(f0) && Linked(f0, i) == Failure(e)
    ensures Linked(f0, n) == Failure(e)
    decreases n
  {
    if i < n {
      LinkedFailureSticks(f0, i, n - 1, e);
    }
  }

  /** What a failed link reports: two distinct root entries, or a key whose
      parent id is not a key. */
  lemma {:induction false} LinkedError(f0: Forest, i: nat)
    requires i <= |f0.order| && Keyed(f0) && DistinctOrder(f0) && f0.root.None? && Linked(f0, i).Failure?
    ensures Linked(f0, i).error.MultipleRoots? ==>
      exists j, k :: 0 <= j < k < i && RootAt(f0, j) && RootAt(f0, k)
        && Linked(f0, i).error == MultipleRoots(f0.order[j], f0.order[k])
    ensures Linked(f0, i).error.MissingParent? ==>
      exists k :: 0 <= k < i && !RootAt(f0, k) && f0.nodes[f0.order[k]].parentId.value !in f0.nodes
        && Linked(f0, i).error == MissingParent(f0.nodes[f0.order[k]].parentId.value, f0.order[k])
    ensures !Linked(f0, i).error.NoRoot? && !Linked(f0, i).error.RootNotOrg?
  {
    if i > 0 {
      if Linked(f0, i - 1).Failure? {
        LinkedError(f0, i - 1);
        var e := Linked(f0, i).error;
        if e.MultipleRoots? {
          var j, k :| 0 <= j < k < i - 1 && RootAt(f0, j) && RootAt(f0, k) && e == MultipleRoots(f0.order[j], f0.order[k]);
          assert 0 <= j < k < i;
        } else if e.MissingParent? {
          var k :| 0 <= k < i - 1 && !RootAt(f0, k) && f0.nodes[f0.order[k]].parentId.value !in f0.nodes
            && e == MissingParent(f0.nodes[f0.order[k]].parentId.value, f0.order[k]);
          assert 0 <= k < i;
        }
      } else {
        LinkedErrorLast(f0, i);
      }
    }
  }

  /** `LinkedError` when the last turn is the one that fails. */
  lemma LinkedErrorLast(f0: Forest, i: nat)
    requires 0 < i <= |f0.order| && Keyed(f0) && f0.root.None?
    requires Linked(f0, i - 1).Success? && Linked(f0, i).Failure?
    ensures Linked(f0, i).error.MultipleRoots? ==>
      exists j :: 0 <= j < i - 1 && RootAt(f0, j) && RootAt(f0, i - 1)
        && Linked(f0, i).error == MultipleRoots(f0.order[j], f0.order[i - 1])
    ensures Linked(f0, i).error.MissingParent? ==>
      !RootAt(f0, i - 1) && f0.nodes[f0.order[i - 1]].parentId.value !in f0.nodes
        && Linked(f0, i).error == MissingParent(f0.nodes[f0.order[i - 1]].parentId.value, f0.order[i - 1])
    ensures !Linked(f0, i).error.NoRoot? && !Linked(f0, i).error.RootNotOrg?
  {
    var f := Linked(f0, i - 1).value;
    var id := f0.order[i - 1];
    LinkedRoot(f0, i - 1);
    LinkedKeepsEntry(f0, i - 1, id);
    assert Linked(f0, i) == LinkStep(f, id);
    if RootAt(f0, i - 1) {
      var j :| 0 <= j < i - 1 && RootAt(f0, j);
      assert f.root == Some(f0.order[j]);
    }
  }

  /** `_build_tree` succeeds exactly when every node is a root entry or has
      its parent among the nodes, exactly one node is a root entry, and that
      node is of type ORG; the root is then that node. */
  lemma BuiltOutcome(rows: seq<NodeRow>)
    ensures var f0 := Registry(rows);
      Built(rows).Success? <==>
        && ParentsFound(f0, |f0.order|) && AtMostOneRoot(f0, |f0.order|)
        && exists j :: 0 <= j < |f0.order| && RootAt(f0, j) && f0.nodes[f0.order[j]].nodeType == "ORG"
    ensures var f0 := Registry(rows);
      Built(rows).Success? ==>
        forall j :: 0 <= j < |f0.order| && RootAt(f0, j) ==> Built(rows).value.root == Some(f0.order[j])
  {
    var f0 := Registry(rows);
    var n := |f0.order|;
    LinkedSucceeds(f0, n);
    LinkedRoot(f0, n);
    if Linked(f0, n).Success? {
      var f := Linked(f0, n).value;
      if f.root.Some? {
        var j :| 0 <= j < n && RootAt(f0, j);
        LinkedKeepsEntry(f0, n, f0.order[j]);
        assert f.root == Some(f0.order[j]);
        assert f.nodes[f0.order[j]].nodeType == f0.nodes[f0.order[j]].nodeType;
      }
    }
  }

  /** Each error of `_build_tree` names what is wrong in its input. */
  lemma BuiltErrors(rows: seq<NodeRow>)
    ensures var f0 := Registry(rows); var n := |f0.order|;
      Built(rows).Failure? ==> match Built(rows).error
        case MultipleRoots(a, b) =>
          exists j, k :: 0 <= j < k < n && RootAt(f0, j) && RootAt(f0, k) && a == f0.order[j] && b == f0.order[k]
        case MissingParent(pid, id) =>
          id in f0.nodes && !IsRootEntry(f0.nodes[id].parentId) && f0.nodes[id].parentId == Some(pid) && pid !in f0.nodes
        case NoRoot =>
          forall j :: 0 <= j < n ==> !RootAt(f0, j)
        case RootNotOrg(t) =>
          t != "ORG" && exists j :: 0 <= j < n && RootAt(f0, j) && f0.nodes[f0.order[j]].nodeType == t
  {
    var f0 := Registry(rows);
    var n := |f0.order|;
    if Linked(f0, n).Failure? {
      LinkedError(f0, n);
      var e := Linked(f0, n).error;
      if e.MissingParent? {
        var k :| 0 <= k < n && !RootAt(f0, k) && f0.nodes[f0.order[k]].parentId.value !in f0.nodes
          && e == MissingParent(f0.nodes[f0.order[k]].parentId.value, f0.order[k]);
      }
    } else {
      BuiltRootErrors(rows);
    }
  }

  /** `BuiltErrors` for the checks made after linking. */
  lemma BuiltRootErrors(rows: seq<NodeRow>)
    requires Linked(Registry(rows), |Registry(rows).order|).Success?
    ensures var f0 := Registry(rows); var n := |f0.order|;
      && (Built(rows) == Failure(NoRoot) ==> forall j :: 0 <= j < n ==> !RootAt(f0, j))
      && (Built(rows).Failure? && Built(rows).error.RootNotOrg? ==>
          Built(rows).error.nodeType != "ORG"
          && exists j :: 0 <= j < n && RootAt(f0, j) && f0.nodes[f0.order[j]].nodeType == Built(rows).error.nodeType)
  {
    var f0 := Registry(rows);
    var n := |f0.order|;
    LinkedRoot(f0, n);
    var f := Linked(f0, n).value;
    if f.root.Some? {
      var j :| 0 <= j < n && RootAt(f0, j);
      LinkedKeepsEntry(f0, n, f0.order[j]);
      assert f.root == Some(f0.order[j]);
    }
  }

  /** After `_build_tree`, the children of each node are the nodes hanging
      under it in input order, and each node that is not a root entry points
      to its parent. */
  lemma BuiltLinks(rows: seq<NodeRow>, f: Forest, id: string)
    requires Built(rows) == Success(f) && id in Registry(rows).nodes
    ensures var f0 := Registry(rows);
      && id in f.nodes
      && f.nodes[id].children == Filter(f0.order, ChildOf(f0, id))
      && f.nodes[id].parent == if IsRootEntry(f0.nodes[id].parentId) then None else f0.nodes[id].parentId
  {
    var f0 := Registry(rows);
    var n := |f0.order|;
    assert f0.order[..n] == f0.order;
    LinkedChildren(f0, n, id);
    var k :| 0 <= k < n && f0.order[k] == id;
    LinkedParent(f0, n, k);
  }

  /** Every child points back to the node listing it. */
  ghost predicate ChildrenPointBack(nodes: map<string, TreeNode>) {
    forall p, i :: p in nodes && 0 <= i < |nodes[p].children| ==>
      nodes[p].children[i] in nodes && nodes[nodes[p].children[i]].parent == Some(p)
  }

  /** Every parent link leads to a stored node that lists the child. */
  ghost predicate ParentsListChild(nodes: map<string, TreeNode>) {
    forall c {:trigger nodes[c].parent} :: c in nodes && nodes[c].parent.Some? ==>
      nodes[c].parent.value in nodes && c in nodes[nodes[c].parent.value].children
  }

  /** The shape `_build_tree` leaves: every key listed once and stored under
      its own id, children and parent links agreeing, and a root of type ORG
      without a parent. */
  ghost predicate WellFormed(f: Forest) {
    Shaped(f) && ChildrenPointBack(f.nodes) && ParentsListChild(f.nodes) && ChildrenInOrder(f)
  }

  /** Node `c` is stored and its parent is `p`. */
  function HangsUnder(nodes: map<string, TreeNode>, p: string): string -> bool {
    c => c in nodes && nodes[c].parent == Some(p)
  }

  /** The children of every node are the keys whose parent it is, in dict order. */
  ghost predicate ChildrenInOrder(f: Forest) {
    forall p {:trigger HangsUnder(f.nodes, p)} :: p in f.nodes ==> f.nodes[p].children == Filter(f.order, HangsUnder(f.nodes, p))
  }

  /** Every key listed once and stored under its own id, and a root of type
      ORG without a parent. */
  ghost predicate Shaped(f: Forest) {
    && DistinctOrder(f)
    && (forall id :: id in f.nodes <==> id in f.order)
    && (forall id :: id in f.nodes ==> f.nodes[id].nodeId == id)
    && f.root.Some? && f.root.value in f.nodes
    && f.nodes[f.root.value].nodeType == "ORG" && f.nodes[f.root.value].parent.None?
  }

  lemma BuiltWellFormed(rows: seq<NodeRow>, f: Forest)
    requires Built(rows) == Success(f)
    ensures WellFormed(f)
  {
    BuiltShape(rows, f);
    BuiltChildrenPointBack(rows, f);
    BuiltParentsListChild(rows, f);
    BuiltChildrenInOrder(rows, f);
  }

  /** After `_build_tree`, the children of each node are the keys whose
      parent it is, in dict order. */
  lemma BuiltChildrenInOrder(rows: seq<NodeRow>, f: Forest)
    requires Built(rows) == Success(f)
    ensures ChildrenInOrder(f)
  {
    var f0 := Registry(rows);
    BuiltNodeIds(rows, f);
    forall p | p in f.nodes ensures f.nodes[p].children == Filter(f.order, HangsUnder(f.nodes, p)) {
      BuiltLinks(rows, f, p);
      forall c ensures ChildOf(f0, p)(c) == HangsUnder(f.nodes, p)(c) {
        if c in f0.nodes {
          BuiltLinks(rows, f, c);
        }
      }
      FilterSame(f0.order, ChildOf(f0, p), HangsUnder(f.nodes, p));
    }
  }

  /** Keys, order and the root of a built forest. */
  lemma BuiltShape(rows: seq<NodeRow>, f: Forest)
    requires Built(rows) == Success(f)
    ensures Shaped(f)
  {
    BuiltNodeIds(rows, f);
    BuiltRoot(rows, f);
    BuiltLinks(rows, f, f.root.value);
  }

  /** The root `_build_tree` keeps is the root entry of the input. */
  lemma BuiltRoot(rows: seq<NodeRow>, f: Forest)
    requires Built(rows) == Success(f)
    ensures f.root.Some? && f.root.value in Registry(rows).nodes
    ensures IsRootEntry(Registry(rows).nodes[f.root.value].parentId)
  {
    var f0 := Registry(rows);
    var n := |f0.order|;
    LinkedRoot(f0, n);
    var j :| 0 <= j < n && RootAt(f0, j);
    assert f.root == Some(f0.order[j]);
  }

  lemma BuiltNodeIds(rows: seq<NodeRow>, f: Forest)
    requires Built(rows) == Success(f)
    ensures f.nodes.Keys == Registry(rows).nodes.Keys && f.order == Registry(rows).order
    ensures forall id :: id in f.nodes ==> f.nodes[id].nodeId == id
  {
    var f0 := Registry(rows);
    assert f == Linked(f0, |f0.order|).value;
    forall id | id in f.nodes ensures f.nodes[id].nodeId == id {
      LinkedKeepsEntry(f0, |f0.order|, id);
    }
  }

  lemma BuiltChildrenPointBack(rows: seq<NodeRow>, f: Forest)
    requires Built(rows) == Success(f)
    ensures ChildrenPointBack(f.nodes)
  {
    forall p, i | p in f.nodes && 0 <= i < |f.nodes[p].children|
      ensures f.nodes[p].children[i] in f.nodes && f.nodes[f.nodes[p].children[i]].parent == Some(p)
    {
      BuiltChildPointsBack(rows, f, p, f.nodes[p].children[i]);
    }
  }

  lemma BuiltChildPointsBack(rows: seq<NodeRow>, f: Forest, p: string, c: string)
    requires Built(rows) == Success(f) && p in f.nodes && c in f.nodes[p].children
    ensures c in f.nodes && f.nodes[c].parent == Some(p)
  {
    var f0 := Registry(rows);
    BuiltNodeIds(rows, f);
    BuiltLinks(rows, f, p);
    FilterMembers(f0.order, ChildOf(f0, p));
    assert ChildOf(f0, p)(c);
    BuiltLinks(rows, f, c);
  }

  lemma BuiltParentsListChild(rows: seq<NodeRow>, f: Forest)
    requires Built(rows) == Success(f)
    ensures ParentsListChild(f.nodes)
  {
    forall c | c in f.nodes && f.nodes[c].parent.Some?
      ensures f.nodes[c].parent.value in f.nodes && c in f.nodes[f.nodes[c].parent.value].children
    {
      BuiltParentListsChild(rows, f, c);
    }
  }

  lemma BuiltParentListsChild(rows: seq<NodeRow>, f: Forest, c: string)
    requires Built(rows) == Success(f) && c in f.nodes && f.nodes[c].parent.Some?
    ensures f.nodes[c].parent.value in f.nodes && c in f.nodes[f.nodes[c].parent.value].children
  {
    var f0 := Registry(rows);
    BuiltOutcome(rows);
    BuiltNodeIds(rows, f);
    BuiltLinks(rows, f, c);
    var k :| 0 <= k < |f0.order| && f0.order[k] == c;
    assert ParentFound(f0, k);
    var p := f.nodes[c].parent.value;
    BuiltLinks(rows, f, p);
    FilterMembers(f0.order, ChildOf(f0, p));
    assert ChildOf(f0, p)(c);
  }

  /** A node of type `typ`, or any node when no type is asked for. */
  predicate OfType(n: TreeNode, typ: Option<string>) {
    typ.None? || n.nodeType == typ.value
  }

  /** The nodes stored under `ids`, in that order. */
  function Resolve(ids: seq<string>, nodes: map<string, TreeNode>): (r: seq<TreeNode>)
    requires forall id :: id in ids ==> id in nodes
    ensures |r| == |ids| && forall i :: 0 <= i < |ids| ==> r[i] == nodes[ids[i]]
  {
    seq(|ids|, i requires 0 <= i < |ids| => nodes[ids[i]])
  }

  /** `[n.node_id for n in ns]`. */
  function IdsOf(ns: seq<TreeNode>): (r: seq<string>)
    ensures |r| == |ns| && forall i :: 0 <= i < |ns| ==> r[i] == ns[i].nodeId
  {
    seq(|ns|, i requires 0 <= i < |ns| => ns[i].nodeId)
  }

  /** Node `c` is stored and of type `typ`. */
  function IdOfType(nodes: map<string, TreeNode>, typ: Option<string>): string -> bool {
    c => c in nodes && OfType(nodes[c], typ)
  }

  /** Node `c` is stored, of type `typ`, and its parent is `p`. */
  function ChildOfType(nodes: map<string, TreeNode>, p: string, typ: Option<string>): string -> bool {
    c => c in nodes && nodes[c].parent == Some(p) && OfType(nodes[c], typ)
  }

  /** Filtering the nodes stored under `ids` by type keeps the nodes of the
      ids that pass the same test, in the same order. */
  lemma {:induction false} ResolveFilter(ids: seq<string>, nodes: map<string, TreeNode>, typ: Option<string>)
    requires forall id :: id in ids ==> id in nodes
    requires forall id :: id in nodes ==> nodes[id].nodeId == id
    ensures IdsOf(Filter(Resolve(ids, nodes), (n: TreeNode) => OfType(n, typ))) == Filter(ids, IdOfType(nodes, typ))
    decreases |ids|
  {
    if ids != [] {
      var keep := (n: TreeNode) => OfType(n, typ);
      var all := Resolve(ids, nodes);
      assert all[1..] == Resolve(ids[1..], nodes);
      ResolveFilter(ids[1..], nodes, typ);
      var head := if keep(all[0]) then [all[0]] else [];
      var tail := Filter(all[1..], keep);
      assert Filter(all, keep) == head + tail;
      assert IdsOf(head + tail) == IdsOf(head) + IdsOf(tail);
      var pass := IdOfType(nodes, typ);
      assert IdsOf(head) == if pass(ids[0]) then [ids[0]] else [];
      assert Filter(ids, pass) == (if pass(ids[0]) then [ids[0]] else []) + Filter(ids[1..], pass);
    }
  }

  /** Each child listed by a stored node is stored and names it as parent. */
  lemma ChildrenPoint(nodes: map<string, TreeNode>, p: string)
    requires ChildrenPointBack(nodes) && p in nodes
    ensures forall c :: c in nodes[p].children ==> c in nodes && nodes[c].parent == Some(p)
  {
    forall c | c in nodes[p].children ensures c in nodes && nodes[c].parent == Some(p) {
      var i :| 0 <= i < |nodes[p].children| && nodes[p].children[i] == c;
    }
  }

  /** The children of `p` of type `typ` are the stored nodes of that type
      whose parent is `p`. */
  lemma ChildrenKept(nodes: map<string, TreeNode>, p: string, typ: Option<string>)
    requires Linkable(nodes) && ChildrenPointBack(nodes) && ParentsListChild(nodes) && p in nodes
    ensures forall c :: c in nodes[p].children ==> c in nodes
    ensures var r := Filter(Resolve(nodes[p].children, nodes), (n: TreeNode) => OfType(n, typ));
      && (forall n :: n in r ==> n.parent == Some(p) && OfType(n, typ) && n.nodeId in nodes && nodes[n.nodeId] == n)
      && (forall c :: c in nodes && nodes[c].parent == Some(p) && OfType(nodes[c], typ) ==> nodes[c] in r)
  {
    var kids := Resolve(nodes[p].children, nodes);
    FilterMembers(kids, (n: TreeNode) => OfType(n, typ));
    assert forall c :: c in nodes && nodes[c].parent == Some(p) ==>
      exists i :: 0 <= i < |kids| && nodes[p].children[i] == c && kids[i] == nodes[c];
  }

  /** The ids of the children of `p` of type `typ` are the keys of that
      type whose parent is `p`, in dict order. */
  lemma ChildrenKeptInOrder(f: Forest, p: string, typ: Option<string>)
    requires Linkable(f.nodes) && ChildrenInOrder(f) && p in f.nodes
    ensures IdsOf(Filter(Resolve(f.nodes[p].children, f.nodes), (n: TreeNode) => OfType(n, typ)))
         == Filter(f.order, ChildOfType(f.nodes, p, typ))
  {
    ResolveFilter(f.nodes[p].children, f.nodes, typ);
    FilterFilter(f.order, HangsUnder(f.nodes, p), IdOfType(f.nodes, typ), ChildOfType(f.nodes, p, typ));
  }

  /** Resolving every key gives every stored node. */
  lemma ResolveAll(order: seq<string>, nodes: map<string, TreeNode>)
    requires forall id :: id in nodes <==> id in order
    ensures forall id :: id in nodes ==> nodes[id] in Resolve(order, nodes)
  {
    var all := Resolve(order, nodes);
    forall id | id in nodes ensures nodes[id] in all {
      var i :| 0 <= i < |order| && order[i] == id;
      assert all[i] == nodes[id];
    }
  }

  /** Every node is stored under its own id and lists only stored nodes as children. */
  ghost predicate Linkable(nodes: map<string, TreeNode>) {
    && (forall id :: id in nodes ==> nodes[id].nodeId == id)
    && (forall p, i :: p in nodes && 0 <= i < |nodes[p].children| ==> nodes[p].children[i] in nodes)
  }

  lemma WellFormedLinkable(f: Forest)
    requires WellFormed(f)
    ensures Linkable(f.nodes) && ParentsStored(f.nodes)
  {
  }

  /** The nodes below `ids` in pre-order (each node, then the nodes below
      it), kept when of type `typ`; `fuel` bounds the depth. */
  function Below(nodes: map<string, TreeNode>, ids: seq<string>, typ: Option<string>, fuel: nat): (r: seq<TreeNode>)
    requires Linkable(nodes) && forall id :: id in ids ==> id in nodes
    decreases fuel, |ids|
  {
    if ids == [] || fuel == 0 then []
    else
      var last := nodes[ids[|ids| - 1]];
      Below(nodes, ids[..|ids| - 1], typ, fuel) + (if OfType(last, typ) then [last] else [])
        + Below(nodes, last.children, typ, fuel - 1)
  }

  /** Every node of the traversal is a stored node of the requested type. */
  lemma {:induction false} BelowStored(nodes: map<string, TreeNode>, ids: seq<string>, typ: Option<string>, fuel: nat)
    requires Linkable(nodes) && forall id :: id in ids ==> id in nodes
    ensures forall n :: n in Below(nodes, ids, typ, fuel) ==> OfType(n, typ) && n.nodeId in nodes && nodes[n.nodeId] == n
    decreases fuel, |ids|
  {
    if ids != [] && fuel > 0 {
      var last := nodes[ids[|ids| - 1]];
      var front := Below(nodes, ids[..|ids| - 1], typ, fuel);
      var kept := if OfType(last, typ) then [last] else [];
      var under := Below(nodes, last.children, typ, fuel - 1);
      BelowStored(nodes, ids[..|ids| - 1], typ, fuel);
      BelowStored(nodes, last.children, typ, fuel - 1);
      assert last.nodeId == ids[|ids| - 1];
      assert Below(nodes, ids, typ, fuel) == front + kept + under;
      forall n | n in front + kept + under ensures OfType(n, typ) && n.nodeId in nodes && nodes[n.nodeId] == n {
        assert n in front || n in kept || n in under;
      }
    }
  }

  /** One more id at the end adds that node, if kept, and the nodes below it. */
  lemma BelowSnoc(nodes: map<string, TreeNode>, ids: seq<string>, k: nat, typ: Option<string>, fuel: nat)
    requires Linkable(nodes) && forall id :: id in ids ==> id in nodes
    requires k < |ids| && fuel > 0
    ensures Below(nodes, ids[..k + 1], typ, fuel)
         == Below(nodes, ids[..k], typ, fuel) + (if OfType(nodes[ids[k]], typ) then [nodes[ids[k]]] else [])
            + Below(nodes, nodes[ids[k]].children, typ, fuel - 1)
  {
    assert ids[..k + 1][..k] == ids[..k];
  }

  /** One turn of the loop of `_collect_descendants` extends the traversal
      by one child. */
  lemma CollectStep(nodes: map<string, TreeNode>, ids: seq<string>, k: nat, result: seq<TreeNode>,
                    before: seq<TreeNode>, after: seq<TreeNode>, typ: Option<string>, fuel: nat)
    requires Linkable(nodes) && forall id :: id in ids ==> id in nodes
    requires k < |ids| && fuel > 0
    requires before == result + Below(nodes, ids[..k], typ, fuel)
    requires after == before + (if OfType(nodes[ids[k]], typ) then [nodes[ids[k]]] else [])
                      + Below(nodes, nodes[ids[k]].children, typ, fuel - 1)
    ensures after == result + Below(nodes, ids[..k + 1], typ, fuel)
  {
    BelowSnoc(nodes, ids, k, typ, fuel);
  }

  /** The test `node_type == t`. */
  function IsType(t: string): TreeNode -> bool {
    (n: TreeNode) => n.nodeType == t
  }

  /** The test `has_activity(act)`. */
  function HasActivity(act: string): TreeNode -> bool {
    (n: TreeNode) => n.activity == Some(act)
  }

  /** An ENT node whose activity is `act`. */
  function EntWith(act: string): TreeNode -> bool {
    (n: TreeNode) => n.nodeType == "ENT" && n.activity == Some(act)
  }

  /** The traversal of a non-empty list: the traversal of all but its last
      id, then that node if kept, then the nodes below it. */
  lemma BelowLast(nodes: map<string, TreeNode>, ids: seq<string>, typ: Option<string>, fuel: nat)
    requires Linkable(nodes) && forall id :: id in ids ==> id in nodes
    requires ids != [] && fuel > 0
    ensures var last := nodes[ids[|ids| - 1]];
      Below(nodes, ids, typ, fuel)
      == Below(nodes, ids[..|ids| - 1], typ, fuel) + (if OfType(last, typ) then [last] else [])
         + Below(nodes, last.children, typ, fuel - 1)
  {
  }

  /** The traversal kept by type is the full traversal filtered by type. */
  lemma {:induction false} BelowFiltered(nodes: map<string, TreeNode>, ids: seq<string>, t: string, fuel: nat)
    requires Linkable(nodes) && forall id :: id in ids ==> id in nodes
    ensures Below(nodes, ids, Some(t), fuel) == Filter(Below(nodes, ids, None, fuel), IsType(t))
    decreases fuel, |ids|
  {
    if ids != [] && fuel > 0 {
      var last := nodes[ids[|ids| - 1]];
      var front := Below(nodes, ids[..|ids| - 1], None, fuel);
      var under := Below(nodes, last.children, None, fuel - 1);
      BelowFiltered(nodes, ids[..|ids| - 1], t, fuel);
      BelowFiltered(nodes, last.children, t, fuel - 1);
      BelowLast(nodes, ids, None, fuel);
      BelowLast(nodes, ids, Some(t), fuel);
      FilterAround(front, last, under, IsType(t));
    }
  }

  /** One link above a node that is `k` links below the `j`-th child of `p`
      is `p`. */
  lemma UpThroughChild(nodes: map<string, TreeNode>, p: string, j: nat, id: string, k: nat)
    requires ChildrenPointBack(nodes) && ParentsStored(nodes) && p in nodes && j < |nodes[p].children|
    requires id in nodes && Up(nodes, id, k) == Some(nodes[p].children[j])
    ensures Up(nodes, id, k + 1) == Some(p)
  {
    var c := nodes[p].children[j];
    UpAdd(nodes, id, k, 1);
    assert Up(nodes, c, 1) == nodes[c].parent;
  }

  /** Each node of the traversal is a stored node of the requested type,
      fewer than `fuel` links below one of `ids`. */
  lemma {:induction false} BelowAbove(nodes: map<string, TreeNode>, ids: seq<string>, typ: Option<string>, fuel: nat, n: TreeNode)
    requires Linkable(nodes) && ChildrenPointBack(nodes) && ParentsStored(nodes) && forall id :: id in ids ==> id in nodes
    requires n in Below(nodes, ids, typ, fuel)
    ensures Stored(nodes, n) && OfType(n, typ)
    ensures exists j, k: nat :: 0 <= j < |ids| && k < fuel && Up(nodes, n.nodeId, k) == Some(ids[j])
    decreases fuel, |ids|
  {
    assert ids != [] && fuel > 0;
    var front, l := ids[..|ids| - 1], ids[|ids| - 1];
    var last := nodes[l];
    BelowLast(nodes, ids, typ, fuel);
    if n in Below(nodes, front, typ, fuel) {
      BelowAbove(nodes, front, typ, fuel, n);
      var j, k: nat :| 0 <= j < |front| && k < fuel && Up(nodes, n.nodeId, k) == Some(front[j]);
      assert ids[j] == front[j];
    } else if n in Below(nodes, last.children, typ, fuel - 1) {
      assert forall id :: id in last.children ==> id in nodes;
      BelowAbove(nodes, last.children, typ, fuel - 1, n);
      var j, k: nat :| 0 <= j < |last.children| && k < fuel - 1 && Up(nodes, n.nodeId, k) == Some(last.children[j]);
      UpThroughChild(nodes, l, j, n.nodeId, k);
      assert Up(nodes, n.nodeId, k + 1) == Some(ids[|ids| - 1]);
    } else {
      assert Up(nodes, n.nodeId, 0) == Some(ids[|ids| - 1]);
    }
  }

  /** The traversal of a list holds each listed node of the requested type
      and the traversal below it. */
  lemma {:induction false} BelowContains(nodes: map<string, TreeNode>, ids: seq<string>, typ: Option<string>, fuel: nat, x: string)
    requires Linkable(nodes) && forall id :: id in ids ==> id in nodes
    requires x in ids && fuel > 0
    ensures OfType(nodes[x], typ) ==> nodes[x] in Below(nodes, ids, typ, fuel)
    ensures forall n :: n in Below(nodes, nodes[x].children, typ, fuel - 1) ==> n in Below(nodes, ids, typ, fuel)
    decreases |ids|
  {
    BelowLast(nodes, ids, typ, fuel);
    var front := ids[..|ids| - 1];
    if x != ids[|ids| - 1] {
      assert x in front by {
        var i :| 0 <= i < |ids| && ids[i] == x;
        assert front[i] == x;
      }
      BelowContains(nodes, front, typ, fuel, x);
    }
  }

  /** A stored node of the requested type fewer than `fuel` links below one
      of `ids` is met by the traversal. */
  lemma {:induction false} BelowReaches(nodes: map<string, TreeNode>, ids: seq<string>, typ: Option<string>, fuel: nat,
                                        c: string, k: nat, x: string)
    requires Linkable(nodes) && ParentsListChild(nodes) && forall id :: id in ids ==> id in nodes
    requires ParentsStored(nodes) && c in nodes && OfType(nodes[c], typ)
    requires x in ids && k < fuel && Up(nodes, c, k) == Some(x)
    ensures nodes[c] in Below(nodes, ids, typ, fuel)
    decreases k
  {
    BelowContains(nodes, ids, typ, fuel, x);
    if k > 0 {
      var y := Up(nodes, c, k - 1).value;
      assert Up(nodes, c, k) == nodes[y].parent;
      BelowReaches(nodes, nodes[x].children, typ, fuel - 1, c, k - 1, y);
    }
  }

  /** Two siblings under `p` met going up from one node are the same
      sibling, met after as many links, unless `p` lies on a cycle. */
  lemma SiblingsMet(nodes: map<string, TreeNode>, n: string, a: nat, b: nat, u: string, v: string, p: string)
    requires ParentsStored(nodes) && n in nodes
    requires Up(nodes, n, a) == Some(u) && Up(nodes, n, b) == Some(v)
    requires nodes[u].parent == Some(p) && nodes[v].parent == Some(p)
    ensures (a == b && u == v) || OnCycle(nodes, p)
  {
    UpAdd(nodes, n, a, 1);
    UpAdd(nodes, n, b, 1);
    assert Up(nodes, u, 1) == nodes[u].parent && Up(nodes, v, 1) == nodes[v].parent;
    if a < b {
      UpRepeats(nodes, n, a + 1, b + 1);
    } else if b < a {
      UpRepeats(nodes, n, b + 1, a + 1);
    }
  }

  /** Every node stored under `p` lists each child once. */
  ghost predicate ChildrenDistinct(nodes: map<string, TreeNode>) {
    forall p :: p in nodes ==> Distinct(nodes[p].children)
  }

  /** A node is not met below itself, unless it lies on a cycle. */
  lemma NotBelowItself(nodes: map<string, TreeNode>, l: string, typ: Option<string>, fuel: nat)
    requires Linkable(nodes) && ChildrenPointBack(nodes) && ParentsStored(nodes) && l in nodes
    ensures nodes[l] !in Below(nodes, nodes[l].children, typ, fuel) || OnCycle(nodes, l)
  {
    if nodes[l] in Below(nodes, nodes[l].children, typ, fuel) {
      BelowAbove(nodes, nodes[l].children, typ, fuel, nodes[l]);
      var j, k: nat :| 0 <= j < |nodes[l].children| && k < fuel && Up(nodes, l, k) == Some(nodes[l].children[j]);
      UpAdd(nodes, l, k, 1);
      assert Up(nodes, nodes[l].children[j], 1) == Some(l);
      UpRepeats(nodes, l, 0, k + 1);
    }
  }

  /** A node kept, then the traversal below it, meet no node twice when
      that traversal does not, unless its parent `p` lies on a cycle. */
  lemma KeptThenUnder(nodes: map<string, TreeNode>, l: string, typ: Option<string>, fuel: nat, p: string)
    requires Linkable(nodes) && ChildrenPointBack(nodes) && ParentsStored(nodes)
    requires l in nodes && nodes[l].parent == Some(p)
    requires Distinct(Below(nodes, nodes[l].children, typ, fuel)) || OnCycle(nodes, l)
    ensures Distinct((if OfType(nodes[l], typ) then [nodes[l]] else []) + Below(nodes, nodes[l].children, typ, fuel))
      || OnCycle(nodes, p)
  {
    assert Up(nodes, l, 1) == Some(p);
    if OnCycle(nodes, l) {
      CycleAbove(nodes, l, 1);
    } else {
      NotBelowItself(nodes, l, typ, fuel);
      DistinctConcat(if OfType(nodes[l], typ) then [nodes[l]] else [], Below(nodes, nodes[l].children, typ, fuel));
    }
  }

  /** A node met below a sibling in `front` is neither the sibling `l` nor
      below it, unless their parent `p` lies on a cycle. */
  lemma SiblingsApart(nodes: map<string, TreeNode>, front: seq<string>, l: string, typ: Option<string>, fuel: nat,
                      p: string, n: TreeNode)
    requires Linkable(nodes) && ChildrenPointBack(nodes) && ParentsStored(nodes)
    requires l in nodes && nodes[l].parent == Some(p) && l !in front && fuel > 0
    requires forall id :: id in front ==> id in nodes && nodes[id].parent == Some(p)
    requires n in Below(nodes, front, typ, fuel)
    ensures (n != nodes[l] && n !in Below(nodes, nodes[l].children, typ, fuel - 1)) || OnCycle(nodes, p)
  {
    BelowAbove(nodes, front, typ, fuel, n);
    var j, a: nat :| 0 <= j < |front| && a < fuel && Up(nodes, n.nodeId, a) == Some(front[j]);
    assert front[j] in front;
    if n == nodes[l] {
      assert Up(nodes, l, 0) == Some(l);
      SiblingsMet(nodes, l, a, 0, front[j], l, p);
    } else if n in Below(nodes, nodes[l].children, typ, fuel - 1) {
      BelowAbove(nodes, nodes[l].children, typ, fuel - 1, n);
      var i, b: nat :| 0 <= i < |nodes[l].children| && b < fuel - 1 && Up(nodes, n.nodeId, b) == Some(nodes[l].children[i]);
      UpAdd(nodes, n.nodeId, b, 1);
      assert Up(nodes, nodes[l].children[i], 1) == Some(l);
      SiblingsMet(nodes, n.nodeId, a, b + 1, front[j], l, p);
    }
  }

  /** The traversal below distinct siblings under `p` meets no node twice,
      unless `p` lies on a cycle. */
  lemma {:induction false} BelowDistinct(nodes: map<string, TreeNode>, ids: seq<string>, typ: Option<string>, fuel: nat, p: string)
    requires Linkable(nodes) && ChildrenPointBack(nodes) && ParentsStored(nodes) && ChildrenDistinct(nodes)
    requires p in nodes && Distinct(ids) && forall id :: id in ids ==> id in nodes && nodes[id].parent == Some(p)
    ensures Distinct(Below(nodes, ids, typ, fuel)) || OnCycle(nodes, p)
    decreases fuel, |ids|
  {
    if ids != [] && fuel > 0 {
      var front, l := ids[..|ids| - 1], ids[|ids| - 1];
      var last := nodes[l];
      var before := Below(nodes, front, typ, fuel);
      var kept := if OfType(last, typ) then [last] else [];
      var under := Below(nodes, last.children, typ, fuel - 1);
      assert l !in front by {
        forall i | 0 <= i < |front| ensures front[i] != l {
          assert front[i] == ids[i];
        }
      }
      assert l in ids && l in nodes && last.parent == Some(p);
      BelowDistinct(nodes, front, typ, fuel, p);
      assert Distinct(kept + under) || OnCycle(nodes, p) by {
        ChildrenPoint(nodes, l);
        BelowDistinct(nodes, last.children, typ, fuel - 1, l);
        KeptThenUnder(nodes, l, typ, fuel - 1, p);
      }
      if !OnCycle(nodes, p) {
        assert forall n :: n in before ==> n !in kept + under by {
          forall n | n in before ensures n !in kept + under {
            SiblingsApart(nodes, front, l, typ, fuel, p, n);
          }
        }
        DistinctConcat(before, kept + under);
        AppendAssoc(before, kept, under);
      }
      BelowLast(nodes, ids, typ, fuel);
    }
  }

  /** In a well-formed tree no node lists a child twice. */
  lemma WellFormedChildrenDistinct(f: Forest)
    requires WellFormed(f)
    ensures ChildrenDistinct(f.nodes)
  {
    assert Distinct(f.order);
    forall p | p in f.nodes ensures Distinct(f.nodes[p].children) {
      FilterDistinct(f.order, HangsUnder(f.nodes, p));
    }
  }

  /** The traversal below `id` meets only stored nodes below `id` of the
      requested type. */
  lemma TraversalSound(nodes: map<string, TreeNode>, id: string, typ: Option<string>, fuel: nat)
    requires Linkable(nodes) && ChildrenPointBack(nodes) && ParentsStored(nodes) && id in nodes
    ensures forall n :: n in Below(nodes, nodes[id].children, typ, fuel) ==>
      Stored(nodes, n) && OfType(n, typ) && IsBelow(nodes, n.nodeId, id)
  {
    var kids := nodes[id].children;
    forall n | n in Below(nodes, kids, typ, fuel) ensures Stored(nodes, n) && OfType(n, typ) && IsBelow(nodes, n.nodeId, id) {
      BelowAbove(nodes, kids, typ, fuel, n);
      var j, k: nat :| 0 <= j < |kids| && k < fuel && Up(nodes, n.nodeId, k) == Some(kids[j]);
      UpAdd(nodes, n.nodeId, k, 1);
      assert Up(nodes, kids[j], 1) == Some(id);
    }
  }

  /** Below a node on no cycle of parents, the traversal to depth `|nodes|`
      meets each stored node below it of the requested type. */
  lemma TraversalReaches(nodes: map<string, TreeNode>, id: string, typ: Option<string>, n: TreeNode)
    requires Linkable(nodes) && ParentsListChild(nodes) && ParentsStored(nodes) && id in nodes && !OnCycle(nodes, id)
    requires Stored(nodes, n) && OfType(n, typ) && IsBelow(nodes, n.nodeId, id)
    ensures n in Below(nodes, nodes[id].children, typ, |nodes.Keys|)
  {
    var c := n.nodeId;
    var k :| k > 0 && Up(nodes, c, k) == Some(id);
    var y := Up(nodes, c, k - 1).value;
    assert Up(nodes, c, k) == nodes[y].parent;
    if k > |nodes.Keys| {
      FarAboveOnCycle(nodes, c, k);
    } else {
      BelowReaches(nodes, nodes[id].children, typ, |nodes.Keys|, c, k - 1, y);
    }
  }

  /** Below a node on no cycle of parents, the traversal to depth `|order|`
      meets each node below it of the requested type, and meets it once. */
  lemma TraversalComplete(f: Forest, id: string, typ: Option<string>)
    requires WellFormed(f) && ParentsStored(f.nodes) && id in f.nodes && !OnCycle(f.nodes, id)
    ensures Linkable(f.nodes)
    ensures var r := Below(f.nodes, f.nodes[id].children, typ, |f.order|);
      && Distinct(r)
      && forall n :: n in r <==> Stored(f.nodes, n) && OfType(n, typ) && IsBelow(f.nodes, n.nodeId, id)
  {
    var nodes := f.nodes;
    WellFormedLinkable(f);
    WellFormedChildrenDistinct(f);
    BelowDistinct(nodes, nodes[id].children, typ, |f.order|, id);
    DistinctCard(f.order, nodes.Keys);
    TraversalSound(nodes, id, typ, |f.order|);
    forall n | Stored(nodes, n) && OfType(n, typ) && IsBelow(nodes, n.nodeId, id)
      ensures n in Below(nodes, nodes[id].children, typ, |f.order|)
    {
      TraversalReaches(nodes, id, typ, n);
    }
  }

  /** The known activities of the ENT nodes of `all`. */
  lemma ActivitiesOfEnts(all: seq<TreeNode>, ents: seq<TreeNode>, acts: set<string>)
    requires ents == Filter(all, IsType("ENT"))
    requires acts == set e | e in ents && KnownActivity(e.activity) :: e.activity.value
    ensures forall a :: a in acts <==>
      KnownActivity(Some(a)) && exists n :: n in all && n.nodeType == "ENT" && n.activity == Some(a)
  {
    FilterMembers(all, IsType("ENT"));
  }

  /** Given a list `all` of exactly the stored nodes below `id`, the
      activities found among its ENT nodes are those of the stored ENT
      nodes below `id`. */
  lemma ActivitiesBelow(nodes: map<string, TreeNode>, id: string, all: seq<TreeNode>, acts: set<string>)
    requires ParentsStored(nodes) && forall x :: x in nodes ==> nodes[x].nodeId == x
    requires forall n :: n in all <==> Stored(nodes, n) && OfType(n, None) && IsBelow(nodes, n.nodeId, id)
    requires forall a :: a in acts <==>
      KnownActivity(Some(a)) && exists n :: n in all && n.nodeType == "ENT" && n.activity == Some(a)
    ensures forall a :: a in acts <==>
      && KnownActivity(Some(a))
      && exists c :: c in nodes && nodes[c].nodeType == "ENT" && nodes[c].activity == Some(a) && IsBelow(nodes, c, id)
  {
    forall a | a in acts
      ensures exists c :: c in nodes && nodes[c].nodeType == "ENT" && nodes[c].activity == Some(a) && IsBelow(nodes, c, id)
    {
      var n :| n in all && n.nodeType == "ENT" && n.activity == Some(a);
      assert Stored(nodes, n);
    }
    forall a, c | KnownActivity(Some(a)) && c in nodes && nodes[c].nodeType == "ENT" && nodes[c].activity == Some(a) && IsBelow(nodes, c, id)
      ensures a in acts
    {
      assert nodes[c] in all;
    }
  }

  /** Given a list `all` of exactly the stored nodes below `id`, each once,
      the ids of its ENT nodes of activity `act` are distinct, and are the
      ids of all the stored ENT nodes below `id` with that activity. */
  lemma EntIdsOf(nodes: map<string, TreeNode>, id: string, all: seq<TreeNode>, act: string)
    requires ParentsStored(nodes) && forall x :: x in nodes ==> nodes[x].nodeId == x
    requires Distinct(all) && forall n :: n in all <==> Stored(nodes, n) && OfType(n, None) && IsBelow(nodes, n.nodeId, id)
    ensures var ids := IdsOf(Filter(all, EntWith(act)));
      && Distinct(ids)
      && forall c :: c in ids <==>
        c in nodes && nodes[c].nodeType == "ENT" && nodes[c].activity == Some(act) && IsBelow(nodes, c, id)
  {
    var ents := Filter(all, EntWith(act));
    var ids := IdsOf(ents);
    FilterMembers(all, EntWith(act));
    FilterDistinct(all, EntWith(act));
    forall i, j | 0 <= i < j < |ids| ensures ids[i] != ids[j] {
      assert ents[i] in ents && ents[j] in ents && ents[i] != ents[j];
    }
    forall c | c in ids ensures c in nodes && nodes[c].nodeType == "ENT" && nodes[c].activity == Some(act) && IsBelow(nodes, c, id) {
      var i :| 0 <= i < |ids| && ids[i] == c;
      assert ents[i] in ents;
    }
    forall c | c in nodes && nodes[c].nodeType == "ENT" && nodes[c].activity == Some(act) && IsBelow(nodes, c, id)
      ensures c in ids
    {
      assert nodes[c] in ents;
      var i :| 0 <= i < |ents| && ents[i] == nodes[c];
      assert ids[i] == c;
    }
  }

  /** Every parent link leads to a stored node. */
  ghost predicate ParentsStored(nodes: map<string, TreeNode>) {
    forall c {:trigger nodes[c].parent} :: c in nodes && nodes[c].parent.Some? ==> nodes[c].parent.value in nodes
  }

  /** The id `k` parent links above `id`, or None when the chain of parents
      is shorter than that. */
  function Up(nodes: map<string, TreeNode>, id: string, k: nat): (r: Option<string>)
    requires ParentsStored(nodes) && id in nodes
    ensures r.Some? ==> r.value in nodes
    decreases k
  {
    if k == 0 then Some(id)
    else match Up(nodes, id, k - 1)
      case None => None
      case Some(x) => nodes[x].parent
  }

  /** A chain that reaches `k` links up reaches every shorter length, so a
      chain that has ended at `n` links was shorter than `n`. */
  lemma {:induction false} UpBefore(nodes: map<string, TreeNode>, id: string, k: nat, n: nat)
    requires ParentsStored(nodes) && id in nodes
    requires Up(nodes, id, k).Some? && Up(nodes, id, n).None?
    ensures k < n
    decreases k
  {
    if k > 0 {
      UpBefore(nodes, id, k - 1, n);
    }
  }

  /** Going up `a + b` links is going up `a` links, then `b` more. */
  lemma {:induction false} UpAdd(nodes: map<string, TreeNode>, id: string, a: nat, b: nat)
    requires ParentsStored(nodes) && id in nodes && Up(nodes, id, a).Some?
    ensures Up(nodes, id, a + b) == Up(nodes, Up(nodes, id, a).value, b)
    decreases b
  {
    if b > 0 {
      UpAdd(nodes, id, a, b - 1);
    }
  }

  /** The chain of parents above `id` ends. */
  ghost predicate Terminates(nodes: map<string, TreeNode>, id: string)
    requires ParentsStored(nodes) && id in nodes
  {
    exists n :: Up(nodes, id, n).None?
  }

  /** The node `id` has exactly `d` ancestors. */
  predicate DepthIs(nodes: map<string, TreeNode>, id: string, d: nat)
    requires ParentsStored(nodes) && id in nodes
  {
    Up(nodes, id, d).Some? && Up(nodes, id, d + 1).None?
  }

  /** A node has one depth only. */
  lemma DepthUnique(nodes: map<string, TreeNode>, id: string, d: nat, e: nat)
    requires ParentsStored(nodes) && id in nodes
    requires DepthIs(nodes, id, d) && DepthIs(nodes, id, e)
    ensures d == e
  {
    UpBefore(nodes, id, d, e + 1);
    UpBefore(nodes, id, e, d + 1);
  }

  /** A child is one level deeper than its parent. */
  lemma ChildDepth(nodes: map<string, TreeNode>, c: string, d: nat)
    requires ParentsStored(nodes) && c in nodes && nodes[c].parent.Some?
    requires DepthIs(nodes, nodes[c].parent.value, d)
    ensures DepthIs(nodes, c, d + 1)
  {
    assert Up(nodes, c, 1) == nodes[c].parent;
    UpAdd(nodes, c, 1, d);
    UpAdd(nodes, c, 1, d + 1);
  }

  /** `c` is met again when going up from it. */
  ghost predicate OnCycle(nodes: map<string, TreeNode>, c: string)
    requires ParentsStored(nodes) && c in nodes
  {
    exists k :: k > 0 && Up(nodes, c, k) == Some(c)
  }

  /** Once the chain above `id` meets a node twice, it goes round for ever. */
  lemma {:induction false} CycleForever(nodes: map<string, TreeNode>, id: string, i: nat, k: nat, n: nat)
    requires ParentsStored(nodes) && id in nodes
    requires i < k && Up(nodes, id, k).Some? && Up(nodes, id, i) == Up(nodes, id, k)
    ensures Up(nodes, id, n).Some?
    decreases n
  {
    if n <= k {
      if Up(nodes, id, n).None? {
        UpBefore(nodes, id, k, n);
      }
    } else {
      UpAdd(nodes, id, k, n - k);
      UpAdd(nodes, id, i, n - k);
      CycleForever(nodes, id, i, k, i + (n - k));
    }
  }

  /** `anc` lies one or more parent links above `c`. */
  ghost predicate IsBelow(nodes: map<string, TreeNode>, c: string, anc: string)
    requires ParentsStored(nodes) && c in nodes
  {
    exists k :: k > 0 && Up(nodes, c, k) == Some(anc)
  }

  /** A node met twice on the way up from `c` lies on a cycle. */
  lemma UpRepeats(nodes: map<string, TreeNode>, c: string, i: nat, j: nat)
    requires ParentsStored(nodes) && c in nodes && i < j
    requires Up(nodes, c, i).Some? && Up(nodes, c, i) == Up(nodes, c, j)
    ensures OnCycle(nodes, Up(nodes, c, i).value)
  {
    UpAdd(nodes, c, i, j - i);
    assert Up(nodes, Up(nodes, c, i).value, j - i) == Up(nodes, c, i);
  }

  /** Every node above a node on a cycle lies on that cycle. */
  lemma CycleAbove(nodes: map<string, TreeNode>, y: string, m: nat)
    requires ParentsStored(nodes) && y in nodes && OnCycle(nodes, y) && Up(nodes, y, m).Some?
    ensures OnCycle(nodes, Up(nodes, y, m).value)
  {
    var p :| p > 0 && Up(nodes, y, p) == Some(y);
    var z := Up(nodes, y, m).value;
    UpAdd(nodes, y, m, p);
    UpAdd(nodes, y, p, m);
    assert Up(nodes, z, p) == Some(z);
  }

  /** The ids met going up from `c`, through `k` links. */
  ghost function UpChain(nodes: map<string, TreeNode>, c: string, k: nat): (r: seq<string>)
    requires ParentsStored(nodes) && c in nodes && Up(nodes, c, k).Some?
    ensures |r| == k + 1 && forall j :: 0 <= j <= k ==> Up(nodes, c, j) == Some(r[j])
    decreases k
  {
    if k == 0 then [c] else UpChain(nodes, c, k - 1) + [Up(nodes, c, k).value]
  }

  /** A node `|nodes|` or more links above `c` lies on a cycle. */
  lemma FarAboveOnCycle(nodes: map<string, TreeNode>, c: string, k: nat)
    requires ParentsStored(nodes) && c in nodes && Up(nodes, c, k).Some? && k >= |nodes.Keys|
    ensures OnCycle(nodes, Up(nodes, c, k).value)
  {
    var chain := UpChain(nodes, c, k);
    forall x | x in chain ensures x in nodes.Keys {
      var j :| 0 <= j < |chain| && chain[j] == x;
      assert Up(nodes, c, j) == Some(x);
    }
    Repeats(chain, nodes.Keys);
    var i, j :| 0 <= i < j < |chain| && chain[i] == chain[j];
    assert Up(nodes, c, i) == Some(chain[i]) && Up(nodes, c, j) == Some(chain[j]);
    UpRepeats(nodes, c, i, j);
    UpAdd(nodes, c, i, k - i);
    CycleAbove(nodes, chain[i], k - i);
  }

  /** The walk of `validate_structure` up from `current`, the ids already
      passed being `path`: the first id met a second time, or None when the
      chain ends. */
  function Walk(nodes: map<string, TreeNode>, current: Option<string>, path: seq<string>): (r: Option<string>)
    requires ParentsStored(nodes) && (current.Some? ==> current.value in nodes)
    requires Distinct(path) && forall x :: x in path ==> x in nodes
    ensures r.Some? ==> r.value in nodes
    decreases |nodes.Keys| - |path|
  {
    match current
    case None => None
    case Some(c) =>
      if c in path then Some(c)
      else
        DistinctBound(path + [c], nodes.Keys);
        Walk(nodes, nodes[c].parent, path + [c])
  }

  /** The walk up from `id` finds nothing exactly when the chain above `id`
      ends, and what it finds lies on a cycle. */
  lemma {:induction false} WalkUp(nodes: map<string, TreeNode>, id: string, path: seq<string>)
    requires ParentsStored(nodes) && id in nodes
    requires forall j :: 0 <= j < |path| ==> Up(nodes, id, j) == Some(path[j])
    requires Distinct(path) && forall x :: x in path ==> x in nodes
    ensures Walk(nodes, Up(nodes, id, |path|), path).None? <==> Terminates(nodes, id)
    ensures Walk(nodes, Up(nodes, id, |path|), path).Some? ==> OnCycle(nodes, Walk(nodes, Up(nodes, id, |path|), path).value)
    decreases |nodes.Keys| - |path|
  {
    var k := |path|;
    match Up(nodes, id, k)
    case None =>
    case Some(c) =>
      if c in path {
        var i :| 0 <= i < k && path[i] == c;
        forall n: nat ensures Up(nodes, id, n).Some? {
          CycleForever(nodes, id, i, k, n);
        }
        UpAdd(nodes, id, i, k - i);
        assert Up(nodes, c, k - i) == Some(c);
      } else {
        DistinctBound(path + [c], nodes.Keys);
        var path' := path + [c];
        forall j | 0 <= j < |path'| ensures Up(nodes, id, j) == Some(path'[j]) {
          if j < k {
            assert path'[j] == path[j];
          }
        }
        assert Up(nodes, id, k + 1) == nodes[c].parent;
        WalkUp(nodes, id, path');
      }
  }

  /** One turn of the loop of `get_path`: the next node up goes in front. */
  lemma PathStep(nodes: map<string, TreeNode>, id: string, path: seq<TreeNode>)
    requires ParentsStored(nodes) && id in nodes && Up(nodes, id, |path|).Some?
    requires ChainSoFar(nodes, id, path)
    ensures var path' := [nodes[Up(nodes, id, |path|).value]] + path;
      && Up(nodes, id, |path'|) == nodes[Up(nodes, id, |path|).value].parent
      && ChainSoFar(nodes, id, path')
  {
    var k := |path|;
    var path' := [nodes[Up(nodes, id, k).value]] + path;
    assert Up(nodes, id, k + 1) == nodes[Up(nodes, id, k).value].parent;
    forall j | 0 <= j < k + 1
      ensures Up(nodes, id, j).Some? && path'[k - j] == nodes[Up(nodes, id, j).value]
    {
      if j < k {
        assert path'[k - j] == path[k - 1 - j];
      }
    }
  }

  /** The first `|path|` nodes of the chain of parents from `id`, listed
      from the top down. */
  ghost predicate ChainSoFar(nodes: map<string, TreeNode>, id: string, path: seq<TreeNode>)
    requires ParentsStored(nodes) && id in nodes
  {
    forall j :: 0 <= j < |path| ==> Up(nodes, id, j).Some? && path[|path| - 1 - j] == nodes[Up(nodes, id, j).value]
  }

  /** The loop of `get_path`: climbs the parents of `id`, putting each node
      in front of the list. */
  method ChainOf(nodes: map<string, TreeNode>, id: string) returns (path: seq<TreeNode>)
    requires ParentsStored(nodes) && id in nodes && Terminates(nodes, id)
    requires forall x :: x in nodes ==> nodes[x].nodeId == x
    ensures |path| >= 1 && DepthIs(nodes, id, |path| - 1)
    ensures path[|path| - 1] == nodes[id] && path[0].parent.None?
    ensures forall j :: 0 <= j < |path| - 1 ==> path[j + 1].parent == Some(path[j].nodeId)
    ensures forall n :: n in path ==> Stored(nodes, n)
  {
    ghost var n: nat :| Up(nodes, id, n).None?;
    path := [];
    var current := Some(id);
    while current.Some?
      invariant current == Up(nodes, id, |path|)
      invariant ChainSoFar(nodes, id, path)
      decreases n - |path|
    {
      UpBefore(nodes, id, |path|, n);
      PathStep(nodes, id, path);
      path := [nodes[current.value]] + path;
      current := nodes[current.value].parent;
    }
    PathLinks(nodes, id, path);
  }

  /** The nodes of a chain listed from the top down: the chain has
      `|path| - 1` links, its top has no parent, each node is the parent of
      the next, and the last is the node itself. */
  lemma PathLinks(nodes: map<string, TreeNode>, id: string, path: seq<TreeNode>)
    requires ParentsStored(nodes) && id in nodes
    requires forall x :: x in nodes ==> nodes[x].nodeId == x
    requires Up(nodes, id, |path|).None?
    requires ChainSoFar(nodes, id, path)
    ensures |path| >= 1 && DepthIs(nodes, id, |path| - 1)
    ensures path[|path| - 1] == nodes[id] && path[0].parent.None?
    ensures forall j :: 0 <= j < |path| - 1 ==> path[j + 1].parent == Some(path[j].nodeId)
    ensures forall n :: n in path ==> Stored(nodes, n)
  {
    var m := |path|;
    assert m != 0;
    assert Up(nodes, id, m) == nodes[Up(nodes, id, m - 1).value].parent;
    assert Up(nodes, id, m - 1).Some? && path[m - 1 - (m - 1)] == nodes[Up(nodes, id, m - 1).value];
    assert Up(nodes, id, 0).Some? && path[m - 1 - 0] == nodes[Up(nodes, id, 0).value];
    forall j | 0 <= j < m - 1 ensures path[j + 1].parent == Some(path[j].nodeId) {
      var k := m - 1 - j;
      assert Up(nodes, id, k).Some? && path[m - 1 - k] == nodes[Up(nodes, id, k).value];
      assert Up(nodes, id, k - 1).Some? && path[m - 1 - (k - 1)] == nodes[Up(nodes, id, k - 1).value];
      assert Up(nodes, id, k) == nodes[Up(nodes, id, k - 1).value].parent;
    }
    forall x | x in path ensures Stored(nodes, x) {
      var i :| 0 <= i < m && path[i] == x;
      var j := m - 1 - i;
      assert Up(nodes, id, j).Some? && path[m - 1 - j] == nodes[Up(nodes, id, j).value];
    }
  }

  /** An ENT's activity is one of EU and AEP. */
  predicate KnownActivity(activity: Option<string>) {
    activity == Some("EU") || activity == Some("AEP")
  }

  /** What `validate_structure` reports. */
  datatype Issue =
    | EntWithoutActivity(entId: string, entName: string)
    | LotParentNotOrg(lotId: string, lotName: string)
    | LotWithoutEnt(lotId: string, lotName: string)
    | Cycle(nodeId: string)

  /** The message `validate_structure` appends for an issue. */
  function Message(issue: Issue): string {
    match issue
    case EntWithoutActivity(id, name) => "ENT " + id + " (" + name + ") n'a pas d'activité EU ou AEP"
    case LotParentNotOrg(id, name) => "LOT " + id + " (" + name + ") n'a pas d'ORG comme parent"
    case LotWithoutEnt(id, name) => "LOT " + id + " (" + name + ") n'a pas d'ENT enfant"
    case Cycle(id) => "Cycle détecté impliquant le nœud " + id
  }

  function Messages(issues: seq<Issue>): (r: seq<string>)
    ensures |r| == |issues| && forall i :: 0 <= i < |issues| ==> r[i] == Message(issues[i])
  {
    seq(|issues|, i requires 0 <= i < |issues| => Message(issues[i]))
  }

  lemma MessagesSnoc(issues: seq<Issue>, more: seq<Issue>)
    ensures Messages(issues + more) == Messages(issues) + Messages(more)
  {
  }

  /** The first check: each ENT whose activity is neither EU nor AEP. */
  function EntIssues(ents: seq<TreeNode>): (r: seq<Issue>)
    ensures forall x :: x in r ==> x.EntWithoutActivity?
    decreases |ents|
  {
    if ents == [] then []
    else
      var e := ents[|ents| - 1];
      EntIssues(ents[..|ents| - 1]) + if KnownActivity(e.activity) then [] else [EntWithoutActivity(e.nodeId, e.nodeName)]
  }

  /** The ENT check reports exactly the listed ENT nodes without a known activity. */
  lemma {:induction false} EntIssuesMembers(ents: seq<TreeNode>, id: string, name: string)
    ensures EntWithoutActivity(id, name) in EntIssues(ents) <==>
      exists e :: e in ents && !KnownActivity(e.activity) && e.nodeId == id && e.nodeName == name
    decreases |ents|
  {
    if ents != [] {
      var front := ents[..|ents| - 1];
      EntIssuesMembers(front, id, name);
      assert forall x :: x in ents <==> x in front || x == ents[|ents| - 1] by {
        assert ents == front + [ents[|ents| - 1]];
      }
    }
  }

  /** A stored node. */
  ghost predicate Stored(nodes: map<string, TreeNode>, n: TreeNode) {
    n.nodeId in nodes && nodes[n.nodeId] == n
  }

  /** The parent of `lot` is an ORG node. */
  predicate ParentIsOrg(nodes: map<string, TreeNode>, lot: TreeNode) {
    lot.parent.Some? && lot.parent.value in nodes && nodes[lot.parent.value].nodeType == "ORG"
  }

  /** The children of `lot` that are ENT nodes. */
  function EntChildren(nodes: map<string, TreeNode>, lot: TreeNode): (r: seq<TreeNode>)
    requires forall c :: c in lot.children ==> c in nodes
    ensures forall n :: n in r <==> n.nodeType == "ENT" && exists c :: c in lot.children && nodes[c] == n
  {
    var kids := Resolve(lot.children, nodes);
    FilterMembers(kids, IsType("ENT"));
    assert forall n :: n in kids <==> exists c :: c in lot.children && nodes[c] == n by {
      forall n | n in kids ensures exists c :: c in lot.children && nodes[c] == n {
        var i :| 0 <= i < |kids| && kids[i] == n;
        assert lot.children[i] in lot.children;
      }
      forall c | c in lot.children ensures nodes[c] in kids {
        var i :| 0 <= i < |lot.children| && lot.children[i] == c;
        assert kids[i] == nodes[c];
      }
    }
    Filter(kids, IsType("ENT"))
  }

  /** The second check: each LOT whose parent is not an ORG, and each LOT
      without an ENT child, in that order for each LOT. */
  function LotIssues(nodes: map<string, TreeNode>, lots: seq<TreeNode>): (r: seq<Issue>)
    requires forall l :: l in lots ==> forall c :: c in l.children ==> c in nodes
    ensures forall x :: x in r ==> x.LotParentNotOrg? || x.LotWithoutEnt?
    decreases |lots|
  {
    if lots == [] then []
    else LotIssues(nodes, lots[..|lots| - 1]) + LotReport(nodes, lots[|lots| - 1])
  }

  /** What the LOT check reports for one LOT. */
  function LotReport(nodes: map<string, TreeNode>, l: TreeNode): (r: seq<Issue>)
    requires forall c :: c in l.children ==> c in nodes
    ensures forall x :: x in r ==> x.LotParentNotOrg? || x.LotWithoutEnt?
  {
    (if ParentIsOrg(nodes, l) then [] else [LotParentNotOrg(l.nodeId, l.nodeName)])
      + (if |EntChildren(nodes, l)| == 0 then [LotWithoutEnt(l.nodeId, l.nodeName)] else [])
  }

  /** The members of a non-empty list: those of all but its last element, and the last. */
  lemma LastSplit<T>(s: seq<T>)
    requires s != []
    ensures forall x :: x in s <==> x in s[..|s| - 1] || x == s[|s| - 1]
  {
    assert s == s[..|s| - 1] + [s[|s| - 1]];
  }

  /** The LOT check reports as not under an ORG exactly the listed LOTs whose
      parent is not an ORG. */
  lemma {:induction false} LotParentMembers(nodes: map<string, TreeNode>, lots: seq<TreeNode>, id: string, name: string)
    requires forall l :: l in lots ==> forall c :: c in l.children ==> c in nodes
    ensures LotParentNotOrg(id, name) in LotIssues(nodes, lots) <==>
      exists l :: l in lots && !ParentIsOrg(nodes, l) && l.nodeId == id && l.nodeName == name
    decreases |lots|
  {
    if lots != [] {
      var front, last := lots[..|lots| - 1], lots[|lots| - 1];
      LotParentMembers(nodes, front, id, name);
      LastSplit(lots);
      assert LotIssues(nodes, lots) == LotIssues(nodes, front) + LotReport(nodes, last);
      if exists l :: l in lots && !ParentIsOrg(nodes, l) && l.nodeId == id && l.nodeName == name {
        var l :| l in lots && !ParentIsOrg(nodes, l) && l.nodeId == id && l.nodeName == name;
        if l != last {
          assert l in front;
        }
      }
    }
  }

  /** The LOT check reports as without ENT exactly the listed LOTs without an
      ENT child. */
  lemma {:induction false} LotEntMembers(nodes: map<string, TreeNode>, lots: seq<TreeNode>, id: string, name: string)
    requires forall l :: l in lots ==> forall c :: c in l.children ==> c in nodes
    ensures LotWithoutEnt(id, name) in LotIssues(nodes, lots) <==>
      exists l :: l in lots && EntChildren(nodes, l) == [] && l.nodeId == id && l.nodeName == name
    decreases |lots|
  {
    if lots != [] {
      var front, last := lots[..|lots| - 1], lots[|lots| - 1];
      LotEntMembers(nodes, front, id, name);
      LastSplit(lots);
      assert LotIssues(nodes, lots) == LotIssues(nodes, front) + LotReport(nodes, last);
      if exists l :: l in lots && EntChildren(nodes, l) == [] && l.nodeId == id && l.nodeName == name {
        var l :| l in lots && EntChildren(nodes, l) == [] && l.nodeId == id && l.nodeName == name;
        if l != last {
          assert l in front;
        }
      }
    }
  }

  /** The third check: for each key in dict order, the node met twice when
      walking up from it, if any. */
  function CycleIssues(nodes: map<string, TreeNode>, ids: seq<string>): (r: seq<Issue>)
    requires ParentsStored(nodes) && forall id :: id in ids ==> id in nodes
    ensures forall x :: x in r ==> x.Cycle?
    decreases |ids|
  {
    if ids == [] then []
    else
      var id := ids[|ids| - 1];
      CycleIssues(nodes, ids[..|ids| - 1]) + match Walk(nodes, Some(id), []) case None => [] case Some(c) => [Cycle(c)]
  }

  /** The cycle check reports `c` exactly when the walk up from some listed id meets `c` twice. */
  lemma {:induction false} CycleIssuesMembers(nodes: map<string, TreeNode>, ids: seq<string>, c: string)
    requires ParentsStored(nodes) && forall id :: id in ids ==> id in nodes
    ensures Cycle(c) in CycleIssues(nodes, ids) <==> exists id :: id in ids && Walk(nodes, Some(id), []) == Some(c)
    decreases |ids|
  {
    if ids != [] {
      var front := ids[..|ids| - 1];
      CycleIssuesMembers(nodes, front, c);
      assert forall x :: x in ids <==> x in front || x == ids[|ids| - 1] by {
        assert ids == front + [ids[|ids| - 1]];
      }
    }
  }

  /** Run over every ENT node, the ENT check reports exactly the ENT nodes
      whose activity is neither EU nor AEP. */
  lemma EntReportIff(nodes: map<string, TreeNode>, ents: seq<TreeNode>, id: string, name: string)
    requires forall x :: x in nodes ==> nodes[x].nodeId == x
    requires forall e :: e in ents ==> e.nodeType == "ENT" && e.nodeId in nodes && nodes[e.nodeId] == e
    requires forall x :: x in nodes && nodes[x].nodeType == "ENT" ==> nodes[x] in ents
    ensures EntWithoutActivity(id, name) in EntIssues(ents) <==>
      id in nodes && nodes[id].nodeType == "ENT" && nodes[id].nodeName == name && !KnownActivity(nodes[id].activity)
  {
    EntIssuesMembers(ents, id, name);
    if id in nodes && nodes[id].nodeType == "ENT" {
      assert nodes[id] in ents;
    }
  }

  /** Run over every LOT node, the LOT check reports as not under an ORG
      exactly the LOTs without a parent or whose parent is not an ORG. */
  lemma LotParentReportIff(nodes: map<string, TreeNode>, lots: seq<TreeNode>, id: string, name: string)
    requires Linkable(nodes) && ParentsStored(nodes)
    requires forall l :: l in lots ==> l.nodeType == "LOT" && l.nodeId in nodes && nodes[l.nodeId] == l
    requires forall x :: x in nodes && nodes[x].nodeType == "LOT" ==> nodes[x] in lots
    ensures LotParentNotOrg(id, name) in LotIssues(nodes, lots) <==>
      && id in nodes && nodes[id].nodeType == "LOT" && nodes[id].nodeName == name
      && (nodes[id].parent.None? || nodes[nodes[id].parent.value].nodeType != "ORG")
  {
    LotParentMembers(nodes, lots, id, name);
    if id in nodes && nodes[id].nodeType == "LOT" {
      assert nodes[id] in lots;
    }
  }

  /** Run over every LOT node, the LOT check reports as without ENT exactly
      the LOTs none of whose children is an ENT. */
  lemma LotEntReportIff(nodes: map<string, TreeNode>, lots: seq<TreeNode>, id: string, name: string)
    requires Linkable(nodes)
    requires forall l :: l in lots ==> l.nodeType == "LOT" && l.nodeId in nodes && nodes[l.nodeId] == l
    requires forall x :: x in nodes && nodes[x].nodeType == "LOT" ==> nodes[x] in lots
    ensures LotWithoutEnt(id, name) in LotIssues(nodes, lots) <==>
      && id in nodes && nodes[id].nodeType == "LOT" && nodes[id].nodeName == name
      && forall c :: c in nodes[id].children ==> nodes[c].nodeType != "ENT"
  {
    LotEntMembers(nodes, lots, id, name);
    if id in nodes && nodes[id].nodeType == "LOT" {
      assert nodes[id] in lots;
      var kids := EntChildren(nodes, nodes[id]);
      if kids != [] {
        assert kids[0] in kids;
      }
    }
  }

  /** Each node named by the cycle check is met again when going up from it. */
  lemma CycleReportOnCycle(nodes: map<string, TreeNode>, ids: seq<string>, c: string)
    requires ParentsStored(nodes) && forall id :: id in ids ==> id in nodes
    requires Cycle(c) in CycleIssues(nodes, ids)
    ensures c in nodes && OnCycle(nodes, c)
  {
    CycleIssuesMembers(nodes, ids, c);
    var id :| id in ids && Walk(nodes, Some(id), []) == Some(c);
    WalkUp(nodes, id, []);
  }

  /** Run over every key, the cycle check reports something exactly when the
      chain of parents above some node never ends. */
  lemma CycleReportIff(nodes: map<string, TreeNode>, ids: seq<string>)
    requires ParentsStored(nodes) && forall id :: id in nodes <==> id in ids
    ensures (exists c :: Cycle(c) in CycleIssues(nodes, ids)) <==> exists id :: id in nodes && !Terminates(nodes, id)
  {
    if exists c :: Cycle(c) in CycleIssues(nodes, ids) {
      var c :| Cycle(c) in CycleIssues(nodes, ids);
      CycleIssuesMembers(nodes, ids, c);
      var id :| id in ids && Walk(nodes, Some(id), []) == Some(c);
      WalkUp(nodes, id, []);
    }
    if exists id :: id in nodes && !Terminates(nodes, id) {
      var id :| id in nodes && !Terminates(nodes, id);
      WalkUp(nodes, id, []);
      var c := Walk(nodes, Some(id), []).value;
      CycleIssuesMembers(nodes, ids, c);
    }
  }

  /** The first loop of `validate_structure`, over the ENT nodes. */
  method CheckEnts(ents: seq<TreeNode>) returns (errors: seq<string>)
    ensures errors == Messages(EntIssues(ents))
  {
    errors := [];
    for i := 0 to |ents|
      invariant errors == Messages(EntIssues(ents[..i]))
    {
      var ent := ents[i];
      assert ents[..i + 1][..i] == ents[..i];
      if !KnownActivity(ent.activity) {
        MessagesSnoc(EntIssues(ents[..i]), [EntWithoutActivity(ent.nodeId, ent.nodeName)]);
        errors := errors + [Message(EntWithoutActivity(ent.nodeId, ent.nodeName))];
      }
    }
    assert ents[..|ents|] == ents;
  }

  /** One turn of the second loop of `validate_structure`: the messages for
      a LOT whose parent is not an ORG and for a LOT without an ENT child. */
  method CheckLot(nodes: map<string, TreeNode>, lot: TreeNode) returns (found: seq<string>)
    requires forall c :: c in lot.children ==> c in nodes
    ensures found == Messages(LotReport(nodes, lot))
  {
    found := [];
    if lot.parent.None? || lot.parent.value !in nodes || nodes[lot.parent.value].nodeType != "ORG" {
      found := found + [Message(LotParentNotOrg(lot.nodeId, lot.nodeName))];
    }
    var entChildren := EntChildren(nodes, lot);
    if |entChildren| == 0 {
      found := found + [Message(LotWithoutEnt(lot.nodeId, lot.nodeName))];
    }
  }

  /** The second loop of `validate_structure`, over the LOT nodes. */
  method CheckLots(nodes: map<string, TreeNode>, lots: seq<TreeNode>) returns (errors: seq<string>)
    requires forall l :: l in lots ==> forall c :: c in l.children ==> c in nodes
    ensures errors == Messages(LotIssues(nodes, lots))
  {
    errors := [];
    for i := 0 to |lots|
      invariant errors == Messages(LotIssues(nodes, lots[..i]))
    {
      var lot := lots[i];
      ghost var prev := LotIssues(nodes, lots[..i]);
      assert lots[..i + 1][..i] == lots[..i];
      assert LotIssues(nodes, lots[..i + 1]) == prev + LotReport(nodes, lot);
      var found := CheckLot(nodes, lot);
      MessagesSnoc(prev, LotReport(nodes, lot));
      errors := errors + found;
    }
    assert lots[..|lots|] == lots;
  }

  /** The cycle check of `validate_structure` for one node: walks up from
      `id`, recording the ids passed, until the chain ends or an id comes
      round again. */
  method FindCycle(nodes: map<string, TreeNode>, id: string) returns (found: Option<string>)
    requires ParentsStored(nodes) && id in nodes
    ensures found == Walk(nodes, Some(id), [])
  {
    var path: seq<string> := [];
    var current := Some(id);
    found := None;
    while current.Some?
      invariant Distinct(path) && (forall x :: x in path ==> x in nodes) && (current.Some? ==> current.value in nodes)
      invariant Walk(nodes, current, path) == Walk(nodes, Some(id), []) && found.None?
      decreases |nodes.Keys| - |path|
    {
      if current.value in path {
        found := current;
        break;
      }
      DistinctBound(path + [current.value], nodes.Keys);
      path := path + [current.value];
      current := nodes[current.value].parent;
    }
  }

  /** The third loop of `validate_structure`: one walk up per key, in dict order. */
  method CheckCycles(nodes: map<string, TreeNode>, ids: seq<string>) returns (errors: seq<string>)
    requires ParentsStored(nodes) && forall id :: id in ids ==> id in nodes
    ensures errors == Messages(CycleIssues(nodes, ids))
  {
    errors := [];
    for i := 0 to |ids|
      invariant errors == Messages(CycleIssues(nodes, ids[..i]))
    {
      assert ids[..i + 1][..i] == ids[..i];
      var found := FindCycle(nodes, ids[i]);
      if found.Some? {
        MessagesSnoc(CycleIssues(nodes, ids[..i]), [Cycle(found.value)]);
        errors := errors + [Message(Cycle(found.value))];
      }
    }
    assert ids[..|ids|] == ids;
  }

  /** The organisation tree: the node dict (`order` lists its keys in
      insertion order) and the id of the root. */
  class OrganizationTree {
    var order: seq<string>
    var nodes: map<string, TreeNode>
    var root: Option<string>

    /** The tree as `_build_tree` leaves it. */
    ghost predicate Valid()
      reads this
    {
      WellFormed(Forest(order, nodes, root))
    }

    constructor ()
      ensures order == [] && nodes == map[] && root == None
    {
      order := [];
      nodes := map[];
      root := None;
    }

    /** `__init__` and `_build_tree`: registers one node per row, then links
        every node to its parent; on error, reports what `_build_tree`
        raises. */
    method BuildTree(rows: seq<NodeRow>) returns (err: Option<BuildError>)
      modifies this
      ensures err.Some? <==> Built(rows).Failure?
      ensures err.Some? ==> Built(rows) == Failure(err.value)
      ensures err.None? ==> Built(rows) == Success(Forest(order, nodes, root)) && Valid()
    {
      RegisterRows(rows);
      ghost var f0 := Registry(rows);
      err := LinkNodes(f0);
      if err.Some? {
        return;
      }
      if root.None? {
        return Some(NoRoot);
      }
      if nodes[root.value].nodeType != "ORG" {
        return Some(RootNotOrg(nodes[root.value].nodeType));
      }
      BuiltWellFormed(rows, Forest(order, nodes, root));
    }

    /** The first loop of `_build_tree`, on an empty dict. */
    method RegisterRows(rows: seq<NodeRow>)
      modifies this
      ensures Forest(order, nodes, root) == Registry(rows)
    {
      order := [];
      nodes := map[];
      root := None;
      for i := 0 to |rows|
        invariant (order, nodes) == Registered(rows[..i]) && root == None
      {
        var row := rows[i];
        assert rows[..i + 1][..i] == rows[..i];
        if row.nodeId !in nodes {
          order := order + [row.nodeId];
        }
        nodes := nodes[row.nodeId := Fresh(row)];
      }
      assert rows[..|rows|] == rows;
    }

    /** The second loop of `_build_tree`: links the nodes in dict order and
        stops at the first error. */
    method LinkNodes(ghost f0: Forest) returns (err: Option<BuildError>)
      requires Keyed(f0) && Forest(order, nodes, root) == f0
      modifies this
      ensures order == f0.order
      ensures err.Some? ==> Linked(f0, |f0.order|) == Failure(err.value)
      ensures err.None? ==> Linked(f0, |f0.order|) == Success(Forest(order, nodes, root))
    {
      var n := |order|;
      err := None;
      var i := 0;
      while i < n && err.None?
        invariant i <= n == |order| && order == f0.order
        invariant err.None? ==> Linked(f0, i) == Success(Forest(order, nodes, root))
        invariant err.Some? ==> Linked(f0, i) == Failure(err.value)
      {
        err := LinkNode(f0, i);
        i := i + 1;
      }
      if err.Some? {
        LinkedFailureSticks(f0, i, n, err.value);
      }
    }

    /** One turn of that loop, for the `i`-th key: a root entry becomes the
        root (a second one is an error); any other node is appended to its
        parent's children and points back to it (a missing parent is an error). */
    method LinkNode(ghost f0: Forest, i: nat) returns (err: Option<BuildError>)
      requires Keyed(f0) && i < |order| && order == f0.order
      requires Linked(f0, i) == Success(Forest(order, nodes, root))
      modifies this
      ensures order == f0.order
      ensures err.Some? ==> Linked(f0, i + 1) == Failure(err.value)
      ensures err.None? ==> Linked(f0, i + 1) == Success(Forest(order, nodes, root))
    {
      ghost var f := Forest(order, nodes, root);
      var id := order[i];
      LinkedNext(f0, i, f);
      var node := nodes[id];
      if IsRootEntry(node.parentId) {
        if root.Some? {
          return Some(MultipleRoots(root.value, id));
        }
        root := Some(id);
      } else {
        var pid := node.parentId.value;
        if pid !in nodes {
          return Some(MissingParent(pid, id));
        }
        nodes := nodes[pid := nodes[pid].(children := nodes[pid].children + [id])];
        nodes := nodes[id := nodes[id].(parent := Some(pid))];
      }
      err := None;
    }

    /** `get_node`: the node stored under `id`, if any. */
    function GetNode(id: string): (r: Option<TreeNode>)
      reads this
      requires Valid()
      ensures r.Some? <==> id in order
      ensures r.Some? ==> r.value.nodeId == id && r.value == nodes[id]
    {
      Get(nodes, id)
    }

    /** `get_org`: the root, an ORG node without a parent. */
    function GetOrg(): (r: TreeNode)
      reads this
      requires Valid()
      ensures r.nodeType == "ORG" && r.parent.None? && r.nodeId in nodes && nodes[r.nodeId] == r
    {
      nodes[root.value]
    }

    /** `get_lots` and `get_ents`: the nodes of type `typ`, in dict order. */
    function NodesOfType(typ: string): (r: seq<TreeNode>)
      reads this
      requires Valid()
      ensures forall n :: n in r ==> n.nodeType == typ && n.nodeId in nodes && nodes[n.nodeId] == n
      ensures forall id :: id in nodes && nodes[id].nodeType == typ ==> nodes[id] in r
    {
      var all := Resolve(order, nodes);
      FilterMembers(all, IsType(typ));
      ResolveAll(order, nodes);
      Filter(all, IsType(typ))
    }

    /** `has_lots`: some node is a LOT. */
    function HasLots(): (r: bool)
      reads this
      requires Valid()
      ensures r <==> exists id :: id in nodes && nodes[id].nodeType == "LOT"
    {
      var lots := NodesOfType("LOT");
      assert lots != [] ==> lots[0] in lots;
      |lots| > 0
    }

    /** `get_children`: the children of `id` (none for an unknown id), kept
        when of type `typ`. */
    function GetChildren(id: string, typ: Option<string>): (r: seq<TreeNode>)
      reads this
      requires Valid()
      ensures id !in nodes ==> r == []
      ensures id in nodes ==>
        && (forall n :: n in r ==> n.parent == Some(id) && OfType(n, typ) && n.nodeId in nodes && nodes[n.nodeId] == n)
        && (forall c :: c in nodes && nodes[c].parent == Some(id) && OfType(nodes[c], typ) ==> nodes[c] in r)
      ensures id in nodes ==> IdsOf(r) == Filter(order, ChildOfType(nodes, id, typ))
    {
      if id !in nodes then []
      else
        WellFormedLinkable(Forest(order, nodes, root));
        ChildrenKept(nodes, id, typ);
        ChildrenKeptInOrder(Forest(order, nodes, root), id, typ);
        Filter(Resolve(nodes[id].children, nodes), (n: TreeNode) => OfType(n, typ))
    }

    /** `id` is not stored, or lies on no cycle of parents: the recursion of
        `_collect_descendants` below it then ends. */
    ghost predicate Unlooped(id: string)
      reads this
    {
      ParentsStored(nodes) && (id in nodes ==> !OnCycle(nodes, id))
    }

    /** No node lies on a cycle of parents. */
    ghost predicate Acyclic()
      reads this
    {
      ParentsStored(nodes) && forall id {:trigger OnCycle(nodes, id)} :: id in nodes ==> !OnCycle(nodes, id)
    }

    /** `get_descendants`: what `_collect_descendants` gathers from the
        children of `id`, none for an unknown id. */
    function Descendants(id: string, typ: Option<string>): (r: seq<TreeNode>)
      reads this
      requires Valid() && Unlooped(id)
      ensures id !in nodes ==> r == []
    {
      WellFormedLinkable(Forest(order, nodes, root));
      if id !in nodes then [] else Below(nodes, nodes[id].children, typ, |order|)
    }

    /** `get_descendants` lists each stored node below `id` of type `typ`,
        and lists it once. */
    lemma DescendantsComplete(id: string, typ: Option<string>)
      requires Valid() && Unlooped(id)
      ensures Distinct(Descendants(id, typ))
      ensures forall n :: n in Descendants(id, typ) <==> Stored(nodes, n) && OfType(n, typ) && IsBelow(nodes, n.nodeId, id)
    {
      if id in nodes {
        TraversalComplete(Forest(order, nodes, root), id, typ);
      }
    }

    /** The tree has no cycle of parents exactly when `validate_structure`
        reports none. */
    lemma AcyclicIff()
      requires Valid()
      ensures Acyclic() <==> forall c :: Cycle(c) !in Issues()
    {
      CycleIssueIff();
      forall id | id in nodes && OnCycle(nodes, id) ensures !Terminates(nodes, id) {
        var k :| k > 0 && Up(nodes, id, k) == Some(id);
        forall n: nat ensures Up(nodes, id, n).Some? {
          CycleForever(nodes, id, 0, k, n);
        }
      }
      forall id | id in nodes && !Terminates(nodes, id) ensures exists c :: c in nodes && OnCycle(nodes, c) {
        assert Up(nodes, id, |nodes.Keys|).Some?;
        FarAboveOnCycle(nodes, id, |nodes.Keys|);
      }
    }

    /** `get_descendants` with a type is `get_descendants` without one,
        filtered by that type. */
    lemma DescendantsFiltered(id: string, t: string)
      requires Valid() && Unlooped(id)
      ensures Descendants(id, Some(t)) == Filter(Descendants(id, None), IsType(t))
    {
      if id in nodes {
        WellFormedLinkable(Forest(order, nodes, root));
        BelowFiltered(nodes, nodes[id].children, t, |order|);
      }
    }

    /** `_collect_descendants`: appends to `result` every node below `node`,
        child by child, each followed by the nodes below it. */
    method CollectDescendants(node: TreeNode, result: seq<TreeNode>, typ: Option<string>, fuel: nat)
      returns (out: seq<TreeNode>)
      requires Linkable(nodes) && forall c :: c in node.children ==> c in nodes
      ensures out == result + Below(nodes, node.children, typ, fuel)
      decreases fuel
    {
      out := result;
      if fuel == 0 {
        return;
      }
      for k := 0 to |node.children|
        invariant out == result + Below(nodes, node.children[..k], typ, fuel)
      {
        var child := nodes[node.children[k]];
        ghost var before := out;
        if typ.None? || child.nodeType == typ.value {
          out := out + [child];
        }
        out := CollectDescendants(child, out, typ, fuel - 1);
        CollectStep(nodes, node.children, k, result, before, out, typ, fuel);
      }
      assert node.children[..|node.children|] == node.children;
    }

    /** `get_descendants`. */
    method GetDescendants(id: string, typ: Option<string>) returns (r: seq<TreeNode>)
      requires Valid() && Unlooped(id)
      ensures r == Descendants(id, typ)
    {
      if id !in nodes {
        return [];
      }
      WellFormedLinkable(Forest(order, nodes, root));
      r := CollectDescendants(nodes[id], [], typ, |order|);
    }

    /** `get_ents_by_activity`: the ENT nodes below `pid` whose activity is `act`. */
    method GetEntsByActivity(pid: string, act: string) returns (r: seq<TreeNode>)
      requires Valid() && Unlooped(pid)
      ensures r == Filter(Descendants(pid, None), EntWith(act))
    {
      var ents := GetDescendants(pid, Some("ENT"));
      r := Filter(ents, HasActivity(act));
      DescendantsFiltered(pid, "ENT");
      FilterFilter(Descendants(pid, None), IsType("ENT"), HasActivity(act), EntWith(act));
    }

    /** `get_ent_ids_by_activity`: the ids of those nodes. */
    method GetEntIdsByActivity(pid: string, act: string) returns (r: seq<string>)
      requires Valid() && Unlooped(pid)
      ensures r == IdsOf(Filter(Descendants(pid, None), EntWith(act)))
      ensures Distinct(r)
      ensures forall id :: id in r <==>
        id in nodes && nodes[id].nodeType == "ENT" && nodes[id].activity == Some(act) && IsBelow(nodes, id, pid)
    {
      var ents := GetEntsByActivity(pid, act);
      r := IdsOf(ents);
      WellFormedLinkable(Forest(order, nodes, root));
      DescendantsComplete(pid, None);
      EntIdsOf(nodes, pid, Descendants(pid, None), act);
    }

    /** `get_lot_activities`: the activities, among EU and AEP, of the ENT
        nodes below `lotId`. */
    method GetLotActivities(lotId: string) returns (r: set<string>)
      requires Valid() && Unlooped(lotId)
      ensures forall a :: a in r <==>
        KnownActivity(Some(a)) && exists n :: n in Descendants(lotId, None) && n.nodeType == "ENT" && n.activity == Some(a)
      ensures forall a :: a in r <==>
        && KnownActivity(Some(a))
        && exists id :: id in nodes && nodes[id].nodeType == "ENT" && nodes[id].activity == Some(a) && IsBelow(nodes, id, lotId)
    {
      var ents := GetDescendants(lotId, Some("ENT"));
      r := set e | e in ents && KnownActivity(e.activity) :: e.activity.value;
      DescendantsFiltered(lotId, "ENT");
      ActivitiesOfEnts(Descendants(lotId, None), ents, r);
      DescendantsComplete(lotId, None);
      ActivitiesBelow(nodes, lotId, Descendants(lotId, None), r);
    }

    /** `get_org_activities`: the activities, among EU and AEP, of all ENT nodes. */
    function GetOrgActivities(): (r: set<string>)
      reads this
      requires Valid()
      ensures forall a :: a in r <==>
        KnownActivity(Some(a)) && exists id :: id in nodes && nodes[id].nodeType == "ENT" && nodes[id].activity == Some(a)
    {
      var ents := NodesOfType("ENT");
      set e | e in ents && KnownActivity(e.activity) :: e.activity.value
    }

    /** `TreeNode.get_depth` for the node `id`: the number of parent links
        above it. The loop runs for ever on a cycle of parents, hence the
        requirement that the chain above `id` ends. */
    method GetDepth(id: string) returns (depth: nat)
      requires Valid() && id in nodes
      requires ParentsStored(nodes) && Terminates(nodes, id)
      ensures DepthIs(nodes, id, depth)
    {
      ghost var n: nat :| Up(nodes, id, n).None?;
      depth := 0;
      var current := nodes[id].parent;
      while current.Some?
        invariant Up(nodes, id, depth).Some? && current == Up(nodes, id, depth + 1)
        decreases n - depth
      {
        UpBefore(nodes, id, depth + 1, n);
        depth := depth + 1;
        current := nodes[current.value].parent;
      }
    }

    /** The root is at depth 0. */
    lemma RootDepth()
      requires Valid()
      ensures ParentsStored(nodes) && DepthIs(nodes, root.value, 0)
    {
      WellFormedLinkable(Forest(order, nodes, root));
      assert Up(nodes, root.value, 1) == nodes[root.value].parent;
    }

    /** `TreeNode.get_path` for the node `id`: the nodes from the top of its
        chain of parents down to the node itself, each the parent of the next. */
    method GetPath(id: string) returns (path: seq<TreeNode>)
      requires Valid() && id in nodes
      requires ParentsStored(nodes) && Terminates(nodes, id)
      ensures |path| >= 1 && DepthIs(nodes, id, |path| - 1)
      ensures path[|path| - 1] == nodes[id] && path[0].parent.None?
      ensures forall j :: 0 <= j < |path| - 1 ==> path[j + 1].parent == Some(path[j].nodeId)
      ensures forall n :: n in path ==> Stored(nodes, n)
    {
      path := ChainOf(nodes, id);
    }

    /** What `validate_structure` reports, in order. */
    ghost function Issues(): seq<Issue>
      reads this
      requires Valid()
    {
      WellFormedLinkable(Forest(order, nodes, root));
      EntIssues(NodesOfType("ENT")) + LotIssues(nodes, NodesOfType("LOT")) + CycleIssues(nodes, order)
    }

    /** `validate_structure`: the messages for each ENT without a known
        activity, each LOT whose parent is not the ORG or that has no ENT
        child, and each cycle of parents met from some node. */
    method ValidateStructure() returns (errors: seq<string>)
      requires Valid()
      ensures errors == Messages(Issues())
    {
      WellFormedLinkable(Forest(order, nodes, root));
      var entErrors := CheckEnts(NodesOfType("ENT"));
      var lotErrors := CheckLots(nodes, NodesOfType("LOT"));
      var cycleErrors := CheckCycles(nodes, order);
      errors := entErrors + lotErrors + cycleErrors;
      MessagesSnoc(EntIssues(NodesOfType("ENT")), LotIssues(nodes, NodesOfType("LOT")));
      MessagesSnoc(EntIssues(NodesOfType("ENT")) + LotIssues(nodes, NodesOfType("LOT")), CycleIssues(nodes, order));
    }

    /** An ENT issue is reported for exactly the ENT nodes whose activity is
        neither EU nor AEP. */
    lemma EntIssueIff(id: string, name: string)
      requires Valid()
      ensures EntWithoutActivity(id, name) in Issues() <==>
        id in nodes && nodes[id].nodeType == "ENT" && nodes[id].nodeName == name && !KnownActivity(nodes[id].activity)
    {
      IssuesParts();
      EntReportIff(nodes, NodesOfType("ENT"), id, name);
    }

    /** A LOT is reported as not under the ORG exactly when it has no parent
        or its parent is not of type ORG. */
    lemma LotParentIssueIff(id: string, name: string)
      requires Valid()
      ensures LotParentNotOrg(id, name) in Issues() <==>
        && id in nodes && nodes[id].nodeType == "LOT" && nodes[id].nodeName == name
        && (nodes[id].parent.None? || nodes[nodes[id].parent.value].nodeType != "ORG")
    {
      IssuesParts();
      LotParentReportIff(nodes, NodesOfType("LOT"), id, name);
    }

    /** A LOT is reported as without ENT exactly when none of its children is an ENT. */
    lemma LotEntIssueIff(id: string, name: string)
      requires Valid()
      ensures LotWithoutEnt(id, name) in Issues() <==>
        && id in nodes && nodes[id].nodeType == "LOT" && nodes[id].nodeName == name
        && forall c :: c in nodes[id].children ==> nodes[c].nodeType != "ENT"
    {
      IssuesParts();
      LotEntReportIff(nodes, NodesOfType("LOT"), id, name);
    }

    /** A cycle is reported exactly when the chain of parents above some node
        never ends, that is, when `get_depth` would not return for some node. */
    lemma CycleIssueIff()
      requires Valid()
      ensures ParentsStored(nodes)
      ensures (exists c :: Cycle(c) in Issues()) <==> exists id :: id in nodes && !Terminates(nodes, id)
    {
      WellFormedLinkable(Forest(order, nodes, root));
      CycleReportIff(nodes, order);
      IssuesParts();
    }

    /** Each node named in a cycle report is met again when going up from it. */
    lemma CycleIssueOnCycle(c: string)
      requires Valid() && Cycle(c) in Issues()
      ensures ParentsStored(nodes) && c in nodes && OnCycle(nodes, c)
    {
      WellFormedLinkable(Forest(order, nodes, root));
      IssuesParts();
      CycleReportOnCycle(nodes, order, c);
    }

    /** The reports of `validate_structure` by kind: the cycle reports are
        those of the cycle check. */
    lemma IssuesParts()
      requires Valid()
      ensures Linkable(nodes) && ParentsStored(nodes)
      ensures forall id, name :: EntWithoutActivity(id, name) in Issues() <==> EntWithoutActivity(id, name) in EntIssues(NodesOfType("ENT"))
      ensures forall id, name :: LotParentNotOrg(id, name) in Issues() <==> LotParentNotOrg(id, name) in LotIssues(nodes, NodesOfType("LOT"))
      ensures forall id, name :: LotWithoutEnt(id, name) in Issues() <==> LotWithoutEnt(id, name) in LotIssues(nodes, NodesOfType("LOT"))
      ensures forall c :: Cycle(c) in Issues() <==> Cycle(c) in CycleIssues(nodes, order)
    {
      WellFormedLinkable(Forest(order, nodes, root));
      var a := EntIssues(NodesOfType("ENT"));
      var b := LotIssues(nodes, NodesOfType("LOT"));
      var c := CycleIssues(nodes, order);
      var all := Issues();
      assert all == a + b + c;
      forall id, name ensures EntWithoutActivity(id, name) in all <==> EntWithoutActivity(id, name) in a {
        assert EntWithoutActivity(id, name) !in b && EntWithoutActivity(id, name) !in c;
      }
      forall id, name ensures LotParentNotOrg(id, name) in all <==> LotParentNotOrg(id, name) in b {
        assert LotParentNotOrg(id, name) !in a && LotParentNotOrg(id, name) !in c;
      }
      forall id, name ensures LotWithoutEnt(id, name) in all <==> LotWithoutEnt(id, name) in b {
        assert LotWithoutEnt(id, name) !in a && LotWithoutEnt(id, name) !in c;
      }
      forall x ensures Cycle(x) in all <==> Cycle(x) in c {
        assert Cycle(x) !in a && Cycle(x) !in b;
      }
    }
  }
}
