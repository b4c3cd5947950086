/**
 * `Project.from_csv` of src/pyproject/plan.py, over records whose fields
 * are already decoded (dates and durations as day counts).
 *
 * The source builds Python objects and appends each one to its parent
 * object, which may already sit in the top-level list or inside another
 * object's children. The model keeps that object graph as an arena: the
 * object built for record j is entry j, `add_child` appends a position to
 * an entry's `children`, and the `data_dict` lookup is a map from
 * external id to position (a later record with the same id wins, as in a
 * dict assignment). `Assemble` turns the part of the arena an entry reaches
 * into a schedule tree, when that part holds no self-reference.
 */
module Builder {
  import opened Wrappers
  import opened Schedule

  /** One decoded import row. */
  datatype Record = Record(id: int, name: string, start: int, duration: int, margin: int,
                           parentId: int, isParent: bool, isMilestone: bool, isCritical: bool,
                           predecessors: seq<int>)

  /** The object built for one record: the node without children, and its children's positions. */
  datatype Entry = Entry(node: Node, children: seq<nat>)

  /** The object graph: one entry per record, in input order, and `data_list`. */
  datatype Arena = Arena(entries: seq<Entry>, top: seq<nat>)

  datatype BuildError =
    | UnresolvedParent(parentId: int)    // KeyError on `data_dict[parent_id]`
    | ParentNotCategory(parentId: int)   // AttributeError: only a Category has `add_child`

  /** The object built for a record: Category first, then Milestone, else Task. */
  function MakeNode(r: Record): (n: Node)
    ensures n.id == r.id && n.name == r.name && n.preds == Some(r.predecessors)
    ensures n.Category? <==> r.isParent
    ensures n.Milestone? <==> !r.isParent && r.isMilestone
    ensures n.Category? ==>
              n.overrideStart == Some(r.start) && n.overrideDuration == Some(r.duration) &&
              n.children == []
    ensures !n.Category? ==> n.start == r.start
    ensures n.Task? ==> n.duration == r.duration && n.margin == r.margin && n.critical == r.isCritical
  {
    if r.isParent then
      Category(r.id, r.name, Some(r.start), Some(r.duration), [], Some(r.predecessors))
    else if r.isMilestone then
      Milestone(r.id, r.name, r.start, Some(r.predecessors))
    else
      Task(r.id, r.name, r.start, r.duration, r.margin, r.isCritical, Some(r.predecessors))
  }

  /** `data_dict[id]` once the first n records are stored: the latest of them with that id. */
  function LastWithId(recs: seq<Record>, n: nat, id: int): (r: Option<nat>)
    requires n <= |recs|
    ensures r.Some? ==>
              r.value < n && recs[r.value].id == id &&
              forall j :: r.value < j < n ==> recs[j].id != id
    ensures r.None? ==> forall j :: 0 <= j < n ==> recs[j].id != id
  {
    if n == 0 then None
    else if recs[n - 1].id == id then Some(n - 1)
    else LastWithId(recs, n - 1, id)
  }

  /**
   * The entry a non-top-level record j is looked up under. Record j is
   * stored before the lookup, so it can find itself.
   */
  function ParentOf(recs: seq<Record>, j: nat): Option<nat>
    requires j < |recs|
  {
    LastWithId(recs, j + 1, recs[j].parentId)
  }

  /** What, if anything, goes wrong when record j is attached. */
  function Fault(recs: seq<Record>, j: nat): Option<BuildError>
    requires j < |recs|
  {
    if recs[j].parentId == 0 then None
    else match ParentOf(recs, j)
      case None => Some(UnresolvedParent(recs[j].parentId))
      case Some(p) =>
        if recs[p].isParent then None else Some(ParentNotCategory(recs[j].parentId))
  }

  /** Record j is a child of entry p. */
  predicate AttachedTo(recs: seq<Record>, j: nat, p: nat)
    requires j < |recs|
  {
    recs[j].parentId != 0 && ParentOf(recs, j) == Some(p)
  }

  /** Positions, in input order, of the first n records attached to entry p. */
  function ChildrenOf(recs: seq<Record>, n: nat, p: nat): seq<nat>
    requires n <= |recs|
  {
    if n == 0 then []
    else ChildrenOf(recs, n - 1, p) + (if AttachedTo(recs, n - 1, p) then [n - 1] else [])
  }

  /** Positions, in input order, of the first n records with parent id 0. */
  function TopLevel(recs: seq<Record>, n: nat): seq<nat>
    requires n <= |recs|
  {
    if n == 0 then []
    else TopLevel(recs, n - 1) + (if recs[n - 1].parentId == 0 then [n - 1] else [])
  }

  /** `data_dict` once the first n records are stored. */
  function Stored(recs: seq<Record>, n: nat): map<int, nat>
    requires n <= |recs|
  {
    if n == 0 then map[] else Stored(recs, n - 1)[recs[n - 1].id := n - 1]
  }

  /** The objects built for the first n records, with the children attached so far. */
  function Built(recs: seq<Record>, n: nat): (es: seq<Entry>)
    requires n <= |recs|
    ensures |es| == n
  {
    seq(n, p requires 0 <= p < n => Entry(MakeNode(recs[p]), ChildrenOf(recs, n, p)))
  }

  /** The object graph that importing all records describes. */
  function Expected(recs: seq<Record>): Arena
  {
    Arena(Built(recs, |recs|), TopLevel(recs, |recs|))
  }

  /**
   * `from_csv`'s loop. It fails on the first record whose parent id is
   * neither 0 nor stored yet, or names an object that is not a Category;
   * otherwise the object graph is the one described by `Expected`.
   */
  method FromCsv(recs: seq<Record>) returns (r: Result<Arena, BuildError>)
    ensures r.Failure? <==> exists j :: 0 <= j < |recs| && Fault(recs, j).Some?
    ensures r.Failure? ==>
              exists j :: 0 <= j < |recs| && Fault(recs, j) == Some(r.error) &&
                          forall i :: 0 <= i < j ==> Fault(recs, i).None?
    ensures r.Success? ==> r.value == Expected(recs)
  {
    var entries: seq<Entry> := [];
    var dataDict: map<int, nat> := map[];
    var dataList: seq<nat> := [];
    var i := 0;
    while i < |recs|
      invariant 0 <= i <= |recs|
      invariant forall j :: 0 <= j < i ==> Fault(recs, j).None?
      invariant entries == Built(recs, i)
      invariant dataDict == Stored(recs, i)
      invariant dataList == TopLevel(recs, i)
    {
      var rec := recs[i];
      entries := entries + [Entry(MakeNode(rec), [])];
      dataDict := dataDict[rec.id := i];
      if rec.parentId == 0 {
        dataList := dataList + [i];
        BuiltStep(recs, i);
      } else {
        assert dataDict == Stored(recs, i + 1);
        StoredIsLatest(recs, i + 1, rec.parentId);
        if rec.parentId !in dataDict {
          assert Fault(recs, i) == Some(UnresolvedParent(rec.parentId));
          FirstFault(recs, i);
          return Failure(UnresolvedParent(rec.parentId));
        }
        var p := dataDict[rec.parentId];
        assert ParentOf(recs, i) == Some(p);
        if !entries[p].node.Category? {
          assert Fault(recs, i) == Some(ParentNotCategory(rec.parentId));
          FirstFault(recs, i);
          return Failure(ParentNotCategory(rec.parentId));
        }
        BuiltStep(recs, i);
        entries := entries[p := entries[p].(children := entries[p].children + [i])];
      }
      i := i + 1;
    }
    return Success(Arena(entries, dataList));
  }

  /** The first record that faults decides the import's error. */
  lemma FirstFault(recs: seq<Record>, i: nat)
    requires i < |recs| && Fault(recs, i).Some?
    requires forall j :: 0 <= j < i ==> Fault(recs, j).None?
    ensures exists j :: 0 <= j < |recs| && Fault(recs, j).Some?
    ensures exists j :: 0 <= j < |recs| && Fault(recs, j) == Fault(recs, i) &&
                        forall k :: 0 <= k < j ==> Fault(recs, k).None?
  {
  }

  /** `Stored` maps each id to the latest record carrying it. */
  lemma {:induction false} StoredIsLatest(recs: seq<Record>, n: nat, id: int)
    requires n <= |recs|
    ensures id in Stored(recs, n) <==> LastWithId(recs, n, id).Some?
    ensures id in Stored(recs, n) ==> Stored(recs, n)[id] == LastWithId(recs, n, id).value
  {
    if n > 0 {
      StoredIsLatest(recs, n - 1, id);
    }
  }

  /** One loop step: add the new object, then append it to its parent's children. */
  lemma {:induction false} BuiltStep(recs: seq<Record>, n: nat)
    requires n < |recs| && Fault(recs, n).None?
    ensures recs[n].parentId == 0 ==>
              Built(recs, n + 1) == Built(recs, n) + [Entry(MakeNode(recs[n]), [])]
    ensures recs[n].parentId != 0 ==>
              ParentOf(recs, n).Some? &&
              var b := Built(recs, n) + [Entry(MakeNode(recs[n]), [])];
              var q := ParentOf(recs, n).value;
              Built(recs, n + 1) == b[q := b[q].(children := b[q].children + [n])]
  {
    NothingAttachedYet(recs, n, n);
    if recs[n].parentId == 0 {
      BuiltTopLevel(recs, n);
    } else {
      BuiltAttached(recs, n, ParentOf(recs, n).value);
    }
  }

  /** A top-level record adds its object and attaches nothing. */
  lemma BuiltTopLevel(recs: seq<Record>, n: nat)
    requires n < |recs| && recs[n].parentId == 0 && ChildrenOf(recs, n, n) == []
    ensures Built(recs, n + 1) == Built(recs, n) + [Entry(MakeNode(recs[n]), [])]
  {
    var b := Built(recs, n) + [Entry(MakeNode(recs[n]), [])];
    var next := Built(recs, n + 1);
    forall p | 0 <= p <= n
      ensures next[p] == b[p]
    {
      BuiltEntry(recs, n, p);
      BuiltBefore(recs, n, p);
      assert !AttachedTo(recs, n, p);
    }
  }

  /** A record found under entry q adds its object and extends q's children. */
  lemma BuiltAttached(recs: seq<Record>, n: nat, q: nat)
    requires n < |recs| && recs[n].parentId != 0 && ParentOf(recs, n) == Some(q)
    requires ChildrenOf(recs, n, n) == []
    ensures var b := Built(recs, n) + [Entry(MakeNode(recs[n]), [])];
            Built(recs, n + 1) == b[q := b[q].(children := b[q].children + [n])]
  {
    var b := Built(recs, n) + [Entry(MakeNode(recs[n]), [])];
    var expected := b[q := b[q].(children := b[q].children + [n])];
    var next := Built(recs, n + 1);
    forall p | 0 <= p <= n
      ensures next[p] == expected[p]
    {
      BuiltEntry(recs, n, p);
      BuiltBefore(recs, n, p);
      if p != q {
        assert !AttachedTo(recs, n, p);
      }
    }
  }

  /** Entry p once record n is added, before it is attached anywhere. */
  lemma BuiltBefore(recs: seq<Record>, n: nat, p: nat)
    requires p <= n < |recs| && ChildrenOf(recs, n, n) == []
    ensures (Built(recs, n) + [Entry(MakeNode(recs[n]), [])])[p] == Entry(MakeNode(recs[p]), ChildrenOf(recs, n, p))
  {
  }

  /** Entry p after n + 1 records: its children so far, and n if record n is attached to it. */
  lemma BuiltEntry(recs: seq<Record>, n: nat, p: nat)
    requires p <= n < |recs|
    ensures Built(recs, n + 1)[p] ==
            Entry(MakeNode(recs[p]), ChildrenOf(recs, n, p) + (if AttachedTo(recs, n, p) then [n] else []))
  {
  }

  /** No record before position n can be attached to an entry at position n or later. */
  lemma {:induction false} NothingAttachedYet(recs: seq<Record>, n: nat, p: nat)
    requires n <= |recs| && n <= p
    ensures ChildrenOf(recs, n, p) == []
  {
    if n > 0 {
      NothingAttachedYet(recs, n - 1, p);
    }
  }

  /*********************************************************************
   * Properties of the import
   *********************************************************************/

  lemma {:induction false} ChildrenOfMembers(recs: seq<Record>, n: nat, p: nat, j: nat)
    requires n <= |recs|
    ensures j in ChildrenOf(recs, n, p) <==> j < n && AttachedTo(recs, j, p)
  {
    if n > 0 {
      ChildrenOfMembers(recs, n - 1, p, j);
    }
  }

  lemma {:induction false} TopLevelMembers(recs: seq<Record>, n: nat, j: nat)
    requires n <= |recs|
    ensures j in TopLevel(recs, n) <==> j < n && recs[j].parentId == 0
  {
    if n > 0 {
      TopLevelMembers(recs, n - 1, j);
    }
  }

  /** Children are appended in input order: their positions strictly increase. */
  lemma {:induction false} ChildrenInInputOrder(recs: seq<Record>, n: nat, p: nat)
    requires n <= |recs|
    ensures forall a, b :: 0 <= a < b < |ChildrenOf(recs, n, p)| ==>
              ChildrenOf(recs, n, p)[a] < ChildrenOf(recs, n, p)[b]
  {
    if n > 0 {
      ChildrenInInputOrder(recs, n - 1, p);
      var prev := ChildrenOf(recs, n - 1, p);
      forall k | 0 <= k < |prev|
        ensures prev[k] < n - 1
      {
        ChildrenOfMembers(recs, n - 1, p, prev[k]);
      }
    }
  }

  /** Top-level records keep their input order too. */
  lemma {:induction false} TopLevelInInputOrder(recs: seq<Record>, n: nat)
    requires n <= |recs|
    ensures forall a, b :: 0 <= a < b < |TopLevel(recs, n)| ==> TopLevel(recs, n)[a] < TopLevel(recs, n)[b]
  {
    if n > 0 {
      TopLevelInInputOrder(recs, n - 1);
      var prev := TopLevel(recs, n - 1);
      forall k | 0 <= k < |prev|
        ensures prev[k] < n - 1
      {
        TopLevelMembers(recs, n - 1, prev[k]);
      }
    }
  }

  /**
   * A record is attached to an entry no later than itself, and to itself
   * exactly when its parent id is its own id.
   */
  lemma ParentNoLaterThanChild(recs: seq<Record>, j: nat)
    requires j < |recs| && ParentOf(recs, j).Some?
    ensures ParentOf(recs, j).value <= j
    ensures ParentOf(recs, j).value == j <==> recs[j].parentId == recs[j].id
  {
  }

  /**
   * A Category record whose parent id is its own id is accepted and becomes
   * its own child; the same record as a Task or Milestone fails.
   */
  lemma SelfParentIsOwnChild(recs: seq<Record>, i: nat)
    requires i < |recs| && recs[i].parentId == recs[i].id != 0
    ensures recs[i].isParent ==> Fault(recs, i).None? && i in ChildrenOf(recs, |recs|, i)
    ensures !recs[i].isParent ==> Fault(recs, i) == Some(ParentNotCategory(recs[i].id))
  {
    assert ParentOf(recs, i) == Some(i);
    ChildrenOfMembers(recs, |recs|, i, i);
  }

  /** Each record lands in exactly one place: the top level, or its parent's children. */
  lemma EachRecordPlacedOnce(recs: seq<Record>, j: nat)
    requires j < |recs| && forall i :: 0 <= i < |recs| ==> Fault(recs, i).None?
    ensures j in TopLevel(recs, |recs|) <==> recs[j].parentId == 0
    ensures recs[j].parentId != 0 ==> ParentOf(recs, j).Some?
    ensures forall p :: j in ChildrenOf(recs, |recs|, p) <==>
                        recs[j].parentId != 0 && p == ParentOf(recs, j).value
  {
    TopLevelMembers(recs, |recs|, j);
    assert Fault(recs, j).None?;
    forall p
      ensures j in ChildrenOf(recs, |recs|, p) <==>
              recs[j].parentId != 0 && p == ParentOf(recs, j).value
    {
      ChildrenOfMembers(recs, |recs|, p, j);
    }
  }

  /*********************************************************************
   * From the object graph to the schedule tree
   *********************************************************************/

  /**
   * Below entry p every child sits after its parent and is an entry: the
   * part of the object graph that p reaches is a finite tree. Entries that
   * p does not reach are not constrained.
   */
  predicate ForwardFrom(a: Arena, p: nat)
    decreases |a.entries| - p
  {
    p < |a.entries| &&
    forall k :: 0 <= k < |a.entries[p].children| ==>
      p < a.entries[p].children[k] < |a.entries| && ForwardFrom(a, a.entries[p].children[k])
  }

  /** Every object in `data_list` roots a finite tree. */
  predicate TopForward(a: Arena)
  {
    forall k :: 0 <= k < |a.top| ==> ForwardFrom(a, a.top[k])
  }

  /** The tree rooted at entry p: its node with the children's trees in order. */
  function Assemble(a: Arena, p: nat): (n: Node)
    requires ForwardFrom(a, p)
    ensures n.id == a.entries[p].node.id && n.name == a.entries[p].node.name
    ensures n.Type() == a.entries[p].node.Type()
    ensures !n.Category? ==> n == a.entries[p].node
    ensures n.Category? ==>
              n == a.entries[p].node.(children := n.children) &&
              |n.children| == |a.entries[p].children| &&
              forall k :: 0 <= k < |n.children| ==> n.children[k] == Assemble(a, a.entries[p].children[k])
    decreases |a.entries| - p
  {
    var e := a.entries[p];
    if e.node.Category? then
      e.node.(children := seq(|e.children|, k requires 0 <= k < |e.children| => Assemble(a, e.children[k])))
    else e.node
  }

  /** `cls(project_name, data_list)`: the top-level trees become the root's children. */
  function ToProject(name: string, a: Arena): (p: Project)
    requires TopForward(a)
    ensures p.name == name && p.root.Category? && p.root.id == 0 && p.root.name == "root"
    ensures |p.root.children| == |a.top|
    ensures forall k :: 0 <= k < |a.top| ==> p.root.children[k] == Assemble(a, a.top[k])
  {
    NewProject(name, Some(Nodes(a, a.top)))
  }

  /** The trees at a list of positions. */
  function Nodes(a: Arena, qs: seq<nat>): seq<Node>
    requires forall k :: 0 <= k < |qs| ==> ForwardFrom(a, qs[k])
  {
    seq(|qs|, k requires 0 <= k < |qs| => Assemble(a, qs[k]))
  }

  /** A record is never attached to a later record, nor to itself unless its parent id is its own id. */
  lemma {:induction false} ForwardUnlessSelfAttached(recs: seq<Record>, p: nat)
    requires p < |recs| && !AttachedTo(recs, p, p)
    ensures ForwardFrom(Expected(recs), p)
    decreases |recs| - p
  {
    var a := Expected(recs);
    forall k | 0 <= k < |a.entries[p].children|
      ensures p < a.entries[p].children[k] < |a.entries| && ForwardFrom(a, a.entries[p].children[k])
    {
      var c := a.entries[p].children[k];
      ChildrenOfMembers(recs, |recs|, p, c);
      ParentNoLaterThanChild(recs, c);
      ForwardUnlessSelfAttached(recs, c);
    }
  }

  /** Whatever the input, every top-level object of the import roots a finite tree. */
  lemma ImportTopForward(recs: seq<Record>)
    ensures TopForward(Expected(recs))
  {
    var a := Expected(recs);
    forall k | 0 <= k < |a.top|
      ensures ForwardFrom(a, a.top[k])
    {
      TopLevelMembers(recs, |recs|, a.top[k]);
      ForwardUnlessSelfAttached(recs, a.top[k]);
    }
  }

  /** Without self-parented records, every object of the import roots a finite tree. */
  lemma ImportIsForest(recs: seq<Record>)
    requires forall i :: 0 <= i < |recs| ==> recs[i].parentId == 0 || recs[i].parentId != recs[i].id
    ensures forall p :: 0 <= p < |recs| ==> ForwardFrom(Expected(recs), p)
  {
    forall p | 0 <= p < |recs|
      ensures ForwardFrom(Expected(recs), p)
    {
      if AttachedTo(recs, p, p) {
        ParentNoLaterThanChild(recs, p);
      }
      ForwardUnlessSelfAttached(recs, p);
    }
  }

  /** An entry whose tree is finite is not its own child. */
  lemma ForwardNotSelfAttached(recs: seq<Record>, q: nat)
    requires q < |recs| && ForwardFrom(Expected(recs), q)
    ensures !AttachedTo(recs, q, q)
  {
    if AttachedTo(recs, q, q) {
      var cs := Expected(recs).entries[q].children;
      assert cs == ChildrenOf(recs, |recs|, q);
      ChildrenOfMembers(recs, |recs|, q, q);
    }
  }

  /*********************************************************************
   * Which objects the project's rows are
   *********************************************************************/

  /** Positions of the objects in `get_list` of entry p's tree, in order. */
  function SubtreePositions(a: Arena, p: nat): (qs: seq<nat>)
    requires ForwardFrom(a, p)
    ensures forall k :: 0 <= k < |qs| ==> p < qs[k] && ForwardFrom(a, qs[k])
    decreases |a.entries| - p, 1
  {
    if a.entries[p].node.Category? then FlattenPositions(a, p, a.entries[p].children) else []
  }

  /** Positions of `get_list` over the trees at cs: each one, then the positions below it. */
  function FlattenPositions(a: Arena, lo: int, cs: seq<nat>): (qs: seq<nat>)
    requires forall k :: 0 <= k < |cs| ==> lo < cs[k] && ForwardFrom(a, cs[k])
    ensures forall k :: 0 <= k < |qs| ==> lo < qs[k] && ForwardFrom(a, qs[k])
    decreases |a.entries| - lo, 0, |cs|
  {
    if cs == [] then [] else [cs[0]] + SubtreePositions(a, cs[0]) + FlattenPositions(a, lo, cs[1..])
  }

  /** Positions of the rows of the project's `get_list`. */
  function ProjectPositions(a: Arena): seq<nat>
    requires TopForward(a)
  {
    FlattenPositions(a, -1, a.top)
  }

  lemma NodesAppend(a: Arena, xs: seq<nat>, ys: seq<nat>)
    requires forall k :: 0 <= k < |xs| ==> ForwardFrom(a, xs[k])
    requires forall k :: 0 <= k < |ys| ==> ForwardFrom(a, ys[k])
    ensures Nodes(a, xs + ys) == Nodes(a, xs) + Nodes(a, ys)
  {
  }

  /** `get_list` of entry p's tree lists the trees at `SubtreePositions`. */
  lemma {:induction false} SubtreeAtPositions(a: Arena, p: nat)
    requires ForwardFrom(a, p)
    ensures Subtree(Assemble(a, p)) == Nodes(a, SubtreePositions(a, p))
    decreases |a.entries| - p, 1
  {
    var n := Assemble(a, p);
    if n.Category? {
      assert n.children == Nodes(a, a.entries[p].children);
      FlattenAtPositions(a, p, a.entries[p].children);
    }
  }

  lemma {:induction false} FlattenAtPositions(a: Arena, lo: int, cs: seq<nat>)
    requires forall k :: 0 <= k < |cs| ==> lo < cs[k] && ForwardFrom(a, cs[k])
    ensures Flatten(Nodes(a, cs)) == Nodes(a, FlattenPositions(a, lo, cs))
    decreases |a.entries| - lo, 0, |cs|
  {
    if cs != [] {
      var head := [cs[0]] + SubtreePositions(a, cs[0]);
      var rest := FlattenPositions(a, lo, cs[1..]);
      FlattenNodesCons(a, cs);
      SubtreeAtPositions(a, cs[0]);
      FlattenAtPositions(a, lo, cs[1..]);
      NodesAppend(a, [cs[0]], SubtreePositions(a, cs[0]));
      NodesAppend(a, head, rest);
    }
  }

  lemma FlattenNodesCons(a: Arena, cs: seq<nat>)
    requires cs != [] && forall k :: 0 <= k < |cs| ==> ForwardFrom(a, cs[k])
    ensures Flatten(Nodes(a, cs)) ==
            Nodes(a, [cs[0]]) + Subtree(Assemble(a, cs[0])) + Flatten(Nodes(a, cs[1..]))
  {
    var ns := Nodes(a, cs);
    assert ns[1..] == Nodes(a, cs[1..]);
  }

  /** The rows of the project's `get_list` are the trees at `ProjectPositions`, in that order. */
  lemma ProjectRows(name: string, a: Arena)
    requires TopForward(a)
    ensures GetList(ToProject(name, a).root) == Nodes(a, ProjectPositions(a))
  {
    assert ToProject(name, a).root.children == Nodes(a, a.top);
    FlattenAtPositions(a, -1, a.top);
  }

  /** Every position below an entry of the import was attached to an entry at or below it. */
  lemma {:induction false} SubtreePositionsParents(recs: seq<Record>, p: nat, q: nat)
    requires ForwardFrom(Expected(recs), p) && q in SubtreePositions(Expected(recs), p)
    ensures q < |recs| && recs[q].parentId != 0 && ParentOf(recs, q).Some?
    ensures ParentOf(recs, q).value == p || ParentOf(recs, q).value in SubtreePositions(Expected(recs), p)
    decreases |recs| - p, 1
  {
    var a := Expected(recs);
    FlattenPositionsParents(recs, p, a.entries[p].children, q);
    if q in a.entries[p].children {
      ChildrenOfMembers(recs, |recs|, p, q);
    }
  }

  lemma {:induction false} FlattenPositionsParents(recs: seq<Record>, lo: int, cs: seq<nat>, q: nat)
    requires forall k :: 0 <= k < |cs| ==> lo < cs[k] && ForwardFrom(Expected(recs), cs[k])
    requires q in FlattenPositions(Expected(recs), lo, cs)
    ensures q < |recs|
    ensures q in cs ||
            (recs[q].parentId != 0 && ParentOf(recs, q).Some? &&
             ParentOf(recs, q).value in FlattenPositions(Expected(recs), lo, cs))
    decreases |recs| - lo, 0, |cs|
  {
    var a := Expected(recs);
    if q != cs[0] {
      if q in SubtreePositions(a, cs[0]) {
        SubtreePositionsParents(recs, cs[0], q);
      } else {
        FlattenPositionsParents(recs, lo, cs[1..], q);
      }
    }
  }

  /** A child of a Category at a listed position is listed too. */
  lemma {:induction false} FlattenPositionsClosed(a: Arena, lo: int, cs: seq<nat>, p: nat, c: nat)
    requires forall k :: 0 <= k < |cs| ==> lo < cs[k] && ForwardFrom(a, cs[k])
    requires p in FlattenPositions(a, lo, cs)
    requires a.entries[p].node.Category? && c in a.entries[p].children
    ensures c in FlattenPositions(a, lo, cs)
    decreases |a.entries| - lo, 0, |cs|
  {
    if p == cs[0] {
      FlattenPositionsHas(a, p, a.entries[p].children, c);
    } else if p in SubtreePositions(a, cs[0]) {
      SubtreePositionsClosed(a, cs[0], p, c);
    } else {
      FlattenPositionsClosed(a, lo, cs[1..], p, c);
    }
  }

  lemma {:induction false} SubtreePositionsClosed(a: Arena, r: nat, p: nat, c: nat)
    requires ForwardFrom(a, r) && p in SubtreePositions(a, r)
    requires a.entries[p].node.Category? && c in a.entries[p].children
    ensures c in SubtreePositions(a, r)
    decreases |a.entries| - r, 1
  {
    FlattenPositionsClosed(a, r, a.entries[r].children, p, c);
  }

  lemma {:induction false} FlattenPositionsHas(a: Arena, lo: int, cs: seq<nat>, c: nat)
    requires forall k :: 0 <= k < |cs| ==> lo < cs[k] && ForwardFrom(a, cs[k])
    requires c in cs
    ensures c in FlattenPositions(a, lo, cs)
    decreases |cs|
  {
    if c != cs[0] {
      FlattenPositionsHas(a, lo, cs[1..], c);
    }
  }

  /** Record q reaches the top level through its chain of parent ids. */
  predicate Rooted(recs: seq<Record>, q: nat)
    requires q < |recs|
    decreases q
  {
    recs[q].parentId == 0 ||
    (ParentOf(recs, q).Some? && ParentOf(recs, q).value < q && Rooted(recs, ParentOf(recs, q).value))
  }

  /** Record q's chain of parent ids passes through record i. */
  predicate HangsUnder(recs: seq<Record>, q: nat, i: nat)
    requires q < |recs|
    decreases q
  {
    q == i ||
    (recs[q].parentId != 0 && ParentOf(recs, q).Some? && ParentOf(recs, q).value < q &&
     HangsUnder(recs, ParentOf(recs, q).value, i))
  }

  /**
   * The rows of an imported project: a record's object is a row of the
   * root's `get_list` exactly when its chain of parent ids reaches the top
   * level.
   */
  lemma {:induction false} ImportedRows(recs: seq<Record>, q: nat)
    requires forall i :: 0 <= i < |recs| ==> Fault(recs, i).None?
    requires q < |recs|
    ensures TopForward(Expected(recs))
    ensures q in ProjectPositions(Expected(recs)) <==> Rooted(recs, q)
    decreases q
  {
    ImportTopForward(recs);
    var a := Expected(recs);
    if recs[q].parentId == 0 {
      TopLevelMembers(recs, |recs|, q);
      FlattenPositionsHas(a, -1, a.top, q);
    } else {
      assert Fault(recs, q).None?;
      ParentNoLaterThanChild(recs, q);
      var p := ParentOf(recs, q).value;
      if q in ProjectPositions(a) {
        FlattenPositionsParents(recs, -1, a.top, q);
        TopLevelMembers(recs, |recs|, q);
        ForwardNotSelfAttached(recs, q);
        ImportedRows(recs, p);
      } else if Rooted(recs, q) {
        ImportedRows(recs, p);
        assert a.entries[p].node.Category?;
        ChildrenOfMembers(recs, |recs|, p, q);
        FlattenPositionsClosed(a, -1, a.top, p, q);
      }
    }
  }

  /**
   * A record whose parent id is its own id, and every record hanging under
   * it, is not a row of the imported project: `data_list` never reaches it.
   */
  lemma {:induction false} SelfParentedLeftOut(recs: seq<Record>, i: nat, q: nat)
    requires i < |recs| && AttachedTo(recs, i, i)
    requires q < |recs| && HangsUnder(recs, q, i)
    ensures TopForward(Expected(recs))
    ensures q !in ProjectPositions(Expected(recs))
    decreases q
  {
    ImportTopForward(recs);
    var a := Expected(recs);
    if q in ProjectPositions(a) {
      FlattenPositionsParents(recs, -1, a.top, q);
      if q == i {
        ForwardNotSelfAttached(recs, q);
      } else if q in a.top {
        TopLevelMembers(recs, |recs|, q);
      } else {
        SelfParentedLeftOut(recs, i, ParentOf(recs, q).value);
      }
    }
  }

  /**
   * Every imported Category carries its record's start and duration as an
   * override, so its bounds are that interval whatever its children are.
   */
  lemma ImportedCategoryBounds(recs: seq<Record>, p: nat)
    requires p < |recs| && ForwardFrom(Expected(recs), p) && recs[p].isParent
    ensures Assemble(Expected(recs), p).Category?
    ensures Bounds(Assemble(Expected(recs), p)) ==
            Success((recs[p].start, recs[p].start + recs[p].duration))
  {
  }

  /**
   * A Category record followed by two Task records under it: the Category
   * gets both Tasks as children, in input order, and its bounds are its own
   * record's start and duration, not the span of the two Tasks.
   */
  lemma CategoryWithTwoTasks(c: Record, t1: Record, t2: Record)
    requires c.id == 1 && c.parentId == 0 && c.isParent
    requires t1.id == 2 && t1.parentId == 1 && !t1.isParent && !t1.isMilestone
    requires t2.id == 3 && t2.parentId == 1 && !t2.isParent && !t2.isMilestone
    ensures TopForward(Expected([c, t1, t2])) && ForwardFrom(Expected([c, t1, t2]), 0)
    ensures Expected([c, t1, t2]).top == [0]
    ensures Expected([c, t1, t2]).entries[0].children == [1, 2]
    ensures Bounds(Assemble(Expected([c, t1, t2]), 0)) == Success((c.start, c.start + c.duration))
  {
    var recs := [c, t1, t2];
    assert recs[0].id == 1 && recs[1].id == 2 && recs[2].id == 3;
    assert LastWithId(recs, 1, 1) == Some(0);
    assert LastWithId(recs, 2, 1) == Some(0);
    assert LastWithId(recs, 3, 1) == Some(0);
    assert ParentOf(recs, 1) == Some(0) && ParentOf(recs, 2) == Some(0);
    forall i | 0 <= i < 3
      ensures Fault(recs, i).None?
    {
    }
    ImportIsForest(recs);
    assert recs[0].parentId == 0 && recs[1].parentId == 1 && recs[2].parentId == 1;
    assert TopLevel(recs, 1) == [0];
    assert TopLevel(recs, 2) == [0];
    assert TopLevel(recs, 3) == [0];
    assert !AttachedTo(recs, 0, 0);
    assert AttachedTo(recs, 1, 0);
    assert AttachedTo(recs, 2, 0);
    assert ChildrenOf(recs, 1, 0) == [];
    assert ChildrenOf(recs, 2, 0) == [1];
    assert ChildrenOf(recs, 3, 0) == [1, 2];
    ImportedCategoryBounds(recs, 0);
  }

  /**
   * A Category, then a Category whose parent id is its own id, then a Task
   * under that second Category: the import succeeds, and the project's
   * `get_list` holds only the first Category.
   */
  lemma SelfParentedCategoryExample(c: Record, s: Record, t: Record)
    requires c.id == 1 && c.parentId == 0 && c.isParent
    requires s.id == 2 && s.parentId == 2 && s.isParent
    requires t.id == 3 && t.parentId == 2 && !t.isParent
    ensures forall i :: 0 <= i < 3 ==> Fault([c, s, t], i).None?
    ensures TopForward(Expected([c, s, t]))
    ensures ProjectPositions(Expected([c, s, t])) == [0]
  {
    var recs := [c, s, t];
    assert recs[0].id == 1 && recs[1].id == 2 && recs[2].id == 3;
    assert LastWithId(recs, 2, 2) == Some(1);
    assert LastWithId(recs, 3, 2) == Some(1);
    assert ParentOf(recs, 1) == Some(1) && ParentOf(recs, 2) == Some(1);
    forall i | 0 <= i < 3
      ensures Fault(recs, i).None?
    {
    }
    ImportTopForward(recs);
    var a := Expected(recs);
    assert TopLevel(recs, 1) == [0];
    assert TopLevel(recs, 2) == [0];
    assert TopLevel(recs, 3) == [0];
    assert !AttachedTo(recs, 0, 0);
    assert ChildrenOf(recs, 1, 0) == [];
    assert !AttachedTo(recs, 1, 0);
    assert ChildrenOf(recs, 2, 0) == [];
    assert !AttachedTo(recs, 2, 0);
    assert ChildrenOf(recs, 3, 0) == [];
    assert a.entries[0].children == [];
    assert SubtreePositions(a, 0) == [];
    assert FlattenPositions(a, -1, a.top[1..]) == [];
  }
}
