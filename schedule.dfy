/**
 * The schedule tree of src/pyproject/plan.py.
 *
 * A node is a Category (ordered children, an optional start/duration
 * override), a Task or a Milestone. Dates and durations are whole day
 * counts. `preds` stands for the `predecessors` attribute, which the source
 * assigns only while importing records: it is `None` on a node built any
 * other way.
 */
module Schedule {
  import opened Wrappers
  import opened Values

  datatype Node =
    | Category(id: int, name: string, overrideStart: Option<int>, overrideDuration: Option<int>,
               children: seq<Node>, preds: Option<seq<int>>)
    | Task(id: int, name: string, start: int, duration: int, margin: int, critical: bool,
           preds: Option<seq<int>>)
    | Milestone(id: int, name: string, start: int, preds: Option<seq<int>>)
  {
    /** The fixed structural tag of the node. */
    function Type(): (t: PlanObjectType)
      ensures t == CategoryType <==> Category?
      ensures t == TaskType <==> Task?
      ensures t == MilestoneType <==> Milestone?
    {
      match this
      case Category(_, _, _, _, _, _) => CategoryType
      case Task(_, _, _, _, _, _, _) => TaskType
      case Milestone(_, _, _, _) => MilestoneType
    }

    /** Both override values are present, so aggregation is bypassed. */
    predicate HasOverride()
      requires Category?
    {
      overrideStart.Some? && overrideDuration.Some?
    }
  }

  /** `min([])` raised inside `get_time_bounds`. */
  datatype BoundsError = EmptyCategoryBounds

  function Min(a: int, b: int): int { if a <= b then a else b }
  function Max(a: int, b: int): int { if a <= b then b else a }

  /**
   * The `[start, end]` a node contributes to its parent's aggregation:
   * a Task its start and start + duration, a Milestone its start twice,
   * a Category its own (possibly failing) time bounds.
   */
  function Interval(n: Node): Result<(int, int), BoundsError>
    decreases n, 1
  {
    match n
    case Task(_, _, s, d, _, _, _) => Success((s, s + d))
    case Milestone(_, _, s, _) => Success((s, s))
    case Category(_, _, _, _, _, _) => Bounds(n)
  }

  /** `Category.get_time_bounds`. */
  function Bounds(c: Node): Result<(int, int), BoundsError>
    requires c.Category?
    decreases c, 0
  {
    if c.HasOverride() then
      Success((c.overrideStart.value, c.overrideStart.value + c.overrideDuration.value))
    else
      Aggregate(c.children)
  }

  /** Minimum of the children's starts and maximum of their ends. */
  function Aggregate(cs: seq<Node>): Result<(int, int), BoundsError>
    decreases cs, 2
  {
    if cs == [] then Failure(EmptyCategoryBounds)
    else
      match Interval(cs[0])
      case Failure(e) => Failure(e)
      case Success(first) =>
        if |cs| == 1 then Success(first)
        else
          match Aggregate(cs[1..])
          case Failure(e) => Failure(e)
          case Success(rest) => Success((Min(first.0, rest.0), Max(first.1, rest.1)))
  }

  /** The `start` attribute or property. */
  function Start(n: Node): (r: Result<int, BoundsError>)
    ensures !n.Category? ==> r == Success(n.start)
    ensures n.Category? ==> (r.Success? <==> Bounds(n).Success?)
    ensures r.Success? ==> r.value == Interval(n).value.0
  {
    match Interval(n)
    case Success(iv) => Success(iv.0)
    case Failure(e) => Failure(e)
  }

  /** The `end` property: a Task ends after its duration, a Milestone where it starts. */
  function End(n: Node): (r: Result<int, BoundsError>)
    ensures n.Task? ==> r == Success(n.start + n.duration)
    ensures n.Milestone? ==> r == Success(n.start)
    ensures n.Category? ==> (r.Success? <==> Bounds(n).Success?)
    ensures r.Success? ==> r.value == Interval(n).value.1
  {
    match Interval(n)
    case Success(iv) => Success(iv.1)
    case Failure(e) => Failure(e)
  }

  /** `Category.add_child`: append at the end of `children`. */
  function AddChild(c: Node, child: Node): (r: Node)
    requires c.Category?
    ensures r.Category? && |r.children| == |c.children| + 1
    ensures r.children[..|c.children|] == c.children && r.children[|c.children|] == child
    ensures r.id == c.id && r.name == c.name && r.preds == c.preds
    ensures r.overrideStart == c.overrideStart && r.overrideDuration == c.overrideDuration
  {
    c.(children := c.children + [child])
  }

  /*********************************************************************
   * get_list: pre-order flattening
   *********************************************************************/

  /** The rows a child contributes after itself: its descendants if it is a Category. */
  function Subtree(n: Node): seq<Node>
    decreases n, 1
  {
    if n.Category? then Flatten(n.children) else []
  }

  /** Each child, then its own descendants, then the next sibling. */
  function Flatten(cs: seq<Node>): seq<Node>
    decreases cs, 0
  {
    if cs == [] then [] else [cs[0]] + Subtree(cs[0]) + Flatten(cs[1..])
  }

  /** `Category.get_list`: every descendant, not the Category itself. */
  function GetList(c: Node): seq<Node>
    requires c.Category?
  {
    Flatten(c.children)
  }

  /** The proper descendants of a node, defined through the child relation alone. */
  ghost predicate IsDescendant(x: Node, n: Node)
    decreases n
  {
    n.Category? &&
    exists k :: 0 <= k < |n.children| && (n.children[k] == x || IsDescendant(x, n.children[k]))
  }

  /** Number of nodes in a subtree, the node itself included. */
  function Size(n: Node): nat
    decreases n, 1
  {
    if n.Category? then 1 + SizeAll(n.children) else 1
  }

  function SizeAll(cs: seq<Node>): nat
    decreases cs, 0
  {
    if cs == [] then 0 else Size(cs[0]) + SizeAll(cs[1..])
  }

  lemma {:induction false} FlattenAppend(a: seq<Node>, b: seq<Node>)
    ensures Flatten(a + b) == Flatten(a) + Flatten(b)
    decreases a
  {
    if a == [] {
      assert a + b == b;
    } else {
      assert (a + b)[1..] == a[1..] + b;
      FlattenAppend(a[1..], b);
    }
  }

  /** Appending a child appends that child and then its descendants to the rows. */
  lemma AddChildExtendsList(c: Node, child: Node)
    requires c.Category?
    ensures GetList(AddChild(c, child)) == GetList(c) + [child] + Subtree(child)
  {
    FlattenAppend(c.children, [child]);
    assert Flatten([child]) == [child] + Subtree(child) + Flatten([]);
  }

  /**
   * Pre-order: the k-th child comes right after the rows of its earlier
   * siblings, followed immediately by its own descendants, then by the rows
   * of its later siblings.
   */
  lemma {:induction false} ChildPrecedesItsSubtree(cs: seq<Node>, k: nat)
    requires k < |cs|
    ensures Flatten(cs) == Flatten(cs[..k]) + [cs[k]] + Subtree(cs[k]) + Flatten(cs[k + 1..])
  {
    var pre, post := cs[..k], cs[k..];
    assert cs == pre + post;
    FlattenAppend(pre, post);
    assert post[0] == cs[k] && post[1..] == cs[k + 1..];
    assert Flatten(post) == [cs[k]] + Subtree(cs[k]) + Flatten(cs[k + 1..]);
  }

  lemma {:induction false} FlattenLength(cs: seq<Node>)
    ensures |Flatten(cs)| == SizeAll(cs)
    decreases cs
  {
    if cs != [] {
      if cs[0].Category? {
        FlattenLength(cs[0].children);
      }
      FlattenLength(cs[1..]);
    }
  }

  /** `get_list` has one row per descendant. */
  lemma GetListLength(c: Node)
    requires c.Category?
    ensures |GetList(c)| == Size(c) - 1
  {
    FlattenLength(c.children);
  }

  lemma {:induction false} FlattenMembers(cs: seq<Node>, x: Node)
    ensures x in Flatten(cs) <==>
            exists k :: 0 <= k < |cs| && (cs[k] == x || IsDescendant(x, cs[k]))
    decreases cs
  {
    if cs != [] {
      if cs[0].Category? {
        FlattenMembers(cs[0].children, x);
      }
      FlattenMembers(cs[1..], x);
      if exists k :: 0 <= k < |cs| && (cs[k] == x || IsDescendant(x, cs[k])) {
        var k :| 0 <= k < |cs| && (cs[k] == x || IsDescendant(x, cs[k]));
        if k > 0 {
          assert cs[1..][k - 1] == cs[k];
        }
      }
    }
  }

  /** The rows of `get_list` are exactly the descendants of the Category. */
  lemma GetListMembers(c: Node, x: Node)
    requires c.Category?
    ensures x in GetList(c) <==> IsDescendant(x, c)
  {
    FlattenMembers(c.children, x);
  }

  /*********************************************************************
   * get_time_bounds: properties
   *********************************************************************/

  /** An explicit override wins, whatever the children are. */
  lemma OverrideWins(c: Node, cs: seq<Node>)
    requires c.Category? && c.HasOverride()
    ensures Bounds(c.(children := cs)) ==
            Success((c.overrideStart.value, c.overrideStart.value + c.overrideDuration.value))
  {
  }

  /**
   * Without an override, aggregation succeeds exactly when there is a child
   * and every child has an interval; the result is then the least start and
   * the greatest end among the children, both attained.
   */
  lemma {:induction false} AggregateMinMax(cs: seq<Node>)
    ensures Aggregate(cs).Success? <==>
            cs != [] && forall k :: 0 <= k < |cs| ==> Interval(cs[k]).Success?
    ensures Aggregate(cs).Success? ==>
            forall k :: 0 <= k < |cs| ==>
              Aggregate(cs).value.0 <= Interval(cs[k]).value.0 &&
              Interval(cs[k]).value.1 <= Aggregate(cs).value.1
    ensures Aggregate(cs).Success? ==>
            (exists k :: 0 <= k < |cs| && Interval(cs[k]).value.0 == Aggregate(cs).value.0) &&
            (exists k :: 0 <= k < |cs| && Interval(cs[k]).value.1 == Aggregate(cs).value.1)
    decreases cs
  {
    if |cs| > 1 {
      var tail := cs[1..];
      AggregateMinMax(tail);
      assert forall k :: 1 <= k < |cs| ==> cs[k] == tail[k - 1];
      if Aggregate(cs).Success? {
        var r := Aggregate(cs).value;
        var t := Aggregate(tail).value;
        var k0 :| 0 <= k0 < |tail| && Interval(tail[k0]).value.0 == t.0;
        var k1 :| 0 <= k1 < |tail| && Interval(tail[k1]).value.1 == t.1;
        if r.0 != Interval(cs[0]).value.0 {
          assert Interval(cs[k0 + 1]).value.0 == r.0;
        }
        if r.1 != Interval(cs[0]).value.1 {
          assert Interval(cs[k1 + 1]).value.1 == r.1;
        }
      } else if Interval(cs[0]).Success? {
        assert !Aggregate(tail).Success?;
      }
    }
  }

  /** `get_time_bounds` of a Category without an override, in terms of its children. */
  lemma BoundsOfChildren(c: Node)
    requires c.Category? && !c.HasOverride()
    ensures Bounds(c).Success? <==>
            |c.children| > 0 && forall k :: 0 <= k < |c.children| ==> Interval(c.children[k]).Success?
    ensures Bounds(c).Success? ==>
            forall k :: 0 <= k < |c.children| ==>
              Bounds(c).value.0 <= Interval(c.children[k]).value.0 &&
              Interval(c.children[k]).value.1 <= Bounds(c).value.1
    ensures Bounds(c).Success? ==>
            (exists k :: 0 <= k < |c.children| && Interval(c.children[k]).value.0 == Bounds(c).value.0) &&
            (exists k :: 0 <= k < |c.children| && Interval(c.children[k]).value.1 == Bounds(c).value.1)
  {
    AggregateMinMax(c.children);
  }

  /** A Category with no children and no override has no bounds. */
  lemma EmptyCategoryHasNoBounds(c: Node)
    requires c.Category? && !c.HasOverride() && c.children == []
    ensures Bounds(c) == Failure(EmptyCategoryBounds)
  {
  }

  /** No Task and no override in the subtree has a negative duration. */
  ghost predicate NonNegative(n: Node)
    decreases n
  {
    match n
    case Task(_, _, _, d, _, _, _) => d >= 0
    case Milestone(_, _, _, _) => true
    case Category(_, _, _, od, cs, _) =>
      (od.Some? ==> od.value >= 0) && forall k :: 0 <= k < |cs| ==> NonNegative(cs[k])
  }

  /** Start never exceeds end when no duration is negative. */
  lemma {:induction false} IntervalOrdered(n: Node)
    requires NonNegative(n)
    ensures Interval(n).Success? ==> Interval(n).value.0 <= Interval(n).value.1
    decreases n, 1
  {
    if n.Category? && !n.HasOverride() {
      AggregateOrdered(n.children);
    }
  }

  lemma {:induction false} AggregateOrdered(cs: seq<Node>)
    requires forall k :: 0 <= k < |cs| ==> NonNegative(cs[k])
    ensures Aggregate(cs).Success? ==> Aggregate(cs).value.0 <= Aggregate(cs).value.1
    decreases cs, 0
  {
    if cs != [] {
      IntervalOrdered(cs[0]);
      if |cs| > 1 {
        AggregateOrdered(cs[1..]);
      }
    }
  }

  /** No Category in the subtree carries a full override. */
  ghost predicate NoOverride(n: Node)
    decreases n
  {
    n.Category? ==>
      !n.HasOverride() && forall k :: 0 <= k < |n.children| ==> NoOverride(n.children[k])
  }

  /**
   * Without overrides, the aggregated bounds of a list of children are the
   * least start and the greatest end over the Tasks and Milestones among
   * their descendants (the rows of `get_list` that are leaves).
   */
  lemma {:induction false} AggregateSpansLeaves(cs: seq<Node>)
    requires forall k :: 0 <= k < |cs| ==> NoOverride(cs[k])
    requires Aggregate(cs).Success?
    ensures forall x :: x in Flatten(cs) && !x.Category? ==>
              Aggregate(cs).value.0 <= x.start && Interval(x).value.1 <= Aggregate(cs).value.1
    ensures exists x :: x in Flatten(cs) && !x.Category? && x.start == Aggregate(cs).value.0
    ensures exists x :: x in Flatten(cs) && !x.Category? && Interval(x).value.1 == Aggregate(cs).value.1
    decreases cs
  {
    var head, tail := cs[0], cs[1..];
    var r := Aggregate(cs).value;
    var sub := Subtree(head);
    assert Flatten(cs) == [head] + sub + Flatten(tail);
    // What the head contributes, and leaves of it that attain its interval.
    var hs, he := Interval(head).value.0, Interval(head).value.1;
    var xs: Node, xe: Node;
    assert Interval(head).Success?;
    if head.Category? {
      assert NoOverride(head);
      assert Interval(head) == Aggregate(head.children);
      AggregateSpansLeaves(head.children);
      xs :| xs in sub && !xs.Category? && xs.start == hs;
      xe :| xe in sub && !xe.Category? && Interval(xe).value.1 == he;
    } else {
      xs, xe := head, head;
    }
    assert forall x :: x in sub && !x.Category? ==> hs <= x.start && Interval(x).value.1 <= he;
    if |cs| == 1 {
      assert Flatten(tail) == [];
      assert xs in Flatten(cs) && xe in Flatten(cs);
    } else {
      AggregateSpansLeaves(tail);
      var t := Aggregate(tail).value;
      if r.0 == hs {
        assert xs in Flatten(cs);
      } else {
        var y :| y in Flatten(tail) && !y.Category? && y.start == t.0;
        assert y in Flatten(cs);
      }
      if r.1 == he {
        assert xe in Flatten(cs);
      } else {
        var y :| y in Flatten(tail) && !y.Category? && Interval(y).value.1 == t.1;
        assert y in Flatten(cs);
      }
    }
  }

  /**
   * For a Category with no override anywhere below it, `get_time_bounds`
   * spans exactly its descendant leaves: every leaf row of `get_list` lies
   * inside, and some leaf attains the start and some leaf the end.
   */
  lemma BoundsSpanLeaves(c: Node)
    requires c.Category? && NoOverride(c) && Bounds(c).Success?
    ensures forall x :: x in GetList(c) && !x.Category? ==>
              Bounds(c).value.0 <= x.start && Interval(x).value.1 <= Bounds(c).value.1
    ensures exists x :: x in GetList(c) && !x.Category? && x.start == Bounds(c).value.0
    ensures exists x :: x in GetList(c) && !x.Category? && Interval(x).value.1 == Bounds(c).value.1
  {
    AggregateSpansLeaves(c.children);
  }

  /*********************************************************************
   * to_dict and Project
   *********************************************************************/

  /** `to_dict`: id, name, type, then the fields of the node's kind. */
  function ToDict(n: Node): (v: Value)
    decreases n
    ensures v.Dict? && |v.fields| >= 3
    ensures v.fields[0] == ("id", Int(n.id)) && v.fields[1] == ("name", Str(n.name))
    ensures v.fields[2] == ("type", Str(n.Type().Name()))
    ensures n.Task? ==> Keys(v.fields) == ["id", "name", "type", "start", "duration", "margin", "critical"]
    ensures n.Milestone? ==> Keys(v.fields) == ["id", "name", "type", "start"]
    ensures n.Category? ==> Keys(v.fields) == ["id", "name", "type", "children"]
    ensures n.Category? ==> v.fields[3].1.List? && |v.fields[3].1.items| == |n.children|
    ensures n.Category? ==> forall k :: 0 <= k < |n.children| ==> v.fields[3].1.items[k] == ToDict(n.children[k])
    ensures n.Task? ==> v.fields[3..] == [("start", DateText(n.start)), ("duration", SpanText(n.duration)),
                                          ("margin", SpanText(n.margin)), ("critical", BoolText(n.critical))]
    ensures n.Milestone? ==> v.fields[3..] == [("start", DateText(n.start))]
  {
    var head := [("id", Int(n.id)), ("name", Str(n.name)), ("type", Str(n.Type().Name()))];
    match n
    case Task(_, _, s, d, m, crit, _) =>
      Dict(head + [("start", DateText(s)), ("duration", SpanText(d)), ("margin", SpanText(m)),
                   ("critical", BoolText(crit))])
    case Milestone(_, _, s, _) =>
      Dict(head + [("start", DateText(s))])
    case Category(_, _, _, _, cs, _) =>
      Dict(head + [("children", List(seq(|cs|, k requires 0 <= k < |cs| => ToDict(cs[k]))))])
  }

  /** The id of each row, in row order: the `ids` list of the chart. */
  function IdsOf(rows: seq<Node>): (ids: seq<int>)
    ensures |ids| == |rows| && forall k :: 0 <= k < |rows| ==> ids[k] == rows[k].id
  {
    if rows == [] then [] else [rows[0].id] + IdsOf(rows[1..])
  }

  lemma IdsOfAppend(a: seq<Node>, b: seq<Node>)
    ensures IdsOf(a + b) == IdsOf(a) + IdsOf(b)
  {
  }

  /**
   * Reading the ids back out of the dict projection of a Category yields
   * its own id followed by the ids of `get_list`, in the same order.
   */
  lemma {:induction false} ToDictPreorder(n: Node)
    ensures ReadIds(ToDict(n)) == [n.id] + IdsOf(Subtree(n))
    decreases n, 1
  {
    var v := ToDict(n);
    var f := v.fields;
    assert ReadIds(v) == ReadFieldIds(f);
    ReadHeadIds(f, n.id);
    if n.Category? {
      var items := f[3].1.items;
      assert |f| == 4 && f[3..][1..] == [];
      assert ReadFieldIds(f[3..]) == ReadListIds(items);
      assert forall k :: 0 <= k < |n.children| ==> items[k] == ToDict(n.children[k]);
      ToDictListPreorder(n.children, items);
    } else {
      assert forall k :: 3 <= k < |f| ==> f[k].0 != "id" && f[k].0 != "children";
      NoIdFields(f[3..]);
    }
  }

  lemma {:induction false} NoIdFields(f: seq<(string, Value)>)
    requires forall k :: 0 <= k < |f| ==> f[k].0 != "id" && f[k].0 != "children"
    ensures ReadFieldIds(f) == []
  {
    if f != [] {
      NoIdFields(f[1..]);
    }
  }

  lemma {:induction false} ToDictListPreorder(cs: seq<Node>, items: seq<Value>)
    requires |items| == |cs| && forall k :: 0 <= k < |cs| ==> items[k] == ToDict(cs[k])
    ensures ReadListIds(items) == IdsOf(Flatten(cs))
    decreases cs, 0
  {
    if cs != [] {
      ToDictPreorder(cs[0]);
      ToDictListPreorder(cs[1..], items[1..]);
      IdsOfAppend([cs[0]] + Subtree(cs[0]), Flatten(cs[1..]));
      IdsOfAppend([cs[0]], Subtree(cs[0]));
    }
  }

  /** The ids of a Category's dict projection: its own, then those of `get_list`. */
  lemma CategoryDictIds(c: Node)
    requires c.Category?
    ensures ReadIds(ToDict(c)) == [c.id] + IdsOf(GetList(c))
  {
    ToDictPreorder(c);
  }

  /** A project: its name and the synthetic root Category. */
  datatype Project = Project(name: string, root: Node)

  /** `Project.__init__`: the root is named 'root', has id 0 and no override. */
  function NewProject(name: string, data: Option<seq<Node>>): (p: Project)
    ensures p.name == name && p.root.Category?
    ensures p.root.id == 0 && p.root.name == "root" && !p.root.HasOverride()
    ensures p.root.children == (if data.None? then [] else data.value)
  {
    Project(name, Category(0, "root", None, None, data.GetOr([]), None))
  }

  /** `Project.to_dict`: the project name mapped to the root's projection. */
  function ProjectToDict(p: Project): (v: Value)
    ensures v.Dict? && |v.fields| == 1 && v.fields[0].0 == p.name
    ensures v.fields[0].1 == ToDict(p.root)
  {
    Dict([(p.name, ToDict(p.root))])
  }
}
