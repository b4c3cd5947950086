/**
 * The older, flat plan model of planner/plan.py: plan objects that only
 * serialise themselves and a Category that only collects children.
 *
 * Ids are the text of a uuid4 in the source; here they are given strings.
 * `add_child` appends to a Category's children; it is modelled on values,
 * returning the Category with the longer list.
 */
module Legacy {
  import opened Wrappers
  import opened Values

  datatype Item =
    | Category(id: string, name: string, children: seq<Item>)
    | Task(id: string, name: string, start: int, duration: int, margin: int)
    | Milestone(id: string, name: string, targetDate: int)
  {
    /** The `type` property of each class. */
    function Type(): (t: PlanObjectType)
      ensures t == CategoryType <==> Category?
      ensures t == TaskType <==> Task?
      ensures t == MilestoneType <==> Milestone?
    {
      match this
      case Category(_, _, _) => CategoryType
      case Task(_, _, _, _, _) => TaskType
      case Milestone(_, _, _) => MilestoneType
    }
  }

  /** `Category(name, children=None)`: a missing list becomes an empty one. */
  function NewCategory(id: string, name: string, children: Option<seq<Item>>): (c: Item)
    ensures c.Category? && c.id == id && c.name == name
    ensures children.None? ==> c.children == []
    ensures children.Some? ==> c.children == children.value
  {
    Category(id, name, children.GetOr([]))
  }

  /** `Task(name, start, duration, margin=None)`: a missing margin is a zero timedelta. */
  function NewTask(id: string, name: string, start: int, duration: int, margin: Option<int>): (t: Item)
    ensures t.Task? && t.id == id && t.name == name && t.start == start && t.duration == duration
    ensures margin.None? ==> t.margin == 0
    ensures margin.Some? ==> t.margin == margin.value
  {
    Task(id, name, start, duration, margin.GetOr(0))
  }

  /** `Category.add_child`: the child goes after all the existing ones. */
  function AddChild(c: Item, child: Item): (r: Item)
    requires c.Category?
    ensures r.Category? && r.id == c.id && r.name == c.name
    ensures |r.children| == |c.children| + 1
    ensures r.children[..|c.children|] == c.children && r.children[|c.children|] == child
  {
    c.(children := c.children + [child])
  }

  /** `PlanObject.to_dict` and its overrides. */
  function ToDict(x: Item): (v: Value)
    decreases x
    ensures v.Dict? && |v.fields| >= 3
    ensures v.fields[0] == ("id", Str(x.id)) && v.fields[1] == ("name", Str(x.name))
    ensures v.fields[2] == ("type", Str(x.Type().Name()))
    ensures x.Task? ==> Keys(v.fields) == ["id", "name", "type", "start", "duration", "margin"]
    ensures x.Milestone? ==> Keys(v.fields) == ["id", "name", "type", "target_date"]
    ensures x.Category? ==> Keys(v.fields) == ["id", "name", "type", "children"]
    ensures x.Category? ==> v.fields[3].1.List? && |v.fields[3].1.items| == |x.children|
  {
    var head := [("id", Str(x.id)), ("name", Str(x.name)), ("type", Str(x.Type().Name()))];
    match x
    case Task(_, _, s, d, m) =>
      Dict(head + [("start", DateText(s)), ("duration", SpanText(d)), ("margin", SpanText(m))])
    case Milestone(_, _, t) =>
      Dict(head + [("target_date", DateText(t))])
    case Category(_, _, cs) =>
      Dict(head + [("children", List(ChildDicts(cs)))])
  }

  /** The list comprehension `[c.to_dict() for c in children]`. */
  function ChildDicts(cs: seq<Item>): (ds: seq<Value>)
    decreases cs
    ensures |ds| == |cs|
  {
    seq(|cs|, k requires 0 <= k < |cs| => ToDict(cs[k]))
  }

  /** A Milestone serialises its target date, never a 'start'. */
  lemma MilestoneHasNoStart(x: Item)
    requires x.Milestone?
    ensures Lookup(ToDict(x).fields, "start") == None
    ensures Lookup(ToDict(x).fields, "target_date") == Some(DateText(x.targetDate))
  {
    var f := ToDict(x).fields;
    assert "start" !in Keys(f);
    assert f == [f[0], f[1], f[2], f[3]];
    assert f[3] == ("target_date", DateText(x.targetDate));
  }

  /** Adding a child appends its dict to the end of the 'children' list. */
  lemma AddChildAppendsDict(c: Item, child: Item)
    requires c.Category?
    ensures ToDict(AddChild(c, child)).fields[3].1.items ==
            ToDict(c).fields[3].1.items + [ToDict(child)]
  {
    var r := AddChild(c, child);
    assert ChildDicts(r.children) == ChildDicts(c.children) + [ToDict(child)];
  }

  /**
   * Reading a dict back: the inverse of `to_dict` on the model, showing the
   * projection keeps every attribute of every object in the tree.
   */
  function Parse(v: Value): (r: Option<Item>)
    decreases v, 2
  {
    match v
    case Dict(f) =>
      if |f| < 4 || f[0].0 != "id" || !f[0].1.Str? || f[1].0 != "name" || !f[1].1.Str?
         || f[2].0 != "type" || !f[2].1.Str? then None
      else
        var id := f[0].1.s;
        var name := f[1].1.s;
        var ty := f[2].1.s;
        if ty == "TASK" && |f| == 6 then
          if f[3].0 == "start" && f[3].1.DateText? && f[4].0 == "duration" && f[4].1.SpanText?
             && f[5].0 == "margin" && f[5].1.SpanText?
          then Some(Task(id, name, f[3].1.day, f[4].1.days, f[5].1.days))
          else None
        else if ty == "MILESTONE" && |f| == 4 then
          if f[3].0 == "target_date" && f[3].1.DateText? then Some(Milestone(id, name, f[3].1.day))
          else None
        else if ty == "CATEGORY" && |f| == 4 && f[3].0 == "children" then
          match ParseChildren(f[3])
          case Some(cs) => Some(Category(id, name, cs))
          case None => None
        else None
    case _ => None
  }

  function ParseChildren(entry: (string, Value)): Option<seq<Item>>
    decreases entry, 3
  {
    match entry
    case (_, List(items)) => ParseList(items)
    case _ => None
  }

  function ParseList(items: seq<Value>): Option<seq<Item>>
    decreases items, 1
  {
    if items == [] then Some([])
    else
      match Parse(items[0])
      case None => None
      case Some(x) =>
        match ParseList(items[1..])
        case None => None
        case Some(rest) => Some([x] + rest)
  }

  /** Serialising and reading back gives the same object: `to_dict` loses nothing. */
  lemma {:induction false} ParseToDict(x: Item)
    ensures Parse(ToDict(x)) == Some(x)
    decreases x, 1
  {
    match x
    case Task(_, _, _, _, _) =>
    case Milestone(_, _, _) =>
    case Category(_, _, cs) =>
      var f := ToDict(x).fields;
      ParseChildDicts(cs);
      assert f[3] == ("children", List(ChildDicts(cs)));
  }

  lemma {:induction false} ParseChildDicts(cs: seq<Item>)
    ensures ParseList(ChildDicts(cs)) == Some(cs)
    decreases cs, 0
  {
    if cs != [] {
      ParseToDict(cs[0]);
      ParseChildDicts(cs[1..]);
      assert ChildDicts(cs)[1..] == ChildDicts(cs[1..]);
      assert [cs[0]] + cs[1..] == cs;
    }
  }

  /** Two objects with the same dict are the same object. */
  lemma ToDictInjective(a: Item, b: Item)
    requires ToDict(a) == ToDict(b)
    ensures a == b
  {
    ParseToDict(a);
    ParseToDict(b);
  }

  /** `Project(name, data=None)`. */
  datatype Project = Project(name: string, data: seq<Item>)

  function NewProject(name: string, data: Option<seq<Item>>): (p: Project)
    ensures p.name == name
    ensures data.None? ==> p.data == []
    ensures data.Some? ==> p.data == data.value
  {
    Project(name, data.GetOr([]))
  }

  /** `Project.to_dict`: the project name over the list of top-level dicts, in order. */
  function ProjectToDict(p: Project): (v: Value)
    ensures v.Dict? && Keys(v.fields) == [p.name]
    ensures v.fields[0].1.List? && |v.fields[0].1.items| == |p.data|
    ensures forall k :: 0 <= k < |p.data| ==> v.fields[0].1.items[k] == ToDict(p.data[k])
  {
    Dict([(p.name, List(ChildDicts(p.data)))])
  }

  /** The top-level objects can be read back from a project's dict, in order. */
  lemma ProjectRoundTrip(p: Project)
    ensures ParseList(ProjectToDict(p).fields[0].1.items) == Some(p.data)
    ensures Keys(ProjectToDict(p).fields)[0] == p.name
  {
    ParseChildDicts(p.data);
  }
}
