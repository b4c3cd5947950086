/**
 * The row and link planning of `Gantt.__init__` in src/pyproject/graphics.py.
 *
 * The rows are the pre-order flattening of the project root. Every drawing
 * call on the matplotlib axes becomes a command appended to a log; the
 * axes themselves, figure sizing and tick placement are not modelled.
 */
module Gantt {
  import opened Wrappers
  import opened Schedule
  import opened Builder

  /** '#000000' for Category bars, TASK_COLOR and CRITICAL_COLOR for Task bars. */
  datatype Color = Black | TaskColor | CriticalColor

  datatype Command =
    | Bar(row: nat, left: int, width: int, color: Color)  // ax.barh
    | Diamond(x: int, row: nat)                            // ax.scatter with marker 'd'
    | Line(xs: seq<int>, ys: seq<int>)                     // ax.plot
    | Dot(x: int, row: nat)                                // ax.scatter at a link's arrival
  {
    /** The row a command is drawn on; a link counts on the row it arrives at. */
    function Row(): int {
      match this
      case Bar(r, _, _, _) => r
      case Diamond(_, r) => r
      case Line(_, ys) => if ys == [] then 0 else ys[|ys| - 1]
      case Dot(_, r) => r
    }

    /** The one shape drawn for a row, as opposed to a link's line or dot. */
    predicate IsShape() {
      Bar? || Diamond?
    }
  }

  datatype GanttError =
    | NoBounds                     // get_time_bounds of a Category raised
    | MissingPredecessor(id: int)  // KeyError on idx_map[p]

  /** Every row carries a `predecessors` attribute. */
  predicate AllHavePreds(rows: seq<Node>)
  {
    forall k :: 0 <= k < |rows| ==> rows[k].preds.Some?
  }

  /** `idx_map`: each id to the position of its last row, as the dict comprehension leaves it. */
  function IndexMap(ids: seq<int>): (m: map<int, nat>)
    ensures forall id :: id in m <==> id in ids
    ensures forall id :: id in m ==> m[id] < |ids| && ids[m[id]] == id
  {
    if ids == [] then map[]
    else IndexMap(ids[..|ids| - 1])[ids[|ids| - 1] := |ids| - 1]
  }

  /** The position `idx_map` keeps for an id is its last row: later rows win. */
  lemma {:induction false} IndexMapKeepsLast(ids: seq<int>, id: int)
    requires id in IndexMap(ids)
    ensures forall j :: IndexMap(ids)[id] < j < |ids| ==> ids[j] != id
  {
    var n := |ids| - 1;
    var init := ids[..n];
    if ids[n] != id {
      assert IndexMap(ids) == IndexMap(init)[ids[n] := n];
      assert id in IndexMap(init);
      IndexMapKeepsLast(init, id);
      forall j | IndexMap(ids)[id] < j < |ids|
        ensures ids[j] != id
      {
        if j < n {
          assert ids[j] == init[j];
        }
      }
    }
  }

  /**
   * The shape drawn for row `idx`: a black bar over a Category's bounds, a
   * bar over a Task's start and duration, a diamond at a Milestone's start.
   */
  function Shape(r: Node, idx: nat): (c: Result<Command, GanttError>)
    ensures r.Category? ==> (c.Success? <==> Bounds(r).Success?)
    ensures !r.Category? ==> c.Success?
    ensures c.Failure? ==> c.error == NoBounds
    ensures c.Success? ==> c.value.IsShape() && c.value.Row() == idx
    ensures c.Success? && c.value.Bar? ==>
              Start(r) == Success(c.value.left) && End(r) == Success(c.value.left + c.value.width)
    ensures c.Success? && c.value.Bar? ==>
              (c.value.color == CriticalColor <==> r.Task? && r.critical) &&
              (c.value.color == Black <==> r.Category?)
    ensures c.Success? ==> (c.value.Diamond? <==> r.Milestone?)
    ensures c.Success? && c.value.Diamond? ==> c.value.x == r.start
  {
    match r
    case Category(_, _, _, _, _, _) =>
      (match Bounds(r)
       case Failure(_) => Failure(NoBounds)
       case Success(b) => Success(Bar(idx, b.0, b.1 - b.0, Black)))
    case Task(_, _, s, d, _, crit, _) =>
      Success(Bar(idx, s, d, if crit then CriticalColor else TaskColor))
    case Milestone(_, _, s, _) =>
      Success(Diamond(s, idx))
  }

  /**
   * What one predecessor id `p` of row `idx` draws: nothing when the
   * predecessor ends at or after the row's start, otherwise an elbow from
   * the predecessor's end on its row to the row's start, and an arrival
   * dot unless the row is a Milestone.
   */
  function Link(rows: seq<Node>, idx: nat, p: int): (c: Result<seq<Command>, GanttError>)
    requires idx < |rows|
  {
    var m := IndexMap(IdsOf(rows));
    if p !in m then Failure(MissingPredecessor(p))
    else
      var pred := rows[m[p]];
      match End(pred)
      case Failure(_) => Failure(NoBounds)
      case Success(pe) =>
        match Start(rows[idx])
        case Failure(_) => Failure(NoBounds)
        case Success(rs) => Success(Elbow(pe, rs, m[pred.id], idx, rows[idx].Milestone?))
  }

  /**
   * The commands of one link once both ends are known: nothing when the
   * predecessor ends at or after the start `rs`, otherwise the elbow line
   * from (pe, pr) over to (rs, pr) and down to (rs, idx), and a dot unless
   * the arriving row is a Milestone.
   */
  function Elbow(pe: int, rs: int, pr: int, idx: nat, milestone: bool): (cs: seq<Command>)
    ensures cs == [] <==> pe >= rs
    ensures cs != [] ==> cs[0] == Line([pe, rs, rs], [pr, pr, idx])
    ensures |cs| == 2 <==> pe < rs && !milestone
    ensures |cs| == 2 ==> cs[1] == Dot(rs, idx)
    ensures pe < rs && milestone ==> cs == [Line([pe, rs, rs], [pr, pr, idx])]
    ensures forall i :: 0 <= i < |cs| ==> cs[i].Row() == idx && !cs[i].IsShape()
  {
    if pe >= rs then []
    else [Line([pe, rs, rs], [pr, pr, idx])] + (if milestone then [] else [Dot(rs, idx)])
  }

  /** A link raises the KeyError exactly when no row carries the predecessor id. */
  lemma LinkMissing(rows: seq<Node>, idx: nat, p: int)
    requires idx < |rows|
    ensures Link(rows, idx, p) == Failure(MissingPredecessor(p)) <==> p !in IdsOf(rows)
  {
  }

  /** `Link` branch by branch, with the predecessor's row found through `m`. */
  lemma LinkCases(rows: seq<Node>, idx: nat, p: int, m: map<int, nat>)
    requires idx < |rows| && m == IndexMap(IdsOf(rows))
    ensures p !in m ==> Link(rows, idx, p) == Failure(MissingPredecessor(p))
    ensures p in m && End(rows[m[p]]).Failure? ==> Link(rows, idx, p) == Failure(NoBounds)
    ensures p in m && End(rows[m[p]]).Success? && Start(rows[idx]).Failure? ==>
              Link(rows, idx, p) == Failure(NoBounds)
    ensures p in m && End(rows[m[p]]).Success? && Start(rows[idx]).Success? ==>
              Link(rows, idx, p) == Success(Elbow(End(rows[m[p]]).value, Start(rows[idx]).value,
                                                 m[rows[m[p]].id], idx, rows[idx].Milestone?))
  {
  }

  /**
   * Outputs of successive steps, concatenated in order; the first step that
   * raises stops everything with its error.
   */
  function Chain(steps: seq<Result<seq<Command>, GanttError>>): Result<seq<Command>, GanttError>
  {
    if steps == [] then Success([])
    else
      match Chain(steps[..|steps| - 1])
      case Failure(e) => Failure(e)
      case Success(done) =>
        match steps[|steps| - 1]
        case Failure(e) => Failure(e)
        case Success(cs) => Success(done + cs)
  }

  /** One more step: a failure so far stays, a failing step raises, otherwise its output is appended. */
  lemma ChainSnoc(steps: seq<Result<seq<Command>, GanttError>>, s: Result<seq<Command>, GanttError>)
    ensures Chain(steps + [s]) ==
            if Chain(steps).Failure? then Chain(steps)
            else if s.Failure? then Failure(s.error)
            else Success(Chain(steps).value + s.value)
  {
    assert (steps + [s])[..|steps|] == steps;
  }

  /** The chain succeeds exactly when every step does. */
  lemma {:induction false} ChainSucceedsIff(steps: seq<Result<seq<Command>, GanttError>>)
    ensures Chain(steps).Success? <==> forall j :: 0 <= j < |steps| ==> steps[j].Success?
  {
    if steps != [] {
      var init := steps[..|steps| - 1];
      ChainSucceedsIff(init);
      assert forall j :: 0 <= j < |init| ==> init[j] == steps[j];
    }
  }

  /** The first failing step decides the chain's error. */
  lemma {:induction false} ChainFailsAt(steps: seq<Result<seq<Command>, GanttError>>, j: nat)
    requires j < |steps| && Chain(steps[..j]).Success? && steps[j].Failure?
    ensures Chain(steps) == Failure(steps[j].error)
  {
    var init := steps[..|steps| - 1];
    if j == |steps| - 1 {
      assert init == steps[..j];
    } else {
      assert init[..j] == steps[..j] && init[j] == steps[j];
      ChainFailsAt(init, j);
    }
  }

  /** The link of each predecessor id of row `idx`, in list order. */
  function LinkSteps(rows: seq<Node>, idx: nat, ps: seq<int>): (steps: seq<Result<seq<Command>, GanttError>>)
    requires idx < |rows|
    ensures |steps| == |ps| && forall j :: 0 <= j < |ps| ==> steps[j] == Link(rows, idx, ps[j])
  {
    seq(|ps|, j requires 0 <= j < |ps| => Link(rows, idx, ps[j]))
  }

  /** The links of row `idx` for the predecessor ids `ps`; the first failure wins. */
  function Links(rows: seq<Node>, idx: nat, ps: seq<int>): Result<seq<Command>, GanttError>
    requires idx < |rows|
  {
    Chain(LinkSteps(rows, idx, ps))
  }

  /** Everything drawn for row `idx`: its shape, then its links. */
  function RowCommands(rows: seq<Node>, idx: nat): Result<seq<Command>, GanttError>
    requires idx < |rows| && rows[idx].preds.Some?
  {
    match Shape(rows[idx], idx)
    case Failure(e) => Failure(e)
    case Success(c) =>
      match Links(rows, idx, rows[idx].preds.value)
      case Failure(e) => Failure(e)
      case Success(ls) => Success([c] + ls)
  }

  /** The commands of each of the first n rows. */
  function RowSteps(rows: seq<Node>, n: nat): (steps: seq<Result<seq<Command>, GanttError>>)
    requires n <= |rows| && AllHavePreds(rows)
    ensures |steps| == n && forall k :: 0 <= k < n ==> steps[k] == RowCommands(rows, k)
  {
    seq(n, k requires 0 <= k < n => RowCommands(rows, k))
  }

  /** Everything drawn for the first n rows, in row order; the first failure wins. */
  function PlanRows(rows: seq<Node>, n: nat): Result<seq<Command>, GanttError>
    requires n <= |rows| && AllHavePreds(rows)
  {
    Chain(RowSteps(rows, n))
  }

  /**
   * Lines 23-51 of `Gantt.__init__`: the commands issued for the rows of
   * `project.root.get_list()`, or the exception that stops it.
   */
  method Draw(project: Project) returns (r: Result<seq<Command>, GanttError>)
    requires project.root.Category? && AllHavePreds(GetList(project.root))
    ensures r == PlanRows(GetList(project.root), |GetList(project.root)|)
  {
    var rows := GetList(project.root);
    var idxMap := IndexMap(IdsOf(rows));
    var cmds: seq<Command> := [];
    var idx := 0;
    while idx < |rows|
      invariant 0 <= idx <= |rows|
      invariant PlanRows(rows, idx) == Success(cmds)
    {
      var shape := DrawShape(rows[idx], idx);
      if shape.Failure? {
        PlanFailsAt(rows, idx);
        return Failure(shape.error);
      }
      var links := DrawLinks(rows, idxMap, idx);
      if links.Failure? {
        PlanFailsAt(rows, idx);
        return Failure(links.error);
      }
      PlanRowsSnoc(rows, idx, cmds, shape.value, links.value);
      cmds := cmds + ([shape.value] + links.value);
      idx := idx + 1;
    }
    return Success(cmds);
  }

  /** The shape drawn for one row of `Gantt.__init__`, by the row's kind. */
  method DrawShape(row: Node, idx: nat) returns (r: Result<Command, GanttError>)
    ensures r == Shape(row, idx)
  {
    if row.Category? {
      var b := Bounds(row);
      if b.Failure? {
        return Failure(NoBounds);
      }
      return Success(Bar(idx, b.value.0, b.value.1 - b.value.0, Black));
    } else if row.Task? {
      var color := if row.critical then CriticalColor else TaskColor;
      return Success(Bar(idx, row.start, row.duration, color));
    } else {
      return Success(Diamond(row.start, idx));
    }
  }

  /** The inner loop of `Gantt.__init__`: the links of row `idx`, one predecessor at a time. */
  method DrawLinks(rows: seq<Node>, idxMap: map<int, nat>, idx: nat) returns (r: Result<seq<Command>, GanttError>)
    requires idx < |rows| && rows[idx].preds.Some? && idxMap == IndexMap(IdsOf(rows))
    ensures r == Links(rows, idx, rows[idx].preds.value)
  {
    var preds := rows[idx].preds.value;
    var cmds: seq<Command> := [];
    var j := 0;
    while j < |preds|
      invariant 0 <= j <= |preds|
      invariant Links(rows, idx, preds[..j]) == Success(cmds)
    {
      var link := DrawLink(rows, idxMap, idx, preds[j]);
      if link.Failure? {
        LinksFailAt(rows, idx, preds, j);
        return Failure(link.error);
      }
      LinksSnoc(rows, idx, preds, j);
      cmds := cmds + link.value;
      j := j + 1;
    }
    assert preds[..j] == preds;
    return Success(cmds);
  }

  /** One pass of the inner loop: the link drawn for predecessor id `p` of row `idx`. */
  method DrawLink(rows: seq<Node>, idxMap: map<int, nat>, idx: nat, p: int) returns (r: Result<seq<Command>, GanttError>)
    requires idx < |rows| && idxMap == IndexMap(IdsOf(rows))
    ensures r == Link(rows, idx, p)
  {
    LinkCases(rows, idx, p, idxMap);
    if p !in idxMap {
      return Failure(MissingPredecessor(p));
    }
    var pred := rows[idxMap[p]];
    var predEnd := End(pred);
    if predEnd.Failure? {
      return Failure(NoBounds);
    }
    var rowStart := Start(rows[idx]);
    if rowStart.Failure? {
      return Failure(NoBounds);
    }
    var drawn := DrawElbow(predEnd.value, rowStart.value, idxMap[pred.id], idx, rows[idx].Milestone?);
    return Success(drawn);
  }

  /** The plot calls of one link once both ends are known. */
  method DrawElbow(pe: int, rs: int, pr: int, idx: nat, milestone: bool) returns (drawn: seq<Command>)
    ensures drawn == Elbow(pe, rs, pr, idx, milestone)
  {
    drawn := [];
    if pe < rs {
      drawn := drawn + [Line([pe, rs, rs], [pr, pr, idx])];
      if !milestone {
        drawn := drawn + [Dot(rs, idx)];
      }
    }
  }

  /** The link steps of a prefix of the predecessor list are a prefix of its link steps. */
  lemma LinkStepsPrefix(rows: seq<Node>, idx: nat, ps: seq<int>, j: nat)
    requires idx < |rows| && j <= |ps|
    ensures LinkSteps(rows, idx, ps[..j]) == LinkSteps(rows, idx, ps)[..j]
  {
  }

  /** The row steps of the first k rows are a prefix of those of the first n. */
  lemma RowStepsPrefix(rows: seq<Node>, k: nat, n: nat)
    requires k <= n <= |rows| && AllHavePreds(rows)
    ensures RowSteps(rows, k) == RowSteps(rows, n)[..k]
  {
  }

  /** One more link appends its commands to those of the links before it. */
  lemma LinksSnoc(rows: seq<Node>, idx: nat, ps: seq<int>, j: nat)
    requires idx < |rows| && j < |ps|
    ensures Links(rows, idx, ps[..j + 1]) ==
            if Links(rows, idx, ps[..j]).Failure? then Links(rows, idx, ps[..j])
            else if Link(rows, idx, ps[j]).Failure? then Failure(Link(rows, idx, ps[j]).error)
            else Success(Links(rows, idx, ps[..j]).value + Link(rows, idx, ps[j]).value)
  {
    assert LinkSteps(rows, idx, ps[..j + 1]) == LinkSteps(rows, idx, ps[..j]) + [Link(rows, idx, ps[j])];
    ChainSnoc(LinkSteps(rows, idx, ps[..j]), Link(rows, idx, ps[j]));
  }

  /** A failing link, after links that all succeeded, is the failure of all the row's links. */
  lemma LinksFailAt(rows: seq<Node>, idx: nat, ps: seq<int>, j: nat)
    requires idx < |rows| && j < |ps|
    requires Links(rows, idx, ps[..j]).Success? && Link(rows, idx, ps[j]).Failure?
    ensures Links(rows, idx, ps) == Failure(Link(rows, idx, ps[j]).error)
  {
    LinkStepsPrefix(rows, idx, ps, j);
    ChainFailsAt(LinkSteps(rows, idx, ps), j);
  }

  /** One more row whose shape and links succeed appends them. */
  lemma PlanRowsSnoc(rows: seq<Node>, k: nat, done: seq<Command>, shape: Command, links: seq<Command>)
    requires k < |rows| && AllHavePreds(rows) && PlanRows(rows, k) == Success(done)
    requires Shape(rows[k], k) == Success(shape) && Links(rows, k, rows[k].preds.value) == Success(links)
    ensures PlanRows(rows, k + 1) == Success(done + ([shape] + links))
  {
    assert RowSteps(rows, k + 1) == RowSteps(rows, k) + [RowCommands(rows, k)];
    ChainSnoc(RowSteps(rows, k), RowCommands(rows, k));
  }

  /** A failing row, after rows that all succeeded, is the failure of the whole plan. */
  lemma PlanFailsAt(rows: seq<Node>, k: nat)
    requires k < |rows| && AllHavePreds(rows) && PlanRows(rows, k).Success? && RowCommands(rows, k).Failure?
    ensures PlanRows(rows, |rows|) == Failure(RowCommands(rows, k).error)
  {
    RowStepsPrefix(rows, k, |rows|);
    ChainFailsAt(RowSteps(rows, |rows|), k);
  }

  /** The links of a row succeed exactly when each of its predecessors' links does. */
  lemma LinksSucceedIff(rows: seq<Node>, idx: nat, ps: seq<int>)
    requires idx < |rows|
    ensures Links(rows, idx, ps).Success? <==> forall j :: 0 <= j < |ps| ==> Link(rows, idx, ps[j]).Success?
  {
    ChainSucceedsIff(LinkSteps(rows, idx, ps));
  }

  /** The plan succeeds exactly when every row's shape and links do. */
  lemma PlanRowsSucceedIff(rows: seq<Node>, n: nat)
    requires n <= |rows| && AllHavePreds(rows)
    ensures PlanRows(rows, n).Success? <==> forall k :: 0 <= k < n ==> RowCommands(rows, k).Success?
  {
    ChainSucceedsIff(RowSteps(rows, n));
  }

  /** Commands that all sit on row idx and none of which is a shape: what links draw. */
  predicate LinkCommands(cs: seq<Command>, idx: nat)
  {
    forall i :: 0 <= i < |cs| ==> cs[i].Row() == idx && !cs[i].IsShape()
  }

  /** What one link draws sits on the row it arrives at. */
  lemma LinkOnRow(rows: seq<Node>, idx: nat, p: int)
    requires idx < |rows| && Link(rows, idx, p).Success?
    ensures LinkCommands(Link(rows, idx, p).value, idx)
  {
    LinkMissing(rows, idx, p);
    LinkFromLastRow(rows, idx, p);
  }

  /** Every command a row's links draw sits on that row and is not a shape. */
  lemma {:induction false} LinksOnRow(rows: seq<Node>, idx: nat, ps: seq<int>)
    requires idx < |rows| && Links(rows, idx, ps).Success?
    ensures LinkCommands(Links(rows, idx, ps).value, idx)
    decreases |ps|
  {
    if ps != [] {
      var j := |ps| - 1;
      LinksSnoc(rows, idx, ps, j);
      assert ps[..j + 1] == ps;
      LinksOnRow(rows, idx, ps[..j]);
      LinkOnRow(rows, idx, ps[j]);
      LinkCommandsAppend(Links(rows, idx, ps[..j]).value, Link(rows, idx, ps[j]).value, idx);
    } else {
      assert LinkSteps(rows, idx, ps) == [];
    }
  }

  lemma LinkCommandsAppend(a: seq<Command>, b: seq<Command>, idx: nat)
    requires LinkCommands(a, idx) && LinkCommands(b, idx)
    ensures LinkCommands(a + b, idx)
  {
    forall i | 0 <= i < |a + b|
      ensures (a + b)[i] == if i < |a| then a[i] else b[i - |a|]
    {
    }
  }

  /** A predecessor id that names no row stops the whole chart (the KeyError on `idx_map[p]`). */
  lemma MissingPredecessorFails(rows: seq<Node>, k: nat, p: int)
    requires AllHavePreds(rows) && k < |rows| && p in rows[k].preds.value && p !in IdsOf(rows)
    ensures PlanRows(rows, |rows|).Failure?
  {
    var ps := rows[k].preds.value;
    var j :| 0 <= j < |ps| && ps[j] == p;
    LinkMissing(rows, k, p);
    assert Link(rows, k, ps[j]).Failure?;
    LinksSucceedIff(rows, k, ps);
    assert RowCommands(rows, k).Failure?;
    PlanRowsSucceedIff(rows, |rows|);
  }

  /** A Category row whose bounds cannot be computed stops the whole chart. */
  lemma UnboundedCategoryFails(rows: seq<Node>, k: nat)
    requires AllHavePreds(rows) && k < |rows| && rows[k].Category? && Bounds(rows[k]).Failure?
    ensures PlanRows(rows, |rows|).Failure?
  {
    assert RowCommands(rows, k).Failure?;
    PlanRowsSucceedIff(rows, |rows|);
  }

  /**
   * A link is drawn from the last row carrying the predecessor's id, the row
   * `idx_map` keeps for it: the elbow leaves that row at its end date.
   */
  lemma LinkFromLastRow(rows: seq<Node>, idx: nat, p: int)
    requires idx < |rows| && p in IdsOf(rows)
    ensures var m := IndexMap(IdsOf(rows));
            p in m && m[p] < |rows| && rows[m[p]].id == p &&
            (forall j :: m[p] < j < |rows| ==> rows[j].id != p)
    ensures var m := IndexMap(IdsOf(rows));
            p in m && m[p] < |rows| &&
            (End(rows[m[p]]).Failure? || Start(rows[idx]).Failure? ==> Link(rows, idx, p) == Failure(NoBounds)) &&
            (End(rows[m[p]]).Success? && Start(rows[idx]).Success? ==>
               Link(rows, idx, p) ==
               Success(Elbow(End(rows[m[p]]).value, Start(rows[idx]).value, m[p], idx, rows[idx].Milestone?)))
  {
    var ids := IdsOf(rows);
    var m := IndexMap(ids);
    IndexMapKeepsLast(ids, p);
    forall j | m[p] < j < |rows|
      ensures rows[j].id != p
    {
      assert ids[j] == rows[j].id;
    }
  }

  /** A row's commands: all on row k, and the first of them, only, a shape. */
  predicate OnRow(cs: seq<Command>, k: nat)
  {
    |cs| >= 1 && cs[0].IsShape() && cs[0].Row() == k && LinkCommands(cs[1..], k)
  }

  /** A command log whose rows all lie below n and never go back. */
  predicate InRowOrder(cs: seq<Command>, n: nat)
  {
    (forall i :: 0 <= i < |cs| ==> 0 <= cs[i].Row() < n) &&
    (forall i, j :: 0 <= i <= j < |cs| ==> cs[i].Row() <= cs[j].Row())
  }

  /** The commands a row issues: its shape first, then its links, all on that row. */
  lemma RowCommandsOnRow(rows: seq<Node>, k: nat)
    requires k < |rows| && rows[k].preds.Some? && RowCommands(rows, k).Success?
    ensures OnRow(RowCommands(rows, k).value, k)
    ensures Shape(rows[k], k) == Success(RowCommands(rows, k).value[0])
  {
    LinksOnRow(rows, k, rows[k].preds.value);
  }

  /** Appending the commands of row n keeps the log in row order. */
  lemma AppendRowKeepsOrder(done: seq<Command>, row: seq<Command>, n: nat)
    requires InRowOrder(done, n) && OnRow(row, n)
    ensures InRowOrder(done + row, n + 1)
  {
    var cs := done + row;
    forall i | 0 <= i < |cs|
      ensures i < |done| ==> 0 <= cs[i].Row() < n
      ensures i >= |done| ==> cs[i].Row() == n
    {
      if i > |done| {
        assert cs[i] == row[1..][i - |done| - 1];
      }
    }
  }

  /** The shape commands of a command log, in order. */
  function Shapes(cs: seq<Command>): (s: seq<Command>)
    ensures |s| <= |cs| && forall i :: 0 <= i < |s| ==> s[i].IsShape()
  {
    if cs == [] then []
    else Shapes(cs[..|cs| - 1]) + (if cs[|cs| - 1].IsShape() then [cs[|cs| - 1]] else [])
  }

  lemma {:induction false} ShapesAppend(a: seq<Command>, b: seq<Command>)
    ensures Shapes(a + b) == Shapes(a) + Shapes(b)
    decreases |b|
  {
    if b != [] {
      var init := b[..|b| - 1];
      assert (a + b)[..|a + b| - 1] == a + init;
      ShapesAppend(a, init);
    } else {
      assert a + b == a;
    }
  }

  /** Links draw no shapes. */
  lemma {:induction false} ShapesOfLinks(cs: seq<Command>, k: nat)
    requires LinkCommands(cs, k)
    ensures Shapes(cs) == []
    decreases |cs|
  {
    if cs != [] {
      ShapesOfLinks(cs[..|cs| - 1], k);
    }
  }

  /** A row's commands filter down to its shape. */
  lemma ShapesOfRow(cs: seq<Command>, k: nat)
    requires OnRow(cs, k)
    ensures Shapes(cs) == [cs[0]]
  {
    ShapesOfLinks(cs[1..], k);
    ShapesAppend([cs[0]], cs[1..]);
    assert [cs[0]] + cs[1..] == cs;
    assert Shapes([cs[0]]) == Shapes([]) + [cs[0]];
  }

  /** The shapes of the first n rows are, in order, the shape of each row. */
  predicate RowShapes(rows: seq<Node>, s: seq<Command>, n: nat)
    requires n <= |rows|
  {
    |s| == n && forall k :: 0 <= k < n ==> Shape(rows[k], k) == Success(s[k])
  }

  /**
   * The chart is drawn in row order: every command lies on one of the rows,
   * rows never go back, and the shapes are exactly one per row, each the
   * row's own shape.
   */
  lemma {:induction false} PlanRowsInRowOrder(rows: seq<Node>, n: nat)
    requires n <= |rows| && AllHavePreds(rows) && PlanRows(rows, n).Success?
    ensures InRowOrder(PlanRows(rows, n).value, n)
    ensures RowShapes(rows, Shapes(PlanRows(rows, n).value), n)
  {
    if n > 0 {
      assert RowSteps(rows, n) == RowSteps(rows, n - 1) + [RowCommands(rows, n - 1)];
      ChainSnoc(RowSteps(rows, n - 1), RowCommands(rows, n - 1));
      PlanRowsInRowOrder(rows, n - 1);
      var done := PlanRows(rows, n - 1).value;
      var row := RowCommands(rows, n - 1).value;
      RowCommandsOnRow(rows, n - 1);
      AppendRowKeepsOrder(done, row, n - 1);
      ShapesAppend(done, row);
      ShapesOfRow(row, n - 1);
      var s := Shapes(done + row);
      assert s == Shapes(done) + [row[0]];
      forall k | 0 <= k < n
        ensures Shape(rows[k], k) == Success(s[k])
      {
        if k < n - 1 {
          assert s[k] == Shapes(done)[k];
        }
      }
    }
  }

  /*********************************************************************
   * Imported projects meet the chart's precondition
   *********************************************************************/

  /** Every node of the tree, the given one included, carries a `predecessors` list. */
  ghost predicate TreeHasPreds(n: Node)
    decreases n
  {
    n.preds.Some? && (n.Category? ==> forall k :: 0 <= k < |n.children| ==> TreeHasPreds(n.children[k]))
  }

  lemma AllHavePredsConcat(a: seq<Node>, b: seq<Node>)
    requires AllHavePreds(a) && AllHavePreds(b)
    ensures AllHavePreds(a + b)
  {
    forall k | 0 <= k < |a + b|
      ensures (a + b)[k] == if k < |a| then a[k] else b[k - |a|]
    {
    }
  }

  lemma {:induction false} SubtreeHasPreds(n: Node)
    requires TreeHasPreds(n)
    ensures AllHavePreds(Subtree(n))
    decreases n, 1
  {
    if n.Category? {
      FlattenHasPreds(n.children);
    }
  }

  lemma {:induction false} FlattenHasPreds(cs: seq<Node>)
    requires forall k :: 0 <= k < |cs| ==> TreeHasPreds(cs[k])
    ensures AllHavePreds(Flatten(cs))
    decreases cs, 0
  {
    if cs != [] {
      SubtreeHasPreds(cs[0]);
      FlattenHasPreds(cs[1..]);
      AllHavePredsConcat([cs[0]], Subtree(cs[0]));
      AllHavePredsConcat([cs[0]] + Subtree(cs[0]), Flatten(cs[1..]));
    }
  }

  lemma {:induction false} AssembledHasPreds(a: Arena, p: nat)
    requires ForwardFrom(a, p)
    requires forall q :: 0 <= q < |a.entries| ==> a.entries[q].node.preds.Some?
    ensures TreeHasPreds(Assemble(a, p))
    decreases |a.entries| - p
  {
    var n := Assemble(a, p);
    if n.Category? {
      var e := a.entries[p];
      forall k | 0 <= k < |n.children|
        ensures TreeHasPreds(n.children[k])
      {
        assert n.children[k] == Assemble(a, e.children[k]);
        AssembledHasPreds(a, e.children[k]);
      }
    }
  }

  /** Every row of an imported project carries predecessors, so its chart can be planned. */
  lemma ImportedRowsHavePreds(name: string, recs: seq<Record>)
    ensures TopForward(Expected(recs))
    ensures AllHavePreds(GetList(ToProject(name, Expected(recs)).root))
  {
    ImportTopForward(recs);
    var a := Expected(recs);
    forall q | 0 <= q < |a.entries|
      ensures a.entries[q].node.preds.Some?
    {
      assert a.entries[q].node == MakeNode(recs[q]);
    }
    var root := ToProject(name, a).root;
    forall k | 0 <= k < |root.children|
      ensures TreeHasPreds(root.children[k])
    {
      AssembledHasPreds(a, a.top[k]);
    }
    FlattenHasPreds(root.children);
  }

  /**
   * A predecessor Task ending on day 10 and a successor Task on the next row:
   * starting on day 5 no link is drawn, starting on day 15 one elbow from
   * row 0 to row 1 and an arrival dot.
   */
  lemma ElbowSkipExample(pred: Node, succ: Node)
    requires pred == Task(1, "a", 0, 10, 0, false, Some([]))
    requires succ.Task? && succ.id == 2 && succ.preds == Some([1])
    ensures succ.start == 5 ==> Link([pred, succ], 1, 1) == Success([])
    ensures succ.start == 15 ==>
              Link([pred, succ], 1, 1) == Success([Line([10, 15, 15], [0, 0, 1]), Dot(15, 1)])
  {
    var rows := [pred, succ];
    assert IdsOf(rows) == [1, 2];
    LinkFromLastRow(rows, 1, 1);
    var m := IndexMap(IdsOf(rows));
    assert m[1] == 0 by {
      assert rows[m[1]].id == 1;
    }
    assert End(pred) == Success(10);
    if succ.start == 15 {
      assert Start(succ) == Success(15);
      assert Elbow(10, 15, 0, 1, false) == [Line([10, 15, 15], [0, 0, 1]), Dot(15, 1)];
    }
  }
}
