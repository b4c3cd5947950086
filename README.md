# pyproject schedule model in Dafny

This project models the core of *pyproject*, a small project-planning tool.
The tool keeps a schedule as a tree:

- a **Category** groups child items;
- a **Task** has a start date, a duration, a margin and a critical flag;
- a **Milestone** is a single date.

The model covers four parts of the tool:

- the tree's operations: `end`, `add_child`, `get_list`, `get_time_bounds`, `to_dict`, and the `Project` constructor;
- the import of a ProjectLibre CSV export (`Project.from_csv`);
- the planner that turns the tree into the rows, bars, diamonds and predecessor links of a Gantt chart;
- the older `planner` package's serialiser.

Dates and durations are whole day counts. A Python `dict` keeps its
insertion order, so a `to_dict` result is an ordered list of key/value
fields. The text that `str()` gives for a date, timedelta or bool is kept
as a tagged leaf.

Files and modules (one module per file):

- `wrappers.dfy` — `Wrappers`: `Option` and `Result`, standing for `None` defaults and raised exceptions.
- `values.dfy` — `Values`: the dict/list projection and the `PlanObjectType` tag names.
- `schedule.dfy` — `Schedule`: the schedule tree of src/pyproject/plan.py and its properties.
- `builder.dfy` — `Builder`: `Project.from_csv`, modelled imperatively over an arena of the objects it builds. The arena is indexed by record position, so the objects shared between `data_dict`, `data_list` and the parents' `children` lists stay shared.
- `gantt.dfy` — `Gantt`: lines 23-51 of `Gantt.__init__` in src/pyproject/graphics.py, as imperative loops. Each matplotlib call becomes a command appended to a log. The loops are proved equal to a specification (`PlanRows`), and properties of that specification are proved as lemmas.
- `legacy.dfy` — `Legacy`: planner/plan.py.

Two behaviours of the code are worth stating outright:

- **Bounds of imported Categories.** `get_time_bounds` computes a Category's boundaries from all its children (src/pyproject/plan.py:133-161) unless both a start and a duration were given. `from_csv` gives every Category its own start and duration (src/pyproject/plan.py:200), so for an imported Category that override always wins (`Builder.ImportedCategoryBounds`, `Builder.CategoryWithTwoTasks`).
- **Unknown predecessor ids.** A predecessor id that names no row is not skipped: `idx_map[p]` raises `KeyError` (src/pyproject/graphics.py:43), and the whole chart fails (`Gantt.MissingPredecessorFails`).

## Model

| member | source | states |
|---|---|---|
| Values.PlanObjectType.Name | src/pyproject/plan.py:21 | The `.name` of each enum member: TASK for a Task, MILESTONE for a Milestone, CATEGORY for a Category, and no two members share a name |
| Schedule.Node.Type | src/pyproject/plan.py:41-43 | The `type` property: CATEGORY exactly for a Category, TASK exactly for a Task, MILESTONE exactly for a Milestone (also lines 59-61 and 83-85) |
| Schedule.Node.HasOverride | src/pyproject/plan.py:139 | Both the start and the duration given to the Category are set; when so, `Schedule.OverrideWins` states the bounds |
| Schedule.Start | src/pyproject/plan.py:87-90 | A Task or Milestone starts at its `start`; a Category's start exists exactly when its bounds do, and is their first component |
| Schedule.End | src/pyproject/plan.py:37-39 | A Task ends at start + duration, a Milestone at its start, a Category at the second component of its bounds (which exists exactly when the bounds do) |
| Schedule.AddChild | src/pyproject/plan.py:80-81 | The child is appended after all existing children, whose order is unchanged; id, name, override and predecessors are kept |
| Schedule.Subtree | src/pyproject/plan.py:102-109 | The rows below one node: a Category's flattened children, nothing below a Task or Milestone; properties in `Schedule.ChildPrecedesItsSubtree`, `Schedule.FlattenMembers` and `Schedule.FlattenLength` |
| Schedule.Flatten | src/pyproject/plan.py:102-109 | Each child, then its own rows, then the next sibling; properties in `Schedule.FlattenAppend`, `Schedule.FlattenMembers` and `Schedule.FlattenLength` |
| Schedule.GetList | src/pyproject/plan.py:102-109 | `get_list`: properties in `Schedule.GetListMembers`, `Schedule.GetListLength` and `Schedule.AddChildExtendsList` |
| Schedule.Interval | src/pyproject/plan.py:132-161 | The (start, end) of any node, or the error `get_time_bounds` raises; properties in `Schedule.IntervalOrdered` |
| Schedule.Bounds | src/pyproject/plan.py:132-161 | `get_time_bounds`; properties in `Schedule.OverrideWins`, `Schedule.BoundsOfChildren`, `Schedule.EmptyCategoryHasNoBounds` and `Schedule.BoundsSpanLeaves` |
| Schedule.Aggregate | src/pyproject/plan.py:142-161 | The min/max loop over the children; properties in `Schedule.AggregateMinMax`, `Schedule.AggregateOrdered` and `Schedule.AggregateSpansLeaves` |
| Schedule.AddChildExtendsList | src/pyproject/plan.py:80-81 | After `add_child`, `get_list` is the old list, then the child, then the child's own descendants |
| Schedule.FlattenAppend | src/pyproject/plan.py:102-109 | Flattening a concatenation of child lists is the concatenation of their flattenings |
| Schedule.ChildPrecedesItsSubtree | src/pyproject/plan.py:102-109 | In `get_list` each child comes right before its own subtree, which comes before the next sibling |
| Schedule.FlattenLength | src/pyproject/plan.py:102-109 | The flattening of a child list has one row per node in those subtrees |
| Schedule.GetListLength | src/pyproject/plan.py:102-109 | `get_list` has one row per proper descendant: the tree size minus one |
| Schedule.FlattenMembers | src/pyproject/plan.py:102-109 | A node is in the flattening of a child list exactly when it is one of the children or a descendant of one |
| Schedule.GetListMembers | src/pyproject/plan.py:102-109 | The rows of `get_list` are exactly the descendants of the Category, which itself is excluded |
| Schedule.OverrideWins | src/pyproject/plan.py:139-140 | With both override start and duration set, the bounds are (start, start + duration) whatever the children are |
| Schedule.AggregateMinMax | src/pyproject/plan.py:142-161 | Aggregation succeeds exactly when the list is non-empty and every child has bounds; the result is a lower bound of all child starts and an upper bound of all child ends, and both are attained |
| Schedule.BoundsOfChildren | src/pyproject/plan.py:142-161 | Without an override, a Category's bounds are the min start and max end over its children, each attained by some child |
| Schedule.EmptyCategoryHasNoBounds | src/pyproject/plan.py:159 | With no override and no children, `min([])` raises: the bounds fail with EmptyCategoryBounds |
| Schedule.IntervalOrdered | src/pyproject/plan.py:142-161 | start <= end for any node whose subtree has no negative duration |
| Schedule.AggregateOrdered | src/pyproject/plan.py:142-161 | Aggregated start <= aggregated end when no child has a negative duration |
| Schedule.AggregateSpansLeaves | src/pyproject/plan.py:142-161 | Without overrides below, the aggregated start is the earliest start and the aggregated end the latest end over the Task/Milestone rows of the flattening, both attained |
| Schedule.BoundsSpanLeaves | src/pyproject/plan.py:132-161 | Without overrides in the subtree, a Category's bounds are the min start and max end over the leaf rows of `get_list`, both attained |
| Schedule.ToDict | src/pyproject/plan.py:20-100 | Every projection starts with id, name and the type tag. A Task then holds exactly start, duration, margin and critical, with its own values; a Milestone holds exactly its start; a Category holds exactly 'children', whose k-th item is the dict of its k-th child |
| Schedule.IdsOf | src/pyproject/graphics.py:25 | The id of each row, position by position |
| Schedule.IdsOfAppend | src/pyproject/graphics.py:25 | The ids of concatenated rows are the concatenated ids |
| Schedule.ToDictPreorder | src/pyproject/plan.py:97-100 | Reading the ids out of a node's nested dict gives its id followed by its descendants' ids in `get_list` order |
| Schedule.NoIdFields | src/pyproject/plan.py:45-51 | Fields other than id and children hold no ids |
| Schedule.ToDictListPreorder | src/pyproject/plan.py:97-100 | The ids under a 'children' list are those of the flattening of the children, in order |
| Schedule.CategoryDictIds | src/pyproject/plan.py:97-100 | A Category's dict holds its own id, then exactly the ids of `get_list`, in that order |
| Schedule.NewProject | src/pyproject/plan.py:165-169 | The root is a Category named 'root' with id 0 and no override; its children are the given list, or empty when none is given |
| Schedule.ProjectToDict | src/pyproject/plan.py:171-172 | The dict has the single key `name`, mapped to the root's projection |
| Values.Keys | src/pyproject/plan.py:20-21 | The keys of a dict, in insertion order, one per field |
| Values.Lookup | src/pyproject/plan.py:20-21 | A key is found exactly when it is among the keys, and the value found is the one stored under the first field with that key |
| Builder.MakeNode | src/pyproject/plan.py:199-207 | Classification is Category before Milestone before Task. A Category carries its record's start and duration as override, and no children. The external id, name and predecessors are copied |
| Builder.LastWithId | src/pyproject/plan.py:208 | `data_dict[id]` after n assignments: the last of the first n records with that id, or none when no record has it |
| Builder.StoredIsLatest | src/pyproject/plan.py:208 | The `data_dict` map built by the loop holds an id exactly when some record so far had it, and maps it to the latest such record |
| Builder.Stored | src/pyproject/plan.py:185-208 | `data_dict` after the first n records; `Builder.StoredIsLatest` states it holds exactly the ids seen and maps each to the latest record with it, and `Builder.FromCsv` keeps its loop variable equal to it |
| Builder.ParentOf | src/pyproject/plan.py:208-213 | The object `data_dict[parent_id]` finds for a record, looked up after the record itself is stored; properties in `Builder.ParentNoLaterThanChild` |
| Builder.Fault | src/pyproject/plan.py:210-213 | The exception a record raises when it is attached: KeyError for an unknown parent id, AttributeError for a parent without `add_child`; tied to the loop by `Builder.FromCsv` and to the records by `Builder.SelfParentIsOwnChild` |
| Builder.ChildrenOf | src/pyproject/plan.py:213 | The positions appended to one object's children; properties in `Builder.ChildrenOfMembers` and `Builder.ChildrenInInputOrder` |
| Builder.TopLevel | src/pyproject/plan.py:210-211 | `data_list`; properties in `Builder.TopLevelMembers` and `Builder.TopLevelInInputOrder` |
| Builder.Expected | src/pyproject/plan.py:181-216 | The object graph the import builds, stated without the loop; `Builder.FromCsv` is proved to build it |
| Builder.FromCsv | src/pyproject/plan.py:181-216 | Fails exactly when some record faults (its parent id is unknown when it is read, or names a Task or Milestone), with the first fault's error; otherwise the object graph is `Expected`: one object per record, the parent-0 records in input order as `data_list`, and each parent's children in input order |
| Builder.BuiltStep | src/pyproject/plan.py:206-213 | One loop pass adds the new object and appends it to exactly one parent's children (or to the top level) |
| Builder.BuiltTopLevel | src/pyproject/plan.py:206-211 | A top-level record adds its object and changes no existing object's children |
| Builder.BuiltAttached | src/pyproject/plan.py:206-213 | A record found under entry q adds its object and appends its position to q's children only |
| Builder.NothingAttachedYet | src/pyproject/plan.py:208-213 | No record can be attached to an object that has not been created yet |
| Builder.ChildrenOfMembers | src/pyproject/plan.py:213 | A record is among an object's children exactly when its parent lookup found that object |
| Builder.TopLevelMembers | src/pyproject/plan.py:210-211 | A record is top level exactly when its parent id is 0 |
| Builder.ChildrenInInputOrder | src/pyproject/plan.py:213 | Children are appended in input order: their positions strictly increase |
| Builder.TopLevelInInputOrder | src/pyproject/plan.py:210-211 | `data_list` keeps input order |
| Builder.ParentNoLaterThanChild | src/pyproject/plan.py:208-213 | The parent found is never a later record. It is the record itself exactly when the parent id equals the record's own id |
| Builder.SelfParentIsOwnChild | src/pyproject/plan.py:199-213 | A Category record whose parent id is its own id is accepted and becomes its own child; the same record as a Task or Milestone fails, since those have no `add_child` |
| Builder.EachRecordPlacedOnce | src/pyproject/plan.py:210-213 | In a successful import each record is either top level (parent id 0) or the child of exactly one object, the one its parent id names |
| Builder.Assemble | src/pyproject/plan.py:213 | The tree at an object keeps that object's id, name and kind and leaves Tasks and Milestones unchanged; a Category's k-th child is the tree at the k-th position appended to it. Defined whenever the objects below it form a finite tree, whatever the rest of the graph holds |
| Builder.ToProject | src/pyproject/plan.py:216 | The project's root, named 'root' with id 0, holds the top-level trees in `data_list` order; defined for every import (`Builder.ImportTopForward`) |
| Builder.ForwardUnlessSelfAttached | src/pyproject/plan.py:208-213 | Below any record not attached to itself, every child comes after its parent: that record roots a finite tree, whatever the other records are |
| Builder.ImportTopForward | src/pyproject/plan.py:210-216 | Every object in `data_list` roots a finite tree, for every input, so the project is always built |
| Builder.ForwardNotSelfAttached | src/pyproject/plan.py:208-213 | An object that roots a finite tree is not its own child |
| Builder.SubtreePositions | src/pyproject/plan.py:102-109 | The positions below an object, in `get_list` order, are all later positions rooting finite trees |
| Builder.FlattenPositions | src/pyproject/plan.py:102-109 | The positions `get_list` visits over a list of trees all root finite trees |
| Builder.SubtreeAtPositions | src/pyproject/plan.py:102-109 | `get_list` of the tree at an object is the list of trees at `SubtreePositions`, in order |
| Builder.FlattenAtPositions | src/pyproject/plan.py:102-109 | The flattening of the trees at a list of positions is the list of trees at `FlattenPositions` |
| Builder.ProjectRows | src/pyproject/plan.py:216 | The rows of the project's `get_list` are the trees at `ProjectPositions`, in that order |
| Builder.SubtreePositionsParents | src/pyproject/plan.py:213 | Every position below an imported object was attached to that object or to one below it |
| Builder.FlattenPositionsParents | src/pyproject/plan.py:210-213 | Every listed position is one of the roots or was attached to a listed object |
| Builder.FlattenPositionsClosed | src/pyproject/plan.py:102-109 | A child of a listed Category is listed too |
| Builder.ImportedRows | src/pyproject/plan.py:199-216 | In a successful import, a record's object is a row of the project's `get_list` exactly when its chain of parent ids reaches the top level |
| Builder.SelfParentedLeftOut | src/pyproject/plan.py:208-216 | A record whose parent id is its own id, and every record hanging under it, is not a row of the project's `get_list` |
| Builder.SelfParentedCategoryExample | src/pyproject/plan.py:199-216 | A Category, a Category naming itself as parent and a Task under the latter import without error, and the project's `get_list` holds only the first Category |
| Builder.ImportIsForest | src/pyproject/plan.py:199-216 | When no record is its own parent, every object roots a finite tree: the objects form a forest |
| Builder.ImportedCategoryBounds | src/pyproject/plan.py:200 | An imported Category's bounds are its own record's start and start + duration |
| Builder.CategoryWithTwoTasks | src/pyproject/plan.py:199-213 | A Category followed by two Tasks naming it: both become its children in input order, and its bounds are its own start and duration, not its children's span |
| Gantt.IndexMap | src/pyproject/graphics.py:25-26 | `idx_map` holds exactly the row ids, each mapped to a position that carries that id |
| Gantt.IndexMapKeepsLast | src/pyproject/graphics.py:26 | When ids repeat, the position kept is the last one: no later row has that id |
| Gantt.Shape | src/pyproject/graphics.py:34-41 | A Category draws a black bar over its bounds and fails with `NoBounds` (the `min([])` error of `get_time_bounds`) when it has none, and that is the only error a shape raises; a Task draws a bar from start for duration, in the critical colour exactly when it is critical; a Milestone draws a diamond at its start; each sits on its own row |
| Gantt.Link | src/pyproject/graphics.py:43-51 | What one predecessor id draws, or the exception it raises; properties in `Gantt.LinkMissing`, `Gantt.LinkFromLastRow` and `Gantt.LinkOnRow` |
| Gantt.Links | src/pyproject/graphics.py:42-51 | A row's links in predecessor order, stopping at the first exception; properties in `Gantt.LinksSucceedIff`, `Gantt.LinksFailAt`, `Gantt.LinksSnoc` and `Gantt.LinksOnRow` |
| Gantt.RowCommands | src/pyproject/graphics.py:34-51 | A row's shape, then its links; properties in `Gantt.RowCommandsOnRow` and `Gantt.ShapesOfRow` |
| Gantt.PlanRows | src/pyproject/graphics.py:33-51 | The rows' commands in row order, stopping at the first exception; properties in `Gantt.PlanRowsSucceedIff`, `Gantt.PlanFailsAt` and `Gantt.PlanRowsInRowOrder` |
| Gantt.LinkMissing | src/pyproject/graphics.py:43 | A link fails with MissingPredecessor exactly when the predecessor id names no row |
| Gantt.Elbow | src/pyproject/graphics.py:44-51 | Nothing is drawn when the predecessor ends at or after the row's start. Otherwise: one polyline with xs [pred.end, r.start, r.start] and ys [pred row, pred row, idx], then a dot at (r.start, idx) exactly when the row is not a Milestone; a link to a Milestone draws that one polyline and nothing else |
| Gantt.Draw | src/pyproject/graphics.py:23-51 | The commands issued over all rows of `get_list`, or the first exception raised (without the commands sent before it), equal the specification `PlanRows` |
| Gantt.DrawShape | src/pyproject/graphics.py:34-41 | The shape drawn for one row equals `Shape` |
| Gantt.DrawLinks | src/pyproject/graphics.py:42-51 | The inner loop over a row's predecessors equals `Links` |
| Gantt.DrawLink | src/pyproject/graphics.py:43-51 | One pass of the inner loop equals `Link` |
| Gantt.DrawElbow | src/pyproject/graphics.py:44-51 | The plot calls of one link once both ends are known equal `Elbow` |
| Gantt.ChainSnoc | src/pyproject/graphics.py:33 | One more step appends its commands, or raises its error, unless an earlier step has already raised |
| Gantt.ChainSucceedsIff | src/pyproject/graphics.py:33 | A sequence of steps completes exactly when every step does |
| Gantt.ChainFailsAt | src/pyproject/graphics.py:33 | The first failing step's exception is the result |
| Gantt.LinksSucceedIff | src/pyproject/graphics.py:42-51 | A row's links complete exactly when each predecessor's link does |
| Gantt.PlanRowsSucceedIff | src/pyproject/graphics.py:33-51 | The chart completes exactly when every row's shape and links do |
| Gantt.LinksFailAt | src/pyproject/graphics.py:42-43 | The first failing link's exception ends the row's links |
| Gantt.PlanFailsAt | src/pyproject/graphics.py:33-51 | The first failing row's exception ends the chart |
| Gantt.LinksSnoc | src/pyproject/graphics.py:42-51 | Each predecessor's link appends its commands after those of the earlier predecessors |
| Gantt.PlanRowsSnoc | src/pyproject/graphics.py:33-51 | Each row appends its shape and then its links after the earlier rows' commands |
| Gantt.MissingPredecessorFails | src/pyproject/graphics.py:43 | A predecessor id that names no row makes the whole chart fail; it is not skipped |
| Gantt.UnboundedCategoryFails | src/pyproject/graphics.py:34-36 | A Category row without bounds makes the whole chart fail |
| Gantt.LinkFromLastRow | src/pyproject/graphics.py:43-51 | A link starts at the last row carrying the predecessor's id. It fails with NoBounds when either end has no date; otherwise it is the elbow from that row's end to this row's start |
| Gantt.LinkOnRow | src/pyproject/graphics.py:47-51 | Everything one link draws sits on the successor's row and is not a bar or diamond |
| Gantt.LinksOnRow | src/pyproject/graphics.py:42-51 | Everything a row's links draw sits on that row and is not a bar or diamond |
| Gantt.LinkCommandsAppend | src/pyproject/graphics.py:42-51 | Concatenating link commands of one row keeps them on that row |
| Gantt.RowCommandsOnRow | src/pyproject/graphics.py:33-51 | A row issues its shape first, then only link commands, all on that row |
| Gantt.AppendRowKeepsOrder | src/pyproject/graphics.py:33 | Appending row n's commands to a log of earlier rows keeps rows non-decreasing |
| Gantt.Shapes | src/pyproject/graphics.py:34-41 | Filtering a log keeps only bars and diamonds |
| Gantt.ShapesAppend | src/pyproject/graphics.py:34-41 | Filtering distributes over concatenation |
| Gantt.ShapesOfLinks | src/pyproject/graphics.py:47-51 | Links draw no bars or diamonds |
| Gantt.ShapesOfRow | src/pyproject/graphics.py:34-51 | A row's commands contain exactly one shape, its first |
| Gantt.PlanRowsInRowOrder | src/pyproject/graphics.py:33-51 | Commands come in row order, every one on an existing row. The shapes are exactly one per row, in row order, each that row's own shape |
| Gantt.SubtreeHasPreds | src/pyproject/plan.py:102-109 | When every node of a tree carries predecessors, so does every row of its flattening |
| Gantt.FlattenHasPreds | src/pyproject/plan.py:102-109 | The same for a list of trees |
| Gantt.AllHavePredsConcat | src/pyproject/plan.py:102-109 | Rows that all carry predecessors stay so under concatenation |
| Gantt.AssembledHasPreds | src/pyproject/plan.py:206 | Every node of an imported tree carries the predecessors of its record |
| Gantt.ImportedRowsHavePreds | src/pyproject/plan.py:206 | Every row of an imported project's `get_list` has a `predecessors` attribute, so the chart is defined for it |
| Gantt.ElbowSkipExample | src/pyproject/graphics.py:44-51 | A predecessor ending on day 10 links to nothing when the successor starts on day 5; when it starts on day 15 it links by one elbow from row 0 to row 1 and one dot |
| Legacy.Item.Type | planner/plan.py:37-39 | The `type` property: CATEGORY exactly for a Category, TASK exactly for a Task, MILESTONE exactly for a Milestone (also lines 54-56 and 71-73) |
| Legacy.NewCategory | planner/plan.py:30-32 | Children default to an empty list |
| Legacy.NewTask | planner/plan.py:48-52 | The margin defaults to zero when omitted; start and duration are stored as given |
| Legacy.AddChild | planner/plan.py:34-35 | The child is appended after the existing children, whose order is unchanged |
| Legacy.ToDict | planner/plan.py:20-21 | Every projection starts with id, name and the type tag. A Task's keys are exactly id, name, type, start, duration, margin. A Milestone's are id, name, type, target_date. A Category's are id, name, type, children, with one entry per child |
| Legacy.ChildDicts | planner/plan.py:43 | One dict per child |
| Legacy.MilestoneHasNoStart | planner/plan.py:75-78 | A Milestone's dict has no 'start' key; 'target_date' holds its date |
| Legacy.AddChildAppendsDict | planner/plan.py:34-44 | After `add_child`, the 'children' list is the old list followed by the child's dict |
| Legacy.Parse | planner/plan.py:20-78 | A reader of the dicts `to_dict` writes, independent of it; `Legacy.ParseToDict` proves it inverts `to_dict` |
| Legacy.ParseToDict | planner/plan.py:41-78 | The dict of any object, nested children included, reads back as that same object: `to_dict` loses nothing |
| Legacy.ParseChildDicts | planner/plan.py:43 | A list of child dicts reads back as the children, in order |
| Legacy.ToDictInjective | planner/plan.py:20-78 | Two objects with the same dict are the same object |
| Legacy.NewProject | planner/plan.py:81-83 | `data` defaults to an empty list |
| Legacy.ProjectToDict | planner/plan.py:85-86 | The single key is the project name, mapped to the top-level dicts in order, one per item |
| Legacy.ProjectRoundTrip | planner/plan.py:85-86 | The top-level objects read back from the project's dict in order |

## Left out

- CSV field decoding is not modelled: the `strptime` date format, the float parsing of durations with its `rstrip` calls, the `'true'` tests and the `;`-separated predecessor list (src/pyproject/plan.py:188-197). Records arrive already typed, with whole-day dates and durations.
- The margin column is passed to `Task` as raw text in the source; the model stores it as a day count like the other durations.
- Ids are given values. The `uuid4` text ids of objects built in code are not modelled. In the legacy package ids are strings; in the main package they are integers, the external ids `from_csv` assigns and the root's 0.
- The text form that `str()` gives dates, timedeltas and bools is not modelled: the dict keeps which value was converted, not its characters. So `Legacy.ParseToDict` is a round trip on the model, not on the printed text.
- Schedule.AddChild, Legacy.AddChild: modelled on values, returning the Category with one more child. A Python object appended to two parents, or changed after being appended, is not captured here. `Builder.FromCsv` captures the sharing that import creates, through its arena.
- Builder.Assemble: builds a tree only where the objects below form a finite tree (`Builder.ForwardFrom`). Every object of `data_list` does (`Builder.ImportTopForward`). A Category whose parent id is its own id becomes its own child (`Builder.SelfParentIsOwnChild`), so `get_list` or `to_dict` called on that Category itself calls itself again and again until Python raises RecursionError; the model does not follow those calls. `get_time_bounds` on it returns at once, because its start and duration override decides (src/pyproject/plan.py:200). The project never reaches that Category (`Builder.SelfParentedLeftOut`).
- Gantt.Draw: requires every row to carry a `predecessors` list. Only `from_csv` sets it, and a row without it would raise AttributeError. `Gantt.ImportedRowsHavePreds` shows imported projects meet this.
- Gantt.Draw: on an exception the result is the exception alone. The commands already sent to the figure before it (the earlier rows, and the failing row's bar and earlier links) stay on the pyplot figure in the source; the model does not keep that partial chart.
- Everything matplotlib does is left out: the axes, the y-axis inversion, date formatters, tick labels, the grid and marker sizes (src/pyproject/graphics.py:28-31, 60-73). Drawing calls are abstract commands; names are not drawn.
- Everything after the drawing loop is left out (src/pyproject/graphics.py:55-76): figure sizing, y ticks and the x-tick arithmetic. No failure raised there is modelled: `get_time_bounds` on the root of an empty project, a division by zero at line 65 when the root's span is zero days (a lone Milestone, say), or a negative figure width at line 58 when the span is negative.
- The WBS layout is left out because it does nothing: `WBS.__init__` is empty and `get_dims` is commented out.
- `Project.from_dict` is left out: it only raises NotImplementedError. `Project.get_dims` is left out: it calls a method that does not exist.
- The `RuntimeError("Unknown child data type")` branch of `get_time_bounds` cannot occur: every node is one of the three kinds.
- src/py_project/plan.py is not part of this model: it duplicates planner/plan.py. setup.py is not part of this model: it is packaging metadata.
- Floating point is not modelled. Durations are whole days, and fractional `timedelta(float)` values are not represented.
