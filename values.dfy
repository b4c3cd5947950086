/**
 * The generic key-value projection produced by the `to_dict` methods of
 * both plan modules, and the plan-object type tag they share.
 *
 * A Python dict keeps its insertion order, so a dictionary is an ordered
 * list of (key, value) fields. The textual forms `str(date)`,
 * `str(timedelta)` and `str(bool)` are kept as tagged leaves: the model
 * records WHICH value was turned into text, not the text itself.
 */
module Values {
  import opened Wrappers

  datatype Value =
    | Int(i: int)
    | Str(s: string)
    | DateText(day: int)
    | SpanText(days: int)
    | BoolText(b: bool)
    | List(items: seq<Value>)
    | Dict(fields: seq<(string, Value)>)

  /** `PlanObjectType`: TASK, MILESTONE, CATEGORY. */
  datatype PlanObjectType = TaskType | MilestoneType | CategoryType {
    /** The enum member's `.name`, the string written under 'type'. */
    function Name(): (s: string)
      ensures this == TaskType <==> s == "TASK"
      ensures this == MilestoneType <==> s == "MILESTONE"
      ensures this == CategoryType <==> s == "CATEGORY"
    {
      match this
      case TaskType => "TASK"
      case MilestoneType => "MILESTONE"
      case CategoryType => "CATEGORY"
    }
  }

  /** The keys of a dictionary, in insertion order. */
  function Keys(fields: seq<(string, Value)>): (ks: seq<string>)
    ensures |ks| == |fields|
    ensures forall k :: 0 <= k < |fields| ==> ks[k] == fields[k].0
  {
    if fields == [] then [] else [fields[0].0] + Keys(fields[1..])
  }

  /** `d[key]`: the value stored under the first field with that key. */
  function Lookup(fields: seq<(string, Value)>, key: string): (r: Option<Value>)
    ensures r.Some? <==> key in Keys(fields)
    ensures r.Some? ==> exists k :: 0 <= k < |fields| && fields[k] == (key, r.value) &&
                                    forall j :: 0 <= j < k ==> fields[j].0 != key
  {
    if fields == [] then None
    else if fields[0].0 == key then Some(fields[0].1)
    else Lookup(fields[1..], key)
  }

  /**
   * The ids of a serialised tree in document order: the 'id' of a
   * dictionary, then those found under its 'children' list.
   */
  function ReadIds(v: Value): seq<int>
    decreases v, 2
  {
    match v
    case Dict(fields) => ReadFieldIds(fields)
    case _ => []
  }

  function ReadFieldIds(fields: seq<(string, Value)>): seq<int>
    decreases fields, 1
  {
    if fields == [] then [] else ReadEntryIds(fields[0]) + ReadFieldIds(fields[1..])
  }

  function ReadEntryIds(entry: (string, Value)): seq<int>
    decreases entry, 3
  {
    match entry
    case (key, v) =>
      if key == "id" && v.Int? then [v.i]
      else if key == "children" && v.List? then ReadListIds(v.items)
      else []
  }

  function ReadListIds(items: seq<Value>): seq<int>
    decreases items, 0
  {
    if items == [] then [] else ReadIds(items[0]) + ReadListIds(items[1..])
  }

  /** The id read from a dict that opens with an 'id' entry and two entries that hold none. */
  lemma ReadHeadIds(f: seq<(string, Value)>, id: int)
    requires |f| >= 3 && f[0] == ("id", Int(id))
    requires f[1].0 != "id" && f[1].0 != "children" && f[2].0 != "id" && f[2].0 != "children"
    ensures ReadFieldIds(f) == [id] + ReadFieldIds(f[3..])
  {
    assert ReadFieldIds(f) == [id] + ReadFieldIds(f[1..]);
    assert ReadEntryIds(f[1]) == [] && ReadEntryIds(f[2]) == [];
    assert f[1..][1..] == f[2..];
    assert ReadFieldIds(f[1..]) == ReadFieldIds(f[2..]);
    assert f[2..][1..] == f[3..];
  }
}
