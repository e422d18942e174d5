/** The deterministic part of trackRanks in index.js: the surfaces of a run,
    the task cross product, the choice of extractor per task and the
    accumulation of every task's records before deduplication. */
module TaskGen {
  import opened Common
  import opened Normalize
  import opened Dedupe
  import Seqs
  import Arith

  /** One unit of work: a keyword, a location row and a surface. */
  datatype Task = Task(keyword: string, location: Location, surface: string)

  /** `includeMaps ? [surface, 'maps'] : [surface]`. */
  function Surfaces(surface: string, includeMaps: bool): (ss: seq<string>)
    ensures |ss| == (if includeMaps then 2 else 1)
    ensures ss[0] == surface
    ensures includeMaps ==> ss[1] == "maps"
  {
    if includeMaps then [surface, "maps"] else [surface]
  }

  /** The task at position n of the cross product: the keyword changes every
      |locations| * |surfaces| positions, the location every |surfaces|
      positions and the surface at every position. */
  function TaskAtIndex(keywords: seq<string>, locations: seq<Location>, surfaces: seq<string>, n: nat): Task
    requires n < |keywords| * |locations| * |surfaces|
  {
    Arith.GridCoords(n, |keywords|, |locations|, |surfaces|);
    Task(keywords[n / (|locations| * |surfaces|)], locations[n / |surfaces| % |locations|], surfaces[n % |surfaces|])
  }

  /** All tasks of the three nested loops over keywords, locations and
      surfaces, one per position. */
  function CrossProduct(keywords: seq<string>, locations: seq<Location>, surfaces: seq<string>): seq<Task>
  {
    seq(|keywords| * |locations| * |surfaces|,
        n requires 0 <= n < |keywords| * |locations| * |surfaces| => TaskAtIndex(keywords, locations, surfaces, n))
  }

  /** The nested `for` loops of trackRanks that push one task per combination. */
  method GenerateTasks(keywords: seq<string>, locations: seq<Location>, surfaces: seq<string>)
    returns (tasks: seq<Task>)
    ensures tasks == CrossProduct(keywords, locations, surfaces)
    ensures |tasks| == |keywords| * |locations| * |surfaces|
  {
    ghost var all := CrossProduct(keywords, locations, surfaces);
    tasks := [];
    var i := 0;
    while i < |keywords|
      invariant 0 <= i <= |keywords|
      invariant |tasks| == i * |locations| * |surfaces|
      invariant tasks <= all
    {
      var j := 0;
      while j < |locations|
        invariant 0 <= j <= |locations|
        invariant |tasks| == (i * |locations| + j) * |surfaces|
        invariant tasks <= all
      {
        var k := 0;
        while k < |surfaces|
          invariant 0 <= k <= |surfaces|
          invariant |tasks| == (i * |locations| + j) * |surfaces| + k
          invariant tasks <= all
        {
          TaskAt(keywords, locations, surfaces, i, j, k);
          Seqs.PrefixExtend(tasks, all, Task(keywords[i], locations[j], surfaces[k]));
          tasks := tasks + [Task(keywords[i], locations[j], surfaces[k])];
          k := k + 1;
        }
        j := j + 1;
      }
      Arith.NextRow(i, |locations|, |surfaces|);
      i := i + 1;
    }
    Seqs.PrefixFull(tasks, all);
  }

  /** Task (i, j, k) sits at index (i * |locations| + j) * |surfaces| + k, so
      the keyword varies slowest and the surface fastest. */
  lemma TaskAt(keywords: seq<string>, locations: seq<Location>, surfaces: seq<string>, i: nat, j: nat, k: nat)
    requires i < |keywords| && j < |locations| && k < |surfaces|
    ensures (i * |locations| + j) * |surfaces| + k < |CrossProduct(keywords, locations, surfaces)|
    ensures CrossProduct(keywords, locations, surfaces)[(i * |locations| + j) * |surfaces| + k]
         == Task(keywords[i], locations[j], surfaces[k])
  {
    Arith.GridIndex(i, j, k, |keywords|, |locations|, |surfaces|);
  }

  /** A task is generated exactly when its keyword, location and surface are
      among the inputs: nothing is skipped and nothing is invented. */
  lemma CrossProductMembers(keywords: seq<string>, locations: seq<Location>, surfaces: seq<string>, t: Task)
    ensures t in CrossProduct(keywords, locations, surfaces) <==>
              t.keyword in keywords && t.location in locations && t.surface in surfaces
  {
    if t in CrossProduct(keywords, locations, surfaces) {
      CrossProductSound(keywords, locations, surfaces, t);
    }
    if t.keyword in keywords && t.location in locations && t.surface in surfaces {
      CrossProductComplete(keywords, locations, surfaces, t);
    }
  }

  /** Nothing is invented: a generated task is built from the inputs. */
  lemma CrossProductSound(keywords: seq<string>, locations: seq<Location>, surfaces: seq<string>, t: Task)
    requires t in CrossProduct(keywords, locations, surfaces)
    ensures t.keyword in keywords && t.location in locations && t.surface in surfaces
  {
    var ts := CrossProduct(keywords, locations, surfaces);
    var n :| 0 <= n < |ts| && ts[n] == t;
    TaskFrom(keywords, locations, surfaces, n);
  }

  /** The task at any position is built from the inputs. */
  lemma TaskFrom(keywords: seq<string>, locations: seq<Location>, surfaces: seq<string>, n: nat)
    requires n < |keywords| * |locations| * |surfaces|
    ensures var t := TaskAtIndex(keywords, locations, surfaces, n);
            t.keyword in keywords && t.location in locations && t.surface in surfaces
  {
    Arith.GridCoords(n, |keywords|, |locations|, |surfaces|);
  }

  /** Nothing is skipped: every combination of inputs is generated. */
  lemma CrossProductComplete(keywords: seq<string>, locations: seq<Location>, surfaces: seq<string>, t: Task)
    requires t.keyword in keywords && t.location in locations && t.surface in surfaces
    ensures t in CrossProduct(keywords, locations, surfaces)
  {
    var i :| 0 <= i < |keywords| && keywords[i] == t.keyword;
    var j :| 0 <= j < |locations| && locations[j] == t.location;
    var k :| 0 <= k < |surfaces| && surfaces[k] == t.surface;
    TaskAt(keywords, locations, surfaces, i, j, k);
  }

  /** No keywords or no locations: no tasks, and no error. */
  lemma EmptyInputsNoTasks(keywords: seq<string>, locations: seq<Location>, surfaces: seq<string>)
    requires keywords == [] || locations == []
    ensures CrossProduct(keywords, locations, surfaces) == []
  {
  }

  /** The context an extractor receives for a task: the device is the
      location row's own. */
  function TaskContext(t: Task): (ctx: Context)
    ensures ctx.keyword == t.keyword && ctx.location == t.location
    ensures ctx.device == t.location.device && ctx.surface == t.surface
  {
    Context(t.keyword, t.location, t.location.device, t.surface)
  }

  /** The records one task contributes given what callSerpApi returned for it
      (`None` for its `null`), kept only when truthy: 'maps' tasks read the
      local results, every other surface the organic ones. A failed call
      contributes nothing. */
  function TaskRecords(hostname: HostParser, parse: JsonParser, t: Task, response: Option<Json>): (rs: seq<Record>)
    ensures response.None? || !Truthy(response.value) ==> rs == []
    ensures response.Some? && Truthy(response.value) && t.surface == "maps" ==>
              rs == Extracted(hostname, parse, response.value, "local_results", TaskContext(t))
    ensures response.Some? && Truthy(response.value) && t.surface != "maps" ==>
              rs == Extracted(hostname, parse, response.value, "organic", TaskContext(t))
  {
    match response
    case None => []
    case Some(payload) =>
      if !Truthy(payload) then []
      else if t.surface == "maps" then Extracted(hostname, parse, payload, "local_results", TaskContext(t))
      else Extracted(hostname, parse, payload, "organic", TaskContext(t))
  }

  /** The per-task callback of trackRanks: dispatch on the surface. */
  method ProcessTask(hostname: HostParser, parse: JsonParser, t: Task, response: Option<Json>)
    returns (taskResults: seq<Record>)
    ensures taskResults == TaskRecords(hostname, parse, t, response)
  {
    taskResults := [];
    if response.Some? && Truthy(response.value) {
      if t.surface == "maps" {
        taskResults := ExtractLocalResults(hostname, parse, response.value, TaskContext(t));
      } else {
        taskResults := ExtractOrganicResults(hostname, parse, response.value, TaskContext(t));
      }
    }
  }

  /** The records of each task, given what its own call of callSerpApi
      returned: `responses[i]` is the answer to `tasks[i]`, so two equal tasks
      can receive different pages, or one of them can fail. */
  function TaskOutputs(hostname: HostParser, parse: JsonParser, tasks: seq<Task>, responses: seq<Option<Json>>)
    : (outs: seq<seq<Record>>)
    requires |responses| == |tasks|
    ensures |outs| == |tasks|
    ensures forall i :: 0 <= i < |tasks| ==> outs[i] == TaskRecords(hostname, parse, tasks[i], responses[i])
  {
    seq(|tasks|, i requires 0 <= i < |tasks| => TaskRecords(hostname, parse, tasks[i], responses[i]))
  }

  /** Every task's records, task after task in submission order. */
  function Collected(outs: seq<seq<Record>>): seq<Record>
  {
    Seqs.Concat(outs)
  }

  /** Accumulation distributes over a split of the task list. */
  lemma CollectedAppend(a: seq<seq<Record>>, b: seq<seq<Record>>)
    ensures Collected(a + b) == Collected(a) + Collected(b)
  {
    Seqs.ConcatAppend(a, b);
  }

  /** Each task's records occupy their own stretch of the collection. */
  lemma CollectedSingle(out: seq<Record>)
    ensures Collected([out]) == out
  {
    assert [out][..0] == [];
    assert Seqs.Concat([out]) == Seqs.Concat([out][..0]) + out;
  }

  /** A task with no records takes none away from the tasks before and after it. */
  lemma EmptyTaskIsolated(before: seq<seq<Record>>, after: seq<seq<Record>>)
    ensures Collected(before + [[]] + after) == Collected(before) + Collected(after)
  {
    CollectedAppend(before + [[]], after);
    CollectedAppend(before, [[]]);
    CollectedSingle([]);
  }

  /** A task whose call failed contributes no records and takes none away from
      the tasks before and after it. */
  lemma FailedTaskIsolated(hostname: HostParser, parse: JsonParser, tasks: seq<Task>,
                           responses: seq<Option<Json>>, k: nat)
    requires |responses| == |tasks| && k < |tasks|
    requires responses[k].None?
    ensures var outs := TaskOutputs(hostname, parse, tasks, responses);
            Collected(outs) == Collected(outs[..k]) + Collected(outs[k + 1..])
  {
    var outs := TaskOutputs(hostname, parse, tasks, responses);
    Seqs.AroundIndex(outs, k);
    assert outs[k] == [];
    EmptyTaskIsolated(outs[..k], outs[k + 1..]);
  }

  /** The loop of trackRanks that runs every task and appends its records. */
  method CollectAll(hostname: HostParser, parse: JsonParser, tasks: seq<Task>, responses: seq<Option<Json>>)
    returns (allResults: seq<Record>)
    requires |responses| == |tasks|
    ensures allResults == Collected(TaskOutputs(hostname, parse, tasks, responses))
  {
    ghost var outs := TaskOutputs(hostname, parse, tasks, responses);
    allResults := [];
    var i := 0;
    while i < |tasks|
      invariant 0 <= i <= |tasks|
      invariant allResults == Collected(outs[..i])
    {
      var taskResults := ProcessTask(hostname, parse, tasks[i], responses[i]);
      assert outs[..i + 1][..i] == outs[..i];
      allResults := allResults + taskResults;
      i := i + 1;
    }
    assert outs[..i] == outs;
  }

  /** trackRanks without its file and console plumbing, run one task at a time
      in submission order: generate the tasks, accumulate each task's records
      and deduplicate the whole collection. `responses` holds the answer of
      each call, one per generated task. */
  method TrackRanks(hostname: HostParser, parse: JsonParser, responses: seq<Option<Json>>,
                    keywords: seq<string>, locations: seq<Location>, surface: string, includeMaps: bool)
    returns (deduplicated: seq<Record>)
    requires |responses| == |keywords| * |locations| * |Surfaces(surface, includeMaps)|
    ensures var tasks := CrossProduct(keywords, locations, Surfaces(surface, includeMaps));
            |tasks| == |responses| &&
            deduplicated == Dedup(Collected(TaskOutputs(hostname, parse, tasks, responses)))
  {
    var surfaces := Surfaces(surface, includeMaps);
    var tasks := GenerateTasks(keywords, locations, surfaces);
    assert |tasks| == |responses|;
    var allResults := CollectAll(hostname, parse, tasks, responses);
    deduplicated := DeduplicateByDomain(allResults);
  }
}
