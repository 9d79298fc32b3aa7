/** Correlating events into task records: the `compactions` dictionary of
    the parser's main loop, keyed by task identifier, updated line by line.
    Any raised error ends the whole run, so a run yields either the final
    dictionary or the first error. */
module Correlator {
  import opened Wrappers
  import opened Errors
  import opened Strings
  import opened CompactionTasks
  import opened Events

  /** The `compactions` dictionary. */
  type Tasks = map<string, CompactionTask>

  // ---------------------------------------------------------------------------
  // one event
  // ---------------------------------------------------------------------------

  /** A start event finds or creates the record for its task and overwrites
      the start fields; the end fields and every other record stay as they were. */
  function ApplyStart(tasks: Tasks, e: StartEvent): (r: Tasks)
    ensures r.Keys == tasks.Keys + {e.taskId}
    ensures r[e.taskId].start == Some(e.fields)
    ensures e.taskId in tasks ==>
      && r[e.taskId].end == tasks[e.taskId].end
      && r[e.taskId].taskId == tasks[e.taskId].taskId
      && r[e.taskId].children == tasks[e.taskId].children
    ensures e.taskId !in tasks ==>
      && r[e.taskId].end.None?
      && r[e.taskId].taskId == e.taskId
      && r[e.taskId].children == []
    ensures forall id | id in tasks && id != e.taskId :: r[id] == tasks[id]
  {
    var task := if e.taskId in tasks then tasks[e.taskId] else NewTask(e.taskId);
    tasks[e.taskId := task.(start := Some(e.fields))]
  }

  /** An end event overwrites the end fields of an existing record, leaving
      its start fields alone. For an unknown task the record the source builds
      is never stored, so the dictionary does not change at all. */
  function ApplyEnd(tasks: Tasks, e: EndEvent): (r: Tasks)
    ensures r.Keys == tasks.Keys
    ensures e.taskId in tasks ==>
      && r[e.taskId].end == Some(e.fields)
      && r[e.taskId].start == tasks[e.taskId].start
      && r[e.taskId].taskId == tasks[e.taskId].taskId
      && r[e.taskId].children == tasks[e.taskId].children
    ensures forall id | id in tasks && id != e.taskId :: r[id] == tasks[id]
    ensures e.taskId !in tasks ==> r == tasks
  {
    if e.taskId in tasks then
      tasks[e.taskId := tasks[e.taskId].(end := Some(e.fields))]
    else
      // The source fills a fresh record here but never files it.
      tasks
  }

  /** One event: only a start event adds a record, and only the record of
      the event's own task changes. */
  function Apply(tasks: Tasks, ev: Event): (r: Tasks)
    ensures r.Keys == tasks.Keys + (if ev.Started? then {ev.started.taskId} else {})
    ensures ev.Ignored? ==> r == tasks
    ensures ev.Started? ==> forall id | id in tasks && id != ev.started.taskId :: r[id] == tasks[id]
    ensures ev.Finished? ==> forall id | id in tasks && id != ev.finished.taskId :: r[id] == tasks[id]
  {
    match ev
    case Started(e) => ApplyStart(tasks, e)
    case Finished(e) => ApplyEnd(tasks, e)
    case Ignored => tasks
  }

  /** The shape every record in the dictionary keeps: it is filed under its
      own identifier, its `children` list is empty, and it holds start
      fields, since only a start event ever adds a record. */
  ghost predicate Valid(tasks: Tasks)
  {
    forall id | id in tasks ::
      && tasks[id].taskId == id
      && tasks[id].children == []
      && tasks[id].start.Some?
  }

  lemma ApplyPreservesValid(tasks: Tasks, ev: Event)
    requires Valid(tasks)
    ensures Valid(Apply(tasks, ev))
  {
  }

  // ---------------------------------------------------------------------------
  // a run
  // ---------------------------------------------------------------------------

  /** Processing lines in order from a given dictionary; the first line whose
      event raises ends the run with that error. */
  function RunFrom(tasks: Tasks, lines: seq<LogLine>): (r: Result<Tasks, Error>)
    ensures r.Success? ==> tasks.Keys <= r.value.Keys
    decreases |lines|
  {
    if |lines| == 0 then Success(tasks)
    else
      var ev :- ParseLine(lines[0]);
      RunFrom(Apply(tasks, ev), lines[1..])
  }

  /** The whole run, starting from an empty dictionary. */
  function Run(lines: seq<LogLine>): (r: Result<Tasks, Error>)
    ensures r.Success? ==> r.value.Keys == StartedIds(lines)
  {
    var r := RunFrom(map[], lines);
    if r.Success? then RunKeys(map[], lines); r else r
  }

  /** `lines[i]` is the first line whose event raises. */
  predicate FirstRejected(lines: seq<LogLine>, i: int)
  {
    && 0 <= i < |lines|
    && ParseLine(lines[i]).Failure?
    && forall j | 0 <= j < i :: ParseLine(lines[j]).Success?
  }

  /** A run fails exactly when some line's event raises, and then with the
      error of the first such line; the dictionary plays no part in it. */
  lemma {:induction false} RunFailure(tasks: Tasks, lines: seq<LogLine>)
    ensures RunFrom(tasks, lines).Success? <==>
      forall i | 0 <= i < |lines| :: ParseLine(lines[i]).Success?
    ensures RunFrom(tasks, lines).Failure? ==>
      exists i :: FirstRejected(lines, i) && RunFrom(tasks, lines).error == ParseLine(lines[i]).error
    decreases |lines|
  {
    if |lines| > 0 {
      var parsed := ParseLine(lines[0]);
      if parsed.Failure? {
        assert FirstRejected(lines, 0);
      } else {
        var rest := lines[1..];
        RunFailure(Apply(tasks, parsed.value), rest);
        assert forall i | 1 <= i < |lines| :: lines[i] == rest[i - 1];
        if RunFrom(tasks, lines).Failure? {
          var i :| FirstRejected(rest, i)
            && RunFrom(Apply(tasks, parsed.value), rest).error == ParseLine(rest[i]).error;
          assert FirstRejected(lines, i + 1);
        }
      }
    }
  }

  /** Records are never removed and keep their shape through a run. */
  lemma {:induction false} RunPreservesValid(tasks: Tasks, lines: seq<LogLine>)
    requires Valid(tasks)
    requires RunFrom(tasks, lines).Success?
    ensures Valid(RunFrom(tasks, lines).value)
    ensures tasks.Keys <= RunFrom(tasks, lines).value.Keys
    decreases |lines|
  {
    if |lines| > 0 {
      var ev := ParseLine(lines[0]).value;
      ApplyPreservesValid(tasks, ev);
      RunPreservesValid(Apply(tasks, ev), lines[1..]);
    }
  }

  /** The identifiers of the start lines among `lines`. */
  function StartedIds(lines: seq<LogLine>): set<string>
  {
    set i | 0 <= i < |lines| && lines[i].StartLine? :: lines[i].start.taskId
  }

  lemma StartedIdsTail(lines: seq<LogLine>)
    requires |lines| > 0
    ensures StartedIds(lines)
         == StartedIds(lines[1..]) + (if lines[0].StartLine? then {lines[0].start.taskId} else {})
  {
    var rest := lines[1..];
    assert forall i | 1 <= i < |lines| :: lines[i] == rest[i - 1];
    forall id | id in StartedIds(rest)
      ensures id in StartedIds(lines)
    {
      var i :| 0 <= i < |rest| && rest[i].StartLine? && rest[i].start.taskId == id;
      assert lines[i + 1] == rest[i];
    }
  }

  /** A successful run holds a record exactly for the tasks it started and
      those it began with: an end line never adds a record. */
  lemma {:induction false} RunKeys(tasks: Tasks, lines: seq<LogLine>)
    requires RunFrom(tasks, lines).Success?
    ensures RunFrom(tasks, lines).value.Keys == tasks.Keys + StartedIds(lines)
    decreases |lines|
  {
    if |lines| > 0 {
      var ev := ParseLine(lines[0]).value;
      RunKeys(Apply(tasks, ev), lines[1..]);
      StartedIdsTail(lines);
      if lines[0].StartLine? {
        assert ev.Started? && ev.started.taskId == lines[0].start.taskId;
      }
    }
  }

  /** Log files are processed one after another: running their lines together
      is running the second from where the first left off. */
  lemma {:induction false} RunConcat(tasks: Tasks, first: seq<LogLine>, second: seq<LogLine>)
    ensures RunFrom(tasks, first + second) ==
      match RunFrom(tasks, first)
      case Success(afterFirst) => RunFrom(afterFirst, second)
      case Failure(e) => Failure(e)
    decreases |first|
  {
    if |first| == 0 {
      assert first + second == second;
    } else {
      assert (first + second)[0] == first[0];
      assert (first + second)[1..] == first[1..] + second;
      var parsed := ParseLine(first[0]);
      if parsed.Success? {
        RunConcat(Apply(tasks, parsed.value), first[1..], second);
      }
    }
  }

  // ---------------------------------------------------------------------------
  // ordering
  // ---------------------------------------------------------------------------

  /** A start then an end for one task: the record holds both groups. */
  lemma StartThenEnd(tasks: Tasks, s: StartEvent, e: EndEvent)
    requires s.taskId == e.taskId
    ensures var r := Apply(Apply(tasks, Started(s)), Finished(e));
      && r[s.taskId].start == Some(s.fields)
      && r[s.taskId].end == Some(e.fields)
  {
  }

  /** An end then a start for a task not yet seen: the end is lost, and the
      record holds the start fields only. */
  lemma EndThenStart(tasks: Tasks, s: StartEvent, e: EndEvent)
    requires s.taskId == e.taskId && s.taskId !in tasks
    ensures var r := Apply(Apply(tasks, Finished(e)), Started(s));
      && r[s.taskId].start == Some(s.fields)
      && r[s.taskId].end.None?
  {
  }

  /** A second start for a task replaces every start field of the first,
      keeping whatever end fields the record had. */
  lemma StartTwice(tasks: Tasks, s1: StartEvent, s2: StartEvent)
    requires s1.taskId == s2.taskId
    ensures var once := Apply(tasks, Started(s1));
      var r := Apply(once, Started(s2));
      && r[s2.taskId].start == Some(s2.fields)
      && r[s2.taskId].end == once[s2.taskId].end
      && r.Keys == once.Keys
  {
  }

  /** The two orders of a start line and an end line for one task in a run
      of their own: in order they give the complete record, reversed they
      give a start-only record. */
  lemma PairOrder(cs: StartCaptures, ce: EndCaptures)
    requires cs.taskId == ce.taskId
    ensures BuildStart(cs).Success? && BuildEnd(ce).Success? ==>
      var id := cs.taskId;
      var s, e := BuildStart(cs).value, BuildEnd(ce).value;
      && Run([StartLine(cs), EndLine(ce)])
           == Success(map[id := CompactionTask(id, Some(s.fields), Some(e.fields), [])])
      && Run([EndLine(ce), StartLine(cs)])
           == Success(map[id := CompactionTask(id, Some(s.fields), None, [])])
  {
    if BuildStart(cs).Failure? || BuildEnd(ce).Failure? {
      return;
    }
    var s, e := BuildStart(cs).value, BuildEnd(ce).value;
    assert ParseLine(StartLine(cs)) == Success(Started(s));
    assert ParseLine(EndLine(ce)) == Success(Finished(e));
    RunTwo(map[], StartLine(cs), EndLine(ce));
    RunTwo(map[], EndLine(ce), StartLine(cs));
    InOrder(s, e);
    Reversed(s, e);
  }

  lemma InOrder(s: StartEvent, e: EndEvent)
    requires s.taskId == e.taskId
    ensures var id := s.taskId;
      Apply(Apply(map[], Started(s)), Finished(e))
        == map[id := CompactionTask(id, Some(s.fields), Some(e.fields), [])]
  {
    var id := s.taskId;
    var afterStart := ApplyStart(map[], s);
    assert afterStart == map[id := CompactionTask(id, Some(s.fields), None, [])];
  }

  lemma Reversed(s: StartEvent, e: EndEvent)
    requires s.taskId == e.taskId
    ensures var id := s.taskId;
      Apply(Apply(map[], Finished(e)), Started(s))
        == map[id := CompactionTask(id, Some(s.fields), None, [])]
  {
    assert ApplyEnd(map[], e) == map[];
  }

  lemma RunTwo(tasks: Tasks, first: LogLine, second: LogLine)
    requires ParseLine(first).Success? && ParseLine(second).Success?
    ensures RunFrom(tasks, [first, second])
         == Success(Apply(Apply(tasks, ParseLine(first).value), ParseLine(second).value))
  {
    var lines := [first, second];
    assert lines[1..] == [second];
    assert [second][1..] == [];
    var afterFirst := Apply(tasks, ParseLine(first).value);
    RunStep(tasks, lines);
    RunStep(afterFirst, [second]);
  }

  lemma RunStep(tasks: Tasks, lines: seq<LogLine>)
    requires |lines| > 0 && ParseLine(lines[0]).Success?
    ensures RunFrom(tasks, lines) == RunFrom(Apply(tasks, ParseLine(lines[0]).value), lines[1..])
  {
  }

  /** An end line listing more than one output SSTable, or lacking the
      partition throughput, ends the run with an error wherever it appears. */
  lemma RejectedEndLine(tasks: Tasks, lines: seq<LogLine>, i: int)
    requires 0 <= i < |lines| && lines[i].EndLine?
    requires |Split(lines[i].end.sstablePath, ListSeparator)| > 1
          || lines[i].end.partitionThroughput.None?
    ensures RunFrom(tasks, lines).Failure?
  {
    RunFailure(tasks, lines);
  }

  /** A start line with an input path of fewer than three components ends
      the run with an error wherever it appears. */
  lemma RejectedStartLine(tasks: Tasks, lines: seq<LogLine>, i: int, k: int)
    requires 0 <= i < |lines| && lines[i].StartLine?
    requires 0 <= k < |InputPaths(lines[i].start)| && Count(InputPaths(lines[i].start)[k], '/') < 2
    ensures RunFrom(tasks, lines).Failure?
  {
    assert BuildStart(lines[i].start).Failure?;
    RunFailure(tasks, lines);
  }

  // ---------------------------------------------------------------------------
  // the main loop
  // ---------------------------------------------------------------------------

  /** The per-line loop of the parser over the lines of all log files, with
      the dictionary updated in place. */
  method ProcessLines(lines: seq<LogLine>) returns (r: Result<Tasks, Error>)
    ensures r == Run(lines)
    ensures r.Success? ==> r.value.Keys == StartedIds(lines)
    ensures r.Success? ==> forall id | id in r.value ::
      r.value[id].taskId == id && r.value[id].start.Some? && r.value[id].children == []
  {
    var tasks: Tasks := map[];
    var i := 0;
    while i < |lines|
      invariant 0 <= i <= |lines|
      invariant Valid(tasks)
      invariant RunFrom(tasks, lines[i..]) == Run(lines)
      invariant tasks.Keys == StartedIds(lines[..i])
    {
      var parsed := ParseLine(lines[i]);
      if parsed.Failure? {
        return Failure(parsed.error);
      }
      LoopKeys(tasks, lines, i);
      ApplyPreservesValid(tasks, parsed.value);
      LoopRun(tasks, lines, i);
      tasks := Apply(tasks, parsed.value);
      i := i + 1;
    }
    assert lines[..i] == lines;
    return Success(tasks);
  }

  /** One iteration of the main loop keeps the key invariant... */
  lemma LoopKeys(tasks: Tasks, lines: seq<LogLine>, i: int)
    requires 0 <= i < |lines| && ParseLine(lines[i]).Success?
    requires tasks.Keys == StartedIds(lines[..i])
    ensures Apply(tasks, ParseLine(lines[i]).value).Keys == StartedIds(lines[..i + 1])
  {
    assert lines[..i + 1] == lines[..i] + [lines[i]];
    StartedIdsSnoc(lines[..i], lines[i]);
    ApplyKeys(tasks, lines[i]);
  }

  /** ...and the rest of the run is the fold from the updated dictionary. */
  lemma LoopRun(tasks: Tasks, lines: seq<LogLine>, i: int)
    requires 0 <= i < |lines| && ParseLine(lines[i]).Success?
    ensures RunFrom(Apply(tasks, ParseLine(lines[i]).value), lines[i + 1..]) == RunFrom(tasks, lines[i..])
  {
    assert lines[i..][1..] == lines[i + 1..];
    RunStep(tasks, lines[i..]);
  }

  lemma ApplyKeys(tasks: Tasks, line: LogLine)
    requires ParseLine(line).Success?
    ensures Apply(tasks, ParseLine(line).value).Keys
         == tasks.Keys + (if line.StartLine? then {line.start.taskId} else {})
  {
  }

  lemma StartedIdsSnoc(lines: seq<LogLine>, line: LogLine)
    ensures StartedIds(lines + [line])
         == StartedIds(lines) + (if line.StartLine? then {line.start.taskId} else {})
  {
    var all := lines + [line];
    assert forall i | 0 <= i < |lines| :: all[i] == lines[i];
    assert all[|lines|] == line;
  }
}
