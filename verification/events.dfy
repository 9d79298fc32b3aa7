/** Turning the capture groups of a matched start or end line into an event:
    splitting the SSTable lists, decomposing each path, and coercing the
    numeric fields with `int()` and `float()`. The two line patterns are not
    modelled; each line arrives as the strings its groups captured. */
module Events {
  import opened Wrappers
  import opened Errors
  import opened Strings
  import opened SSTablePath
  import opened CompactionTasks
  import opened Dicts

  /** The separator between SSTables in a bracketed list. */
  const ListSeparator: string := ", "

  /** Groups captured from a start line: timestamp, task id, SSTable list. */
  datatype StartCaptures = StartCaptures(timestamp: string, taskId: string, sstables: string)

  /** The optional `Partition Throughput = ~<n>/<unit>.` group of an end line:
      it matches as a whole or not at all. */
  datatype PartitionThroughputCapture = PartitionThroughputCapture(count: string, unit: string)

  /** Groups captured from an end line, in the order they appear. */
  datatype EndCaptures = EndCaptures(
    timestamp: string,
    taskId: string,
    sstablePath: string,
    sstableLevel: string,
    originalSize: string,
    originalSizeUnit: string,
    compactedSize: string,
    compactedSizeUnit: string,
    compactionDeltaTime: string,
    compactionDeltaTimeUnit: string,
    readThroughput: string,
    readThroughputUnit: string,
    writeThroughput: string,
    writeThroughputUnit: string,
    rowThroughput: string,
    rowThroughputUnit: string,
    partitionThroughput: Option<PartitionThroughputCapture>,
    totalPartitionsMerged: string,
    totalKeysWritten: string,
    partitionMergeCounts: string)

  /** A log line: one the start pattern matched, one only the end pattern
      matched, or one neither matched. */
  datatype LogLine = StartLine(start: StartCaptures) | EndLine(end: EndCaptures) | OtherLine

  /** A start line after processing. `mixedLocation` records the warning
      printed when a later input lies in another keyspace or table. */
  datatype StartEvent = StartEvent(taskId: string, fields: StartFields, mixedLocation: bool)

  datatype EndEvent = EndEvent(taskId: string, fields: EndFields)

  datatype Event = Started(started: StartEvent) | Finished(finished: EndEvent) | Ignored

  // ---------------------------------------------------------------------------
  // numeric coercion
  // ---------------------------------------------------------------------------

  /** `int(text)` on a captured `[\d,]+` group: plain digits convert, and
      anything else, a `,` grouping separator in particular, raises. */
  function ParseInt(field: string, text: string): (r: Result<nat, Error>)
    ensures r.Success? <==> |text| > 0 && AllDigits(text)
    ensures r.Failure? ==> r.error == InvalidInteger(field, text)
  {
    if |text| > 0 && AllDigits(text) then Success(DigitsValue(text))
    else Failure(InvalidInteger(field, text))
  }

  /** `int()` reads back what `str()` writes... */
  lemma ParseIntRoundTrip(field: string, n: nat)
    ensures ParseInt(field, NatToDigits(n)) == Success(n)
  {
  }

  /** ...but does not strip thousands separators. */
  lemma ParseIntRejectsGrouping(field: string, text: string)
    requires ',' in text
    ensures ParseInt(field, text) == Failure(InvalidInteger(field, text))
  {
  }

  /** The text `float()` accepts among `[\d.]+` groups: at least one digit,
      nothing but digits and dots, and at most one dot. */
  predicate IsDecimalText(text: string)
  {
    && (forall i | 0 <= i < |text| :: IsDigit(text[i]) || text[i] == '.')
    && (exists i | 0 <= i < |text| :: IsDigit(text[i]))
    && Count(text, '.') <= 1
  }

  /** `float(text)` on a captured `[\d.]+` group; the text stands in for the value. */
  function ParseFloat(field: string, text: string): (r: Result<DecimalText, Error>)
    ensures r.Success? ==> r.value == text
    ensures r.Failure? ==> r.error == InvalidFloat(field, text)
  {
    if IsDecimalText(text) then Success(text) else Failure(InvalidFloat(field, text))
  }

  /** Two decimal points make `float()` raise. */
  lemma ParseFloatRejectsTwoPoints(field: string, a: string, b: string, c: string)
    ensures ParseFloat(field, a + "." + b + "." + c).Failure?
  {
    CountSplit(a + "." + b, ".", c, '.');
    CountSplit(a, ".", b, '.');
  }

  /** Digits, a decimal point and digits convert, whenever there is at least
      one digit before the point. */
  lemma ParseFloatAcceptsDecimal(field: string, whole: string, fraction: string)
    requires |whole| > 0 && AllDigits(whole) && AllDigits(fraction)
    ensures ParseFloat(field, whole + "." + fraction) == Success(whole + "." + fraction)
  {
    var text := whole + "." + fraction;
    assert '.' !in whole && '.' !in fraction;
    CountZero(whole, '.');
    CountZero(fraction, '.');
    CountSplit(whole, ".", fraction, '.');
    assert text[0] == whole[0];
    assert forall i | 0 <= i < |text| :: IsDigit(text[i]) || text[i] == '.' by {
      forall i | 0 <= i < |text|
        ensures IsDigit(text[i]) || text[i] == '.'
      {
        if i < |whole| {
          assert text[i] == whole[i];
        } else if i > |whole| {
          assert text[i] == fraction[i - |whole| - 1];
        }
      }
    }
  }

  // ---------------------------------------------------------------------------
  // SSTable lists
  // ---------------------------------------------------------------------------

  /** Name of the SSTable a listed path denotes. */
  function NameOf(path: string): string
  {
    ParseSSTableName(path).0
  }

  /** Level of the SSTable a listed path denotes, if the path gives one. */
  function LevelOf(path: string): Option<nat>
  {
    ParseSSTableName(path).1
  }

  /** `dict(parse_sstable_name(s) for s in paths)`: one entry per distinct
      SSTable name, holding the level of the last path with that name. */
  function NameLevelMap(paths: seq<string>): SSTableLevels
  {
    DictBy(paths, NameOf, LevelOf)
  }

  /** The keys are exactly the names of the listed SSTables... */
  lemma NameLevelMapKeys(paths: seq<string>)
    ensures NameLevelMap(paths).Keys == set i | 0 <= i < |paths| :: NameOf(paths[i])
  {
    DictByKeys(paths, NameOf, LevelOf);
  }

  /** ...and of several paths naming one SSTable, the last one decides its level. */
  lemma LastPathWins(paths: seq<string>, i: int)
    requires 0 <= i < |paths|
    requires forall j | i < j < |paths| :: NameOf(paths[j]) != NameOf(paths[i])
    ensures NameOf(paths[i]) in NameLevelMap(paths)
         && NameLevelMap(paths)[NameOf(paths[i])] == LevelOf(paths[i])
  {
    DictByLastWins(paths, NameOf, LevelOf, i);
  }

  // ---------------------------------------------------------------------------
  // start lines
  // ---------------------------------------------------------------------------

  /** `paths[i]` is the first listed path with fewer than three components. */
  predicate FirstMalformed(paths: seq<string>, i: int)
  {
    && 0 <= i < |paths|
    && Count(paths[i], '/') < 2
    && forall j | 0 <= j < i :: Count(paths[j], '/') >= 2
  }

  /** The consistency pass over the inputs after the first: every path is
      decomposed in order, the first malformed one raising, and the result
      tells whether any lies outside `first`'s keyspace and table. */
  function CheckLocations(paths: seq<string>, first: Location): (r: Result<bool, Error>)
    ensures r.Success? <==> forall i | 0 <= i < |paths| :: Count(paths[i], '/') >= 2
    ensures r.Success? ==>
      (r.value <==> exists i | 0 <= i < |paths| :: ParseSSTablePath(paths[i]).value != first)
    ensures r.Failure? ==> exists i :: FirstMalformed(paths, i) && r.error == InvalidPath(paths[i])
  {
    if |paths| == 0 then Success(false)
    else
      var location :- ParseSSTablePath(paths[0]);
      assert FirstMalformedShift(paths) by {
        FirstMalformedTail(paths);
      }
      var rest :- CheckLocations(paths[1..], first);
      assert forall i | 1 <= i < |paths| :: paths[i] == paths[1..][i - 1];
      Success(location != first || rest)
  }

  /** If the first path is well formed, the first malformed path of the
      list is the first malformed path of its tail, shifted by one. */
  ghost predicate FirstMalformedShift(paths: seq<string>)
    requires |paths| > 0
  {
    Count(paths[0], '/') >= 2 ==>
      forall i :: FirstMalformed(paths[1..], i) ==> FirstMalformed(paths, i + 1)
  }

  lemma FirstMalformedTail(paths: seq<string>)
    requires |paths| > 0
    ensures FirstMalformedShift(paths)
  {
    if Count(paths[0], '/') >= 2 {
      forall i | FirstMalformed(paths[1..], i)
        ensures FirstMalformed(paths, i + 1)
      {
        forall j | 0 <= j < i + 1
          ensures Count(paths[j], '/') >= 2
        {
          if j > 0 {
            assert paths[j] == paths[1..][j - 1];
          }
        }
      }
    }
  }

  /** A start line: inputs split on `", "`; keyspace and table from the first
      input; every later input decomposed too, a mismatch only flagged; the
      input SSTables as a name-to-level map. Any malformed input path raises. */
  function BuildStart(c: StartCaptures): (r: Result<StartEvent, Error>)
    ensures r.Success? <==> forall i | 0 <= i < |InputPaths(c)| :: Count(InputPaths(c)[i], '/') >= 2
    ensures r.Success? ==>
      && r.value.taskId == c.taskId
      && r.value.fields.startTime == c.timestamp
      && ParseSSTablePath(InputPaths(c)[0]) == Success(Location(r.value.fields.keyspace, r.value.fields.table))
      && r.value.fields.inputSSTables == NameLevelMap(InputPaths(c))
    ensures r.Success? ==>
      (r.value.mixedLocation <==>
        exists i | 1 <= i < |InputPaths(c)| ::
          ParseSSTablePath(InputPaths(c)[i]) != ParseSSTablePath(InputPaths(c)[0]))
    ensures r.Failure? ==>
      exists i :: FirstMalformed(InputPaths(c), i) && r.error == InvalidPath(InputPaths(c)[i])
  {
    var paths := InputPaths(c);
    var located :- LocateInputs(paths);
    Success(StartEvent(c.taskId, StartFields(c.timestamp, NameLevelMap(paths), located.0.keyspace, located.0.table), located.1))
  }

  /** The keyspace and table of the first input, and whether any later input
      lies elsewhere; the first malformed input raises. */
  function LocateInputs(paths: seq<string>): (r: Result<(Location, bool), Error>)
    requires |paths| > 0
    ensures r.Success? <==> forall i | 0 <= i < |paths| :: Count(paths[i], '/') >= 2
    ensures r.Success? ==> ParseSSTablePath(paths[0]) == Success(r.value.0)
    ensures r.Success? ==>
      (r.value.1 <==> exists i | 1 <= i < |paths| :: ParseSSTablePath(paths[i]) != ParseSSTablePath(paths[0]))
    ensures r.Failure? ==> exists i :: FirstMalformed(paths, i) && r.error == InvalidPath(paths[i])
  {
    var firstLocation := ParseSSTablePath(paths[0]);
    if firstLocation.Failure? then
      assert FirstMalformed(paths, 0);
      Failure(firstLocation.error)
    else
      var first := firstLocation.value;
      FirstMalformedTail(paths);
      var mixed :- CheckLocations(paths[1..], first);
      assert forall i | 1 <= i < |paths| :: paths[i] == paths[1..][i - 1];
      Success((first, mixed))
  }

  /** The input SSTable paths of a start line. */
  function InputPaths(c: StartCaptures): seq<string>
  {
    Split(c.sstables, ListSeparator)
  }

  // ---------------------------------------------------------------------------
  // end lines
  // ---------------------------------------------------------------------------

  /** Whether every numeric group of an end line converts, spelled out field
      by field. This is the same condition as every entry of `NumericGroups`
      converting (given a captured partition throughput), as `GroupsConvert`
      shows; the explicit form is what lets `BuildEnd`'s contract apply
      `DigitsValue` to the integer groups. */
  predicate NumbersConvert(c: EndCaptures)
  {
    && IsDecimalText(c.originalSize)
    && IsDecimalText(c.compactedSize)
    && |c.compactionDeltaTime| > 0 && AllDigits(c.compactionDeltaTime)
    && IsDecimalText(c.readThroughput)
    && IsDecimalText(c.writeThroughput)
    && |c.rowThroughput| > 0 && AllDigits(c.rowThroughput)
    && (c.partitionThroughput.Some? ==>
          |c.partitionThroughput.value.count| > 0 && AllDigits(c.partitionThroughput.value.count))
    && |c.totalPartitionsMerged| > 0 && AllDigits(c.totalPartitionsMerged)
    && |c.totalKeysWritten| > 0 && AllDigits(c.totalKeysWritten)
  }

  /** A numeric group of an end line as the parser reads it: through
      `float()`, through `int()`, or the partition throughput count that the
      line did not capture, which `int(None)` refuses. */
  datatype NumericGroup = FloatGroup(field: string, text: string) | IntGroup(field: string, text: string) | MissingGroup

  /** The numeric groups of an end line in the order the parser converts them. */
  function NumericGroups(c: EndCaptures): seq<NumericGroup>
  {
    [ FloatGroup("original_size", c.originalSize),
      FloatGroup("compacted_size", c.compactedSize),
      IntGroup("compaction_delta_time", c.compactionDeltaTime),
      FloatGroup("read_throughput", c.readThroughput),
      FloatGroup("write_throughput", c.writeThroughput),
      IntGroup("row_throughput", c.rowThroughput),
      if c.partitionThroughput.Some? then IntGroup("partition_throughput", c.partitionThroughput.value.count)
      else MissingGroup,
      IntGroup("total_partitions_merged", c.totalPartitionsMerged),
      IntGroup("total_keys_written", c.totalKeysWritten) ]
  }

  /** The error converting a group raises, if any. */
  function GroupError(g: NumericGroup): Option<Error>
  {
    match g
    case FloatGroup(field, text) =>
      var v := ParseFloat(field, text); if v.Failure? then Some(v.error) else None
    case IntGroup(field, text) =>
      var v := ParseInt(field, text); if v.Failure? then Some(v.error) else None
    case MissingGroup => Some(MissingPartitionThroughput)
  }

  /** `gs[i]` is the first group whose conversion raises. */
  predicate FirstFailingGroup(gs: seq<NumericGroup>, i: int)
  {
    && 0 <= i < |gs|
    && GroupError(gs[i]).Some?
    && forall j | 0 <= j < i :: GroupError(gs[j]).None?
  }

  /** Converting the groups one after another: the first one that raises
      ends the line. */
  function FirstGroupError(gs: seq<NumericGroup>): (r: Option<Error>)
    ensures r.None? <==> forall i | 0 <= i < |gs| :: GroupError(gs[i]).None?
    ensures r.Some? ==> exists i :: FirstFailingGroup(gs, i) && r.value == GroupError(gs[i]).value
  {
    if |gs| == 0 then None
    else if GroupError(gs[0]).Some? then
      assert FirstFailingGroup(gs, 0);
      GroupError(gs[0])
    else
      var rest := FirstGroupError(gs[1..]);
      assert forall i | 1 <= i < |gs| :: gs[i] == gs[1..][i - 1];
      assert forall i | FirstFailingGroup(gs[1..], i) :: FirstFailingGroup(gs, i + 1);
      rest
  }

  /** Every group converts exactly when the numbers convert and the partition
      throughput was captured. */
  lemma GroupsConvert(c: EndCaptures)
    ensures NumbersConvert(c) && c.partitionThroughput.Some?
        <==> forall i | 0 <= i < |NumericGroups(c)| :: GroupError(NumericGroups(c)[i]).None?
  {
    var gs := NumericGroups(c);
    if forall i | 0 <= i < |gs| :: GroupError(gs[i]).None? {
      assert GroupError(gs[0]).None? && GroupError(gs[1]).None? && GroupError(gs[2]).None?;
      assert GroupError(gs[3]).None? && GroupError(gs[4]).None? && GroupError(gs[5]).None?;
      assert GroupError(gs[6]).None? && GroupError(gs[7]).None? && GroupError(gs[8]).None?;
    }
  }

  /** An end line: the numeric groups converted in the order they are read,
      the first that does not convert (or the missing partition throughput)
      raising; more than one output SSTable refused; the single output path
      decomposed (its keyspace and table computed and dropped); and every
      captured group stored in its field, the output SSTables with the level
      from the path alone. The captured `to level=` group is never used.
      Nothing happens between the conversions, so converting them all first
      and then raising the first failure is the same as raising as they go. */
  function BuildEnd(c: EndCaptures): (r: Result<EndEvent, Error>)
    ensures var outputs := Split(c.sstablePath, ListSeparator);
      r.Success? <==>
        && NumbersConvert(c)
        && c.partitionThroughput.Some?
        && |outputs| == 1
        && Count(c.sstablePath, '/') >= 2
    ensures c.partitionThroughput.None? ==> r.Failure?
    ensures |Split(c.sstablePath, ListSeparator)| > 1 ==> r.Failure?
    ensures !(NumbersConvert(c) && c.partitionThroughput.Some?) ==>
      exists i :: FirstFailingGroup(NumericGroups(c), i) && r == Failure(GroupError(NumericGroups(c)[i]).value)
    ensures NumbersConvert(c) && c.partitionThroughput.Some? && |Split(c.sstablePath, ListSeparator)| > 1 ==>
      r == Failure(MultipleOutputs(c.sstablePath))
    ensures
      (&& NumbersConvert(c) && c.partitionThroughput.Some?
       && |Split(c.sstablePath, ListSeparator)| == 1 && Count(c.sstablePath, '/') < 2) ==>
      r == Failure(InvalidPath(c.sstablePath))
    ensures r.Success? ==>
      var name := ParseSSTableName(c.sstablePath);
      var partition := c.partitionThroughput.value;
      r.value == EndEvent(c.taskId, EndFields(
        c.timestamp, map[name.0 := name.1],
        c.originalSize, c.originalSizeUnit,
        c.compactedSize, c.compactedSizeUnit,
        DigitsValue(c.compactionDeltaTime), c.compactionDeltaTimeUnit,
        c.readThroughput, c.readThroughputUnit,
        c.writeThroughput, c.writeThroughputUnit,
        DigitsValue(c.rowThroughput), c.rowThroughputUnit,
        DigitsValue(partition.count), partition.unit,
        DigitsValue(c.totalPartitionsMerged), DigitsValue(c.totalKeysWritten),
        c.partitionMergeCounts))
  {
    GroupsConvert(c);
    match FirstGroupError(NumericGroups(c))
    case Some(e) => Failure(e)
    case None =>
      var partition := c.partitionThroughput.value;
      var outputs := Split(c.sstablePath, ListSeparator);
      if |outputs| > 1 then Failure(MultipleOutputs(c.sstablePath))
      else
        SplitJoin(c.sstablePath, ListSeparator);
        SingleOutput(outputs, c.sstablePath);
        var discardedLocation :- ParseSSTablePath(outputs[0]);
        Success(EndEvent(c.taskId, EndFields(
          c.timestamp, NameLevelMap(outputs),
          c.originalSize, c.originalSizeUnit,
          c.compactedSize, c.compactedSizeUnit,
          DigitsValue(c.compactionDeltaTime), c.compactionDeltaTimeUnit,
          c.readThroughput, c.readThroughputUnit,
          c.writeThroughput, c.writeThroughputUnit,
          DigitsValue(c.rowThroughput), c.rowThroughputUnit,
          DigitsValue(partition.count), partition.unit,
          DigitsValue(c.totalPartitionsMerged), DigitsValue(c.totalKeysWritten),
          c.partitionMergeCounts)))
  }

  lemma SingleOutput(outputs: seq<string>, path: string)
    requires |outputs| == 1 && Join(outputs, ListSeparator) == path
    ensures outputs == [path]
    ensures NameLevelMap(outputs) == map[NameOf(path) := LevelOf(path)]
  {
    var m := NameLevelMap(outputs);
    LastPathWins(outputs, 0);
    NameLevelMapKeys(outputs);
    assert m.Keys == {NameOf(path)};
  }

  /** The captured output level has no influence on the event. */
  lemma OutputLevelIgnored(c: EndCaptures, level: string)
    ensures BuildEnd(c.(sstableLevel := level)) == BuildEnd(c)
  {
  }

  // ---------------------------------------------------------------------------
  // lines
  // ---------------------------------------------------------------------------

  /** The event a line yields; a line neither pattern matched yields none. */
  function ParseLine(line: LogLine): (r: Result<Event, Error>)
    ensures line.OtherLine? ==> r == Success(Ignored)
    ensures r.Success? && line.StartLine? ==> r.value.Started? && r.value.started.taskId == line.start.taskId
    ensures r.Success? && line.EndLine? ==> r.value.Finished? && r.value.finished.taskId == line.end.taskId
    ensures line.StartLine? ==>
      && (r.Failure? <==> BuildStart(line.start).Failure?)
      && (r.Failure? ==> r.error == BuildStart(line.start).error)
      && (r.Success? ==> r.value.started == BuildStart(line.start).value)
    ensures line.EndLine? ==>
      && (r.Failure? <==> BuildEnd(line.end).Failure?)
      && (r.Failure? ==> r.error == BuildEnd(line.end).error)
      && (r.Success? ==> r.value.finished == BuildEnd(line.end).value)
  {
    match line
    case StartLine(c) => var e :- BuildStart(c); Success(Started(e))
    case EndLine(c) => var e :- BuildEnd(c); Success(Finished(e))
    case OtherLine => Success(Ignored)
  }
}
