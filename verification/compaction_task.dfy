/** The `CompactionTask` record: one per compaction task identifier, holding
    what its start line and its end line reported. */
module CompactionTasks {
  import opened Wrappers

  /** SSTable name to level; `None` where the listing carried no level. */
  type SSTableLevels = map<string, Option<nat>>

  /** A size or throughput as the text `float()` accepted. The floating-point
      value itself is not modelled. */
  type DecimalText = string

  /** The fields a start line assigns, always together. */
  datatype StartFields = StartFields(
    startTime: string,
    inputSSTables: SSTableLevels,
    keyspace: string,
    table: string)

  /** The fields an end line assigns, always together. */
  datatype EndFields = EndFields(
    endTime: string,
    outputSSTables: SSTableLevels,
    originalSize: DecimalText,
    originalSizeUnit: string,
    compactedSize: DecimalText,
    compactedSizeUnit: string,
    compactionDeltaTime: nat,
    compactionDeltaTimeUnit: string,
    readThroughput: DecimalText,
    readThroughputUnit: string,
    writeThroughput: DecimalText,
    writeThroughputUnit: string,
    rowThroughput: nat,
    rowThroughputUnit: string,
    partitionThroughput: nat,
    partitionThroughputUnit: string,
    totalPartitionsMerged: nat,
    totalKeysWritten: nat,
    partitionMergeCounts: string)

  /** A task record. The fields declared only by annotation do not exist on
      an instance until an event assigns them, and each event assigns its
      whole group, so every group is present or absent as a unit.
      `children` is the class-level list, which nothing ever writes. */
  datatype CompactionTask = CompactionTask(
    taskId: string,
    start: Option<StartFields>,
    end: Option<EndFields>,
    children: seq<string>)

  /** Class-level default of `compaction_delta_time_unit`. */
  const DefaultDeltaTimeUnit: string := "ms"

  /** Class-level default of `row_throughput_unit` and `partition_throughput_unit`. */
  const DefaultThroughputUnit: string := "second"

  /** `CompactionTask(task_id)`: only the identifier is set on the instance. */
  function NewTask(taskId: string): CompactionTask
  {
    CompactionTask(taskId, None, None, [])
  }

  /** Reading `compaction_delta_time_unit`: the instance's value once an end
      line assigned it, otherwise the class default. */
  function DeltaTimeUnit(task: CompactionTask): string
  {
    if task.end.Some? then task.end.value.compactionDeltaTimeUnit else DefaultDeltaTimeUnit
  }

  /** Reading `row_throughput_unit`, falling back to the class default. */
  function RowThroughputUnit(task: CompactionTask): string
  {
    if task.end.Some? then task.end.value.rowThroughputUnit else DefaultThroughputUnit
  }

  /** Reading `partition_throughput_unit`, falling back to the class default. */
  function PartitionThroughputUnit(task: CompactionTask): string
  {
    if task.end.Some? then task.end.value.partitionThroughputUnit else DefaultThroughputUnit
  }

  /** A fresh task carries its identifier, has no start or end fields, reads
      the class defaults for the three unit fields, and has no children. */
  lemma FreshTask(taskId: string)
    ensures var task := NewTask(taskId);
      && task.taskId == taskId
      && task.start.None? && task.end.None?
      && DeltaTimeUnit(task) == "ms"
      && RowThroughputUnit(task) == "second"
      && PartitionThroughputUnit(task) == "second"
      && task.children == []
  {
  }

  /** Once an end line assigned the unit fields, reading them gives the
      assigned values and no longer the class defaults. */
  lemma AssignedUnitsShadowDefaults(task: CompactionTask, fields: EndFields)
    ensures var ended := task.(end := Some(fields));
      && DeltaTimeUnit(ended) == fields.compactionDeltaTimeUnit
      && RowThroughputUnit(ended) == fields.rowThroughputUnit
      && PartitionThroughputUnit(ended) == fields.partitionThroughputUnit
  {
  }
}
