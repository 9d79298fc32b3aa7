/** The exceptions the parser can raise while handling a matched log line.
    Every one of them aborts the whole run: only a missing log file is
    recovered from, and file handling is outside this model. */
module Errors {

  datatype Error =
      /** `ValueError` from `parse_sstable_path`: fewer than three `/` components. */
    | InvalidPath(path: string)
      /** `ValueError` from `int()` on a captured numeric field. */
    | InvalidInteger(field: string, text: string)
      /** `ValueError` from `float()` on a captured numeric field. */
    | InvalidFloat(field: string, text: string)
      /** `TypeError` from `int(None)` when the optional partition-throughput group did not match. */
    | MissingPartitionThroughput
      /** `ValueError` raised for an end line that lists more than one output SSTable. */
    | MultipleOutputs(sstables: string)
}
