/** What one batch of samples comes to: the stacks, the rows they visit, and the three tables posted for them. */
module Batches {
  import opened Defs
  import opened Ids
  import opened Upserts
  import opened Paths

  function Traces(ids: IdScheme, args: Args, samples: seq<Sample>): seq<Trace> {
    if samples == [] then []
    else Traces(ids, args, samples[..|samples| - 1]) + [Trace(ids.exe(args), RootFirst(samples[|samples| - 1]))]
  }

  function TracesOf(ids: IdScheme, batches: seq<Batch>): seq<Trace> {
    if batches == [] then []
    else
      var b := batches[|batches| - 1];
      TracesOf(ids, batches[..|batches| - 1]) + Traces(ids, b.args, b.samples)
  }

  function FrameRow(ids: IdScheme, f: Frame): StackNodeData {
    StackNodeData(ids.frame(f), f)
  }

  function FrameRows(ids: IdScheme, p: Path): seq<StackNodeData> {
    if p == [] then [] else FrameRows(ids, p[..|p| - 1]) + [FrameRow(ids, p[|p| - 1])]
  }

  function FrameRowsOf(ids: IdScheme, traces: seq<Trace>): seq<StackNodeData> {
    if traces == [] then []
    else FrameRowsOf(ids, traces[..|traces| - 1]) + FrameRows(ids, traces[|traces| - 1].path)
  }

  /** What one address adds to its executable: one sample and the size of its raw form. */
  function ExecutableRow(ids: IdScheme, args: Args, a: Address): Executable {
    Executable(ids.exe(args), args.event, args.version, args.binary, 1, a.rawSize, 0)
  }

  /** One row for each address of a sample, the root address first. */
  function SampleRows(ids: IdScheme, args: Args, sample: Sample): seq<Executable> {
    if sample == [] then [] else SampleRows(ids, args, sample[1..]) + [ExecutableRow(ids, args, sample[0])]
  }

  function ExecutableRows(ids: IdScheme, args: Args, samples: seq<Sample>): seq<Executable> {
    if samples == [] then []
    else ExecutableRows(ids, args, samples[..|samples| - 1]) + SampleRows(ids, args, samples[|samples| - 1])
  }

  function NodeTable(ids: IdScheme, b: Batch): Table<StackNode> {
    UpsertAll(NODES, map[], VisitsOf(ids, Traces(ids, b.args, b.samples)))
  }

  function FrameTable(ids: IdScheme, b: Batch): Table<StackNodeData> {
    UpsertAll(FRAMES, map[], FrameRowsOf(ids, Traces(ids, b.args, b.samples)))
  }

  /** The size of the outgoing data is added to the executable, if there is one. */
  function AddProcessed(t: Table<Executable>, id: I64, size: int): Table<Executable> {
    if id in t then t[id := t[id].(processed_data_size := t[id].processed_data_size + size)] else t
  }

  function ExecutableTable(ids: IdScheme, b: Batch, processed: int): Table<Executable> {
    AddProcessed(UpsertAll(EXECUTABLES, map[], ExecutableRows(ids, b.args, b.samples)), ids.exe(b.args), processed)
  }

  /** The payload posted for a batch: the rows of the three tables, each table in an order of its own. */
  ghost predicate IsPayload(ids: IdScheme, b: Batch, p: StoData) {
    && Enumerates(NODES, p.stack_nodes, NodeTable(ids, b))
    && Enumerates(FRAMES, p.stack_node_datas, FrameTable(ids, b))
    && exists processed :: Enumerates(EXECUTABLES, p.profiled_binaries, ExecutableTable(ids, b, processed))
  }
}
