/** The record types that the profiler's client and server exchange (src/defs.rs), and the machine types
    they are made of. */
module Defs {

  type Byte = x: int | 0 <= x < 0x100
  type I32 = x: int | -0x8000_0000 <= x < 0x8000_0000
  type U64 = x: int | 0 <= x < 0x1_0000_0000_0000_0000
  type I64 = x: int | -0x8000_0000_0000_0000 <= x < 0x8000_0000_0000_0000

  /** Text is its UTF-8 bytes. */
  type Text = seq<Byte>

  datatype Option<+T> = None | Some(value: T)

  /** One symbolised frame: the demangled symbol, and the file and line where they are known. */
  datatype Frame = Frame(symbol: Text, file: Option<Text>, line: Option<I32>)

  /** One address of a stack: the frames inlined there, in order, and the size of the raw symbolisation. */
  datatype Address = Address(frames: seq<Frame>, rawSize: nat)

  /** One stack sample as the symboliser returns it: the leaf address first, the root address last. */
  type Sample = seq<Address>

  /** A stack as frames from the root to the leaf. */
  type Path = seq<Frame>

  datatype StackNodeData = StackNodeData(id: I64, frame: Frame)

  datatype StackNode = StackNode(id: I64, parent_id: Option<I64>, stack_node_data_id: I64, executable_id: I64,
                                 sample_count: int)

  datatype Executable = Executable(id: I64, event: Text, build_id: Option<Text>, basename: Text,
                                   sample_count: int, raw_data_size: int, processed_data_size: int)

  datatype StoData = StoData(stack_nodes: seq<StackNode>, stack_node_datas: seq<StackNodeData>,
                             profiled_binaries: seq<Executable>)

  /** What the command line says about the profiled program. */
  datatype Args = Args(binary: Text, version: Option<Text>, event: Text)

  /** The work of one sinking thread: a full buffer of samples, and the arguments. */
  datatype Batch = Batch(args: Args, samples: seq<Sample>)
}
