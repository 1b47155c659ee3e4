/** Content addressing (src/bin/cli.rs:186-240): an id is the absolute value of a 64-bit hash of some bytes.
    The hash itself is a parameter; nothing is assumed about it. */
module Ids {
  import opened Defs

  type Hash = seq<Byte> -> U64

  const TWO_64: int := 0x1_0000_0000_0000_0000
  const I64_MIN: I64 := -0x8000_0000_0000_0000

  /** A cast from u64 to i64. */
  function AsI64(u: U64): I64 {
    if u < 0x8000_0000_0000_0000 then u else u - TWO_64
  }

  /** i64::abs in a release build: the least value has no positive counterpart and is returned unchanged. */
  function WrappingAbs(x: I64): I64 {
    if x == I64_MIN then x else if x < 0 then -x else x
  }

  function IdOf(h: Hash, bytes: seq<Byte>): I64 {
    WrappingAbs(AsI64(h(bytes)))
  }

  /** Below 2^63 a hash is its own id, above it is its distance to 2^64, and at 2^63 it is negative. */
  lemma IdValue(h: Hash, bytes: seq<Byte>)
    ensures h(bytes) < 0x8000_0000_0000_0000 ==> IdOf(h, bytes) == h(bytes)
    ensures h(bytes) > 0x8000_0000_0000_0000 ==> IdOf(h, bytes) == TWO_64 - h(bytes)
    ensures h(bytes) == 0x8000_0000_0000_0000 <==> IdOf(h, bytes) < 0
    ensures IdOf(h, bytes) < 0 ==> IdOf(h, bytes) == I64_MIN
  {
  }

  /** The hashes are equal or each other's negation. */
  predicate Clash(h: Hash, a: seq<Byte>, b: seq<Byte>) {
    h(a) == h(b) || h(a) + h(b) == TWO_64
  }

  /** Two ids coincide exactly when the two hashes are equal or are each other's negation: the final absolute
      value merges u and 2^64 - u, and nothing else. */
  lemma IdsCoincideExactly(h: Hash, a: seq<Byte>, b: seq<Byte>)
    ensures IdOf(h, a) == IdOf(h, b) <==> h(a) == h(b) || h(a) + h(b) == TWO_64
    ensures IdOf(h, a) == IdOf(h, b) <==> Clash(h, a, b)
  {
  }

  // ----- Big-endian words -----

  function Pow256(n: nat): nat {
    if n == 0 then 1 else 0x100 * Pow256(n - 1)
  }

  /** The low n bytes of u, the most significant first. */
  function BigEndian(u: nat, n: nat): (s: seq<Byte>)
    ensures |s| == n
  {
    if n == 0 then [] else BigEndian(u / 0x100, n - 1) + [u % 0x100]
  }

  lemma {:induction false} BigEndianInjective(u: nat, v: nat, n: nat)
    requires u < Pow256(n) && v < Pow256(n)
    requires BigEndian(u, n) == BigEndian(v, n)
    ensures u == v
  {
    if n > 0 {
      var s, t := BigEndian(u / 0x100, n - 1), BigEndian(v / 0x100, n - 1);
      assert s == BigEndian(u, n)[..n - 1] && t == BigEndian(v, n)[..n - 1];
      assert u % 0x100 == BigEndian(u, n)[n - 1] && v % 0x100 == BigEndian(v, n)[n - 1];
      BigEndianInjective(u / 0x100, v / 0x100, n - 1);
    }
  }

  /** The number that some bytes stand for, the most significant first. */
  function ReadBytes(s: seq<Byte>): nat {
    if s == [] then 0 else 0x100 * ReadBytes(s[..|s| - 1]) + s[|s| - 1]
  }

  lemma {:induction false} BigEndianReads(u: nat, n: nat)
    requires u < Pow256(n)
    ensures ReadBytes(BigEndian(u, n)) == u
  {
    if n > 0 {
      var s := BigEndian(u, n);
      assert s[..n - 1] == BigEndian(u / 0x100, n - 1);
      BigEndianReads(u / 0x100, n - 1);
    }
  }

  lemma Pow256Words()
    ensures Pow256(4) == 0x1_0000_0000 && Pow256(8) == TWO_64
  {
  }

  /** to_be_bytes on i64 and on i32: two's complement, big-endian. */
  function Word64(x: I64): (s: seq<Byte>)
    ensures |s| == 8
  {
    BigEndian(if x < 0 then x + TWO_64 else x, 8)
  }

  function Word32(x: I32): (s: seq<Byte>)
    ensures |s| == 4
  {
    BigEndian(if x < 0 then x + 0x1_0000_0000 else x, 4)
  }

  /** The number that four bytes stand for. */
  function Quad(a: int, b: int, c: int, d: int): int {
    0x100_0000 * a + 0x1_0000 * b + 0x100 * c + d
  }

  lemma {:induction false} FourBytes(s: seq<Byte>)
    requires |s| == 4
    ensures ReadBytes(s) == Quad(s[0], s[1], s[2], s[3])
  {
    var a: int := s[0];
    assert ReadBytes(s[..0]) == 0;
    assert s[..1][..0] == s[..0] && s[..2][..1] == s[..1] && s[..3][..2] == s[..2];
    assert ReadBytes(s[..1]) == s[0];
    assert ReadBytes(s[..2]) == 0x100 * a + s[1];
    assert ReadBytes(s[..3]) == 0x100 * ReadBytes(s[..2]) + s[2];
  }

  lemma {:induction false} EightBytes(s: seq<Byte>)
    requires |s| == 8
    ensures ReadBytes(s) == 0x1_0000_0000 * ReadBytes(s[..4]) + ReadBytes(s[4..])
  {
    FourBytes(s[4..]);
    assert s[..5][..4] == s[..4] && s[..6][..5] == s[..5] && s[..7][..6] == s[..6];
    assert ReadBytes(s[..5]) == 0x100 * ReadBytes(s[..4]) + s[4];
    assert ReadBytes(s[..6]) == 0x100 * ReadBytes(s[..5]) + s[5];
    assert ReadBytes(s[..7]) == 0x100 * ReadBytes(s[..6]) + s[6];
  }

  /** Each byte of a word in its place: the words stand for the numbers, or for what is left to 2^64 and 2^32. */
  lemma WordsRead(x: I64, a: I32)
    ensures var s := Word64(x);
            0x1_0000_0000 * Quad(s[0], s[1], s[2], s[3]) + Quad(s[4], s[5], s[6], s[7])
            == if x < 0 then x + TWO_64 else x
    ensures var s := Word32(a);
            Quad(s[0], s[1], s[2], s[3]) == if a < 0 then a + 0x1_0000_0000 else a
  {
    Pow256Words();
    var s, t := Word64(x), Word32(a);
    BigEndianReads(if x < 0 then x + TWO_64 else x, 8);
    BigEndianReads(if a < 0 then a + 0x1_0000_0000 else a, 4);
    EightBytes(s);
    FourBytes(s[..4]);
    FourBytes(s[4..]);
    FourBytes(t);
  }

  lemma WordsInjective(x: I64, y: I64, a: I32, b: I32)
    ensures Word64(x) == Word64(y) ==> x == y
    ensures Word32(a) == Word32(b) ==> a == b
  {
    Pow256Words();
    if Word64(x) == Word64(y) {
      BigEndianInjective(if x < 0 then x + TWO_64 else x, if y < 0 then y + TWO_64 else y, 8);
    }
    if Word32(a) == Word32(b) {
      BigEndianInjective(if a < 0 then a + 0x1_0000_0000 else a, if b < 0 then b + 0x1_0000_0000 else b, 4);
    }
  }

  // ----- Node ids -----

  function NodeBytes(parent: Option<I64>, data: I64, exe: I64): seq<Byte> {
    (if parent.Some? then Word64(parent.value) else []) + Word64(data) + Word64(exe)
  }

  function NodeId(h: Hash, parent: Option<I64>, data: I64, exe: I64): I64 {
    IdOf(h, NodeBytes(parent, data, exe))
  }

  /** The parent, if there is one, comes first, then the data, then the executable. */
  lemma NodeBytesLayout(parent: Option<I64>, data: I64, exe: I64)
    ensures var s, n := NodeBytes(parent, data, exe), |NodeBytes(parent, data, exe)|;
            && n == (if parent.Some? then 24 else 16)
            && (parent.Some? ==> s[..8] == Word64(parent.value))
            && s[n - 16..n - 8] == Word64(data) && s[n - 8..] == Word64(exe)
  {
  }

  /** The bytes of a node determine its parent, its data and its executable. */
  lemma NodeBytesInjective(p: Option<I64>, d: I64, e: I64, p': Option<I64>, d': I64, e': I64)
    ensures NodeBytes(p, d, e) == NodeBytes(p', d', e') <==> p == p' && d == d' && e == e'
  {
    var s, s' := NodeBytes(p, d, e), NodeBytes(p', d', e');
    assert |s| == (if p.Some? then 24 else 16) && |s'| == (if p'.Some? then 24 else 16);
    if s == s' {
      var n := |s|;
      assert Word64(e) == s[n - 8..] == Word64(e');
      assert Word64(d) == s[n - 16..n - 8] == Word64(d');
      WordsInjective(e, e', 0, 0);
      WordsInjective(d, d', 0, 0);
      if p.Some? {
        assert Word64(p.value) == s[..8] == Word64(p'.value);
        WordsInjective(p.value, p'.value, 0, 0);
      }
    }
  }

  /** So two different nodes share an id exactly when the hash itself clashes on their two encodings, directly or
      through the absolute value. */
  lemma NodeIdsClashExactly(h: Hash, p: Option<I64>, d: I64, e: I64, p': Option<I64>, d': I64, e': I64)
    requires (p, d, e) != (p', d', e')
    ensures NodeBytes(p, d, e) != NodeBytes(p', d', e')
    ensures NodeId(h, p, d, e) == NodeId(h, p', d', e') <==>
            var u, v := h(NodeBytes(p, d, e)), h(NodeBytes(p', d', e')); u == v || u + v == TWO_64
  {
    NodeBytesInjective(p, d, e, p', d', e');
    IdsCoincideExactly(h, NodeBytes(p, d, e), NodeBytes(p', d', e'));
  }

  // ----- Frame ids -----

  function FrameBytes(f: Frame): seq<Byte> {
    f.symbol + (if f.file.Some? then f.file.value else []) + (if f.line.Some? then Word32(f.line.value) else [])
  }

  function FrameId(h: Hash, f: Frame): I64 {
    IdOf(h, FrameBytes(f))
  }

  /** The symbol comes first, then the file, then the line. */
  lemma FrameBytesLayout(f: Frame)
    ensures var s, m, n := FrameBytes(f), |f.symbol|, if f.file.Some? then |f.file.value| else 0;
            && |s| == m + n + (if f.line.Some? then 4 else 0)
            && s[..m] == f.symbol
            && (f.file.Some? ==> s[m..m + n] == f.file.value)
            && (f.line.Some? ==> s[m + n..] == Word32(f.line.value))
  {
  }

  /** The client never sends an empty file name: it sends none (src/bin/cli.rs:339-343). */
  predicate Normalised(f: Frame) {
    f.file != Some([])
  }

  /** The bytes of a frame do not determine the frame: no separator stands between the symbol and the file. The
      two frames below are the symbol "ab" without a file, and "a" in the file "b"; they get one id under every
      hash. */
  lemma FrameBytesAmbiguous(h: Hash)
    ensures var f, g := Frame([0x61, 0x62], None, None), Frame([0x61], Some([0x62]), None);
            f != g && Normalised(f) && Normalised(g) && FrameBytes(f) == FrameBytes(g) && FrameId(h, f) == FrameId(h, g)
  {
  }

  /** Exactly when the bytes do determine the frame: among frames with equal bytes, those whose symbols are equally
      long and which agree on having a line number are the same frame, and no others are. */
  lemma FrameBytesFaithfulExactly(f: Frame, g: Frame)
    requires Normalised(f) && Normalised(g)
    requires FrameBytes(f) == FrameBytes(g)
    ensures f == g <==> |f.symbol| == |g.symbol| && f.line.Some? == g.line.Some?
  {
    var s, n, k := FrameBytes(f), |FrameBytes(f)|, |f.symbol|;
    if k == |g.symbol| && f.line.Some? == g.line.Some? {
      assert f.symbol == s[..k] == g.symbol;
      var m := if f.line.Some? then n - 4 else n;
      assert (if f.file.Some? then f.file.value else []) == s[k..m] == (if g.file.Some? then g.file.value else []);
      assert f.file == g.file;
      if f.line.Some? {
        assert Word32(f.line.value) == s[m..] == Word32(g.line.value);
        WordsInjective(0, 0, f.line.value, g.line.value);
      }
    }
  }

  // ----- Program ids -----

  /** The name and the version of the profiled program, written one after the other (src/bin/cli.rs:301-303). */
  function ProgramBytes(args: Args): Text {
    args.binary + if args.version.Some? then args.version.value else []
  }

  /** Different profiled programs can have one id under every hash: name and version are not separated, and the sampled
      event is no part of the id. */
  lemma ProgramBytesAmbiguous(event: Text, event': Text)
    ensures ProgramBytes(Args([0x61, 0x62], None, event)) == ProgramBytes(Args([0x61], Some([0x62]), event'))
    ensures ProgramBytes(Args([0x61], None, event)) == ProgramBytes(Args([0x61], None, event'))
  {
    assert [0x61, 0x62] + [] == [0x61] + [0x62];
  }

  /** Exactly when the bytes do determine the program: among those with equal bytes, the programs whose names are
      equally long, which agree on having a version and are sampled on one event are the same, and no others are. */
  lemma ProgramBytesFaithfulExactly(a: Args, b: Args)
    requires ProgramBytes(a) == ProgramBytes(b)
    ensures a == b <==> |a.binary| == |b.binary| && a.version.Some? == b.version.Some? && a.event == b.event
  {
    var s, n := ProgramBytes(a), |a.binary|;
    if n == |b.binary| && a.version.Some? == b.version.Some? {
      assert a.binary == s[..n] == b.binary;
      if a.version.Some? {
        assert a.version.value == s[n..] == b.version.value;
      }
    }
  }

  // ----- The three id functions together -----

  /** The id functions of one deployment. What follows from them holds for any such functions. */
  datatype IdScheme = IdScheme(frame: Frame -> I64, node: (Option<I64>, I64, I64) -> I64, misc: Text -> I64) {

    /** The id of the profiled executable. */
    function exe(args: Args): I64 {
      misc(ProgramBytes(args))
    }
  }

  function Hashed(h: Hash): IdScheme {
    IdScheme((f: Frame) => FrameId(h, f),
             (p: Option<I64>, d: I64, e: I64) => NodeId(h, p, d, e),
             (text: Text) => IdOf(h, text))
  }

  /** What the three ids of a deployment identify: they coincide exactly where the hash clashes on the bytes of the two
      frames, nodes or programs. */
  lemma HashedIdsCoincideExactly(h: Hash, f: Frame, g: Frame, p: Option<I64>, d: I64, e: I64, p': Option<I64>, d': I64,
                                 e': I64, a: Args, b: Args)
    ensures Hashed(h).frame(f) == Hashed(h).frame(g) <==> Clash(h, FrameBytes(f), FrameBytes(g))
    ensures Hashed(h).node(p, d, e) == Hashed(h).node(p', d', e') <==>
            Clash(h, NodeBytes(p, d, e), NodeBytes(p', d', e'))
    ensures Hashed(h).exe(a) == Hashed(h).exe(b) <==> Clash(h, ProgramBytes(a), ProgramBytes(b))
  {
    IdsCoincideExactly(h, FrameBytes(f), FrameBytes(g));
    IdsCoincideExactly(h, NodeBytes(p, d, e), NodeBytes(p', d', e'));
    IdsCoincideExactly(h, ProgramBytes(a), ProgramBytes(b));
  }
}
