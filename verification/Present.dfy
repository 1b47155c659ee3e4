/** The answer to a reader (D3FlamegraphData and the name formatting of build_dag, src/bin/server.rs:49-59, 220-274),
    and that it shows all of the flame graph. */
module Present {
  import opened Defs
  import opened Trie

  const COLON: Byte := 0x3A
  const SLASH: Byte := 0x2F
  const MINUS: Byte := 0x2D

  datatype D3FlamegraphData = D3FlamegraphData(name: Text, value: int, filename: Option<Text>,
                                               line_number: Option<I32>, children: D3Children)

  datatype D3Children = Absent | Listed(list: seq<D3FlamegraphData>)

  /** The file name after its last slash; all of it where there is none. */
  function BaseName(file: Text): Text {
    if file == [] || file[|file| - 1] == SLASH then []
    else BaseName(file[..|file| - 1]) + [file[|file| - 1]]
  }

  function Decimal(n: int): Text
    decreases n < 0, if n < 0 then -n else n
  {
    if n < 0 then [MINUS] + Decimal(-n)
    else if n < 10 then [0x30 + n]
    else Decimal(n / 10) + [0x30 + n % 10]
  }

  /** What follows the symbol in a name; the line only shows together with a file. */
  function NameSuffix(file: Option<Text>, line: Option<I32>): Text {
    match file
    case None => []
    case Some(x) =>
      match line
      case Some(y) => [COLON] + BaseName(x) + [COLON] + Decimal(y)
      case None => [COLON] + BaseName(x)
  }

  function NameOf(f: Frame): Text {
    f.symbol + NameSuffix(f.file, f.line)
  }

  function Shown(t: Flame): D3FlamegraphData
    decreases t
  {
    D3FlamegraphData(NameOf(t.frame), t.value, t.frame.file, t.frame.line,
                     if t.children.NoChildren? then Absent else Listed(ShownAll(t.children.value)))
  }

  function ShownAll(forest: seq<Flame>): (r: seq<D3FlamegraphData>)
    ensures |r| == |forest|
    decreases forest
  {
    if forest == [] then [] else ShownAll(forest[..|forest| - 1]) + [Shown(forest[|forest| - 1])]
  }

  /** The bytes of ASCII text. */
  function Ascii(s: string): Text {
    seq(|s|, i requires 0 <= i < |s| => if s[i] as int < 0x80 then s[i] as int else 0x3F)
  }

  /** This id is answered with made-up data, before the database is asked. */
  const DEMO_ID: I64 := 123

  const DEMO: D3FlamegraphData :=
    D3FlamegraphData(Ascii("junk test data"), 12, Some(Ascii("/var/asdas/ffff.cpp")), Some(123), Listed([
      D3FlamegraphData(Ascii("dqwd"), 2, None, None, Absent),
      D3FlamegraphData(Ascii("dsqwd"), 3, None, None, Absent)]))

  /** The answer for an executable: a synthetic top node over the roots, with the sum of their values. */
  function Answer(basename: Text, forest: seq<Flame>): D3FlamegraphData {
    D3FlamegraphData(basename, SumValues(forest), None, None, Listed(ShownAll(forest)))
  }

  /** The name, together with the file and the line, determines the symbol. */
  lemma NamesReadBack(f: Frame, g: Frame)
    requires NameOf(f) == NameOf(g) && f.file == g.file && f.line == g.line
    ensures f == g
  {
    var n := |NameOf(f)| - |NameSuffix(f.file, f.line)|;
    assert f.symbol == NameOf(f)[..n] == NameOf(g)[..n] == g.symbol;
  }

  lemma {:induction false} ShownReadsBack(t: Flame, u: Flame)
    requires Shown(t) == Shown(u)
    ensures t == u
    decreases t
  {
    NamesReadBack(t.frame, u.frame);
    if t.children.SomeChildren? {
      ShownAllReadsBack(t.children.value, u.children.value);
    }
  }

  lemma {:induction false} ShownAllParts(xs: seq<Flame>)
    requires xs != []
    ensures var n := |xs| - 1; ShownAll(xs)[..n] == ShownAll(xs[..n]) && ShownAll(xs)[n] == Shown(xs[n])
  {
  }

  /** The answer loses nothing: it determines the flame graph, node by node and frame by frame. */
  lemma {:induction false} ShownAllReadsBack(xs: seq<Flame>, ys: seq<Flame>)
    requires ShownAll(xs) == ShownAll(ys)
    ensures xs == ys
    decreases xs
  {
    assert |xs| == |ShownAll(xs)| == |ys|;
    if xs != [] {
      var n := |xs| - 1;
      ShownAllParts(xs);
      ShownAllParts(ys);
      ShownAllReadsBack(xs[..n], ys[..n]);
      ShownReadsBack(xs[n], ys[n]);
      assert xs == xs[..n] + [xs[n]] && ys == ys[..n] + [ys[n]];
    }
  }
}
