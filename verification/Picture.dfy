/** What an answer to a reader says, read off the answer alone: its names, its values, and which of its nodes lie below
    which (D3FlamegraphData, src/bin/server.rs:49-59, 220-274). */
module Picture {
  import opened Defs
  import opened Upserts
  import opened Paths
  import opened Trie
  import opened Dag
  import opened Present

  // ----- Names -----

  /** The part of the file name behind its last slash. */
  ghost predicate IsBaseName(base: Text, file: Text) {
    SLASH !in base && (base == file || exists k :: 0 <= k < |file| && file[k] == SLASH && file[k + 1..] == base)
  }

  predicate IsDigit(c: Byte) {
    0x30 <= c <= 0x39
  }

  /** Digits without a leading zero, unless the number is zero. */
  predicate IsDigits(s: Text) {
    s != [] && (forall i :: 0 <= i < |s| ==> IsDigit(s[i])) && (|s| > 1 ==> s[0] != 0x30)
  }

  function DigitValue(c: int): int {
    c - 0x30
  }

  /** The number that the digits stand for. */
  function ReadDigits(s: Text): int {
    if s == [] then 0 else 10 * ReadDigits(s[..|s| - 1]) + DigitValue(s[|s| - 1])
  }

  predicate IsNumeral(s: Text, n: int) {
    if n < 0 then s != [] && s[0] == MINUS && IsDigits(s[1..]) && ReadDigits(s[1..]) == -n
    else IsDigits(s) && ReadDigits(s) == n
  }

  /** The name of a node that shows f: its symbol, the base name of its file if it has one, and then also its line if it
      has one, with colons between them. */
  ghost predicate IsName(name: Text, f: Frame) {
    if f.file.None? then name == f.symbol
    else exists base :: IsBaseName(base, f.file.value) && IsNameWith(name, f, base)
  }

  ghost predicate IsNameWith(name: Text, f: Frame, base: Text) {
    if f.line.None? then name == f.symbol + [COLON] + base
    else exists digits :: IsNumeral(digits, f.line.value) && name == f.symbol + [COLON] + base + [COLON] + digits
  }

  lemma {:induction false} BaseNameExactly(base: Text, file: Text)
    ensures IsBaseName(base, file) <==> base == BaseName(file)
  {
    BaseNameMeaning(file);
    if IsBaseName(base, file) {
      OneBaseName(base, BaseName(file), file);
    }
  }

  lemma {:induction false} BaseNameMeaning(file: Text)
    ensures IsBaseName(BaseName(file), file)
  {
    if file == [] {
    } else if file[|file| - 1] == SLASH {
      assert file[|file| - 1 + 1..] == [];
    } else {
      var n := |file| - 1;
      var rest := file[..n];
      BaseNameMeaning(rest);
      assert file == rest + [file[n]];
      if BaseName(rest) != rest {
        var k :| 0 <= k < n && rest[k] == SLASH && rest[k + 1..] == BaseName(rest);
        assert file[k + 1..] == rest[k + 1..] + [file[n]];
      }
    }
  }

  lemma {:induction false} OneBaseName(a: Text, b: Text, file: Text)
    requires IsBaseName(a, file) && IsBaseName(b, file)
    ensures a == b
  {
    NotShorter(a, b, file);
    NotShorter(b, a, file);
    assert a == file[|file| - |a|..] == b;
  }

  /** A shorter one would leave a slash in the longer one. */
  lemma {:induction false} NotShorter(a: Text, b: Text, file: Text)
    requires IsBaseName(a, file) && IsBaseName(b, file)
    ensures |a| <= |b|
  {
    var m := |file| - |a|;
    assert a == file[m..];
    if b != file {
      var k :| 0 <= k < |file| && file[k] == SLASH && file[k + 1..] == b;
      assert forall i :: m <= i < |file| ==> file[i] == a[i - m];
    }
  }

  lemma {:induction false} DigitsOf(n: int)
    requires n >= 0
    ensures IsNumeral(Decimal(n), n)
    decreases n
  {
    var s := Decimal(n);
    if n >= 10 {
      DigitsOf(n / 10);
      assert s[..|s| - 1] == Decimal(n / 10);
      MoreThanOneDigit(Decimal(n / 10), n / 10);
    } else {
      assert s[..0] == [];
    }
  }

  lemma {:induction false} ReadPositive(s: Text)
    requires IsDigits(s)
    ensures ReadDigits(s) >= 0
    ensures s[0] != 0x30 ==> ReadDigits(s) > 0
  {
    if |s| == 1 {
      assert s[..0] == [];
    } else {
      ReadPositive(s[..|s| - 1]);
    }
  }

  lemma {:induction false} MoreThanOneDigit(s: Text, n: int)
    requires IsDigits(s) && ReadDigits(s) == n && n > 0
    ensures s[0] != 0x30
  {
    if |s| == 1 {
      assert s[..0] == [];
    }
  }

  lemma {:induction false} DigitsReadOnce(s: Text, t: Text)
    requires IsDigits(s) && IsDigits(t) && ReadDigits(s) == ReadDigits(t)
    ensures s == t
    decreases |s| + |t|
  {
    var m, n := |s| - 1, |t| - 1;
    assert s[..m] + [s[m]] == s && t[..n] + [t[n]] == t;
    if m == 0 {
      OneDigit(s, t);
    } else if n == 0 {
      OneDigit(t, s);
    } else {
      LastDigits(ReadDigits(s[..m]), DigitValue(s[m]), ReadDigits(t[..n]), DigitValue(t[n]));
      DigitsReadOnce(s[..m], t[..n]);
    }
  }

  lemma {:induction false} LastDigits(a: int, c: int, b: int, d: int)
    requires 10 * a + c == 10 * b + d && 0 <= c < 10 && 0 <= d < 10
    ensures a == b && c == d
  {
  }

  /** Numbers with one digit are less than ten, and others are not. */
  lemma {:induction false} OneDigit(s: Text, t: Text)
    requires IsDigits(s) && IsDigits(t) && ReadDigits(s) == ReadDigits(t) && |s| == 1
    ensures |t| == 1 && s == t
  {
    assert s[..0] == [];
    if |t| > 1 {
      ReadPositive(t[..|t| - 1]);
    } else {
      assert t[..0] == [];
    }
  }

  /** Decimal writes the one numeral of a number. */
  lemma {:induction false} DecimalExactly(s: Text, n: int)
    ensures IsNumeral(s, n) <==> s == Decimal(n)
  {
    var m := if n < 0 then -n else n;
    DigitsOf(m);
    if n < 0 {
      assert Decimal(n) == [MINUS] + Decimal(m) && Decimal(n)[1..] == Decimal(m);
      if IsNumeral(s, n) {
        DigitsReadOnce(s[1..], Decimal(m));
        assert s == [MINUS] + s[1..];
      }
    } else if IsNumeral(s, n) {
      DigitsReadOnce(s, Decimal(m));
    }
  }

  /** NameOf writes the one name of a frame. */
  lemma {:induction false} NameExactly(name: Text, f: Frame)
    ensures IsName(name, f) <==> name == NameOf(f)
  {
    if f.file.Some? {
      var base := BaseName(f.file.value);
      forall b: Text ensures IsBaseName(b, f.file.value) <==> b == base {
        BaseNameExactly(b, f.file.value);
      }
      assert IsName(name, f) <==> IsNameWith(name, f, base);
      if f.line.Some? {
        var digits := Decimal(f.line.value);
        forall s: Text ensures IsNumeral(s, f.line.value) <==> s == digits {
          DecimalExactly(s, f.line.value);
        }
        assert f.symbol + ([COLON] + base + [COLON] + digits) == f.symbol + [COLON] + base + [COLON] + digits;
      } else {
        assert f.symbol + ([COLON] + base) == f.symbol + [COLON] + base;
      }
    }
  }

  /** The node shows the frame. */
  ghost predicate Labelled(d: D3FlamegraphData, f: Frame) {
    d.filename == f.file && d.line_number == f.line && IsName(d.name, f)
  }

  ghost predicate ShowsSome(d: D3FlamegraphData) {
    exists f :: Labelled(d, f)
  }

  lemma {:induction false} ShownLabelled(t: Flame, f: Frame)
    ensures Labelled(Shown(t), f) <==> t.frame == f
  {
    NameExactly(Shown(t).name, f);
    if Labelled(Shown(t), f) {
      NamesReadBack(t.frame, f);
    }
  }

  // ----- What an answer shows of a flame graph -----

  /** The node shows the tree: its frame, its value, and its children one by one, or no list where there are none. */
  ghost predicate Presents(d: D3FlamegraphData, t: Flame)
    decreases t
  {
    && Labelled(d, t.frame) && d.value == t.value
    && if t.children.NoChildren? then d.children.Absent?
       else d.children.Listed? && PresentsAll(d.children.list, t.children.value)
  }

  ghost predicate PresentsAll(list: seq<D3FlamegraphData>, forest: seq<Flame>)
    decreases forest
  {
    |list| == |forest| && forall i :: 0 <= i < |list| ==> Presents(list[i], forest[i])
  }

  lemma {:induction false} ShownAt(forest: seq<Flame>, i: nat)
    requires i < |forest|
    ensures ShownAll(forest)[i] == Shown(forest[i])
  {
    if i < |forest| - 1 {
      ShownAt(forest[..|forest| - 1], i);
    }
  }

  lemma {:induction false} PresentsExactly(d: D3FlamegraphData, t: Flame)
    ensures Presents(d, t) <==> d == Shown(t)
    decreases t
  {
    NameExactly(d.name, t.frame);
    if t.children.SomeChildren? && d.children.Listed? {
      PresentsAllExactly(d.children.list, t.children.value);
    }
  }

  /** The list that is made of a flame graph is the only one that shows it node by node. */
  lemma {:induction false} PresentsAllExactly(list: seq<D3FlamegraphData>, forest: seq<Flame>)
    ensures PresentsAll(list, forest) <==> list == ShownAll(forest)
    decreases forest
  {
    forall i | 0 <= i < |forest| && |list| == |forest|
      ensures Presents(list[i], forest[i]) <==> list[i] == ShownAll(forest)[i]
    {
      PresentsExactly(list[i], forest[i]);
      ShownAt(forest, i);
    }
  }

  // ----- What an answer shows of some stacks -----

  function Below(d: D3FlamegraphData): seq<D3FlamegraphData> {
    if d.children.Absent? then [] else d.children.list
  }

  function Sum(list: seq<D3FlamegraphData>): int {
    if list == [] then 0 else Sum(list[..|list| - 1]) + list[|list| - 1].value
  }

  /** The node is reached along the frames of p. */
  ghost predicate Leads(list: seq<D3FlamegraphData>, p: Path, d: D3FlamegraphData)
    requires p != []
    decreases |p|
  {
    exists i :: 0 <= i < |list| && Labelled(list[i], p[0]) &&
      if |p| == 1 then d == list[i] else Leads(Below(list[i]), p[1..], d)
  }

  /** Every node shows a frame, and of siblings no two show the same one. */
  ghost predicate Clear(list: seq<D3FlamegraphData>)
    decreases list
  {
    && (forall i :: 0 <= i < |list| ==> ShowsSome(list[i]) && ClearBelow(list[i]))
    && (forall i, j, f :: 0 <= i < j < |list| && Labelled(list[i], f) ==> !Labelled(list[j], f))
  }

  ghost predicate ClearBelow(d: D3FlamegraphData)
    decreases d
  {
    d.children.Listed? ==> Clear(d.children.list)
  }

  /** Whether any of the stacks goes on behind p. */
  ghost predicate GoOn(stacks: seq<Path>, p: Path) {
    exists f :: CountPrefix(stacks, p + [f]) > 0
  }

  /** The node that p leads to counts the stacks that start with p; its children's values leave over those that end
      there; and it has children exactly when some stack goes on. */
  ghost predicate DepictsAt(d: D3FlamegraphData, stacks: seq<Path>, p: Path) {
    && d.value == CountPrefix(stacks, p)
    && d.value - Sum(Below(d)) == multiset(stacks)[p]
    && (d.children.Absent? <==> !GoOn(stacks, p))
  }

  /** p leads to a node exactly when some stack starts with p. */
  ghost predicate DepictsAlong(list: seq<D3FlamegraphData>, stacks: seq<Path>, p: Path)
    requires p != []
  {
    && ((exists d :: Leads(list, p, d)) <==> CountPrefix(stacks, p) > 0)
    && (forall d :: Leads(list, p, d) ==> DepictsAt(d, stacks, p))
  }

  /** The answer is a picture of the stacks: below a node with the executable's name, which counts the non-empty ones,
      it shows all of them and nothing else. In which order siblings stand is not decided. */
  ghost predicate Depicts(answer: D3FlamegraphData, basename: Text, stacks: seq<Path>) {
    && answer.name == basename && answer.filename.None? && answer.line_number.None? && answer.children.Listed?
    && answer.value == |stacks| - multiset(stacks)[[]] == Sum(answer.children.list)
    && Clear(answer.children.list)
    && forall p: Path :: p != [] ==> DepictsAlong(answer.children.list, stacks, p)
  }

  // ----- Tries are depicted -----

  lemma {:induction false} ShownSum(forest: seq<Flame>)
    ensures Sum(ShownAll(forest)) == SumValues(forest)
  {
    if forest != [] {
      ShownAllParts(forest);
      ShownSum(forest[..|forest| - 1]);
    }
  }

  lemma {:induction false} ShownBelow(t: Flame)
    ensures Below(Shown(t)) == ShownAll(Kids(t))
  {
  }

  lemma {:induction false} ShownFind(forest: seq<Flame>, f: Frame)
    requires DistinctFrames(forest)
    ensures var t := Find(forest, f);
            forall i :: 0 <= i < |forest| ==> (Labelled(ShownAll(forest)[i], f) <==> t == Some(forest[i]))
    ensures Find(forest, f).Some? ==> exists i :: 0 <= i < |forest| && forest[i] == Find(forest, f).value
  {
    FindMeaning(forest, f);
    forall i | 0 <= i < |forest| ensures Labelled(ShownAll(forest)[i], f) <==> Find(forest, f) == Some(forest[i]) {
      ShownAt(forest, i);
      ShownLabelled(forest[i], f);
    }
  }

  /** Walking the picture is looking up in the trie. */
  lemma {:induction false} LeadsExactly(forest: seq<Flame>, p: Path, d: D3FlamegraphData)
    requires Deterministic(forest) && p != []
    ensures Leads(ShownAll(forest), p, d) <==> NodeAt(forest, p).Some? && d == Shown(NodeAt(forest, p).value)
    decreases |p|
  {
    var list, t := ShownAll(forest), Find(forest, p[0]);
    ShownFind(forest, p[0]);
    if t.Some? {
      var i :| 0 <= i < |forest| && forest[i] == t.value;
      ShownAt(forest, i);
      assert Labelled(list[i], p[0]);
      OnlyOneLabelled(forest, p[0], i);
      if |p| > 1 {
        ShownBelow(t.value);
        assert DeterministicTree(forest[i]);
        LeadsExactly(Kids(t.value), p[1..], d);
      }
    }
  }

  lemma {:induction false} OnlyOneLabelled(forest: seq<Flame>, f: Frame, i: nat)
    requires DistinctFrames(forest) && i < |forest| && Find(forest, f) == Some(forest[i])
    ensures forall j :: 0 <= j < |forest| && Labelled(ShownAll(forest)[j], f) ==> j == i
  {
    FindMeaning(forest, f);
    forall j | 0 <= j < |forest| && Labelled(ShownAll(forest)[j], f) ensures j == i {
      ShownAt(forest, j);
      ShownLabelled(forest[j], f);
    }
  }

  lemma {:induction false} ShownIsClear(forest: seq<Flame>)
    requires Deterministic(forest)
    ensures Clear(ShownAll(forest))
    decreases forest
  {
    var list := ShownAll(forest);
    forall i | 0 <= i < |list| ensures ShowsSome(list[i]) && ClearBelow(list[i]) {
      ShownAt(forest, i);
      ShownLabelled(forest[i], forest[i].frame);
      assert Labelled(list[i], forest[i].frame);
      ShownIsClearBelow(forest[i]);
    }
    forall i, j, f | 0 <= i < j < |list| && Labelled(list[i], f) ensures !Labelled(list[j], f) {
      ShownAt(forest, i);
      ShownAt(forest, j);
      ShownLabelled(forest[i], f);
      ShownLabelled(forest[j], f);
    }
  }

  lemma {:induction false} ShownIsClearBelow(t: Flame)
    requires DeterministicTree(t)
    ensures ClearBelow(Shown(t))
    decreases t
  {
    if t.children.SomeChildren? {
      ShownIsClear(t.children.value);
    }
  }

  lemma {:induction false} NodeBelow(forest: seq<Flame>, p: Path, f: Frame)
    requires p != [] && NodeAt(forest, p).Some?
    ensures NodeAt(forest, p + [f]) == Find(Kids(NodeAt(forest, p).value), f)
    decreases |p|
  {
    var t := Find(forest, p[0]);
    assert (p + [f])[0] == p[0] && (p + [f])[1..] == p[1..] + [f];
    if |p| == 1 {
      assert p[1..] + [f] == [f];
    } else {
      NodeBelow(Kids(t.value), p[1..], f);
    }
  }

  /** A node has children exactly when some stack goes on. */
  lemma {:induction false} ChildrenGoOn(forest: seq<Flame>, stacks: seq<Path>, p: Path)
    requires IsTrie(forest, stacks) && p != [] && NodeAt(forest, p).Some?
    ensures NodeAt(forest, p).value.children.NoChildren? <==> !GoOn(stacks, p)
  {
    var t := NodeAt(forest, p).value;
    TrieDescend(forest, stacks, p);
    if t.children.SomeChildren? {
      var f := t.children.value[0].frame;
      NodeBelow(forest, p, f);
      TrieLookup(forest, stacks, p + [f]);
      FindMeaning(t.children.value, f);
      assert CountPrefix(stacks, p + [f]) > 0;
    } else if f :| CountPrefix(stacks, p + [f]) > 0 {
      NodeBelow(forest, p, f);
      TrieLookup(forest, stacks, p + [f]);
    }
  }

  lemma {:induction false} TrieDepictsAlong(forest: seq<Flame>, stacks: seq<Path>, p: Path)
    requires IsTrie(forest, stacks) && p != []
    ensures DepictsAlong(ShownAll(forest), stacks, p)
  {
    TriesAreDeterministic(forest, stacks);
    TrieLookup(forest, stacks, p);
    forall d ensures Leads(ShownAll(forest), p, d) <==> NodeAt(forest, p).Some? && d == Shown(NodeAt(forest, p).value) {
      LeadsExactly(forest, p, d);
    }
    if NodeAt(forest, p).Some? {
      var t := NodeAt(forest, p).value;
      assert Leads(ShownAll(forest), p, Shown(t));
      TrieEnds(forest, stacks, p);
      ChildrenGoOn(forest, stacks, p);
      ShownBelow(t);
      ShownSum(Kids(t));
    }
  }

  /** The answer made of a trie of the stacks is a picture of them. */
  lemma {:induction false} TriesAreDepicted(basename: Text, forest: seq<Flame>, stacks: seq<Path>)
    requires IsTrie(forest, stacks)
    ensures Depicts(Answer(basename, forest), basename, stacks)
  {
    TrieSums(forest, stacks);
    ShownSum(forest);
    TriesAreDeterministic(forest, stacks);
    ShownIsClear(forest);
    forall p: Path | p != [] ensures DepictsAlong(ShownAll(forest), stacks, p) {
      TrieDepictsAlong(forest, stacks, p);
    }
  }

  // ----- The picture loses nothing -----

  lemma {:induction false} SameOccurrences(answer: D3FlamegraphData, basename: Text, xs: seq<Path>, ys: seq<Path>,
                                           p: Path)
    requires Depicts(answer, basename, xs) && Depicts(answer, basename, ys) && p != []
    ensures multiset(xs)[p] == multiset(ys)[p]
  {
    var list := answer.children.list;
    assert DepictsAlong(list, xs, p) && DepictsAlong(list, ys, p);
    if d :| Leads(list, p, d) {
      assert DepictsAt(d, xs, p) && DepictsAt(d, ys, p);
    } else {
      UncountedNotThere(xs, p);
      UncountedNotThere(ys, p);
    }
  }

  lemma {:induction false} UncountedNotThere(paths: seq<Path>, p: Path)
    requires CountPrefix(paths, p) == 0
    ensures multiset(paths)[p] == 0
  {
    if paths != [] {
      UncountedNotThere(paths[..|paths| - 1], p);
      assert paths == paths[..|paths| - 1] + [paths[|paths| - 1]];
    }
  }

  /** An answer is the picture of one multiset of non-empty stacks only. */
  lemma {:induction false} PicturesReadBack(answer: D3FlamegraphData, basename: Text, xs: seq<Path>, ys: seq<Path>)
    requires Depicts(answer, basename, xs) && Depicts(answer, basename, ys)
    ensures multiset(xs)[[] := 0] == multiset(ys)[[] := 0]
  {
    var m, n := multiset(xs)[[] := 0], multiset(ys)[[] := 0];
    forall p: Path ensures m[p] == n[p] {
      if p != [] {
        SameOccurrences(answer, basename, xs, ys, p);
      }
    }
  }

  // ----- What an answer shows of any rows -----

  /** The node shows row k with its frame and its count, and below it the rows whose parent is k; it has no list of
      children exactly when there are none. */
  ghost predicate ShowsRow(d: D3FlamegraphData, k: I64, sn: Table<StackNode>, sd: Table<StackNodeData>)
    decreases d, 0
  {
    && k in sn && sn[k].stack_node_data_id in sd
    && Labelled(d, sd[sn[k].stack_node_data_id].frame) && d.value == sn[k].sample_count
    && if d.children.Absent? then forall c :: c in sn ==> sn[c].parent_id != Some(k)
       else d.children.list != [] && ShowsRows(d.children.list, Some(k), sn, sd)
  }

  /** The nodes show the rows with the given parent, each once. */
  ghost predicate ShowsRows(list: seq<D3FlamegraphData>, parent: Option<I64>, sn: Table<StackNode>,
                            sd: Table<StackNodeData>)
    decreases list, 1
  {
    exists ids: seq<I64> :: RowsWithParent(ids, parent, sn) && |ids| == |list| &&
      forall i :: 0 <= i < |list| ==> ShowsRow(list[i], ids[i], sn, sd)
  }

  ghost predicate RowsWithParent(ids: seq<I64>, parent: Option<I64>, sn: Table<StackNode>) {
    && (forall i, j :: 0 <= i < j < |ids| ==> ids[i] != ids[j])
    && (forall k :: k in ids <==> k in sn && sn[k].parent_id == parent)
  }

  /** The answer shows, from the rows without a parent downwards, the rows below them, and counts them at the top. */
  ghost predicate AnswersFrom(answer: D3FlamegraphData, basename: Text, sn: Table<StackNode>, sd: Table<StackNodeData>)
  {
    && answer.name == basename && answer.filename.None? && answer.line_number.None? && answer.children.Listed?
    && answer.value == Sum(answer.children.list)
    && ShowsRows(answer.children.list, None, sn, sd)
  }

  lemma {:induction false} SiblingIds(rows: seq<StackNode>, sn: Table<StackNode>, parent: Option<I64>)
    returns (ids: seq<I64>)
    requires AreSiblings(rows, sn, parent) && KeyedBy(NODES, sn)
    ensures RowsWithParent(ids, parent, sn) && |ids| == |rows|
    ensures forall i :: 0 <= i < |rows| ==> ids[i] == rows[i].id
  {
    ids := seq(|rows|, i requires 0 <= i < |rows| => rows[i].id);
    forall i, j | 0 <= i < j < |ids| ensures ids[i] != ids[j] {
      assert NODES.key(rows[i]) != NODES.key(rows[j]);
    }
    forall k ensures k in ids <==> k in sn && sn[k].parent_id == parent {
      if k in ids {
        var i :| 0 <= i < |ids| && ids[i] == k;
        assert rows[i] in rows;
      }
      if k in sn && sn[k].parent_id == parent {
        assert sn[k] in rows && NODES.key(sn[k]) == k;
        var i :| 0 <= i < |rows| && rows[i] == sn[k];
        assert ids[i] == k;
      }
    }
  }

  lemma {:induction false} TreeShowsRow(cur: I64, sn: Table<StackNode>, sd: Table<StackNodeData>, kids: ChildMap)
    requires Navigable(sn, sd, kids) && KeyedBy(NODES, sn) && Rooted(sn, cur)
    ensures ShowsRow(Shown(BuildDag(cur, sn, sd, kids)), cur, sn, sd)
    decreases |sn| - DepthOf(sn, cur), 0
  {
    var t := BuildDag(cur, sn, sd, kids);
    ShownLabelled(t, sd[sn[cur].stack_node_data_id].frame);
    if cur in kids {
      KidsRooted(sn, kids, cur);
      KidsAreSiblings(sn, kids, cur);
      KidsAt(sn, kids, cur);
      assert t.children.value == BuildAll(kids[cur], sn, sd, kids);
      TreesShowRows(kids[cur], Some(cur), DepthOf(sn, cur) + 1, sn, sd, kids);
    }
  }

  lemma {:induction false} KidsAreSiblings(sn: Table<StackNode>, kids: ChildMap, cur: I64)
    requires IsChildMap(kids, sn, sn.Keys) && cur in kids
    ensures AreSiblings(kids[cur], sn, Some(cur)) && kids[cur] != []
  {
  }

  lemma {:induction false} TreesShowRows(rows: seq<StackNode>, parent: Option<I64>, depth: nat, sn: Table<StackNode>,
                                         sd: Table<StackNodeData>, kids: ChildMap)
    requires Navigable(sn, sd, kids) && KeyedBy(NODES, sn)
    requires AreSiblings(rows, sn, parent) && RowsRooted(sn, rows) && RowsAt(sn, rows, depth)
    ensures ShowsRows(ShownAll(BuildAll(rows, sn, sd, kids)), parent, sn, sd)
    decreases |sn| - depth, 1
  {
    var forest := BuildAll(rows, sn, sd, kids);
    var list := ShownAll(forest);
    var ids := SiblingIds(rows, sn, parent);
    forall i | 0 <= i < |list| ensures ShowsRow(list[i], ids[i], sn, sd) {
      ShownAt(forest, i);
      DepthIs(sn, rows[i].id, depth);
      TreeShowsRow(rows[i].id, sn, sd, kids);
    }
  }

  /** Whatever the rows are, the answer made of what build_dag rebuilds shows them. */
  lemma {:induction false} RebuildsShowRows(basename: Text, forest: seq<Flame>, sn: Table<StackNode>,
                                            sd: Table<StackNodeData>)
    requires IsRebuild(forest, sn, sd) && KeyedBy(NODES, sn)
    ensures AnswersFrom(Answer(basename, forest), basename, sn, sd)
  {
    var kids, roots :|
      && Navigable(sn, sd, kids) && AreSiblings(roots, sn, None) && RowsRooted(sn, roots)
      && forest == BuildAll(roots, sn, sd, kids);
    RootsAt(sn, roots);
    TreesShowRows(roots, None, 0, sn, sd, kids);
    ShownSum(forest);
  }
}
