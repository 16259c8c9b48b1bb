/**
 Include lines on the command line, said in bytes: which keys are includes, the replay over
 every walk in which only such lines pull anything in, and the outcome of one command line
 written out.
 */
module CommandLineInclude {
  import opened Bytes
  import opened CommandLine
  import opened CommandLineOrder
  import opened CommandLineWalk
  import opened CommandLineGit
  import opened ConfigKey
  import opened Optional

  /** `include.path`, `includeif.path`, or `includeif.`, a condition and `.path`. */
  ghost predicate NamesFile(key: Bytes) {
    || key == [105, 110, 99, 108, 117, 100, 101, 46, 112, 97, 116, 104]
    || key == [105, 110, 99, 108, 117, 100, 101, 105, 102, 46, 112, 97, 116, 104]
    || exists condition: Bytes ::
         key == [105, 110, 99, 108, 117, 100, 101, 105, 102, 46] + condition + [46, 112, 97, 116, 104]
  }

  /** Those are the include keys, and there are no others. */
  lemma IncludeKeys(key: Bytes)
    ensures IsIncludeKey(key) <==>
      || key == [105, 110, 99, 108, 117, 100, 101, 46, 112, 97, 116, 104]
      || key == [105, 110, 99, 108, 117, 100, 101, 105, 102, 46, 112, 97, 116, 104]
      || exists condition: Bytes ::
           key == [105, 110, 99, 108, 117, 100, 101, 105, 102, 46] + condition + [46, 112, 97, 116, 104]
  {
    var begin: Bytes, end: Bytes := [105, 110, 99, 108, 117, 100, 101, 105, 102, 46], [46, 112, 97, 116, 104];
    if condition: Bytes :| key == begin + condition + end {
      assert key[..10] == begin && key[|key| - 5..] == end;
    }
    if |key| >= 10 && key[..10] == begin && key[|key| - 5..] == end {
      EndsApart(key, begin, end);
      if |key| >= 15 {
        assert key == begin + key[10..|key| - 5] + end;
      } else {
        assert key == begin + key[10..];
        assert key[10..] == end[15 - |key|..];
      }
    }
    var path: Bytes := [105, 110, 99, 108, 117, 100, 101, 105, 102, 46, 112, 97, 116, 104];
    assert path[..10] == begin && path[|path| - 5..] == end;
  }

  /** The two ends of a key share no byte but the dot. */
  lemma EndsApart(key: Bytes, begin: Bytes, end: Bytes)
    requires begin == [105, 110, 99, 108, 117, 100, 101, 105, 102, 46] && end == [46, 112, 97, 116, 104]
    requires |key| >= 10 && key[..10] == begin && key[|key| - 5..] == end
    ensures |key| >= 14
  {
    var n := |key|;
    assert key[9] == key[..10][9] == 46;
    assert forall i :: n - 5 < i < n ==> key[i] == key[n - 5..][i - (n - 5)];
  }

  // ---- the walks, in the same words ----------------------------------------------------------

  /** What stands behind a line of that key: nothing, unless it names a file. */
  ghost predicate Behind(key: Bytes, source: Source, run: seq<Entry>) {
    && (run != [] ==> NamesFile(key))
    && forall i :: 0 <= i < |run| ==> run[i].source == source && run[i].level > 0
  }

  ghost predicate Walks(w: Walk) {
    && (forall i :: 0 <= i < |w.files| ==> w.files[i].source == File)
    && (forall j :: 0 <= j < |w.inherited| ==>
          && w.inherited[j].head.source == Env && w.inherited[j].head.level == 0 && w.inherited[j].head.value.Some?
          && Behind(w.inherited[j].head.key, Env, w.inherited[j].run))
    && (forall k :: 0 <= k < |w.line| ==>
          && (w.line[k].fromEnv.Some? ==>
                && w.line[k].typed.value.Some?
                && Behind(NormalizeKey(w.line[k].typed.key), Env, w.line[k].fromEnv.value))
          && Behind(NormalizeKey(w.line[k].typed.key), Cli, w.line[k].fromCli))
    && (forall a :: 0 <= a < |w.alias| && w.alias[a].typed.value.Some? ==>
          Behind(NormalizeKey(w.alias[a].typed.key), Env, w.alias[a].run))
    && (forall i :: 0 <= i < |w.rest| ==>
          && (w.rest[i].source == Cli || w.rest[i].source == Api || w.rest[i].source == EnvOverride)
          && (w.rest[i].source == Cli ==> 61 !in w.rest[i].key))
    && (w.rest != [] && w.rest[0].source == Cli ==> w.rest[0].level == 0)
  }

  lemma BehindIs(key: Bytes, source: Source, run: seq<Entry>)
    ensures Behind(key, source, run) <==> Inside(run, source) && (run != [] ==> IsIncludeKey(key))
  {
    hide IsIncludeKey;
    IncludeKeys(key);
  }

  /** The walks the theorems are about are the ones just described. */
  lemma WalksAre(w: Walk)
    ensures WalkOk(w) <==> Walks(w)
  {
    hide IsIncludeKey, NamesFile, Behind, NormalizeKey;
    forall key, source, run
      ensures Behind(key, source, run) <==> Inside(run, source) && (run != [] ==> IsIncludeKey(key))
    {
      BehindIs(key, source, run);
    }
    hide Inside;
    forall j | 0 <= j < |w.inherited|
      ensures EnvOk(w.inherited[j]) <==>
        && w.inherited[j].head.source == Env && w.inherited[j].head.level == 0 && w.inherited[j].head.value.Some?
        && Behind(w.inherited[j].head.key, Env, w.inherited[j].run)
    {
    }
  }

  /**
   The files, the inherited environment, every `-c` as typed in argv order and, behind it, what it
   pulled in, then what outranks the command line: that is what is told over every walk in which
   only lines that name a file pull anything in, no alias adds to the line, and every override with
   a value has its copy in the environment.
   */
  lemma ToldInOrder(w: Walk, s: Splice)
    requires Walks(w) && w.alias == []
    requires forall k :: 0 <= k < |w.line| && w.line[k].typed.value.Some? ==> w.line[k].fromEnv.Some?
    requires IsSplice(Entries(w), Overrides(w), s)
    ensures Fits(Entries(w), Overrides(w), s)
    ensures Ordered(Entries(w), Overrides(w), s) ==
      Items(w.files) + Items(Flat(w.inherited)) + GitLine(w.line, |w.line|) + Items(w.rest)
  {
    hide *;
    WalksAre(w);
    IsPlain(w);
    SpliceIsGit(w, s);
  }

  lemma IsPlain(w: Walk)
    requires w.alias == []
    requires forall k :: 0 <= k < |w.line| && w.line[k].typed.value.Some? ==> w.line[k].fromEnv.Some?
    ensures Plain(w)
  {
  }

  /** A line that names a file holds what the file does, and no other line holds anything. */
  lemma HoldsFile(h: Pair -> seq<Setting>, key: Bytes, value: Bytes)
    ensures NamesFile(key) ==> Holds(h, Setting(key, Some(value))) == h(Pair(key, value))
    ensures !NamesFile(key) ==> Holds(h, Setting(key, Some(value))) == []
    ensures Holds(h, Setting(key, None)) == []
  {
    IncludeKeys(key);
  }

  // ---- one command line, written out ---------------------------------------------------------

  /** `include.path` */
  const PATH: Bytes := [105, 110, 99, 108, 117, 100, 101, 46, 112, 97, 116, 104]

  /** `A.B.C` and `Include.Path`, as they are spelled when they are compared. */
  lemma Spellings()
    ensures NormalizeKey([65, 46, 66, 46, 67]) == [97, 46, 66, 46, 99]
    ensures NormalizeKey([73, 110, 99, 108, 117, 100, 101, 46, 80, 97, 116, 104]) == PATH
    ensures NormalizeKey([97, 46, 98]) == [97, 46, 98] && NormalizeKey(PATH) == PATH
  {
    hide NormalizeKey, FirstDot, LastDot, LowerAll;
    FoldsEnds([65], [66], [67]);
    FoldsBoth([97], [98]);
    FoldsBoth(PATH[..7], PATH[8..]);
    FoldsBoth([73, 110, 99, 108, 117, 100, 101], [80, 97, 116, 104]);
    assert PATH == PATH[..7] + [46] + PATH[8..];
    assert [65] + [46] + [66] + [46] + [67] == [65, 46, 66, 46, 67] && [97] + [46] + [98] == [97, 46, 98];
    assert [73, 110, 99, 108, 117, 100, 101] + [46] + [80, 97, 116, 104] ==
      [73, 110, 99, 108, 117, 100, 101, 46, 80, 97, 116, 104];
    Folded([65], [97]);
    Folded([67], [99]);
    Folded([97], [97]);
    Folded([98], [98]);
    Folded(PATH[..7], PATH[..7]);
    Folded(PATH[8..], PATH[8..]);
    Folded([73, 110, 99, 108, 117, 100, 101], PATH[..7]);
    Folded([80, 97, 116, 104], PATH[8..]);
    assert [97] + [46] + [66] + [46] + [99] == [97, 46, 66, 46, 99];
  }

  lemma Folded(s: Bytes, t: Bytes)
    requires |s| == |t| && forall i :: 0 <= i < |s| ==> t[i] == Lower(s[i])
    ensures LowerAll(s) == t
  {
  }

  /** Section and name fold, whatever stands between them. */
  lemma FoldsEnds(a: Bytes, m: Bytes, z: Bytes)
    requires 46 !in a && 46 !in z
    ensures NormalizeKey(a + [46] + m + [46] + z) == LowerAll(a) + [46] + m + [46] + LowerAll(z)
  {
    hide FirstDot, LowerAll;
    var key := a + [46] + m + [46] + z;
    FirstDotAt(a, m + [46] + z);
    assert key == a + [46] + (m + [46] + z);
    var rest := key[|a| + 1..];
    assert rest == m + [46] + z && key[..|a|] == a;
    LastDotAt(m, z);
    assert rest[..|m|] == m && rest[|m| + 1..] == z;
  }

  lemma FoldsBoth(a: Bytes, z: Bytes)
    requires 46 !in a && 46 !in z
    ensures NormalizeKey(a + [46] + z) == LowerAll(a) + [46] + LowerAll(z)
  {
    hide FirstDot, LowerAll, LastDot;
    FirstDotAt(a, z);
    var key := a + [46] + z;
    assert key[|a| + 1..] == z && key[..|a|] == a;
  }

  lemma FirstDotAt(a: Bytes, rest: Bytes)
    requires 46 !in a
    ensures FirstDot(a + [46] + rest) == |a|
  {
    hide FirstDot;
    var key, d := a + [46] + rest, FirstDot(a + [46] + rest);
    assert key[|a|] == 46;
    assert forall i :: 0 <= i < |a| ==> key[i] == a[i] && a[i] in a;
  }

  lemma LastDotAt(m: Bytes, z: Bytes)
    requires 46 !in z
    ensures LastDot(m + [46] + z) == Some(|m|)
  {
    hide LastDot;
    var s := m + [46] + z;
    assert s[|m|] == 46 && s[|m| + 1..] == z;
    LastDotIs(s, |m|);
  }

  lemma LastDotIs(s: Bytes, l: nat)
    requires l < |s| && s[l] == 46 && 46 !in s[l + 1..]
    ensures LastDot(s) == Some(l)
  {
    hide LastDot;
    var d := LastDot(s);
    assert d.Some? && d.value >= l;
    assert forall i :: l < i < |s| ==> s[i] == s[l + 1..][i - l - 1];
  }

  /** `git -c a.b=1 -c include.path=f`, where `f` holds `a.b=2`. */
  function TypedLine(): seq<Override> { [Override([97, 46, 98], Some([49])), Override(PATH, Some([102]))] }

  /** What the two deliveries and the file leave in the walk, an entry of a file and one of the outer environment around
   them. */
  function DeliveredWalk(): seq<Entry> {
    [Entry(File, [97, 46, 98], Some([48]), 0), Entry(Env, [97, 46, 98], Some([49]), 0),
     Entry(Env, [97, 46, 98], Some([49]), 0), Entry(Env, PATH, Some([102]), 0), Entry(Env, [97, 46, 98], Some([50]), 1),
     Entry(Cli, [97, 46, 98], Some([49]), 0), Entry(Cli, PATH, Some([102]), 0),
     Entry(Api, [97, 46, 98], Some([51]), 0)]
  }

  /** It is told as git tells it: the included setting behind the line that names the file. */
  lemma IncludeFollows()
    ensures var s := PlanOf(DeliveredWalk(), TypedLine());
      && Fits(DeliveredWalk(), TypedLine(), s)
      && Ordered(DeliveredWalk(), TypedLine(), s) ==
           [Walked(Entry(File, [97, 46, 98], Some([48]), 0)), Walked(Entry(Env, [97, 46, 98], Some([49]), 0)),
            Typed([97, 46, 98], Some([49])), Typed(PATH, Some([102])), Walked(Entry(Env, [97, 46, 98], Some([50]), 1)),
            Walked(Entry(Api, [97, 46, 98], Some([51]), 0))]
  {
    hide *;
    TheWalkIs();
    TheLineIs();
    DeliveredIs();
    ToldInOrder(TheWalk(), PlanOf(DeliveredWalk(), TypedLine()));
  }

  lemma DeliveredIs()
    ensures DeliveredWalk()[0] == Entry(File, [97, 46, 98], Some([48]), 0)
    ensures DeliveredWalk()[1] == Entry(Env, [97, 46, 98], Some([49]), 0)
    ensures DeliveredWalk()[7] == Entry(Api, [97, 46, 98], Some([51]), 0)
  {
  }

  function TheWalk(): Walk {
    Walk([Entry(File, [97, 46, 98], Some([48]), 0)], [Block(Entry(Env, [97, 46, 98], Some([49]), 0), [])],
      [Delivered(TypedLine()[0], Some([]), Some([49]), []),
       Delivered(TypedLine()[1], Some([Entry(Env, [97, 46, 98], Some([50]), 1)]), Some([102]), [])],
      [], [Entry(Api, [97, 46, 98], Some([51]), 0)])
  }

  lemma TheWalkIs()
    ensures var w := TheWalk();
      && Walks(w) && w.alias == [] && Entries(w) == DeliveredWalk() && Overrides(w) == TypedLine()
      && (forall k :: 0 <= k < |w.line| && w.line[k].typed.value.Some? ==> w.line[k].fromEnv.Some?)
      && Items(w.files) == [Walked(DeliveredWalk()[0])] && Items(w.rest) == [Walked(DeliveredWalk()[7])]
      && Items(Flat(w.inherited)) == [Walked(DeliveredWalk()[1])]
  {
    hide NormalizeKey, Flat, Entries, Overrides;
    Spellings();
    TheWalkFlat();
  }

  lemma TheWalkFlat()
    ensures var w := TheWalk();
      && Flat(w.inherited) == [DeliveredWalk()[1]] && Entries(w) == DeliveredWalk() && Overrides(w) == TypedLine()
  {
    hide NormalizeKey, Flat, Copies, CliBlocks, AliasBlocks, Overrides;
    var w := TheWalk();
    TheBlocks();
    FlatNothing();
    FlatSnoc([], w.inherited[0]);
    assert [] + [w.inherited[0]] == [w.inherited[0]] == w.inherited;
    FlatFive(Blocks(w));
    TheOverrides();
  }

  lemma TheOverrides()
    ensures Overrides(TheWalk()) == TypedLine()
  {
  }

  lemma TheBlocks()
    ensures Blocks(TheWalk()) ==
      [Block(DeliveredWalk()[1], []), Block(DeliveredWalk()[2], []), Block(DeliveredWalk()[3], [DeliveredWalk()[4]]),
       Block(DeliveredWalk()[5], []), Block(DeliveredWalk()[6], [])]
  {
    hide NormalizeKey, Copies, CliBlocks, AliasBlocks;
    var w := TheWalk();
    Spellings();
    TwoBlocks(w.line[0], w.line[1]);
    assert w.line == [w.line[0], w.line[1]];
  }

  lemma FlatFive(bs: seq<Block>)
    requires |bs| == 5
    ensures Flat(bs) == [bs[0].head] + bs[0].run + ([bs[1].head] + bs[1].run) + ([bs[2].head] + bs[2].run)
      + ([bs[3].head] + bs[3].run) + ([bs[4].head] + bs[4].run)
  {
    hide Flat;
    FlatNothing();
    FlatSnoc([], bs[0]);
    FlatSnoc([bs[0]], bs[1]);
    FlatSnoc([bs[0], bs[1]], bs[2]);
    FlatSnoc([bs[0], bs[1], bs[2]], bs[3]);
    FlatSnoc([bs[0], bs[1], bs[2], bs[3]], bs[4]);
    assert [] + [bs[0]] == [bs[0]] && [bs[0]] + [bs[1]] == [bs[0], bs[1]];
    assert [bs[0], bs[1]] + [bs[2]] == [bs[0], bs[1], bs[2]];
    assert [bs[0], bs[1], bs[2]] + [bs[3]] == [bs[0], bs[1], bs[2], bs[3]];
    assert bs == [bs[0], bs[1], bs[2], bs[3]] + [bs[4]];
    assert [] + ([bs[0].head] + bs[0].run) == [bs[0].head] + bs[0].run;
  }

  /** The blocks of two overrides, both with a copy and told by `Source::Cli` too. */
  lemma TwoBlocks(d: Delivered, e: Delivered)
    requires d.fromEnv.Some? && e.fromEnv.Some? && EQUALS !in d.typed.key && EQUALS !in e.typed.key
    ensures Copies([d, e]) == [EnvBlock(d.typed, d.fromEnv.value), EnvBlock(e.typed, e.fromEnv.value)]
    ensures CliBlocks([d, e]) ==
      [Block(Entry(Cli, NormalizeKey(d.typed.key), d.cliValue, 0), d.fromCli),
       Block(Entry(Cli, NormalizeKey(e.typed.key), e.cliValue, 0), e.fromCli)]
    ensures AliasBlocks([]) == []
  {
    hide NormalizeKey;
    assert [d, e][..1] == [d] && [d][..0] == [];
    assert Copies([]) == [] && CliBlocks([]) == [];
    assert Copies([d]) == [EnvBlock(d.typed, d.fromEnv.value)];
    assert CliBlocks([d]) == [Block(Entry(Cli, NormalizeKey(d.typed.key), d.cliValue, 0), d.fromCli)];
  }

  lemma TheLineIs()
    ensures var w := TheWalk();
      GitLine(w.line, |w.line|) ==
        [Typed([97, 46, 98], Some([49])), Typed(PATH, Some([102])), Walked(Entry(Env, [97, 46, 98], Some([50]), 1))]
  {
    hide NormalizeKey;
    Spellings();
    var w := TheWalk();
    var one, two := [Typed([97, 46, 98], Some([49]))], [Typed(PATH, Some([102]))];
    assert GitLine(w.line, 0) == [];
    assert GitLine(w.line, 1) == [] + one + Items([]);
    assert GitLine(w.line, 2) == one + two + Items([Entry(Env, [97, 46, 98], Some([50]), 1)]);
    assert |w.line| == 2;
  }
}
