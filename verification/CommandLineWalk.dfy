/**
 A merged walk as the setup code builds it, and what the replay makes of it: which entries of
 the environment stay, and what follows each override.
 */
module CommandLineWalk {
  import opened Bytes
  import opened CommandLine
  import opened CommandLineOrder
  import opened Optional
  import P = Places

  // ---- a top-level entry and what it included -----------------------------------------------

  datatype Block = Block(head: Entry, run: seq<Entry>)

  /** A run of entries included by a line of that source. */
  predicate Inside(es: seq<Entry>, s: Source) { forall i :: 0 <= i < |es| ==> es[i].source == s && es[i].level > 0 }

  predicate BlockOk(b: Block) {
    b.head.level == 0 && Inside(b.run, b.head.source) && (b.run != [] ==> IsIncludeKey(b.head.key))
  }

  function Flat(bs: seq<Block>): seq<Entry> {
    if bs == [] then []
    else
      var b := bs[|bs| - 1];
      Flat(bs[..|bs| - 1]) + ([b.head] + b.run)
  }

  /** Where block `j` begins. */
  function At(bs: seq<Block>, j: nat): nat
    requires j <= |bs|
  {
    |Flat(bs[..j])|
  }

  lemma FlatSnoc(bs: seq<Block>, b: Block)
    ensures Flat(bs + [b]) == Flat(bs) + ([b.head] + b.run)
  {
    assert (bs + [b])[..|bs|] == bs;
  }

  lemma FlatNothing()
    ensures Flat([]) == []
  {
  }

  lemma {:induction false} FlatConcat(a: seq<Block>, b: seq<Block>)
    ensures Flat(a + b) == Flat(a) + Flat(b)
  {
    hide *;
    if b == [] {
      assert a + b == a;
      FlatNothing();
      assert Flat(a) + [] == Flat(a);
    } else {
      var c, x := b[..|b| - 1], b[|b| - 1];
      FlatConcat(a, c);
      assert a + b == a + c + [x] && b == c + [x];
      FlatSnoc(a + c, x);
      FlatSnoc(c, x);
      assert Flat(a) + Flat(c) + ([x.head] + x.run) == Flat(a) + (Flat(c) + ([x.head] + x.run));
    }
  }

  /** Block `j` in the flat sequence. */
  lemma BlockAt(bs: seq<Block>, j: nat)
    requires j < |bs|
    ensures At(bs, j + 1) == At(bs, j) + 1 + |bs[j].run| <= |Flat(bs)|
    ensures Flat(bs)[At(bs, j)] == bs[j].head
    ensures Flat(bs)[At(bs, j) + 1..At(bs, j + 1)] == bs[j].run
    ensures Flat(bs)[At(bs, j)..At(bs, j + 1)] == [bs[j].head] + bs[j].run
  {
    hide Flat;
    var b := bs[j];
    assert bs[..j + 1] == bs[..j] + [b];
    FlatSnoc(bs[..j], b);
    assert bs == bs[..j + 1] + bs[j + 1..];
    FlatConcat(bs[..j + 1], bs[j + 1..]);
    assert Flat(bs) == Flat(bs[..j]) + ([b.head] + b.run) + Flat(bs[j + 1..]);
  }

  lemma AtEnds(bs: seq<Block>)
    ensures At(bs, 0) == 0 && At(bs, |bs|) == |Flat(bs)|
  {
    assert bs[..0] == [] && bs[..|bs|] == bs;
  }

  lemma {:induction false} AtRises(bs: seq<Block>, i: nat, j: nat)
    requires i <= j <= |bs|
    ensures At(bs, i) <= At(bs, j) <= |Flat(bs)| && (i < j ==> At(bs, i) < At(bs, j))
    decreases j - i
  {
    hide Flat;
    if i < j {
      AtRises(bs, i + 1, j);
      BlockAt(bs, i);
    } else if j < |bs| {
      BlockAt(bs, j);
    } else {
      AtEnds(bs);
    }
  }

  /** The block an index lies in. */
  lemma {:induction false} OwnerOf(bs: seq<Block>, i: nat, n: nat) returns (j: nat)
    requires n <= |bs| && i < At(bs, n)
    ensures j < n && At(bs, j) <= i < At(bs, j + 1)
  {
    hide Flat;
    AtEnds(bs);
    if i < At(bs, n - 1) { j := OwnerOf(bs, i, n - 1); } else { j := n - 1; }
  }

  // ---- the walk ------------------------------------------------------------------------------

  /**
   One `-c`, on this command line or handed down in `GIT_CONFIG_PARAMETERS`, and how it was
   delivered: what its environment copy included, if it has one; the value its `Source::Cli`
   copy was parsed to, and what that copy included.
   */
  datatype Delivered = Delivered(typed: Override, fromEnv: Option<seq<Entry>>, cliValue: Option<Bytes>,
      fromCli: seq<Entry>)

  /** A `-c` an alias's expansion brought: it reaches the environment alone, and only with a value. */
  datatype Aliased = Aliased(typed: Override, run: seq<Entry>)

  datatype Walk = Walk(files: seq<Entry>, inherited: seq<Block>, line: seq<Delivered>, alias: seq<Aliased>,
      rest: seq<Entry>)

  function EnvBlock(o: Override, run: seq<Entry>): Block { Block(Entry(Env, NormalizeKey(o.key), o.value, 0), run) }

  /** The environment copies of the overrides that have one. */
  function Copies(line: seq<Delivered>): seq<Block> {
    if line == [] then []
    else
      var d := line[|line| - 1];
      Copies(line[..|line| - 1]) + if d.fromEnv.Some? then [EnvBlock(d.typed, d.fromEnv.value)] else []
  }

  function AliasBlocks(alias: seq<Aliased>): seq<Block> {
    if alias == [] then []
    else
      var a := alias[|alias| - 1];
      AliasBlocks(alias[..|alias| - 1]) + if a.typed.value.Some? then [EnvBlock(a.typed, a.run)] else []
  }

  function EnvBlocks(w: Walk): seq<Block> { w.inherited + Copies(w.line) + AliasBlocks(w.alias) }

  /** Every override whose key holds no `=` is handed over as `Source::Cli`. */
  function CliBlocks(line: seq<Delivered>): seq<Block> {
    if line == [] then []
    else
      var d := line[|line| - 1];
      CliBlocks(line[..|line| - 1]) +
      if EQUALS in d.typed.key then [] else [Block(Entry(Cli, NormalizeKey(d.typed.key), d.cliValue, 0), d.fromCli)]
  }

  function Blocks(w: Walk): seq<Block> { EnvBlocks(w) + CliBlocks(w.line) }

  function Entries(w: Walk): seq<Entry> { w.files + Flat(Blocks(w)) + w.rest }

  function Overrides(w: Walk): (os: seq<Override>)
    ensures |os| == |w.line| && forall k :: 0 <= k < |os| ==> os[k] == w.line[k].typed
  {
    seq(|w.line|, k requires 0 <= k < |w.line| => w.line[k].typed)
  }

  predicate EnvOk(b: Block) { BlockOk(b) && b.head.source == Env && b.head.value.Some? }

  predicate DeliveredOk(d: Delivered) {
    && (d.fromEnv.Some? ==> EnvOk(EnvBlock(d.typed, d.fromEnv.value)))
    && Inside(d.fromCli, Cli) && (d.fromCli != [] ==> IsIncludeKey(NormalizeKey(d.typed.key)))
  }

  predicate WalkOk(w: Walk) {
    && (forall i :: 0 <= i < |w.files| ==> w.files[i].source == File)
    && (forall j :: 0 <= j < |w.inherited| ==> EnvOk(w.inherited[j]))
    && (forall k :: 0 <= k < |w.line| ==> DeliveredOk(w.line[k]))
    && (forall a :: 0 <= a < |w.alias| ==> w.alias[a].typed.value.Some? ==>
          EnvOk(EnvBlock(w.alias[a].typed, w.alias[a].run)))
    && (forall i :: 0 <= i < |w.rest| ==>
          AfterEnv(w.rest[i].source) && (w.rest[i].source == Cli ==> EQUALS !in w.rest[i].key))
    && (w.rest != [] ==> w.rest[0].source != Cli || w.rest[0].level == 0)
  }

  // ---- the blocks of a walk --------------------------------------------------------------------

  lemma {:induction false} CopiesOk(line: seq<Delivered>)
    requires forall k :: 0 <= k < |line| ==> DeliveredOk(line[k])
    ensures forall j :: 0 <= j < |Copies(line)| ==> EnvOk(Copies(line)[j])
  {
    hide EnvOk;
    if line != [] { CopiesOk(line[..|line| - 1]); }
  }

  lemma {:induction false} AliasOk(alias: seq<Aliased>)
    requires forall a :: 0 <= a < |alias| ==>
      alias[a].typed.value.Some? ==> EnvOk(EnvBlock(alias[a].typed, alias[a].run))
    ensures forall j :: 0 <= j < |AliasBlocks(alias)| ==> EnvOk(AliasBlocks(alias)[j])
  {
    hide EnvOk;
    if alias != [] { AliasOk(alias[..|alias| - 1]); }
  }

  predicate CliOk(b: Block) { BlockOk(b) && b.head.source == Cli && EQUALS !in b.head.key }

  lemma {:induction false} CliBlocksOk(line: seq<Delivered>)
    requires forall k :: 0 <= k < |line| ==> DeliveredOk(line[k])
    ensures forall j :: 0 <= j < |CliBlocks(line)| ==> CliOk(CliBlocks(line)[j])
  {
    hide EnvOk, NormalizeKey, IsIncludeKey;
    if line != [] {
      CliBlocksOk(line[..|line| - 1]);
      NormalizeKeepsEquals(line[|line| - 1].typed.key);
    }
  }

  lemma BlocksOk(w: Walk)
    requires WalkOk(w)
    ensures forall j :: 0 <= j < |EnvBlocks(w)| ==> EnvOk(EnvBlocks(w)[j])
    ensures forall j :: 0 <= j < |CliBlocks(w.line)| ==> CliOk(CliBlocks(w.line)[j])
  {
    hide EnvOk, CliOk, DeliveredOk;
    CopiesOk(w.line);
    AliasOk(w.alias);
    CliBlocksOk(w.line);
  }

  function Base(w: Walk): nat { |w.files| }

  /** Where block `j` begins in the walk. */
  function Head(w: Walk, j: nat): nat
    requires j <= |Blocks(w)|
  {
    Base(w) + At(Blocks(w), j)
  }

  function LineEnd(w: Walk): nat { Head(w, |Blocks(w)|) }

  lemma WalkParts(w: Walk)
    ensures var es := Entries(w);
      && Head(w, 0) == Base(w) <= LineEnd(w) <= |es|
      && es[..Base(w)] == w.files && es[LineEnd(w)..] == w.rest
      && es[Base(w)..LineEnd(w)] == Flat(Blocks(w))
      && |es| - LineEnd(w) == |w.rest|
  {
    hide Flat, Blocks;
    AtEnds(Blocks(w));
  }

  /** Block `j` in the walk. */
  lemma HeadIs(w: Walk, j: nat)
    requires j < |Blocks(w)|
    ensures var es := Entries(w);
      && Head(w, j) < Head(w, j + 1) == Head(w, j) + 1 + |Blocks(w)[j].run| <= LineEnd(w) <= |es|
      && es[Head(w, j)] == Blocks(w)[j].head
      && es[Head(w, j) + 1..Head(w, j + 1)] == Blocks(w)[j].run
      && es[Head(w, j)..Head(w, j + 1)] == [Blocks(w)[j].head] + Blocks(w)[j].run
  {
    hide Flat, Blocks;
    var bs := Blocks(w);
    BlockAt(bs, j);
    AtRises(bs, j + 1, |bs|);
    AtEnds(bs);
  }

  lemma RunIs(es: seq<Entry>, i: nat, j: nat)
    requires i < j <= |es| && forall m :: i < m < j ==> es[m].level > es[i].level && es[m].source == es[i].source
    requires j < |es| ==> es[j].level <= es[i].level || es[j].source != es[i].source
    ensures IncludedEnd(es, i) == j
  {
    hide RunEnd;
    var e := IncludedEnd(es, i);
    assert j <= e && e <= j;
  }

  lemma BlockIsOk(w: Walk, j: nat)
    requires WalkOk(w) && j < |Blocks(w)|
    ensures BlockOk(Blocks(w)[j])
    ensures j < |EnvBlocks(w)| ==> Blocks(w)[j] == EnvBlocks(w)[j] && EnvOk(Blocks(w)[j])
    ensures j >= |EnvBlocks(w)| ==> Blocks(w)[j] == CliBlocks(w.line)[j - |EnvBlocks(w)|] && CliOk(Blocks(w)[j])
  {
    hide BlockOk, WalkOk, EnvBlocks, CliBlocks;
    BlocksOk(w);
  }

  /** What a block's head included ends where the next block begins. */
  lemma HeadRun(w: Walk, j: nat)
    requires WalkOk(w) && j < |Blocks(w)|
    ensures Head(w, j) < |Entries(w)| && IncludedEnd(Entries(w), Head(w, j)) == Head(w, j + 1)
  {
    hide Blocks, Entries, IncludedEnd, DeliveredOk, EnvOk, CliOk, Head, LineEnd;
    var es, b, i, e := Entries(w), Blocks(w)[j], Head(w, j), Head(w, j + 1);
    HeadIs(w, j);
    BlockIsOk(w, j);
    forall m | i < m < e
      ensures es[m].level > es[i].level && es[m].source == es[i].source
    {
      assert es[m] == es[i + 1..e][m - i - 1];
    }
    if e < |es| { Closes(w, j); }
    RunIs(es, i, e);
  }

  lemma LineEndIs(w: Walk)
    ensures LineEnd(w) == Head(w, |Blocks(w)|)
  {
  }

  lemma Closes(w: Walk, j: nat)
    requires WalkOk(w) && j < |Blocks(w)| && Head(w, j + 1) < |Entries(w)|
    ensures var e := Entries(w)[Head(w, j + 1)]; e.level == 0 || e.source != Blocks(w)[j].head.source
  {
    hide Blocks, Entries, DeliveredOk, Head, LineEnd;
    BlockIsOk(w, j);
    LineEndIs(w);
    if j + 1 < |Blocks(w)| {
      HeadIs(w, j + 1);
      BlockIsOk(w, j + 1);
    } else {
      WalkParts(w);
      assert Entries(w)[LineEnd(w)] == Entries(w)[LineEnd(w)..][0];
    }
  }

  /** The block an index of the walk lies in. */
  lemma HeadOf(w: Walk, i: nat) returns (j: nat)
    requires Base(w) <= i < LineEnd(w)
    ensures j < |Blocks(w)| && Head(w, j) <= i < Head(w, j + 1)
  {
    hide Flat, Blocks;
    j := OwnerOf(Blocks(w), i - Base(w), |Blocks(w)|);
  }

  lemma BehindHead(w: Walk, j: nat, i: nat)
    requires WalkOk(w) && j < |Blocks(w)| && Head(w, j) < i < Head(w, j + 1)
    ensures i < |Entries(w)| && Entries(w)[i].level > 0 && IsIncludeKey(Blocks(w)[j].head.key)
    ensures Entries(w)[i].source == Blocks(w)[j].head.source
  {
    hide Blocks, Entries, EnvOk, CliOk, Head, LineEnd, IsIncludeKey;
    HeadIs(w, j);
    BlockIsOk(w, j);
    assert Entries(w)[i] == Entries(w)[Head(w, j) + 1..Head(w, j + 1)][i - Head(w, j) - 1];
  }

  lemma OutsideIs(w: Walk, i: nat)
    requires WalkOk(w) && i < |Entries(w)|
    ensures i < Base(w) ==> Entries(w)[i].source == File
    ensures i >= LineEnd(w) ==>
      AfterEnv(Entries(w)[i].source) && (Entries(w)[i].source == Cli ==> EQUALS !in Entries(w)[i].key)
  {
    hide Blocks, Entries, DeliveredOk, EnvOk, LineEnd, Base;
    WalkParts(w);
    BaseIs(w);
    if i < Base(w) { assert Entries(w)[i] == Entries(w)[..Base(w)][i]; }
    if i >= LineEnd(w) { assert Entries(w)[i] == Entries(w)[LineEnd(w)..][i - LineEnd(w)]; }
  }

  lemma BaseIs(w: Walk)
    ensures Base(w) == |w.files|
  {
  }

  // ---- counting --------------------------------------------------------------------------------

  function Tags(bs: seq<Block>): (t: seq<Option<Pair>>)
    ensures |t| == |bs| && forall j :: 0 <= j < |bs| ==> t[j] == EnvTag(bs[j].head)
  {
    seq(|bs|, j requires 0 <= j < |bs| => EnvTag(bs[j].head))
  }

  function Keys(bs: seq<Block>): (t: seq<Option<Bytes>>)
    ensures |t| == |bs| && forall j :: 0 <= j < |bs| ==> t[j] == CliTag(bs[j].head)
  {
    seq(|bs|, j requires 0 <= j < |bs| => CliTag(bs[j].head))
  }

  /** A sequence over the entries of a walk which is `x` only on heads of blocks counts as one over the blocks. */
  lemma {:induction false} CountOnHeads<T, U>(w: Walk, s: seq<T>, x: T, t: seq<U>, y: U, j: nat)
    requires WalkOk(w) && |s| == |Entries(w)| && j <= |t| <= |Blocks(w)|
    requires Head(w, j) <= |Entries(w)|
    requires forall i :: 0 <= i < Head(w, j) && (i < Base(w) || Entries(w)[i].level > 0) ==> s[i] != x
    requires forall m :: 0 <= m < j ==> Head(w, m) < |s| && (s[Head(w, m)] == x <==> t[m] == y)
    ensures P.Count(s[..Head(w, j)], x) == P.Count(t[..j], y)
  {
    hide Blocks, Entries, EnvOk, CliOk, WalkOk, Head, LineEnd, Base, P.Count, P.Of;
    WalkParts(w);
    if j == 0 {
      P.CountNone(s[..Head(w, 0)], x);
      assert t[..0] == [];
      P.CountNone(t[..0], y);
    } else {
      HeadIs(w, j - 1);
      CountOnHeads(w, s, x, t, y, j - 1);
      var a, e := Head(w, j - 1), Head(w, j);
      P.Next(t, j - 1, y);
      P.Next(s, a, x);
      forall i | a < i < e
        ensures s[i] != x
      {
        BehindHead(w, j - 1, i);
      }
      assert s[..e] == s[..a + 1] + s[a + 1..e];
      P.CountConcat(s[..a + 1], s[a + 1..e], x);
      P.CountNone(s[a + 1..e], x);
    }
  }

  lemma TagsAre(es: seq<Entry>, os: seq<Override>)
    ensures |EnvTags(es)| == |CliTags(es)| == |es| && |PairsOf(os)| == |KeysOf(os)| == |os|
    ensures forall i :: 0 <= i < |es| ==> EnvTags(es)[i] == EnvTag(es[i]) && CliTags(es)[i] == CliTag(es[i])
    ensures forall k :: 0 <= k < |os| ==>
      PairsOf(os)[k] == PairOf(os[k]) && KeysOf(os)[k] == Some(NormalizeKey(os[k].key))
  {
  }

  lemma BlockTags(bs: seq<Block>)
    ensures |Tags(bs)| == |Keys(bs)| == |bs|
    ensures forall j :: 0 <= j < |bs| ==> Tags(bs)[j] == EnvTag(bs[j].head) && Keys(bs)[j] == CliTag(bs[j].head)
  {
  }

  lemma NoTag(e: Entry)
    ensures e.source == File || e.level > 0 ==> EnvTag(e) == None && CliTag(e) == None
    ensures AfterEnv(e.source) ==> EnvTag(e) == None
    ensures e.source != Cli ==> CliTag(e) == None
    ensures CliTag(e).Some? ==> e.source == Cli && CliTag(e) == Some(e.key)
    ensures EnvTag(e).Some? ==> e.source == Env && e.level == 0
  {
  }

  /** The tags of the walk, up to block `j`, are those of its blocks. */
  lemma TagCounts(w: Walk, j: nat, p: Pair, key: Bytes)
    requires WalkOk(w) && j <= |Blocks(w)|
    ensures Head(w, j) <= |Entries(w)|
    ensures P.Count(EnvTags(Entries(w))[..Head(w, j)], Some(p)) == P.Count(Tags(Blocks(w))[..j], Some(p))
    ensures P.Count(CliTags(Entries(w))[..Head(w, j)], Some(key)) == P.Count(Keys(Blocks(w))[..j], Some(key))
  {
    hide *;
    HeadsIn(w, j);
    TagsAre(Entries(w), Overrides(w));
    BlockTags(Blocks(w));
    BaseIs(w);
    forall i | 0 <= i < Head(w, j) && (i < Base(w) || Entries(w)[i].level > 0)
      ensures EnvTags(Entries(w))[i] == None && CliTags(Entries(w))[i] == None
    {
      OutsideIs(w, i);
      NoTag(Entries(w)[i]);
    }
    forall m | 0 <= m < j
      ensures Head(w, m) < |Entries(w)| && Entries(w)[Head(w, m)] == Blocks(w)[m].head
    {
      HeadIs(w, m);
    }
    CountOnHeads(w, EnvTags(Entries(w)), Some(p), Tags(Blocks(w)), Some(p), j);
    CountOnHeads(w, CliTags(Entries(w)), Some(key), Keys(Blocks(w)), Some(key), j);
  }

  lemma HeadsIn(w: Walk, j: nat)
    requires j <= |Blocks(w)|
    ensures Base(w) <= Head(w, j) <= LineEnd(w) <= |Entries(w)|
  {
    hide Flat, Blocks;
    AtRises(Blocks(w), j, |Blocks(w)|);
    WalkParts(w);
  }

  /** The entry at `j` is among the last of its kind, of which there are as many as in `l`. */
  predicate Taken<T(==)>(v: seq<T>, l: seq<T>, j: nat)
    requires j < |v|
  {
    P.Count(v[j + 1..], v[j]) < P.Count(l, v[j])
  }

  lemma BlocksSplit(w: Walk)
    ensures Tags(Blocks(w)) == Tags(EnvBlocks(w)) + Tags(CliBlocks(w.line))
    ensures Keys(Blocks(w)) == Keys(EnvBlocks(w)) + Keys(CliBlocks(w.line))
    ensures |Blocks(w)| == |EnvBlocks(w)| + |CliBlocks(w.line)|
  {
    hide EnvBlocks, CliBlocks, EnvTag, CliTag;
  }

  lemma NoTags(w: Walk, p: Pair, key: Bytes)
    requires WalkOk(w)
    ensures P.Count(Tags(CliBlocks(w.line)), Some(p)) == 0 && P.Count(Keys(EnvBlocks(w)), Some(key)) == 0
  {
    hide P.Of, P.Count, EnvBlocks, CliBlocks, WalkOk;
    BlocksOk(w);
    P.CountNone(Tags(CliBlocks(w.line)), Some(p));
    P.CountNone(Keys(EnvBlocks(w)), Some(key));
  }

  lemma TailCount<T>(s: seq<T>, i: nat, x: T)
    requires i < |s| && s[i] == x
    ensures P.Count(s, x) == P.Count(s[..i], x) + 1 + P.Count(s[i + 1..], x)
  {
    hide P.Of, P.Count;
    P.CountCut(s, i, x);
    P.CountHead(s, i, x);
  }

  /** An environment entry is a copy when it is among the last of its pair. */
  lemma EnvHeadIs(w: Walk, j: nat)
    requires WalkOk(w) && j < |EnvBlocks(w)|
    ensures j < |Blocks(w)| && Head(w, j) < |Entries(w)| && Entries(w)[Head(w, j)] == EnvBlocks(w)[j].head
    ensures IsCopy(Entries(w), Overrides(w), Head(w, j)) <==> Taken(Tags(EnvBlocks(w)), PairsOf(Overrides(w)), j)
    ensures EnvCopy(Entries(w), Overrides(w), Head(w, j)) <==> Taken(Tags(EnvBlocks(w)), PairsOf(Overrides(w)), j)
  {
    hide *;
    BlocksSplit(w);
    HeadIs(w, j);
    BlockIsOk(w, j);
    BlockTags(EnvBlocks(w));
    var es, i, p := Entries(w), Head(w, j), EnvBlocks(w)[j].head;
    EnvOkHas(EnvBlocks(w)[j]);
    TagsAre(es, Overrides(w));
    EnvTail(w, j);
    CopyAt(es, Overrides(w), i);
    NoTag(es[i]);
    TakenIs(Tags(EnvBlocks(w)), PairsOf(Overrides(w)), j);
  }

  lemma TakenIs<T>(v: seq<T>, l: seq<T>, j: nat)
    requires j < |v|
    ensures Taken(v, l, j) <==> P.Count(v[j + 1..], v[j]) < P.Count(l, v[j])
  {
    hide P.Count;
  }

  lemma EnvOkHas(b: Block)
    requires EnvOk(b)
    ensures b.head.source == Env && EnvTag(b.head) == Some(Pair(b.head.key, b.head.value.value))
  {
  }

  lemma CopyAt(es: seq<Entry>, os: seq<Override>, i: nat)
    requires i < |es|
    ensures EnvCopy(es, os, i) <==>
      EnvTag(es[i]).Some? && P.Count(EnvTags(es)[i + 1..], EnvTag(es[i])) < P.Count(PairsOf(os), EnvTag(es[i]))
    ensures CliCopy(es, os, i) <==>
      CliTag(es[i]).Some? && P.Count(CliTags(es)[..i], CliTag(es[i])) < P.Count(KeysOf(os), CliTag(es[i]))
    ensures IsCopy(es, os, i) <==> EnvCopy(es, os, i) || CliCopy(es, os, i)
  {
    hide P.Count;
  }

  /** Behind a block of the environment its pair comes up as often in the walk as among the blocks. */
  lemma EnvTail(w: Walk, j: nat)
    requires WalkOk(w) && j < |EnvBlocks(w)| && j < |Blocks(w)| && Head(w, j) < |Entries(w)|
    ensures |Tags(EnvBlocks(w))| == |EnvBlocks(w)| && |EnvTags(Entries(w))| == |Entries(w)|
    ensures P.Count(EnvTags(Entries(w))[Head(w, j) + 1..], Tags(EnvBlocks(w))[j]) ==
      P.Count(Tags(EnvBlocks(w))[j + 1..], Tags(EnvBlocks(w))[j])
  {
    hide *;
    var es, i, v := Entries(w), Head(w, j), Tags(EnvBlocks(w));
    BlocksSplit(w);
    BlockTags(EnvBlocks(w));
    BlockTags(Blocks(w));
    TagsAre(es, Overrides(w));
    HeadIs(w, j);
    BlockIsOk(w, j);
    EnvOkHas(EnvBlocks(w)[j]);
    var p := v[j].value;
    TagCounts(w, j, p, []);
    EnvTotal(w, p);
    TailCount(EnvTags(es), i, Some(p));
    TailCount(v, j, Some(p));
    assert Tags(Blocks(w))[..j] == v[..j];
  }

  lemma EnvTotal(w: Walk, p: Pair)
    requires WalkOk(w)
    ensures P.Count(EnvTags(Entries(w)), Some(p)) == P.Count(Tags(EnvBlocks(w)), Some(p))
  {
    hide *;
    var es, n := Entries(w), |Blocks(w)|;
    TagsAre(es, Overrides(w));
    BlockTags(Blocks(w));
    TagCounts(w, n, p, []);
    LineEndIs(w);
    P.CountCut(EnvTags(es), LineEnd(w), Some(p));
    forall i | LineEnd(w) <= i < |es|
      ensures EnvTags(es)[i] == None
    {
      OutsideIs(w, i);
      NoTag(es[i]);
    }
    P.CountNone(EnvTags(es)[LineEnd(w)..], Some(p));
    assert Tags(Blocks(w))[..n] == Tags(Blocks(w));
    BlocksSplit(w);
    P.CountConcat(Tags(EnvBlocks(w)), Tags(CliBlocks(w.line)), Some(p));
    NoTags(w, p, []);
  }

  lemma CliBlocksSnoc(line: seq<Delivered>, k: nat)
    requires k < |line|
    ensures var d := line[k];
      CliBlocks(line[..k + 1]) == CliBlocks(line[..k]) +
        if EQUALS in d.typed.key then [] else [Block(Entry(Cli, NormalizeKey(d.typed.key), d.cliValue, 0), d.fromCli)]
  {
    assert line[..k + 1][..k] == line[..k];
  }

  /** The `Source::Cli` sections hold each key without `=` as often as the command line does. */
  lemma {:induction false} CliTotal(w: Walk, k: nat, key: Bytes)
    requires k <= |w.line| && EQUALS !in key
    ensures P.Count(Keys(CliBlocks(w.line[..k])), Some(key)) == P.Count(KeysOf(Overrides(w))[..k], Some(key))
  {
    hide P.Of, P.Count, CliBlocks, NormalizeKey;
    P.CountsNothing<Option<Bytes>>();
    if k == 0 {
      NoCliBlocks(w.line);
      assert Keys([]) == [] && KeysOf(Overrides(w))[..0] == [];
    } else {
      var d := w.line[k - 1];
      CliTotal(w, k - 1, key);
      CliBlocksSnoc(w.line, k - 1);
      NormalizeKeepsEquals(d.typed.key);
      P.Next(KeysOf(Overrides(w)), k - 1, Some(key));
      var a := CliBlocks(w.line[..k - 1]);
      if EQUALS !in d.typed.key {
        var b := Block(Entry(Cli, NormalizeKey(d.typed.key), d.cliValue, 0), d.fromCli);
        assert Keys(a + [b]) == Keys(a) + [Some(NormalizeKey(d.typed.key))];
        P.Snoc(Keys(a), Some(NormalizeKey(d.typed.key)), Some(key));
      } else {
        assert a + [] == a;
      }
    }
  }

  lemma NoCliBlocks(line: seq<Delivered>)
    ensures CliBlocks(line[..0]) == [] && CliBlocks(line[..|line|]) == CliBlocks(line)
  {
    assert line[..|line|] == line;
  }

  /** Up to block `j` of the command line's own sections the keys are counted by those sections. */
  lemma CliBefore(w: Walk, j: nat, key: Bytes)
    requires WalkOk(w) && |EnvBlocks(w)| <= j <= |Blocks(w)|
    ensures j - |EnvBlocks(w)| <= |Keys(CliBlocks(w.line))| && Head(w, j) <= |CliTags(Entries(w))|
    ensures P.Count(CliTags(Entries(w))[..Head(w, j)], Some(key)) ==
      P.Count(Keys(CliBlocks(w.line))[..j - |EnvBlocks(w)|], Some(key))
  {
    hide *;
    var n := |EnvBlocks(w)|;
    TagCounts(w, j, Pair([], []), key);
    TagsAre(Entries(w), Overrides(w));
    BlocksSplit(w);
    BlockTags(EnvBlocks(w));
    BlockTags(CliBlocks(w.line));
    BlockTags(Blocks(w));
    assert Keys(Blocks(w))[..j] == Keys(EnvBlocks(w)) + Keys(CliBlocks(w.line))[..j - n];
    P.CountConcat(Keys(EnvBlocks(w)), Keys(CliBlocks(w.line))[..j - n], Some(key));
    NoTags(w, Pair([], []), key);
  }

  lemma CliOkHas(b: Block)
    requires CliOk(b)
    ensures b.head.source == Cli && CliTag(b.head) == Some(b.head.key) && EQUALS !in b.head.key
  {
  }

  /** Every section the command line put in is found to be one. */
  lemma CliHeadIs(w: Walk, j: nat)
    requires WalkOk(w) && |EnvBlocks(w)| <= j < |Blocks(w)|
    ensures Head(w, j) < |Entries(w)| && IsCopy(Entries(w), Overrides(w), Head(w, j))
    ensures Entries(w)[Head(w, j)].source == Cli
  {
    hide *;
    var c, m, es := CliBlocks(w.line), j - |EnvBlocks(w)|, Entries(w);
    HeadIs(w, j);
    BlockIsOk(w, j);
    BlocksSplit(w);
    CliOkHas(c[m]);
    var key := c[m].head.key;
    CliBefore(w, j, key);
    CliTotal(w, |w.line|, key);
    NoCliBlocks(w.line);
    TagsAre(es, Overrides(w));
    assert KeysOf(Overrides(w))[..|w.line|] == KeysOf(Overrides(w)) by { OverridesSize(w); }
    BlockTags(c);
    TailCount(Keys(c), m, Some(key));
    CopyAt(es, Overrides(w), Head(w, j));
  }

  lemma OverridesSize(w: Walk)
    ensures |Overrides(w)| == |w.line| && forall k :: 0 <= k < |w.line| ==> Overrides(w)[k] == w.line[k].typed
  {
  }

  // ---- what is dropped -------------------------------------------------------------------------

  /** Block `j` goes: it is a copy, and goes with all it included. */
  predicate Gone(w: Walk, j: nat)
    requires j < |Blocks(w)|
  {
    j < |EnvBlocks(w)| ==> Taken(Tags(EnvBlocks(w)), PairsOf(Overrides(w)), j)
  }

  lemma GoneIs(w: Walk, j: nat)
    requires WalkOk(w) && j < |Blocks(w)|
    ensures Head(w, j) < |Entries(w)| && (Gone(w, j) <==> IsCopy(Entries(w), Overrides(w), Head(w, j)))
  {
    hide WalkOk, Entries, Blocks, EnvBlocks, Head, IsCopy, Taken, P.Count;
    if j < |EnvBlocks(w)| { EnvHeadIs(w, j); } else { CliHeadIs(w, j); }
  }

  /** Only heads of blocks are copies. */
  lemma CopyIsHead(w: Walk, i: nat) returns (j: nat)
    requires WalkOk(w) && i < |Entries(w)| && IsCopy(Entries(w), Overrides(w), i)
    ensures j < |Blocks(w)| && i == Head(w, j)
  {
    hide *;
    var es, os := Entries(w), Overrides(w);
    OutsideIs(w, i);
    CopyAt(es, os, i);
    NoTag(es[i]);
    if i >= LineEnd(w) {
      RestNoCopy(w, i);
      assert false;
    }
    j := HeadOf(w, i);
    if i != Head(w, j) {
      BehindHead(w, j, i);
      assert false;
    }
  }

  lemma RestNoCopy(w: Walk, i: nat)
    requires WalkOk(w) && LineEnd(w) <= i < |Entries(w)|
    ensures !IsCopy(Entries(w), Overrides(w), i)
  {
    hide *;
    var es, os := Entries(w), Overrides(w);
    OutsideIs(w, i);
    CopyAt(es, os, i);
    NoTag(es[i]);
    TagsAre(es, os);
    if CliTag(es[i]).Some? {
      var key := es[i].key;
      BlocksSplit(w);
      LineEndIs(w);
      CliBefore(w, |Blocks(w)|, key);
      BlockTags(CliBlocks(w.line));
      assert Keys(CliBlocks(w.line))[..|CliBlocks(w.line)|] == Keys(CliBlocks(w.line));
      CliTotal(w, |w.line|, key);
      NoCliBlocks(w.line);
      OverridesSize(w);
      assert KeysOf(os)[..|w.line|] == KeysOf(os);
      P.CountCut(CliTags(es)[..i], LineEnd(w), Some(key));
      assert CliTags(es)[..i][..LineEnd(w)] == CliTags(es)[..LineEnd(w)];
    }
  }

  /** An entry is dropped with its block, and stays outside all blocks. */
  lemma DroppedIs(w: Walk, s: Splice, i: nat)
    requires WalkOk(w) && IsSplice(Entries(w), Overrides(w), s) && i < |Entries(w)|
    ensures i < |s.drop|
    ensures i < Base(w) || LineEnd(w) <= i ==> !s.drop[i]
    ensures forall j :: 0 <= j < |Blocks(w)| && Head(w, j) <= i < Head(w, j + 1) ==> (s.drop[i] <==> Gone(w, j))
  {
    hide *;
    var es, os := Entries(w), Overrides(w);
    SpliceDrops(es, os, s, i);
    PulledInIs(es, os, i);
    if i < Base(w) || LineEnd(w) <= i {
      if IsCopy(es, os, i) {
        var j := CopyIsHead(w, i);
        HeadsIn(w, j);
        HeadIs(w, j);
      } else if PulledIn(es, os, i) {
        var c :| 0 <= c < i && IsCopy(es, os, c) && IsIncludeKey(es[c].key) && i < IncludedEnd(es, c);
        var j := CopyIsHead(w, c);
        HeadRun(w, j);
        HeadsIn(w, j);
        HeadIs(w, j);
      }
    }
    forall j | 0 <= j < |Blocks(w)| && Head(w, j) <= i < Head(w, j + 1)
      ensures s.drop[i] <==> Gone(w, j)
    {
      DroppedInBlock(w, i, j);
    }
  }

  lemma DroppedInBlock(w: Walk, i: nat, j: nat)
    requires WalkOk(w) && i < |Entries(w)| && j < |Blocks(w)| && Head(w, j) <= i < Head(w, j + 1)
    ensures IsCopy(Entries(w), Overrides(w), i) || PulledIn(Entries(w), Overrides(w), i) <==> Gone(w, j)
  {
    hide *;
    var es, os := Entries(w), Overrides(w);
    PulledInIs(es, os, i);
    GoneIs(w, j);
    HeadIs(w, j);
    HeadRun(w, j);
    if i > Head(w, j) { BehindHead(w, j, i); }
    if IsCopy(es, os, i) {
      var m := CopyIsHead(w, i);
      HeadIs(w, m);
      SameBlock(w, m, j, i);
    } else if PulledIn(es, os, i) {
      var c :| 0 <= c < i && IsCopy(es, os, c) && IsIncludeKey(es[c].key) && i < IncludedEnd(es, c);
      var m := CopyIsHead(w, c);
      HeadRun(w, m);
      SameBlock(w, m, j, i);
    }
  }

  lemma SameBlock(w: Walk, m: nat, j: nat, i: nat)
    requires m < |Blocks(w)| && j < |Blocks(w)|
    requires Head(w, m) <= i < Head(w, m + 1) && Head(w, j) <= i < Head(w, j + 1)
    ensures m == j
  {
    hide Blocks, Flat;
    if m < j { AtRises(Blocks(w), m + 1, j); }
    if j < m { AtRises(Blocks(w), j + 1, m); }
  }

  lemma SpliceDrops(es: seq<Entry>, os: seq<Override>, s: Splice, i: nat)
    requires IsSplice(es, os, s) && i < |es|
    ensures |s.drop| == |es| && (s.drop[i] <==> IsCopy(es, os, i) || PulledIn(es, os, i))
  {
    hide IsCopy, PulledIn;
  }

  lemma PulledInIs(es: seq<Entry>, os: seq<Override>, j: nat)
    requires j < |es|
    ensures PulledIn(es, os, j) <==>
      exists i :: 0 <= i < j && IsCopy(es, os, i) && IsIncludeKey(es[i].key) && j < IncludedEnd(es, i)
  {
    hide IsCopy, IncludedEnd, IsIncludeKey;
  }

  // ---- what stays of the environment ------------------------------------------------------------

  /** The first `n` blocks of `bs`, without those among the last of their pair. */
  function Left(bs: seq<Block>, pairs: seq<Option<Pair>>, n: nat): seq<Block>
    requires n <= |bs|
  {
    if n == 0 then []
    else Left(bs, pairs, n - 1) + if Taken(Tags(bs), pairs, n - 1) then [] else [bs[n - 1]]
  }

  lemma {:induction false} EnvKept(w: Walk, s: Splice, n: nat)
    requires WalkOk(w) && IsSplice(Entries(w), Overrides(w), s) && n <= |EnvBlocks(w)|
    ensures n <= |Blocks(w)| && Base(w) <= Head(w, n) <= |Entries(w)| == |s.drop|
    ensures Kept(Entries(w), s.drop, Base(w), Head(w, n)) == Items(Flat(Left(EnvBlocks(w), PairsOf(Overrides(w)), n)))
  {
    hide *;
    BlocksSplit(w);
    WalkParts(w);
    HeadsIn(w, n);
    SpliceSize(w, s);
    if n == 0 {
      KeptNothing(Entries(w), s.drop, Base(w));
      LeftNothing(EnvBlocks(w), PairsOf(Overrides(w)));
    } else {
      EnvKept(w, s, n - 1);
      EnvKeptNext(w, s, n - 1);
    }
  }

  lemma LeftNothing(bs: seq<Block>, pairs: seq<Option<Pair>>)
    ensures Left(bs, pairs, 0) == []
  {
  }

  lemma SpliceSize(w: Walk, s: Splice)
    requires IsSplice(Entries(w), Overrides(w), s)
    ensures |s.drop| == |Entries(w)|
  {
    hide IsCopy, PulledIn, Entries;
  }

  lemma KeptNothing(es: seq<Entry>, drop: seq<bool>, a: nat)
    requires a <= |es| == |drop|
    ensures Kept(es, drop, a, a) == [] == Items(Flat([]))
  {
  }

  lemma ItemsConcat(a: seq<Entry>, b: seq<Entry>)
    ensures Items(a + b) == Items(a) + Items(b) && Items([]) == []
  {
  }

  lemma EnvKeptNext(w: Walk, s: Splice, j: nat)
    requires WalkOk(w) && IsSplice(Entries(w), Overrides(w), s) && j < |EnvBlocks(w)| && |s.drop| == |Entries(w)|
    requires j < |Blocks(w)| && Base(w) <= Head(w, j)
    ensures Head(w, j) <= Head(w, j + 1) <= |Entries(w)|
    ensures var left := Left(EnvBlocks(w), PairsOf(Overrides(w)), j);
      Kept(Entries(w), s.drop, Base(w), Head(w, j)) == Items(Flat(left)) ==>
      Kept(Entries(w), s.drop, Base(w), Head(w, j + 1)) == Items(Flat(Left(EnvBlocks(w), PairsOf(Overrides(w)), j + 1)))
  {
    hide *;
    var a, e, b := Head(w, j), Head(w, j + 1), EnvBlocks(w)[j];
    var left := Left(EnvBlocks(w), PairsOf(Overrides(w)), j);
    HeadIs(w, j);
    BlockIsOk(w, j);
    forall i | a <= i < e
      ensures i < |s.drop| && (s.drop[i] <==> Gone(w, j))
    {
      DroppedIs(w, s, i);
    }
    LeftNext(w, j);
    KeptFrom(Entries(w), s.drop, Base(w), a, e);
    if Gone(w, j) {
      KeptNone(Entries(w), s.drop, a, e);
      assert left + [] == left;
      assert Kept(Entries(w), s.drop, Base(w), a) + [] == Kept(Entries(w), s.drop, Base(w), a);
    } else {
      KeptAll(Entries(w), s.drop, a, e);
      FlatSnoc(left, b);
      ItemsConcat(Flat(left), [b.head] + b.run);
    }
  }

  lemma LeftNext(w: Walk, j: nat)
    requires j < |EnvBlocks(w)| && j < |Blocks(w)|
    ensures Left(EnvBlocks(w), PairsOf(Overrides(w)), j + 1) ==
      Left(EnvBlocks(w), PairsOf(Overrides(w)), j) + if Gone(w, j) then [] else [EnvBlocks(w)[j]]
  {
    hide EnvBlocks, Blocks, Taken;
  }

  // ---- what each override included ---------------------------------------------------------------

  /** The include lines among the environment blocks that go. */
  function TakenIncludes(bs: seq<Block>, pairs: seq<Option<Pair>>): (t: seq<Option<Pair>>)
    ensures |t| == |bs|
    ensures forall j :: 0 <= j < |bs| ==>
      t[j] == if Taken(Tags(bs), pairs, j) && IsIncludeKey(bs[j].head.key) then EnvTag(bs[j].head) else None
  {
    seq(|bs|, j requires 0 <= j < |bs| =>
      if Taken(Tags(bs), pairs, j) && IsIncludeKey(bs[j].head.key) then EnvTag(bs[j].head) else None)
  }

  /**
   What is told behind override `k`: what the next environment block of its pair to go included, or else its own
   section.
   */
  function PulledRun(w: Walk, k: nat): seq<Entry>
    requires k < |w.line|
  {
    var pairs := PairsOf(Overrides(w));
    var m := P.Count(pairs[..k], pairs[k]);
    if pairs[k].Some? && m < P.Count(TakenIncludes(EnvBlocks(w), pairs), pairs[k]) then
      EnvBlocks(w)[P.Of(TakenIncludes(EnvBlocks(w), pairs), pairs[k])[m]].run
    else if EQUALS in w.line[k].typed.key then []
    else w.line[k].fromCli
  }

  lemma IncludeTagsAre(es: seq<Entry>, os: seq<Override>)
    ensures |IncludeTags(es, os)| == |es|
    ensures forall i :: 0 <= i < |es| ==>
      IncludeTags(es, os)[i] == if EnvCopy(es, os, i) && IsIncludeKey(es[i].key) then EnvTag(es[i]) else None
  {
    hide EnvCopy, IsIncludeKey, EnvTag;
  }

  lemma TakenIncludesAre(bs: seq<Block>, pairs: seq<Option<Pair>>)
    ensures |Tags(bs)| == |TakenIncludes(bs, pairs)| == |bs|
    ensures forall j :: 0 <= j < |bs| ==>
      TakenIncludes(bs, pairs)[j] ==
        if Taken(Tags(bs), pairs, j) && IsIncludeKey(bs[j].head.key) then EnvTag(bs[j].head) else None
  {
    hide Taken, IsIncludeKey, EnvTag;
  }

  /** The include lines of the walk, up to block `j` of the environment, are those of its blocks. */
  lemma IncludeCounts(w: Walk, j: nat, p: Pair)
    requires WalkOk(w) && j <= |EnvBlocks(w)|
    ensures j <= |Blocks(w)| && Head(w, j) <= |Entries(w)|
    ensures P.Count(IncludeTags(Entries(w), Overrides(w))[..Head(w, j)], Some(p)) ==
      P.Count(TakenIncludes(EnvBlocks(w), PairsOf(Overrides(w)))[..j], Some(p))
  {
    hide *;
    var es, os, bs := Entries(w), Overrides(w), EnvBlocks(w);
    BlocksSplit(w);
    HeadsIn(w, j);
    IncludeTagsAre(es, os);
    TakenIncludesAre(bs, PairsOf(os));
    BaseIs(w);
    forall i | 0 <= i < Head(w, j) && (i < Base(w) || es[i].level > 0)
      ensures IncludeTags(es, os)[i] == None
    {
      OutsideIs(w, i);
      NoTag(es[i]);
    }
    forall m | 0 <= m < j
      ensures Head(w, m) < |es| && IncludeTags(es, os)[Head(w, m)] == TakenIncludes(bs, PairsOf(os))[m]
    {
      EnvHeadIs(w, m);
    }
    CountOnHeads(w, IncludeTags(es, os), Some(p), TakenIncludes(bs, PairsOf(os)), Some(p), j);
  }

  lemma IncludeTotal(w: Walk, p: Pair)
    requires WalkOk(w)
    ensures P.Count(IncludeTags(Entries(w), Overrides(w)), Some(p)) ==
      P.Count(TakenIncludes(EnvBlocks(w), PairsOf(Overrides(w))), Some(p))
  {
    hide *;
    var es, os, bs := Entries(w), Overrides(w), EnvBlocks(w);
    var t, n := IncludeTags(es, os), |bs|;
    IncludeCounts(w, n, p);
    IncludeTagsAre(es, os);
    TakenIncludesAre(bs, PairsOf(os));
    assert TakenIncludes(bs, PairsOf(os))[..n] == TakenIncludes(bs, PairsOf(os));
    P.CountCut(t, Head(w, n), Some(p));
    forall i | Head(w, n) <= i < |es|
      ensures t[i] == None
    {
      NotEnvBehind(w, i);
      NoTag(es[i]);
    }
    P.CountNone(t[Head(w, n)..], Some(p));
  }

  lemma NotEnvBehind(w: Walk, i: nat)
    requires WalkOk(w) && |EnvBlocks(w)| <= |Blocks(w)| && Head(w, |EnvBlocks(w)|) <= i < |Entries(w)|
    ensures AfterEnv(Entries(w)[i].source)
  {
    hide *;
    var n := |EnvBlocks(w)|;
    OutsideIs(w, i);
    HeadsIn(w, n);
    if i < LineEnd(w) {
      var j := HeadOf(w, i);
      if j < n { HeadOrder(w, j + 1, n); }
      BlockIsOk(w, j);
      CliOkHas(Blocks(w)[j]);
      HeadIs(w, j);
      if i > Head(w, j) { BehindHead(w, j, i); }
      CliIsAfter(Entries(w)[i]);
    }
  }

  lemma CliIsAfter(e: Entry)
    ensures e.source == Cli ==> AfterEnv(e.source)
    ensures e.source == Env || e.source == File ==> !AfterEnv(e.source)
  {
  }

  lemma HeadOrder(w: Walk, i: nat, j: nat)
    requires i <= j <= |Blocks(w)|
    ensures Head(w, i) <= Head(w, j)
  {
    hide Blocks, Flat;
    AtRises(Blocks(w), i, j);
  }

  /** What the code reads off an override's environment copy. */
  lemma FromEnvIs(w: Walk, k: nat)
    requires WalkOk(w) && k < |w.line|
    ensures var r, pairs := FromEnv(Entries(w), Overrides(w), k), PairsOf(Overrides(w));
      var t, m := TakenIncludes(EnvBlocks(w), pairs), P.Count(pairs[..k], pairs[k]);
      if pairs[k].Some? && m < P.Count(t, pairs[k]) then
        r.Some? && Entries(w)[r.value.from..r.value.end] == EnvBlocks(w)[P.Of(t, pairs[k])[m]].run
      else r.None?
  {
    hide *;
    var es, os, bs := Entries(w), Overrides(w), EnvBlocks(w);
    var pairs := PairsOf(os);
    OverridesSize(w);
    TagsAre(es, os);
    FromEnvSpan(es, os, k);
    if pairs[k].Some? {
      var p, m, t := pairs[k], P.Count(pairs[..k], pairs[k]), TakenIncludes(bs, pairs);
      IncludeTotal(w, p.value);
      if m < P.Count(t, p) {
        P.CountIsSize(IncludeTags(es, os), p);
        var i := P.Of(IncludeTags(es, os), p)[m];
        P.CountBefore(IncludeTags(es, os), p, m);
        IncludeTagsAre(es, os);
        NoTag(es[i]);
        var j := CopyIsHeadEnv(w, i);
        IncludeCounts(w, j, p.value);
        TakenIncludesAre(bs, pairs);
        EnvHeadIs(w, j);
        P.PlaceAt(t, j);
        HeadRun(w, j);
        HeadIs(w, j);
        BlockIsOk(w, j);
      }
    }
  }

  lemma FromEnvSpan(es: seq<Entry>, os: seq<Override>, k: nat)
    requires k < |os| && |PairsOf(os)| == |os|
    ensures var p := PairsOf(os)[k]; var m := P.Count(PairsOf(os)[..k], p);
      if p.Some? && m < P.Count(IncludeTags(es, os), p) then
        var i := P.Of(IncludeTags(es, os), p)[m];
        i < |es| && FromEnv(es, os, k) == Some(Span(i + 1, IncludedEnd(es, i)))
      else FromEnv(es, os, k) == None
  {
    hide IncludeTags, IncludedEnd, NormalizeKey, P.Of;
  }

  lemma CopyIsHeadEnv(w: Walk, i: nat) returns (j: nat)
    requires WalkOk(w) && i < |Entries(w)| && EnvCopy(Entries(w), Overrides(w), i)
    ensures j < |EnvBlocks(w)| && j < |Blocks(w)| && i == Head(w, j)
  {
    hide *;
    CopyAt(Entries(w), Overrides(w), i);
    NoTag(Entries(w)[i]);
    j := CopyIsHead(w, i);
    BlocksSplit(w);
    if j >= |EnvBlocks(w)| { CliHeadIs(w, j); }
  }

  /** The section of override `k` among those of the command line. */
  lemma CliBlockOf(w: Walk, k: nat)
    requires WalkOk(w) && k < |w.line| && EQUALS !in w.line[k].typed.key
    ensures var c, m, d := CliBlocks(w.line), |CliBlocks(w.line[..k])|, w.line[k];
      m < |c| && c[m] == Block(Entry(Cli, NormalizeKey(d.typed.key), d.cliValue, 0), d.fromCli) &&
      c[..m] == CliBlocks(w.line[..k])
  {
    hide *;
    CliBlocksSnoc(w.line, k);
    CliPrefix(w.line, k + 1, |w.line|);
    NoCliBlocks(w.line);
    var c, b, a := CliBlocks(w.line), CliBlocks(w.line[..k + 1]), CliBlocks(w.line[..k]);
    assert forall i :: 0 <= i < |b| ==> c[i] == b[i];
    assert forall i :: 0 <= i < |a| ==> b[i] == a[i];
  }

  lemma {:induction false} CliPrefix(line: seq<Delivered>, k: nat, n: nat)
    requires k <= n <= |line|
    ensures CliBlocks(line[..k]) <= CliBlocks(line[..n])
  {
    hide CliBlocks;
    if k < n {
      CliPrefix(line, k, n - 1);
      CliBlocksSnoc(line, n - 1);
    }
  }

  lemma FromCliSpan(es: seq<Entry>, os: seq<Override>, k: nat)
    requires k < |os| && |KeysOf(os)| == |os|
    ensures var key := Some(NormalizeKey(os[k].key)); var m := P.Count(KeysOf(os)[..k], key);
      if IsIncludeKey(key.value) && m < P.Count(CliTags(es), key) then
        var i := P.Of(CliTags(es), key)[m];
        i < |es| && FromCli(es, os, k) == Some(Span(i + 1, IncludedEnd(es, i)))
      else FromCli(es, os, k) == None
  {
    hide CliTags, IncludedEnd, NormalizeKey, P.Of, IsIncludeKey;
    var key := Some(NormalizeKey(os[k].key));
    var m := P.Count(KeysOf(os)[..k], key);
    if IsIncludeKey(key.value) && m < P.Count(CliTags(es), key) {
      assert P.Of(CliTags(es), key)[m] < |CliTags(es)|;
    }
  }

  /** What the code reads off an override's own section. */
  lemma FromCliIs(w: Walk, k: nat)
    requires WalkOk(w) && k < |w.line|
    ensures var r, d := FromCli(Entries(w), Overrides(w), k), w.line[k];
      if r.Some? then EQUALS !in d.typed.key && Entries(w)[r.value.from..r.value.end] == d.fromCli
      else EQUALS in d.typed.key || d.fromCli == []
  {
    hide *;
    var es, os, d := Entries(w), Overrides(w), w.line[k];
    var key := NormalizeKey(d.typed.key);
    OverridesSize(w);
    TagsAre(es, os);
    FromCliSpan(es, os, k);
    NormalizeKeepsEquals(d.typed.key);
    if EQUALS in d.typed.key {
      NoCliTag(w, key);
    } else {
      FromCliOnlyIncludes(w, k);
      CliBlockOf(w, k);
      BlocksSplit(w);
      var j := |EnvBlocks(w)| + |CliBlocks(w.line[..k])|;
      BlockIsOk(w, j);
      HeadIs(w, j);
      HeadRun(w, j);
      CliBefore(w, j, key);
      CliTotal(w, k, key);
      BlockTags(CliBlocks(w.line));
      BlockTags(CliBlocks(w.line[..k]));
      assert Keys(CliBlocks(w.line))[..|CliBlocks(w.line[..k])|] == Keys(CliBlocks(w.line[..k])) by {
        KeysPrefix(CliBlocks(w.line), |CliBlocks(w.line[..k])|);
      }
      CliOkHas(Blocks(w)[j]);
      P.PlaceAt(CliTags(es), Head(w, j));
    }
  }

  lemma KeysPrefix(bs: seq<Block>, m: nat)
    requires m <= |bs|
    ensures Keys(bs)[..m] == Keys(bs[..m])
  {
  }

  lemma FromCliOnlyIncludes(w: Walk, k: nat)
    requires WalkOk(w) && k < |w.line|
    ensures !IsIncludeKey(NormalizeKey(w.line[k].typed.key)) ==> w.line[k].fromCli == []
  {
    hide IsIncludeKey, NormalizeKey;
    assert DeliveredOk(w.line[k]);
  }

  /** No `Source::Cli` section has a key with an equals sign. */
  lemma NoCliTag(w: Walk, key: Bytes)
    requires WalkOk(w) && EQUALS in key
    ensures P.Count(CliTags(Entries(w)), Some(key)) == 0
  {
    hide *;
    var es := Entries(w);
    TagsAre(es, Overrides(w));
    forall i | 0 <= i < |es|
      ensures CliTags(es)[i] != Some(key)
    {
      NoTag(es[i]);
      OutsideIs(w, i);
      if CliTag(es[i]).Some? && i < LineEnd(w) {
        NoTag(es[i]);
        CliIsAfter(es[i]);
        var j := HeadOf(w, i);
        var b := Blocks(w)[j];
        HeadIs(w, j);
        BlockIsOk(w, j);
        if i > Head(w, j) { BehindHead(w, j, i); }
        BlocksSplit(w);
        if j < |EnvBlocks(w)| { EnvOkHas(b); } else { CliOkHas(b); }
      }
    }
    P.CountNone(CliTags(es), Some(key));
  }

  /** What is walked again behind an override. */
  lemma IncludedIs(w: Walk, k: nat)
    requires WalkOk(w) && k < |w.line|
    ensures var s := Included(Entries(w), Overrides(w), k); Entries(w)[s.from..s.end] == PulledRun(w, k)
  {
    hide *;
    OverridesSize(w);
    FromEnvIs(w, k);
    FromCliIs(w, k);
    IncludedCases(Entries(w), Overrides(w), k);
    PulledCases(w, k);
  }

  lemma IncludedCases(es: seq<Entry>, os: seq<Override>, k: nat)
    requires k < |os|
    ensures var s := Included(es, os, k);
      if FromEnv(es, os, k).Some? then s == FromEnv(es, os, k).value
      else if FromCli(es, os, k).Some? then s == FromCli(es, os, k).value
      else s == Span(0, 0)
  {
    hide FromEnv, FromCli;
  }

  lemma PulledCases(w: Walk, k: nat)
    requires k < |w.line|
    ensures var pairs := PairsOf(Overrides(w));
      var t, m := TakenIncludes(EnvBlocks(w), pairs), P.Count(pairs[..k], pairs[k]);
      PulledRun(w, k) ==
        if pairs[k].Some? && m < P.Count(t, pairs[k]) then EnvBlocks(w)[P.Of(t, pairs[k])[m]].run
        else if EQUALS in w.line[k].typed.key then [] else w.line[k].fromCli
  {
    hide EnvBlocks, P.Of;
  }

  // ---- the outcome -------------------------------------------------------------------------------

  /** The first `n` overrides as told, each with what is told behind it. */
  function ToldLine(w: Walk, n: nat): seq<Item>
    requires n <= |w.line|
  {
    if n == 0 then []
    else
      var typed := w.line[n - 1].typed;
      ToldLine(w, n - 1) + [Typed(NormalizeKey(typed.key), typed.value)] + Items(PulledRun(w, n - 1))
  }

  lemma {:induction false} ReplayIs(w: Walk, s: Splice, n: nat)
    requires WalkOk(w) && n <= |w.line| && Fits(Entries(w), Overrides(w), s)
    requires forall k :: 0 <= k < |w.line| ==> s.included[k] == Included(Entries(w), Overrides(w), k)
    ensures Replayed(Entries(w), Overrides(w), s.included, n) == ToldLine(w, n)
  {
    hide Entries, WalkOk, NormalizeKey, Included, PulledRun;
    if n > 0 {
      ReplayIs(w, s, n - 1);
      IncludedIs(w, n - 1);
    }
  }

  /** The command line goes behind the environment. */
  lemma SpliceAtIs(w: Walk)
    requires WalkOk(w)
    ensures |EnvBlocks(w)| <= |Blocks(w)| && SpliceAt(Entries(w)) == Head(w, |EnvBlocks(w)|)
  {
    hide *;
    var es, n := Entries(w), |EnvBlocks(w)|;
    BlocksSplit(w);
    HeadsIn(w, n);
    var at := SpliceAt(es);
    if Head(w, n) < |es| { NotEnvBehind(w, Head(w, n)); }
    assert at <= Head(w, n);
    if at < Head(w, n) { EnvBefore(w, at); }
  }

  lemma EnvBefore(w: Walk, i: nat)
    requires WalkOk(w) && |EnvBlocks(w)| <= |Blocks(w)| && i < Head(w, |EnvBlocks(w)|) <= |Entries(w)|
    ensures !AfterEnv(Entries(w)[i].source)
  {
    hide *;
    var n := |EnvBlocks(w)|;
    OutsideIs(w, i);
    HeadsIn(w, n);
    CliIsAfter(Entries(w)[i]);
    if i >= Base(w) {
      var j := HeadOf(w, i);
      if j >= n { HeadOrder(w, n, j); }
      BlockIsOk(w, j);
      EnvOkHas(Blocks(w)[j]);
      HeadIs(w, j);
      if i > Head(w, j) { BehindHead(w, j, i); }
    }
  }

  lemma {:induction false} LineDropped(w: Walk, s: Splice)
    requires WalkOk(w) && IsSplice(Entries(w), Overrides(w), s)
    ensures |EnvBlocks(w)| <= |Blocks(w)| && Head(w, |EnvBlocks(w)|) <= LineEnd(w) <= |Entries(w)| == |s.drop|
    ensures Kept(Entries(w), s.drop, 0, Base(w)) == Items(w.files)
    ensures Kept(Entries(w), s.drop, Head(w, |EnvBlocks(w)|), |Entries(w)|) == Items(w.rest)
  {
    hide *;
    var es, n := Entries(w), |EnvBlocks(w)|;
    SpliceSize(w, s);
    BlocksSplit(w);
    HeadsIn(w, n);
    WalkParts(w);
    forall i | 0 <= i < |es|
      ensures i < Base(w) || LineEnd(w) <= i ==> !s.drop[i]
      ensures Head(w, n) <= i < LineEnd(w) ==> s.drop[i]
    {
      DroppedIs(w, s, i);
      if Head(w, n) <= i < LineEnd(w) {
        var j := HeadOf(w, i);
        if j < n { HeadOrder(w, j + 1, n); }
        CliGone(w, j);
      }
    }
    KeptAll(es, s.drop, 0, Base(w));
    assert es[0..Base(w)] == es[..Base(w)] && es[LineEnd(w)..|es|] == es[LineEnd(w)..];
    KeptFrom(es, s.drop, Head(w, n), LineEnd(w), |es|);
    KeptNone(es, s.drop, Head(w, n), LineEnd(w));
    KeptAll(es, s.drop, LineEnd(w), |es|);
    assert [] + Items(w.rest) == Items(w.rest);
  }

  lemma CliGone(w: Walk, j: nat)
    requires |EnvBlocks(w)| <= j < |Blocks(w)|
    ensures Gone(w, j)
  {
    hide EnvBlocks, Blocks;
  }

  /**
   What the replay tells, for every walk: the files; the environment without, for each pair, as
   many of its last blocks as there are overrides of it; every override as typed, each followed by
   what a block of its pair that went included, or else by what its own section did; the rest.
   */
  lemma Outcome(w: Walk, s: Splice)
    requires WalkOk(w) && IsSplice(Entries(w), Overrides(w), s)
    ensures Fits(Entries(w), Overrides(w), s)
    ensures Ordered(Entries(w), Overrides(w), s) ==
      Items(w.files) + Items(Flat(Left(EnvBlocks(w), PairsOf(Overrides(w)), |EnvBlocks(w)|))) +
      ToldLine(w, |w.line|) + Items(w.rest)
  {
    hide *;
    var es, os, n := Entries(w), Overrides(w), |EnvBlocks(w)|;
    SpliceFits(es, os, s);
    SpliceRest(es, os, s);
    SpliceAtIs(w);
    OverridesSize(w);
    EnvKept(w, s, n);
    LineDropped(w, s);
    ReplayIs(w, s, |w.line|);
    KeptFrom(es, s.drop, 0, Base(w), Head(w, n));
    OrderedIs(es, os, s);
  }

  lemma SpliceRest(es: seq<Entry>, os: seq<Override>, s: Splice)
    requires IsSplice(es, os, s)
    ensures s.at == SpliceAt(es) && |s.included| == |os|
    ensures forall k :: 0 <= k < |os| ==> s.included[k] == Included(es, os, k)
  {
    hide IsCopy, PulledIn, Included, SpliceAt;
  }

  lemma OrderedIs(es: seq<Entry>, os: seq<Override>, s: Splice)
    requires Fits(es, os, s)
    ensures Ordered(es, os, s) ==
      Kept(es, s.drop, 0, s.at) + Replayed(es, os, s.included, |os|) + Kept(es, s.drop, s.at, |es|)
  {
    hide Kept, Replayed;
  }
}
