/**
 When the replay of a merged walk is git's one delivery: files, inherited environment, the `-c`
 list as typed, what an alias added, each line followed by what it included.
 */
module CommandLineGit {
  import opened Bytes
  import opened CommandLine
  import opened CommandLineOrder
  import opened CommandLineWalk
  import opened Integers
  import opened Optional
  import P = Places

  // ---- leaving out the last of each kind -----------------------------------------------------

  /** `v` without the last of each kind, as many as in `l`. */
  function Strip<T(==)>(v: seq<T>, l: seq<T>): seq<T> {
    if v == [] then []
    else (if P.Count(v[1..], v[0]) < P.Count(l, v[0]) then [] else [v[0]]) + Strip(v[1..], l)
  }

  /** What `Strip` leaves out. */
  function Stripped<T(==)>(v: seq<T>, l: seq<T>): seq<T> {
    if v == [] then []
    else (if P.Count(v[1..], v[0]) < P.Count(l, v[0]) then [v[0]] else []) + Stripped(v[1..], l)
  }

  lemma StripNothing<T>(l: seq<T>)
    ensures Strip([], l) == []
  {
  }

  lemma StripNext<T>(v: seq<T>, l: seq<T>, n: nat)
    requires n < |v|
    ensures Strip(v[n..], l) == if Taken(v, l, n) then Strip(v[n + 1..], l) else [v[n]] + Strip(v[n + 1..], l)
  {
    hide P.Count;
    assert v[n..][1..] == v[n + 1..];
  }

  lemma StrippedNothing<T>(l: seq<T>)
    ensures Stripped([], l) == []
  {
  }

  lemma StrippedNext<T>(v: seq<T>, l: seq<T>, n: nat)
    requires n < |v|
    ensures Stripped(v[n..], l) == if Taken(v, l, n) then [v[n]] + Stripped(v[n + 1..], l) else Stripped(v[n + 1..], l)
  {
    hide P.Count;
    assert v[n..][1..] == v[n + 1..];
  }

  lemma MinIs(a: int, b: int)
    ensures Min(a, b) == if a < b then a else b
  {
  }

  lemma HeadCount<T>(x: T, s: seq<T>, y: T)
    ensures P.Count([x] + s, y) == (if x == y then 1 else 0) + P.Count(s, y)
  {
    P.CountConcat([x], s, y);
    P.Snoc([], x, y);
    assert [] + [x] == [x];
  }

  lemma {:induction false} StrippedCount<T>(v: seq<T>, l: seq<T>, x: T)
    ensures P.Count(Stripped(v, l), x) == Min(P.Count(v, x), P.Count(l, x))
  {
    hide *;
    P.CountsNothing<T>();
    MinIs(P.Count(v, x), P.Count(l, x));
    if v == [] {
      StrippedNothing(l);
    } else {
      StrippedCount(v[1..], l, x);
      MinIs(P.Count(v[1..], x), P.Count(l, x));
      assert v == [v[0]] + v[1..] && v[0..] == v;
      HeadCount(v[0], v[1..], x);
      HeadCount(v[0], Stripped(v[1..], l), x);
      StrippedNext(v, l, 0);
      TakenIs(v, l, 0);
    }
  }

  lemma {:induction false} StripAll<T>(y: seq<T>, l: seq<T>)
    requires forall j :: 0 <= j < |y| ==> P.Count(y[j + 1..], y[j]) < P.Count(l, y[j])
    ensures Strip(y, l) == []
  {
    hide P.Count;
    if y != [] {
      forall j | 0 <= j < |y| - 1
        ensures P.Count(y[1..][j + 1..], y[1..][j]) < P.Count(l, y[1..][j])
      {
        assert y[1..][j + 1..] == y[j + 2..] && y[1..][j] == y[j + 1];
      }
      StripAll(y[1..], l);
      assert y[0 + 1..] == y[1..];
    }
  }

  lemma {:induction false} StripSuffix<T>(x: seq<T>, y: seq<T>, l: seq<T>)
    requires forall j :: 0 <= j < |y| ==> P.Count(y[j + 1..], y[j]) < P.Count(l, y[j])
    requires forall s :: s in x ==> P.Count(y, s) >= P.Count(l, s)
    ensures Strip(x + y, l) == x
  {
    hide P.Count;
    if x == [] {
      assert x + y == y;
      StripAll(y, l);
    } else {
      var v := x + y;
      assert v[1..] == x[1..] + y && v[0] == x[0] && x == [x[0]] + x[1..];
      StripSuffix(x[1..], y, l);
      P.CountConcat(x[1..], y, x[0]);
    }
  }

  /** Within `y`, each is followed by fewer of its kind than `y` holds. */
  lemma OwnCount<T>(y: seq<T>, j: nat)
    requires j < |y|
    ensures P.Count(y[j + 1..], y[j]) < P.Count(y, y[j])
  {
    hide P.Count;
    TailCount(y, j, y[j]);
  }

  /** When `l` is still the end of `l + a`, all of it comes up in `a`. */
  lemma {:induction false} Periodic<T>(l: seq<T>, a: seq<T>, i: nat)
    requires a != [] && (l + a)[|a|..] == l && i < |l|
    ensures l[i] in a
    decreases |l| - i
  {
    assert l[i] == (l + a)[|a|..][i] == (l + a)[|a| + i];
    if |a| + i < |l| { Periodic(l, a, |a| + i); }
  }

  lemma NotIn<T>(s: seq<T>, x: T)
    ensures P.Count(s, x) == 0 <==> x !in s
  {
    if x in s {
      var i :| 0 <= i < |s| && s[i] == x;
      P.PlaceAt(s, i);
    } else {
      P.CountNone(s, x);
    }
  }

  // ---- what is told ----------------------------------------------------------------------------

  datatype Setting = Setting(key: Bytes, value: Option<Bytes>)

  function SettingOf(i: Item): Setting {
    match i
    case Walked(e) => Setting(e.key, e.value)
    case Typed(key, value) => Setting(key, value)
  }

  /** What the callback hears. */
  function Told(items: seq<Item>): (t: seq<Setting>)
    ensures |t| == |items| && forall i :: 0 <= i < |t| ==> t[i] == SettingOf(items[i])
  {
    seq(|items|, i requires 0 <= i < |items| => SettingOf(items[i]))
  }

  lemma ToldConcat(a: seq<Item>, b: seq<Item>)
    ensures Told(a + b) == Told(a) + Told(b) && Told([]) == []
  {
  }

  /** What a line includes: all that the file it names holds. */
  function Holds(h: Pair -> seq<Setting>, s: Setting): seq<Setting> {
    if s.value.Some? && IsIncludeKey(s.key) then h(Pair(s.key, s.value.value)) else []
  }

  /** Lines, each followed by what it includes. */
  function Spread(h: Pair -> seq<Setting>, ss: seq<Setting>): seq<Setting> {
    if ss == [] then [] else [ss[0]] + Holds(h, ss[0]) + Spread(h, ss[1..])
  }

  lemma {:induction false} SpreadConcat(h: Pair -> seq<Setting>, a: seq<Setting>, b: seq<Setting>)
    ensures Spread(h, a + b) == Spread(h, a) + Spread(h, b)
  {
    hide Holds;
    if a == [] {
      assert a + b == b;
    } else {
      assert (a + b)[1..] == a[1..] + b;
      SpreadConcat(h, a[1..], b);
      assert [a[0]] + Holds(h, a[0]) + (Spread(h, a[1..]) + Spread(h, b)) ==
        [a[0]] + Holds(h, a[0]) + Spread(h, a[1..]) + Spread(h, b);
    }
  }

  lemma SpreadOne(h: Pair -> seq<Setting>, s: Setting)
    ensures Spread(h, [s]) == [s] + Holds(h, s) && Spread(h, []) == []
  {
    assert [s][1..] == [];
  }

  /** Nothing else is told the same. */
  lemma {:induction false} SpreadSame(h: Pair -> seq<Setting>, x: seq<Setting>, y: seq<Setting>)
    requires Spread(h, x) == Spread(h, y)
    ensures x == y
  {
    hide Holds;
    if x != [] && y != [] {
      assert x[0] == Spread(h, x)[0] == Spread(h, y)[0] == y[0];
      var n := 1 + |Holds(h, x[0])|;
      assert Spread(h, x)[n..] == Spread(h, x[1..]) && Spread(h, y)[n..] == Spread(h, y[1..]);
      SpreadSame(h, x[1..], y[1..]);
      assert x == [x[0]] + x[1..] && y == [y[0]] + y[1..];
    }
  }

  lemma Without<T>(x: seq<T>, i: nat, s: T)
    requires i < |x|
    ensures P.Count(x, s) == P.Count(x[..i] + x[i + 1..], s) + if x[i] == s then 1 else 0
  {
    hide P.Count;
    P.CountCut(x, i, s);
    P.CountHead(x, i, s);
    P.CountConcat(x[..i], x[i + 1..], s);
  }

  lemma SpreadWithout(h: Pair -> seq<Setting>, x: seq<Setting>, i: nat)
    requires i < |x|
    ensures |Spread(h, x)| == |Spread(h, x[..i] + x[i + 1..])| + |Spread(h, [x[i]])|
  {
    hide Spread, Holds;
    assert x == x[..i] + [x[i]] + x[i + 1..];
    SpreadConcat(h, x[..i] + [x[i]], x[i + 1..]);
    SpreadConcat(h, x[..i], [x[i]]);
    SpreadConcat(h, x[..i], x[i + 1..]);
  }

  /** More of each kind is told at more length. */
  lemma {:induction false} SpreadLonger(h: Pair -> seq<Setting>, c: seq<Setting>, x: seq<Setting>)
    requires forall s :: P.Count(c, s) <= P.Count(x, s)
    ensures |Spread(h, c)| <= |Spread(h, x)|
    ensures |Spread(h, c)| == |Spread(h, x)| ==> forall s :: P.Count(c, s) == P.Count(x, s)
    decreases |c|
  {
    hide P.Count, P.Of, Holds;
    P.CountsNothing<Setting>();
    if c == [] {
      if x != [] { assert |Spread(h, x)| > 0; }
    } else {
      var d := c[1..];
      assert c == [c[0]] + d && c[..0] + c[1..] == d;
      HeadCount(c[0], d, c[0]);
      NotIn(x, c[0]);
      var i :| 0 <= i < |x| && x[i] == c[0];
      var y := x[..i] + x[i + 1..];
      forall s: Setting
        ensures P.Count(d, s) <= P.Count(y, s) && P.Count(c, s) - P.Count(d, s) == P.Count(x, s) - P.Count(y, s)
      {
        HeadCount(c[0], d, s);
        Without(x, i, s);
      }
      SpreadLonger(h, d, y);
      SpreadWithout(h, c, 0);
      SpreadWithout(h, x, i);
      if |Spread(h, c)| == |Spread(h, x)| {
        forall s: Setting ensures P.Count(c, s) == P.Count(x, s) { assert P.Count(d, s) == P.Count(y, s); }
      }
    }
  }

  lemma {:induction false} StripLength(h: Pair -> seq<Setting>, v: seq<Setting>, l: seq<Setting>)
    ensures |Spread(h, v)| == |Spread(h, Strip(v, l))| + |Spread(h, Stripped(v, l))|
  {
    hide P.Count, Holds;
    if v != [] {
      StripLength(h, v[1..], l);
      SpreadConcat(h, [v[0]], Strip(v[1..], l));
      SpreadConcat(h, [v[0]], Stripped(v[1..], l));
      SpreadOne(h, v[0]);
      assert [] + Strip(v[1..], l) == Strip(v[1..], l) && [] + Stripped(v[1..], l) == Stripped(v[1..], l);
    }
  }

  // ---- the walk as settings ----------------------------------------------------------------------

  function Typing(o: Override): Setting { Setting(NormalizeKey(o.key), o.value) }

  function Heads(bs: seq<Block>): (t: seq<Setting>)
    ensures |t| == |bs| && forall j :: 0 <= j < |bs| ==> t[j] == Setting(bs[j].head.key, bs[j].head.value)
  {
    seq(|bs|, j requires 0 <= j < |bs| => Setting(bs[j].head.key, bs[j].head.value))
  }

  function Line(line: seq<Delivered>): (t: seq<Setting>)
    ensures |t| == |line| && forall k :: 0 <= k < |line| ==> t[k] == Typing(line[k].typed)
  {
    seq(|line|, k requires 0 <= k < |line| => Typing(line[k].typed))
  }

  function Aliases(alias: seq<Aliased>): (t: seq<Setting>)
    ensures |t| == |alias| && forall a :: 0 <= a < |alias| ==> t[a] == Typing(alias[a].typed)
  {
    seq(|alias|, a requires 0 <= a < |alias| => Typing(alias[a].typed))
  }

  /** git's delivery. */
  function Git(w: Walk, h: Pair -> seq<Setting>): seq<Setting> {
    Told(Items(w.files)) + Spread(h, Heads(w.inherited)) + Spread(h, Line(w.line)) +
    Spread(h, Aliases(w.alias)) + Told(Items(w.rest))
  }

  /** What an override's own section tells of what it includes: all of it, if that layer resolves includes. */
  function CliTells(h: Pair -> seq<Setting>, cli: bool, s: Setting): seq<Setting> {
    if cli && EQUALS !in s.key then Holds(h, s) else []
  }

  /** Every include line of the walk pulled in what the file it names holds. */
  predicate Reads(w: Walk, h: Pair -> seq<Setting>, cli: bool) {
    && (forall j :: 0 <= j < |EnvBlocks(w)| ==> Told(Items(EnvBlocks(w)[j].run)) == Holds(h, Heads(EnvBlocks(w))[j]))
    && (forall k :: 0 <= k < |w.line| ==>
          EQUALS in w.line[k].typed.key || Told(Items(w.line[k].fromCli)) == CliTells(h, cli, Line(w.line)[k]))
  }

  /** A valued override that no environment copy was made of. */
  predicate Uncopied(d: Delivered) { d.typed.value.Some? && d.fromEnv.None? }

  /**
   The walks over which the replay is git's delivery: every `-c` an alias brought has a value; the
   `-c` list is still the end of the list once the alias's are appended; and an override without an
   environment copy has the pair of no other entry of the environment, and is told with all it
   includes by its own section.
   */
  predicate Faithful(w: Walk, h: Pair -> seq<Setting>, cli: bool) {
    && (forall a :: 0 <= a < |w.alias| ==> w.alias[a].typed.value.Some?)
    && (Line(w.line) + Aliases(w.alias))[|w.alias|..] == Line(w.line)
    && (forall k :: 0 <= k < |w.line| && Uncopied(w.line[k]) ==>
          && Line(w.line)[k] !in Heads(w.inherited) && Line(w.line)[k] !in Aliases(w.alias)
          && CliTells(h, cli, Line(w.line)[k]) == Holds(h, Line(w.line)[k]))
  }

  lemma HeadsConcat(a: seq<Block>, b: seq<Block>)
    ensures Heads(a + b) == Heads(a) + Heads(b) && Heads([]) == []
  {
  }

  lemma EnvHeads(w: Walk)
    ensures Heads(EnvBlocks(w)) == Heads(w.inherited) + Heads(Copies(w.line)) + Heads(AliasBlocks(w.alias))
  {
    hide Copies, AliasBlocks;
  }

  /** Override `k` has the setting `s` and no copy. */
  predicate Missing(line: seq<Delivered>, s: Setting, k: int) {
    0 <= k < |line| && Uncopied(line[k]) && Typing(line[k].typed) == s
  }

  ghost predicate AnyMissing(line: seq<Delivered>, s: Setting) { exists k :: Missing(line, s, k) }

  /** The copies are of overrides, and each override without one is missing among them. */
  lemma {:induction false} CopyCount(line: seq<Delivered>, s: Setting)
    ensures P.Count(Heads(Copies(line)), s) <= P.Count(Line(line), s)
    ensures s.value.Some? ==> (P.Count(Heads(Copies(line)), s) < P.Count(Line(line), s) <==> AnyMissing(line, s))
  {
    hide *;
    P.CountsNothing<Setting>();
    if line == [] {
      CopiesNothing();
      MissingAt(line, s);
      HeadsConcat([], []);
    } else {
      var rest := line[..|line| - 1];
      var t := Typing(line[|line| - 1].typed);
      CopyCount(rest, s);
      CopiesSnoc(line);
      P.Snoc(Line(rest), t, s);
      P.Snoc(Heads(Copies(rest)), t, s);
      assert Heads(Copies(rest)) + [] == Heads(Copies(rest));
      MissingSnoc(line, s);
    }
  }

  lemma MissingAt(line: seq<Delivered>, s: Setting)
    ensures AnyMissing(line, s) <==> exists k :: Missing(line, s, k)
    ensures forall k :: Missing(line, s, k) <==> 0 <= k < |line| && Uncopied(line[k]) && Typing(line[k].typed) == s
  {
  }

  lemma MissingSnoc(line: seq<Delivered>, s: Setting)
    requires line != []
    ensures var d := line[|line| - 1];
      AnyMissing(line, s) <==>
        (d.typed.value.Some? && d.fromEnv.None? && Typing(d.typed) == s) || AnyMissing(line[..|line| - 1], s)
  {
    hide NormalizeKey, Typing;
    var n := |line| - 1;
    if k :| Missing(line, s, k) { assert k < n ==> Missing(line[..n], s, k); }
    if k :| Missing(line[..n], s, k) { assert Missing(line, s, k); }
    if Uncopied(line[n]) && Typing(line[n].typed) == s { assert Missing(line, s, n); }
  }

  lemma CopiesNothing()
    ensures Copies([]) == [] && Line([]) == []
  {
  }

  lemma CopiesSnoc(line: seq<Delivered>)
    requires line != []
    ensures var d, rest := line[|line| - 1], line[..|line| - 1];
      && Line(line) == Line(rest) + [Typing(d.typed)] && Typing(d.typed).value == d.typed.value
      && Heads(Copies(line)) == Heads(Copies(rest)) + if d.fromEnv.Some? then [Typing(d.typed)] else []
  {
    hide NormalizeKey;
    var d, rest := line[|line| - 1], line[..|line| - 1];
    assert Line(line) == Line(rest) + [Typing(d.typed)];
    if d.fromEnv.Some? {
      assert Heads(Copies(line)) == Heads(Copies(rest)) + [Typing(d.typed)];
    } else {
      assert Copies(line) == Copies(rest) + [];
    }
  }

  /** With a copy of every override the copies tell what was typed. */
  lemma {:induction false} CopiesAll(line: seq<Delivered>)
    requires forall k :: 0 <= k < |line| ==> line[k].fromEnv.Some?
    ensures Heads(Copies(line)) == Line(line)
  {
    hide *;
    if line == [] {
      CopiesNothing();
      HeadsConcat([], []);
    } else {
      CopiesAll(line[..|line| - 1]);
      CopiesSnoc(line);
    }
  }

  /** An alias's settings with a value reach the environment, the others do not. */
  lemma {:induction false} AliasHeads(h: Pair -> seq<Setting>, alias: seq<Aliased>)
    ensures (forall a :: 0 <= a < |alias| ==> alias[a].typed.value.Some?) ==>
      Heads(AliasBlocks(alias)) == Aliases(alias)
    ensures |Spread(h, Heads(AliasBlocks(alias)))| <= |Spread(h, Aliases(alias))|
    ensures |Spread(h, Heads(AliasBlocks(alias)))| == |Spread(h, Aliases(alias))| ==>
      forall a :: 0 <= a < |alias| ==> alias[a].typed.value.Some?
  {
    hide *;
    if alias == [] {
      AliasNothing();
      HeadsConcat([], []);
    } else {
      var n := |alias| - 1;
      var t, rest := alias[n].typed, alias[..n];
      AliasHeads(h, rest);
      AliasSnoc(alias);
      SpreadConcat(h, Aliases(rest), [Typing(t)]);
      SpreadOne(h, Typing(t));
      SpreadConcat(h, Heads(AliasBlocks(rest)), [Typing(t)]);
      assert forall a :: 0 <= a < n ==> rest[a] == alias[a];
      assert Heads(AliasBlocks(rest)) + [] == Heads(AliasBlocks(rest));
    }
  }

  lemma {:induction false} AliasIn(alias: seq<Aliased>, s: Setting)
    ensures s in Heads(AliasBlocks(alias)) <==> s in Aliases(alias) && s.value.Some?
  {
    hide *;
    if alias == [] {
      AliasNothing();
      HeadsConcat([], []);
    } else {
      AliasIn(alias[..|alias| - 1], s);
      AliasSnoc(alias);
    }
  }

  lemma AliasNothing()
    ensures AliasBlocks([]) == [] && Aliases([]) == []
  {
  }

  lemma AliasSnoc(alias: seq<Aliased>)
    requires alias != []
    ensures var t, rest := alias[|alias| - 1].typed, alias[..|alias| - 1];
      && Aliases(alias) == Aliases(rest) + [Typing(t)] && Typing(t).value == t.value
      && Heads(AliasBlocks(alias)) == Heads(AliasBlocks(rest)) + if t.value.Some? then [Typing(t)] else []
  {
    hide NormalizeKey;
    var t, rest := alias[|alias| - 1].typed, alias[..|alias| - 1];
    assert Aliases(alias) == Aliases(rest) + [Typing(t)];
    if t.value.Some? {
      assert Heads(AliasBlocks(alias)) == Heads(AliasBlocks(rest)) + [Typing(t)];
    } else {
      assert AliasBlocks(alias) == AliasBlocks(rest) + [];
    }
  }

  lemma EnvValued(w: Walk)
    requires WalkOk(w)
    ensures forall j :: 0 <= j < |EnvBlocks(w)| ==> (
      var e := EnvBlocks(w)[j].head; e.value.Some? && EnvTag(e) == Some(Pair(e.key, e.value.value)))
  {
    hide EnvBlocks, WalkOk;
    BlocksOk(w);
  }

  lemma {:induction false} CountAlike<T, U>(s: seq<T>, x: T, t: seq<U>, y: U)
    requires |s| == |t| && forall i :: 0 <= i < |s| ==> (s[i] == x <==> t[i] == y)
    ensures P.Count(s, x) == P.Count(t, y)
  {
    hide P.Count, P.Of;
    P.CountsNothing<T>();
    P.CountsNothing<U>();
    if s != [] {
      var n := |s| - 1;
      CountAlike(s[..n], x, t[..n], y);
      assert s == s[..n] + [s[n]] && t == t[..n] + [t[n]];
      P.Snoc(s[..n], s[n], x);
      P.Snoc(t[..n], t[n], y);
    }
  }

  lemma PairsAre(w: Walk)
    ensures |PairsOf(Overrides(w))| == |Line(w.line)| == |w.line|
    ensures forall k :: 0 <= k < |w.line| ==> (
      var t := Line(w.line)[k];
      t == Typing(w.line[k].typed) &&
      PairsOf(Overrides(w))[k] == if t.value.Some? then Some(Pair(t.key, t.value.value)) else None)
  {
    hide NormalizeKey;
  }

  lemma LineCounts(w: Walk, k: nat, s: Setting)
    requires k <= |w.line| && s.value.Some?
    ensures |PairsOf(Overrides(w))| == |Line(w.line)| == |w.line|
    ensures P.Count(PairsOf(Overrides(w))[..k], Some(Pair(s.key, s.value.value))) == P.Count(Line(w.line)[..k], s)
  {
    hide *;
    PairsAre(w);
    CountAlike(PairsOf(Overrides(w))[..k], Some(Pair(s.key, s.value.value)), Line(w.line)[..k], s);
  }

  /** A block goes as its setting is stripped. */
  lemma TakenAsSetting(w: Walk, j: nat)
    requires WalkOk(w) && j < |EnvBlocks(w)|
    ensures |Tags(EnvBlocks(w))| == |EnvBlocks(w)| == |Heads(EnvBlocks(w))|
    ensures Taken(Tags(EnvBlocks(w)), PairsOf(Overrides(w)), j) <==> Taken(Heads(EnvBlocks(w)), Line(w.line), j)
  {
    hide *;
    var bs, v, t := EnvBlocks(w), Heads(EnvBlocks(w)), Tags(EnvBlocks(w));
    EnvValued(w);
    BlockTags(bs);
    HeadsAre(bs);
    CountAlike(t[j + 1..], t[j], v[j + 1..], v[j]);
    LineCounts(w, |w.line|, v[j]);
    assert PairsOf(Overrides(w))[..|w.line|] == PairsOf(Overrides(w)) && Line(w.line)[..|w.line|] == Line(w.line);
    TakenIs(t, PairsOf(Overrides(w)), j);
    TakenIs(v, Line(w.line), j);
  }

  lemma HeadsAre(bs: seq<Block>)
    ensures |Heads(bs)| == |bs|
    ensures forall j :: 0 <= j < |bs| ==> Heads(bs)[j] == Setting(bs[j].head.key, bs[j].head.value)
  {
  }

  /** What stays of the environment, as settings. */
  lemma {:induction false} LeftHeads(w: Walk, n: nat)
    requires WalkOk(w) && n <= |EnvBlocks(w)|
    ensures |Heads(EnvBlocks(w))| == |EnvBlocks(w)|
    ensures Heads(Left(EnvBlocks(w), PairsOf(Overrides(w)), n)) + Strip(Heads(EnvBlocks(w))[n..], Line(w.line)) ==
      Strip(Heads(EnvBlocks(w)), Line(w.line))
  {
    hide *;
    var bs, pairs, v, l := EnvBlocks(w), PairsOf(Overrides(w)), Heads(EnvBlocks(w)), Line(w.line);
    if n == 0 {
      LeftNothing(bs, pairs);
      HeadsConcat([], []);
      assert v[0..] == v && [] + Strip(v, l) == Strip(v, l);
    } else {
      LeftHeads(w, n - 1);
      TakenAsSetting(w, n - 1);
      StripNext(v, l, n - 1);
      LeftHead(bs, pairs, n - 1);
      Onward(Heads(Left(bs, pairs, n - 1)), v[n - 1], Strip(v[n..], l));
    }
  }

  lemma Onward<T>(a: seq<T>, x: T, b: seq<T>)
    ensures a + [x] + b == a + ([x] + b)
  {
  }

  lemma LeftHead(bs: seq<Block>, pairs: seq<Option<Pair>>, n: nat)
    requires n < |bs| == |Tags(bs)|
    ensures |Heads(bs)| == |bs|
    ensures Heads(Left(bs, pairs, n + 1)) ==
      Heads(Left(bs, pairs, n)) + if Taken(Tags(bs), pairs, n) then [] else [Heads(bs)[n]]
  {
    hide *;
    LeftIs(bs, pairs, n);
    HeadsConcat(Left(bs, pairs, n), [bs[n]]);
    HeadsAre(bs);
    HeadsAre([bs[n]]);
    assert Heads([bs[n]]) == [Heads(bs)[n]];
    assert Heads(Left(bs, pairs, n)) + [] == Heads(Left(bs, pairs, n));
  }

  lemma LeftIs(bs: seq<Block>, pairs: seq<Option<Pair>>, n: nat)
    requires n < |bs|
    ensures Left(bs, pairs, n + 1) ==
      if Taken(Tags(bs), pairs, n) then Left(bs, pairs, n) else Left(bs, pairs, n) + [bs[n]]
  {
    hide Taken;
  }

  /** Blocks that pulled in what their heads hold are told as their heads, spread. */
  lemma {:induction false} FlatTold(h: Pair -> seq<Setting>, bs: seq<Block>)
    requires forall j :: 0 <= j < |bs| ==> Told(Items(bs[j].run)) == Holds(h, Setting(bs[j].head.key, bs[j].head.value))
    ensures Told(Items(Flat(bs))) == Spread(h, Heads(bs))
  {
    hide *;
    if bs == [] {
      FlatNothing();
      HeadsConcat([], []);
      ItemsConcat([], []);
      ToldConcat([], []);
      SpreadOne(h, Setting([], None));
    } else {
      var n := |bs| - 1;
      var b, rest := bs[n], bs[..n];
      FlatTold(h, rest);
      assert bs == rest + [b];
      FlatSnoc(rest, b);
      HeadsConcat(rest, [b]);
      HeadsAre([b]);
      assert Heads([b]) == [Setting(b.head.key, b.head.value)];
      SpreadConcat(h, Heads(rest), Heads([b]));
      SpreadOne(h, Setting(b.head.key, b.head.value));
      ItemsConcat(Flat(rest), [b.head] + b.run);
      ItemsConcat([b.head], b.run);
      ToldConcat(Items(Flat(rest)), Items([b.head] + b.run));
      ToldConcat(Items([b.head]), Items(b.run));
      ToldHead(b.head);
    }
  }

  lemma ToldHead(e: Entry)
    ensures Told(Items([e])) == [Setting(e.key, e.value)]
  {
  }

  lemma {:induction false} LeftFrom(bs: seq<Block>, pairs: seq<Option<Pair>>, n: nat, j: nat)
    requires n <= |bs| && j < |Left(bs, pairs, n)|
    ensures Left(bs, pairs, n)[j] in bs
  {
    hide *;
    if n == 0 {
      LeftNothing(bs, pairs);
    } else {
      LeftIs(bs, pairs, n - 1);
      if j < |Left(bs, pairs, n - 1)| { LeftFrom(bs, pairs, n - 1, j); }
    }
  }

  lemma EnvTold(w: Walk, h: Pair -> seq<Setting>, cli: bool)
    requires WalkOk(w) && Reads(w, h, cli)
    ensures Told(Items(Flat(Left(EnvBlocks(w), PairsOf(Overrides(w)), |EnvBlocks(w)|)))) ==
      Spread(h, Strip(Heads(EnvBlocks(w)), Line(w.line)))
  {
    hide *;
    var bs, pairs, n := EnvBlocks(w), PairsOf(Overrides(w)), |EnvBlocks(w)|;
    var left := Left(bs, pairs, n);
    ReadsEnv(w, h, cli);
    forall j | 0 <= j < |left|
      ensures Told(Items(left[j].run)) == Holds(h, Setting(left[j].head.key, left[j].head.value))
    {
      LeftFrom(bs, pairs, n, j);
      var m :| 0 <= m < |bs| && bs[m] == left[j];
    }
    FlatTold(h, left);
    LeftHeads(w, n);
    StripNothing(Line(w.line));
    assert Heads(bs)[n..] == [];
    assert Heads(left) + [] == Heads(left);
  }

  lemma ReadsEnv(w: Walk, h: Pair -> seq<Setting>, cli: bool)
    requires Reads(w, h, cli)
    ensures forall j :: 0 <= j < |EnvBlocks(w)| ==>
      Told(Items(EnvBlocks(w)[j].run)) == Holds(h, Setting(EnvBlocks(w)[j].head.key, EnvBlocks(w)[j].head.value))
  {
    hide EnvBlocks, Told, Items, Holds;
  }

  // ---- what is told behind the overrides -----------------------------------------------------------

  /** What is told behind line `k`, when of its setting as many environment blocks go as `gone` counts. */
  function Behind(h: Pair -> seq<Setting>, cli: bool, l: seq<Setting>, gone: seq<Setting>, k: nat): seq<Setting>
    requires k < |l|
  {
    if P.Count(l[..k], l[k]) < P.Count(gone, l[k]) then Holds(h, l[k]) else CliTells(h, cli, l[k])
  }

  function LineTold(h: Pair -> seq<Setting>, cli: bool, l: seq<Setting>, gone: seq<Setting>, n: nat): seq<Setting>
    requires n <= |l|
  {
    if n == 0 then [] else LineTold(h, cli, l, gone, n - 1) + [l[n - 1]] + Behind(h, cli, l, gone, n - 1)
  }

  lemma {:induction false} LineToldAt(h: Pair -> seq<Setting>, cli: bool, l: seq<Setting>, gone: seq<Setting>, n: nat)
    requires n <= |l|
    ensures |LineTold(h, cli, l, gone, n)| <= |Spread(h, l[..n])|
    ensures |LineTold(h, cli, l, gone, n)| == |Spread(h, l[..n])| ==>
      forall k :: 0 <= k < n ==> Behind(h, cli, l, gone, k) == Holds(h, l[k])
    ensures (forall k :: 0 <= k < n ==> Behind(h, cli, l, gone, k) == Holds(h, l[k])) ==>
      LineTold(h, cli, l, gone, n) == Spread(h, l[..n])
  {
    hide P.Count, Holds, Spread;
    if n == 0 {
      assert l[..0] == [];
      SpreadOne(h, Setting([], None));
    } else {
      LineToldAt(h, cli, l, gone, n - 1);
      assert l[..n] == l[..n - 1] + [l[n - 1]];
      SpreadConcat(h, l[..n - 1], [l[n - 1]]);
      SpreadOne(h, l[n - 1]);
    }
  }

  /** As many blocks of a setting go as are stripped. */
  lemma {:induction false} TakenCounts(w: Walk, s: Setting, n: nat)
    requires WalkOk(w) && n <= |EnvBlocks(w)| && s.value.Some? && IsIncludeKey(s.key)
    ensures |Heads(EnvBlocks(w))| == |EnvBlocks(w)| == |TakenIncludes(EnvBlocks(w), PairsOf(Overrides(w)))|
    ensures P.Count(TakenIncludes(EnvBlocks(w), PairsOf(Overrides(w)))[n..], Some(Pair(s.key, s.value.value))) ==
      P.Count(Stripped(Heads(EnvBlocks(w))[n..], Line(w.line)), s)
    decreases |EnvBlocks(w)| - n
  {
    hide *;
    var bs, v, t := EnvBlocks(w), Heads(EnvBlocks(w)), TakenIncludes(EnvBlocks(w), PairsOf(Overrides(w)));
    var p := Some(Pair(s.key, s.value.value));
    HeadsAre(bs);
    TakenIncludesAre(bs, PairsOf(Overrides(w)));
    P.CountsNothing<Setting>();
    P.CountsNothing<Option<Pair>>();
    if n == |bs| {
      StrippedNothing(Line(w.line));
      assert t[n..] == [] && v[n..] == [];
    } else {
      TakenCounts(w, s, n + 1);
      P.CountHead(t, n, p);
      TakenAsSetting(w, n);
      EnvValued(w);
      StrippedNext(v, Line(w.line), n);
      HeadCount(v[n], Stripped(v[n + 1..], Line(w.line)), s);
    }
  }

  lemma PulledTold(w: Walk, h: Pair -> seq<Setting>, cli: bool, k: nat)
    requires WalkOk(w) && Reads(w, h, cli) && k < |w.line|
    ensures |Line(w.line)| == |w.line|
    ensures Told(Items(PulledRun(w, k))) == Behind(h, cli, Line(w.line), Stripped(Heads(EnvBlocks(w)), Line(w.line)), k)
  {
    hide *;
    var l, bs, pairs := Line(w.line), EnvBlocks(w), PairsOf(Overrides(w));
    var t, m, s := TakenIncludes(bs, pairs), P.Count(pairs[..k], pairs[k]), l[k];
    PairsAre(w);
    PulledCases(w, k);
    ReadsLine(w, h, cli, k);
    TakenIncludesAre(bs, pairs);
    HoldsIs(h, cli, s);
    BehindIs(h, cli, l, Stripped(Heads(bs), l), k);
    if s.value.Some? && IsIncludeKey(s.key) {
      TakenCounts(w, s, 0);
      assert t[0..] == t && Heads(bs)[0..] == Heads(bs);
      LineCounts(w, k, s);
      P.CountIsSize(t, pairs[k]);
      if m < P.Count(t, pairs[k]) {
        P.CountBefore(t, pairs[k], m);
        ReadsEnv(w, h, cli);
        EnvValued(w);
      }
    } else if s.value.Some? {
      EnvValued(w);
      P.CountNone(t, pairs[k]);
    }
  }

  lemma HoldsIs(h: Pair -> seq<Setting>, cli: bool, s: Setting)
    ensures s.value.None? || !IsIncludeKey(s.key) ==> Holds(h, s) == [] == CliTells(h, cli, s)
    ensures EQUALS in s.key ==> CliTells(h, cli, s) == []
  {
    hide IsIncludeKey;
  }

  lemma BehindIs(h: Pair -> seq<Setting>, cli: bool, l: seq<Setting>, gone: seq<Setting>, k: nat)
    requires k < |l|
    ensures Behind(h, cli, l, gone, k) ==
      if P.Count(l[..k], l[k]) < P.Count(gone, l[k]) then Holds(h, l[k]) else CliTells(h, cli, l[k])
  {
    hide P.Count, Holds, CliTells;
  }

  lemma ReadsLine(w: Walk, h: Pair -> seq<Setting>, cli: bool, k: nat)
    requires Reads(w, h, cli) && k < |w.line|
    ensures |Line(w.line)| == |w.line|
    ensures EQUALS in w.line[k].typed.key || Told(Items(w.line[k].fromCli)) == CliTells(h, cli, Line(w.line)[k])
    ensures EQUALS in w.line[k].typed.key ==> EQUALS in Line(w.line)[k].key
    ensures Told(Items([])) == []
  {
    hide EnvBlocks, Holds, CliTells, NormalizeKey;
    NormalizeKeepsEquals(w.line[k].typed.key);
  }

  lemma {:induction false} LineIsTold(w: Walk, h: Pair -> seq<Setting>, cli: bool, n: nat)
    requires WalkOk(w) && Reads(w, h, cli) && n <= |w.line|
    ensures |Line(w.line)| == |w.line|
    ensures Told(ToldLine(w, n)) == LineTold(h, cli, Line(w.line), Stripped(Heads(EnvBlocks(w)), Line(w.line)), n)
  {
    hide WalkOk, Reads, NormalizeKey, PulledRun, Behind, Stripped, EnvBlocks, Told, Items;
    if n == 0 {
      ToldConcat([], []);
    } else {
      LineIsTold(w, h, cli, n - 1);
      PulledTold(w, h, cli, n - 1);
      var typed := Typed(NormalizeKey(w.line[n - 1].typed.key), w.line[n - 1].typed.value);
      ToldConcat(ToldLine(w, n - 1) + [typed], Items(PulledRun(w, n - 1)));
      ToldConcat(ToldLine(w, n - 1), [typed]);
      ToldTyped(w.line[n - 1].typed);
    }
  }

  lemma ToldTyped(o: Override)
    ensures Told([Typed(NormalizeKey(o.key), o.value)]) == [Typing(o)]
  {
  }

  /** What the replay tells, as settings. */
  lemma OutcomeTold(w: Walk, s: Splice, h: Pair -> seq<Setting>, cli: bool)
    requires WalkOk(w) && IsSplice(Entries(w), Overrides(w), s) && Reads(w, h, cli)
    ensures Fits(Entries(w), Overrides(w), s) && |Line(w.line)| == |w.line|
    ensures Told(Ordered(Entries(w), Overrides(w), s)) ==
      Told(Items(w.files)) + Spread(h, Strip(Heads(EnvBlocks(w)), Line(w.line)))
      + LineTold(h, cli, Line(w.line), Stripped(Heads(EnvBlocks(w)), Line(w.line)), |w.line|) + Told(Items(w.rest))
  {
    hide *;
    Outcome(w, s);
    EnvTold(w, h, cli);
    LineIsTold(w, h, cli, |w.line|);
    var a, b, c, d := Items(w.files), Items(Flat(Left(EnvBlocks(w), PairsOf(Overrides(w)), |EnvBlocks(w)|))),
      ToldLine(w, |w.line|), Items(w.rest);
    ToldConcat(a + b + c, d);
    ToldConcat(a + b, c);
    ToldConcat(a, b);
  }

  // ---- the condition ---------------------------------------------------------------------------------

  /** The middle of what is told: the environment and the command line. */
  function Middle(h: Pair -> seq<Setting>, cli: bool, v: seq<Setting>, l: seq<Setting>): seq<Setting> {
    Spread(h, Strip(v, l)) + LineTold(h, cli, l, Stripped(v, l), |l|)
  }

  /** As long as git's, the environment loses the copies and nothing else, and every line is told in full. */
  lemma FullLength(w: Walk, h: Pair -> seq<Setting>, cli: bool)
    requires var v, l := Heads(EnvBlocks(w)), Line(w.line);
      |Middle(h, cli, v, l)| >= |Spread(h, Heads(w.inherited))| + |Spread(h, l)| + |Spread(h, Aliases(w.alias))|
    ensures forall a :: 0 <= a < |w.alias| ==> w.alias[a].typed.value.Some?
    ensures forall s :: P.Count(Stripped(Heads(EnvBlocks(w)), Line(w.line)), s) == P.Count(Heads(Copies(w.line)), s)
    ensures forall k :: 0 <= k < |Line(w.line)| ==>
      Behind(h, cli, Line(w.line), Stripped(Heads(EnvBlocks(w)), Line(w.line)), k) == Holds(h, Line(w.line)[k])
  {
    hide *;
    var v, l, c := Heads(EnvBlocks(w)), Line(w.line), Heads(Copies(w.line));
    MiddleIs(h, cli, v, l);
    EnvHeads(w);
    AliasHeads(h, w.alias);
    forall s: Setting
      ensures P.Count(c, s) <= P.Count(Stripped(v, l), s)
    {
      StrippedCount(v, l, s);
      MinIs(P.Count(v, s), P.Count(l, s));
      CopyCount(w.line, s);
      EnvCount(w, s);
    }
    SpreadLonger(h, c, Stripped(v, l));
    StripLength(h, v, l);
    SpreadConcat(h, Heads(w.inherited) + c, Heads(AliasBlocks(w.alias)));
    SpreadConcat(h, Heads(w.inherited), c);
    LineToldAt(h, cli, l, Stripped(v, l), |l|);
    assert l[..|l|] == l;
  }

  lemma MiddleIs(h: Pair -> seq<Setting>, cli: bool, v: seq<Setting>, l: seq<Setting>)
    ensures Middle(h, cli, v, l) == Spread(h, Strip(v, l)) + LineTold(h, cli, l, Stripped(v, l), |l|)
  {
    hide Spread, LineTold, Strip, Stripped;
  }

  lemma EnvCount(w: Walk, s: Setting)
    ensures P.Count(Heads(EnvBlocks(w)), s) ==
      P.Count(Heads(w.inherited), s) + P.Count(Heads(Copies(w.line)), s) + P.Count(Heads(AliasBlocks(w.alias)), s)
  {
    hide *;
    EnvHeads(w);
    P.CountConcat(Heads(w.inherited) + Heads(Copies(w.line)), Heads(AliasBlocks(w.alias)), s);
    P.CountConcat(Heads(w.inherited), Heads(Copies(w.line)), s);
  }

  lemma UncopiedIs(w: Walk, k: nat)
    requires k < |w.line|
    ensures |Line(w.line)| == |w.line| && Line(w.line)[k] == Typing(w.line[k].typed)
    ensures Uncopied(w.line[k]) <==> w.line[k].typed.value.Some? && w.line[k].fromEnv.None?
    ensures Typing(w.line[k].typed).value == w.line[k].typed.value
  {
    hide NormalizeKey;
  }

  /** Then an override without a copy stands alone, and its own section tells all it includes. */
  lemma UncopiedAlone(w: Walk, h: Pair -> seq<Setting>, cli: bool, k: nat)
    requires k < |w.line| && Uncopied(w.line[k])
    requires forall s :: P.Count(Stripped(Heads(EnvBlocks(w)), Line(w.line)), s) == P.Count(Heads(Copies(w.line)), s)
    requires forall m :: 0 <= m < |Line(w.line)| ==>
      Behind(h, cli, Line(w.line), Stripped(Heads(EnvBlocks(w)), Line(w.line)), m) == Holds(h, Line(w.line)[m])
    ensures |Line(w.line)| == |w.line|
    ensures Line(w.line)[k] !in Heads(w.inherited) && Line(w.line)[k] !in Aliases(w.alias)
    ensures CliTells(h, cli, Line(w.line)[k]) == Holds(h, Line(w.line)[k])
  {
    hide *;
    UncopiedIs(w, k);
    var l, v := Line(w.line), Heads(EnvBlocks(w));
    var s, gone := l[k], Stripped(v, l);
    CopyCount(w.line, s);
    MissingAt(w.line, s);
    assert Missing(w.line, s, k);
    StrippedCount(v, l, s);
    MinIs(P.Count(v, s), P.Count(l, s));
    EnvCount(w, s);
    NotIn(Heads(w.inherited), s);
    NotIn(Heads(AliasBlocks(w.alias)), s);
    AliasIn(w.alias, s);
    P.CountIsSize(l, s);
    var m := P.Of(l, s)[P.Count(l, s) - 1];
    P.CountBefore(l, s, P.Count(l, s) - 1);
    BehindIs(h, cli, l, gone, m);
  }

  lemma FaithfulIs(w: Walk, h: Pair -> seq<Setting>, cli: bool)
    ensures |Line(w.line)| == |w.line| && |Aliases(w.alias)| == |w.alias|
    ensures forall a :: 0 <= a < |w.alias| ==> Aliases(w.alias)[a].value == w.alias[a].typed.value
    ensures Faithful(w, h, cli) <==> (
      && (forall a :: 0 <= a < |w.alias| ==> w.alias[a].typed.value.Some?)
      && (Line(w.line) + Aliases(w.alias))[|w.alias|..] == Line(w.line)
      && (forall k :: 0 <= k < |w.line| && Uncopied(w.line[k]) ==>
            && Line(w.line)[k] !in Heads(w.inherited) && Line(w.line)[k] !in Aliases(w.alias)
            && CliTells(h, cli, Line(w.line)[k]) == Holds(h, Line(w.line)[k])))
  {
    hide CliTells, Holds, Uncopied, NormalizeKey;
  }

  lemma InheritedValued(w: Walk)
    requires WalkOk(w)
    ensures forall s :: s in Heads(w.inherited) ==> s.value.Some?
  {
    hide DeliveredOk;
    forall s | s in Heads(w.inherited)
      ensures s.value.Some?
    {
      var j :| 0 <= j < |w.inherited| && Heads(w.inherited)[j] == s;
      assert EnvOk(w.inherited[j]);
    }
  }

  /**
   With nothing lost, what stays of the environment is what was inherited, and what the alias shifts into its place.
   */
  lemma KeptIs(w: Walk, h: Pair -> seq<Setting>, cli: bool)
    requires WalkOk(w) && Faithful(w, h, cli)
    ensures |Line(w.line)| == |w.line| && |Aliases(w.alias)| == |w.alias|
    ensures Strip(Heads(EnvBlocks(w)), Line(w.line)) ==
      Heads(w.inherited) + (Line(w.line) + Aliases(w.alias))[..|w.alias|]
  {
    hide *;
    FaithfulIs(w, h, cli);
    EnvHeads(w);
    AliasHeads(h, w.alias);
    if w.alias == [] { KeptPlain(w, h, cli); } else { KeptAliased(w, h, cli); }
  }

  lemma KeptPlain(w: Walk, h: Pair -> seq<Setting>, cli: bool)
    requires WalkOk(w) && Faithful(w, h, cli) && w.alias == []
    requires Heads(EnvBlocks(w)) == Heads(w.inherited) + Heads(Copies(w.line)) + Aliases(w.alias)
    ensures |Aliases(w.alias)| == 0
    ensures Strip(Heads(EnvBlocks(w)), Line(w.line)) == Heads(w.inherited) + (Line(w.line) + Aliases(w.alias))[..0]
  {
    hide *;
    var i, c, l, a := Heads(w.inherited), Heads(Copies(w.line)), Line(w.line), Aliases(w.alias);
    FaithfulIs(w, h, cli);
    InheritedValued(w);
    assert i + c + a == i + c && i + (l + a)[..0] == i;
    forall j | 0 <= j < |c|
      ensures P.Count(c[j + 1..], c[j]) < P.Count(l, c[j])
    {
      OwnCount(c, j);
      CopyCount(w.line, c[j]);
    }
    forall s | s in i
      ensures P.Count(c, s) >= P.Count(l, s)
    {
      CopyCount(w.line, s);
      MissingAt(w.line, s);
      if k :| Missing(w.line, s, k) { UncopiedIs(w, k); }
    }
    StripSuffix(i, c, l);
  }

  lemma KeptAliased(w: Walk, h: Pair -> seq<Setting>, cli: bool)
    requires WalkOk(w) && Faithful(w, h, cli) && w.alias != []
    requires Heads(EnvBlocks(w)) == Heads(w.inherited) + Heads(Copies(w.line)) + Aliases(w.alias)
    ensures |Aliases(w.alias)| == |w.alias|
    ensures Strip(Heads(EnvBlocks(w)), Line(w.line)) ==
      Heads(w.inherited) + (Line(w.line) + Aliases(w.alias))[..|w.alias|]
  {
    hide *;
    var i, l, a := Heads(w.inherited), Line(w.line), Aliases(w.alias);
    FaithfulIs(w, h, cli);
    var z := (l + a)[..|a|];
    forall k | 0 <= k < |w.line|
      ensures w.line[k].fromEnv.Some?
    {
      Periodic(l, a, k);
      UncopiedIs(w, k);
    }
    CopiesAll(w.line);
    assert l + a == z + (l + a)[|a|..];
    assert i + l + a == i + (l + a) && i + z + l == i + (z + l);
    forall j | 0 <= j < |l|
      ensures P.Count(l[j + 1..], l[j]) < P.Count(l, l[j])
    {
      OwnCount(l, j);
    }
    StripSuffix(i + z, l, l);
  }

  /** And every line is told in full. */
  lemma ToldInFull(w: Walk, h: Pair -> seq<Setting>, cli: bool, k: nat)
    requires Faithful(w, h, cli) && k < |w.line|
    ensures |Line(w.line)| == |w.line|
    ensures Behind(h, cli, Line(w.line), Stripped(Heads(EnvBlocks(w)), Line(w.line)), k) == Holds(h, Line(w.line)[k])
  {
    hide *;
    FaithfulIs(w, h, cli);
    UncopiedIs(w, k);
    var l, v := Line(w.line), Heads(EnvBlocks(w));
    var s, gone := l[k], Stripped(v, l);
    BehindIs(h, cli, l, gone, k);
    HoldsIs(h, cli, s);
    StrippedCount(v, l, s);
    MinIs(P.Count(v, s), P.Count(l, s));
    CopyCount(w.line, s);
    MissingAt(w.line, s);
    if m :| Missing(w.line, s, m) { UncopiedIs(w, m); }
    EnvCount(w, s);
    TailCount(l, k, s);
  }

  lemma GitIs(w: Walk, h: Pair -> seq<Setting>)
    ensures Git(w, h) ==
      Told(Items(w.files)) + Spread(h, Heads(w.inherited)) + Spread(h, Line(w.line)) +
      Spread(h, Aliases(w.alias)) + Told(Items(w.rest))
  {
    hide Told, Items, Spread, Heads, Line, Aliases;
  }

  lemma SameEnds<T>(a: seq<T>, x: seq<T>, y: seq<T>, z: seq<T>)
    requires a + x + z == a + y + z
    ensures x == y
  {
    assert |x| == |y|;
    forall i | 0 <= i < |x| ensures x[i] == y[i] {
      assert (a + x + z)[|a| + i] == x[i] && (a + y + z)[|a| + i] == y[i];
    }
  }

  /** Told alike, the `-c` list is still the end of the list behind which the alias's stand. */
  lemma StillTheEnd<T>(k: seq<T>, l: seq<T>, i: seq<T>, a: seq<T>)
    requires k + l == i + l + a
    ensures (l + a)[|a|..] == l
  {
    assert (k + l)[|k|..] == l;
    assert (i + (l + a))[|i|..] == l + a && i + l + a == i + (l + a);
    assert (i + l + a)[|k|..] == (l + a)[|a|..];
  }

  /** git's delivery asks for no more than `Faithful` says. */
  lemma GitNeeds(w: Walk, h: Pair -> seq<Setting>, cli: bool)
    requires var v, l := Heads(EnvBlocks(w)), Line(w.line);
      Middle(h, cli, v, l) == Spread(h, Heads(w.inherited)) + Spread(h, l) + Spread(h, Aliases(w.alias))
    ensures Faithful(w, h, cli)
  {
    hide *;
    var v, l, i, a := Heads(EnvBlocks(w)), Line(w.line), Heads(w.inherited), Aliases(w.alias);
    FaithfulIs(w, h, cli);
    FullLength(w, h, cli);
    forall k | 0 <= k < |w.line| && Uncopied(w.line[k])
      ensures l[k] !in i && l[k] !in a && CliTells(h, cli, l[k]) == Holds(h, l[k])
    {
      UncopiedAlone(w, h, cli, k);
    }
    LineToldAt(h, cli, l, Stripped(v, l), |l|);
    assert l[..|l|] == l;
    MiddleIs(h, cli, v, l);
    SpreadConcat(h, Strip(v, l), l);
    SpreadConcat(h, i + l, a);
    SpreadConcat(h, i, l);
    SpreadSame(h, Strip(v, l) + l, i + l + a);
    StillTheEnd(Strip(v, l), l, i, a);
  }

  lemma GitGets(w: Walk, h: Pair -> seq<Setting>, cli: bool)
    requires WalkOk(w) && Faithful(w, h, cli)
    ensures var v, l := Heads(EnvBlocks(w)), Line(w.line);
      Middle(h, cli, v, l) == Spread(h, Heads(w.inherited)) + Spread(h, l) + Spread(h, Aliases(w.alias))
  {
    hide *;
    var v, l, i, a := Heads(EnvBlocks(w)), Line(w.line), Heads(w.inherited), Aliases(w.alias);
    FaithfulIs(w, h, cli);
    KeptIs(w, h, cli);
    forall k | 0 <= k < |l|
      ensures Behind(h, cli, l, Stripped(v, l), k) == Holds(h, l[k])
    {
      ToldInFull(w, h, cli, k);
    }
    LineToldAt(h, cli, l, Stripped(v, l), |l|);
    assert l[..|l|] == l;
    MiddleIs(h, cli, v, l);
    var z := (l + a)[..|a|];
    SpreadConcat(h, i + z, l);
    SpreadConcat(h, i, z);
    SpreadConcat(h, i + l, a);
    SpreadConcat(h, i, l);
    assert l + a == z + (l + a)[|a|..];
    assert i + z + l == i + (z + l) && i + l + a == i + (l + a);
  }

  /**
   The replay of a walk is git's delivery if and only if the walk is `Faithful`: for all repeats
   and collisions with inherited entries, whatever is included.
   */
  lemma GitsOrder(w: Walk, s: Splice, h: Pair -> seq<Setting>, cli: bool)
    requires WalkOk(w) && IsSplice(Entries(w), Overrides(w), s) && Reads(w, h, cli)
    ensures Fits(Entries(w), Overrides(w), s)
    ensures Told(Ordered(Entries(w), Overrides(w), s)) == Git(w, h) <==> Faithful(w, h, cli)
  {
    hide *;
    var v, l := Heads(EnvBlocks(w)), Line(w.line);
    var files, rest := Told(Items(w.files)), Told(Items(w.rest));
    var mine, git := Middle(h, cli, v, l), Spread(h, Heads(w.inherited)) + Spread(h, l) + Spread(h, Aliases(w.alias));
    OutcomeTold(w, s, h, cli);
    GitIs(w, h);
    MiddleIs(h, cli, v, l);
    assert Told(Ordered(Entries(w), Overrides(w), s)) == files + mine + rest;
    assert Git(w, h) == files + git + rest;
    if Told(Ordered(Entries(w), Overrides(w), s)) == Git(w, h) {
      SameEnds(files, mine, git, rest);
      GitNeeds(w, h, cli);
    }
    if Faithful(w, h, cli) { GitGets(w, h, cli); }
  }

  // ---- the plain case --------------------------------------------------------------------------------

  /** The command line is all there is, and every override with a value has its environment copy. */
  predicate Plain(w: Walk) { w.alias == [] && forall k :: 0 <= k < |w.line| ==> !Uncopied(w.line[k]) }

  /** What override `d` pulled in. */
  function Pulled(d: Delivered): seq<Entry> {
    if d.fromEnv.Some? then d.fromEnv.value else if EQUALS in d.typed.key then [] else d.fromCli
  }

  function GitLine(line: seq<Delivered>, n: nat): seq<Item>
    requires n <= |line|
  {
    if n == 0 then []
    else
      var d := line[n - 1];
      GitLine(line, n - 1) + [Typed(NormalizeKey(d.typed.key), d.typed.value)] + Items(Pulled(d))
  }

  lemma PlainCount(w: Walk, n: nat, s: Setting)
    requires Plain(w) && n <= |w.line| && s.value.Some?
    ensures |Line(w.line)| == |w.line|
    ensures P.Count(Heads(Copies(w.line[..n])), s) == P.Count(Line(w.line)[..n], s)
  {
    hide P.Count, NormalizeKey, Heads, Copies;
    CopyCount(w.line[..n], s);
    assert Line(w.line)[..n] == Line(w.line[..n]);
    assert forall k :: 0 <= k < n ==> !Uncopied(w.line[..n][k]);
  }

  lemma PlainBlocks(w: Walk)
    requires w.alias == []
    ensures EnvBlocks(w) == w.inherited + Copies(w.line)
    ensures Heads(EnvBlocks(w)) == Heads(w.inherited) + Heads(Copies(w.line))
  {
    hide Copies;
    assert EnvBlocks(w) == w.inherited + Copies(w.line) + [];
    HeadsConcat(w.inherited, Copies(w.line));
  }

  /** The copies go, and nothing inherited does. */
  lemma PlainTaken(w: Walk, j: nat)
    requires WalkOk(w) && Plain(w) && j < |EnvBlocks(w)|
    ensures |Tags(EnvBlocks(w))| == |EnvBlocks(w)|
    ensures Taken(Tags(EnvBlocks(w)), PairsOf(Overrides(w)), j) <==> j >= |w.inherited|
  {
    hide *;
    var v, l, c := Heads(EnvBlocks(w)), Line(w.line), Heads(Copies(w.line));
    var i := Heads(w.inherited);
    PlainIs(w);
    PlainBlocks(w);
    EnvValued(w);
    HeadsAre(EnvBlocks(w));
    HeadsAre(w.inherited);
    var s := v[j];
    TakenAsSetting(w, j);
    TakenIs(v, l, j);
    PlainCount(w, |w.line|, s);
    assert w.line[..|w.line|] == w.line && l[..|w.line|] == l;
    if j >= |i| {
      assert v[j + 1..] == c[j - |i| + 1..];
      OwnCount(c, j - |i|);
    } else {
      assert v[j + 1..] == i[j + 1..] + c;
      P.CountConcat(i[j + 1..], c, s);
    }
  }

  lemma PlainIs(w: Walk)
    requires Plain(w)
    ensures w.alias == [] && forall k :: 0 <= k < |w.line| ==> w.line[k].typed.value.Some? ==> w.line[k].fromEnv.Some?
  {
  }

  lemma {:induction false} PlainLeft(w: Walk, n: nat)
    requires WalkOk(w) && Plain(w) && n <= |EnvBlocks(w)|
    ensures Left(EnvBlocks(w), PairsOf(Overrides(w)), n) == if n <= |w.inherited| then w.inherited[..n] else w.inherited
  {
    hide *;
    var bs, pairs := EnvBlocks(w), PairsOf(Overrides(w));
    if n == 0 {
      LeftNothing(bs, pairs);
    } else {
      PlainLeft(w, n - 1);
      PlainTaken(w, n - 1);
      LeftIs(bs, pairs, n - 1);
      PlainIs(w);
      PlainBlocks(w);
    }
  }

  /** The copy of override `k` among the blocks of the environment. */
  lemma {:induction false} CopyAtLine(line: seq<Delivered>, k: nat)
    requires k < |line| && line[k].fromEnv.Some?
    ensures |Copies(line[..k])| < |Copies(line)|
    ensures Copies(line)[..|Copies(line[..k])|] == Copies(line[..k])
    ensures Copies(line)[|Copies(line[..k])|] == EnvBlock(line[k].typed, line[k].fromEnv.value)
  {
    hide NormalizeKey;
    var n := |line| - 1;
    if k < n {
      CopyAtLine(line[..n], k);
      assert line[..n][..k] == line[..k];
    } else {
      assert line[..n] == line[..k];
    }
  }

  /** Block `m` goes for the pair of the include line `k` exactly when it is a copy of one. */
  lemma CopyTag(w: Walk, k: nat, m: nat)
    requires WalkOk(w) && Plain(w) && k < |w.line| && m < |EnvBlocks(w)|
    requires w.line[k].typed.value.Some? && IsIncludeKey(Typing(w.line[k].typed).key)
    ensures |TakenIncludes(EnvBlocks(w), PairsOf(Overrides(w)))| == |Heads(EnvBlocks(w))| == |EnvBlocks(w)|
    ensures |PairsOf(Overrides(w))| == |w.line|
    ensures TakenIncludes(EnvBlocks(w), PairsOf(Overrides(w)))[m] == PairsOf(Overrides(w))[k] <==>
      m >= |w.inherited| && Heads(EnvBlocks(w))[m] == Typing(w.line[k].typed)
  {
    hide *;
    PairsAre(w);
    PulledIs(w.line[k]);
    TakenIncludesAre(EnvBlocks(w), PairsOf(Overrides(w)));
    EnvValued(w);
    PlainTaken(w, m);
    HeadsAre(EnvBlocks(w));
  }

  /** Where the copy of the include line `k` stands, and how many of its pair go before it. */
  lemma CopyPlace(w: Walk, k: nat, j: nat)
    requires WalkOk(w) && Plain(w) && k < |w.line|
    requires w.line[k].typed.value.Some? && IsIncludeKey(Typing(w.line[k].typed).key) && w.line[k].fromEnv.Some?
    requires j == |w.inherited| + |Copies(w.line[..k])|
    ensures j < |EnvBlocks(w)| && EnvBlocks(w)[j].run == w.line[k].fromEnv.value
    ensures |TakenIncludes(EnvBlocks(w), PairsOf(Overrides(w)))| == |EnvBlocks(w)|
    ensures |PairsOf(Overrides(w))| == |w.line|
    ensures TakenIncludes(EnvBlocks(w), PairsOf(Overrides(w)))[j] == PairsOf(Overrides(w))[k]
    ensures P.Count(TakenIncludes(EnvBlocks(w), PairsOf(Overrides(w)))[..j], PairsOf(Overrides(w))[k]) ==
      P.Count(PairsOf(Overrides(w))[..k], PairsOf(Overrides(w))[k])
  {
    hide *;
    var d, bs, pairs, i, c := w.line[k], EnvBlocks(w), PairsOf(Overrides(w)), |w.inherited|, Copies(w.line[..k]);
    var t, s := TakenIncludes(bs, pairs), Typing(d.typed);
    CopyAtLine(w.line, k);
    PlainIs(w);
    PlainBlocks(w);
    PulledIs(d);
    assert bs[j] == Copies(w.line)[|c|];
    BlockHead(d.typed, d.fromEnv.value);
    HeadsAre(bs);
    HeadsAre(c);
    PairsAre(w);
    forall m | 0 <= m < |bs|
      ensures |t| == |bs| && (t[m] == pairs[k] <==> m >= i && Heads(bs)[m] == s)
    {
      CopyTag(w, k, m);
    }
    LineCounts(w, k, s);
    PlainCount(w, k, s);
    P.CountCut(t[..j], i, pairs[k]);
    P.CountNone(t[..j][..i], pairs[k]);
    assert forall m :: 0 <= m < |c| ==> bs[i + m] == c[m];
    CountAlike(t[..j][i..], pairs[k], Heads(c), s);
  }

  /** Behind an override goes what its own copy included. */
  lemma PlainPulled(w: Walk, k: nat)
    requires WalkOk(w) && Plain(w) && k < |w.line|
    ensures PulledRun(w, k) == Pulled(w.line[k])
  {
    hide *;
    var d, bs, pairs := w.line[k], EnvBlocks(w), PairsOf(Overrides(w));
    var t := TakenIncludes(bs, pairs);
    PlainIs(w);
    PairsAre(w);
    PulledCases(w, k);
    PulledIs(d);
    TakenIncludesAre(bs, pairs);
    DeliveredHas(w, k);
    if d.typed.value.Some? && IsIncludeKey(Typing(d.typed).key) {
      var j := |w.inherited| + |Copies(w.line[..k])|;
      CopyPlace(w, k, j);
      P.PlaceAt(t, j);
    } else if d.typed.value.Some? {
      EnvValued(w);
      P.CountNone(t, pairs[k]);
    }
  }

  lemma PulledIs(d: Delivered)
    ensures Pulled(d) == if d.fromEnv.Some? then d.fromEnv.value else if EQUALS in d.typed.key then [] else d.fromCli
    ensures Typing(d.typed).value == d.typed.value
  {
    hide NormalizeKey;
  }

  lemma BlockHead(o: Override, run: seq<Entry>)
    ensures EnvBlock(o, run).run == run
    ensures Setting(EnvBlock(o, run).head.key, EnvBlock(o, run).head.value) == Typing(o)
  {
    hide NormalizeKey;
  }

  lemma DeliveredHas(w: Walk, k: nat)
    requires WalkOk(w) && k < |w.line|
    ensures w.line[k].fromEnv.Some? ==> w.line[k].typed.value.Some?
    ensures !IsIncludeKey(Typing(w.line[k].typed).key) ==>
      w.line[k].fromCli == [] && (w.line[k].fromEnv.Some? ==> w.line[k].fromEnv.value == [])
  {
    hide IsIncludeKey, NormalizeKey;
    assert DeliveredOk(w.line[k]);
  }

  lemma {:induction false} PlainLine(w: Walk, n: nat)
    requires WalkOk(w) && Plain(w) && n <= |w.line|
    ensures ToldLine(w, n) == GitLine(w.line, n)
  {
    hide WalkOk, Plain, NormalizeKey, PulledRun, Pulled, Items;
    if n > 0 {
      PlainLine(w, n - 1);
      PlainPulled(w, n - 1);
    }
  }

  /**
   Over a plain walk, whatever was included, the replay is: the files, the inherited environment,
   every `-c` as typed in argv order, each followed by what it included, and what outranks them.
   */
  lemma SpliceIsGit(w: Walk, s: Splice)
    requires WalkOk(w) && Plain(w) && IsSplice(Entries(w), Overrides(w), s)
    ensures Fits(Entries(w), Overrides(w), s)
    ensures Ordered(Entries(w), Overrides(w), s) ==
      Items(w.files) + Items(Flat(w.inherited)) + GitLine(w.line, |w.line|) + Items(w.rest)
  {
    hide *;
    Outcome(w, s);
    PlainIs(w);
    PlainBlocks(w);
    PlainLeft(w, |EnvBlocks(w)|);
    PlainLine(w, |w.line|);
    assert w.inherited[..|w.inherited|] == w.inherited;
  }

  // ---- where git's order is lost -----------------------------------------------------------------------

  /** `a.b` */
  const KEY: Bytes := [97, 46, 98]

  lemma KeyIs()
    ensures NormalizeKey(KEY) == KEY && !IsIncludeKey(KEY) && EQUALS !in KEY
  {
    NormalizeAt(KEY);
    assert forall i :: 0 <= i < 3 ==> Lower(KEY[i]) == KEY[i];
  }

  function Set(value: Byte): Override { Override(KEY, Some([value])) }

  lemma SetIs(value: Byte, h: Pair -> seq<Setting>)
    ensures Typing(Set(value)) == Setting(KEY, Some([value])) && Holds(h, Typing(Set(value))) == []
    ensures EnvBlock(Set(value), []) == Block(Entry(Env, KEY, Some([value]), 0), []) && EnvOk(EnvBlock(Set(value), []))
  {
    hide NormalizeKey, IsIncludeKey;
    KeyIs();
  }

  lemma FewCounts(x: Setting, y: Setting)
    ensures P.Count([], y) == 0 && P.Count([x], y) == if x == y then 1 else 0
  {
    P.CountsNothing<Setting>();
    P.Snoc([], x, y);
    assert [] + [x] == [x];
  }

  /** `git -c a.b=1 al`, where `alias.al` begins `-c a.b=2`. */
  function AliasWalk(): Walk {
    Walk([], [], [Delivered(Set(49), Some([]), Some([49]), [])], [Aliased(Set(50), [])], [])
  }

  lemma FirstGoes(one: Setting, two: Setting)
    requires one != two
    ensures Strip([one, two], [one]) == [two]
  {
    hide Strip, P.Count;
    var v, l := [one, two], [one];
    FewCounts(two, one);
    FewCounts(one, one);
    FewCounts(one, two);
    assert v[0..] == v && v[1..] == [two] && v[2..] == [];
    StripNext(v, l, 0);
    StripNext(v, l, 1);
    StripNothing(l);
  }

  lemma OnlyGoes(one: Setting)
    ensures Strip([one], [one]) == []
  {
    hide Strip, P.Count;
    var l := [one];
    FewCounts(one, one);
    assert l[0..] == l && l[1..] == [];
    StripNext(l, l, 0);
    StripNothing(l);
  }

  lemma NoItems()
    ensures Told(Items([])) == []
  {
  }

  /** What an alias adds stands in the environment alone, and is told ahead of the line it should follow. */
  lemma AliasComesFirst(h: Pair -> seq<Setting>, cli: bool)
    ensures var w := AliasWalk();
      var s, one, two := PlanOf(Entries(w), Overrides(w)), Setting(KEY, Some([49])), Setting(KEY, Some([50]));
      && WalkOk(w) && Fits(Entries(w), Overrides(w), s) && Told(Ordered(Entries(w), Overrides(w), s)) == [two, one]
      && Git(w, h) == [one, two] && !Faithful(w, h, cli)
  {
    hide *;
    var w, one, two := AliasWalk(), Typing(Set(49)), Typing(Set(50));
    SetIs(49, h);
    SetIs(50, h);
    AliasWalkIs(h, cli);
    var s := PlanOf(Entries(w), Overrides(w));
    OutcomeTold(w, s, h, cli);
    GitsOrder(w, s, h, cli);
    GitIs(w, h);
    SpreadOne(h, one);
    SpreadOne(h, two);
    FirstGoes(one, two);
    LineOne(h, cli, one, Stripped([one, two], [one]));
    NoItems();
    ToldTwo(one, two);
  }

  lemma ToldTwo(one: Setting, two: Setting)
    ensures [] + [two] + [one] + [] == [two, one] && [] + [] + [one] + [two] + [] == [one, two]
    ensures one != two ==> [one, two] != [two, one]
  {
    assert one != two ==> [one, two][0] != [two, one][0];
  }

  lemma LineOne(h: Pair -> seq<Setting>, cli: bool, s: Setting, gone: seq<Setting>)
    requires Holds(h, s) == []
    ensures LineTold(h, cli, [s], gone, 1) == [s]
  {
    hide P.Count;
  }

  lemma AliasWalkIs(h: Pair -> seq<Setting>, cli: bool)
    ensures var w, one, two := AliasWalk(), Typing(Set(49)), Typing(Set(50));
      && WalkOk(w) && Reads(w, h, cli) && w.files == w.rest == [] && |w.line| == 1
      && Heads(w.inherited) == [] && Heads(EnvBlocks(w)) == [one, two]
      && Line(w.line) == [one] && Aliases(w.alias) == [two]
  {
    hide NormalizeKey, IsIncludeKey;
    SetIs(49, h);
    SetIs(50, h);
    var w := AliasWalk();
    assert w.line[..0] == [] && w.alias[..0] == [];
    assert EnvBlocks(w) == [EnvBlock(Set(49), []), EnvBlock(Set(50), [])];
  }

  /** `GIT_CONFIG_COUNT` holds `a.b=1`, and so does a `GIT_CONFIG_PARAMETERS` that came without a copy of it. */
  function HandedWalk(): Walk {
    Walk([], [EnvBlock(Set(49), [])], [Delivered(Set(49), None, Some([49]), [])], [], [])
  }

  /** The inherited entry is taken for the copy that was never made, and is not told. */
  lemma InheritedIsLost(h: Pair -> seq<Setting>, cli: bool)
    ensures var w := HandedWalk();
      var s, one := PlanOf(Entries(w), Overrides(w)), Setting(KEY, Some([49]));
      && WalkOk(w) && Fits(Entries(w), Overrides(w), s) && Told(Ordered(Entries(w), Overrides(w), s)) == [one]
      && Git(w, h) == [one, one] && !Faithful(w, h, cli)
  {
    hide *;
    var w, one := HandedWalk(), Typing(Set(49));
    SetIs(49, h);
    HandedWalkIs(h, cli);
    var s := PlanOf(Entries(w), Overrides(w));
    OutcomeTold(w, s, h, cli);
    GitsOrder(w, s, h, cli);
    GitIs(w, h);
    SpreadOne(h, one);
    OnlyGoes(one);
    LineOne(h, cli, one, Stripped([one], [one]));
    NoItems();
    assert [] + [] + [one] + [] == [one] && [] + [one] + [one] + [] + [] == [one, one];
  }

  lemma HandedWalkIs(h: Pair -> seq<Setting>, cli: bool)
    ensures var w, one := HandedWalk(), Typing(Set(49));
      && WalkOk(w) && Reads(w, h, cli) && w.files == w.rest == [] && |w.line| == 1
      && Heads(w.inherited) == Heads(EnvBlocks(w)) == Line(w.line) == [one] && Aliases(w.alias) == []
  {
    hide NormalizeKey, IsIncludeKey;
    SetIs(49, h);
    var w := HandedWalk();
    assert w.line[..0] == [];
    assert EnvBlocks(w) == w.inherited;
  }

  /** What a child walks for a `-c` whose key holds `=`, behind `parents`: it makes an environment copy of its own. */
  function ChildWalk(o: Override, parents: seq<Block>): Walk {
    Walk([], parents, [Delivered(o, Some([]), None, [])], [], [])
  }

  /**
   A parent of the same program has made a copy too, which is inherited and stays: the override is told twice, and
   only once below a parent that has not.
   */
  lemma EqualsToldTwice(o: Override)
    requires EQUALS in o.key && o.value.Some?
    ensures var w := ChildWalk(o, [EnvBlock(o, [])]);
      var s := PlanOf(Entries(w), Overrides(w));
      && WalkOk(w) && Fits(Entries(w), Overrides(w), s)
      && Told(Ordered(Entries(w), Overrides(w), s)) == [Typing(o), Typing(o)]
    ensures var w := ChildWalk(o, []);
      var s := PlanOf(Entries(w), Overrides(w));
      && WalkOk(w) && Fits(Entries(w), Overrides(w), s) && Told(Ordered(Entries(w), Overrides(w), s)) == [Typing(o)]
  {
    hide *;
    ChildTold(o, [EnvBlock(o, [])]);
    ChildTold(o, []);
    ToldBlock(o);
    FlatNothing();
    NoItems();
    assert [Typing(o)] + [Typing(o)] == [Typing(o), Typing(o)] && [] + [Typing(o)] == [Typing(o)];
  }

  lemma ToldBlock(o: Override)
    ensures Told(Items(Flat([EnvBlock(o, [])]))) == [Typing(o)]
  {
    hide NormalizeKey;
    var b := EnvBlock(o, []);
    FlatSnoc([], b);
    FlatNothing();
    assert [] + [b] == [b] && [] + ([b.head] + b.run) == [b.head];
    ToldHead(b.head);
  }

  lemma ChildTold(o: Override, parents: seq<Block>)
    requires EQUALS in o.key && o.value.Some? && (parents == [] || parents == [EnvBlock(o, [])])
    ensures var w := ChildWalk(o, parents);
      var s := PlanOf(Entries(w), Overrides(w));
      && WalkOk(w) && Fits(Entries(w), Overrides(w), s)
      && Told(Ordered(Entries(w), Overrides(w), s)) == Told(Items(Flat(parents))) + [Typing(o)]
  {
    hide *;
    var w := ChildWalk(o, parents);
    var s := PlanOf(Entries(w), Overrides(w));
    ChildWalkIs(o, parents);
    SpliceIsGit(w, s);
    ToldTyped(o);
    var f, t := Items(Flat(parents)), [Typed(NormalizeKey(o.key), o.value)];
    assert Items([]) == [] && [] + f + t + [] == f + t;
    ToldConcat(f, t);
  }

  lemma ChildWalkIs(o: Override, parents: seq<Block>)
    requires EQUALS in o.key && o.value.Some? && (parents == [] || parents == [EnvBlock(o, [])])
    ensures var w := ChildWalk(o, parents);
      && WalkOk(w) && Plain(w) && w.files == [] && w.inherited == parents && w.rest == []
      && GitLine(w.line, |w.line|) == [Typed(NormalizeKey(o.key), o.value)]
  {
    hide NormalizeKey, IsIncludeKey;
    var w, typed := ChildWalk(o, parents), [Typed(NormalizeKey(o.key), o.value)];
    assert GitLine(w.line, 0) == [] && Items([]) == [];
    assert [] + typed + [] == typed;
    assert GitLine(w.line, 1) == GitLine(w.line, 0) + typed + Items(Pulled(w.line[0]));
  }
}
