/**
 `normalize_key`, `command_line_splice` and the replay of config.rs: how two deliveries of the
 command line are found in a merged walk and folded into one.
 */
module CommandLine {
  import opened Bytes
  import opened ConfigKey
  import opened Integers
  import opened Optional
  import P = Places

  // ---- keys -------------------------------------------------------------------------------

  /** The index of the last dot, or nothing. */
  function LastDot(s: Bytes): (d: Option<nat>)
    ensures d.Some? ==> d.value < |s| && s[d.value] == DOT && forall i :: d.value < i < |s| ==> s[i] != DOT
    ensures d.None? ==> DOT !in s
  {
    if s == [] then None
    else if s[|s| - 1] == DOT then Some(|s| - 1)
    else
      var d := LastDot(s[..|s| - 1]);
      assert s == s[..|s| - 1] + [s[|s| - 1]];
      d
  }

  /** `normalize_key` */
  function NormalizeKey(key: Bytes): Bytes {
    var d := FirstDot(key);
    if d == |key| then LowerAll(key)
    else
      var rest := key[d + 1..];
      match LastDot(rest)
      case None => LowerAll(key[..d]) + [DOT] + LowerAll(rest)
      case Some(l) => LowerAll(key[..d]) + [DOT] + rest[..l] + [DOT] + LowerAll(rest[l + 1..])
  }

  /** The last dot, the first one's place when there is no other, or the length. */
  function FoldEnd(key: Bytes): (e: nat) {
    var d := FirstDot(key);
    if d == |key| then d
    else match LastDot(key[d + 1..])
      case None => d
      case Some(l) => d + 1 + l
  }

  lemma NormalizeAt(key: Bytes)
    ensures |NormalizeKey(key)| == |key|
    ensures forall i :: 0 <= i < |key| ==>
      NormalizeKey(key)[i] == if FirstDot(key) <= i <= FoldEnd(key) then key[i] else Lower(key[i])
  {
    hide FirstDot, LastDot, LowerAll;
    var d := FirstDot(key);
    if d < |key| {
      var a, rest := key[..d], key[d + 1..];
      match LastDot(rest) {
        case None =>
          FoldedAround(a, [DOT], rest);
          assert key == a + [DOT] + rest;
        case Some(l) =>
          var middle, z := [DOT] + rest[..l] + [DOT], rest[l + 1..];
          FoldedAround(a, middle, z);
          KeyParts(key, d, l);
          JoinsAlike(LowerAll(a), rest[..l], LowerAll(z));
      }
    }
  }

  /** Around a middle that keeps its spelling the rest folds. */
  lemma FoldedAround(a: Bytes, m: Bytes, z: Bytes)
    ensures var n, key := LowerAll(a) + m + LowerAll(z), a + m + z;
      |n| == |key| && forall i :: 0 <= i < |key| ==> n[i] == if |a| <= i < |a| + |m| then key[i] else Lower(key[i])
  {
    hide LowerAll;
  }

  lemma KeyParts(key: Bytes, d: nat, l: nat)
    requires d < |key| && key[d] == DOT && d + 1 + l < |key| && key[d + 1 + l] == DOT
    ensures key == key[..d] + ([DOT] + key[d + 1..][..l] + [DOT]) + key[d + 1..][l + 1..]
  {
    assert key[d + 1..] == key[d + 1..][..l] + [DOT] + key[d + 1..][l + 1..];
    assert key == key[..d] + ([DOT] + key[d + 1..]);
  }

  lemma JoinsAlike(a: Bytes, m: Bytes, z: Bytes)
    ensures a + [DOT] + m + [DOT] + z == a + ([DOT] + m + [DOT]) + z
  {
  }

  lemma FoldEndIsLast(key: Bytes, b: nat)
    requires SplitsAt(key, b)
    ensures FoldEnd(key) == b
  {
    hide LastDot;
    var d := FirstDot(key);
    assert d <= b;
    var rest := key[d + 1..];
    if b > d { assert rest[b - d - 1] == key[b]; }
    if LastDot(rest).Some? {
      assert rest[LastDot(rest).value] == key[d + 1 + LastDot(rest).value];
    }
  }

  /** Where `parse_config_key` accepts a key, it spells it as `normalize_key` does. */
  lemma NormalizeIsCanonical(key: Bytes, b: nat)
    requires SplitsAt(key, b)
    ensures NormalizeKey(key) == Canonical(key, b)
  {
    hide FirstDot, NormalizeKey, FoldEnd;
    NormalizeAt(key);
    FoldEndIsLast(key, b);
    FirstDotSplit(key, b);
    forall i | 0 <= i < |key|
      ensures NormalizeKey(key)[i] == Canonical(key, b)[i]
    {
      if i == b { assert Lower(DOT) == DOT; }
    }
  }

  lemma FirstDotSplit(key: Bytes, b: nat)
    requires SplitsAt(key, b)
    ensures FirstDot(key) <= b
  {
  }

  lemma NormalizeKeepsEquals(key: Bytes)
    ensures EQUALS in NormalizeKey(key) <==> EQUALS in key
  {
    hide FirstDot, NormalizeKey, FoldEnd;
    NormalizeAt(key);
    var n := NormalizeKey(key);
    assert forall i :: 0 <= i < |key| ==> (n[i] == EQUALS <==> key[i] == EQUALS);
    if EQUALS in n { var i :| 0 <= i < |n| && n[i] == EQUALS; assert key[i] == EQUALS; }
    if EQUALS in key { var i :| 0 <= i < |key| && key[i] == EQUALS; assert n[i] == EQUALS; }
  }

  const INCLUDE_PATH: Bytes := [105, 110, 99, 108, 117, 100, 101, 46, 112, 97, 116, 104]
  const INCLUDEIF: Bytes := [105, 110, 99, 108, 117, 100, 101, 105, 102, 46]
  const DOT_PATH: Bytes := [46, 112, 97, 116, 104]

  /** `is_include_key`: `include.path`, or `includeif.` and `.path` at the ends. */
  predicate IsIncludeKey(key: Bytes) {
    key == INCLUDE_PATH || (|key| >= 10 && key[..10] == INCLUDEIF && key[|key| - 5..] == DOT_PATH)
  }

  // ---- the walk ---------------------------------------------------------------------------

  datatype Source = File | Env | Cli | Api | EnvOverride

  /** One entry of a merged walk; `level` counts the includes that led to it. */
  datatype Entry = Entry(source: Source, key: Bytes, value: Option<Bytes>, level: nat)

  /** One `-c key[=value]` as typed. */
  datatype Override = Override(key: Bytes, value: Option<Bytes>)

  datatype Pair = Pair(key: Bytes, value: Bytes)

  /** What an environment entry may be a copy of. */
  function EnvTag(e: Entry): Option<Pair> {
    if e.source == Env && e.level == 0 && e.value.Some? then Some(Pair(e.key, e.value.value)) else None
  }

  function CliTag(e: Entry): Option<Bytes> {
    if e.source == Cli && e.level == 0 then Some(e.key) else None
  }

  function EnvTags(es: seq<Entry>): (t: seq<Option<Pair>>)
    ensures |t| == |es| && forall i :: 0 <= i < |es| ==> t[i] == EnvTag(es[i])
  {
    seq(|es|, i requires 0 <= i < |es| => EnvTag(es[i]))
  }

  function CliTags(es: seq<Entry>): (t: seq<Option<Bytes>>)
    ensures |t| == |es| && forall i :: 0 <= i < |es| ==> t[i] == CliTag(es[i])
  {
    seq(|es|, i requires 0 <= i < |es| => CliTag(es[i]))
  }

  /** The pair an override puts into the environment, if it does. */
  function PairOf(o: Override): Option<Pair> {
    if o.value.Some? then Some(Pair(NormalizeKey(o.key), o.value.value)) else None
  }

  function PairsOf(os: seq<Override>): (t: seq<Option<Pair>>)
    ensures |t| == |os| && forall i :: 0 <= i < |os| ==> t[i] == PairOf(os[i])
  {
    seq(|os|, i requires 0 <= i < |os| => PairOf(os[i]))
  }

  function KeysOf(os: seq<Override>): (t: seq<Option<Bytes>>)
    ensures |t| == |os| && forall i :: 0 <= i < |os| ==> t[i] == Some(NormalizeKey(os[i].key))
  {
    seq(|os|, i requires 0 <= i < |os| => Some(NormalizeKey(os[i].key)))
  }

  // ---- which entries are copies -----------------------------------------------------------

  /**
   Entry `i` is the environment copy of an override: taken from the end, as many as there are overrides of its pair.
   */
  predicate EnvCopy(es: seq<Entry>, os: seq<Override>, i: nat)
    requires i < |es|
  {
    EnvTag(es[i]).Some? && P.Count(EnvTags(es)[i + 1..], EnvTag(es[i])) < P.Count(PairsOf(os), EnvTag(es[i]))
  }

  /** Entry `i` is the command-line section of an override: taken from the front. */
  predicate CliCopy(es: seq<Entry>, os: seq<Override>, i: nat)
    requires i < |es|
  {
    CliTag(es[i]).Some? && P.Count(CliTags(es)[..i], CliTag(es[i])) < P.Count(KeysOf(os), CliTag(es[i]))
  }

  predicate IsCopy(es: seq<Entry>, os: seq<Override>, i: nat)
    requires i < |es|
  {
    EnvCopy(es, os, i) || CliCopy(es, os, i)
  }

  /** The end of the run of deeper entries of one source behind entry `i`. */
  function IncludedEnd(es: seq<Entry>, i: nat): (j: nat)
    requires i < |es|
    ensures i < j <= |es|
    ensures forall k :: i < k < j ==> es[k].level > es[i].level && es[k].source == es[i].source
    ensures j < |es| ==> es[j].level <= es[i].level || es[j].source != es[i].source
  {
    RunEnd(es, i, i + 1)
  }

  function RunEnd(es: seq<Entry>, i: nat, j: nat): (k: nat)
    requires i < j <= |es|
    ensures j <= k <= |es|
    ensures forall m :: j <= m < k ==> es[m].level > es[i].level && es[m].source == es[i].source
    ensures k < |es| ==> es[k].level <= es[i].level || es[k].source != es[i].source
    decreases |es| - j
  {
    if j == |es| || es[j].level <= es[i].level || es[j].source != es[i].source then j else RunEnd(es, i, j + 1)
  }

  /** `included_after` */
  method IncludedAfter(es: seq<Entry>, at: nat) returns (end: nat)
    requires at < |es|
    ensures end == IncludedEnd(es, at)
  {
    end := at + 1;
    while end < |es| && !(es[end].level <= es[at].level || es[end].source != es[at].source)
      invariant at < end <= |es| && RunEnd(es, at, end) == IncludedEnd(es, at)
    {
      end := end + 1;
    }
  }

  /** Entry `j` was pulled in by a copied include line. */
  predicate PulledIn(es: seq<Entry>, os: seq<Override>, j: nat)
    requires j < |es|
  {
    exists i :: 0 <= i < j && IsCopy(es, os, i) && IsIncludeKey(es[i].key) && j < IncludedEnd(es, i)
  }

  /** The include lines among the environment copies. */
  function IncludeTags(es: seq<Entry>, os: seq<Override>): (t: seq<Option<Pair>>)
    ensures |t| == |es|
    ensures forall i :: 0 <= i < |es| ==>
      t[i] == if EnvCopy(es, os, i) && IsIncludeKey(es[i].key) then EnvTag(es[i]) else None
  {
    seq(|es|, i requires 0 <= i < |es| => if EnvCopy(es, os, i) && IsIncludeKey(es[i].key) then EnvTag(es[i]) else None)
  }

  datatype Span = Span(from: nat, end: nat)

  /** What the environment copy of override `k` included. */
  function FromEnv(es: seq<Entry>, os: seq<Override>, k: nat): (r: Option<Span>)
    requires k < |os|
    ensures r.Some? ==> r.value.from <= r.value.end <= |es|
  {
    var p := PairOf(os[k]);
    var m := P.Count(PairsOf(os)[..k], p);
    if p.Some? && m < P.Count(IncludeTags(es, os), p) then
      var i := P.Of(IncludeTags(es, os), p)[m];
      Some(Span(i + 1, IncludedEnd(es, i)))
    else None
  }

  /** What the command-line section of override `k` included. */
  function FromCli(es: seq<Entry>, os: seq<Override>, k: nat): (r: Option<Span>)
    requires k < |os|
    ensures r.Some? ==> r.value.from <= r.value.end <= |es|
  {
    var key := Some(NormalizeKey(os[k].key));
    var m := P.Count(KeysOf(os)[..k], key);
    if IsIncludeKey(key.value) && m < P.Count(CliTags(es), key) then
      var i := P.Of(CliTags(es), key)[m];
      Some(Span(i + 1, IncludedEnd(es, i)))
    else None
  }

  function Included(es: seq<Entry>, os: seq<Override>, k: nat): (r: Span)
    requires k < |os|
    ensures r.from <= r.end <= |es|
  {
    if FromEnv(es, os, k).Some? then FromEnv(es, os, k).value
    else if FromCli(es, os, k).Some? then FromCli(es, os, k).value
    else Span(0, 0)
  }

  predicate AfterEnv(s: Source) { s == Cli || s == Api || s == EnvOverride }

  /** Where the command line goes: ahead of the first section of a later source. */
  function SpliceAt(es: seq<Entry>): (at: nat)
    ensures at <= |es| && (at < |es| ==> AfterEnv(es[at].source)) && forall i :: 0 <= i < at ==> !AfterEnv(es[i].source)
  {
    if es == [] || AfterEnv(es[0].source) then 0 else 1 + SpliceAt(es[1..])
  }

  datatype Splice = Splice(drop: seq<bool>, included: seq<Span>, at: nat)

  ghost predicate IsSplice(es: seq<Entry>, os: seq<Override>, s: Splice) {
    && |s.drop| == |es| && (forall i :: 0 <= i < |es| ==> (s.drop[i] <==> IsCopy(es, os, i) || PulledIn(es, os, i)))
    && |s.included| == |os| && (forall k :: 0 <= k < |os| ==> s.included[k] == Included(es, os, k))
    && s.at == SpliceAt(es)
  }

  /** The one splice there is. */
  ghost function PlanOf(es: seq<Entry>, os: seq<Override>): (s: Splice)
    ensures IsSplice(es, os, s)
  {
    Splice(seq(|es|, i requires 0 <= i < |es| => IsCopy(es, os, i) || PulledIn(es, os, i)),
           seq(|os|, k requires 0 <= k < |os| => Included(es, os, k)),
           SpliceAt(es))
  }

  // ---- the counting, dropping and queueing ------------------------------------------------

  function Held<K>(m: map<K, nat>, k: K): nat { if k in m then m[k] else 0 }

  function Queue<K>(m: map<K, seq<nat>>, k: K): seq<nat> { if k in m then m[k] else [] }

  /** How often each pair was delivered into the environment. */
  method CountPairs(os: seq<Override>) returns (copies: map<Pair, nat>)
    ensures forall p :: Held(copies, p) == P.Count(PairsOf(os), Some(p))
  {
    hide P.Of;
    copies := map[];
    P.CountsNothing<Option<Pair>>();
    assert PairsOf(os)[..0] == [];
    for k := 0 to |os|
      invariant forall p :: Held(copies, p) == P.Count(PairsOf(os)[..k], Some(p))
    {
      P.NextAll(PairsOf(os), k);
      if os[k].value.Some? {
        var p := Pair(NormalizeKey(os[k].key), os[k].value.value);
        copies := copies[p := Held(copies, p) + 1];
      }
    }
    assert PairsOf(os)[..|os|] == PairsOf(os);
  }

  /** Of each pair there are as many copies left as were delivered and not yet met from entry `i` on. */
  ghost predicate StillLeft(left: map<Pair, nat>, es: seq<Entry>, os: seq<Override>, i: nat)
    requires i <= |es|
  {
    forall p :: Held(left, p) + Min(P.Count(EnvTags(es)[i..], Some(p)), P.Count(PairsOf(os), Some(p))) ==
      P.Count(PairsOf(os), Some(p))
  }

  lemma AllLeft(left: map<Pair, nat>, es: seq<Entry>, os: seq<Override>)
    requires forall p :: Held(left, p) == P.Count(PairsOf(os), Some(p))
    ensures StillLeft(left, es, os, |es|)
  {
    hide P.Of, P.Count, PairsOf;
    P.CountsNothing<Option<Pair>>();
    assert EnvTags(es)[|es|..] == [];
  }

  /** The scan meets entry `i`. */
  lemma EnvMet(left: map<Pair, nat>, es: seq<Entry>, os: seq<Override>, i: nat)
    requires i < |es| && StillLeft(left, es, os, i + 1)
    ensures EnvTag(es[i]).None? ==> !EnvCopy(es, os, i) && StillLeft(left, es, os, i)
    ensures EnvTag(es[i]).Some? ==> (
      var p := EnvTag(es[i]).value;
      if Held(left, p) > 0 then EnvCopy(es, os, i) && StillLeft(left[p := left[p] - 1], es, os, i)
      else !EnvCopy(es, os, i) && StillLeft(left, es, os, i))
  {
    hide P.Of, P.Count, PairsOf, EnvTag;
    P.HeadAll(EnvTags(es), i);
  }

  /** The scan from the end that finds the environment copies. */
  method MarkEnvCopies(es: seq<Entry>, os: seq<Override>, drop: array<bool>)
    requires drop.Length == |es| && forall i :: 0 <= i < |es| ==> !drop[i]
    modifies drop
    ensures forall i :: 0 <= i < |es| ==> drop[i] == EnvCopy(es, os, i)
  {
    hide P.Of, P.Count, PairsOf, EnvCopy, StillLeft;
    var left := CountPairs(os);
    var i: nat := |es|;
    AllLeft(left, es, os);
    while i > 0
      invariant i <= |es| && StillLeft(left, es, os, i)
      invariant forall j :: 0 <= j < i ==> !drop[j]
      invariant forall j :: i <= j < |es| ==> drop[j] == EnvCopy(es, os, j)
    {
      i := i - 1;
      EnvMet(left, es, os, i);
      var e := es[i];
      if e.source != Env || e.level != 0 || e.value.None? { continue; }
      var p := Pair(e.key, e.value.value);
      if Held(left, p) > 0 {
        left := left[p := left[p] - 1];
        drop[i] := true;
      }
    }
  }

  /** Which overrides each key has, in argv order. */
  method QueueKeys(os: seq<Override>) returns (pending: map<Bytes, seq<nat>>)
    ensures forall key :: Queue(pending, key) == P.Of(KeysOf(os), Some(key))
  {
    hide P.Of, P.Count, NormalizeKey;
    pending := map[];
    P.CountsNothing<Option<Bytes>>();
    assert KeysOf(os)[..0] == [];
    for k := 0 to |os|
      invariant forall key :: Queue(pending, key) == P.Of(KeysOf(os)[..k], Some(key))
    {
      P.NextAll(KeysOf(os), k);
      var key := NormalizeKey(os[k].key);
      pending := pending[key := Queue(pending, key) + [k]];
    }
    assert KeysOf(os)[..|os|] == KeysOf(os);
  }

  /** `FromCli`, as far as the entries before `i` tell. */
  function FromCliBy(es: seq<Entry>, os: seq<Override>, k: nat, i: nat): Option<Span>
    requires k < |os| && i <= |es|
  {
    var key := Some(NormalizeKey(os[k].key));
    var m := P.Count(KeysOf(os)[..k], key);
    P.CountCut(CliTags(es), i, key);
    if IsIncludeKey(key.value) && m < P.Count(CliTags(es)[..i], key) then
      var i := P.Of(CliTags(es), key)[m];
      Some(Span(i + 1, IncludedEnd(es, i)))
    else None
  }

  /** The overrides of `key` not yet given a section by the entries before `i`. */
  function CliQueue(es: seq<Entry>, os: seq<Override>, i: nat, key: Bytes): seq<nat>
    requires i <= |es|
  {
    Rest(P.Of(KeysOf(os), Some(key)), P.Count(CliTags(es)[..i], Some(key)))
  }

  lemma CliQueueStarts(es: seq<Entry>, os: seq<Override>)
    ensures forall key :: CliQueue(es, os, 0, key) == P.Of(KeysOf(os), Some(key))
  {
    hide P.Of;
    assert CliTags(es)[..0] == [];
    P.CountsNothing<Option<Bytes>>();
  }

  lemma CliQueueNext(es: seq<Entry>, os: seq<Override>, i: nat)
    requires i < |es|
    ensures forall key :: CliTag(es[i]) != Some(key) ==> CliQueue(es, os, i + 1, key) == CliQueue(es, os, i, key)
    ensures CliTag(es[i]).Some? ==> (
      var q := CliQueue(es, os, i, CliTag(es[i]).value);
      CliQueue(es, os, i + 1, CliTag(es[i]).value) == if q == [] then q else q[1..])
  {
    hide P.Of, Rest, P.Count, KeysOf, CliTag;
    P.NextAll(CliTags(es), i);
    if CliTag(es[i]).Some? {
      var key := CliTag(es[i]);
      RestPop(P.Of(KeysOf(os), key), P.Count(CliTags(es)[..i], key));
    }
  }

  /** The `Source::Cli` entry `i` of a key belongs to the override the queue has first. */
  lemma CliQueueIs(es: seq<Entry>, os: seq<Override>, i: nat, key: Bytes)
    requires i < |es|
    ensures CliQueue(es, os, i, key) != [] ==> CliQueue(es, os, i, key)[0] < |os|
    ensures var q, c, of := CliQueue(es, os, i, key), P.Count(CliTags(es)[..i], Some(key)), P.Of(KeysOf(os), Some(key));
      if c < |of| then q != [] && q[0] == of[c] && of[c] < |os| else q == []
    ensures CliTag(es[i]) == Some(key) ==> (CliQueue(es, os, i, key) != [] <==> CliCopy(es, os, i))
  {
    hide P.Of;
    var c, of := P.Count(CliTags(es)[..i], Some(key)), P.Of(KeysOf(os), Some(key));
    assert CliTag(es[i]) == Some(key) ==> (CliCopy(es, os, i) <==> c < |of|);
    if c < |of| { assert of[c] < |KeysOf(os)|; }
  }

  /** The first `i + 1` entries tell about override `k` what the first `i` do, unless entry `i` is its own. */
  lemma CliTells(es: seq<Entry>, os: seq<Override>, i: nat, key: Bytes, k: nat)
    requires i < |es| && CliTag(es[i]) == Some(key) && k < |os|
    ensures var c, of := P.Count(CliTags(es)[..i], Some(key)), P.Of(KeysOf(os), Some(key));
      FromCliBy(es, os, k, i + 1) ==
        if c < |of| && k == of[c] && IsIncludeKey(key) then Some(Span(i + 1, IncludedEnd(es, i)))
        else FromCliBy(es, os, k, i)
  {
    hide P.Of, IncludedEnd;
    var c, of := P.Count(CliTags(es)[..i], Some(key)), P.Of(KeysOf(os), Some(key));
    P.PlaceAt(CliTags(es), i);
    P.Next(CliTags(es), i, Some(NormalizeKey(os[k].key)));
    P.PlaceAt(KeysOf(os), k);
    if c < |of| { P.CountBefore(KeysOf(os), Some(key), c); }
  }

  lemma CliUpdate(es: seq<Entry>, os: seq<Override>, i: nat, key: Bytes, k: nat)
    requires i < |es| && CliTag(es[i]) == Some(key) && k < |os|
    ensures var q := CliQueue(es, os, i, key);
      FromCliBy(es, os, k, i + 1) ==
        if q != [] && k == q[0] && IsIncludeKey(key) then Some(Span(i + 1, IncludedEnd(es, i)))
        else FromCliBy(es, os, k, i)
  {
    hide P.Of, P.Count, IncludedEnd, CliQueue, FromCliBy, CliCopy, KeysOf;
    CliQueueIs(es, os, i, key);
    CliTells(es, os, i, key, k);
  }

  lemma CliOther(es: seq<Entry>, os: seq<Override>, i: nat)
    requires i < |es| && CliTag(es[i]).None?
    ensures forall k :: 0 <= k < |os| ==> FromCliBy(es, os, k, i + 1) == FromCliBy(es, os, k, i)
    ensures !CliCopy(es, os, i)
  {
    hide P.Of, IncludedEnd;
    forall k | 0 <= k < |os|
      ensures FromCliBy(es, os, k, i + 1) == FromCliBy(es, os, k, i)
    {
      P.Next(CliTags(es), i, Some(NormalizeKey(os[k].key)));
    }
  }

  lemma CliBounds(es: seq<Entry>, os: seq<Override>)
    ensures forall k :: 0 <= k < |os| ==>
      FromCliBy(es, os, k, 0) == None && FromCliBy(es, os, k, |es|) == FromCli(es, os, k)
  {
    hide IncludedEnd, IsIncludeKey, NormalizeKey, P.Of;
    var tags := CliTags(es);
    assert tags[..0] == [] && tags[..|es|] == tags;
    P.CountsNothing<Option<Bytes>>();
    forall k | 0 <= k < |os|
      ensures FromCliBy(es, os, k, 0) == None && FromCliBy(es, os, k, |es|) == FromCli(es, os, k)
    {
      assert P.Count(tags[..0], Some(NormalizeKey(os[k].key))) == 0;
    }
  }

  lemma QueueSet(m: map<Bytes, seq<nat>>, k: Bytes, q: seq<nat>)
    ensures forall x: Bytes :: x != k ==> Queue(m[k := q], x) == Queue(m, x)
    ensures Queue(m[k := q], k) == q
  {
  }

  lemma CliTagIs(e: Entry)
    ensures CliTag(e) == if e.source == Cli && e.level == 0 then Some(e.key) else None
  {
  }

  lemma CopyIs(es: seq<Entry>, os: seq<Override>)
    ensures forall i :: 0 <= i < |es| ==> (IsCopy(es, os, i) <==> EnvCopy(es, os, i) || CliCopy(es, os, i))
  {
    hide EnvCopy, CliCopy;
  }

  /** One entry of the scan below: `taken` if it is some override's section. */
  method TakeCli(es: seq<Entry>, os: seq<Override>, i: nat, pending: map<Bytes, seq<nat>>, included: seq<Option<Span>>)
    returns (pending2: map<Bytes, seq<nat>>, included2: seq<Option<Span>>, taken: bool)
    requires i < |es| && |included| == |os| && forall k :: 0 <= k < |os| ==> included[k] == FromCliBy(es, os, k, i)
    requires forall key :: Queue(pending, key) == CliQueue(es, os, i, key)
    ensures |included2| == |os| && forall k :: 0 <= k < |os| ==> included2[k] == FromCliBy(es, os, k, i + 1)
    ensures forall key :: Queue(pending2, key) == CliQueue(es, os, i + 1, key)
    ensures taken == CliCopy(es, os, i)
  {
    hide *;
    pending2, included2, taken := pending, included, false;
    var e := es[i];
    CliQueueNext(es, os, i);
    CliTagIs(e);
    if e.source != Cli || e.level != 0 {
      CliOther(es, os, i);
      return;
    }
    CliQueueIs(es, os, i, e.key);
    var queue := Queue(pending, e.key);
    if queue != [] {
      QueueSet(pending, e.key, queue[1..]);
      pending2 := pending[e.key := queue[1..]];
      taken := true;
      if IsIncludeKey(e.key) {
        var end := IncludedAfter(es, i);
        included2 := included[queue[0] := Some(Span(i + 1, end))];
      }
    }
    forall key: Bytes
      ensures Queue(pending2, key) == CliQueue(es, os, i + 1, key)
    {
      assert key != e.key ==> CliTag(e) != Some(key);
    }
    forall k | 0 <= k < |os|
      ensures included2[k] == FromCliBy(es, os, k, i + 1)
    {
      CliUpdate(es, os, i, e.key, k);
    }
  }

  /** The scan that gives every override its `Source::Cli` section. */
  method MarkCliCopies(es: seq<Entry>, os: seq<Override>, drop: array<bool>) returns (included: seq<Option<Span>>)
    requires drop.Length == |es| && forall i :: 0 <= i < |es| ==> drop[i] == EnvCopy(es, os, i)
    modifies drop
    ensures forall i :: 0 <= i < |es| ==> drop[i] == IsCopy(es, os, i)
    ensures |included| == |os| && forall k :: 0 <= k < |os| ==> included[k] == FromCli(es, os, k)
  {
    hide *;
    var pending := QueueKeys(os);
    included := seq(|os|, _ => None);
    CliBounds(es, os);
    CliQueueStarts(es, os);
    for i := 0 to |es|
      invariant forall j :: 0 <= j < i ==> drop[j] == (EnvCopy(es, os, j) || CliCopy(es, os, j))
      invariant forall j :: i <= j < |es| ==> drop[j] == EnvCopy(es, os, j)
      invariant |included| == |os| && forall k :: 0 <= k < |os| ==> included[k] == FromCliBy(es, os, k, i)
      invariant forall key :: Queue(pending, key) == CliQueue(es, os, i, key)
    {
      var taken: bool;
      pending, included, taken := TakeCli(es, os, i, pending, included);
      if taken { drop[i] := true; }
    }
    CopyIs(es, os);
  }

  /** A queue that has been asked `n` times. */
  function Rest<T>(s: seq<T>, n: nat): seq<T> { if n < |s| then s[n..] else [] }

  lemma RestPop<T>(s: seq<T>, n: nat)
    ensures if n < |s| then Rest(s, n) != [] && Rest(s, n)[0] == s[n] && Rest(s, n)[1..] == Rest(s, n + 1)
            else Rest(s, n) == [] && Rest(s, n + 1) == []
  {
  }

  lemma IncludeTagAt(es: seq<Entry>, os: seq<Override>, i: nat)
    requires i < |es|
    ensures IncludeTags(es, os)[i] ==
      if IsCopy(es, os, i) && es[i].source == Env && IsIncludeKey(es[i].key) && es[i].value.Some? then
        Some(Pair(es[i].key, es[i].value.value))
      else None
  {
    hide P.Of, P.Count, IsIncludeKey;
  }

  /** The include lines among the environment copies, queued by pair. */
  method QueueIncludes(es: seq<Entry>, os: seq<Override>, drop: array<bool>) returns (queues: map<Pair, seq<nat>>)
    requires drop.Length == |es| && forall i :: 0 <= i < |es| ==> drop[i] == IsCopy(es, os, i)
    ensures forall p :: Queue(queues, p) == P.Of(IncludeTags(es, os), Some(p))
  {
    hide P.Of, P.Count, IsIncludeKey, IncludeTags, IsCopy;
    queues := map[];
    P.CountsNothing<Option<Pair>>();
    assert IncludeTags(es, os)[..0] == [];
    for i := 0 to |es|
      invariant forall p :: Queue(queues, p) == P.Of(IncludeTags(es, os)[..i], Some(p))
    {
      P.NextAll(IncludeTags(es, os), i);
      IncludeTagAt(es, os, i);
      var e := es[i];
      if drop[i] && e.source == Env && IsIncludeKey(e.key) && e.value.Some? {
        var p := Pair(e.key, e.value.value);
        queues := queues[p := Queue(queues, p) + [i]];
      }
    }
    assert IncludeTags(es, os)[..|es|] == IncludeTags(es, os);
  }

  /** The include lines of pair `p` not yet given to the overrides before `k`. */
  function EnvQueue(es: seq<Entry>, os: seq<Override>, k: nat, p: Pair): seq<nat>
    requires k <= |os|
  {
    Rest(P.Of(IncludeTags(es, os), Some(p)), P.Count(PairsOf(os)[..k], Some(p)))
  }

  lemma EnvQueueStarts(es: seq<Entry>, os: seq<Override>)
    ensures forall p :: EnvQueue(es, os, 0, p) == P.Of(IncludeTags(es, os), Some(p))
  {
    hide P.Of;
    assert PairsOf(os)[..0] == [];
    P.CountsNothing<Option<Pair>>();
  }

  lemma EnvQueueNext(es: seq<Entry>, os: seq<Override>, k: nat)
    requires k < |os|
    ensures forall p :: PairOf(os[k]) != Some(p) ==> EnvQueue(es, os, k + 1, p) == EnvQueue(es, os, k, p)
    ensures PairOf(os[k]).Some? ==> (
      var q := EnvQueue(es, os, k, PairOf(os[k]).value);
      EnvQueue(es, os, k + 1, PairOf(os[k]).value) == if q == [] then q else q[1..])
  {
    hide P.Of, Rest, P.Count, IncludeTags, PairOf;
    P.NextAll(PairsOf(os), k);
    if PairOf(os[k]).Some? {
      var p := PairOf(os[k]);
      RestPop(P.Of(IncludeTags(es, os), p), P.Count(PairsOf(os)[..k], p));
    }
  }

  /** Override `k` included what the first line left in its queue did. */
  lemma EnvOwner(es: seq<Entry>, os: seq<Override>, k: nat)
    requires k < |os|
    ensures PairOf(os[k]).None? ==> FromEnv(es, os, k).None?
    ensures PairOf(os[k]).Some? ==>
      var q := EnvQueue(es, os, k, PairOf(os[k]).value);
      FromEnv(es, os, k) ==
        if q == [] then None
        else
          assert q[0] < |es| by { EnvQueueIn(es, os, k); }
          Some(Span(q[0] + 1, IncludedEnd(es, q[0])))
  {
    hide P.Of, IncludedEnd, IncludeTags, PairOf;
    if PairOf(os[k]).Some? { EnvQueueIn(es, os, k); }
  }

  lemma EnvQueueIn(es: seq<Entry>, os: seq<Override>, k: nat)
    requires k < |os| && PairOf(os[k]).Some?
    ensures var q := EnvQueue(es, os, k, PairOf(os[k]).value); q != [] ==> q[0] < |es|
  {
    hide P.Of, IncludeTags, PairOf;
    var m, of := P.Count(PairsOf(os)[..k], PairOf(os[k])), P.Of(IncludeTags(es, os), PairOf(os[k]));
    if m < |of| { assert of[m] < |IncludeTags(es, os)|; }
  }

  /** What each override included. */
  method IncludedBy(es: seq<Entry>, os: seq<Override>, drop: array<bool>, fromCli: seq<Option<Span>>)
      returns (included: seq<Span>)
    requires drop.Length == |es| && forall i :: 0 <= i < |es| ==> drop[i] == IsCopy(es, os, i)
    requires |fromCli| == |os| && forall k :: 0 <= k < |os| ==> fromCli[k] == FromCli(es, os, k)
    ensures |included| == |os| && forall k :: 0 <= k < |os| ==> included[k] == Included(es, os, k)
  {
    hide P.Of, P.Count, IncludeTags, IncludedEnd, FromCli, FromEnv, EnvQueue, NormalizeKey, IsCopy;
    var queues := QueueIncludes(es, os, drop);
    included := [];
    EnvQueueStarts(es, os);
    for k := 0 to |os|
      invariant |included| == k && forall j :: 0 <= j < k ==> included[j] == Included(es, os, j)
      invariant forall p :: Queue(queues, p) == EnvQueue(es, os, k, p)
    {
      EnvQueueNext(es, os, k);
      EnvOwner(es, os, k);
      var span := Span(0, 0);
      if fromCli[k].Some? { span := fromCli[k].value; }
      if os[k].value.Some? {
        var p := Pair(NormalizeKey(os[k].key), os[k].value.value);
        var queue := Queue(queues, p);
        if queue != [] {
          EnvQueueIn(es, os, k);
          queues := queues[p := queue[1..]];
          var end := IncludedAfter(es, queue[0]);
          span := Span(queue[0] + 1, end);
        }
      }
      included := included + [span];
    }
  }

  lemma NestedRun(es: seq<Entry>, i: nat, j: nat)
    requires i < |es| && i < j < IncludedEnd(es, i)
    ensures IncludedEnd(es, j) <= IncludedEnd(es, i)
  {
    hide RunEnd;
  }

  /** `PulledIn`, by an include line before `n`. */
  predicate PulledBy(es: seq<Entry>, os: seq<Override>, j: nat, n: nat)
    requires j < |es|
  {
    exists i :: 0 <= i < j && i < n && IsCopy(es, os, i) && IsIncludeKey(es[i].key) && j < IncludedEnd(es, i)
  }

  lemma PulledNext(es: seq<Entry>, os: seq<Override>, j: nat, n: nat)
    requires j < |es| && n < |es|
    ensures PulledBy(es, os, j, n + 1) <==>
      PulledBy(es, os, j, n) || (n < j && IsCopy(es, os, n) && IsIncludeKey(es[n].key) && j < IncludedEnd(es, n))
  {
  }

  /** An include line that was itself pulled in pulls in nothing new. */
  lemma PulledOn(es: seq<Entry>, os: seq<Override>, j: nat, n: nat)
    requires n < j < |es| && PulledBy(es, os, n, n) && j < IncludedEnd(es, n)
    ensures PulledBy(es, os, j, n)
  {
    hide IncludedEnd, IsCopy;
    var i :| 0 <= i < n && IsCopy(es, os, i) && IsIncludeKey(es[i].key) && n < IncludedEnd(es, i);
    NestedRun(es, i, n);
  }

  /** Whatever a dropped include line pulled in goes with it. */
  method DropPulledIn(es: seq<Entry>, os: seq<Override>, drop: array<bool>)
    requires drop.Length == |es| && forall i :: 0 <= i < |es| ==> drop[i] == IsCopy(es, os, i)
    modifies drop
    ensures forall j :: 0 <= j < |es| ==> drop[j] == (IsCopy(es, os, j) || PulledIn(es, os, j))
  {
    hide IsCopy, IncludedEnd, PulledBy, IsIncludeKey;
    forall j | 0 <= j < |es| ensures !PulledBy(es, os, j, 0) { NonePulled(es, os, j); }
    for i := 0 to |es|
      invariant forall j :: 0 <= j < |es| ==> drop[j] == (IsCopy(es, os, j) || PulledBy(es, os, j, i))
    {
      ghost var before := drop[..];
      if drop[i] && IsIncludeKey(es[i].key) {
        var end := IncludedAfter(es, i);
        for j := i + 1 to end
          invariant forall m :: 0 <= m < |es| ==> drop[m] == (before[m] || i < m < j)
        {
          drop[j] := true;
        }
        forall j | 0 <= j < |es|
          ensures drop[j] == (IsCopy(es, os, j) || PulledBy(es, os, j, i + 1))
        {
          PulledNext(es, os, j, i);
          if i < j < end && !IsCopy(es, os, i) { PulledOn(es, os, j, i); }
        }
      } else {
        forall j | 0 <= j < |es|
          ensures drop[j] == (IsCopy(es, os, j) || PulledBy(es, os, j, i + 1))
        {
          PulledNext(es, os, j, i);
        }
      }
    }
    forall j | 0 <= j < |es| ensures PulledBy(es, os, j, |es|) == PulledIn(es, os, j) { AllPulled(es, os, j); }
  }

  lemma NonePulled(es: seq<Entry>, os: seq<Override>, j: nat)
    requires j < |es|
    ensures !PulledBy(es, os, j, 0)
  {
  }

  lemma AllPulled(es: seq<Entry>, os: seq<Override>, j: nat)
    requires j < |es|
    ensures PulledBy(es, os, j, |es|) == PulledIn(es, os, j)
  {
    hide IsCopy, IncludedEnd;
  }

  /** `command_line_splice`; nothing when this command line carries no override. */
  method CommandLineSplice(es: seq<Entry>, os: seq<Override>) returns (r: Option<Splice>)
    ensures os == [] ==> r == None
    ensures os != [] ==> r.Some? && IsSplice(es, os, r.value)
  {
    hide IsCopy, PulledIn, Included, EnvCopy, FromCli;
    if os == [] { return None; }
    var drop := new bool[|es|](_ => false);
    MarkEnvCopies(es, os, drop);
    var fromCli := MarkCliCopies(es, os, drop);
    var included := IncludedBy(es, os, drop, fromCli);
    DropPulledIn(es, os, drop);
    var at := 0;
    while at < |es| && !AfterEnv(es[at].source)
      invariant at <= |es| && forall i :: 0 <= i < at ==> !AfterEnv(es[i].source)
    {
      at := at + 1;
    }
    assert at <= SpliceAt(es) && SpliceAt(es) <= at;
    return Some(Splice(drop[..], included, at));
  }
}
