/**
 `resolve` of alias.rs over one fixed alias table: the rewriting loop with its loop guard,
 against the same rewriting without a guard.
 */
module AliasResolve {
  import opened Bytes
  import opened Optional
  import S = SplitCmdline

  const BANG: Byte := 33

  /** One `[alias]` setting: `alias.<name>`, or `[alias "<name>"] command`, with its value. */
  datatype Setting = Flat(name: Bytes, value: Bytes) | Sub(name: Bytes, value: Bytes)

  predicate Names(s: Setting, name: Bytes) {
    match s
    case Flat(n, _) => LowerAll(n) == LowerAll(name)
    case Sub(n, _) => n == name
  }

  /** The last setting that names it wins. */
  function Lookup(table: seq<Setting>, name: Bytes): (r: Option<Bytes>)
    ensures r.Some? ==> exists i :: 0 <= i < |table| && table[i].value == r.value
  {
    if table == [] then None
    else
      var last := table[|table| - 1];
      if Names(last, name) then Some(last.value) else Lookup(table[..|table| - 1], name)
  }

  /** `lookup_in`'s scan. */
  method LookupIn(table: seq<Setting>, name: Bytes) returns (found: Option<Bytes>)
    ensures found == Lookup(table, name)
  {
    found := None;
    for i := 0 to |table|
      invariant found == Lookup(table[..i], name)
    {
      assert table[..i + 1][..i] == table[..i];
      if Names(table[i], name) {
        found := Some(table[i].value);
      }
    }
    assert table[..|table|] == table;
  }

  /** What `handle_options` makes of an expansion: how many leading words it takes, and whether one of them
   changes the environment; or that it ends the program. */
  datatype Handled = Consumed(n: nat, envChanged: bool) | Quit

  /** Everything a resolution depends on. `options` stands for `handle_options`, of which only
   `Sane` is known: it takes a prefix. */
  datatype World = World(verbs: set<Bytes>, table: seq<Setting>, options: seq<Bytes> -> Handled)

  ghost predicate Sane(w: World) {
    forall e :: w.options(e).Consumed? ==> w.options(e).n <= |e|
  }

  datatype Outcome =
    | Command(head: Bytes, args: seq<Bytes>)
    | Shell(body: Bytes, args: seq<Bytes>)
    | BadString(head: Bytes, error: S.Split)
    | ChangesEnvironment(head: Bytes)
    | Exits
    | Empty(head: Bytes)
    | Recursive(head: Bytes)
    | Loop(seen: seq<Bytes>, repeated: nat)

  // ---- the rewriting without a guard ------------------------------------------------------

  datatype Turn = Stop(outcome: Outcome) | Go(args: seq<Bytes>)

  /** What becomes of one command line: an end, or the line it is rewritten to. */
  function Rewrite(w: World, args: seq<Bytes>): (t: Turn)
    requires Sane(w) && args != []
    ensures t.Stop? ==> !t.outcome.Recursive? && !t.outcome.Loop?
    ensures t.Go? ==> t.args != []
  {
    var head := args[0];
    if head in w.verbs then Stop(Command(head, args[1..]))
    else match Lookup(w.table, head)
      case None => Stop(Command(head, args[1..]))
      case Some(value) =>
        if value != [] && value[0] == BANG then Stop(Shell(value[1..], args[1..]))
        else
          var split := S.Scan(value, NUL, [], []);
          if !split.Words? then Stop(BadString(head, split))
          else match w.options(split.words)
            case Quit => Stop(Exits)
            case Consumed(n, envChanged) =>
              if envChanged then Stop(ChangesEnvironment(head))
              else if split.words[n..] == [] then Stop(Empty(head))
              else Go(split.words[n..] + args[1..])
  }

  /** The first word of the line that `head` is rewritten to, if it is rewritten. */
  function NextHead(w: World, head: Bytes): Option<Bytes>
    requires Sane(w)
  {
    match Rewrite(w, [head]) case Stop(_) => None case Go(args) => Some(args[0])
  }

  /** The arguments behind the head have no part in what it is rewritten to. */
  lemma RewriteHead(w: World, args: seq<Bytes>)
    requires Sane(w) && args != []
    ensures match Rewrite(w, args)
      case Stop(_) => NextHead(w, args[0]) == None
      case Go(more) => (
        && NextHead(w, args[0]) == Some(more[0]) && Rewrite(w, [args[0]]).Go?
        && more == Rewrite(w, [args[0]]).args + args[1..])
  {
    hide S.Scan, Lookup;
    var one := [args[0]];
    assert one[1..] == [];
  }

  /** The line after `n` rewritings, if there are so many. */
  function After(w: World, args: seq<Bytes>, n: nat): (r: Option<seq<Bytes>>)
    requires Sane(w) && args != []
    ensures r.Some? ==> r.value != []
  {
    if n == 0 then Some(args)
    else match After(w, args, n - 1)
      case None => None
      case Some(a) => match Rewrite(w, a) case Stop(_) => None case Go(more) => Some(more)
  }

  /** The unguarded rewriting would go on for ever. */
  ghost predicate Endless(w: World, args: seq<Bytes>)
    requires Sane(w) && args != []
  {
    forall n: nat :: After(w, args, n).Some?
  }

  lemma {:induction false} AfterFewer(w: World, args: seq<Bytes>, n: nat, m: nat)
    requires Sane(w) && args != [] && n <= m && After(w, args, m).Some?
    ensures After(w, args, n).Some?
    decreases m
  {
    hide Rewrite;
    if n < m { AfterFewer(w, args, n, m - 1); }
  }

  /** Lines with the same head have the same heads after any number of rewritings. */
  lemma {:induction false} SameHeads(w: World, a: seq<Bytes>, b: seq<Bytes>, n: nat)
    requires Sane(w) && a != [] && b != [] && a[0] == b[0]
    ensures After(w, a, n).Some? == After(w, b, n).Some?
    ensures After(w, a, n).Some? ==> After(w, a, n).value[0] == After(w, b, n).value[0]
  {
    hide Rewrite, NextHead;
    if n > 0 {
      SameHeads(w, a, b, n - 1);
      if After(w, a, n - 1).Some? {
        RewriteHead(w, After(w, a, n - 1).value);
        RewriteHead(w, After(w, b, n - 1).value);
      }
    }
  }

  lemma {:induction false} AfterSum(w: World, args: seq<Bytes>, n: nat, m: nat)
    requires Sane(w) && args != [] && After(w, args, n).Some?
    ensures After(w, args, n + m) == After(w, After(w, args, n).value, m)
  {
    hide Rewrite;
    if m > 0 { AfterSum(w, args, n, m - 1); }
  }

  /** A head that comes up again comes up for ever. */
  lemma {:induction false} CycleRuns(w: World, args: seq<Bytes>, i: nat, j: nat, n: nat)
    requires Sane(w) && args != [] && i < j && After(w, args, i).Some? && After(w, args, j).Some?
    requires After(w, args, i).value[0] == After(w, args, j).value[0]
    ensures After(w, args, n).Some?
    decreases n
  {
    hide Rewrite, After;
    if n <= j {
      AfterFewer(w, args, n, j);
    } else {
      CycleRuns(w, args, i, j, n - (j - i));
      AfterSum(w, args, i, n - j);
      AfterSum(w, args, j, n - j);
      SameHeads(w, After(w, args, i).value, After(w, args, j).value, n - j);
    }
  }

  lemma CycleEndless(w: World, args: seq<Bytes>, i: nat, j: nat)
    requires Sane(w) && args != [] && i < j && After(w, args, i).Some? && After(w, args, j).Some?
    requires After(w, args, i).value[0] == After(w, args, j).value[0]
    ensures Endless(w, args)
  {
    hide After;
    forall n: nat
      ensures After(w, args, n).Some?
    {
      CycleRuns(w, args, i, j, n);
    }
  }

  // ---- the loop ---------------------------------------------------------------------------

  /** The heads there can be: the one typed, and those the table's values begin with. */
  function Heads(w: World, first: Bytes): set<Bytes>
    requires Sane(w)
  {
    {first} + HeadsOf(w, w.table)
  }

  function HeadOfValue(w: World, value: Bytes): set<Bytes>
    requires Sane(w)
  {
    var split := S.Scan(value, NUL, [], []);
    if !split.Words? then {}
    else match w.options(split.words)
      case Quit => {}
      case Consumed(n, _) => if split.words[n..] == [] then {} else {split.words[n..][0]}
  }

  function HeadsOf(w: World, table: seq<Setting>): (r: set<Bytes>)
    requires Sane(w)
    ensures |r| <= |table|
  {
    if table == [] then {} else
      var h := HeadOfValue(w, table[0].value);
      assert |h| <= 1;
      UnionSize(h, HeadsOf(w, table[1..]));
      h + HeadsOf(w, table[1..])
  }

  lemma UnionSize(a: set<Bytes>, b: set<Bytes>)
    ensures |a + b| <= |a| + |b|
  {
    assert a + b == a + (b - a);
    assert |b - a| <= |b| by { SubsetSize(b - a, b); }
  }

  lemma {:induction false} SubsetSize(a: set<Bytes>, b: set<Bytes>)
    requires a <= b
    ensures |a| <= |b|
    decreases |a|
  {
    if a != {} {
      var x :| x in a;
      SubsetSize(a - {x}, b - {x});
    }
  }

  lemma {:induction false} ValueHeads(w: World, table: seq<Setting>, i: nat)
    requires Sane(w) && i < |table|
    ensures HeadOfValue(w, table[i].value) <= HeadsOf(w, table)
  {
    hide HeadOfValue;
    if i > 0 {
      ValueHeads(w, table[1..], i - 1);
    }
  }

  lemma NextInHeads(w: World, args: seq<Bytes>, first: Bytes)
    requires Sane(w) && args != [] && Rewrite(w, args).Go?
    ensures Rewrite(w, args).args[0] in Heads(w, first)
  {
    hide S.Scan, HeadsOf;
    var value := Lookup(w.table, args[0]).value;
    var i :| 0 <= i < |w.table| && w.table[i].value == value;
    ValueHeads(w, w.table, i);
  }

  function SetOf(s: seq<Bytes>): (r: set<Bytes>)
    ensures forall x :: x in r <==> x in s
  {
    set x | x in s
  }

  lemma {:induction false} DistinctSize(s: seq<Bytes>)
    requires forall i, j :: 0 <= i < j < |s| ==> s[i] != s[j]
    ensures |SetOf(s)| == |s|
  {
    if s != [] {
      DistinctSize(s[1..]);
      assert SetOf(s) == {s[0]} + SetOf(s[1..]);
    }
  }

  /** The loop's trace is the heads of the unguarded rewriting, each for the first time. */
  ghost predicate IsTrace(w: World, start: seq<Bytes>, seen: seq<Bytes>)
    requires Sane(w) && start != []
  {
    && (forall i :: 0 <= i < |seen| ==> After(w, start, i).Some? && After(w, start, i).value[0] == seen[i])
    && (forall i, j :: 0 <= i < j < |seen| ==> seen[i] != seen[j])
  }

  /**
   `resolve`: it ends as the unguarded rewriting would, and where that would never end it says so.
   `heads` are the heads it expanded: no two of them are the same.  A head that is rewritten to itself is told from one
   that comes up again later.
   */
  method Resolve(w: World, sub: Bytes, rest: seq<Bytes>) returns (r: Outcome, expansions: nat, ghost heads: seq<Bytes>)
    requires Sane(w)
    ensures var start := [sub] + rest;
      if Endless(w, start) then r.Recursive? || r.Loop?
      else After(w, start, expansions).Some? && Rewrite(w, After(w, start, expansions).value) == Stop(r)
    ensures IsTrace(w, [sub] + rest, heads) && expansions == |heads| <= |w.table| + 1
    ensures r.Recursive? ==> (
      && After(w, [sub] + rest, expansions).Some? && After(w, [sub] + rest, expansions).value[0] == r.head
      && NextHead(w, r.head) == Some(r.head))
    ensures r.Loop? ==> (
      && r.seen == heads && r.repeated + 1 < expansions
      && After(w, [sub] + rest, expansions).Some? && After(w, [sub] + rest, expansions).value[0] == heads[r.repeated])
  {
    hide Rewrite, After, Lookup, S.Scan, HeadsOf, Heads, IsTrace, Endless, NextHead;
    var args := [sub] + rest;
    ghost var start := args;
    var cmdList: seq<Bytes> := [];
    expansions, heads := 0, [];
    StartTrace(w, start);
    while true
      invariant args != [] && expansions == |cmdList| && heads == cmdList
      invariant After(w, start, expansions) == Some(args)
      invariant IsTrace(w, start, cmdList)
      invariant args[0] in Heads(w, sub) && SetOf(cmdList) <= Heads(w, sub)
      invariant cmdList != [] ==> cmdList[|cmdList| - 1] != args[0]
      decreases Heads(w, sub) - SetOf(cmdList)
    {
      var head := args[0];
      SizeOfTrace(w, start, cmdList, sub);
      if head in w.verbs {
        StopsHere(w, start, expansions, args);
        RewriteVerb(w, args);
        return Command(head, args[1..]), expansions, heads;
      }
      var pos := Position(cmdList, head);
      if pos < |cmdList| {
        TraceCycle(w, start, cmdList, pos, args);
        return Loop(cmdList, pos), expansions, heads;
      }
      ghost var seenBefore := SetOf(cmdList);
      TraceGrows(w, start, cmdList, args);
      cmdList := cmdList + [head];
      assert SetOf(cmdList) == seenBefore + {head};
      SizeOfTrace(w, start, cmdList, sub);
      StopsHere(w, start, expansions, args);
      var outcome, expansion := Expand(w, head, args[1..]);
      assert [head] + args[1..] == args;
      if outcome.Some? { return outcome.value, expansions, heads; }
      NextInHeads(w, args, sub);
      NextAfter(w, start, expansions, args);
      if expansion[0] == head {
        SelfCycle(w, start, expansions, args);
        SelfHead(w, args);
        return Recursive(head), expansions, heads;
      }
      args := expansion + args[1..];
      expansions, heads := expansions + 1, cmdList;
    }
  }

  /** The part of the loop behind its guard: what a head that is no verb ends in, or the words it stands for. */
  method Expand(w: World, head: Bytes, tail: seq<Bytes>) returns (outcome: Option<Outcome>, expansion: seq<Bytes>)
    requires Sane(w) && head !in w.verbs
    ensures outcome.Some? ==> Rewrite(w, [head] + tail) == Stop(outcome.value)
    ensures outcome.None? ==> expansion != [] && Rewrite(w, [head] + tail) == Go(expansion + tail)
  {
    hide Rewrite, Lookup, S.Scan;
    expansion := [];
    RewriteAlias(w, [head] + tail);
    assert ([head] + tail)[1..] == tail;
    var value := LookupIn(w.table, head);
    if value.None? { return Some(Command(head, tail)), expansion; }
    if value.value != [] && value.value[0] == BANG { return Some(Shell(value.value[1..], tail)), expansion; }
    var split := S.SplitLine(value.value);
    if !split.Words? { return Some(BadString(head, split)), expansion; }
    var handled := w.options(split.words);
    if handled.Quit? { return Some(Exits), expansion; }
    if handled.envChanged { return Some(ChangesEnvironment(head)), expansion; }
    expansion := split.words[handled.n..];
    if expansion == [] { return Some(Empty(head)), expansion; }
    outcome := None;
  }

  /** Where a list first holds a name, its length if it does not. */
  method Position(s: seq<Bytes>, name: Bytes) returns (p: nat)
    ensures p <= |s| && (p < |s| ==> s[p] == name) && (p == |s| ==> name !in s)
  {
    p := 0;
    while p < |s| && s[p] != name
      invariant p <= |s| && forall k :: 0 <= k < p ==> s[k] != name
    {
      p := p + 1;
    }
  }

  lemma StartTrace(w: World, start: seq<Bytes>)
    requires Sane(w) && start != []
    ensures After(w, start, 0) == Some(start) && IsTrace(w, start, []) && start[0] in Heads(w, start[0])
  {
  }

  lemma SizeOfTrace(w: World, start: seq<Bytes>, seen: seq<Bytes>, first: Bytes)
    requires Sane(w) && start != [] && IsTrace(w, start, seen) && SetOf(seen) <= Heads(w, first)
    ensures |seen| <= |w.table| + 1
  {
    hide After;
    DistinctSize(seen);
    UnionSize({first}, HeadsOf(w, w.table));
    SubsetSize(SetOf(seen), Heads(w, first));
  }

  lemma TraceGrows(w: World, start: seq<Bytes>, seen: seq<Bytes>, args: seq<Bytes>)
    requires Sane(w) && start != [] && IsTrace(w, start, seen) && args != []
    requires After(w, start, |seen|) == Some(args) && args[0] !in seen
    ensures IsTrace(w, start, seen + [args[0]])
  {
    hide After;
  }

  lemma TraceCycle(w: World, start: seq<Bytes>, seen: seq<Bytes>, pos: nat, args: seq<Bytes>)
    requires Sane(w) && start != [] && IsTrace(w, start, seen) && args != [] && pos < |seen|
    requires After(w, start, |seen|) == Some(args) && args[0] == seen[pos]
    ensures Endless(w, start)
  {
    hide After, Endless;
    CycleEndless(w, start, pos, |seen|);
  }

  lemma SelfCycle(w: World, start: seq<Bytes>, n: nat, args: seq<Bytes>)
    requires Sane(w) && start != [] && args != [] && After(w, start, n) == Some(args)
    requires After(w, start, n + 1).Some? && After(w, start, n + 1).value[0] == args[0]
    ensures Endless(w, start)
  {
    hide After, Endless;
    CycleEndless(w, start, n, n + 1);
  }

  lemma SelfHead(w: World, args: seq<Bytes>)
    requires Sane(w) && args != [] && Rewrite(w, args).Go? && Rewrite(w, args).args[0] == args[0]
    ensures NextHead(w, args[0]) == Some(args[0])
  {
    hide Rewrite, NextHead;
    RewriteHead(w, args);
  }

  /** When the line is not rewritten, the rewriting ends there. */
  lemma StopsHere(w: World, start: seq<Bytes>, n: nat, args: seq<Bytes>)
    requires Sane(w) && start != [] && args != [] && After(w, start, n) == Some(args)
    ensures Rewrite(w, args).Stop? ==> !Endless(w, start)
  {
    hide Rewrite;
    if Rewrite(w, args).Stop? {
      assert After(w, start, n + 1).None?;
    }
  }

  lemma NextAfter(w: World, start: seq<Bytes>, n: nat, args: seq<Bytes>)
    requires Sane(w) && start != [] && args != [] && After(w, start, n) == Some(args) && Rewrite(w, args).Go?
    ensures After(w, start, n + 1) == Some(Rewrite(w, args).args)
  {
    hide Rewrite;
  }

  lemma RewriteVerb(w: World, args: seq<Bytes>)
    requires Sane(w) && args != [] && args[0] in w.verbs
    ensures Rewrite(w, args) == Stop(Command(args[0], args[1..]))
  {
  }

  /** The rewriting of a head that is no verb, spelled out. */
  lemma RewriteAlias(w: World, args: seq<Bytes>)
    requires Sane(w) && args != [] && args[0] !in w.verbs
    ensures var v := Lookup(w.table, args[0]); var t := Rewrite(w, args);
      && (v.None? ==> t == Stop(Command(args[0], args[1..])))
      && (v.Some? && v.value != [] && v.value[0] == BANG ==> t == Stop(Shell(v.value[1..], args[1..])))
      && (v.Some? && !(v.value != [] && v.value[0] == BANG) ==>
            var s := S.Scan(v.value, NUL, [], []);
            && (!s.Words? ==> t == Stop(BadString(args[0], s)))
            && (s.Words? ==>
                  var h := w.options(s.words);
                  && (h.Quit? ==> t == Stop(Exits))
                  && (h.Consumed? && h.envChanged ==> t == Stop(ChangesEnvironment(args[0])))
                  && (h.Consumed? && !h.envChanged ==>
                        t == if s.words[h.n..] == [] then Stop(Empty(args[0])) else Go(s.words[h.n..] + args[1..]))))
  {
    hide S.Scan, Lookup;
  }

  // ---- trailing arguments -----------------------------------------------------------------

  predicate EndsWith(s: seq<Bytes>, t: seq<Bytes>) { |t| <= |s| && s[|s| - |t|..] == t }

  lemma {:induction false} AfterKeepsTail(w: World, sub: Bytes, rest: seq<Bytes>, n: nat)
    requires Sane(w)
    ensures var a := After(w, [sub] + rest, n); a.Some? ==> EndsWith(a.value[1..], rest)
  {
    hide Rewrite;
    if n == 0 {
      assert ([sub] + rest)[1..] == rest;
    } else {
      AfterKeepsTail(w, sub, rest, n - 1);
      var a := After(w, [sub] + rest, n - 1);
      if a.Some? { RewriteKeepsTail(w, a.value, rest); }
    }
  }

  lemma RewriteKeepsTail(w: World, args: seq<Bytes>, rest: seq<Bytes>)
    requires Sane(w) && args != [] && EndsWith(args[1..], rest)
    ensures var t := Rewrite(w, args);
      && (t.Go? ==> EndsWith(t.args[1..], rest))
      && (t.Stop? && t.outcome.Command? ==> EndsWith(t.outcome.args, rest))
      && (t.Stop? && t.outcome.Shell? ==> EndsWith(t.outcome.args, rest))
  {
    hide Rewrite, NextHead;
    RewriteHead(w, args);
    match Rewrite(w, args) {
      case Go(more) =>
        var e := Rewrite(w, [args[0]]).args;
        assert more[1..] == e[1..] + args[1..];
      case Stop(_) => RewriteStop(w, args);
    }
  }

  lemma RewriteStop(w: World, args: seq<Bytes>)
    requires Sane(w) && args != []
    ensures var t := Rewrite(w, args);
      && (t.Stop? && t.outcome.Command? ==> t.outcome.args == args[1..] && t.outcome.head == args[0])
      && (t.Stop? && t.outcome.Shell? ==> t.outcome.args == args[1..])
  {
    hide S.Scan, Lookup;
  }

  /** Whatever command a resolution ends in still ends with the arguments the user typed behind the alias. */
  lemma ArgumentsKept(w: World, sub: Bytes, rest: seq<Bytes>, n: nat, r: Outcome)
    requires Sane(w) && After(w, [sub] + rest, n).Some? && Rewrite(w, After(w, [sub] + rest, n).value) == Stop(r)
    ensures r.Command? || r.Shell? ==> EndsWith(r.args, rest)
  {
    hide Rewrite, After;
    AfterKeepsTail(w, sub, rest, n);
    RewriteKeepsTail(w, After(w, [sub] + rest, n).value, rest);
  }

  // ---- which setting wins, and what a name becomes --------------------------------------------------

  /** The setting is for that name: as a variable whatever the case of either, as a subsection byte for byte. */
  predicate For(s: Setting, name: Bytes) {
    if s.Sub? then s.name == name
    else |s.name| == |name| && forall i :: 0 <= i < |name| ==>
      s.name[i] == name[i] || (65 <= s.name[i] <= 90 && name[i] == s.name[i] + 32)
      || (65 <= name[i] <= 90 && s.name[i] == name[i] + 32)
  }

  lemma NamesIs(s: Setting, name: Bytes)
    ensures Names(s, name) <==> For(s, name)
  {
    if s.Flat? {
      var a, b := LowerAll(s.name), LowerAll(name);
      if |a| == |b| && (forall i :: 0 <= i < |a| ==> a[i] == b[i]) { assert a == b; }
      assert a == b ==> forall i :: 0 <= i < |name| ==> a[i] == b[i] == Lower(s.name[i]) == Lower(name[i]);
    }
  }

  /** A value is found exactly if it is that of the last setting for the name. */
  lemma {:induction false} LastSettingWins(table: seq<Setting>, name: Bytes, value: Bytes)
    ensures Lookup(table, name) == Some(value) <==>
      exists i :: 0 <= i < |table| && For(table[i], name) && table[i].value == value
        && forall j :: i < j < |table| ==> !For(table[j], name)
    ensures Lookup(table, name) == None <==> forall i :: 0 <= i < |table| ==> !For(table[i], name)
  {
    hide Names, For;
    if table != [] {
      var n := |table| - 1;
      NamesIs(table[n], name);
      LastSettingWins(table[..n], name, value);
    }
  }

  /** `co` */
  const CO: Bytes := [99, 111]

  /** `st` */
  const ST: Bytes := [115, 116]

  /**
   `alias.co = "st -b"`, `alias.sh = "!x"` and `alias.lo = "lo"`, with `st` the one verb, and no options among them.
   */
  function Aliases(): World {
    World({ST}, [Flat(CO, [115, 116, 32, 45, 98]), Flat([115, 104], [33, 120]), Flat([108, 111], [108, 111])],
      e => Consumed(0, false))
  }

  lemma TableIs(name: Bytes)
    ensures Lookup(Aliases().table, name) ==
      if For(Aliases().table[2], name) then Some([108, 111])
      else if For(Aliases().table[1], name) then Some([33, 120])
      else if For(Aliases().table[0], name) then Some([115, 116, 32, 45, 98])
      else None
  {
    hide For, Lookup;
    var t := Aliases().table;
    LookupLast(t, name);
    LookupLast(t[..2], name);
    LookupLast(t[..1], name);
    assert t[..2][..1] == t[..1] && t[..2][1] == t[1] && t[..1][0] == t[0] && t[..1][..0] == [];
    LookupNothing(name);
  }

  lemma LookupLast(table: seq<Setting>, name: Bytes)
    requires table != []
    ensures var n := |table| - 1;
      Lookup(table, name) == if For(table[n], name) then Some(table[n].value) else Lookup(table[..n], name)
  {
    hide For, Names;
    NamesIs(table[|table| - 1], name);
  }

  lemma LookupNothing(name: Bytes)
    ensures Lookup([], name) == None
  {
  }

  lemma LookedUp()
    ensures var t := Aliases().table;
      && Lookup(t, CO) == Some([115, 116, 32, 45, 98]) && Lookup(t, [67, 79]) == Some([115, 116, 32, 45, 98])
      && Lookup(t, [115, 104]) == Some([33, 120]) && Lookup(t, [108, 111]) == Some([108, 111])
      && Lookup(t, [120]) == None
  {
    hide Lookup;
    LookedUpFirst();
    var t, sh, lo := Aliases().table, [115, 104], [108, 111];
    TableIs(sh);
    TableIs(lo);
    TableIs([120]);
    assert sh[0] == 115 && t[2].name[0] == 108 && t[0].name[0] == 99;
    assert For(t[1], sh) && For(t[2], lo) && !For(t[2], sh);
  }

  lemma LookedUpFirst()
    ensures Lookup(Aliases().table, CO) == Some([115, 116, 32, 45, 98])
    ensures Lookup(Aliases().table, [67, 79]) == Some([115, 116, 32, 45, 98])
  {
    hide Lookup;
    var t, upper := Aliases().table, [67, 79];
    TableIs(CO);
    TableIs(upper);
    assert upper[0] == 67 && upper[1] == 79 && CO[0] == 99 && CO[1] == 111;
    assert For(t[0], upper) && For(t[0], CO);
    assert t[1].name[0] == 115 && t[2].name[0] == 108;
  }

  /** `st -b` and `lo` split as one would. */
  lemma Splits()
    ensures S.Scan([115, 116, 32, 45, 98], 0, [], []) == S.Words([ST, [45, 98]])
    ensures S.Scan([108, 111], 0, [], []) == S.Words([[108, 111]])
  {
    hide S.Scan, S.SkipBlanks;
    SplitsOne();
    var s := [115, 116, 32, 45, 98];
    var none: Bytes := [];
    var words: seq<Bytes> := [];
    assert s[0..] == s && s[5..] == [];
    assert none + [115] == [115] && [115] + [116] == ST && words + [ST] == [ST] && none + [45] == [45];
    assert [45] + [98] == [45, 98] && [ST] + [[45, 98]] == [ST, [45, 98]];
    S.ScanAt(s, 0, NUL, none, words);
    S.ScanAt(s, 1, NUL, [115], words);
    S.ScanAt(s, 2, NUL, ST, words);
    S.SkipAt(s, 3);
    S.ScanAt(s, 3, NUL, none, [ST]);
    S.ScanAt(s, 4, NUL, [45], [ST]);
    S.ScanAt(s, 5, NUL, [45, 98], [ST]);
  }

  lemma SplitsOne()
    ensures S.Scan([108, 111], 0, [], []) == S.Words([[108, 111]])
  {
    hide S.Scan;
    var s := [108, 111];
    var none: Bytes := [];
    var words: seq<Bytes> := [];
    assert s[0..] == s && s[2..] == [];
    assert none + [108] == [108] && [108] + [111] == [108, 111] && words + [[108, 111]] == [[108, 111]];
    S.ScanAt(s, 0, NUL, none, words);
    S.ScanAt(s, 1, NUL, [108], words);
    S.ScanAt(s, 2, NUL, [108, 111], words);
  }

  /** A verb and an unknown name stand for themselves, an alias for its words before the arguments, one that begins with
   `!` for a shell command, and one that is its own head for ever for itself. */
  lemma NamesBecome(rest: seq<Bytes>)
    ensures var w := Aliases();
      && Sane(w)
      && Rewrite(w, [ST] + rest) == Stop(Command(ST, rest))
      && Rewrite(w, [[120]] + rest) == Stop(Command([120], rest))
      && Rewrite(w, [CO] + rest) == Rewrite(w, [[67, 79]] + rest) == Go([ST, [45, 98]] + rest)
      && Rewrite(w, [[115, 104]] + rest) == Stop(Shell([120], rest))
      && Rewrite(w, [[108, 111]] + rest) == Go([[108, 111]] + rest) && Endless(w, [[108, 111]] + rest)
  {
    hide Lookup, S.Scan, Rewrite, Endless;
    var w := Aliases();
    LookedUp();
    Splits();
    AliasesAre();
    RewriteVerb(w, [ST] + rest);
    RewriteAlias(w, [[120]] + rest);
    RewriteAlias(w, [CO] + rest);
    RewriteAlias(w, [[67, 79]] + rest);
    RewriteAlias(w, [[115, 104]] + rest);
    RewriteAlias(w, [[108, 111]] + rest);
    HeadAndRest(ST, rest);
    HeadAndRest([120], rest);
    HeadAndRest(CO, rest);
    HeadAndRest([67, 79], rest);
    HeadAndRest([115, 104], rest);
    HeadAndRest([108, 111], rest);
    assert [33, 120][1..] == [120] && [ST, [45, 98]][0..] == [ST, [45, 98]] && [[108, 111]][0..] == [[108, 111]];
    var lo := [[108, 111]] + rest;
    Looped(w, lo);
  }

  lemma AliasesAre()
    ensures var w := Aliases();
      && Sane(w) && w.verbs == {ST} && (forall e :: w.options(e) == Consumed(0, false))
      && CO !in w.verbs && [67, 79] !in w.verbs && [115, 104] !in w.verbs && [108, 111] !in w.verbs && [120] !in w.verbs
  {
    assert ST[0] == 115 && ST[1] == 116 && |[120]| == 1 && CO[0] == 99 && [67, 79][0] == 67 && [108, 111][0] == 108;
    assert [115, 104][1] == 104;
  }

  lemma HeadAndRest(head: Bytes, rest: seq<Bytes>)
    ensures ([head] + rest)[0] == head && ([head] + rest)[1..] == rest
  {
  }

  lemma Looped(w: World, args: seq<Bytes>)
    requires Sane(w) && args != [] && Rewrite(w, args) == Go(args)
    ensures Endless(w, args)
  {
    hide Rewrite, Endless;
    assert After(w, args, 0) == Some(args) && After(w, args, 1) == Some(args);
    CycleEndless(w, args, 0, 1);
  }

  /** `-p st`, `-C d st`, `-h` and `-p`: options ahead of what an alias stands for. */
  function WithOptions(value: Bytes): World {
    World({ST}, [Flat(CO, value)], (e: seq<Bytes>) =>
      if e != [] && e[0] == [45, 112] then Consumed(1, false)
      else if |e| >= 2 && e[0] == [45, 67] then Consumed(2, true)
      else if e != [] && e[0] == [45, 104] then Quit
      else Consumed(0, false))
  }

  /**
   Options an alias may have are dropped from its words, those that change the environment refuse it, one that ends
   the program ends it, and an alias of options alone is empty; a verb is never an alias.
   */
  lemma OptionsTaken(value: Bytes, words: seq<Bytes>, rest: seq<Bytes>)
    requires S.Scan(value, 0, [], []) == S.Words(words) && (value != [] ==> value[0] != 33)
    ensures var w := WithOptions(value);
      && Sane(w)
      && (words == [[45, 112], ST] ==> Rewrite(w, [CO] + rest) == Go([ST] + rest))
      && (words == [[45, 67], [100], ST] ==> Rewrite(w, [CO] + rest) == Stop(ChangesEnvironment(CO)))
      && (words == [[45, 104]] ==> Rewrite(w, [CO] + rest) == Stop(Exits))
      && (words == [[45, 112]] ==> Rewrite(w, [CO] + rest) == Stop(Empty(CO)))
      && (words == [[120]] ==> Rewrite(w, [CO] + rest) == Go([[120]] + rest))
    ensures Rewrite(WithOptions(value).(table := [Flat(ST, value)]), [ST] + rest) == Stop(Command(ST, rest))
  {
    hide Lookup, S.Scan, Rewrite, WithOptions;
    var w := WithOptions(value);
    HeadAndRest(CO, rest);
    HeadAndRest(ST, rest);
    OptionsAre(value, words);
    OneAlias(value);
    RewriteAlias(w, [CO] + rest);
    RewriteVerb(w.(table := [Flat(ST, value)]), [ST] + rest);
    assert words == [[45, 112], ST] ==> words[1..] == [ST];
    assert words == [[45, 112]] ==> words[1..] == [];
    assert words[0..] == words;
  }

  lemma OptionsAre(value: Bytes, words: seq<Bytes>)
    ensures var w := WithOptions(value);
      && Sane(w) && Sane(w.(table := [Flat(ST, value)])) && CO !in w.verbs && ST in w.verbs
      && (words == [[45, 112], ST] || words == [[45, 112]] ==> w.options(words) == Consumed(1, false))
      && (words == [[45, 67], [100], ST] ==> w.options(words) == Consumed(2, true))
      && (words == [[45, 104]] ==> w.options(words) == Quit)
      && (words == [[120]] ==> w.options(words) == Consumed(0, false))
  {
    assert CO[0] == 99 && ST[0] == 115;
    assert [45, 112][1] == 112 && [45, 67][1] == 67 && [45, 104][1] == 104 && |[120]| == 1;
  }

  lemma OneAlias(value: Bytes)
    ensures Lookup(WithOptions(value).table, CO) == Some(value)
  {
    hide Lookup;
    var t := WithOptions(value).table;
    LookupLast(t, CO);
    assert For(t[0], CO);
  }
}
