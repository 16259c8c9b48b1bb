/**
 The stdout buffer of cstdio.rs, with the boundaries of subcommands run in process, for writes
 that succeed. Buffering is described in section 7.19.3 of ISO/IEC 9899:1999.
 */
module CStdio {
  import opened Bytes

  /** How much a `Block` writer holds before it writes out. */
  const BLOCK: nat := 64 * 1024

  /** What has reached the file descriptor, what is held back, and whether a command asked for buffering. */
  datatype Stream = Stream(emitted: Bytes, buffer: Bytes, deferred: bool)

  /** What a program does with the stream; `Run` is a `RunCommand` guard around what the subcommand does. */
  datatype Action = Defer | Write(bytes: Bytes) | BlockWrite(bytes: Bytes) | Flush | Run(body: seq<Action>)

  function Flushed(s: Stream): Stream { s.(emitted := s.emitted + s.buffer, buffer := []) }

  /** The length up to and including the last line feed. */
  function WholeLines(s: Bytes): (n: nat)
    ensures n <= |s| && (n > 0 ==> s[n - 1] == LF) && forall i :: n <= i < |s| ==> s[i] != LF
  {
    if s == [] then 0 else if s[|s| - 1] == LF then |s| else WholeLines(s[..|s| - 1])
  }

  /** `write_bytes_io` */
  function Written(s: Stream, bytes: Bytes, interactive: bool): Stream {
    if !s.deferred then Stream(s.emitted + s.buffer + bytes, [], false)
    else
      var held := s.buffer + bytes;
      var n := if interactive then WholeLines(held) else 0;
      s.(emitted := s.emitted + held[..n], buffer := held[n..])
  }

  /** `Block::write` */
  function BlockWritten(s: Stream, bytes: Bytes): Stream {
    var t := s.(buffer := s.buffer + bytes);
    if |t.buffer| >= BLOCK then Flushed(t) else t
  }

  function Perform(s: Stream, a: Action, interactive: bool): Stream
    decreases a, 1
  {
    match a
    case Defer => s.(deferred := true)
    case Write(bytes) => Written(s, bytes, interactive)
    case BlockWrite(bytes) => BlockWritten(s, bytes)
    case Flush => Flushed(s)
    case Run(body) => Flushed(PerformAll(Flushed(s).(deferred := false), body, interactive)).(deferred := s.deferred)
  }

  function PerformAll(s: Stream, actions: seq<Action>, interactive: bool): Stream
    decreases actions, 0
  {
    if actions == [] then s else PerformAll(Perform(s, actions[0], interactive), actions[1..], interactive)
  }

  // ---- the buffer ---------------------------------------------------------------------------

  class Stdout {
    const interactive: bool
    var emitted: Bytes
    var buffer: Bytes
    var deferred: bool

    ghost function State(): Stream
      reads this
    {
      Stream(emitted, buffer, deferred)
    }

    constructor (interactive: bool)
      ensures this.interactive == interactive && State() == Stream([], [], false)
    {
      this.interactive := interactive;
      emitted, buffer, deferred := [], [], false;
    }

    /** `defer` */
    method Arm()
      modifies this`deferred
      ensures State() == Perform(old(State()), Defer, interactive)
    {
      deferred := true;
    }

    /** `write_out`, for a write that succeeds. */
    method WriteOut()
      modifies this`emitted, this`buffer
      ensures State() == Flushed(old(State()))
    {
      if buffer == [] {
        assert emitted + [] == emitted;
        return;
      }
      emitted := emitted + buffer;
      buffer := [];
    }

    /** `flush` */
    method FlushAll()
      modifies this`emitted, this`buffer
      ensures State() == Perform(old(State()), Flush, interactive)
    {
      WriteOut();
    }

    /** `write_bytes_io` */
    method WriteBytes(bytes: Bytes)
      modifies this`emitted, this`buffer
      ensures State() == Perform(old(State()), Write(bytes), interactive)
    {
      if !deferred {
        WriteOut();
        emitted := emitted + bytes;
        return;
      }
      buffer := buffer + bytes;
      if interactive {
        var nl := |buffer|;
        while nl > 0 && buffer[nl - 1] != LF
          invariant 0 <= nl <= |buffer| && forall i :: nl <= i < |buffer| ==> buffer[i] != LF
        {
          nl := nl - 1;
        }
        LastLine(buffer, nl);
        if nl > 0 {
          var tail := buffer[nl..];
          emitted := emitted + buffer[..nl];
          buffer := tail;
        } else {
          NothingWhole(emitted, buffer);
        }
      } else {
        NothingWhole(emitted, buffer);
      }
    }

    /** `Block::write` */
    method WriteBlock(bytes: Bytes)
      modifies this`emitted, this`buffer
      ensures State() == Perform(old(State()), BlockWrite(bytes), interactive)
      ensures |buffer| < BLOCK
    {
      buffer := buffer + bytes;
      if |buffer| >= BLOCK {
        WriteOut();
      }
    }

    /** `run_command`: the guard holds the caller's flag. */
    method EnterCommand() returns (parentDeferred: bool)
      modifies this
      ensures State() == Flushed(old(State())).(deferred := false) && parentDeferred == old(deferred)
    {
      WriteOut();
      parentDeferred := deferred;
      deferred := false;
    }

    /** The guard's `drop`. */
    method LeaveCommand(parentDeferred: bool)
      modifies this
      ensures State() == Flushed(old(State())).(deferred := parentDeferred)
    {
      WriteOut();
      deferred := parentDeferred;
    }

    /** A program run against the buffer, its guards properly nested. */
    method RunProgram(actions: seq<Action>)
      modifies this
      ensures State() == PerformAll(old(State()), actions, interactive)
      decreases actions
    {
      hide Written, BlockWritten, Flushed;
      for i := 0 to |actions|
        invariant PerformAll(State(), actions[i..], interactive) == PerformAll(old(State()), actions, interactive)
      {
        assert actions[i..][0] == actions[i] && actions[i..][1..] == actions[i + 1..];
        match actions[i]
        case Defer => Arm();
        case Write(bytes) => WriteBytes(bytes);
        case BlockWrite(bytes) => WriteBlock(bytes);
        case Flush => FlushAll();
        case Run(body) =>
          var guard := EnterCommand();
          RunProgram(body);
          LeaveCommand(guard);
      }
    }
  }

  lemma LastLine(s: Bytes, n: nat)
    requires n <= |s| && (n > 0 ==> s[n - 1] == LF) && forall i :: n <= i < |s| ==> s[i] != LF
    ensures WholeLines(s) == n
  {
    hide WholeLines;
    assert WholeLines(s) <= n && n <= WholeLines(s);
  }

  lemma NothingWhole(emitted: Bytes, s: Bytes)
    ensures emitted + s[..0] == emitted && s[0..] == s
  {
  }

  // ---- nothing is lost or reordered -----------------------------------------------------------

  /** Everything a program writes, in program order, whatever runs in process included. */
  function Output(actions: seq<Action>): Bytes
    decreases actions
  {
    if actions == [] then [] else OutputOf(actions[0]) + Output(actions[1..])
  }

  function OutputOf(a: Action): Bytes
    decreases a, 0
  {
    match a
    case Write(bytes) => bytes
    case BlockWrite(bytes) => bytes
    case Run(body) => Output(body)
    case _ => []
  }

  /** What has been written in all, emitted or not. */
  function Total(s: Stream): Bytes { s.emitted + s.buffer }

  lemma FlushKeeps(s: Stream)
    ensures Total(Flushed(s)) == Total(s) && s.emitted <= Flushed(s).emitted
  {
    assert s.emitted + s.buffer + [] == s.emitted + s.buffer;
  }

  lemma WriteKeeps(s: Stream, bytes: Bytes, interactive: bool)
    ensures Total(Written(s, bytes, interactive)) == Total(s) + bytes
    ensures s.emitted <= Written(s, bytes, interactive).emitted
  {
    hide WholeLines;
    var held := s.buffer + bytes;
    var n := if interactive then WholeLines(held) else 0;
    CutJoins(s.emitted, held, n);
    Joins(s.emitted, s.buffer, bytes);
  }

  lemma CutJoins(e: Bytes, held: Bytes, n: nat)
    requires n <= |held|
    ensures e + held[..n] + held[n..] == e + held && e <= e + held[..n]
  {
    assert held[..n] + held[n..] == held;
  }

  lemma Joins(e: Bytes, b: Bytes, c: Bytes)
    ensures e + (b + c) == e + b + c && e + b + c + [] == e + b + c && e <= e + b + c
  {
  }

  lemma BlockKeeps(s: Stream, bytes: Bytes)
    ensures Total(BlockWritten(s, bytes)) == Total(s) + bytes && s.emitted <= BlockWritten(s, bytes).emitted
  {
    var t := s.(buffer := s.buffer + bytes);
    FlushKeeps(t);
    assert s.emitted + (s.buffer + bytes) == s.emitted + s.buffer + bytes;
  }

  lemma {:induction false} ActionKeeps(s: Stream, a: Action, interactive: bool)
    ensures var t := Perform(s, a, interactive); Total(t) == Total(s) + OutputOf(a) && s.emitted <= t.emitted
    decreases a, 1
  {
    hide Written, BlockWritten, Flushed, Total, Output;
    match a {
      case Defer =>
        TotalIs(s, s.(deferred := true));
        assert Total(s) + [] == Total(s);
      case Write(bytes) => WriteKeeps(s, bytes, interactive);
      case BlockWrite(bytes) => BlockKeeps(s, bytes);
      case Flush =>
        FlushKeeps(s);
        assert Total(s) + [] == Total(s);
      case Run(body) =>
        var f := Flushed(s);
        FlushKeeps(s);
        TotalIs(f, f.(deferred := false));
        AllKeep(f.(deferred := false), body, interactive);
        var g := PerformAll(f.(deferred := false), body, interactive);
        FlushKeeps(g);
        TotalIs(Flushed(g), Flushed(g).(deferred := s.deferred));
    }
  }

  lemma TotalIs(s: Stream, t: Stream)
    requires s.emitted == t.emitted && s.buffer == t.buffer
    ensures Total(s) == Total(t)
  {
  }

  lemma OutputNext(actions: seq<Action>)
    requires actions != []
    ensures Output(actions) == OutputOf(actions[0]) + Output(actions[1..])
    ensures Output([]) == []
  {
  }

  /** For any run of writes, flushes and properly nested subcommands, what is emitted and what is held are together all
   that was written, in program order; and what is emitted is never taken back. */
  lemma {:induction false} AllKeep(s: Stream, actions: seq<Action>, interactive: bool)
    ensures var t := PerformAll(s, actions, interactive);
      Total(t) == Total(s) + Output(actions) && s.emitted <= t.emitted
    decreases actions, 0
  {
    hide Perform, Total, Output, OutputOf;
    if actions == [] {
      NoOutput();
      assert Total(s) + [] == Total(s);
    } else {
      ActionKeeps(s, actions[0], interactive);
      var t := Perform(s, actions[0], interactive);
      AllKeep(t, actions[1..], interactive);
      OutputNext(actions);
      assert Total(s) + OutputOf(actions[0]) + Output(actions[1..]) ==
        Total(s) + (OutputOf(actions[0]) + Output(actions[1..]));
    }
  }

  lemma NoOutput()
    ensures Output([]) == []
  {
  }

  /**
   A subcommand's boundary: when its guard drops, all it wrote has been emitted, behind all that was written before
   it, and the caller's buffering is as it was.
   */
  lemma BoundaryRestored(s: Stream, body: seq<Action>, interactive: bool)
    ensures Perform(s, Run(body), interactive) == Stream(Total(s) + Output(body), [], s.deferred)
  {
    hide PerformAll, Output;
    var f := Flushed(s).(deferred := false);
    AllKeep(f, body, interactive);
    assert s.emitted + s.buffer + [] == s.emitted + s.buffer;
  }

  lemma LinesReleased(s: Stream, bytes: Bytes, interactive: bool)
    ensures interactive || !s.deferred ==> LF !in Written(s, bytes, interactive).buffer
  {
  }

  /** On a terminal no complete line is ever held: from a stream that holds none, no program leaves one held that does
   not write by the block outside its subcommands. */
  lemma {:induction false} NoLineHeld(s: Stream, actions: seq<Action>)
    requires LF !in s.buffer && forall i :: 0 <= i < |actions| ==> !actions[i].BlockWrite?
    ensures LF !in PerformAll(s, actions, true).buffer
    decreases |actions|
  {
    hide Perform, Written;
    if actions != [] {
      ActionHolds(s, actions[0]);
      NoLineHeld(Perform(s, actions[0], true), actions[1..]);
    }
  }

  lemma ActionHolds(s: Stream, a: Action)
    requires LF !in s.buffer && !a.BlockWrite?
    ensures LF !in Perform(s, a, true).buffer
  {
    hide Written, PerformAll;
    if a.Write? { LinesReleased(s, a.bytes, true); }
  }

  /** Off a terminal an armed stream holds all that is written until the next flush. */
  lemma {:induction false} HeldTillFlush(s: Stream, actions: seq<Action>)
    requires s.deferred && forall i :: 0 <= i < |actions| ==> actions[i].Write? || actions[i].Defer?
    ensures PerformAll(s, actions, false) == s.(buffer := s.buffer + Output(actions))
    decreases |actions|
  {
    hide Output, OutputOf, WholeLines;
    if actions == [] {
      NoOutput();
      assert s.buffer + [] == s.buffer;
    } else {
      var bytes := OutputOf(actions[0]);
      OneHeld(s, actions[0]);
      HeldTillFlush(s.(buffer := s.buffer + bytes), actions[1..]);
      OutputNext(actions);
      assert s.buffer + bytes + Output(actions[1..]) == s.buffer + (bytes + Output(actions[1..]));
    }
  }

  lemma OneHeld(s: Stream, a: Action)
    requires s.deferred && (a.Write? || a.Defer?)
    ensures Perform(s, a, false) == s.(buffer := s.buffer + OutputOf(a))
  {
    assert s.buffer + [] == s.buffer;
    var held := s.buffer + OutputOf(a);
    assert s.emitted + held[..0] == s.emitted;
  }

  // ---- what each step does, on every program ----------------------------------------------------

  lemma {:induction false} PerformOn(s: Stream, a: seq<Action>, b: seq<Action>, interactive: bool)
    ensures PerformAll(s, a + b, interactive) == PerformAll(PerformAll(s, a, interactive), b, interactive)
    decreases |a|
  {
    hide Perform;
    if a == [] {
      assert a + b == b;
    } else {
      assert (a + b)[0] == a[0] && (a + b)[1..] == a[1..] + b;
      PerformOn(Perform(s, a[0], interactive), a[1..], b, interactive);
    }
  }

  /** A stream is armed from the first `defer` on, whatever subcommands do to their own. */
  lemma {:induction false} ArmedIs(s: Stream, actions: seq<Action>, interactive: bool)
    ensures PerformAll(s, actions, interactive).deferred == (s.deferred || Defer in actions)
    decreases |actions|
  {
    hide Written, BlockWritten, Perform;
    if actions != [] {
      ArmedNext(s, actions[0], interactive);
      ArmedIs(Perform(s, actions[0], interactive), actions[1..], interactive);
      assert actions == [actions[0]] + actions[1..];
    }
  }

  lemma ArmedNext(s: Stream, a: Action, interactive: bool)
    ensures Perform(s, a, interactive).deferred == (s.deferred || a == Defer)
  {
  }

  /** A flush behind any program emits all that was written and holds nothing; the stream stays armed if it was. */
  lemma FlushedOut(s: Stream, actions: seq<Action>, interactive: bool)
    ensures PerformAll(s, actions + [Flush], interactive) ==
      Stream(s.emitted + s.buffer + Output(actions), [], s.deferred || Defer in actions)
  {
    hide PerformAll, Output;
    var t := PerformAll(s, actions, interactive);
    PerformOn(s, actions, [Flush], interactive);
    AllKeep(s, actions, interactive);
    ArmedIs(s, actions, interactive);
    PerformOne(t, Flush, interactive);
  }

  lemma PerformOne(s: Stream, a: Action, interactive: bool)
    ensures PerformAll(s, [a], interactive) == Perform(s, a, interactive)
  {
    assert [a][1..] == [];
  }

  /** Unarmed, every write goes straight out, behind whatever a block writer has left. */
  lemma {:induction false} StraightThrough(s: Stream, actions: seq<Action>, interactive: bool)
    requires !s.deferred && actions != [] && forall i :: 0 <= i < |actions| ==> actions[i].Write?
    ensures PerformAll(s, actions, interactive) == Stream(s.emitted + s.buffer + Output(actions), [], false)
    decreases |actions|
  {
    hide Output;
    OutputNext(actions);
    var t := Perform(s, actions[0], interactive);
    if |actions| == 1 {
      assert actions[1..] == [];
      assert OutputOf(actions[0]) + [] == OutputOf(actions[0]);
    } else {
      StraightThrough(t, actions[1..], interactive);
      var a, b := OutputOf(actions[0]), Output(actions[1..]);
      assert s.emitted + s.buffer + a + [] + b == s.emitted + s.buffer + (a + b);
    }
  }

  /** Armed and on a terminal, a write lets go of everything up to its last line end. */
  lemma LinesGo(s: Stream, line: Bytes, rest: Bytes)
    requires s.deferred && 10 !in rest
    ensures Perform(s, Write(line + [10] + rest), true) == Stream(s.emitted + s.buffer + line + [10], rest, true)
    ensures 10 !in s.buffer ==> Perform(s, Write(rest), true) == Stream(s.emitted, s.buffer + rest, true)
  {
    hide WholeLines;
    var held, n := s.buffer + (line + [10] + rest), |s.buffer| + |line| + 1;
    assert held == s.buffer + line + [10] + rest;
    assert held[n - 1] == 10 && held[n..] == rest && held[..n] == s.buffer + line + [10];
    LastLine(held, n);
    assert s.emitted + (s.buffer + line + [10]) == s.emitted + s.buffer + line + [10];
    if 10 !in s.buffer {
      LastLine(s.buffer + rest, 0);
      NothingWhole(s.emitted, s.buffer + rest);
    }
  }

  /** What is written by the block is held while it is short of 65536 bytes, and all of it goes when it is not. */
  lemma {:induction false} BlocksHeld(s: Stream, actions: seq<Action>, interactive: bool)
    requires forall i :: 0 <= i < |actions| ==> actions[i].BlockWrite?
    ensures |s.buffer| + |Output(actions)| < 65536 ==>
      PerformAll(s, actions, interactive) == s.(buffer := s.buffer + Output(actions))
    ensures |actions| == 1 && |s.buffer| + |Output(actions)| >= 65536 ==>
      PerformAll(s, actions, interactive) == Stream(s.emitted + s.buffer + Output(actions), [], s.deferred)
    decreases |actions|
  {
    hide Output;
    if actions == [] {
      NoOutput();
      assert s.buffer + [] == s.buffer;
    } else {
      OutputNext(actions);
      NoOutput();
      var a, b := OutputOf(actions[0]), Output(actions[1..]);
      BlocksHeld(s.(buffer := s.buffer + a), actions[1..], interactive);
      assert s.buffer + a + b == s.buffer + (a + b);
      assert s.emitted + (s.buffer + a) == s.emitted + s.buffer + a;
      if |actions| == 1 {
        assert actions[1..] == [];
        assert a + b == a;
      }
    }
  }
}
