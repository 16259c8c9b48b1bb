/**
 The replay of `ordered_occurrences_in`: the walk with the dropped entries skipped and the
 overrides told at the splice point.
 */
module CommandLineOrder {
  import opened Bytes
  import opened CommandLine
  import opened Optional
  import P = Places

  /** What the callback is given: an entry of the walk, or an override as typed. */
  datatype Item = Walked(entry: Entry) | Typed(key: Bytes, value: Option<Bytes>)

  function Items(es: seq<Entry>): (r: seq<Item>)
    ensures |r| == |es| && forall i :: 0 <= i < |es| ==> r[i] == Walked(es[i])
  {
    seq(|es|, i requires 0 <= i < |es| => Walked(es[i]))
  }

  /** The entries before `n` that are not dropped. */
  function Kept(es: seq<Entry>, drop: seq<bool>, from: nat, n: nat): seq<Item>
    requires from <= n <= |es| && |drop| == |es|
  {
    if n == from then []
    else Kept(es, drop, from, n - 1) + if drop[n - 1] then [] else [Walked(es[n - 1])]
  }

  /** The first `n` overrides, each with what it included. */
  function Replayed(es: seq<Entry>, os: seq<Override>, included: seq<Span>, n: nat): seq<Item>
    requires n <= |os| && |included| == |os|
    requires forall k :: 0 <= k < |os| ==> included[k].from <= included[k].end <= |es|
  {
    if n == 0 then []
    else (
      Replayed(es, os, included, n - 1)
      + [Typed(NormalizeKey(os[n - 1].key), os[n - 1].value)]
      + Items(es[included[n - 1].from..included[n - 1].end]))
  }

  ghost predicate Fits(es: seq<Entry>, os: seq<Override>, s: Splice) {
    |s.drop| == |es| && |s.included| == |os| && s.at <= |es|
    && forall k :: 0 <= k < |os| ==> s.included[k].from <= s.included[k].end <= |es|
  }

  ghost function Ordered(es: seq<Entry>, os: seq<Override>, s: Splice): seq<Item>
    requires Fits(es, os, s)
  {
    Kept(es, s.drop, 0, s.at) + Replayed(es, os, s.included, |os|) + Kept(es, s.drop, s.at, |es|)
  }

  lemma SpliceFits(es: seq<Entry>, os: seq<Override>, s: Splice)
    requires IsSplice(es, os, s)
    ensures Fits(es, os, s)
  {
    hide IsCopy, PulledIn;
  }

  /** The overrides, each followed by what it included. */
  method Replay(es: seq<Entry>, os: seq<Override>, included: seq<Span>) returns (out: seq<Item>)
    requires |included| == |os| && forall k :: 0 <= k < |os| ==> included[k].from <= included[k].end <= |es|
    ensures out == Replayed(es, os, included, |os|)
  {
    hide NormalizeKey, Items;
    out := [];
    for k := 0 to |os|
      invariant out == Replayed(es, os, included, k)
    {
      out := out + [Typed(NormalizeKey(os[k].key), os[k].value)];
      out := out + Items(es[included[k].from..included[k].end]);
    }
  }

  /** `ordered_occurrences_in`, from the snapshot on. */
  method OrderedOccurrences(es: seq<Entry>, os: seq<Override>) returns (out: seq<Item>)
    ensures os == [] ==> out == Items(es)
    ensures os != [] ==> exists s :: IsSplice(es, os, s) && Fits(es, os, s) && out == Ordered(es, os, s)
  {
    hide IsSplice, Replayed;
    var splice := CommandLineSplice(es, os);
    if splice.None? { return Items(es); }
    var s := splice.value;
    SpliceFits(es, os, s);
    out := [];
    ghost var before: seq<Item> := [];
    for i := 0 to |es|
      invariant i <= s.at ==> out == Kept(es, s.drop, 0, i)
      invariant i > s.at ==>
        out == Kept(es, s.drop, 0, s.at) + Replayed(es, os, s.included, |os|) + Kept(es, s.drop, s.at, i)
    {
      if i == s.at {
        var r := Replay(es, os, s.included);
        out := out + r;
        assert out + Kept(es, s.drop, s.at, i) == out;
      }
      if !s.drop[i] {
        out := out + [Walked(es[i])];
      }
    }
    if s.at == |es| {
      var r := Replay(es, os, s.included);
      out := out + r;
      assert out + Kept(es, s.drop, s.at, |es|) == out;
    }
  }

  // ---- stretches of a walk

  lemma {:induction false} KeptAll(es: seq<Entry>, drop: seq<bool>, a: nat, b: nat)
    requires a <= b <= |es| && |drop| == |es| && forall i :: a <= i < b ==> !drop[i]
    ensures Kept(es, drop, a, b) == Items(es[a..b])
  {
    if a < b {
      KeptAll(es, drop, a, b - 1);
      assert Items(es[a..b]) == Items(es[a..b - 1]) + [Walked(es[b - 1])];
    }
  }

  lemma {:induction false} KeptFrom(es: seq<Entry>, drop: seq<bool>, a: nat, b: nat, c: nat)
    requires a <= b <= c <= |es| && |drop| == |es|
    ensures Kept(es, drop, a, c) == Kept(es, drop, a, b) + Kept(es, drop, b, c)
  {
    if b < c { KeptFrom(es, drop, a, b, c - 1); }
  }

  lemma {:induction false} KeptNone(es: seq<Entry>, drop: seq<bool>, a: nat, b: nat)
    requires a <= b <= |es| && |drop| == |es| && forall i :: a <= i < b ==> drop[i]
    ensures Kept(es, drop, a, b) == []
  {
    if a < b { KeptNone(es, drop, a, b - 1); }
  }
}
