/**
 What the edits of a script do to a word, said on the word itself: the distance is the least
 cost of making one word out of the other by keeping, replacing, exchanging, putting in and
 leaving out bytes.
 */
module LevenshteinWords {
  import opened Bytes
  import opened Levenshtein
  import opened Optional

  /** One edit with the byte it writes. */
  datatype Act = Stays | Becomes(c: Byte) | Exchange | PutIn(c: Byte) | LeaveOut

  /** How many bytes of a word an act takes. */
  function Takes(a: Act): nat { match a case Exchange => 2 case PutIn(_) => 0 case _ => 1 }

  /** What the act writes for the bytes it takes. */
  function Written(a: Act, taken: Bytes): Option<Bytes>
    requires |taken| == Takes(a)
  {
    match a
    case Stays => Some(taken)
    case Becomes(c) => if c != taken[0] then Some([c]) else None
    case Exchange => Some([taken[1], taken[0]])
    case PutIn(c) => Some([c])
    case LeaveOut => Some([])
  }

  function Price(a: Act, k: Weights): int {
    match a
    case Stays => 0
    case Becomes(_) => k.subst
    case Exchange => k.swap
    case PutIn(_) => k.insert
    case LeaveOut => k.delete
  }

  function Joined(w: Option<Bytes>, end: Option<Bytes>): Option<Bytes> {
    if w.None? || end.None? then None else Some(w.value + end.value)
  }

  /** The word the acts make of `x`, the last one working on its end; nothing when they do not use up `x`. */
  function Made(acts: seq<Act>, x: Bytes): Option<Bytes> {
    if acts == [] then (if x == [] then Some([]) else None)
    else
      var a := acts[|acts| - 1];
      if Takes(a) > |x| then None
      else
        var n := |x| - Takes(a);
        Joined(Made(acts[..|acts| - 1], x[..n]), Written(a, x[n..]))
  }

  /** What the acts cost. */
  function Spent(acts: seq<Act>, k: Weights): int {
    if acts == [] then 0 else Spent(acts[..|acts| - 1], k) + Price(acts[|acts| - 1], k)
  }

  function KindOf(a: Act): Edit {
    match a
    case Stays => Keep
    case Becomes(_) => Substitute
    case Exchange => Swap
    case PutIn(_) => Insert
    case LeaveOut => Delete
  }

  function Kinds(acts: seq<Act>): (s: seq<Edit>)
    ensures |s| == |acts| && forall n :: 0 <= n < |s| ==> s[n] == KindOf(acts[n])
  {
    seq(|acts|, n requires 0 <= n < |acts| => KindOf(acts[n]))
  }

  lemma {:induction false} SpentIsCost(acts: seq<Act>, k: Weights)
    ensures Spent(acts, k) == Cost(Kinds(acts), k)
  {
    if acts != [] {
      var before := acts[..|acts| - 1];
      SpentIsCost(before, k);
      assert Kinds(acts)[..|acts| - 1] == Kinds(before);
    }
  }

  lemma KindsSnoc(acts: seq<Act>, a: Act)
    ensures Kinds(acts + [a]) == Kinds(acts) + [KindOf(a)] && Kinds([]) == []
  {
  }

  lemma NothingMade(x: Bytes, k: Weights)
    ensures Made([], x) == (if x == [] then Some([]) else None) && Spent([], k) == 0
  {
  }

  lemma MadeSnoc(acts: seq<Act>, x: Bytes, a: Act, end: Bytes)
    requires |end| == Takes(a)
    ensures Made(acts + [a], x + end) == Joined(Made(acts, x), Written(a, end))
  {
    hide Written, Joined;
    assert (acts + [a])[..|acts|] == acts && (x + end)[..|x|] == x && (x + end)[|x|..] == end;
  }

  lemma SpentSnoc(acts: seq<Act>, a: Act, k: Weights)
    ensures Spent(acts + [a], k) == Spent(acts, k) + Price(a, k)
  {
    assert (acts + [a])[..|acts|] == acts;
  }

  // ---- a script and the acts that carry it out -----------------------------------------------

  lemma Cut(s: Bytes, i: nat, n: nat)
    requires n <= i <= |s|
    ensures s[..i] == s[..i - n] + s[i - n..i] && |s[i - n..i]| == n
    ensures n == 0 ==> s[i - n..i] == []
    ensures n == 1 ==> s[i - n..i] == [s[i - 1]]
    ensures n == 2 ==> s[i - n..i] == [s[i - 2], s[i - 1]]
  {
  }

  /** The act of kind `e` that writes the end of `y[..j]`. */
  function ActFor(e: Edit, y: Bytes, j: nat): Act
    requires j <= |y| && Makes(e) <= j
  {
    match e
    case Keep => Stays
    case Substitute => Becomes(y[j - 1])
    case Swap => Exchange
    case Insert => PutIn(y[j - 1])
    case Delete => LeaveOut
  }

  lemma ActWrites(e: Edit, x: Bytes, y: Bytes, i: nat, j: nat)
    requires i <= |x| && j <= |y| && Fits(e, x, y, i, j)
    ensures Eats(e) <= i && Makes(e) <= j && Eats(e) + Makes(e) > 0
    ensures var a := ActFor(e, y, j);
      KindOf(a) == e && Takes(a) == Eats(e) && Written(a, x[i - Eats(e)..i]) == Some(y[j - Makes(e)..j])
  {
    Cut(x, i, Eats(e));
    Cut(y, j, Makes(e));
  }

  lemma WriteFits(a: Act, x: Bytes, y: Bytes, i: nat, j: nat)
    requires Takes(a) <= i <= |x| && Makes(KindOf(a)) <= j <= |y|
    requires Written(a, x[i - Takes(a)..i]) == Some(y[j - Makes(KindOf(a))..j])
    ensures Takes(a) == Eats(KindOf(a)) && Fits(KindOf(a), x, y, i, j)
  {
    var t, w := x[i - Takes(a)..i], y[j - Makes(KindOf(a))..j];
    match a {
      case Stays => assert t[0] == x[i - 1] && w[0] == y[j - 1];
      case Becomes(c) => assert t[0] == x[i - 1] && w[0] == y[j - 1] == c;
      case Exchange =>
        assert t[0] == x[i - 2] && t[1] == x[i - 1];
        assert w[0] == y[j - 2] == t[1] && w[1] == y[j - 1] == t[0];
      case PutIn(_) =>
      case LeaveOut =>
    }
  }

  /** A script that turns the one word into the other can be carried out. */
  lemma {:induction false} CarriedOut(script: seq<Edit>, x: Bytes, y: Bytes, i: nat, j: nat) returns (acts: seq<Act>)
    requires i <= |x| && j <= |y| && Turns(script, x, y, i, j)
    ensures Kinds(acts) == script && Made(acts, x[..i]) == Some(y[..j])
    decreases |script|
  {
    hide Kinds, Made, Written, Fits, Takes, ActFor;
    var none: seq<Act> := [];
    if script == [] {
      acts := none;
      KindsSnoc(none, Stays);
      NothingMade(x[..i], Weights(0, 0, 0, 0));
    } else {
      var e := script[|script| - 1];
      ActWrites(e, x, y, i, j);
      var before := CarriedOut(script[..|script| - 1], x, y, i - Eats(e), j - Makes(e));
      var a := ActFor(e, y, j);
      acts := before + [a];
      KindsSnoc(before, a);
      Cut(x, i, Eats(e));
      Cut(y, j, Makes(e));
      MadeSnoc(before, x[..i - Eats(e)], a, x[i - Eats(e)..i]);
      assert script == script[..|script| - 1] + [e];
    }
  }

  lemma LastMade(acts: seq<Act>, x: Bytes, y: Bytes)
    requires acts != [] && Made(acts, x) == Some(y)
    ensures var a := acts[|acts| - 1]; var m := Makes(KindOf(a));
      && Takes(a) <= |x| && m <= |y|
      && Made(acts[..|acts| - 1], x[..|x| - Takes(a)]) == Some(y[..|y| - m])
      && Written(a, x[|x| - Takes(a)..]) == Some(y[|y| - m..])
  {
    hide Written, Takes, KindOf, Made;
    var a := acts[|acts| - 1];
    MadeAt(acts, x);
    WrittenLength(a, x[|x| - Takes(a)..]);
    JoinedCut(Made(acts[..|acts| - 1], x[..|x| - Takes(a)]), Written(a, x[|x| - Takes(a)..]), y);
  }

  lemma MadeAt(acts: seq<Act>, x: Bytes)
    requires acts != [] && Made(acts, x).Some?
    ensures var a := acts[|acts| - 1];
      && Takes(a) <= |x| && |x[|x| - Takes(a)..]| == Takes(a)
      && Made(acts, x) == Joined(Made(acts[..|acts| - 1], x[..|x| - Takes(a)]), Written(a, x[|x| - Takes(a)..]))
  {
    hide Written, Takes, Joined;
  }

  lemma WrittenLength(a: Act, taken: Bytes)
    requires |taken| == Takes(a) && Written(a, taken).Some?
    ensures |Written(a, taken).value| == Makes(KindOf(a))
  {
  }

  lemma JoinedCut(w: Option<Bytes>, end: Option<Bytes>, y: Bytes)
    requires Joined(w, end) == Some(y)
    ensures w.Some? && end.Some? && |end.value| <= |y|
    ensures w.value == y[..|y| - |end.value|] && end.value == y[|y| - |end.value|..]
  {
  }

  /** And acts that make a word of another are a script that turns it into that word. */
  lemma {:induction false} IsScript(acts: seq<Act>, x: Bytes, y: Bytes, i: nat, j: nat)
    requires i <= |x| && j <= |y| && Made(acts, x[..i]) == Some(y[..j])
    ensures Turns(Kinds(acts), x, y, i, j)
    decreases |acts|
  {
    hide Kinds, Made, Written, Fits, Takes;
    if acts == [] {
      KindsSnoc(acts, Stays);
      NothingMade(x[..i], Weights(0, 0, 0, 0));
      assert |x[..i]| == i && |y[..j]| == j;
    } else {
      var before, a := acts[..|acts| - 1], acts[|acts| - 1];
      var m := Makes(KindOf(a));
      KindsSnoc(before, a);
      assert acts == before + [a];
      assert Kinds(acts)[..|acts| - 1] == Kinds(before);
      LastMade(acts, x[..i], y[..j]);
      assert x[..i][..i - Takes(a)] == x[..i - Takes(a)] && x[..i][i - Takes(a)..] == x[i - Takes(a)..i];
      assert y[..j][..j - m] == y[..j - m] && y[..j][j - m..] == y[j - m..j];
      WriteFits(a, x, y, i, j);
      IsScript(before, x, y, i - Takes(a), j - m);
    }
  }

  /** A script turns `x` into `y` if and only if acts of its kinds make `y` of `x`. */
  lemma TurnsIsMade(script: seq<Edit>, x: Bytes, y: Bytes)
    ensures Turns(script, x, y, |x|, |y|) <==> exists acts :: Kinds(acts) == script && Made(acts, x) == Some(y)
  {
    hide Kinds, Made, Turns;
    assert x[..|x|] == x && y[..|y|] == y;
    if Turns(script, x, y, |x|, |y|) {
      var acts := CarriedOut(script, x, y, |x|, |y|);
      assert Kinds(acts) == script && Made(acts, x) == Some(y);
    }
    if acts :| Kinds(acts) == script && Made(acts, x) == Some(y) { IsScript(acts, x, y, |x|, |y|); }
  }

  /** How far two words are apart. */
  function Apart(x: Bytes, y: Bytes, k: Weights): int { Distance(x, y, |x|, |y|, k) }

  /** The distance is the least that has to be spent on making `y` of `x`. */
  lemma LeastSpent(x: Bytes, y: Bytes, k: Weights)
    ensures forall acts :: Made(acts, x) == Some(y) ==> Apart(x, y, k) <= Spent(acts, k)
    ensures exists acts :: Made(acts, x) == Some(y) && Apart(x, y, k) == Spent(acts, k)
  {
    hide Made, Spent, Distance, Turns, Cost, Kinds;
    assert x[..|x|] == x && y[..|y|] == y;
    forall acts | Made(acts, x) == Some(y)
      ensures Apart(x, y, k) <= Spent(acts, k)
    {
      IsScript(acts, x, y, |x|, |y|);
      NoScriptCheaper(Kinds(acts), x, y, |x|, |y|, k);
      SpentIsCost(acts, k);
    }
    var script := SomeScriptReaches(x, y, |x|, |y|, k);
    var acts := CarriedOut(script, x, y, |x|, |y|);
    SpentIsCost(acts, k);
  }

  // ---- laws on words ------------------------------------------------------------------------

  /** Keeping what follows costs nothing. */
  lemma {:induction false} MadeOnward(acts: seq<Act>, x: Bytes, y: Bytes, b: Bytes, k: Weights) returns (more: seq<Act>)
    requires Made(acts, x) == Some(y)
    ensures Made(more, x + b) == Some(y + b) && Spent(more, k) == Spent(acts, k)
    decreases |b|
  {
    hide Made, Spent;
    if b == [] {
      more := acts;
      assert x + b == x && y + b == y;
    } else {
      var c, d := b[..|b| - 1], b[|b| - 1];
      var before := MadeOnward(acts, x, y, c, k);
      more := before + [Stays];
      assert x + b == x + c + [d] && y + b == y + c + [d];
      MadeSnoc(before, x + c, Stays, [d]);
      SpentSnoc(before, Stays, k);
    }
  }

  /** Two words that differ by one act are no further apart than it costs, whatever stands around it. */
  lemma OneAct(a: Bytes, act: Act, taken: Bytes, written: Bytes, b: Bytes, k: Weights)
    requires |taken| == Takes(act) && Written(act, taken) == Some(written)
    ensures Apart(a + taken + b, a + written + b, k) <= Price(act, k)
  {
    hide Made, Spent, Apart, Written, Takes, Price;
    var none: seq<Act> := [];
    NothingMade([], k);
    var kept := MadeOnward(none, [], [], a, k);
    assert [] + a == a;
    MadeSnoc(kept, a, act, taken);
    SpentSnoc(kept, act, k);
    var all := MadeOnward(kept + [act], a + taken, a + written, b, k);
    LeastSpent(a + taken + b, a + written + b, k);
  }

  /** One slip, anywhere in a word: two neighbours exchanged, a wrong byte, one too few, one too many. */
  lemma OneSlip(a: Bytes, p: Byte, q: Byte, b: Bytes, k: Weights)
    ensures Apart(a + [p, q] + b, a + [q, p] + b, k) <= k.swap
    ensures p != q ==> Apart(a + [p] + b, a + [q] + b, k) <= k.subst
    ensures Apart(a + b, a + [q] + b, k) <= k.insert
    ensures Apart(a + [p] + b, a + b, k) <= k.delete
  {
    hide Apart;
    OneAct(a, Exchange, [p, q], [q, p], b, k);
    if p != q { OneAct(a, Becomes(q), [p], [q], b, k); }
    OneAct(a, PutIn(q), [], [q], b, k);
    OneAct(a, LeaveOut, [p], [], b, k);
    assert a + [] + b == a + b;
  }

  /** With git's weights `stauts` is `status`; a letter too few costs 1, a wrong one 2 and one too many 3. */
  lemma GitsDistances()
    ensures var k := Weights(0, 2, 1, 3);
      && Apart([97, 98], [98, 97], k) == 0
      && Apart([115, 116, 97, 117, 116, 115], [115, 116, 97, 116, 117, 115], k) == 0
      && Apart([97], [97, 98], k) == 1 && Apart([97], [98], k) == 2 && Apart([97, 98], [97], k) == 3
  {
    hide Apart;
    Swapped([], 97, 98, []);
    Swapped([115, 116, 97], 117, 116, [115]);
    assert [] + [97, 98] + [] == [97, 98] && [] + [98, 97] + [] == [98, 97];
    assert [115, 116, 97] + [117, 116] + [115] == [115, 116, 97, 117, 116, 115];
    assert [115, 116, 97] + [116, 117] + [115] == [115, 116, 97, 116, 117, 115];
    SmallDistances();
  }

  lemma Swapped(a: Bytes, p: Byte, q: Byte, b: Bytes)
    ensures Apart(a + [p, q] + b, a + [q, p] + b, Weights(0, 2, 1, 3)) == 0
  {
    hide Distance;
    OneSlip(a, p, q, b, Weights(0, 2, 1, 3));
    ZeroForSame(a + [p, q] + b, a + [q, p] + b, Weights(0, 2, 1, 3));
  }

  lemma SmallDistances()
    ensures var k := Weights(0, 2, 1, 3);
      Apart([97], [97, 98], k) == 1 && Apart([97], [98], k) == 2 && Apart([97, 98], [97], k) == 3
  {
    hide Distance;
    var k := Weights(0, 2, 1, 3);
    EdgeCells([97], [97, 98], k);
    EdgeCells([97], [98], k);
    EdgeCells([97, 98], [97], k);
    InnerCell([97], [97, 98], 1, 1, k);
    InnerCell([97], [97, 98], 1, 2, k);
    InnerCell([97], [98], 1, 1, k);
    InnerCell([97, 98], [97], 1, 1, k);
    InnerCell([97, 98], [97], 2, 1, k);
  }
}
