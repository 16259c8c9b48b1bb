/**
 `levenshtein` of autocorrect.rs: the weighted edit distance that keeps three rows of its
 matrix, the recursive distance it computes, and what that distance means: the least cost
 of any script of edits.
 */
module Levenshtein {
  import opened Bytes
  import opened Integers

  /** What a swap of neighbours, a substitution, an insertion and a deletion cost. */
  datatype Weights = Weights(swap: int, subst: int, insert: int, delete: int)

  /** The two last bytes of `x` are those of `y`, exchanged. */
  predicate Exchanged(x: Bytes, y: Bytes, i: nat, j: nat)
    requires i <= |x| && j <= |y|
  {
    i >= 2 && j >= 2 && x[i - 2] == y[j - 1] && x[i - 1] == y[j - 2]
  }

  /** The distance from the first `i` bytes of `x` to the first `j` of `y`. */
  function Distance(x: Bytes, y: Bytes, i: nat, j: nat, k: Weights): int
    requires i <= |x| && j <= |y|
    decreases i + j
  {
    if i == 0 then j * k.insert
    else if j == 0 then i * k.delete
    else
      var c := Distance(x, y, i - 1, j - 1, k) + if x[i - 1] == y[j - 1] then 0 else k.subst;
      var c := if Exchanged(x, y, i, j) then Min(c, Distance(x, y, i - 2, j - 2, k) + k.swap) else c;
      Min(Min(c, Distance(x, y, i - 1, j, k) + k.delete), Distance(x, y, i, j - 1, k) + k.insert)
  }

  /** `row` holds the matrix row of the first `i` bytes of `x`, up to and without column `n`. */
  ghost predicate IsRow(row: array<int>, x: Bytes, y: Bytes, i: nat, n: nat, k: Weights)
    requires i <= |x| && n <= |y| + 1 && row.Length == |y| + 1
    reads row
  {
    forall j :: 0 <= j < n ==> row[j] == Distance(x, y, i, j, k)
  }

  lemma EdgeCells(x: Bytes, y: Bytes, k: Weights)
    ensures forall j :: 0 <= j <= |y| ==> Distance(x, y, 0, j, k) == j * k.insert
    ensures forall i :: 0 <= i <= |x| ==> Distance(x, y, i, 0, k) == i * k.delete
  {
  }

  lemma InnerCell(x: Bytes, y: Bytes, i: nat, j: nat, k: Weights)
    requires 0 < i <= |x| && 0 < j <= |y|
    ensures Distance(x, y, i, j, k) ==
      var c := Distance(x, y, i - 1, j - 1, k) + if x[i - 1] == y[j - 1] then 0 else k.subst;
      var c := if Exchanged(x, y, i, j) then Min(c, Distance(x, y, i - 2, j - 2, k) + k.swap) else c;
      Min(Min(c, Distance(x, y, i - 1, j, k) + k.delete), Distance(x, y, i, j - 1, k) + k.insert)
  {
    hide Min, Exchanged;
  }

  /** `levenshtein` */
  method Compute(x: Bytes, y: Bytes, k: Weights) returns (d: int)
    ensures d == Distance(x, y, |x|, |y|, k)
  {
    hide Distance;
    EdgeCells(x, y, k);
    var len1, len2 := |x|, |y|;
    var row0, row1, row2 := new int[len2 + 1](_ => 0), new int[len2 + 1](_ => 0), new int[len2 + 1](_ => 0);
    for j := 0 to len2 + 1
      invariant IsRow(row1, x, y, 0, j, k)
    {
      row1[j] := j * k.insert;
    }
    for i := 0 to len1
      invariant row0 != row1 && row1 != row2 && row0 != row2
      invariant row0.Length == len2 + 1 && row1.Length == len2 + 1 && row2.Length == len2 + 1
      invariant fresh(row0) && fresh(row1) && fresh(row2)
      invariant IsRow(row1, x, y, i, len2 + 1, k)
      invariant i > 0 ==> IsRow(row0, x, y, i - 1, len2 + 1, k)
    {
      FillRow(row0, row1, row2, x, y, i, k);
      row0, row1 := row1, row0;
      row1, row2 := row2, row1;
    }
    return row1[len2];
  }

  /** One turn of the outer loop: the row after `row1`, into `row2`. */
  method FillRow(row0: array<int>, row1: array<int>, row2: array<int>, x: Bytes, y: Bytes, i: nat, k: Weights)
    requires i < |x| && row0 != row2 && row1 != row2
    requires row0.Length == |y| + 1 && row1.Length == |y| + 1 && row2.Length == |y| + 1
    requires IsRow(row1, x, y, i, |y| + 1, k) && (i > 0 ==> IsRow(row0, x, y, i - 1, |y| + 1, k))
    modifies row2
    ensures IsRow(row2, x, y, i + 1, |y| + 1, k)
  {
    hide Distance;
    EdgeCells(x, y, k);
    row2[0] := (i + 1) * k.delete;
    for j := 0 to |y|
      invariant row1[..] == old(row1[..]) && row0[..] == old(row0[..])
      invariant IsRow(row2, x, y, i + 1, j + 1, k)
    {
      InnerCell(x, y, i + 1, j + 1, k);
      row2[j + 1] := row1[j] + k.subst * (if x[i] != y[j] then 1 else 0);
      if i > 0 && j > 0 && x[i - 1] == y[j] && x[i] == y[j - 1] && row2[j + 1] > row0[j - 1] + k.swap {
        row2[j + 1] := row0[j - 1] + k.swap;
      }
      if row2[j + 1] > row1[j + 1] + k.delete {
        row2[j + 1] := row1[j + 1] + k.delete;
      }
      if row2[j + 1] > row2[j] + k.insert {
        row2[j + 1] := row2[j] + k.insert;
      }
    }
  }

  // ---- what the distance means ------------------------------------------------------------

  datatype Edit = Keep | Substitute | Swap | Insert | Delete

  function Price(e: Edit, k: Weights): int {
    match e
    case Keep => 0
    case Substitute => k.subst
    case Swap => k.swap
    case Insert => k.insert
    case Delete => k.delete
  }

  function Cost(script: seq<Edit>, k: Weights): int {
    if script == [] then 0 else Cost(script[..|script| - 1], k) + Price(script[|script| - 1], k)
  }

  /** The edit `e` may come last when the first `i` bytes of `x` become the first `j` of `y`. */
  predicate Fits(e: Edit, x: Bytes, y: Bytes, i: nat, j: nat)
    requires i <= |x| && j <= |y|
  {
    match e
    case Keep => i > 0 && j > 0 && x[i - 1] == y[j - 1]
    case Substitute => i > 0 && j > 0 && x[i - 1] != y[j - 1]
    case Swap => Exchanged(x, y, i, j)
    case Insert => j > 0
    case Delete => i > 0
  }

  /** How many bytes of `x`, and of `y`, the edit accounts for. */
  function Eats(e: Edit): nat { match e case Swap => 2 case Insert => 0 case _ => 1 }

  function Makes(e: Edit): nat { match e case Swap => 2 case Delete => 0 case _ => 1 }

  /** The edits, taken in order, turn the first `i` bytes of `x` into the first `j` of `y`. */
  predicate Turns(script: seq<Edit>, x: Bytes, y: Bytes, i: nat, j: nat)
    requires i <= |x| && j <= |y|
  {
    if script == [] then i == 0 && j == 0
    else
      var e := script[|script| - 1];
      Fits(e, x, y, i, j) && Turns(script[..|script| - 1], x, y, i - Eats(e), j - Makes(e))
  }

  lemma OneMore(n: nat, w: int)
    requires n > 0
    ensures n * w == (n - 1) * w + w
  {
  }

  /** An edit more never beats the distance. */
  lemma EditBound(e: Edit, x: Bytes, y: Bytes, i: nat, j: nat, k: Weights)
    requires i <= |x| && j <= |y| && Fits(e, x, y, i, j)
    ensures Distance(x, y, i, j, k) <= Distance(x, y, i - Eats(e), j - Makes(e), k) + Price(e, k)
  {
    hide Distance;
    EdgeCells(x, y, k);
    if i > 0 && j > 0 {
      InnerCell(x, y, i, j, k);
    } else if i > 0 {
      OneMore(i, k.delete);
    } else {
      OneMore(j, k.insert);
    }
  }

  /** And some edit reaches it. */
  lemma EditReaches(x: Bytes, y: Bytes, i: nat, j: nat, k: Weights) returns (e: Edit)
    requires i <= |x| && j <= |y| && i + j > 0
    ensures Fits(e, x, y, i, j)
    ensures Distance(x, y, i, j, k) == Distance(x, y, i - Eats(e), j - Makes(e), k) + Price(e, k)
  {
    hide Distance;
    EdgeCells(x, y, k);
    if i == 0 {
      OneMore(j, k.insert);
      e := Insert;
    } else if j == 0 {
      OneMore(i, k.delete);
      e := Delete;
    } else {
      InnerCell(x, y, i, j, k);
      var d := Distance(x, y, i, j, k);
      if d == Distance(x, y, i, j - 1, k) + k.insert { e := Insert; }
      else if d == Distance(x, y, i - 1, j, k) + k.delete { e := Delete; }
      else if Exchanged(x, y, i, j) && d == Distance(x, y, i - 2, j - 2, k) + k.swap { e := Swap; }
      else { e := if x[i - 1] == y[j - 1] then Keep else Substitute; }
    }
  }

  /** No script is cheaper than the distance. */
  lemma {:induction false} NoScriptCheaper(script: seq<Edit>, x: Bytes, y: Bytes, i: nat, j: nat, k: Weights)
    requires i <= |x| && j <= |y| && Turns(script, x, y, i, j)
    ensures Distance(x, y, i, j, k) <= Cost(script, k)
    decreases |script|
  {
    hide Distance, Fits;
    EdgeCells(x, y, k);
    if script != [] {
      var e := script[|script| - 1];
      EditBound(e, x, y, i, j, k);
      FitsIn(e, x, y, i, j);
      NoScriptCheaper(script[..|script| - 1], x, y, i - Eats(e), j - Makes(e), k);
    }
  }

  lemma FitsIn(e: Edit, x: Bytes, y: Bytes, i: nat, j: nat)
    requires i <= |x| && j <= |y| && Fits(e, x, y, i, j)
    ensures Eats(e) <= i && Makes(e) <= j && Eats(e) + Makes(e) > 0
  {
  }

  /** Some script costs exactly the distance. */
  lemma {:induction false} SomeScriptReaches(x: Bytes, y: Bytes, i: nat, j: nat, k: Weights) returns (script: seq<Edit>)
    requires i <= |x| && j <= |y|
    ensures Turns(script, x, y, i, j) && Cost(script, k) == Distance(x, y, i, j, k)
    decreases i + j
  {
    hide Distance, Fits;
    if i + j == 0 {
      EdgeCells(x, y, k);
      script := [];
    } else {
      var e := EditReaches(x, y, i, j, k);
      FitsIn(e, x, y, i, j);
      var before := SomeScriptReaches(x, y, i - Eats(e), j - Makes(e), k);
      script := before + [e];
      assert script[..|script| - 1] == before;
    }
  }

  /** What `levenshtein` computes is the least cost of any script that turns `x` into `y`. */
  lemma DistanceIsLeast(x: Bytes, y: Bytes, k: Weights)
    ensures forall script :: Turns(script, x, y, |x|, |y|) ==> Distance(x, y, |x|, |y|, k) <= Cost(script, k)
    ensures exists script :: Turns(script, x, y, |x|, |y|) && Distance(x, y, |x|, |y|, k) == Cost(script, k)
  {
    forall script | Turns(script, x, y, |x|, |y|)
      ensures Distance(x, y, |x|, |y|, k) <= Cost(script, k)
    {
      NoScriptCheaper(script, x, y, |x|, |y|, k);
    }
    var script := SomeScriptReaches(x, y, |x|, |y|, k);
  }

  // ---- consequences -----------------------------------------------------------------------

  predicate NonNegative(k: Weights) { k.swap >= 0 && k.subst >= 0 && k.insert >= 0 && k.delete >= 0 }

  predicate Positive(k: Weights) { k.swap > 0 && k.subst > 0 && k.insert > 0 && k.delete > 0 }

  lemma {:induction false} CostNonNegative(script: seq<Edit>, k: Weights)
    requires NonNegative(k)
    ensures Cost(script, k) >= 0
  {
    if script != [] { CostNonNegative(script[..|script| - 1], k); }
  }

  lemma {:induction false} KeepAll(x: Bytes, n: nat, k: Weights) returns (script: seq<Edit>)
    requires n <= |x|
    ensures Turns(script, x, x, n, n) && Cost(script, k) == 0
  {
    if n == 0 {
      script := [];
    } else {
      var before := KeepAll(x, n - 1, k);
      script := before + [Keep];
      assert script[..|script| - 1] == before;
    }
  }

  lemma {:induction false} OnlyKept(script: seq<Edit>, x: Bytes, y: Bytes, i: nat, j: nat, k: Weights)
    requires i <= |x| && j <= |y| && Turns(script, x, y, i, j) && Positive(k) && Cost(script, k) == 0
    ensures i == j && x[..i] == y[..j]
  {
    if script != [] {
      var e := script[|script| - 1];
      CostNonNegative(script[..|script| - 1], k);
      assert e == Keep;
      OnlyKept(script[..|script| - 1], x, y, i - 1, j - 1, k);
      assert x[..i] == x[..i - 1] + [x[i - 1]] && y[..j] == y[..j - 1] + [y[j - 1]];
    }
  }

  /** With weights of at least nothing no distance is negative and every word is at none from itself;
   with positive ones it is at none from itself alone. */
  lemma ZeroForSame(x: Bytes, y: Bytes, k: Weights)
    requires NonNegative(k)
    ensures Distance(x, y, |x|, |y|, k) >= 0
    ensures Distance(x, x, |x|, |x|, k) == 0
    ensures Positive(k) && Distance(x, y, |x|, |y|, k) == 0 ==> x == y
  {
    var s := SomeScriptReaches(x, y, |x|, |y|, k);
    CostNonNegative(s, k);
    var t := KeepAll(x, |x|, k);
    NoScriptCheaper(t, x, x, |x|, |x|, k);
    var u := SomeScriptReaches(x, x, |x|, |x|, k);
    CostNonNegative(u, k);
    if Positive(k) && Distance(x, y, |x|, |y|, k) == 0 {
      OnlyKept(s, x, y, |x|, |y|, k);
      assert x[..|x|] == x && y[..|y|] == y;
    }
  }

  /** With the words exchanged, and the weights of insertion and deletion with them, the distance stays. */
  lemma {:induction false} Mirrored(x: Bytes, y: Bytes, i: nat, j: nat, k: Weights)
    requires i <= |x| && j <= |y|
    ensures Distance(x, y, i, j, k) == Distance(y, x, j, i, k.(insert := k.delete, delete := k.insert))
    decreases i + j
  {
    hide Distance;
    var m := k.(insert := k.delete, delete := k.insert);
    EdgeCells(x, y, k);
    EdgeCells(y, x, m);
    if i > 0 && j > 0 {
      InnerCell(x, y, i, j, k);
      InnerCell(y, x, j, i, m);
      Mirrored(x, y, i - 1, j - 1, k);
      Mirrored(x, y, i - 1, j, k);
      Mirrored(x, y, i, j - 1, k);
      if Exchanged(x, y, i, j) { Mirrored(x, y, i - 2, j - 2, k); }
    }
  }

  // ---- the width of a cell ----------------------------------------------------------------

  const I32_MAX := 0x7fff_ffff

  /** A cell never costs more than deleting everything and inserting everything. */
  lemma {:induction false} CellBound(x: Bytes, y: Bytes, i: nat, j: nat, k: Weights)
    requires i <= |x| && j <= |y| && NonNegative(k)
    ensures 0 <= Distance(x, y, i, j, k) <= i * k.delete + j * k.insert
    decreases i + j
  {
    hide Distance;
    EdgeCells(x, y, k);
    NoneNegative(i, k.delete);
    NoneNegative(j, k.insert);
    if i > 0 && j > 0 {
      InnerCell(x, y, i, j, k);
      CellBound(x, y, i - 1, j - 1, k);
      CellBound(x, y, i - 1, j, k);
      CellBound(x, y, i, j - 1, k);
      if Exchanged(x, y, i, j) { CellBound(x, y, i - 2, j - 2, k); }
      OneMore(i, k.delete);
      OneMore(j, k.insert);
    }
  }

  lemma NoneNegative(n: nat, w: int)
    requires w >= 0
    ensures n * w >= 0
  {
  }

  /** With the weights `correct` passes, no sum the loop forms leaves 32 bits for words shorter than 2^28 bytes. */
  lemma CellsFit(x: Bytes, y: Bytes, i: nat, j: nat)
    requires i <= |x| < 0x1000_0000 && j <= |y| < 0x1000_0000
    ensures var k := Weights(0, 2, 1, 3);
      0 <= Distance(x, y, i, j, k) <= I32_MAX - 3 && (i + 1) * k.delete <= I32_MAX && j * k.insert <= I32_MAX
  {
    CellBound(x, y, i, j, Weights(0, 2, 1, 3));
  }
}
