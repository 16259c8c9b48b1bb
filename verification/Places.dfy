/** The places a value has in a sequence, in order. */
module Places {

  function Of<T(==)>(s: seq<T>, x: T): (r: seq<nat>)
    ensures forall m :: 0 <= m < |r| ==> r[m] < |s| && s[r[m]] == x
    ensures forall m, n :: 0 <= m < n < |r| ==> r[m] < r[n]
  {
    if s == [] then []
    else Of(s[..|s| - 1], x) + if s[|s| - 1] == x then [|s| - 1] else []
  }

  function Count<T(==)>(s: seq<T>, x: T): nat { |Of(s, x)| }

  lemma CountIsSize<T>(s: seq<T>, x: T)
    ensures Count(s, x) == |Of(s, x)|
  {
    hide Of;
  }

  lemma Snoc<T>(s: seq<T>, y: T, x: T)
    ensures Of(s + [y], x) == Of(s, x) + if y == x then [|s|] else []
    ensures Count(s + [y], x) == Count(s, x) + if y == x then 1 else 0
  {
    hide *;
    OfLast(s + [y], x);
    assert (s + [y])[..|s|] == s && (s + [y])[|s|] == y;
    CountIsSize(s + [y], x);
    CountIsSize(s, x);
  }

  lemma OfLast<T>(s: seq<T>, x: T)
    requires s != []
    ensures Of(s, x) == Of(s[..|s| - 1], x) + if s[|s| - 1] == x then [|s| - 1] else []
  {
  }

  lemma Next<T>(s: seq<T>, i: nat, x: T)
    requires i < |s|
    ensures Of(s[..i + 1], x) == Of(s[..i], x) + if s[i] == x then [i] else []
    ensures Count(s[..i + 1], x) == Count(s[..i], x) + if s[i] == x then 1 else 0
  {
    assert s[..i + 1] == s[..i] + [s[i]];
    Snoc(s[..i], s[i], x);
  }

  lemma {:induction false} CountConcat<T>(a: seq<T>, b: seq<T>, x: T)
    ensures Count(a + b, x) == Count(a, x) + Count(b, x)
    decreases |b|
  {
    if b == [] {
      assert a + b == a;
    } else {
      var c := b[..|b| - 1];
      CountConcat(a, c, x);
      assert a + b == a + c + [b[|b| - 1]] && b == c + [b[|b| - 1]];
      Snoc(a + c, b[|b| - 1], x);
      Snoc(c, b[|b| - 1], x);
    }
  }

  lemma CountCut<T>(s: seq<T>, i: nat, x: T)
    requires i <= |s|
    ensures Count(s, x) == Count(s[..i], x) + Count(s[i..], x)
  {
    CountConcat(s[..i], s[i..], x);
    assert s[..i] + s[i..] == s;
  }

  lemma CountHead<T>(s: seq<T>, i: nat, x: T)
    requires i < |s|
    ensures Count(s[i..], x) == Count(s[i + 1..], x) + if s[i] == x then 1 else 0
  {
    CountConcat([s[i]], s[i + 1..], x);
    assert s[i..] == [s[i]] + s[i + 1..];
    Snoc([], s[i], x);
    assert [] + [s[i]] == [s[i]];
  }

  lemma {:induction false} CountNone<T>(s: seq<T>, x: T)
    requires x !in s
    ensures Count(s, x) == 0
  {
    if s != [] { CountNone(s[..|s| - 1], x); }
  }

  /** A place is found where as many of its kind lie before it. */
  lemma {:induction false} PlaceAt<T>(s: seq<T>, i: nat)
    requires i < |s|
    ensures Count(s[..i], s[i]) < Count(s, s[i]) && Of(s, s[i])[Count(s[..i], s[i])] == i
    decreases |s|
  {
    var n := |s| - 1;
    assert s == s[..n] + [s[n]];
    Snoc(s[..n], s[n], s[i]);
    if i < n {
      PlaceAt(s[..n], i);
      assert s[..n][..i] == s[..i];
    }
  }

  /** And conversely. */
  lemma CountBefore<T>(s: seq<T>, x: T, m: nat)
    requires m < Count(s, x)
    ensures var i := Of(s, x)[m]; i < |s| && s[i] == x && Count(s[..i], x) == m
  {
    var i := Of(s, x)[m];
    PlaceAt(s, i);
    var c := Count(s[..i], x);
    assert m <= c && c <= m;
  }

  // The same for every value at once.

  lemma CountsNothing<T>()
    ensures forall x: T :: Of([], x) == [] && Count([], x) == 0
  {
  }

  lemma NextAll<T>(s: seq<T>, i: nat)
    requires i < |s|
    ensures forall x: T :: Of(s[..i + 1], x) == Of(s[..i], x) + if s[i] == x then [i] else []
    ensures forall x: T :: Count(s[..i + 1], x) == Count(s[..i], x) + if s[i] == x then 1 else 0
  {
    hide Of, Count;
    forall x: T
      ensures Of(s[..i + 1], x) == Of(s[..i], x) + if s[i] == x then [i] else []
      ensures Count(s[..i + 1], x) == Count(s[..i], x) + if s[i] == x then 1 else 0
    {
      Next(s, i, x);
    }
  }

  lemma HeadAll<T>(s: seq<T>, i: nat)
    requires i < |s|
    ensures forall x: T :: Count(s[i..], x) == Count(s[i + 1..], x) + if s[i] == x then 1 else 0
  {
    hide Of, Count;
    forall x: T
      ensures Count(s[i..], x) == Count(s[i + 1..], x) + if s[i] == x then 1 else 0
    {
      CountHead(s, i, x);
    }
  }
}
