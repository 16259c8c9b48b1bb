/**
 The lines an edit writes, byte by byte, and the comment it is given, as text: every byte of a
 value and of a subsection, escaped or not, is said to be what it is written as.
 */
module ConfigLines {
  import opened Bytes
  import opened ConfigKey
  import opened ConfigText
  import opened ConfigWriter
  import opened Optional

  /** How a value's byte is written: LF, TAB, `"` and `\` escaped, any other as it stands. */
  function InValue(c: Byte): Piece {
    if c == 10 then Escape(110)
    else if c == 9 then Escape(116)
    else if c == 34 then Escape(34)
    else if c == 92 then Escape(92)
    else Letter(c)
  }

  /** How a subsection's byte is written: `"` and `\` escaped, any other as it stands. */
  function InHeader(c: Byte): Piece { if c == 34 || c == 92 then Escape(c) else Letter(c) }

  function AllInValue(v: Bytes): (ps: seq<Piece>)
    ensures |ps| == |v| && forall i :: 0 <= i < |v| ==> ps[i] == InValue(v[i])
  {
    seq(|v|, i requires 0 <= i < |v| => InValue(v[i]))
  }

  function AllInHeader(s: Bytes): (ps: seq<Piece>)
    ensures |ps| == |s| && forall i :: 0 <= i < |s| ==> ps[i] == InHeader(s[i])
  {
    seq(|s|, i requires 0 <= i < |s| => InHeader(s[i]))
  }

  lemma {:induction false} EncodedIs(v: Bytes)
    ensures Encoded(v) == PiecesText(AllInValue(v))
  {
    if v != [] {
      EncodedIs(v[1..]);
      assert AllInValue(v)[1..] == AllInValue(v[1..]);
    }
  }

  lemma {:induction false} EscapedIs(s: Bytes)
    ensures Escaped(s) == PiecesText(AllInHeader(s))
  {
    if s != [] {
      EscapedIs(s[1..]);
      assert AllInHeader(s)[1..] == AllInHeader(s[1..]);
    }
  }

  /** What makes a value's line need quotes. */
  predicate Quoted(v: Bytes) { v != [] && (v[0] == 32 || v[|v| - 1] == 32 || 59 in v || 35 in v || 13 in v) }

  /** The line of an entry: TAB, the name, ` = `, the value, in quotes exactly if it begins or ends with a space or
   holds `;`, `#` or CR, whatever comment is given, and a line end. */
  lemma LineIs(name: Bytes, v: Bytes, comment: Option<Bytes>)
    ensures PairLine(name, v, comment) ==
      [9] + name + [32, 61, 32]
      + (if Quoted(v) then [34] + PiecesText(AllInValue(v)) + [34] else PiecesText(AllInValue(v)))
      + (if comment.Some? then comment.value else []) + [10]
  {
    hide Encoded, PiecesText, NeedsQuote, Quoted;
    EncodedIs(v);
    QuotedIs(v);
    var e := Encoded(v);
    var head := [9] + name + [32, 61, 32];
    assert head + [34] + e + [34] == head + ([34] + e + [34]) && head + [] + e + [] == head + e;
  }

  lemma QuotedIs(v: Bytes)
    ensures NeedsQuote(v) <==> Quoted(v)
  {
    if exists i :: 0 <= i < |v| && NeedsQuoteByte(v[i]) {
      var i :| 0 <= i < |v| && NeedsQuoteByte(v[i]);
      assert v[i] in v;
    }
    if 59 in v { var i :| 0 <= i < |v| && v[i] == 59; assert NeedsQuoteByte(v[i]); }
    if 35 in v { var i :| 0 <= i < |v| && v[i] == 35; assert NeedsQuoteByte(v[i]); }
    if 13 in v { var i :| 0 <= i < |v| && v[i] == 13; assert NeedsQuoteByte(v[i]); }
  }

  /** The header line of a section, and of one with a subsection, which may hold dots of its own. */
  lemma HeaderIs(section: Bytes, sub: Bytes)
    requires 46 !in section
    ensures SectionLine(section) == [91] + section + [93, 10]
    ensures SectionLine(section + [46] + sub) == [91] + section + [32, 34] + PiecesText(AllInHeader(sub)) + [34, 93, 10]
  {
    hide Escaped, FirstDot, PiecesText;
    EscapedIs(sub);
    var base := section + [46] + sub;
    assert forall i :: 0 <= i < |section| ==> base[i] == section[i] && section[i] in section;
    assert base[|section|] == 46;
    assert FirstDot(base) == |section| && FirstDot(section) == |section|;
    assert base[..|section|] == section && base[|section| + 1..] == sub;
  }

  /** A user's comment: refused if it goes over a line, kept as it is behind blanks and `#`, and otherwise given the
   space, or the space and `#`, that it lacks. */
  lemma CommentIs(blanks: Bytes, rest: Bytes)
    requires (forall i :: 0 <= i < |blanks| ==> blanks[i] == 32 || blanks[i] == 9)
    requires rest != [] ==> rest[0] != 32 && rest[0] != 9
    ensures 10 in rest ==> PrepareComment(blanks + rest) == None
    ensures 10 !in rest && rest != [] && rest[0] == 35 && blanks != [] ==>
      PrepareComment(blanks + rest) == Some(blanks + rest)
    ensures 10 !in rest && rest != [] && rest[0] == 35 && blanks == [] ==>
      PrepareComment(blanks + rest) == Some([32] + rest)
    ensures 10 !in rest && (rest == [] || rest[0] != 35) ==>
      PrepareComment(blanks + rest) == Some([32, 35, 32] + (blanks + rest))
  {
    hide LeadingBlanks;
    var c := blanks + rest;
    assert 10 in c <==> 10 in rest;
    BlanksLead(blanks, rest);
    assert rest != [] ==> c[|blanks|] == rest[0];
    assert blanks == [] ==> c == rest;
  }

  lemma BlanksLead(blanks: Bytes, rest: Bytes)
    requires (forall i :: 0 <= i < |blanks| ==> blanks[i] == 32 || blanks[i] == 9)
    requires rest != [] ==> rest[0] != 32 && rest[0] != 9
    ensures LeadingBlanks(blanks + rest) == |blanks|
  {
    hide LeadingBlanks;
    var c, k := blanks + rest, LeadingBlanks(blanks + rest);
    assert forall i :: 0 <= i < |blanks| ==> c[i] == blanks[i];
    assert rest != [] ==> c[|blanks|] == rest[0];
    assert k >= |blanks|;
  }
}
