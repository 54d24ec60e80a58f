/** What the sanitisers make of any name and any path, byte by byte and piece by piece. */
module FileNameLaws {
  import opened ProtocolTypes
  import opened FileNames

  // ----- display names

  /** Slash, backslash, colon and NUL. */
  predicate Harmful(ch: uint8) {
    ch as int in {0x2f, 0x5c, 0x3a, 0x00}
  }

  predicate SpaceOrDot(ch: uint8) {
    ch as int in {0x20, 0x2e}
  }

  /** `n` bytes are left when spaces and dots are dropped from the end. */
  predicate TrimsTo(value: Name, n: nat) {
    && n <= |value|
    && (forall i :: n <= i < |value| ==> SpaceOrDot(value[i]))
    && (n > 0 ==> !SpaceOrDot(value[n - 1]))
  }

  /** The first `n` bytes with the harmful ones, and all spaces and dots before any other byte, as underscores. */
  function Underscored(value: Name, n: nat): Name
    requires n <= |value|
  {
    seq(n, i requires 0 <= i < n => if Harmful(value[i]) || Leading(value, i) then 0x5f else value[i])
  }

  predicate Leading(value: Name, i: nat)
    requires i < |value|
  {
    forall j :: 0 <= j <= i ==> SpaceOrDot(value[j])
  }

  /** Every name, byte by byte: trailing spaces and dots go, harmful bytes and leading spaces and dots become
      underscores, all other bytes stay, and a name of which nothing is left becomes `unnamed`. */
  lemma DisplayNameExactly(value: Name) returns (n: nat)
    ensures TrimsTo(value, n)
    ensures DisplayName(value) == if n == 0 then [0x75, 0x6e, 0x6e, 0x61, 0x6d, 0x65, 0x64] else Underscored(value, n)
  {
    hide TrimEnd, MaskLead;
    n := TrimmedLength(value);
    var trimmed := TrimEnd(Mask(value));
    assert trimmed == Mask(value)[..n];
    LeadMasked(trimmed);
    var r := MaskLead(trimmed);
    assert forall i :: 0 <= i < n ==> (IsEdge(trimmed[i]) <==> SpaceOrDot(value[i]));
    forall i | 0 <= i < n ensures r[i] == Underscored(value, n)[i] {
      assert EdgesUpTo(trimmed, i) <==> Leading(value, i);
    }
    assert n > 0 ==> r[0] != DOT;
    assert r == Underscored(value, n);
  }

  lemma {:induction false} TrimmedLength(value: Name) returns (n: nat)
    ensures TrimsTo(value, n) && TrimEnd(Mask(value)) == Mask(value)[..n]
  {
    n := |value|;
    if value != [] && SpaceOrDot(value[|value| - 1]) {
      var init := value[..|value| - 1];
      assert Mask(value)[..|value| - 1] == Mask(init);
      n := TrimmedLength(init);
    }
  }

  /** Spaces and dots only, up to byte `i`. */
  predicate EdgesUpTo(s: Name, i: nat)
    requires i < |s|
  {
    forall j :: 0 <= j <= i ==> IsEdge(s[j])
  }

  lemma EdgesOfTail(s: Name, i: nat)
    requires 0 < i < |s|
    ensures EdgesUpTo(s, i) <==> IsEdge(s[0]) && EdgesUpTo(s[1..], i - 1)
  {
    if IsEdge(s[0]) && EdgesUpTo(s[1..], i - 1) {
      forall j | 0 <= j <= i ensures IsEdge(s[j]) {
        assert j > 0 ==> s[j] == s[1..][j - 1];
      }
    }
    if EdgesUpTo(s, i) {
      assert forall j :: 0 <= j <= i - 1 ==> s[1..][j] == s[j + 1];
    }
  }

  lemma {:induction false} LeadMasked(s: Name)
    ensures |MaskLead(s)| == |s|
    ensures forall i :: 0 <= i < |s| ==> MaskLead(s)[i] == if EdgesUpTo(s, i) then UNDERSCORE else s[i]
  {
    hide EdgesUpTo;
    if s != [] {
      FirstEdge(s);
      if IsEdge(s[0]) {
        LeadMasked(s[1..]);
      }
      forall i | 0 < i < |s| ensures MaskLead(s)[i] == if EdgesUpTo(s, i) then UNDERSCORE else s[i] {
        EdgesOfTail(s, i);
        assert s[i] == s[1..][i - 1];
      }
    }
  }

  lemma FirstEdge(s: Name)
    requires s != []
    ensures EdgesUpTo(s, 0) <==> IsEdge(s[0])
  {
  }

  // ----- pieces of a path

  function Join(pieces: seq<Name>): Name {
    if pieces == [] then []
    else if |pieces| == 1 then pieces[0]
    else Join(pieces[..|pieces| - 1]) + [0x2f] + pieces[|pieces| - 1]
  }

  /** The path with every backslash a slash. */
  function Slashed(value: Name): Name {
    seq(|value|, i requires 0 <= i < |value| => if value[i] == 0x5c then 0x2f else value[i])
  }

  predicate Unseparated(piece: Name) {
    forall i :: 0 <= i < |piece| ==> piece[i] != 0x2f && piece[i] != 0x5c
  }

  /** Splitting is what joining with slashes undoes, and no piece holds a slash or a backslash. */
  lemma {:induction false} SplitExactly(value: Name)
    ensures Join(Split(value)) == Slashed(value)
    ensures forall k :: 0 <= k < |Split(value)| ==> Unseparated(Split(value)[k])
  {
    if value != [] {
      hide Join, Slashed, Unseparated;
      var init, ch := value[..|value| - 1], value[|value| - 1];
      SplitExactly(init);
      var pieces := Split(init);
      SlashedGrows(value);
      if IsSeparator(ch) {
        EmptyPieceJoins(pieces);
      } else {
        var n := |pieces| - 1;
        LastPieceGrows(pieces[..n], pieces[n], ch);
        assert pieces == pieces[..n] + [pieces[n]];
        StaysUnseparated(pieces[|pieces| - 1], ch);
      }
    } else {
      assert Slashed([]) == [];
    }
  }

  lemma SlashedGrows(value: Name)
    requires value != []
    ensures var ch := value[|value| - 1];
            Slashed(value) == Slashed(value[..|value| - 1]) + [if ch == 0x5c then 0x2f else ch]
  {
  }

  lemma EmptyPieceJoins(pieces: seq<Name>)
    requires pieces != []
    ensures Join(pieces + [[]]) == Join(pieces) + [0x2f] && Unseparated([])
  {
    assert (pieces + [[]])[..|pieces|] == pieces;
  }

  lemma LastJoined(init: seq<Name>, last: Name)
    ensures Join(init + [last]) == if init == [] then last else Join(init) + [0x2f] + last
  {
    assert (init + [last])[..|init|] == init;
  }

  lemma StaysUnseparated(piece: Name, ch: uint8)
    requires Unseparated(piece) && !IsSeparator(ch)
    ensures Unseparated(piece + [ch])
  {
  }

  lemma LastPieceGrows(init: seq<Name>, last: Name, ch: uint8)
    ensures Join(init + [last + [ch]]) == Join(init + [last]) + [ch]
  {
    hide Join;
    LastJoined(init, last);
    LastJoined(init, last + [ch]);
    if init != [] {
      var before := Join(init) + [0x2f];
      assert before + (last + [ch]) == before + last + [ch];
    }
  }

  /** The sanitised pieces that survive, in order: those of which something is left. */
  function Surviving(pieces: seq<Name>): seq<Name> {
    if pieces == [] then []
    else
      var last := pieces[|pieces| - 1];
      Surviving(pieces[..|pieces| - 1]) + if Survives(last) then [DisplayName(last)] else []
  }

  predicate Survives(piece: Name) {
    DisplayName(piece) != [0x75, 0x6e, 0x6e, 0x61, 0x6d, 0x65, 0x64]
  }

  lemma MaskedTwice(segment: Name)
    ensures DisplayName(MaskSegment(segment)) == DisplayName(segment)
  {
    hide TrimEnd, MaskLead;
    assert Mask(MaskSegment(segment)) == Mask(segment);
  }

  /** Every path, piece by piece: the sanitised pieces that survive, in their order, joined by slashes; and the whole
      as a display name when none does. */
  lemma RelativePathExactly(value: Name)
    ensures var pieces := Surviving(Split(value));
            RelativePath(value) == if pieces == [] then DisplayName(value) else Join(pieces)
  {
    hide DisplayName, Split, FlushAll, Surviving;
    FlushedPieces(Split(value));
  }

  lemma {:induction false} FlushedPieces(pieces: seq<Name>)
    ensures FlushAll(pieces) == Join(Surviving(pieces))
    ensures Surviving(pieces) == [] <==> FlushAll(pieces) == []
  {
    hide DisplayName;
    if pieces != [] {
      var init, piece := pieces[..|pieces| - 1], pieces[|pieces| - 1];
      FlushedPieces(init);
      MaskedTwice(piece);
      DisplayNameIsClean(piece);
      EmptyDoesNotSurvive();
      var kept := Surviving(init);
      if Survives(piece) {
        assert (kept + [DisplayName(piece)])[..|kept|] == kept;
      } else {
        assert kept + [] == kept;
      }
    }
  }

  lemma EmptyDoesNotSurvive()
    ensures !Survives([])
  {
    assert Mask([]) == [];
  }

  // ----- pieces that do not matter

  lemma SplitLast(value: Name)
    requires value != []
    ensures var pieces, ch := Split(value[..|value| - 1]), value[|value| - 1];
            Split(value) == if IsSeparator(ch) then pieces + [[]]
                            else pieces[..|pieces| - 1] + [pieces[|pieces| - 1] + [ch]]
  {
  }

  lemma {:induction false} SplitAtSlash(a: Name, b: Name)
    ensures Split(a + [SLASH] + b) == Split(a) + Split(b)
  {
    hide Split;
    var whole := a + [SLASH] + b;
    SplitLast(whole);
    if b == [] {
      assert whole[..|whole| - 1] == a;
      SplitOfNothing();
    } else {
      var init, ch := b[..|b| - 1], b[|b| - 1];
      assert whole[..|whole| - 1] == a + [SLASH] + init;
      SplitAtSlash(a, init);
      SplitLast(b);
      LastPieces(Split(a), Split(init), ch);
    }
  }

  lemma LastPieces(left: seq<Name>, right: seq<Name>, ch: uint8)
    requires right != []
    ensures left + (right + [[]]) == left + right + [[]]
    ensures var both, n := left + right, |right| - 1;
            both[..|both| - 1] + [both[|both| - 1] + [ch]] == left + (right[..n] + [right[n] + [ch]])
  {
    var both, n := left + right, |right| - 1;
    assert both[..|both| - 1] == left + right[..n] && both[|both| - 1] == right[n];
  }

  lemma SplitOfNothing()
    ensures Split([]) == [[]]
  {
  }

  lemma {:induction false} SurvivingConcat(a: seq<Name>, b: seq<Name>)
    ensures Surviving(a + b) == Surviving(a) + Surviving(b)
  {
    hide Survives, DisplayName;
    if b == [] {
      assert a + b == a;
    } else {
      assert (a + b)[..|a + b| - 1] == a + b[..|b| - 1];
      SurvivingConcat(a, b[..|b| - 1]);
    }
  }

  predicate IsDud(piece: Name) {
    piece == [] || piece == [0x2e] || piece == [0x2e, 0x2e]
  }

  lemma DudsDoNotSurvive(piece: Name)
    requires IsDud(piece)
    ensures !Survives(piece) && Split(piece) == [piece] && Surviving([piece]) == []
  {
    hide DisplayName, Split;
    var n := DisplayNameExactly(piece);
    assert n == 0;
    SplitSingle(piece);
    assert [piece][..0] == [];
  }

  /** An empty piece, `.` or `..` anywhere in a path changes nothing, as long as some piece survives. */
  lemma DudsChangeNothing(a: Name, dud: Name, b: Name)
    requires IsDud(dud) && Surviving(Split(a + [SLASH] + b)) != []
    ensures RelativePath(a + [SLASH] + dud + [SLASH] + b) == RelativePath(a + [SLASH] + b)
  {
    hide DisplayName, RelativePath, Split, Surviving;
    SplitAtSlash(a + [SLASH] + dud, b);
    SplitAtSlash(a, dud);
    SplitAtSlash(a, b);
    DudsDoNotSurvive(dud);
    SurvivingConcat(Split(a) + [dud], Split(b));
    SurvivingConcat(Split(a), [dud]);
    SurvivingConcat(Split(a), Split(b));
    assert Surviving(Split(a)) + [] == Surviving(Split(a));
    RelativePathExactly(a + [SLASH] + dud + [SLASH] + b);
    RelativePathExactly(a + [SLASH] + b);
  }

  /** So at either end: a path ends up the same with duds before or behind it. */
  lemma DudsAtTheEnds(a: Name, dud: Name)
    requires IsDud(dud) && Surviving(Split(a)) != []
    ensures RelativePath(a + [SLASH] + dud) == RelativePath(a) == RelativePath(dud + [SLASH] + a)
  {
    hide DisplayName, RelativePath, Split, Surviving;
    SplitAtSlash(a, dud);
    SplitAtSlash(dud, a);
    DudsDoNotSurvive(dud);
    SurvivingConcat(Split(a), [dud]);
    SurvivingConcat([dud], Split(a));
    assert Surviving(Split(a)) + [] == Surviving(Split(a)) == [] + Surviving(Split(a));
    RelativePathExactly(a + [SLASH] + dud);
    RelativePathExactly(dud + [SLASH] + a);
    RelativePathExactly(a);
  }
}
