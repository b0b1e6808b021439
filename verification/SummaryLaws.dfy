/** What ends up in the simplified backtrace, line by line, from one calculation and over a whole input. */
module SummaryLaws {
  import opened Sequences
  import opened SimplifiedBacktrace
  import opened RatingReport

  /** A listed line, and the gap behind it if garbage comes next and it is not the sixteenth. */
  function Piece(items: seq<Item>, i: nat, listed: nat): string
    requires i < |items|
  {
    items[i].text + (if listed < 15 && i + 1 < |items| && !items[i + 1].useful then "[...]\n" else "")
  }

  /** The listed lines are the useful ones from line i on, up to the sixteenth of all. */
  predicate Lists(items: seq<Item>, shown: seq<nat>, i: nat, listed: nat) {
    && Increasing(shown) && |shown| <= (if listed < 16 then 16 - listed else 0)
    && (forall n :: n in shown ==> i <= n < |items| && items[n].useful)
    && (forall n: nat :: i <= n < |items| && items[n].useful && n !in shown ==>
          listed + |shown| >= 16 && forall m :: m in shown ==> m < n)
  }

  predicate Spells(items: seq<Item>, shown: seq<nat>, listed: nat, pieces: seq<string>) {
    && |pieces| == |shown|
    && forall k :: 0 <= k < |shown| ==> shown[k] < |items| && pieces[k] == Piece(items, shown[k], listed + k)
  }

  lemma RenderCons(items: seq<Item>, e: Entry, entries: seq<Entry>)
    ensures Render(items, [e] + entries) == Text(items, e) + Render(items, entries)
  {
    assert ([e] + entries)[1..] == entries;
  }

  /** The entries of one useful line are its piece. */
  lemma PieceIs(items: seq<Item>, i: nat, listed: nat)
    requires i < |items| && listed < 16 && items[i].useful
    ensures Render(items, Entries(items, i, listed))
         == Piece(items, i, listed) + Render(items, Entries(items, i + 1, listed + 1))
  {
    var rest := Entries(items, i + 1, listed + 1);
    if GapAfter(items, i, listed) {
      assert Entries(items, i, listed) == [Line(i)] + ([Gap] + rest);
      RenderCons(items, Line(i), [Gap] + rest);
      RenderCons(items, Gap, rest);
      Associate(items[i].text, GAP, Render(items, rest));
    } else {
      assert Entries(items, i, listed) == [Line(i)] + rest;
      RenderCons(items, Line(i), rest);
      assert items[i].text + "" == items[i].text;
    }
  }

  lemma ListsCons(items: seq<Item>, shown: seq<nat>, i: nat, listed: nat)
    requires i < |items| && listed < 16 && items[i].useful && Lists(items, shown, i + 1, listed + 1)
    ensures Lists(items, [i] + shown, i, listed)
  {
    assert forall k :: 0 <= k < |shown| ==> shown[k] in shown;
  }

  lemma SpellsCons(items: seq<Item>, shown: seq<nat>, i: nat, listed: nat, pieces: seq<string>)
    requires i < |items| && Spells(items, shown, listed + 1, pieces)
    ensures Spells(items, [i] + shown, listed, [Piece(items, i, listed)] + pieces)
  {
  }

  /** The remaining entries spell these pieces. */
  predicate Shows(items: seq<Item>, i: nat, listed: nat, shown: seq<nat>, pieces: seq<string>)
    requires i <= |items|
  {
    && Lists(items, shown, i, listed) && Spells(items, shown, listed, pieces)
    && Render(items, Entries(items, i, listed)) == Concat(pieces)
  }

  lemma ShowsUseful(items: seq<Item>, i: nat, listed: nat, shown: seq<nat>, pieces: seq<string>)
    requires i < |items| && listed < 16 && items[i].useful && Shows(items, i + 1, listed + 1, shown, pieces)
    ensures Shows(items, i, listed, [i] + shown, [Piece(items, i, listed)] + pieces)
  {
    ListsCons(items, shown, i, listed);
    SpellsCons(items, shown, i, listed, pieces);
    PieceIs(items, i, listed);
    ConcatCons(Piece(items, i, listed), pieces);
  }

  lemma ShowsGarbage(items: seq<Item>, i: nat, listed: nat, shown: seq<nat>, pieces: seq<string>)
    requires i < |items| && listed < 16 && !items[i].useful && Shows(items, i + 1, listed, shown, pieces)
    ensures Shows(items, i, listed, shown, pieces)
  {
  }

  lemma ShowsNothing(items: seq<Item>, i: nat, listed: nat)
    requires i <= |items| && (i == |items| || listed >= 16)
    ensures Shows(items, i, listed, [], [])
  {
  }

  lemma {:induction false} UsefulSpells(items: seq<Item>, i: nat, listed: nat)
    returns (shown: seq<nat>, pieces: seq<string>)
    requires i < |items| && listed < 16 && items[i].useful
    ensures Shows(items, i, listed, shown, pieces)
    decreases |items| - i, 0
  {
    var moreShown, morePieces := EntriesSpell(items, i + 1, listed + 1);
    ShowsUseful(items, i, listed, moreShown, morePieces);
    shown, pieces := [i] + moreShown, [Piece(items, i, listed)] + morePieces;
  }

  lemma {:induction false} GarbageSpells(items: seq<Item>, i: nat, listed: nat)
    returns (shown: seq<nat>, pieces: seq<string>)
    requires i < |items| && listed < 16 && !items[i].useful
    ensures Shows(items, i, listed, shown, pieces)
    decreases |items| - i, 0
  {
    shown, pieces := EntriesSpell(items, i + 1, listed);
    ShowsGarbage(items, i, listed, shown, pieces);
  }

  lemma {:induction false} EntriesSpell(items: seq<Item>, i: nat, listed: nat)
    returns (shown: seq<nat>, pieces: seq<string>)
    requires i <= |items|
    ensures Shows(items, i, listed, shown, pieces)
    decreases |items| - i, 1
  {
    if i == |items| || listed >= 16 {
      ShowsNothing(items, i, listed);
      shown, pieces := [], [];
    } else if items[i].useful {
      shown, pieces := UsefulSpells(items, i, listed);
    } else {
      shown, pieces := GarbageSpells(items, i, listed);
    }
  }

  /** One calculation appends to the simplified backtrace the first sixteen useful lines, or all if there are fewer, in
      order, each with a gap behind it where garbage comes next. */
  lemma SummaryIs(lines: seq<RatedLine>, d: RatingData) returns (shown: seq<nat>, pieces: seq<string>)
    requires PlainTexts(Items(lines))
    ensures Lists(Items(lines), shown, 0, 0) && Spells(Items(lines), shown, 0, pieces)
    ensures Calculated(lines, d).simplifiedBacktrace == d.simplifiedBacktrace + Concat(pieces)
  {
    shown, pieces := EntriesSpell(Items(lines), 0, 0);
    ListingRendersEntries(d.simplifiedBacktrace, Items(lines));
  }
}
