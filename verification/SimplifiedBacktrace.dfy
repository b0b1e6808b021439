/** What the simplified backtrace consists of: the first useful frames, and a gap wherever garbage follows one. */
module SimplifiedBacktrace {
  import opened Sequences

  /** A line as the summary sees it: its text, and whether its function is worth showing. */
  datatype Item = Item(text: string, useful: bool)

  const GAP := "[...]\n"
  const SUMMARY_SIZE := 16

  /** The summary loop: text so far, next line, lines listed, and whether any was. */
  function Listing(s: string, items: seq<Item>, i: nat, listed: nat, found: bool): string
    requires i <= |items|
    decreases |items| - i
  {
    if i == |items| || listed >= SUMMARY_SIZE then s
    else if items[i].useful then Listing(s + items[i].text, items, i + 1, listed + 1, true)
    else if found && !EndsWith(s, GAP) then Listing(s + GAP, items, i + 1, listed, found)
    else Listing(s, items, i + 1, listed, found)
  }

  datatype Entry = Line(index: nat) | Gap

  /** Is listed line i followed by a gap: garbage comes next, and it is not the last line the summary takes? */
  predicate GapAfter(items: seq<Item>, i: nat, listed: nat) {
    listed + 1 < SUMMARY_SIZE && i + 1 < |items| && !items[i + 1].useful
  }

  /** The entries from line i on, given how many lines are listed above it. */
  function Entries(items: seq<Item>, i: nat, listed: nat): seq<Entry>
    requires i <= |items|
    decreases |items| - i
  {
    if i == |items| || listed >= SUMMARY_SIZE then []
    else if items[i].useful then
      [Line(i)] + (if GapAfter(items, i, listed) then [Gap] else []) + Entries(items, i + 1, listed + 1)
    else Entries(items, i + 1, listed)
  }

  function Text(items: seq<Item>, e: Entry): string {
    if e.Line? then (if e.index < |items| then items[e.index].text else "") else GAP
  }

  function Render(items: seq<Item>, entries: seq<Entry>): string {
    if entries == [] then "" else Text(items, entries[0]) + Render(items, entries[1..])
  }

  /** Long enough to end in the gap marker, and does not: true of every stack frame gdb prints, `#n f (...)\n`. */
  predicate PlainText(item: Item) {
    |GAP| <= |item.text| && !EndsWith(item.text, GAP)
  }

  predicate PlainTexts(items: seq<Item>) {
    forall i :: 0 <= i < |items| && items[i].useful ==> PlainText(items[i])
  }

  lemma PlainEnd(s: string, item: Item)
    requires PlainText(item)
    ensures !EndsWith(s + item.text, GAP)
  {
    var t := s + item.text;
    assert t[|t| - |GAP|..] == item.text[|item.text| - |GAP|..];
  }

  lemma GapEnd(s: string)
    ensures EndsWith(s + GAP, GAP)
  {
    assert (s + GAP)[|s|..] == GAP;
  }

  /** The loop looks back at the text it has written, the entries look ahead at the next line. */
  predicate LooksBackRight(s: string, items: seq<Item>, i: nat, found: bool)
    requires i <= |items|
  {
    found ==> i > 0 && (EndsWith(s, GAP) <==> !items[i - 1].useful)
  }

  /** The gap that the entries already have and the loop has yet to write. */
  function Owed(items: seq<Item>, i: nat, listed: nat, found: bool): seq<Entry>
    requires i <= |items|
  {
    if found && 0 < i < |items| && items[i - 1].useful && !items[i].useful && listed < SUMMARY_SIZE then [Gap] else []
  }

  /** The text still to be written. */
  function Remaining(items: seq<Item>, i: nat, listed: nat, found: bool): string
    requires i <= |items|
  {
    Render(items, Owed(items, i, listed, found) + Entries(items, i, listed))
  }

  lemma NothingRemains(items: seq<Item>, i: nat, listed: nat, found: bool)
    requires i <= |items| && (i == |items| || listed >= SUMMARY_SIZE)
    ensures Remaining(items, i, listed, found) == ""
  {
    assert Owed(items, i, listed, found) + Entries(items, i, listed) == [];
  }

  lemma ListedStep(items: seq<Item>, i: nat, listed: nat, found: bool)
    requires i < |items| && listed < SUMMARY_SIZE && items[i].useful
    ensures Remaining(items, i, listed, found) == items[i].text + Remaining(items, i + 1, listed + 1, true)
  {
    var rest := Owed(items, i + 1, listed + 1, true) + Entries(items, i + 1, listed + 1);
    assert Owed(items, i, listed, found) + Entries(items, i, listed) == [Line(i)] + rest;
    assert ([Line(i)] + rest)[1..] == rest;
  }

  lemma GapStep(items: seq<Item>, i: nat, listed: nat)
    requires 0 < i < |items| && listed < SUMMARY_SIZE && !items[i].useful && items[i - 1].useful
    ensures Remaining(items, i, listed, true) == GAP + Remaining(items, i + 1, listed, true)
  {
    var rest := Entries(items, i + 1, listed);
    assert Owed(items, i, listed, true) + Entries(items, i, listed) == [Gap] + rest;
    assert ([Gap] + rest)[1..] == rest;
    assert Owed(items, i + 1, listed, true) + rest == rest;
  }

  lemma NoGapStep(items: seq<Item>, i: nat, listed: nat, found: bool)
    requires i < |items| && listed < SUMMARY_SIZE && !items[i].useful
    requires found ==> i > 0 && !items[i - 1].useful
    ensures Remaining(items, i, listed, found) == Remaining(items, i + 1, listed, found)
  {
    assert Owed(items, i, listed, found) == Owed(items, i + 1, listed, found) == [];
  }

  /** From here on the loop writes what remains. */
  predicate WritesRemaining(s: string, items: seq<Item>, i: nat, listed: nat, found: bool)
    requires i <= |items|
  {
    Listing(s, items, i, listed, found) == s + Remaining(items, i, listed, found)
  }

  lemma ListedCase(s: string, items: seq<Item>, i: nat, listed: nat, found: bool)
    requires i < |items| && listed < SUMMARY_SIZE && items[i].useful
    requires WritesRemaining(s + items[i].text, items, i + 1, listed + 1, true)
    ensures WritesRemaining(s, items, i, listed, found)
  {
    ListedStep(items, i, listed, found);
  }

  lemma GapCase(s: string, items: seq<Item>, i: nat, listed: nat)
    requires i < |items| && listed < SUMMARY_SIZE && !items[i].useful
    requires LooksBackRight(s, items, i, true) && !EndsWith(s, GAP)
    requires WritesRemaining(s + GAP, items, i + 1, listed, true)
    ensures WritesRemaining(s, items, i, listed, true)
  {
    GapStep(items, i, listed);
  }

  lemma NoGapCase(s: string, items: seq<Item>, i: nat, listed: nat, found: bool)
    requires i < |items| && listed < SUMMARY_SIZE && !items[i].useful
    requires LooksBackRight(s, items, i, found) && (found ==> EndsWith(s, GAP))
    requires WritesRemaining(s, items, i + 1, listed, found)
    ensures WritesRemaining(s, items, i, listed, found)
  {
    NoGapStep(items, i, listed, found);
  }

  lemma LooksBackAfterLine(s: string, items: seq<Item>, i: nat)
    requires i < |items| && items[i].useful && PlainTexts(items)
    ensures LooksBackRight(s + items[i].text, items, i + 1, true)
  {
    PlainEnd(s, items[i]);
  }

  lemma LooksBackAfterGap(s: string, items: seq<Item>, i: nat)
    requires i < |items| && !items[i].useful
    ensures LooksBackRight(s + GAP, items, i + 1, true)
  {
    GapEnd(s);
  }

  lemma LooksBackAfterNothing(s: string, items: seq<Item>, i: nat, found: bool)
    requires i < |items| && !items[i].useful && (found ==> EndsWith(s, GAP))
    ensures LooksBackRight(s, items, i + 1, found)
  {
  }

  lemma {:induction false} ListedBranch(s: string, items: seq<Item>, i: nat, listed: nat, found: bool)
    requires i < |items| && listed < SUMMARY_SIZE && items[i].useful && PlainTexts(items)
    ensures WritesRemaining(s, items, i, listed, found)
    decreases |items| - i, 0
  {
    LooksBackAfterLine(s, items, i);
    ListingIsEntries(s + items[i].text, items, i + 1, listed + 1, true);
    ListedCase(s, items, i, listed, found);
  }

  lemma {:induction false} GapBranch(s: string, items: seq<Item>, i: nat, listed: nat)
    requires i < |items| && listed < SUMMARY_SIZE && !items[i].useful && PlainTexts(items)
    requires LooksBackRight(s, items, i, true) && !EndsWith(s, GAP)
    ensures WritesRemaining(s, items, i, listed, true)
    decreases |items| - i, 0
  {
    LooksBackAfterGap(s, items, i);
    ListingIsEntries(s + GAP, items, i + 1, listed, true);
    GapCase(s, items, i, listed);
  }

  lemma {:induction false} NoGapBranch(s: string, items: seq<Item>, i: nat, listed: nat, found: bool)
    requires i < |items| && listed < SUMMARY_SIZE && !items[i].useful && PlainTexts(items)
    requires LooksBackRight(s, items, i, found) && (found ==> EndsWith(s, GAP))
    ensures WritesRemaining(s, items, i, listed, found)
    decreases |items| - i, 0
  {
    LooksBackAfterNothing(s, items, i, found);
    ListingIsEntries(s, items, i + 1, listed, found);
    NoGapCase(s, items, i, listed, found);
  }

  lemma {:induction false} ListingIsEntries(s: string, items: seq<Item>, i: nat, listed: nat, found: bool)
    requires i <= |items| && PlainTexts(items) && LooksBackRight(s, items, i, found)
    ensures WritesRemaining(s, items, i, listed, found)
    decreases |items| - i, 1
  {
    if i == |items| || listed >= SUMMARY_SIZE {
      NothingRemains(items, i, listed, found);
    } else if items[i].useful {
      ListedBranch(s, items, i, listed, found);
    } else if found && !EndsWith(s, GAP) {
      GapBranch(s, items, i, listed);
    } else {
      NoGapBranch(s, items, i, listed, found);
    }
  }

  /** The simplified backtrace is what was there before, followed by the rendered entries. */
  lemma ListingRendersEntries(s: string, items: seq<Item>)
    requires PlainTexts(items)
    ensures Listing(s, items, 0, 0, false) == s + Render(items, Entries(items, 0, 0))
  {
    ListingIsEntries(s, items, 0, 0, false);
    assert Owed(items, 0, 0, false) + Entries(items, 0, 0) == Entries(items, 0, 0);
  }

  /** A second calculation, after further lines, shows the right text exactly when nothing was listed before. */
  lemma SecondListing(s: string, items: seq<Item>)
    requires PlainTexts(items)
    ensures Listing(s, items, 0, 0, false) == Listing("", items, 0, 0, false) <==> s == ""
  {
    ListingRendersEntries(s, items);
    ListingRendersEntries("", items);
    var text := Render(items, Entries(items, 0, 0));
    assert |s + text| == |s| + |text|;
  }

  // ---- What the entries are ----

  function UsefulIndices(items: seq<Item>, i: nat): seq<nat>
    requires i <= |items|
    decreases |items| - i
  {
    if i == |items| then []
    else if items[i].useful then [i] + UsefulIndices(items, i + 1)
    else UsefulIndices(items, i + 1)
  }

  function Listed(entries: seq<Entry>): seq<nat> {
    if entries == [] then []
    else if entries[0].Line? then [entries[0].index] + Listed(entries[1..])
    else Listed(entries[1..])
  }

  function GapCount(entries: seq<Entry>): nat {
    if entries == [] then 0 else (if entries[0].Gap? then 1 else 0) + GapCount(entries[1..])
  }

  function Take(xs: seq<nat>, n: nat): seq<nat> {
    if |xs| <= n then xs else xs[..n]
  }

  lemma TakeCons(x: nat, xs: seq<nat>, n: nat)
    requires n > 0
    ensures Take([x] + xs, n) == [x] + Take(xs, n - 1)
  {
  }

  /** How the entries begin when line i is useful. */
  lemma EntriesHead(items: seq<Item>, i: nat, listed: nat)
    requires i < |items| && listed < SUMMARY_SIZE && items[i].useful
    ensures var rest := Entries(items, i + 1, listed + 1);
            && Listed(Entries(items, i, listed)) == [i] + Listed(rest)
            && GapCount(Entries(items, i, listed)) == (if GapAfter(items, i, listed) then 1 else 0) + GapCount(rest)
  {
    var es, rest := Entries(items, i, listed), Entries(items, i + 1, listed + 1);
    if GapAfter(items, i, listed) {
      assert es == [Line(i)] + ([Gap] + rest);
      assert es[1..] == [Gap] + rest && es[1..][1..] == rest;
    } else {
      assert es == [Line(i)] + rest;
      assert es[1..] == rest;
    }
  }

  lemma UsefulIsListed(items: seq<Item>, i: nat, listed: nat)
    requires i < |items| && listed < SUMMARY_SIZE && items[i].useful
    requires Listed(Entries(items, i + 1, listed + 1)) == Take(UsefulIndices(items, i + 1), SUMMARY_SIZE - listed - 1)
    ensures Listed(Entries(items, i, listed)) == Take(UsefulIndices(items, i), SUMMARY_SIZE - listed)
  {
    EntriesHead(items, i, listed);
    TakeCons(i, UsefulIndices(items, i + 1), SUMMARY_SIZE - listed);
  }

  /** Listed are the first 16 useful frames, in order. */
  lemma {:induction false} ListedAreFirstUseful(items: seq<Item>, i: nat, listed: nat)
    requires i <= |items| && listed <= SUMMARY_SIZE
    ensures Listed(Entries(items, i, listed)) == Take(UsefulIndices(items, i), SUMMARY_SIZE - listed)
    decreases |items| - i
  {
    if i < |items| && listed < SUMMARY_SIZE {
      if items[i].useful {
        ListedAreFirstUseful(items, i + 1, listed + 1);
        UsefulIsListed(items, i, listed);
      } else {
        ListedAreFirstUseful(items, i + 1, listed);
      }
    }
  }

  /** There is at most one gap fewer than lines the summary may take. */
  lemma {:induction false} GapsAreFew(items: seq<Item>, i: nat, listed: nat)
    requires i <= |items| && listed <= SUMMARY_SIZE
    ensures GapCount(Entries(items, i, listed)) <= if listed < SUMMARY_SIZE then SUMMARY_SIZE - listed - 1 else 0
    decreases |items| - i
  {
    if i < |items| && listed < SUMMARY_SIZE {
      if items[i].useful {
        GapsAreFew(items, i + 1, listed + 1);
        EntriesHead(items, i, listed);
      } else {
        GapsAreFew(items, i + 1, listed);
      }
    }
  }

  /** Never a gap at the front, never two in a row. */
  predicate WellSpaced(entries: seq<Entry>) {
    && (entries != [] ==> entries[0].Line?)
    && (forall k :: 0 < k < |entries| && entries[k].Gap? ==> entries[k - 1].Line?)
  }

  lemma {:induction false} GapsAreWellSpaced(items: seq<Item>, i: nat, listed: nat)
    requires i <= |items|
    ensures WellSpaced(Entries(items, i, listed))
    decreases |items| - i
  {
    if i < |items| && listed < SUMMARY_SIZE {
      if items[i].useful {
        GapsAreWellSpaced(items, i + 1, listed + 1);
        var es, rest := Entries(items, i, listed), Entries(items, i + 1, listed + 1);
        if GapAfter(items, i, listed) {
          assert es == [Line(i), Gap] + rest;
        } else {
          assert es == [Line(i)] + rest;
        }
      } else {
        GapsAreWellSpaced(items, i + 1, listed);
      }
    }
  }
}
