/** Service units without a random part whose names contain '@': the last '@' is taken for the one in front of it. */
module MarkedServiceUnits {
  import opened Sequences
  import opened UnitNames
  import opened PlainServiceUnits

  const MARK := '@'

  lemma MarkedTailIsChopped(name: string, tail: string)
    requires MARK !in tail
    ensures ChopRandom(name + "@" + tail + ".service") == name
  {
    var rest := tail + ".service";
    assert MARK !in rest;
    ServiceIsChopped(name, rest);
    Associate(name + "@", tail, ".service");
  }

  lemma MarkedUnit(name: string, tail: string)
    requires MARK !in tail
    ensures UnitNameToServiceName(APP + (name + "@" + tail) + ".service") == ChopLauncher(name)
  {
    UnitIs(name + "@" + tail);
    MarkedTailIsChopped(name, tail);
  }

  lemma RegroupLauncher(front: string, back: string, id: string)
    ensures front + "@" + back + "-" + id == front + "@" + (back + "-" + id)
  {
    Associate(front + "@", back + "-", id);
    Associate(front + "@", back, "-");
  }

  /** A mark in the launcher alone: the id is cut off together with what follows the mark. */
  lemma UnitOfMarkedLauncher(front: string, back: string, id: string)
    requires MARK !in back && MARK !in id
    ensures UnitNameToServiceName(PlainServiceUnit(front + "@" + back, id)) == ChopLauncher(front)
  {
    RegroupLauncher(front, back, id);
    MarkedUnit(front, back + "-" + id);
  }

  lemma RegroupId(launcher: string, x: string, t: string)
    ensures launcher + "-" + (x + "@" + t) == launcher + "-" + x + "@" + t
  {
    Associate(launcher + "-", x + "@", t);
    Associate(launcher + "-", x, "@");
  }

  lemma UnitOfMarkedId(launcher: string, x: string, t: string)
    requires launcher != "" && MARK !in t
    ensures UnitNameToServiceName(PlainServiceUnit(launcher, x + "@" + t)) == ChopLauncher(launcher + "-" + x)
  {
    RegroupId(launcher, x, t);
    MarkedUnit(launcher + "-" + x, t);
  }

  // ---- Marked ids that echo the launcher ----

  /** word-head, word-word-head, word-word-word-head, ... */
  predicate RepeatsTo(text: string, word: string, head: string)
    decreases |text|
  {
    || text == word + "-" + head
    || (|text| > |word| && text[..|word| + 1] == word + "-" && RepeatsTo(text[|word| + 1..], word, head))
  }

  /** The word has its only mark at index h. */
  predicate MarkedAt(word: string, h: nat) {
    h < |word| && word[h] == MARK && MARK !in word[..h] && MARK !in word[h + 1..]
  }

  lemma RepeatsToOneMore(word: string, text: string, head: string)
    requires RepeatsTo(text, word, head)
    ensures RepeatsTo(word + "-" + text, word, head)
  {
    var all := word + "-" + text;
    assert all[..|word| + 1] == word + "-" && all[|word| + 1..] == text;
  }

  lemma {:induction false} RepeatsToHasOnly(text: string, word: string, head: string, c: char)
    requires RepeatsTo(text, word, head) && c !in word && c !in head && c != SEPARATOR
    ensures c !in text
    decreases |text|
  {
    if text != word + "-" + head {
      var rest := text[|word| + 1..];
      RepeatsToHasOnly(rest, word, head, c);
      assert text == word + "-" + rest;
    }
  }

  lemma MarkBehindShort(word: string, x: string, t: string)
    requires word + "-" + x == x + "@" + t && |x| <= |word|
    ensures |x| < |word| && word[..|x|] == x && word[|x|] == MARK && t == word[|x| + 1..] + "-" + x
  {
    var left, right := word + "-" + x, x + "@" + t;
    assert left[|word|] == SEPARATOR && right[|x|] == MARK;
    assert left[..|x|] == word[..|x|] && right[..|x|] == x;
    assert right[|x| + 1..] == t && left[|x| + 1..] == word[|x| + 1..] + "-" + x;
  }

  /** If word-x is x@t, with no mark in t, then x@t repeats the word up to the word's mark. */
  lemma {:induction false} SameMarked(word: string, x: string, t: string) returns (h: nat)
    requires word + "-" + x == x + "@" + t && MARK !in t
    ensures MarkedAt(word, h) && RepeatsTo(word + "-" + x, word, word[..h])
    decreases |x|
  {
    if |x| <= |word| {
      MarkBehindShort(word, x, t);
      h := |x|;
    } else {
      var rest := x[|word| + 1..];
      SplitsOff(word, x, rest, t);
      h := SameMarked(word, rest, t);
      RepeatsToOneMore(word, x, word[..h]);
    }
  }

  lemma SplitsOff(word: string, x: string, rest: string, t: string)
    requires word + "-" + x == x + "@" + t && |x| > |word| && rest == x[|word| + 1..]
    ensures x == word + "-" + rest && word + "-" + rest == rest + "@" + t
  {
    var left, right := word + "-" + x, x + "@" + t;
    assert left[..|word| + 1] == word + "-" && right[..|word| + 1] == x[..|word| + 1];
    assert left[|word| + 1..] == x && right[|word| + 1..] == rest + "@" + t;
  }

  /** The other way round: the last mark of such a repetition stands where taking the word off leaves the front. */
  lemma {:induction false} MarkOfRepetition(id: string, word: string, h: nat) returns (x: string, t: string)
    requires MarkedAt(word, h) && RepeatsTo(id, word, word[..h])
    ensures MARK !in t && id == word + "-" + x == x + "@" + t
    ensures x == word[..h] || RepeatsTo(x, word, word[..h])
    decreases |id|
  {
    if id == word + "-" + word[..h] {
      x, t := word[..h], word[h + 1..] + "-" + word[..h];
      assert word == x + "@" + word[h + 1..];
    } else {
      var rest := id[|word| + 1..];
      var y;
      y, t := MarkOfRepetition(rest, word, h);
      x := rest;
      assert id == word + "-" + rest;
      assert word + "-" + (y + "@" + t) == word + "-" + y + "@" + t;
    }
  }

  /** A front without a '.' of its own changes nothing about how the launcher is chopped. */
  lemma ChopsInFront(launcher: string, x: string)
    requires launcher != "" && ('.' in x ==> '.' in launcher)
    ensures ChopLauncher(launcher + "-" + x) == ChopLauncher(launcher) + "-" + x
  {
    ChopsPrefixed(launcher, x);
  }

  /** The condition for an id with a mark: it repeats the chopped launcher up to the only mark in there. */
  predicate EchoesToMark(launcher: string, id: string) {
    var word := ChopLauncher(launcher);
    var h := IndexOf(word, MARK);
    h >= 0 && MarkedAt(word, h) && RepeatsTo(id, word, word[..h])
  }

  lemma MarkIsFirst(word: string, h: nat)
    requires MarkedAt(word, h)
    ensures IndexOf(word, MARK) == h
  {
    FirstIndex(word, MARK, h);
  }

  lemma MarkedEchoRoundTrips(launcher: string, id: string)
    requires launcher != "" && EchoesToMark(launcher, id)
    ensures UnitNameToServiceName(PlainServiceUnit(launcher, id)) == id
  {
    var word := ChopLauncher(launcher);
    var h := IndexOf(word, MARK);
    var x, t := MarkOfRepetition(id, word, h);
    UnitOfMarkedId(launcher, x, t);
    if '.' !in launcher {
      if RepeatsTo(x, word, word[..h]) {
        RepeatsToHasOnly(x, word, word[..h], '.');
      }
    }
    ChopsInFront(launcher, x);
  }

  lemma OnlyMarkedEchoesRoundTrip(launcher: string, x: string, t: string)
    requires launcher != "" && MARK !in t && ChopLauncher(launcher + "-" + x) == x + "@" + t
    ensures EchoesToMark(launcher, x + "@" + t)
  {
    DotsComeFromLauncher(launcher, x, t);
    ChopsInFront(launcher, x);
    var h := SameMarked(ChopLauncher(launcher), x, t);
    MarkIsFirst(ChopLauncher(launcher), h);
  }

  lemma DotsComeFromLauncher(launcher: string, x: string, t: string)
    requires launcher != "" && MARK !in t && ChopLauncher(launcher + "-" + x) == x + "@" + t
    ensures '.' in x ==> '.' in launcher
  {
    if '.' !in launcher {
      ChopsPrefixed(launcher, x);
      var d := IndexOf(launcher, SEPARATOR);
      var word := if d > 0 && DotFollows(launcher, x) then launcher[d + 1..] else launcher;
      assert |x| < |x + "@" + t|;
      var h := SameMarked(word, x, t);
      RepeatsToHasOnly(x + "@" + t, word, word[..h], '.');
      assert forall c :: c in x ==> c in x + "@" + t;
    }
  }

  // ---- All names ----

  /** What gives a service unit's id back without a random part, whatever the names. */
  predicate GivesBack(launcher: string, id: string) {
    && launcher != ""
    && if MARK in id then EchoesToMark(launcher, id)
       else if MARK in launcher then id == ChopLauncher(launcher[..LastIndexOf(launcher, MARK)])
       else Echoes(launcher, id)
  }

  lemma SplitAtMark(name: string) returns (front: string, back: string)
    requires MARK in name
    ensures name == front + "@" + back && MARK !in back && front == name[..LastIndexOf(name, MARK)]
  {
    var m := LastIndexOf(name, MARK);
    front, back := name[..m], name[m + 1..];
  }

  /** For all launchers and ids: such a unit gives its id back exactly when the id echoes the launcher; a mark in the
      launcher alone leaves the part in front of it. */
  lemma RoundTripsExactlyWhen(launcher: string, id: string)
    ensures UnitNameToServiceName(PlainServiceUnit(launcher, id)) == id <==> GivesBack(launcher, id)
  {
    if launcher == "" {
      PlainServiceNeverRoundTrips(id);
    } else if MARK in id {
      if EchoesToMark(launcher, id) {
        MarkedEchoRoundTrips(launcher, id);
      } else {
        var x, t := SplitAtMark(id);
        UnitOfMarkedId(launcher, x, t);
        if ChopLauncher(launcher + "-" + x) == id {
          OnlyMarkedEchoesRoundTrip(launcher, x, t);
        }
      }
    } else if MARK in launcher {
      var front, back := SplitAtMark(launcher);
      UnitOfMarkedLauncher(front, back, id);
    } else {
      PlainServiceRoundTrips(launcher, id);
    }
  }
}
