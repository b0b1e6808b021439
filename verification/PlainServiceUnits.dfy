/** Service units without a random part: the last '-' is taken for the one in front of it. */
module PlainServiceUnits {
  import opened Sequences
  import opened UnitNames

  /** word, word-word, word-word-word, ... */
  predicate Repeats(text: string, word: string)
    decreases |text|
  {
    || text == word
    || (|text| > |word| && text[..|word| + 1] == word + "-" && Repeats(text[|word| + 1..], word))
  }

  /** The cut takes off the last part, whichever part of the name that is. */
  lemma LastPartIsCut(name: string, part: string)
    requires '@' !in name && '@' !in part && SEPARATOR !in part
    ensures ChopRandom(name + "-" + part + ".service") == name
  {
    ScopeIsChopped(name, part + ".service");
    Associate(name + "-", part, ".service");
  }

  lemma UnitIs(name: string)
    ensures UnitNameToServiceName(APP + name + ".service") == ChopLauncher(ChopRandom(name + ".service"))
  {
    AppIsChopped(name + ".service");
    Associate(APP, name, ".service");
  }

  lemma SplitAt(id: string, d: nat)
    requires d < |id| && id[d] == SEPARATOR
    ensures id == id[..d] + "-" + id[d + 1..]
  {
  }

  lemma PartsOf(launcher: string, id: string, d: nat)
    requires d < |id| && id[d] == SEPARATOR
    ensures launcher + "-" + id == launcher + "-" + id[..d] + "-" + id[d + 1..]
  {
    SplitAt(id, d);
    Associate(launcher + "-", id[..d] + "-", id[d + 1..]);
    Associate(launcher + "-", id[..d], "-");
  }

  lemma UnitOfOnePart(launcher: string, id: string)
    requires launcher != "" && '@' !in launcher && '@' !in id && SEPARATOR !in id
    ensures UnitNameToServiceName(PlainServiceUnit(launcher, id)) == ChopLauncher(launcher)
  {
    UnitIs(launcher + "-" + id);
    LastPartIsCut(launcher, id);
  }

  lemma UnitOfParts(launcher: string, id: string, d: nat)
    requires launcher != "" && '@' !in launcher && '@' !in id
    requires d < |id| && id[d] == SEPARATOR && SEPARATOR !in id[d + 1..]
    ensures UnitNameToServiceName(PlainServiceUnit(launcher, id)) == ChopLauncher(launcher + "-" + id[..d])
  {
    UnitIs(launcher + "-" + id);
    PartsOf(launcher, id, d);
    LastPartIsCut(launcher + "-" + id[..d], id[d + 1..]);
  }

  lemma RepeatsOneMore(word: string, text: string)
    requires Repeats(text, word)
    ensures Repeats(word + "-" + text, word)
  {
    var all := word + "-" + text;
    assert all[..|word| + 1] == word + "-" && all[|word| + 1..] == text;
  }

  /** If word-text is text-tail, with no '-' in the tail, everything consists of the word. */
  lemma {:induction false} SameBothWays(word: string, text: string, tail: string)
    requires word + "-" + text == text + "-" + tail && SEPARATOR !in tail
    ensures SEPARATOR !in word && Repeats(word + "-" + text, word)
    decreases |text|
  {
    var left, right := word + "-" + text, text + "-" + tail;
    assert |word| == |tail|;
    if |text| <= |word| {
      ShortText(word, text, tail);
    } else {
      var rest := text[|word| + 1..];
      assert left[..|word| + 1] == word + "-" && right[..|word| + 1] == text[..|word| + 1];
      assert text == word + "-" + rest;
      assert left[|word| + 1..] == text && right[|word| + 1..] == rest + "-" + tail;
      SameBothWays(word, rest, tail);
      RepeatsOneMore(word, text);
    }
  }

  lemma DashAfterText(word: string, text: string, tail: string)
    requires word + "-" + text == text + "-" + tail && |text| <= |word|
    ensures |text| == |word| || SEPARATOR in tail
  {
    var left, right := word + "-" + text, text + "-" + tail;
    assert left[|word|] == SEPARATOR;
    assert right[|text| + 1..] == tail;
    if |text| < |word| {
      assert right[|text| + 1..][|word| - |text| - 1] == SEPARATOR;
    }
  }

  lemma ShortText(word: string, text: string, tail: string)
    requires word + "-" + text == text + "-" + tail && SEPARATOR !in tail && |text| <= |word|
    ensures SEPARATOR !in word && Repeats(word + "-" + text, word)
  {
    DashAfterText(word, text, tail);
    var left, right := word + "-" + text, text + "-" + tail;
    assert left[..|word|] == word && right[..|text|] == text;
    assert left[|word| + 1..] == text && right[|text| + 1..] == tail;
    RepeatsOneMore(word, text);
  }

  /** A text made of one word ends in it, and what is in front is made of it too. */
  lemma {:induction false} RepeatsAtEnd(text: string, word: string) returns (front: string)
    requires Repeats(text, word) && text != word
    ensures Repeats(front, word) && text == front + "-" + word == word + "-" + front
    decreases |text|
  {
    var rest := text[|word| + 1..];
    assert text == word + "-" + rest;
    if rest == word {
      front := word;
    } else {
      var f := RepeatsAtEnd(rest, word);
      front := word + "-" + f;
      RepeatsOneMore(word, f);
      assert text == word + "-" + (f + "-" + word) == front + "-" + word;
    }
  }

  lemma {:induction false} RepeatsHasOnly(text: string, word: string, c: char)
    requires Repeats(text, word) && c !in word && c != SEPARATOR
    ensures c !in text
    decreases |text|
  {
    if text != word {
      var rest := text[|word| + 1..];
      RepeatsHasOnly(rest, word, c);
      assert text == word + "-" + rest;
    }
  }

  lemma SuffixIs(launcher: string, d: nat, front: string)
    requires d < |launcher|
    ensures (launcher + "-" + front)[d + 1..] == launcher[d + 1..] + "-" + front
  {
  }

  /** Does chopping launcher-front find a '.' behind the first '-'? */
  predicate DotFollows(launcher: string, front: string) {
    if '.' in launcher then LooksLaunched(launcher) else '.' in front
  }

  /** Chopping launcher-front takes off the launcher, or its first half, or nothing. */
  lemma ChopsPrefixed(launcher: string, front: string)
    requires launcher != ""
    ensures var d := IndexOf(launcher, SEPARATOR);
            ChopLauncher(launcher + "-" + front)
            == if d == -1 then (if '.' !in launcher && '.' in front then front else launcher + "-" + front)
               else if d > 0 && DotFollows(launcher, front) then launcher[d + 1..] + "-" + front
               else launcher + "-" + front
  {
    LaunchedIndices(launcher, front);
    var d := IndexOf(launcher, SEPARATOR);
    if d >= 0 {
      SuffixIs(launcher, d, front);
    }
  }

  /** Chopping launcher-front, where front repeats what is left of the launcher alone. */
  lemma ChopsRepeated(launcher: string, front: string)
    requires launcher != "" && SEPARATOR !in ChopLauncher(launcher) && Repeats(front, ChopLauncher(launcher))
    ensures ChopLauncher(launcher + "-" + front) == ChopLauncher(launcher) + "-" + front
  {
    ChopsPrefixed(launcher, front);
    if '.' !in launcher {
      RepeatsHasOnly(front, launcher, '.');
    }
  }

  /** The condition: the id consists of the launcher, or of its second half if that looks launched itself. */
  predicate Echoes(launcher: string, id: string) {
    launcher != "" && SEPARATOR !in ChopLauncher(launcher) && Repeats(id, ChopLauncher(launcher))
  }

  lemma EchoRoundTrips(launcher: string, id: string)
    requires '@' !in launcher && '@' !in id && Echoes(launcher, id)
    ensures UnitNameToServiceName(PlainServiceUnit(launcher, id)) == id
  {
    var word := ChopLauncher(launcher);
    if id == word {
      UnitOfOnePart(launcher, id);
    } else {
      var front := RepeatsAtEnd(id, word);
      SplitAtEnd(front, word);
      UnitOfParts(launcher, id, |front|);
      ChopsRepeated(launcher, front);
    }
  }

  lemma SplitAtEnd(front: string, word: string)
    ensures var all := front + "-" + word;
            all[|front|] == SEPARATOR && all[..|front|] == front && all[|front| + 1..] == word
  {
  }

  lemma OnlyEchoesRoundTrip(launcher: string, id: string)
    requires launcher != "" && '@' !in launcher && '@' !in id
    requires UnitNameToServiceName(PlainServiceUnit(launcher, id)) == id
    ensures Echoes(launcher, id)
  {
    var d := LastIndexOf(id, SEPARATOR);
    if d == -1 {
      UnitOfOnePart(launcher, id);
    } else {
      UnitOfParts(launcher, id, d);
      SplitAt(id, d);
      OnlyEchoesChop(launcher, id, id[..d], id[d + 1..]);
    }
  }

  lemma OnlyEchoesChop(launcher: string, id: string, front: string, tail: string)
    requires launcher != "" && id == front + "-" + tail && SEPARATOR !in tail
    requires ChopLauncher(launcher + "-" + front) == id
    ensures Echoes(launcher, id)
  {
    ChopsPrefixed(launcher, front);
    var l := IndexOf(launcher, SEPARATOR);
    if l > 0 && DotFollows(launcher, front) {
      var word := launcher[l + 1..];
      SameBothWays(word, front, tail);
      if '.' !in launcher {
        RepeatsHasOnly(id, word, '.');
      }
    } else {
      assert |front| < |id|;
      SameBothWays(launcher, front, tail);
    }
  }

  /** A service unit without a random part gives its id back exactly when the id echoes the launcher, as kate does in
      app-kate-kate.service. */
  lemma PlainServiceRoundTrips(launcher: string, id: string)
    requires '@' !in launcher && '@' !in id
    ensures UnitNameToServiceName(PlainServiceUnit(launcher, id)) == id <==> Echoes(launcher, id)
  {
    if launcher == "" {
      PlainServiceNeverRoundTrips(id);
    } else if Echoes(launcher, id) {
      EchoRoundTrips(launcher, id);
    } else if UnitNameToServiceName(PlainServiceUnit(launcher, id)) == id {
      OnlyEchoesRoundTrip(launcher, id);
    }
  }
}
