/** What calculateRatingData takes a frame for, by its names alone. */
module FrameRoles {
  import opened Sequences
  import opened BacktraceLines
  import opened LineRules
  import opened FrameLines
  import opened LineDescriptions

  // ---- Roles of frames, by the function name alone ----

  ghost predicate Begins(s: string, prefixes: set<string>) {
    exists prefix, rest :: prefix in prefixes && s == prefix + rest
  }

  ghost predicate Ends(s: string, suffixes: set<string>) {
    exists front, suffix :: suffix in suffixes && s == front + suffix
  }

  ghost predicate Holds(s: string, parts: set<string>) {
    exists front, part, back :: part in parts && s == front + part + back
  }

  lemma BeginsExactly(s: string, prefixes: set<string>)
    ensures StartsWithAny(s, prefixes) <==> Begins(s, prefixes)
  {
    forall p | p in prefixes
      ensures StartsWith(s, p) <==> exists rest :: s == p + rest
    {
      StartsWithExactly(s, p);
    }
  }

  lemma EndsExactly(s: string, suffixes: set<string>)
    ensures EndsWithAny(s, suffixes) <==> Ends(s, suffixes)
  {
    forall p | p in suffixes
      ensures EndsWith(s, p) <==> exists front :: s == front + p
    {
      EndsWithExactly(s, p);
    }
  }

  lemma HoldsExactly(s: string, parts: set<string>)
    ensures ContainsAny(s, parts) <==> Holds(s, parts)
  {
    forall p | p in parts
      ensures Contains(s, p) <==> exists front, back :: s == front + p + back
    {
      ContainsExactly(s, p);
    }
  }

  predicate Optional(part: string, word: string) {
    part == "" || part == word
  }

  predicate NotifyForm(name: string, core: string, private: string, rest: string) {
    && Optional(core, "Core") && Optional(private, "Private") && name != "" && (name[0] == 'Q' || name[0] == 'K')
    && name[1..] == core + ("Application" + (private + ("::notify" + rest)))
  }

  /** Q or K, perhaps Core, Application, perhaps Private, ::notify, and whatever is left of the line. */
  ghost predicate NamesNotify(name: string) {
    '\n' !in name && exists core, private, rest :: NotifyForm(name, core, private, rest)
  }

  lemma BehindPart(part: string, rest: string)
    ensures StartsWith(part + rest, part) && Behind(part + rest, part) == rest
  {
  }

  lemma BehindOptional(part: string, word: string, rest: string)
    requires word != "" && Optional(part, word) && rest != "" && rest[0] != word[0]
    ensures Behind(part + rest, word) == rest
  {
    if part == "" {
      assert part + rest == rest;
    } else {
      BehindPart(word, rest);
    }
  }

  lemma SplitOptional(s: string, word: string) returns (part: string)
    ensures Optional(part, word) && s == part + Behind(s, word)
  {
    part := if StartsWith(s, word) then word else "";
  }

  lemma SplitPart(s: string, word: string)
    requires StartsWith(s, word)
    ensures s == word + Behind(s, word)
  {
  }

  lemma FormIsNotify(name: string, core: string, private: string, rest: string)
    requires NotifyForm(name, core, private, rest) && '\n' !in name
    ensures IsNotify(name)
  {
    var call := "::notify" + rest;
    var app := "Application" + (private + call);
    BehindOptional(core, "Core", app);
    BehindPart("Application", private + call);
    BehindOptional(private, "Private", call);
  }

  lemma NotifyHasForm(name: string)
    requires IsNotify(name)
    ensures NamesNotify(name)
  {
    var core := SplitOptional(name[1..], "Core");
    var app := Behind(name[1..], "Core");
    SplitPart(app, "Application");
    var private := SplitOptional(Behind(app, "Application"), "Private");
    var call := Behind(Behind(app, "Application"), "Private");
    SplitPart(call, "::notify");
    assert NotifyForm(name, core, private, Behind(call, "::notify"));
  }

  lemma NotifyExactly(name: string)
    ensures IsNotify(name) <==> NamesNotify(name)
  {
    if IsNotify(name) {
      NotifyHasForm(name);
    }
    if NamesNotify(name) {
      var core, private, rest :| NotifyForm(name, core, private, rest);
      FormIsNotify(name, core, private, rest);
    }
  }

  lemma FunctionIsKnown(p: Patterns, text: string)
    requires IsFrame(p, text)
    ensures var line := Classify(p, text);
            NoFunction(line) <==> line.fileName == "" && !Known(line.functionName)
  {
  }

  ghost predicate NamesBase(name: string) {
    || name in {"start_thread", "main", "kdemain", "~KCleanUpGlobalStatic", "~QGlobalStatic", "exit", "*__GI_exit"}
    || NamesNotify(name)
  }

  lemma BaseByName(line: BacktraceLine)
    ensures LineIsStackBase(line) <==> !NoFunction(line) && NamesBase(line.functionName)
  {
    NotifyExactly(line.functionName);
  }

  lemma NamesBaseIsKnown(name: string)
    requires NamesBase(name)
    ensures Known(name)
  {
  }

  /** Stack bases, whatever else is known about the frame. */
  lemma BasesAre(p: Patterns, text: string)
    requires IsFrame(p, text)
    ensures Describe(Classify(p, text)).frame.base <==> NamesBase(Classify(p, text).functionName)
  {
    FunctionIsKnown(p, text);
    BaseByName(Classify(p, text));
    if NamesBase(Classify(p, text).functionName) {
      NamesBaseIsKnown(Classify(p, text).functionName);
    }
  }

  ghost predicate NamesTop(name: string) {
    name in {"qFatal", "abort", "*__GI_abort", "*__GI___assert_fail"} || exists rest :: name == "qt_assert" + rest
  }

  lemma TopByName(line: BacktraceLine)
    ensures LineIsStackTop(line) <==> !NoFunction(line) && NamesTop(line.functionName)
  {
    StartsWithExactly(line.functionName, "qt_assert");
  }

  lemma NamesTopIsKnown(name: string)
    requires NamesTop(name)
    ensures Known(name)
  {
  }

  /** Stack tops. */
  lemma TopsAre(p: Patterns, text: string)
    requires IsFrame(p, text)
    ensures Describe(Classify(p, text)).frame.top <==> NamesTop(Classify(p, text).functionName)
  {
    FunctionIsKnown(p, text);
    TopByName(Classify(p, text));
    if NamesTop(Classify(p, text).functionName) {
      NamesTopIsKnown(Classify(p, text).functionName);
    }
  }

  /** Frames that neither count for the rating nor show in the simplified backtrace. */
  lemma IgnoredAre(p: Patterns, text: string)
    requires IsFrame(p, text)
    ensures var line := Classify(p, text);
            Describe(line).frame.ignored <==>
              || Holds(line.libraryName, {"libc.so", "libstdc++.so", "libpthread.so", "libglib-2.0.so", "ntdll.dll",
                                          "kernel32.dll"})
              || line.functionName in {"__libc_start_main", "_start", "WinMain"}
              || (exists rest :: line.functionName == "*__GI_" + rest)
              || exists front, back :: line.functionName == front + "_tmain" + back
  {
    var line := Classify(p, text);
    HoldsExactly(line.libraryName, IGNORED_LIBRARIES);
    StartsWithExactly(line.functionName, "*__GI_");
    ContainsExactly(line.functionName, "_tmain");
  }

  ghost predicate PlumbingFunction(name: string) {
    name in {"__kernel_vsyscall", "raise", "abort", "__libc_message", "thr_kill", "qt_message_output", "qt_message",
             "qFatal"}
  }

  ghost predicate PlumbingClass(name: string) {
    Begins(name, {"QBasicAtomicInt::", "QBasicAtomicPointer::", "QAtomicInt::", "QAtomicPointer::", "QMetaObject::",
                  "QPointer::", "QWeakPointer::", "QSharedPointer::", "QScopedPointer::", "QMetaCallEvent::",
                  "qGetPtrHelper", "qt_meta_"})
  }

  ghost predicate PlumbingMethod(name: string) {
    Ends(name, {"detach", "detach_helper", "node_create", "deref", "ref", "node_copy", "d_func"})
  }

  lemma PlumbingClassIs(name: string)
    ensures StartsWithAny(name, USELESS_PREFIXES) <==> PlumbingClass(name)
  {
    BeginsExactly(name, USELESS_PREFIXES);
  }

  lemma PlumbingMethodIs(name: string)
    ensures EndsWithAny(name, USELESS_SUFFIXES) <==> PlumbingMethod(name)
  {
    EndsExactly(name, USELESS_SUFFIXES);
  }

  /** Frames worth showing in the simplified backtrace: known, if only by a source file, and no plumbing. */
  lemma UsefulAre(p: Patterns, text: string)
    requires IsFrame(p, text)
    ensures var line := Classify(p, text);
            var name := line.functionName;
            Describe(line).item.useful <==>
              && !Describe(line).frame.ignored && (line.fileName != "" || Known(name))
              && !PlumbingFunction(name) && !PlumbingClass(name) && !PlumbingMethod(name)
  {
    var line := Classify(p, text);
    FunctionIsKnown(p, text);
    UsefulByName(line);
  }

  lemma UsefulByName(line: BacktraceLine)
    ensures IsFunctionUseful(line) <==>
              && !NoFunction(line) && !PlumbingFunction(line.functionName)
              && !PlumbingClass(line.functionName) && !PlumbingMethod(line.functionName)
  {
    PlumbingClassIs(line.functionName);
    PlumbingMethodIs(line.functionName);
  }

  /** The text and the library of a frame, and whether it tells of a lost compositor. */
  lemma TextsAre(p: Patterns, text: string) returns (front: string, back: string)
    ensures var r := Describe(Classify(p, text));
            && r.item.text == text
            && r.frame.rating == Classify(p, text).rating.Value()
            && (r.mentionsCompositor <==>
                  exists before, after ::
                    text == before + "The Wayland connection broke. Did the Wayland compositor die" + after)
            && Classify(p, text).libraryName == front + r.library + back
            && AllSpace(front) && AllSpace(back)
            && (r.library != "" ==> !IsSpace(r.library[0]) && !IsSpace(r.library[|r.library| - 1]))
  {
    ContainsExactly(text, COMPOSITOR_GONE);
    front, back := TrimmedExactly(Classify(p, text).libraryName);
  }
}
