/** Which paths in a frame line are taken for libraries. */
module LibraryNames {
  import opened Sequences
  import opened BacktraceLines

  /** The file name has ".so" at its end, in front of a '.', or behind an earlier '.'. */
  ghost predicate NamesLibrary(name: string) {
    exists front, back :: LibraryForm(name, front, back)
  }

  predicate LibraryForm(name: string, front: string, back: string) {
    name == front + ".so" + back && ('.' in front || back == "" || back[0] == '.')
  }

  predicate IsDirectory(dir: string) {
    dir == "" || dir[|dir| - 1] == '/'
  }

  lemma FileNameIs(dir: string, name: string)
    requires '/' !in name && IsDirectory(dir)
    ensures BaseName(dir + name) == name
  {
    var path := dir + name;
    assert path[|dir|..] == name;
    if dir == "" {
      assert path == name;
    } else {
      LastIndex(path, '/', |dir| - 1);
    }
  }

  lemma BehindDotIs(pre: string, suffix: string)
    requires '.' !in pre
    ensures BehindDot(pre + "." + suffix) == suffix
  {
    var name := pre + "." + suffix;
    assert name[..|pre|] == pre && name[|pre| + 1..] == suffix && name[|pre|] == '.';
    FirstIndex(name, '.', |pre|);
  }

  /** Behind the first '.', which stands behind `pre`. */
  lemma SuffixBehind(dir: string, pre: string, suffix: string)
    requires '/' !in pre + "." + suffix && IsDirectory(dir) && '.' !in pre
    ensures CompleteSuffix(dir + (pre + "." + suffix)) == suffix
  {
    FileNameIs(dir, pre + "." + suffix);
    BehindDotIs(pre, suffix);
  }

  lemma NoSuffix(dir: string, name: string)
    requires '/' !in name && IsDirectory(dir) && '.' !in name
    ensures CompleteSuffix(dir + name) == ""
  {
    FileNameIs(dir, name);
  }

  predicate LibrarySuffix(suffix: string) {
    suffix == "so" || StartsWith(suffix, "so.") || Contains(suffix, ".so")
  }

  lemma FormIs(pre: string, rest: string)
    ensures pre + "." + ("so" + rest) == pre + ".so" + rest
  {
    Associate(pre + ".", "so", rest);
    Associate(pre, ".", "so");
  }

  lemma FormBehind(pre: string, front: string, back: string)
    ensures pre + "." + (front + ".so" + back) == pre + "." + front + ".so" + back
  {
    Associate(pre + ".", front + ".so", back);
    Associate(pre + ".", front, ".so");
  }

  lemma SuffixGivesForm(pre: string, suffix: string)
    requires '.' !in pre && LibrarySuffix(suffix)
    ensures NamesLibrary(pre + "." + suffix)
  {
    if suffix == "so" || StartsWith(suffix, "so.") {
      assert suffix == "so" + suffix[2..];
      FormIs(pre, suffix[2..]);
      assert LibraryForm(pre + "." + suffix, pre, suffix[2..]);
    } else {
      ContainsExactly(suffix, ".so");
      var front, back :| suffix == front + ".so" + back;
      FormBehind(pre, front, back);
      assert (pre + "." + front)[|pre|] == '.';
      assert LibraryForm(pre + "." + suffix, pre + "." + front, back);
    }
  }

  /** The first '.' of a library's file name, and what is behind it. */
  lemma FormGivesSuffix(name: string, front: string, back: string) returns (pre: string, suffix: string)
    requires LibraryForm(name, front, back)
    ensures name == pre + "." + suffix && '.' !in pre && LibrarySuffix(suffix)
  {
    if '.' in front {
      var d := IndexOf(front, '.');
      var rest := front[d + 1..];
      pre, suffix := front[..d], rest + ".so" + back;
      assert front == pre + "." + rest;
      FormBehind(pre, rest, back);
      ContainsExactly(suffix, ".so");
    } else {
      pre, suffix := front, "so" + back;
      FormIs(front, back);
      if back != "" {
        assert suffix == "so." + back[1..];
      }
    }
  }

  lemma SplitAtDot(name: string) returns (pre: string, suffix: string)
    requires '.' in name
    ensures name == pre + "." + suffix && '.' !in pre
  {
    var d := IndexOf(name, '.');
    pre, suffix := name[..d], name[d + 1..];
  }

  lemma CompleteSuffixExactly(dir: string, name: string)
    requires '/' !in name && IsDirectory(dir)
    ensures LibrarySuffix(CompleteSuffix(dir + name)) <==> NamesLibrary(name)
  {
    if '.' in name {
      var pre, suffix := SplitAtDot(name);
      SuffixBehind(dir, pre, suffix);
      if LibrarySuffix(suffix) {
        SuffixGivesForm(pre, suffix);
      }
    } else {
      NoSuffix(dir, name);
    }
    if NamesLibrary(name) {
      var front, back :| LibraryForm(name, front, back);
      var pre, suffix := FormGivesSuffix(name, front, back);
      SuffixBehind(dir, pre, suffix);
    }
  }

  /** A path is a source file's exactly when gdb said "at" and the file name is not a library's. */
  lemma SourceFileExactly(at: bool, dir: string, name: string)
    requires '/' !in name && IsDirectory(dir)
    ensures IsSourceFile(Location(at, dir + name)) <==> at && !NamesLibrary(name)
  {
    CompleteSuffixExactly(dir, name);
  }
}
