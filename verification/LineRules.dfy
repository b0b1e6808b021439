/** The predicates of src/parser/backtraceparser.cpp that look at one line's texts (the macOS branches are left out). */
module LineRules {
  import opened Sequences
  import opened BacktraceLines

  predicate NoFunction(line: BacktraceLine) {
    line.rating.MissingEverything? || line.rating.MissingFunction?
  }

  const BASE_FUNCTIONS: set<string> := {
    "start_thread", "main", "kdemain", "~KCleanUpGlobalStatic", "~QGlobalStatic", "exit", "*__GI_exit"}

  predicate StartsWithAny(s: string, prefixes: set<string>) {
    exists p | p in prefixes :: StartsWith(s, p)
  }

  predicate EndsWithAny(s: string, suffixes: set<string>) {
    exists p | p in suffixes :: EndsWith(s, p)
  }

  predicate ContainsAny(s: string, parts: set<string>) {
    exists p | p in parts :: Contains(s, p)
  }

  /** What is left of s behind an optional part. */
  function Behind(s: string, part: string): string {
    if StartsWith(s, part) then s[|part|..] else s
  }

  predicate IsNotifyCall(s: string) {
    StartsWith(s, "::notify")
  }

  predicate IsApplicationCall(s: string) {
    StartsWith(s, "Application") && IsNotifyCall(Behind(Behind(s, "Application"), "Private"))
  }

  /** The anchored expression (Q|K)(Core)?Application(Private)?::notify.* ; its dot matches no newline. */
  predicate IsNotify(name: string) {
    && name != "" && (name[0] == 'Q' || name[0] == 'K')
    && IsApplicationCall(Behind(name[1..], "Core"))
    && '\n' !in name
  }

  /** Frames below a stack base are not rated. */
  predicate LineIsStackBase(line: BacktraceLine) {
    !NoFunction(line) && (line.functionName in BASE_FUNCTIONS || IsNotify(line.functionName))
  }

  const TOP_FUNCTIONS: set<string> := {"qFatal", "abort", "*__GI_abort", "*__GI___assert_fail"}

  /** Frames above a stack top are not rated. */
  predicate LineIsStackTop(line: BacktraceLine) {
    !NoFunction(line) && (StartsWith(line.functionName, "qt_assert") || line.functionName in TOP_FUNCTIONS)
  }

  const IGNORED_LIBRARIES: set<string> := {
    "libc.so", "libstdc++.so", "libpthread.so", "libglib-2.0.so", "ntdll.dll", "kernel32.dll"}
  const IGNORED_FUNCTIONS: set<string> := {"__libc_start_main", "_start", "WinMain"}

  predicate LineShouldBeIgnored(line: BacktraceLine) {
    || ContainsAny(line.libraryName, IGNORED_LIBRARIES)
    || StartsWith(line.functionName, "*__GI_")
    || line.functionName in IGNORED_FUNCTIONS
    || Contains(line.functionName, "_tmain")
  }

  const USELESS_FUNCTIONS: set<string> := {
    "__kernel_vsyscall", "raise", "abort", "__libc_message", "thr_kill", "qt_message_output", "qt_message", "qFatal"}
  const USELESS_PREFIXES: set<string> := {
    "QBasicAtomicInt::", "QBasicAtomicPointer::", "QAtomicInt::", "QAtomicPointer::", "QMetaObject::", "QPointer::",
    "QWeakPointer::", "QSharedPointer::", "QScopedPointer::", "QMetaCallEvent::", "qGetPtrHelper", "qt_meta_"}
  const USELESS_SUFFIXES: set<string> := {
    "detach", "detach_helper", "node_create", "deref", "ref", "node_copy", "d_func"}

  predicate IsFunctionUseful(line: BacktraceLine) {
    && !NoFunction(line)
    && line.functionName !in USELESS_FUNCTIONS
    && !StartsWithAny(line.functionName, USELESS_PREFIXES)
    && !EndsWithAny(line.functionName, USELESS_SUFFIXES)
  }

  const COMPOSITOR_GONE := "The Wayland connection broke. Did the Wayland compositor die"
}
