/** BacktraceGenerator, DebuggerManager, KCrashBackend and QLockFile as the objects they are; signals are calls.
    Each method is proved against the session model and the trace pipeline. */
module BacktraceGenerator {
  import opened Sequences
  import opened Session
  import opened LineSplitting
  import opened TracePipeline
  import Parser = BacktraceParserGdb

  /** The lock file on disk, shared by all DrKonqi processes. */
  class LockOnDisk {
    var held: bool

    constructor ()
      ensures !held
    {
      held := false;
    }
  }

  /** One process's handle on it. */
  class QLockFile {
    const disk: LockOnDisk
    var isLocked: bool

    constructor (disk: LockOnDisk)
      ensures this.disk == disk && !isLocked
    {
      this.disk := disk;
      isLocked := false;
    }

    method TryLock() returns (ok: bool)
      modifies this, disk
      ensures ok == !old(disk.held)
      ensures disk.held && isLocked == (ok || old(isLocked))
    {
      ok := !disk.held;
      if ok {
        disk.held, isLocked := true, true;
      }
    }

    method Unlock()
      modifies this, disk
      ensures !isLocked && disk.held == (old(disk.held) && !old(isLocked))
    {
      if isLocked {
        disk.held, isLocked := false, false;
      }
    }
  }

  class KCrashBackend {
    var m_state: BackendState
    var stopped: bool // the crashed process, as the signals sent to it leave it

    constructor ()
      ensures m_state == ProcessRunning && !stopped
    {
      m_state, stopped := ProcessRunning, false;
    }

    method StopAttachedProcess()
      modifies this
      ensures m_state == (if old(m_state) == ProcessRunning then ProcessStopped else old(m_state))
      ensures stopped == (old(stopped) || old(m_state) == ProcessRunning)
    {
      if m_state == ProcessRunning {
        stopped := true;
        m_state := ProcessStopped;
      }
    }

    method ContinueAttachedProcess()
      modifies this
      ensures m_state == (if old(m_state) == ProcessStopped then ProcessRunning else old(m_state))
      ensures stopped == (old(stopped) && old(m_state) != ProcessStopped)
    {
      if m_state == ProcessStopped {
        stopped := false;
        m_state := ProcessRunning;
      }
    }

    method OnDebuggerStarting()
      modifies this
      ensures m_state == DebuggerRunning && stopped == (old(stopped) && old(m_state) != ProcessStopped)
    {
      ContinueAttachedProcess();
      m_state := DebuggerRunning;
    }

    method OnDebuggerFinished()
      modifies this
      ensures m_state == ProcessStopped && stopped
    {
      m_state := ProcessRunning;
      StopAttachedProcess();
    }
  }

  class DebuggerManager {
    const backend: KCrashBackend
    var debuggerRunning: bool

    constructor (backend: KCrashBackend)
      ensures this.backend == backend && !debuggerRunning
    {
      this.backend := backend;
      debuggerRunning := false;
    }

    ghost function Contents(): Manager
      reads this, backend
    {
      Manager(debuggerRunning, backend.m_state, backend.stopped)
    }

    method OnDebuggerStarting()
      modifies this, backend
      ensures Contents() == DebuggerStarting(old(Contents()))
    {
      debuggerRunning := true;
      backend.OnDebuggerStarting();
    }

    method OnDebuggerFinished()
      modifies this, backend
      ensures Contents() == DebuggerFinished(old(Contents()))
      ensures !debuggerRunning && backend.m_state == ProcessStopped && backend.stopped
    {
      debuggerRunning := false;
      backend.OnDebuggerFinished();
    }
  }

  class BacktraceGenerator {
    const m_parser: Parser.BacktraceParserGdb
    const manager: DebuggerManager
    const m_lockFile: QLockFile?
    const decode: seq<byte> -> string
    var m_proc: Process
    var lingering: bool // a process handed to deleteLater() while alive
    var m_temp: bool
    var m_output: seq<byte>
    var m_state: State
    var m_lockWatcher: Watcher
    // what this session waits for, and how its present run began
    var prepareAsked: bool
    var fenceAsked: bool
    var timedOut: bool

    ghost predicate Valid()
      reads m_parser
    {
      m_parser.Valid()
    }

    ghost function LockFootprint(): set<object> {
      if m_lockFile == null then {} else {m_lockFile as object, m_lockFile.disk}
    }

    ghost function View(): Local
      reads this`m_state, this`m_proc, this`lingering, this`m_temp, this`m_lockWatcher
      reads this`prepareAsked, this`fenceAsked, this`timedOut, manager, manager.backend, LockFootprint()
    {
      Local(
        Generator(m_state, m_proc, lingering, m_temp, m_lockFile != null, m_lockFile != null && m_lockFile.isLocked,
                  m_lockWatcher, prepareAsked, fenceAsked, timedOut, false,
                  manager.Contents()),
        m_lockFile != null && m_lockFile.disk.held)
    }

    ghost function ReaderView(): Reader
      reads m_parser
    {
      Reader(m_parser.Machine(), m_parser.m_lineInputBuffer)
    }

    constructor (parser: Parser.BacktraceParserGdb, manager: DebuggerManager, lockFile: QLockFile?,
                 decode: seq<byte> -> string)
      requires parser.Valid()
      ensures Valid() && m_parser == parser && this.manager == manager && m_lockFile == lockFile
      ensures m_state == NotLoaded && m_proc == NoProcess && !m_temp && m_output == [] && m_lockWatcher == NoWatcher
    {
      m_parser, this.manager, m_lockFile, this.decode := parser, manager, lockFile, decode;
      m_proc, m_temp, m_output, m_state, m_lockWatcher := NoProcess, false, [], NotLoaded, NoWatcher;
      lingering, prepareAsked, fenceAsked, timedOut := false, false, false, false;
    }

    /** stateChanged, then done, someError or failedToStart: all three reach the manager's onDebuggerFinished. */
    method Settle(state: State)
      modifies this`m_state, manager, manager.backend
      ensures View() == Session.Settle(old(View()), state)
    {
      m_state := state;
      manager.OnDebuggerFinished();
    }

    /** starting reaches the manager's onDebuggerStarting. */
    method EmitStarting()
      modifies manager, manager.backend
      ensures View() == old(View()).(g := old(View()).g.(manager := DebuggerStarting(old(View()).g.manager)))
    {
      manager.OnDebuggerStarting();
    }

    /** surroundMe() */
    method AskFence()
      modifies this`fenceAsked
      ensures View() == old(View()).(g := old(View()).g.(fenceAsked := true))
    {
      fenceAsked := true;
    }

    method DropLockWatcher()
      modifies this`m_lockWatcher, this`timedOut
      ensures View()
           == old(View()).(g := old(View()).g.(timedOut := old(View()).g.watcher == GaveUp, watcher := NoWatcher))
    {
      timedOut := m_lockWatcher == GaveUp;
      m_lockWatcher := NoWatcher;
    }

    method Start(usable: bool)
      requires Valid() && m_proc == NoProcess && !m_temp
      modifies this`m_state, this`prepareAsked, this`timedOut, manager, manager.backend
      ensures Valid() && View() == Session.Start(old(View()), usable)
    {
      timedOut := false;
      if !usable {
        Settle(FailedToStart);
        return;
      }
      m_state := Loading;
      prepareAsked := true;
    }

    /** newLine goes to the parser's newLine and newLineInternal. */
    method EmitNewLine(line: string)
      requires Valid()
      modifies m_parser
      ensures Valid() && ReaderView() == Feed(m_parser.patterns, old(ReaderView()), line)
    {
      m_parser.NewLine(line);
      m_parser.NewLineInternal();
    }

    method SlotReadInput(output: seq<byte>)
      requires Valid()
      modifies this`m_output, m_parser
      ensures Valid()
      ensures m_proc == NoProcess ==> m_output == old(m_output) && ReaderView() == old(ReaderView())
      ensures m_proc != NoProcess ==> m_output == Cut(old(m_output) + output).rest
      ensures m_proc != NoProcess ==>
                ReaderView()
                == FeedAll(m_parser.patterns, old(ReaderView()), Map(decode, Cut(old(m_output) + output).lines))
    {
      if m_proc == NoProcess {
        return;
      }
      m_output := m_output + output;
      ghost var all, reader := m_output, ReaderView();
      ghost var taken: seq<seq<byte>> := [];
      var pos := IndexOf(m_output, NEWLINE);
      assert [] + Cut(m_output).lines == Cut(m_output).lines;
      while pos != -1
        invariant Valid() && pos == IndexOf(m_output, NEWLINE)
        invariant Cut(all) == Split(taken + Cut(m_output).lines, Cut(m_output).rest)
        invariant ReaderView() == FeedAll(m_parser.patterns, reader, Map(decode, taken))
        decreases |m_output|
      {
        CutMoves(Cut(all), taken, m_output);
        FeedNext(m_parser.patterns, reader, decode, taken, m_output[..pos + 1]);
        taken := taken + [m_output[..pos + 1]];
        var line := decode(m_output[..pos + 1]);
        m_output := m_output[pos + 1..];
        EmitNewLine(line);
        pos := IndexOf(m_output, NEWLINE);
      }
      CutMoves(Cut(all), taken, m_output);
    }

    method ResetProcessAndUnlock()
      requires Valid()
      modifies this`m_proc, this`m_temp, LockFootprint()
      ensures Valid() && View() == Session.ResetProcessAndUnlock(old(View()))
    {
      if m_proc != NoProcess {
        m_proc := NoProcess;
      }
      if m_temp {
        m_temp := false;
      }
      if m_lockFile != null {
        m_lockFile.Unlock();
      }
    }

    /** The process is useless now, and the parser learns that the backtrace is over. */
    method EndBacktrace()
      requires Valid()
      modifies this`m_proc, this`m_temp, m_parser, LockFootprint()
      ensures Valid() && View() == Session.ResetProcessAndUnlock(old(View()))
      ensures ReaderView() == Feed(m_parser.patterns, old(ReaderView()), "")
    {
      ResetProcessAndUnlock();
      EmitNewLine("");
    }

    method SlotProcessExited(ok: bool, highPressure: bool)
      requires Valid()
      modifies this`m_state, this`m_proc, this`m_temp, m_parser, manager, manager.backend, LockFootprint()
      ensures Valid() && View() == ProcessExited(old(View()), ok, highPressure)
      ensures ReaderView() == Feed(m_parser.patterns, old(ReaderView()), "")
    {
      EndBacktrace();
      if !ok {
        Settle(if highPressure then MemoryPressure else Failed);
        return;
      }
      Settle(Loaded);
    }

    /** slotReadInput's last resort for an lldb that has detached: kill(), and pretend that it quit. */
    method ExitDetached()
      requires Valid() && m_proc == Running
      modifies this`m_state, this`m_proc, this`lingering, this`m_temp
      modifies m_parser, manager, manager.backend, LockFootprint()
      ensures Valid() && View() == Detached(old(View()))
      ensures ReaderView() == Feed(m_parser.patterns, old(ReaderView()), "")
    {
      MarkLingering();
      SlotProcessExited(true, false);
    }

    method MarkLingering()
      modifies this`lingering
      ensures View() == old(View()).(g := old(View()).g.(lingering := true))
    {
      lingering := true;
    }

    /** deleteLater() leaves a process that is still alive behind. */
    method LeaveBehind(error: ProcessError)
      modifies this`lingering
      ensures View() == old(View()).(g := old(View()).g.(lingering := old(View()).g.lingering || error.LeavesProcess()))
    {
      lingering := lingering || error.LeavesProcess();
    }

    method Discard(error: ProcessError)
      requires Valid()
      modifies this`m_proc, this`lingering, this`m_temp, LockFootprint()
      ensures Valid() && View() == Discarded(old(View()), error)
    {
      LeaveBehind(error);
      ResetProcessAndUnlock();
    }

    method SlotOnErrorOccurred(error: ProcessError, highPressure: bool)
      requires Valid()
      modifies this`m_state, this`m_proc, this`lingering, this`m_temp, manager, manager.backend, LockFootprint()
      ensures Valid() && View() == ErrorOccurred(old(View()), error, highPressure)
    {
      if m_proc == NoProcess {
        return;
      }
      Discard(error);
      if highPressure {
        Settle(MemoryPressure);
        return;
      }
      match error {
        case ErrorFailedToStart => Settle(FailedToStart);
        case _ => Settle(Failed);
      }
    }

    /** Answers the backend's preparing. */
    method SetBackendPrepared()
      requires Valid() && m_state == Loading && m_proc == NoProcess && !m_temp
      modifies this`m_lockWatcher, this`prepareAsked, this`fenceAsked
      modifies m_parser, manager, manager.backend, LockFootprint()
      ensures Valid() && View() == Session.SetBackendPrepared(old(View()))
      ensures View().g.fenceAsked && !old(View()).g.fenceAsked ==> ReaderView() == NEW_READER
      ensures !View().g.fenceAsked ==> ReaderView() == old(ReaderView())
    {
      prepareAsked := false;
      if m_lockFile == null {
        StartProcess();
        return;
      }
      if m_lockFile.isLocked {
        StartProcess();
        return;
      }
      if m_lockWatcher != NoWatcher {
        return;
      }
      var ok := m_lockFile.TryLock();
      if !ok {
        m_lockWatcher := Waiting;
        return;
      }
      StartProcess();
    }

    /** The lock watcher's finished signal. */
    method OnLockWatcherFinished()
      requires Valid() && m_state == Loading && m_proc == NoProcess && !m_temp
      modifies this`m_lockWatcher, this`fenceAsked, this`timedOut, m_parser, manager, manager.backend
      ensures Valid() && View() == WaitFinished(old(View()))
      ensures ReaderView() == NEW_READER
    {
      DropLockWatcher();
      StartProcess();
    }

    /** starting resets the parser and reaches the manager; then the memory fence is asked to surround us. */
    method StartProcess()
      requires Valid() && m_state == Loading && m_proc == NoProcess && !m_temp
      modifies this`fenceAsked, m_parser, manager, manager.backend
      ensures Valid() && View() == Session.StartProcess(old(View()))
      ensures ReaderView() == NEW_READER
    {
      m_parser.ResetState();
      EmitStarting();
      AskFence();
    }

    /** The memory fence's loaded signal. */
    method StartProcessInternal()
      requires Valid()
      modifies this`m_proc, this`m_temp, this`fenceAsked
      ensures Valid() && View() == Session.StartProcessInternal(old(View()))
    {
      fenceAsked := false;
      m_proc := Starting;
      m_temp := true;
    }

    method SetBackendFailedToPrepare()
      requires Valid() && m_proc == NoProcess && !m_temp
      modifies this`m_state, this`m_proc, this`m_temp, this`prepareAsked, manager, manager.backend
      ensures Valid() && View() == Session.SetBackendFailedToPrepare(old(View()))
    {
      m_proc := NoProcess;
      m_temp := false;
      prepareAsked := false;
      Settle(FailedToPrepare);
    }

    /** The destructor; a running debugger finishes within ten seconds of terminate(), or else is left behind. */
    method Destruct(finishes: bool)
      requires Valid()
      modifies this`m_proc, this`lingering, this`m_temp, LockFootprint()
      ensures View() == GeneratorDestroyed(old(View()), finishes)
    {
      if m_proc == Running {
        if !finishes {
          lingering := true;
        }
        m_proc := NoProcess;
        m_temp := false;
      }
      if m_lockFile != null {
        m_lockFile.Unlock();
      }
    }
  }
}
