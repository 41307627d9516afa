/** The network packet capture task of view/tasks/infinite_loop/packetcapture.py:
    an endless task whose engine starts an asynchronous sniffer and, when the
    user stops the acquisition, halts it, waits a second and dumps what it
    buffered to one pcap file. The sniffer and the pcap writer are outside
    the model: the sniffer is a small class whose failure to start and whose
    captured traffic are parameters, and the written files are a map from
    path to packets. Qt signals are event traces, the wait is counted. */
module Capture {
  import opened Common

  /** One captured frame. */
  datatype Packet = Packet(frame: Bytes)

  /** The `details` argument of `update_task`. */
  datatype Detail = NoDetail | CaptureStartedDetail | CaptureCompletedDetail

  /** One `update_task(state, status, details)` call. */
  datatype Progress = Progress(state: State, status: Status, details: Detail)

  /** The engine's signals: `started`, `error`, `finished`. */
  datatype EngineEvent = EngineStarted | EngineError(error: ErrorEvent) | EngineFinished

  /** What the task does that can be seen, in the order it does it: a state
      change in the task list, an error dialog, or one of its own signals. */
  datatype Observed = Progressed(progress: Progress) | Dialog(error: ErrorEvent) | Signalled(signal: TaskSignal)

  /** The wait between stopping the sniffer and writing its results, in
      milliseconds. */
  const StopWaitMs := 1000

  // ---------------------------------------------------------------------
  // Options

  /** `os.path.join(options["acquisition_directory"], options["filename"])`:
      none when a key is missing (`KeyError`) or not a string (`TypeError`). */
  function OutputFile(options: Options): Option<string> {
    if "acquisition_directory" in options && "filename" in options
       && options["acquisition_directory"].Text? && options["filename"].Text?
    then Some(Join(options["acquisition_directory"].s, options["filename"].s))
    else None
  }

  /** The output file exists exactly when both keys hold strings; it ends
      with the file name and lies in the acquisition directory unless the
      file name is itself absolute. */
  lemma OutputFileIsJoined(options: Options)
    ensures OutputFile(options).Some? <==>
              "acquisition_directory" in options && "filename" in options
              && options["acquisition_directory"].Text? && options["filename"].Text?
    ensures OutputFile(options).Some? ==>
              var dir, name, path := options["acquisition_directory"].s, options["filename"].s, OutputFile(options).value;
              EndsWith(path, name)
              && (StartsWith(name, "/") ==> path == name)
              && (!StartsWith(name, "/") ==> StartsWith(path, dir))
  {
    if OutputFile(options).Some? {
      JoinShape(options["acquisition_directory"].s, options["filename"].s);
    }
  }

  /** The task's options setter: the packet-capture configuration with only
      the acquisition directory taken from the caller; none when the caller
      has no acquisition directory (`KeyError`). */
  function TaskOptions(config: Options, caller: Options): (r: Option<Options>)
    ensures r.Some? <==> "acquisition_directory" in caller
    ensures r.Some? ==>
              r.value.Keys == config.Keys + {"acquisition_directory"}
              && r.value["acquisition_directory"] == caller["acquisition_directory"]
              && forall k :: k in config && k != "acquisition_directory" ==> r.value[k] == config[k]
  {
    if "acquisition_directory" in caller then Some(config["acquisition_directory" := caller["acquisition_directory"]])
    else None
  }

  /** The capture file lands in the caller's folder under the configured
      name: the caller's own `filename`, if any, is ignored. */
  lemma CaptureFileNamedByConfig(config: Options, caller: Options)
    requires "acquisition_directory" in caller
    ensures var opts := TaskOptions(config, caller).value;
              OutputFile(opts).Some? <==>
                caller["acquisition_directory"].Text? && "filename" in config && config["filename"].Text?
    ensures var opts := TaskOptions(config, caller).value;
              OutputFile(opts).Some? ==>
                OutputFile(opts).value == Join(caller["acquisition_directory"].s, config["filename"].s)
                && EndsWith(OutputFile(opts).value, config["filename"].s)
  {
    var opts := TaskOptions(config, caller).value;
    OutputFileIsJoined(opts);
    assert "filename" != "acquisition_directory";
  }

  // ---------------------------------------------------------------------
  // A whole session, as a function

  /** The engine's error event for a sniffer that failed to start. */
  function SnifferErrorEvents(failure: Option<string>): seq<EngineEvent> {
    match failure
    case Some(d) => [EngineError(ErrorEvent(PacketCaptureLabel, PacketCaptureError, d))]
    case None => []
  }

  /** What a session leaves behind: the task's observable trace, the
      engine's signals, the pcap files written and whether the worker
      thread still runs. */
  datatype Session = Session(trace: seq<Observed>, events: seq<EngineEvent>,
                             pcaps: map<string, seq<Packet>>, threadRunning: bool)

  /** Options set, `start`, the worker's `start` (whose `started` and
      `error` reach the task in that order), then the user's `stop` with
      `traffic` seen on the interface in between; `failure` is the
      exception the sniffer raised on start, if any. A sniffer that never
      started raises again when it is stopped, so after a failed start the
      engine's `stop` ends at its first line: no wait, no file, no
      `finished`, and the task stays STOPPED/PENDING with its worker alive. */
  function SessionOf(config: Options, caller: Options, failure: Option<string>, traffic: seq<Packet>): Session {
    match TaskOptions(config, caller)
    case None => Session([], [], map[], false)
    case Some(opts) =>
      var pending := Progressed(Progress(Started, Pending, NoDetail));
      match OutputFile(opts)
      case None => Session([pending], [], map[], false)
      case Some(path) =>
        var started := [pending, Progressed(Progress(Started, Success, CaptureStartedDetail)), Signalled(TaskStarted)];
        var stopping := Progressed(Progress(Stopped, Pending, NoDetail));
        match failure
        case None =>
          Session(started + [stopping, Progressed(Progress(Completed, Success, CaptureCompletedDetail)), Signalled(TaskFinished)],
                  [EngineStarted, EngineFinished], map[path := traffic], false)
        case Some(d) =>
          var e := ErrorEvent(PacketCaptureLabel, PacketCaptureError, d);
          Session(started + [Dialog(e), stopping], [EngineStarted, EngineError(e)], map[], true)
  }

  /** The state changes in a trace, in order. */
  function Progressions(trace: seq<Observed>): seq<Progress>
    decreases |trace|
  {
    if trace == [] then []
    else (if trace[0].Progressed? then [trace[0].progress] else []) + Progressions(trace[1..])
  }

  lemma {:induction false} ProgressionsAppend(a: seq<Observed>, b: seq<Observed>)
    ensures Progressions(a + b) == Progressions(a) + Progressions(b)
    decreases |a|
  {
    if a != [] {
      assert (a + b)[1..] == a[1..] + b;
      ProgressionsAppend(a[1..], b);
    } else {
      assert a + b == b;
    }
  }

  /** A session that reaches the sniffer goes STARTED/PENDING,
      STARTED/SUCCESS, STOPPED/PENDING and, only when the sniffer started,
      COMPLETED/SUCCESS, and through nothing else; the worker thread is
      quit exactly when the sniffer started. */
  lemma LifecycleInOrder(config: Options, caller: Options, failure: Option<string>, traffic: seq<Packet>)
    requires TaskOptions(config, caller).Some? && OutputFile(TaskOptions(config, caller).value).Some?
    ensures var s := SessionOf(config, caller, failure, traffic);
              Progressions(s.trace)
              == [Progress(Started, Pending, NoDetail), Progress(Started, Success, CaptureStartedDetail),
                  Progress(Stopped, Pending, NoDetail)]
                 + (if failure.None? then [Progress(Completed, Success, CaptureCompletedDetail)] else [])
              && (s.threadRunning <==> failure.Some?)
  {
    var s := SessionOf(config, caller, failure, traffic);
    var head := [Progressed(Progress(Started, Pending, NoDetail)), Progressed(Progress(Started, Success, CaptureStartedDetail)), Signalled(TaskStarted)];
    var tail := s.trace[3..];
    assert s.trace == head + tail;
    ProgressionsAppend(head, tail);
    assert head[1..][1..][1..] == [];
    if failure.None? {
      assert tail == [Progressed(Progress(Stopped, Pending, NoDetail)),
                      Progressed(Progress(Completed, Success, CaptureCompletedDetail)), Signalled(TaskFinished)];
      assert tail[1..][1..][1..] == [];
      assert Progressions(tail[1..][1..]) == [];
    } else {
      assert tail[1..][1..] == [];
    }
  }

  /** The engine signals `started` before it tries the sniffer, so a sniffer
      that fails to start shows its dialog after the task has already gone
      to STARTED/SUCCESS; a dialog, and the engine's error event, appear
      exactly when the sniffer failed. */
  lemma SnifferErrorFollowsStartedSuccess(config: Options, caller: Options, failure: Option<string>, traffic: seq<Packet>)
    requires TaskOptions(config, caller).Some? && OutputFile(TaskOptions(config, caller).value).Some?
    ensures var s := SessionOf(config, caller, failure, traffic);
              (forall j :: 0 <= j < |s.trace| && s.trace[j].Dialog? ==>
                 failure.Some? && s.trace[j].error == ErrorEvent(PacketCaptureLabel, PacketCaptureError, failure.value)
                 && exists i :: 0 <= i < j && s.trace[i] == Progressed(Progress(Started, Success, CaptureStartedDetail)))
              && (failure.Some? <==> exists j :: 0 <= j < |s.trace| && s.trace[j].Dialog?)
              && (failure.Some? <==> EngineError(ErrorEvent(PacketCaptureLabel, PacketCaptureError, failure.GetOr([]))) in s.events)
  {
    var s := SessionOf(config, caller, failure, traffic);
    if failure.Some? {
      assert s.trace[3].Dialog?;
      assert s.events[1] == EngineError(ErrorEvent(PacketCaptureLabel, PacketCaptureError, failure.value));
    } else {
      assert |s.trace| == 6;
    }
    forall j | 0 <= j < |s.trace| && s.trace[j].Dialog?
      ensures failure.Some? && s.trace[j].error == ErrorEvent(PacketCaptureLabel, PacketCaptureError, failure.value)
      ensures exists i :: 0 <= i < j && s.trace[i] == Progressed(Progress(Started, Success, CaptureStartedDetail))
    {
      assert s.trace[1] == Progressed(Progress(Started, Success, CaptureStartedDetail));
    }
  }

  /** After a sniffer that started, stopping writes exactly one file, at the
      output path, holding exactly the traffic it buffered (written even
      when empty), then `finished` completes the task. */
  lemma StopWritesExactlyTheBuffer(config: Options, caller: Options, failure: Option<string>, traffic: seq<Packet>)
    requires TaskOptions(config, caller).Some? && OutputFile(TaskOptions(config, caller).value).Some?
    ensures var s := SessionOf(config, caller, failure, traffic);
              var path := Join(caller["acquisition_directory"].s, config["filename"].s);
              failure.None? ==>
                s.pcaps.Keys == {path} && s.pcaps[path] == traffic
                && s.events[|s.events| - 1] == EngineFinished
                && s.trace[|s.trace| - 1] == Signalled(TaskFinished)
  {
    CaptureFileNamedByConfig(config, caller);
  }

  /** After a sniffer that failed to start, `stop` raises at its first line:
      the task is left at STOPPED/PENDING, never signals `finished`, its
      worker is never quit, and no capture file is written. */
  lemma FailedStartNeverFinishes(config: Options, caller: Options, failure: Option<string>, traffic: seq<Packet>)
    requires TaskOptions(config, caller).Some? && OutputFile(TaskOptions(config, caller).value).Some?
    ensures var s := SessionOf(config, caller, failure, traffic);
              failure.Some? ==>
                s.trace[|s.trace| - 1] == Progressed(Progress(Stopped, Pending, NoDetail))
                && Signalled(TaskFinished) !in s.trace && EngineFinished !in s.events
                && s.pcaps == map[] && s.threadRunning
  {
    var s := SessionOf(config, caller, failure, traffic);
    if failure.Some? {
      assert forall j :: 0 <= j < |s.trace| ==> s.trace[j] != Signalled(TaskFinished);
    }
  }

  /** Without a usable capture file name the engine's `set_options` raises
      inside `start`: the task stays STARTED/PENDING, the worker never runs
      and nothing is written. Without an acquisition directory the setter
      raises and the task never starts. A file is written exactly when the
      options are usable and the sniffer started. */
  lemma BadOptionsStopEarly(config: Options, caller: Options, failure: Option<string>, traffic: seq<Packet>)
    ensures var s := SessionOf(config, caller, failure, traffic);
              var usable := "acquisition_directory" in caller && caller["acquisition_directory"].Text?
                            && "filename" in config && config["filename"].Text?;
              ("acquisition_directory" !in caller ==> s.trace == [])
              && ("acquisition_directory" in caller && !("filename" in config && config["filename"].Text?) ==>
                    s.trace == [Progressed(Progress(Started, Pending, NoDetail))])
              && (s.pcaps != map[] <==> usable && failure.None?)
              && (s.events == [] <==> !usable)
              && (!usable ==> !s.threadRunning)
  {
    if "acquisition_directory" in caller {
      CaptureFileNamedByConfig(config, caller);
      var opts := TaskOptions(config, caller).value;
      if OutputFile(opts).Some? && failure.None? {
        assert OutputFile(opts).value in SessionOf(config, caller, failure, traffic).pcaps;
      }
    }
  }

  // ---------------------------------------------------------------------
  // The sniffer

  /** `scapy.AsyncSniffer`, as the engine uses it: started or not, and the
      packets it has buffered. */
  class Sniffer {
    var running: bool
    var results: seq<Packet>

    constructor ()
      ensures !running && results == []
    {
      running := false;
      results := [];
    }

    /** Starts sniffing, unless starting raises with `failure`. */
    method Start(failure: Option<string>) returns (error: Option<string>)
      modifies this
      ensures error == failure
      ensures running == (old(running) || failure.None?) && results == old(results)
    {
      error := failure;
      if failure.None? {
        running := true;
      }
    }

    /** Stops sniffing; `traffic` is what the interface carried since the
        start, which a running sniffer has buffered. Stopping a sniffer
        that is not running raises (`ok` false) and changes nothing. */
    method Stop(traffic: seq<Packet>) returns (ok: bool)
      modifies this
      ensures ok == old(running) && !running
      ensures results == old(results) + (if ok then traffic else [])
    {
      if !running {
        return false;
      }
      results := results + traffic;
      running := false;
      ok := true;
    }
  }

  // ---------------------------------------------------------------------
  // The engine

  /** `PacketCapture`: the worker object. `pcaps` are the files `wrpcap` has
      written and `waitedMs` the time spent waiting. */
  class PacketCapture {
    var outputFile: Option<string>
    const sniffer: Sniffer
    var events: seq<EngineEvent>
    var waitedMs: nat
    var pcaps: map<string, seq<Packet>>

    constructor ()
      ensures outputFile == None && fresh(sniffer) && !sniffer.running && sniffer.results == []
      ensures events == [] && waitedMs == 0 && pcaps == map[]
    {
      outputFile := None;
      sniffer := new Sniffer();
      events := [];
      waitedMs := 0;
      pcaps := map[];
    }

    /** `set_options`: the output file, or `ok` false when the join raises
        before it is assigned. */
    method SetOptions(options: Options) returns (ok: bool)
      modifies this
      ensures ok <==> OutputFile(options).Some?
      ensures outputFile == if ok then OutputFile(options) else old(outputFile)
      ensures events == old(events) && waitedMs == old(waitedMs) && pcaps == old(pcaps)
    {
      ok := false;
      if "acquisition_directory" !in options || "filename" !in options {
        return;
      }
      var dir, name := options["acquisition_directory"], options["filename"];
      if !dir.Text? || !name.Text? {
        return;
      }
      outputFile := Some(Join(dir.s, name.s));
      ok := true;
    }

    /** `start`: `started`, then the sniffer; its exception becomes an
        `error` signal. */
    method Start(failure: Option<string>)
      modifies this, sniffer
      ensures events == old(events) + [EngineStarted] + SnifferErrorEvents(failure)
      ensures sniffer.running == (old(sniffer.running) || failure.None?) && sniffer.results == old(sniffer.results)
      ensures outputFile == old(outputFile) && waitedMs == old(waitedMs) && pcaps == old(pcaps)
    {
      events := events + [EngineStarted];
      var error := sniffer.Start(failure);
      if error.Some? {
        events := events + [EngineError(ErrorEvent(PacketCaptureLabel, PacketCaptureError, error.value))];
      }
    }

    /** `stop`: halts the sniffer, waits, writes its results to the output
        file, and emits `finished`. `ok` is false when the sniffer was not
        running (its `stop` raises before the wait) or when there is no
        output file (the write raises). */
    method Stop(traffic: seq<Packet>) returns (ok: bool)
      modifies this, sniffer
      ensures !sniffer.running
      ensures sniffer.results == old(sniffer.results) + (if old(sniffer.running) then traffic else [])
      ensures waitedMs == old(waitedMs) + (if old(sniffer.running) then StopWaitMs else 0)
      ensures outputFile == old(outputFile)
      ensures ok <==> old(sniffer.running) && outputFile.Some?
      ensures ok ==> pcaps == old(pcaps)[outputFile.value := sniffer.results] && events == old(events) + [EngineFinished]
      ensures !ok ==> pcaps == old(pcaps) && events == old(events)
    {
      var stopped := sniffer.Stop(traffic);
      if !stopped {
        return false;
      }
      waitedMs := waitedMs + StopWaitMs;
      if outputFile.None? {
        return false;
      }
      pcaps := pcaps[outputFile.value := sniffer.results];
      events := events + [EngineFinished];
      ok := true;
    }
  }

  // ---------------------------------------------------------------------
  // The task

  /** `TaskPacketCapture`: the task-list entry, an endless task. `config` is
      the stored packet-capture configuration, `options` the setter's
      result, `trace` what the task has done that can be seen. */
  class TaskPacketCapture {
    const taskLabel: Label
    const isInfiniteLoop: bool
    const config: Options
    const engine: PacketCapture
    var options: Options
    var trace: seq<Observed>
    var threadRunning: bool

    constructor (config: Options)
      ensures taskLabel == PacketCaptureLabel && isInfiniteLoop && this.config == config
      ensures fresh(engine) && fresh(engine.sniffer) && engine.outputFile == None
      ensures !engine.sniffer.running && engine.sniffer.results == []
      ensures engine.events == [] && engine.pcaps == map[]
      ensures options == map[] && trace == [] && !threadRunning
    {
      taskLabel := PacketCaptureLabel;
      isInfiniteLoop := true;
      this.config := config;
      engine := new PacketCapture();
      options := map[];
      trace := [];
      threadRunning := false;
    }

    /** The `options` setter; `ok` is false when it raises. */
    method SetOptions(caller: Options) returns (ok: bool)
      modifies this
      ensures ok <==> TaskOptions(config, caller).Some?
      ensures options == if ok then TaskOptions(config, caller).value else old(options)
      ensures trace == old(trace) && threadRunning == old(threadRunning)
    {
      ok := false;
      if "acquisition_directory" !in caller {
        return;
      }
      var folder := caller["acquisition_directory"];
      options := config;
      options := options["acquisition_directory" := folder];
      ok := true;
    }

    /** `start`: STARTED/PENDING, then the engine's options (which may
        raise), then the worker thread. */
    method Start() returns (ok: bool)
      modifies this, engine
      ensures trace == old(trace) + [Progressed(Progress(Started, Pending, NoDetail))]
      ensures ok <==> OutputFile(options).Some?
      ensures engine.outputFile == if ok then OutputFile(options) else old(engine.outputFile)
      ensures engine.events == old(engine.events) && engine.pcaps == old(engine.pcaps)
      ensures threadRunning == (ok || old(threadRunning)) && options == old(options)
    {
      trace := trace + [Progressed(Progress(Started, Pending, NoDetail))];
      ok := engine.SetOptions(options);
      if ok {
        threadRunning := true;
      }
    }

    /** `__started`: STARTED/SUCCESS with its details, and the task's own
        `started`. */
    method OnStarted()
      modifies this
      ensures trace == old(trace) + [Progressed(Progress(Started, Success, CaptureStartedDetail)), Signalled(TaskStarted)]
      ensures options == old(options) && threadRunning == old(threadRunning)
    {
      trace := trace + [Progressed(Progress(Started, Success, CaptureStartedDetail)), Signalled(TaskStarted)];
    }

    /** `__handle_error`: shows the error in a dialog. */
    method HandleError(e: ErrorEvent)
      modifies this
      ensures trace == old(trace) + [Dialog(e)]
      ensures options == old(options) && threadRunning == old(threadRunning)
    {
      trace := trace + [Dialog(e)];
    }

    /** `__finished`: COMPLETED/SUCCESS with its details, `finished`, and the
        worker thread is quit. */
    method OnFinished()
      modifies this
      ensures trace == old(trace) + [Progressed(Progress(Completed, Success, CaptureCompletedDetail)), Signalled(TaskFinished)]
      ensures !threadRunning && options == old(options)
    {
      trace := trace + [Progressed(Progress(Completed, Success, CaptureCompletedDetail)), Signalled(TaskFinished)];
      threadRunning := false;
    }

    /** `stop`: STOPPED/PENDING, then the engine's stop, whose `finished`
        is emitted on this thread and reaches `__finished` at once. */
    method Stop(traffic: seq<Packet>) returns (ok: bool)
      modifies this, engine, engine.sniffer
      ensures ok <==> old(engine.sniffer.running) && engine.outputFile.Some?
      ensures !engine.sniffer.running
      ensures engine.sniffer.results == old(engine.sniffer.results) + (if old(engine.sniffer.running) then traffic else [])
      ensures engine.outputFile == old(engine.outputFile)
      ensures ok ==>
                engine.pcaps == old(engine.pcaps)[engine.outputFile.value := engine.sniffer.results]
                && engine.events == old(engine.events) + [EngineFinished]
                && trace == old(trace) + [Progressed(Progress(Stopped, Pending, NoDetail)),
                                          Progressed(Progress(Completed, Success, CaptureCompletedDetail)),
                                          Signalled(TaskFinished)]
                && !threadRunning
      ensures !ok ==>
                engine.pcaps == old(engine.pcaps) && engine.events == old(engine.events)
                && trace == old(trace) + [Progressed(Progress(Stopped, Pending, NoDetail))]
                && threadRunning == old(threadRunning)
      ensures options == old(options)
    {
      trace := trace + [Progressed(Progress(Stopped, Pending, NoDetail))];
      ok := engine.Stop(traffic);
      if ok {
        OnFinished();
      }
    }
  }

  /** A whole session on a new task: the caller's options, `start`, the
      worker's `start` with its queued signals delivered in order, then the
      user's `stop`. Its effects are those `SessionOf` describes. */
  method Run(task: TaskPacketCapture, caller: Options, failure: Option<string>, traffic: seq<Packet>)
    requires task.trace == [] && !task.threadRunning
    requires task.engine.outputFile == None && task.engine.events == [] && task.engine.pcaps == map[]
    requires !task.engine.sniffer.running && task.engine.sniffer.results == []
    modifies task, task.engine, task.engine.sniffer
    ensures var s := SessionOf(task.config, caller, failure, traffic);
              task.trace == s.trace && task.engine.events == s.events
              && task.engine.pcaps == s.pcaps && task.threadRunning == s.threadRunning
  {
    var ok := task.SetOptions(caller);
    if !ok {
      return;
    }
    ok := task.Start();
    if !ok {
      return;
    }
    task.engine.Start(failure);
    assert task.engine.sniffer.running == failure.None? && task.engine.sniffer.results == [];
    task.OnStarted();
    if failure.Some? {
      task.HandleError(ErrorEvent(PacketCaptureLabel, PacketCaptureError, failure.value));
    }
    ok := task.Stop(traffic);
    assert task.engine.sniffer.results == if failure.None? then traffic else [];
  }
}
