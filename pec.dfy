/** The certified-mail (PEC) task of view/tasks/pec/pec_and_download_eml.py:
    the engine sends the PEC, then polls the mailbox for its receipt a
    bounded number of times; the task wrapper records one row per phase and
    finishes. The mail controller is an oracle: the outcome of the send, and
    the outcome of the k-th retrieval. Qt signals are the engine's event
    trace; the waits between polls are counted, not timed. */
module Pec {
  import opened Common

  /** Names under which the task appears in the task list and the table. */
  datatype TaskName = PecAndDownloadEmlTask | PecTask | EmlTask | ReportFileTask | TimestampTask

  /** What `send_pec` does: returns, or raises with this text. */
  datatype SendResult = Delivered | SendRaised(details: string)

  /** What one `retrieve_eml` call does: returns a falsy value, returns a
      truthy value, or raises with this text. */
  datatype Attempt = Absent | Present | Raised(details: string)

  /** The engine's signals: `started`, `error`, `sentpec`, `downloadedeml`. */
  datatype EngineEvent =
    | EngineStarted
    | ErrorRaised(error: ErrorEvent)
    | SentPec(status: Status)
    | DownloadedEml(status: Status)

  /** One row given to `table.add_task(name, state, status, outcome)`. */
  datatype Row = Row(name: TaskName, state: State, status: Status, outcome: Status)

  /** The wait before each retrieval, in milliseconds. */
  const PollDelayMs := 8000

  // ---------------------------------------------------------------------
  // Options

  /** The keys `set_options` takes from the caller, in the order it takes them. */
  const CopiedKeys := ["case_info", "acquisition_directory", "type"]

  /** `self.options = <configuration>; self.options[k] = options[k]` for each
      key in turn: a key missing from `src` raises `KeyError`, leaving the
      keys copied so far in place; the flag says whether all were copied. */
  function CopyKeys(base: Options, src: Options, keys: seq<string>): (Options, bool)
    decreases |keys|
  {
    if keys == [] then (base, true)
    else if keys[0] !in src then (base, false)
    else CopyKeys(base[keys[0] := src[keys[0]]], src, keys[1..])
  }

  /** What copying keeps and what it takes: the copy succeeds iff every key
      is in `src`; each key up to the first missing one comes from `src`,
      and every other key is the configuration's own. */
  lemma {:induction false} CopyKeysTakesOnlyKeys(base: Options, src: Options, keys: seq<string>)
    ensures var (r, ok) := CopyKeys(base, src, keys);
              (ok <==> forall k :: k in keys ==> k in src)
              && (forall k :: k !in keys ==> (k in r <==> k in base) && (k in base ==> r[k] == base[k]))
              && (forall k :: k in keys && k in src && (ok || k !in Missing(src, keys)) ==> k in r && r[k] == src[k])
    decreases |keys|
  {
    if keys != [] && keys[0] in src {
      CopyKeysTakesOnlyKeys(base[keys[0] := src[keys[0]]], src, keys[1..]);
      var (r, ok) := CopyKeys(base, src, keys);
      forall k | k in keys && k in src && (ok || k !in Missing(src, keys)) ensures k in r && r[k] == src[k] {
        if k != keys[0] {
          assert k in keys[1..];
        }
      }
    }
  }

  /** The keys from the first one missing in `src` onwards: the ones a
      failed copy does not reach. */
  function Missing(src: Options, keys: seq<string>): seq<string> {
    if keys == [] then []
    else if keys[0] !in src then keys
    else Missing(src, keys[1..])
  }

  /** `set_options` on complete caller options: the engine's options are the
      configuration with exactly the three copied keys replaced. */
  lemma SetOptionsOverridesThreeKeys(config: Options, src: Options)
    requires forall k :: k in CopiedKeys ==> k in src
    ensures var (r, ok) := CopyKeys(config, src, CopiedKeys);
              ok
              && r.Keys == config.Keys + {"case_info", "acquisition_directory", "type"}
              && (forall k :: k in CopiedKeys ==> r[k] == src[k])
              && (forall k :: k in config && k !in CopiedKeys ==> r[k] == config[k])
  {
    CopyKeysTakesOnlyKeys(config, src, CopiedKeys);
    var (r, ok) := CopyKeys(config, src, CopiedKeys);
    forall k | k in r ensures k in config || k in CopiedKeys {
    }
    forall k | k in CopiedKeys ensures k in r {
    }
  }

  /** `self.options.get("retries")` when it is a number; anything else makes
      `range(...)` raise. */
  function Retries(options: Options): Option<int> {
    if "retries" in options && options["retries"].Number? then Some(options["retries"].n) else None
  }

  // ---------------------------------------------------------------------
  // The two phases as functions

  /** `send`'s outcome: SUCCESS iff `send_pec` returned. */
  function SendStatus(sent: SendResult): Status {
    if sent.Delivered? then Success else Fail
  }

  /** The signals `send` emits: `started`, the SMTP error if `send_pec`
      raised, then `sentpec` with the outcome. */
  function SendEvents(sent: SendResult): seq<EngineEvent> {
    [EngineStarted]
    + (match sent
       case SendRaised(d) => [ErrorRaised(ErrorEvent(LoginFailed, SmtpFailedMsg, d))]
       case Delivered => [])
    + [SentPec(SendStatus(sent))]
  }

  lemma SendReportsOutcome(sent: SendResult)
    ensures var ev := SendEvents(sent);
              ev[0] == EngineStarted
              && ev[|ev| - 1] == SentPec(SendStatus(sent))
              && (SendStatus(sent) == Success <==> sent.Delivered?)
              && (|ev| == 3 <==> sent.SendRaised?)
              && (sent.SendRaised? ==> ev[1] == ErrorRaised(ErrorEvent(LoginFailed, SmtpFailedMsg, sent.details)))
              && (forall i :: 0 < i < |ev| - 1 ==> ev[i].ErrorRaised? && ev[i].error.message == SmtpFailedMsg)
  {
  }

  /** The result of polling: how many retrievals were made, the status sent
      with `downloadedeml`, and the text of the exception that stopped it. */
  datatype Poll = Poll(attempts: nat, status: Status, error: Option<string>)

  /** The retry loop from attempt `i` on, with `n` attempts allowed. */
  function PollFrom(retrieve: nat -> Attempt, i: nat, n: nat): Poll
    requires i < n
    decreases n - i
  {
    match retrieve(i)
    case Present => Poll(i + 1, Success, None)
    case Raised(d) => Poll(i + 1, Fail, Some(d))
    case Absent => if i + 1 == n then Poll(n, Fail, None) else PollFrom(retrieve, i + 1, n)
  }

  /** Polling stops at the first retrieval that does not come back empty,
      and only there: every earlier one came back empty, success means the
      last one found the receipt, and an error means it raised. */
  lemma {:induction false} PollStopsAtFirstAnswer(retrieve: nat -> Attempt, i: nat, n: nat)
    requires i < n
    ensures var p := PollFrom(retrieve, i, n);
              i < p.attempts <= n
              && (forall k :: i <= k < p.attempts - 1 ==> retrieve(k) == Absent)
              && (p.attempts < n ==> retrieve(p.attempts - 1) != Absent)
              && (p.status == Success <==> retrieve(p.attempts - 1) == Present)
              && (p.status != Success ==> p.status == Fail)
              && (p.error.Some? <==> retrieve(p.attempts - 1).Raised?)
              && (p.error.Some? ==> retrieve(p.attempts - 1) == Raised(p.error.value))
    decreases n - i
  {
    if retrieve(i) == Absent && i + 1 < n {
      PollStopsAtFirstAnswer(retrieve, i + 1, n);
    }
  }

  /** When no retrieval finds the receipt and none raises, exactly `n`
      attempts are made and the outcome is FAIL without an error. */
  lemma AllAbsentUsesEveryRetry(retrieve: nat -> Attempt, n: nat)
    requires n >= 1
    requires forall k :: 0 <= k < n ==> retrieve(k) == Absent
    ensures PollFrom(retrieve, 0, n) == Poll(n, Fail, None)
  {
    PollStopsAtFirstAnswer(retrieve, 0, n);
    var p := PollFrom(retrieve, 0, n);
    assert retrieve(p.attempts - 1) == Absent;
  }

  /** A receipt found at attempt `j`, after `j` empty ones, ends polling
      there with SUCCESS: no further retrieval is made. */
  lemma FirstReceiptEndsPolling(retrieve: nat -> Attempt, n: nat, j: nat)
    requires j < n && retrieve(j) == Present
    requires forall k :: 0 <= k < j ==> retrieve(k) == Absent
    ensures PollFrom(retrieve, 0, n) == Poll(j + 1, Success, None)
  {
    PollStopsAtFirstAnswer(retrieve, 0, n);
    var p := PollFrom(retrieve, 0, n);
  }

  /** The error event of a poll that raised. */
  function ImapError(error: Option<string>): Option<ErrorEvent> {
    match error
    case Some(d) => Some(ErrorEvent(LoginFailed, ImapFailedMsg, d))
    case None => None
  }

  function ErrorEvents(error: Option<ErrorEvent>): seq<EngineEvent> {
    match error
    case Some(e) => [ErrorRaised(e)]
    case None => []
  }

  // ---------------------------------------------------------------------
  // The engine

  /** `PecAndDownloadEml`: the worker object. `hasController` says whether
      `send` has built `pec_controller`; `retrievals` counts the calls to
      `retrieve_eml` and `waitedMs` the time spent waiting before them. */
  class PecAndDownloadEml {
    var options: Options
    var hasController: bool
    var events: seq<EngineEvent>
    var retrievals: nat
    var waitedMs: nat

    constructor ()
      ensures options == map[] && !hasController && events == [] && retrievals == 0 && waitedMs == 0
    {
      options := map[];
      hasController := false;
      events := [];
      retrievals := 0;
      waitedMs := 0;
    }

    /** `set_options`: the stored PEC configuration, with the case, the
        acquisition directory and the type taken from the caller; `ok` is
        false when one of them is missing (a `KeyError`). */
    method SetOptions(config: Options, src: Options) returns (ok: bool)
      modifies this
      ensures (options, ok) == CopyKeys(config, src, CopiedKeys)
      ensures hasController == old(hasController) && events == old(events)
      ensures retrievals == old(retrievals) && waitedMs == old(waitedMs)
    {
      assert CopiedKeys[0] == "case_info" && CopiedKeys[1..][0] == "acquisition_directory";
      assert CopiedKeys[1..][1..] == ["type"] && ["type"][1..] == [];
      options := config;
      ok := false;
      if "case_info" !in src {
        return;
      }
      options := options["case_info" := src["case_info"]];
      if "acquisition_directory" !in src {
        return;
      }
      options := options["acquisition_directory" := src["acquisition_directory"]];
      if "type" !in src {
        return;
      }
      options := options["type" := src["type"]];
      ok := true;
    }

    /** `send`: builds the controller, emits `started`, sends, and emits
        `sentpec` with SUCCESS iff nothing raised (after the SMTP error
        event if something did). */
    method Send(sent: SendResult)
      modifies this
      ensures hasController
      ensures events == old(events) + SendEvents(sent)
      ensures options == old(options) && retrievals == old(retrievals) && waitedMs == old(waitedMs)
    {
      var status := Success;
      hasController := true;
      events := events + [EngineStarted];
      if sent.SendRaised? {
        status := Fail;
        events := events + [ErrorRaised(ErrorEvent(LoginFailed, SmtpFailedMsg, sent.details))];
      }
      events := events + [SentPec(status)];
    }

    /** `download_eml`: up to `retries` retrievals, each after a wait, stopping
        at the first one that finds the receipt or raises. `ok` is false when
        the method raises instead of emitting `downloadedeml`: `retries` is
        not a number, or it is below 1 and the status is never assigned. */
    method DownloadEml(retrieve: nat -> Attempt) returns (ok: bool, error: Option<ErrorEvent>, status: Status)
      requires hasController
      modifies this
      ensures options == old(options) && hasController
      ensures ok <==> Retries(options).Some? && Retries(options).value >= 1
      ensures !ok ==> events == old(events) && retrievals == old(retrievals) && waitedMs == old(waitedMs)
      ensures ok ==>
                var p := PollFrom(retrieve, 0, Retries(options).value);
                status == p.status && error == ImapError(p.error)
                && retrievals == old(retrievals) + p.attempts
                && waitedMs == old(waitedMs) + PollDelayMs * p.attempts
                && events == old(events) + ErrorEvents(error) + [DownloadedEml(status)]
    {
      error, status := None, Fail;
      var retries := Retries(options);
      if retries.None? {
        return false, error, status;
      }
      var n := retries.value;
      ghost var expected := if n >= 1 then PollFrom(retrieve, 0, n) else Poll(0, Fail, None);
      var current: Option<Status> := None;
      var i := 0;
      while i < n
        invariant 0 <= i <= (if n < 0 then 0 else n)
        invariant forall k :: 0 <= k < i ==> retrieve(k) == Absent
        invariant retrievals == old(retrievals) + i && waitedMs == old(waitedMs) + PollDelayMs * i
        invariant events == old(events) && error == None
        invariant current == (if i == 0 then None else Some(Fail))
        invariant i < n ==> expected == PollFrom(retrieve, i, n)
        invariant i == n && n >= 1 ==> expected == Poll(n, Fail, None)
        invariant options == old(options) && hasController
      {
        current := Some(Fail);
        waitedMs := waitedMs + PollDelayMs;
        var answer := retrieve(i);
        retrievals := retrievals + 1;
        if answer == Present {
          current := Some(Success);
          break;
        }
        if answer.Raised? {
          error := Some(ErrorEvent(LoginFailed, ImapFailedMsg, answer.details));
          events := events + [ErrorRaised(error.value)];
          break;
        }
        i := i + 1;
      }
      if current.None? {
        return false, error, status;
      }
      status := current.value;
      events := events + [DownloadedEml(status)];
      ok := true;
    }
  }

  // ---------------------------------------------------------------------
  // The task

  /** How a run of the task ends: finished, or stopped by an exception
      raised out of one of its steps. */
  datatype Outcome = Ran | Aborted

  /** `TaskPecAndDownloadEml`: the task-list entry. `updates` is the history
      of `update_task` calls, `rows` what it gave the table, `signals` what
      it emitted, `dialogs` the error dialogs it showed. */
  class TaskPecAndDownloadEml {
    var name: TaskName
    const options: Options
    const config: Options
    const dependencies: seq<TaskName>
    const pec: PecAndDownloadEml
    var updates: seq<Update>
    var rows: seq<Row>
    var signals: seq<TaskSignal>
    var dialogs: seq<ErrorEvent>
    var threadRunning: bool

    /** `options` are the caller's; `config` the stored PEC configuration. */
    constructor (options: Options, config: Options)
      ensures name == PecAndDownloadEmlTask && dependencies == [ReportFileTask, TimestampTask]
      ensures this.options == options && this.config == config
      ensures fresh(pec) && pec.events == [] && !pec.hasController && pec.retrievals == 0
      ensures updates == [] && rows == [] && signals == [] && dialogs == [] && !threadRunning
    {
      name := PecAndDownloadEmlTask;
      this.options := options;
      this.config := config;
      dependencies := [ReportFileTask, TimestampTask];
      pec := new PecAndDownloadEml();
      updates := [];
      rows := [];
      signals := [];
      dialogs := [];
      threadRunning := false;
    }

    /** `start`: gives the options to the engine (which raises if one is
        missing), then STARTED/PENDING, then starts the worker thread. */
    method Start() returns (ok: bool)
      modifies this, pec
      ensures (pec.options, ok) == CopyKeys(config, options, CopiedKeys)
      ensures pec.events == old(pec.events) && pec.hasController == old(pec.hasController)
      ensures pec.retrievals == old(pec.retrievals)
      ensures updates == old(updates) + (if ok then [Update(Started, Pending)] else [])
      ensures threadRunning == (ok || old(threadRunning))
      ensures name == old(name) && rows == old(rows) && signals == old(signals) && dialogs == old(dialogs)
    {
      ok := pec.SetOptions(config, options);
      if ok {
        updates := updates + [Update(Started, Pending)];
        threadRunning := true;
      }
    }

    /** `__started`: STARTED/COMPLETED, and the task's own `started`. */
    method OnStarted()
      modifies this
      ensures updates == old(updates) + [Update(Started, Done)]
      ensures signals == old(signals) + [TaskStarted]
      ensures name == old(name) && rows == old(rows) && dialogs == old(dialogs) && threadRunning == old(threadRunning)
    {
      updates := updates + [Update(Started, Done)];
      signals := signals + [TaskStarted];
    }

    /** `__handle_error`: shows the error in a dialog. */
    method HandleError(e: ErrorEvent)
      modifies this
      ensures dialogs == old(dialogs) + [e]
      ensures name == old(name) && updates == old(updates) && rows == old(rows)
      ensures signals == old(signals) && threadRunning == old(threadRunning)
    {
      dialogs := dialogs + [e];
    }

    /** `__finished`: back to its own name, FINISHED/COMPLETED, `finished`,
        and the worker thread is stopped. */
    method Finish()
      modifies this
      ensures name == PecAndDownloadEmlTask
      ensures updates == old(updates) + [Update(Finished, Done)]
      ensures signals == old(signals) + [TaskFinished]
      ensures !threadRunning
      ensures rows == old(rows) && dialogs == old(dialogs)
    {
      name := PecAndDownloadEmlTask;
      updates := updates + [Update(Finished, Done)];
      signals := signals + [TaskFinished];
      threadRunning := false;
    }

    /** `__is_eml_downloaded`: the EML row, then finish. */
    method OnEmlDownloaded(status: Status)
      modifies this
      ensures name == PecAndDownloadEmlTask
      ensures rows == old(rows) + [Row(EmlTask, Finished, Done, status)]
      ensures updates == old(updates) + [Update(Finished, Done)]
      ensures signals == old(signals) + [TaskFinished]
      ensures dialogs == old(dialogs) && !threadRunning
    {
      name := EmlTask;
      rows := rows + [Row(name, Finished, Done, status)];
      Finish();
    }

    /** `__is_pec_sent`: the PEC row; then polling, whose signals reach this
        task directly (the error dialog, then the EML row and the finish),
        if the PEC was sent, or the finish if it was not. `ok` is false when
        polling raised. */
    method OnPecSent(status: Status, retrieve: nat -> Attempt) returns (ok: bool)
      requires pec.hasController
      modifies this, pec
      ensures pec.options == old(pec.options)
      ensures status != Success ==>
                ok && rows == old(rows) + [Row(PecTask, Finished, Done, status)]
                && pec.retrievals == old(pec.retrievals) && pec.events == old(pec.events)
                && dialogs == old(dialogs)
      ensures status == Success ==>
                (ok <==> Retries(pec.options).Some? && Retries(pec.options).value >= 1)
      ensures status == Success && ok ==>
                var p := PollFrom(retrieve, 0, Retries(pec.options).value);
                rows == old(rows) + [Row(PecTask, Finished, Done, status), Row(EmlTask, Finished, Done, p.status)]
                && dialogs == old(dialogs) + (match ImapError(p.error) case Some(e) => [e] case None => [])
                && pec.retrievals == old(pec.retrievals) + p.attempts
      ensures ok ==>
                name == PecAndDownloadEmlTask && !threadRunning
                && updates == old(updates) + [Update(Finished, Done)] && signals == old(signals) + [TaskFinished]
      ensures !ok ==>
                name == PecTask && rows == old(rows) + [Row(PecTask, Finished, Done, status)]
                && updates == old(updates) && signals == old(signals) && dialogs == old(dialogs)
                && threadRunning == old(threadRunning) && pec.retrievals == old(pec.retrievals)
    {
      name := PecTask;
      rows := rows + [Row(name, Finished, Done, status)];
      if status == Success {
        var error: Option<ErrorEvent>;
        var downloaded: Status;
        ok, error, downloaded := pec.DownloadEml(retrieve);
        if ok {
          if error.Some? {
            HandleError(error.value);
          }
          OnEmlDownloaded(downloaded);
        }
      } else {
        ok := true;
        Finish();
      }
    }
  }

  // ---------------------------------------------------------------------
  // A whole run

  /** What a run leaves behind, as a function of the caller's options, the
      configuration and the controller's behaviour. */
  datatype Report = Report(outcome: Outcome, rows: seq<Row>, dialogs: seq<ErrorEvent>, retrievals: nat)

  function RunReport(options: Options, config: Options, sent: SendResult, retrieve: nat -> Attempt): Report {
    var (engineOptions, ok) := CopyKeys(config, options, CopiedKeys);
    if !ok then Report(Aborted, [], [], 0)
    else
      var pecRow := Row(PecTask, Finished, Done, SendStatus(sent));
      var sendDialogs := match sent case SendRaised(d) => [ErrorEvent(LoginFailed, SmtpFailedMsg, d)] case Delivered => [];
      if sent.SendRaised? then Report(Ran, [pecRow], sendDialogs, 0)
      else
        var retries := Retries(engineOptions);
        if retries.None? || retries.value < 1 then Report(Aborted, [pecRow], [], 0)
        else
          var p := PollFrom(retrieve, 0, retries.value);
          var pollDialogs := match ImapError(p.error) case Some(e) => [e] case None => [];
          Report(Ran, [pecRow, Row(EmlTask, Finished, Done, p.status)], pollDialogs, p.attempts)
  }

  /** The table's rows over a run: always the PEC row first, with the send's
      outcome; an EML row, with the poll's outcome, only when the PEC was
      sent; and no retrieval at all when it was not. */
  lemma RowsFollowPhases(options: Options, config: Options, sent: SendResult, retrieve: nat -> Attempt)
    requires forall k :: k in CopiedKeys ==> k in options
    ensures var r := RunReport(options, config, sent, retrieve);
              |r.rows| >= 1 && r.rows[0] == Row(PecTask, Finished, Done, SendStatus(sent))
              && (|r.rows| == 2 <==> sent.Delivered? && r.outcome == Ran)
              && (|r.rows| == 2 ==> r.rows[1].name == EmlTask)
              && (sent.SendRaised? ==> r.outcome == Ran && r.retrievals == 0 && |r.rows| == 1)
  {
    CopyKeysTakesOnlyKeys(config, options, CopiedKeys);
  }

  /** A run with every retrieval empty makes exactly `retries` attempts and
      records an EML row with FAIL. */
  lemma UnansweredPollsRecordFail(options: Options, config: Options, retrieve: nat -> Attempt)
    requires forall k :: k in CopiedKeys ==> k in options
    requires "retries" in config && config["retries"].Number? && config["retries"].n >= 1
    requires forall k :: 0 <= k < config["retries"].n ==> retrieve(k) == Absent
    ensures var r := RunReport(options, config, Delivered, retrieve);
              r.outcome == Ran && r.retrievals == config["retries"].n
              && r.rows[1] == Row(EmlTask, Finished, Done, Fail) && r.dialogs == []
  {
    SetOptionsOverridesThreeKeys(config, options);
    AllAbsentUsesEveryRetry(retrieve, config["retries"].n);
  }

  /** The whole task: `start`, the worker's `send`, whose queued signals
      reach `__started`, the error dialog and `__is_pec_sent` in order. */
  method Run(task: TaskPecAndDownloadEml, sent: SendResult, retrieve: nat -> Attempt) returns (outcome: Outcome)
    requires task.name == PecAndDownloadEmlTask && !task.threadRunning
    requires task.rows == [] && task.dialogs == [] && task.pec.retrievals == 0
    modifies task, task.pec
    ensures var r := RunReport(task.options, task.config, sent, retrieve);
              outcome == r.outcome && task.rows == r.rows && task.dialogs == r.dialogs
              && task.pec.retrievals == r.retrievals
    ensures outcome == Ran ==>
              task.name == PecAndDownloadEmlTask && !task.threadRunning
              && task.updates == old(task.updates) + [Update(Started, Pending), Update(Started, Done), Update(Finished, Done)]
              && task.signals == old(task.signals) + [TaskStarted, TaskFinished]
  {
    var ok := task.Start();
    if !ok {
      return Aborted;
    }
    task.pec.Send(sent);
    task.OnStarted();
    if sent.SendRaised? {
      task.HandleError(ErrorEvent(LoginFailed, SmtpFailedMsg, sent.details));
    }
    ok := task.OnPecSent(SendStatus(sent), retrieve);
    outcome := if ok then Ran else Aborted;
  }
}
