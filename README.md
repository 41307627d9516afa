# FIT acquisition core, modelled in Dafny

FIT (Freezing Internet Tool) acquires web content forensically. This
project models four parts of it and proves what each promises.

- **The intercepting proxy** (`view/proxyserver.py`).
  - For every intercepted response, the reader addon saves the HTML page
    under the host's name.
  - It saves any resource with a type/subtype pair in its `content-type`
    under the URL's MD5 digest plus an extension taken from the header by
    the pattern `\b(?!text\/)(\w+)\/(\w+)`.
  - It then hands the flow to the WARC writer.
  - The writer addon appends every flow to `flow_dump.txt`.
  - The server initialises the WARC once, when it is built.
- **The PEC task** (`view/tasks/pec/pec_and_download_eml.py`).
  - PEC is Italian certified e-mail.
  - The engine sends the PEC, then polls the mailbox for the receipt.
    Each poll waits 8 s, there are at most `retries` polls, and polling
    stops at the first receipt or exception.
  - The task records one table row per phase and finishes.
- **The packet-capture task** (`view/tasks/infinite_loop/packetcapture.py`).
  - It is an endless task with a start/started/stop/finished lifecycle.
  - Its engine starts an asynchronous sniffer.
  - On stop, the engine waits 1 s and writes exactly the buffered packets
    to `join(acquisition_directory, filename)`.
- **Helpers of `common/utility.py`.**
  - The platform code.
  - The netloc handling of the DNS lookup and of the certificate fetch.
  - The pruned module-discovery walk and the module names it imports.
  - The screenshot file name.

## How the model is organised

One module per source file:

| module | file | models |
|---|---|---|
| `Common` | `common.dfy` | values the others share: `Option`, bytes, option dictionaries, `str.startswith`/`endswith`/`split`, POSIX `os.path.join`, task states and statuses, error events |
| `Utility` | `utility.dfy` | `common/utility.py` |
| `Proxy` | `proxy.dfy` | `view/proxyserver.py` |
| `Pec` | `pec.dfy` | `view/tasks/pec/pec_and_download_eml.py` |
| `Capture` | `capture.dfy` | `view/tasks/infinite_loop/packetcapture.py` |

How the source's constructs are modelled:

- **Objects whose methods update fields** become classes with those
  fields and `modifies` clauses. This covers the engines, the tasks, the
  addons and the server.
- **Each class method is specified by pure functions.**
  - `Outputs` and `ResponseEffects` specify the proxy addon.
  - `CopyKeys` and `PollFrom` specify the PEC engine.
  - `RunReport` specifies a whole PEC run.
  - `OutputFile`, `TaskOptions` and `SessionOf` specify the
    packet-capture task.
  - The properties are lemmas about those functions.
- **The loops of the source are kept as loops.**
  - The `download_eml` retry loop, with `break`.
  - The file loop of `import_modules`.
- **Outside systems become values or classes:**
  - The mail controller is an oracle: the outcome of the send, and the
    outcome of the k-th retrieval.
  - MD5 is a function parameter.
  - The proxy's page and resource files, its directories and its WARC
    calls are a `Disk` that records every call. The flow dump that
    `FlowWriterAddon` opens is its `records` field, and the packet-capture
    file is `PacketCapture.pcaps`.
  - The sniffer is a small class. Its start failure and the traffic it
    sees are parameters.
  - The clock reading is a parameter.
- **Qt signals** become event traces.
- **Waits** are counted in milliseconds.

An HTML page is expected to be saved only under its host's name. In the
code, the extension pattern runs on the whole lower-cased header, so a
`text/html` header whose parameters hold a `word/word` pair is also saved
under a hashed name. The model follows the code.

- `HtmlWithPairIsAlsoHashed` proves the general case.
- `SlashParameterExtension` exhibits `text/html; q=a/b`, which gets the
  extension `.b`.

A failed task is expected to still reach FINISHED. In the code, a packet
capture whose sniffer failed to start never does: `stop` calls the
sniffer's `stop`, which raises because the sniffer is not running, before
the wait, the write and `finished`. The task is left at STOPPED/PENDING with
its worker alive. `FailedStartNeverFinishes` states this.

## Model

| member | source | states |
|---|---|---|
| Utility.GetPlatform | common/utility.py:38-50 | the code is always one of `lin`, `osx`, `win`, `other`; each holds exactly for its listed platform names (`linux`, `linux1`, `linux2`; `darwin`; `win32`), and `other` exactly for the unlisted ones |
| Utility.NslookupTarget | common/utility.py:124-135 | an empty netloc gives exactly the fixed message, and a non-empty one is always queried; the queried host is a `:`-free prefix of the netloc followed by `:` or the end, and the whole netloc when it has no `:` |
| Utility.PeerCertTarget | common/utility.py:174-187 | an empty netloc gives no certificate; two or more `:` make the two-way unpacking fail; no `:` keeps the caller's port; exactly one `:` splits the netloc into a host and a textual port that rebuild it |
| Utility.DefaultPeerCertTarget | common/utility.py:174-182 | without a port argument a netloc with no `:` is connected on port 443, and 443 is the only numeric port used |
| Utility.ImportModules | common/utility.py:210-217 | the collected paths equal the pruned walk `Walk` of the directory tree |
| Utility.AppendModuleFiles | common/utility.py:215-217 | the inner file loop appends exactly the `.py`, non-`__.py` files of one directory, joined to the walk root, in listing order |
| Utility.WalkIsFilteredListing | common/utility.py:213-217 | the walk's result is the `.py` filter applied to the files the pruned walk visits, in visiting order |
| Utility.CollectMembers | common/utility.py:215-217 | a path is collected iff some visited file is a module file and the path is its directory joined with it |
| Utility.ListingAvoidsExcluded | common/utility.py:212-214 | no visited file lies below a directory named `test` |
| Utility.ModuleNameOfCollected | common/utility.py:219-222 | a collected file `<dir>/<name>.py` is imported as `<start_module_name>.<name>` |
| Utility.Stem | common/utility.py:221 | `rsplit(".", 1)[0]` is the prefix before the last `.`, or the whole name without one |
| Utility.Basename | common/utility.py:221 | the last path component: it is `/`-free, ends the path, and is preceded by a `/` unless it is the whole (then `/`-free) path |
| Utility.TimestampRoundTrip | common/utility.py:232 | the `%Y-%m-%d_%H-%M-%S.%f` timestamp has 26 characters and parses back to the clock reading |
| Utility.ScreenshotFilename | common/utility.py:229-233 | the name is `basename_<timestamp><extension>`; the result is that name alone when the base name is absolute, `path` + name when `path` is empty or ends in `/`, and `path` + `/` + name otherwise |
| Utility.DefaultScreenshotFilename | common/utility.py:229-233 | without an extension argument the name ends in `basename_<timestamp>.png` and lies under `path` unless the base name is absolute |
| Utility.ScreenshotFilenameInjective | common/utility.py:229-233 | screenshots with the same path, base name and extension taken at different times get different names |
| Common.Split | common/utility.py:131 | `str.split` gives one more piece than separators, no piece holds the separator, and joining the pieces rebuilds the string |
| Common.JoinShape | view/tasks/infinite_loop/packetcapture.py:40-42 | `os.path.join(a, b)` ends with `b`; it is `b` when `b` is absolute, and otherwise starts with `a` |
| Proxy.WordEnd | view/proxyserver.py:114 | a greedy `(\w+)` from `i` ends at the end of the maximal run of word characters |
| Proxy.Lower | view/proxyserver.py:113 | `lower()` keeps the length, leaves no upper-case letter, keeps every other character, and maps each upper-case letter to its lower-case letter |
| Proxy.SearchFromIsFirstPair | view/proxyserver.py:114 | the search from `p` fails iff no accepted pair starts at or after `p`; otherwise it returns the second word of the first one |
| Proxy.LeftmostPairIsFound | view/proxyserver.py:114 | the search returns the second word of the leftmost accepted pair |
| Proxy.LookaheadRejectsText | view/proxyserver.py:114 | the look-ahead `(?!text\/)` rejects exactly the pairs whose first word is `text` |
| Proxy.ExtensionIsFirstPair | view/proxyserver.py:113-118 | no extension iff the lower-cased header holds no accepted pair; otherwise `.` plus the second word of the leftmost one |
| Proxy.TextOnlyHeadersHaveNoExtension | view/proxyserver.py:113-120 | headers whose every pair starts with `text` get no extension |
| Proxy.ArchivedOnceAndLast | view/proxyserver.py:102-137 | every response is archived exactly once, after every file it writes |
| Proxy.HtmlNamedByHost | view/proxyserver.py:106-110 | the page is written iff the raw header starts with `text/html`, and it is named `<pretty_host>.html` |
| Proxy.ResourceNamedByDigest | view/proxyserver.py:113-133 | a resource is written iff the lower-cased header has an accepted pair; its name is `md5(url)` plus `.` plus the leftmost pair's second word, in both the image and the other branch |
| Proxy.NamingIsDeterministic | view/proxyserver.py:120-133 | the same URL and the same header give the same resource names |
| Proxy.MissingHeaderIsOnlyArchived | view/proxyserver.py:106-137 | a response without `content-type` writes nothing and is still archived |
| Proxy.HtmlPageSavedByHost | view/proxyserver.py:106-118 | `text/html; charset=utf-8` is saved only as `<host>.html`, then archived |
| Proxy.ImageSavedByDigest | view/proxyserver.py:113-127 | `image/png` is saved by the image branch as `md5(url).png`, then archived |
| Proxy.HtmlWithPairIsAlsoHashed | view/proxyserver.py:106-133 | a `text/html` header with an accepted pair is saved under the host name and, by the non-image branch, under the hashed name |
| Proxy.SlashParameterExtension | view/proxyserver.py:113-118 | `text/html; q=a/b` gets the extension `.b` |
| Proxy.UpperCaseHtmlOnlyArchived | view/proxyserver.py:106-118 | the page test is case-sensitive: `Text/HTML` is only archived |
| Proxy.ResponseArchivesItself | view/proxyserver.py:135-137 | one response hands itself to the WARC writer exactly once and never re-initialises the WARC or makes directories |
| Proxy.SessionArchivesEveryFlowInOrder | view/proxyserver.py:102-137 | over a session the WARC writer receives every response once, in arrival order, and never a second `warcinfo` |
| Proxy.FlowReaderAddon.constructor | view/proxyserver.py:95-100 | `acquisition_page` is created only if it is missing |
| Proxy.FlowReaderAddon.Response | view/proxyserver.py:102-137 | the calls made and the files written are those `ResponseEffects` prescribes |
| Proxy.FlowWriterAddon.constructor | view/proxyserver.py:86-87 | the dump file is `<acquisition_directory>/flow_dump.txt` and starts empty |
| Proxy.FlowWriterAddon.Response | view/proxyserver.py:89-90 | each response flow is appended to the dump |
| Proxy.ProxyServer.constructor | view/proxyserver.py:49-56 | `warcinfo` is called once, on `<acquisition_directory>/acquisition`, before any flow |
| Proxy.ProxyServer.Start | view/proxyserver.py:58-77 | builds the reader and the writer addon over the acquisition directory |
| Pec.CopyKeysTakesOnlyKeys | view/tasks/pec/pec_and_download_eml.py:32-36 | copying succeeds iff every key is present; copied keys come from the caller, every other key stays the configuration's |
| Pec.PecAndDownloadEml.constructor | view/tasks/pec/pec_and_download_eml.py:29-30 | a new engine has no options, no controller, has emitted nothing, made no retrieval and waited nothing |
| Pec.SetOptionsOverridesThreeKeys | view/tasks/pec/pec_and_download_eml.py:32-36 | with complete caller options, the engine's options are the configuration with exactly `case_info`, `acquisition_directory` and `type` replaced |
| Pec.PecAndDownloadEml.SetOptions | view/tasks/pec/pec_and_download_eml.py:32-36 | the options and the `KeyError` outcome are those of `CopyKeys` |
| Pec.SendReportsOutcome | view/tasks/pec/pec_and_download_eml.py:38-66 | `started` comes first and `sentpec` last; the status is SUCCESS iff sending returned; an SMTP error event appears exactly when it raised |
| Pec.PecAndDownloadEml.Send | view/tasks/pec/pec_and_download_eml.py:38-66 | appends exactly `SendEvents` and builds the controller |
| Pec.PollStopsAtFirstAnswer | view/tasks/pec/pec_and_download_eml.py:68-91 | polling makes between 1 and `retries` attempts, all but the last empty; it stops early only on an answer; SUCCESS iff the last found the receipt; an error iff the last raised |
| Pec.AllAbsentUsesEveryRetry | view/tasks/pec/pec_and_download_eml.py:69-91 | with no receipt and no exception, all `retries` attempts are made and the status is FAIL |
| Pec.FirstReceiptEndsPolling | view/tasks/pec/pec_and_download_eml.py:77-80 | a receipt at attempt `j` ends polling there with SUCCESS |
| Pec.PecAndDownloadEml.DownloadEml | view/tasks/pec/pec_and_download_eml.py:68-91 | the loop makes exactly the retrievals and waits of `PollFrom` and emits its status and error; it raises when `retries` is not a number or is below 1 |
| Pec.TaskPecAndDownloadEml.constructor | view/tasks/pec/pec_and_download_eml.py:95-109 | the task is named PEC_AND_DOWNLOAD_EML and depends on REPORTFILE and TIMESTAMP |
| Pec.TaskPecAndDownloadEml.Start | view/tasks/pec/pec_and_download_eml.py:111-115 | options go to the engine first; STARTED/PENDING and the thread start happen only if that did not raise |
| Pec.TaskPecAndDownloadEml.OnStarted | view/tasks/pec/pec_and_download_eml.py:126-128 | STARTED/COMPLETED, then the task's `started` |
| Pec.TaskPecAndDownloadEml.HandleError | view/tasks/pec/pec_and_download_eml.py:117-124 | the error is shown in a dialog |
| Pec.TaskPecAndDownloadEml.OnPecSent | view/tasks/pec/pec_and_download_eml.py:130-145 | the PEC row is added with the send status; polling follows only after SUCCESS, otherwise the task finishes |
| Pec.TaskPecAndDownloadEml.OnEmlDownloaded | view/tasks/pec/pec_and_download_eml.py:147-152 | the EML row is added with the poll status, then the task finishes |
| Pec.TaskPecAndDownloadEml.Finish | view/tasks/pec/pec_and_download_eml.py:154-164 | the name is back to PEC_AND_DOWNLOAD_EML, FINISHED/COMPLETED, `finished`, and the thread stops |
| Pec.RowsFollowPhases | view/tasks/pec/pec_and_download_eml.py:130-152 | the PEC row always comes first with the send outcome; an EML row appears only after a sent PEC; a failed send makes no retrieval |
| Pec.UnansweredPollsRecordFail | view/tasks/pec/pec_and_download_eml.py:68-91 | with every retrieval empty, a run makes `retries` attempts and records the EML row as FAIL |
| Pec.Run | view/tasks/pec/pec_and_download_eml.py:111-164 | a whole run leaves the rows, dialogs and retrievals of `RunReport`; a completed run goes STARTED/PENDING, STARTED/COMPLETED, FINISHED/COMPLETED |
| Capture.OutputFileIsJoined | view/tasks/infinite_loop/packetcapture.py:39-42 | the output file exists iff both keys hold strings; it ends with the file name and lies in the acquisition directory unless the name is absolute |
| Capture.TaskOptions | view/tasks/infinite_loop/packetcapture.py:87-92 | the setter raises iff the caller lacks `acquisition_directory`; otherwise only that key comes from the caller and every other key from the configuration |
| Capture.CaptureFileNamedByConfig | view/tasks/infinite_loop/packetcapture.py:87-92 | the capture file is the caller's folder joined with the configured file name; the caller's own `filename` is ignored |
| Capture.LifecycleInOrder | view/tasks/infinite_loop/packetcapture.py:103-139 | a session goes STARTED/PENDING, STARTED/SUCCESS, STOPPED/PENDING, and COMPLETED/SUCCESS only when the sniffer started, through nothing else; the worker thread is quit exactly when the sniffer started |
| Capture.SnifferErrorFollowsStartedSuccess | view/tasks/infinite_loop/packetcapture.py:44-55 | a dialog appears iff the sniffer failed to start, always after STARTED/SUCCESS, with the packet-capture title, message and the exception text; the engine reports the same error |
| Capture.StopWritesExactlyTheBuffer | view/tasks/infinite_loop/packetcapture.py:57-63 | after a sniffer that started, stopping writes one file at the output path holding exactly the buffered packets (possibly none), then `finished` completes the task |
| Capture.FailedStartNeverFinishes | view/tasks/infinite_loop/packetcapture.py:44-63 | after a sniffer that failed to start, `stop` raises at the sniffer: the task ends at STOPPED/PENDING, no `finished`, no file, the worker still running |
| Capture.BadOptionsStopEarly | view/tasks/infinite_loop/packetcapture.py:87-108 | a missing folder stops the task before it starts; a missing file name leaves it at STARTED/PENDING with no worker and no engine event; a file is written exactly when the options are usable and the sniffer started |
| Capture.Sniffer.Stop | view/tasks/infinite_loop/packetcapture.py:58 | a running sniffer stops and keeps the traffic it saw; stopping one that is not running raises and changes nothing |
| Capture.PacketCapture.SetOptions | view/tasks/infinite_loop/packetcapture.py:39-42 | the output file is `OutputFile(options)`, unchanged when the join raises |
| Capture.PacketCapture.constructor | view/tasks/infinite_loop/packetcapture.py:33-37 | no output file yet, and a new sniffer that is not running and has buffered nothing |
| Capture.PacketCapture.Start | view/tasks/infinite_loop/packetcapture.py:44-55 | `started` is emitted before the sniffer starts; a start failure adds the error event |
| Capture.PacketCapture.Stop | view/tasks/infinite_loop/packetcapture.py:57-63 | stops the sniffer; only if that did not raise, waits 1000 ms, writes exactly its results to the output file and emits `finished` |
| Capture.TaskPacketCapture.constructor | view/tasks/infinite_loop/packetcapture.py:67-81 | the label is PACKET_CAPTURE and the task is an infinite-loop task |
| Capture.TaskPacketCapture.SetOptions | view/tasks/infinite_loop/packetcapture.py:87-92 | the stored options are those of `TaskOptions` |
| Capture.TaskPacketCapture.Start | view/tasks/infinite_loop/packetcapture.py:103-108 | STARTED/PENDING first, then the engine's options, then the thread |
| Capture.TaskPacketCapture.OnStarted | view/tasks/infinite_loop/packetcapture.py:110-118 | STARTED/SUCCESS with its details, then `started` |
| Capture.TaskPacketCapture.HandleError | view/tasks/infinite_loop/packetcapture.py:94-101 | the error is shown in a dialog, recorded in the task's trace |
| Capture.TaskPacketCapture.Stop | view/tasks/infinite_loop/packetcapture.py:120-123 | STOPPED/PENDING before the engine stops; the task completes only when the engine's stop wrote the file and emitted `finished` |
| Capture.TaskPacketCapture.OnFinished | view/tasks/infinite_loop/packetcapture.py:125-139 | COMPLETED/SUCCESS with its details, `finished`, and the thread is quit |
| Capture.Run | view/tasks/infinite_loop/packetcapture.py:83-139 | a whole session leaves the trace, engine events, files and thread state of `SessionOf`, including the stuck STOPPED/PENDING end after a failed sniffer start |

## Left out

- **Unicode.** `\w` and `str.lower()` are modelled on ASCII. Unicode
  word characters and case mappings are not modelled.
- **URL parsing.** `urlparse` is not modelled. The helpers receive the
  netloc.
- **The lookup and certificate functions.** The DNS query, the TLS
  connection and the certificate conversion are network calls. The model
  stops at the host (and port) they would use.
- **Module import.** `import_modules` loads modules with
  `spec_from_file_location` and `exec_module`. That is foreign code; the
  model stops at the names it imports.
- **Path handling.**
  - `os.path.join` is modelled with POSIX rules. The Windows rules are not.
  - `pathlib.Path` normalisation of the WARC path is not modelled.
- Utility.Timestamp: year padding. The year is printed with 4 digits.
  Years below 1000, which some platforms print unpadded, are not
  modelled.
- **Other helpers.** The remaining functions of `common/utility.py`
  (`calculate_hash`, `traceroute`, `whois`, `check_internet_connection`,
  ...) are not part of this model: they are I/O.
- **The proxy's delivery loop.** mitmproxy's `DumpMaster` runs it and
  calls the addons. `ProxyServer.Start` only builds the addons;
  `Proxy.SessionEffects` composes successive responses instead.
- **The WARC writer.** Its internals (`WarcCreator`) are not modelled.
  Only its calls are recorded.
- **The flow dump file.** Its format (mitmproxy's `FlowWriter`) is not
  modelled. Only the flows it receives are, as `FlowWriterAddon.records`.
  Creating or truncating `flow_dump.txt` is not a `Disk` file, so
  `ProxyServer.Start` leaves `disk.files` as it was.
- Capture.Sniffer: only whether the sniffer runs and what it buffers is
  modelled. A failure to start is a parameter, and stopping a sniffer that
  is not running raises, as scapy's `AsyncSniffer.stop` does. scapy's
  capture thread and its `results` before the first stop are not modelled.
- Proxy.Disk.WriteFile: a file write never fails. A raising `open` or
  `write` (a `pretty_host` holding `:` on Windows, a full disk) would leave
  `response` before `flow_to_warc`, so `ArchivedOnceAndLast`,
  `ResponseArchivesItself` and `SessionArchivesEveryFlowInOrder` hold for
  responses whose writes succeed.
- Capture.PacketCapture.Stop: `wrpcap` never fails on an existing output
  path. A raising write would skip `finished` as well.
- **Task base class and UI.** Status-bar messages, logger calls,
  progress-bar updates and the text of the localised labels are not
  modelled.
- **Qt threading and time.**
  - Queued signal delivery is modelled only in the order the code
    produces it.
  - A stop that arrives before the queued `started` is not modelled.
  - Real time: the waits are counted, not timed.
- Pec.PecAndDownloadEml.DownloadEml: non-integer `retries`. A non-integer `retries`
  (a float, say) is not modelled: option values are text, integers or
  records.
- Capture.OutputFile: non-string values. Every non-string value makes
  the join raise. Bytes and path-like values are not modelled.
