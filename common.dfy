/** Shared vocabulary of the acquisition core: optional values, bytes, the
    string and path operations the Python code takes from its standard
    library, task states and statuses, and the error event every engine
    reports through. */
module Common {

  datatype Option<+T> = None | Some(value: T) {
    /** `dict.get(key, default)`-style fallback. */
    function GetOr(default: T): T {
      match this
      case Some(v) => v
      case None => default
    }
  }

  type Byte = bv8
  type Bytes = seq<Byte>

  /** A value of an options dictionary. `Record` stands for structured
      values such as the case metadata, which the core passes through. */
  datatype OptValue = Text(s: string) | Number(n: int) | Record(fields: map<string, string>)
  type Options = map<string, OptValue>

  /** `str.startswith` */
  predicate StartsWith(s: string, prefix: string) {
    |prefix| <= |s| && s[..|prefix|] == prefix
  }

  /** `str.endswith` */
  predicate EndsWith(s: string, suffix: string) {
    |suffix| <= |s| && s[|s| - |suffix|..] == suffix
  }

  /** Number of occurrences of `c` in `s`. */
  function Count(s: string, c: char): (n: nat)
    ensures n <= |s|
    ensures n == 0 <==> c !in s
  {
    if s == [] then 0 else (if s[0] == c then 1 else 0) + Count(s[1..], c)
  }

  /** Position of the first occurrence of `c` in `s`. */
  function IndexOf(s: string, c: char): (i: nat)
    requires c in s
    ensures i < |s| && s[i] == c && c !in s[..i]
  {
    if s[0] == c then 0 else 1 + IndexOf(s[1..], c)
  }

  /** Concatenation of `parts` with `sep` between consecutive parts. */
  function JoinWith(parts: seq<string>, sep: char): string
    decreases |parts|
  {
    if parts == [] then []
    else if |parts| == 1 then parts[0]
    else parts[0] + [sep] + JoinWith(parts[1..], sep)
  }

  /** `s.split(sep)` for a one-character separator: the pieces between
      consecutive separators, always at least one, none containing `sep`,
      and joining them back with `sep` gives `s` again. */
  function Split(s: string, sep: char): (parts: seq<string>)
    ensures |parts| == Count(s, sep) + 1
    ensures forall i :: 0 <= i < |parts| ==> sep !in parts[i]
    ensures JoinWith(parts, sep) == s
    decreases |s|
  {
    if sep !in s then [s]
    else
      var i := IndexOf(s, sep);
      CountSplitsAt(s, sep, i);
      assert s == s[..i] + [sep] + s[i + 1..];
      [s[..i]] + Split(s[i + 1..], sep)
  }

  lemma {:induction false} CountSplitsAt(s: string, c: char, i: nat)
    requires i < |s| && s[i] == c && c !in s[..i]
    ensures Count(s, c) == 1 + Count(s[i + 1..], c)
    decreases i
  {
    if i > 0 {
      assert s[1..][..i - 1] == s[..i][1..];
      CountSplitsAt(s[1..], c, i - 1);
      assert s[1..][i..] == s[i + 1..];
    }
  }

  /** The first piece of `s.split(sep)`: everything before the first `sep`. */
  lemma FirstPieceIsPrefix(s: string, sep: char)
    ensures StartsWith(s, Split(s, sep)[0])
    ensures sep !in Split(s, sep)[0]
    ensures |Split(s, sep)[0]| < |s| ==> s[|Split(s, sep)[0]|] == sep
  {
  }

  /** A string without `sep` splits into itself alone. */
  lemma SplitWithoutSeparator(s: string, sep: char)
    requires sep !in s
    ensures Split(s, sep) == [s]
  {
    assert |Split(s, sep)| == 1;
  }

  /** `os.path.join(a, b)` on POSIX: an absolute `b` replaces `a`; otherwise
      `b` is appended, with a `/` inserted unless `a` is empty or already ends
      with one. */
  function Join(a: string, b: string): string {
    if StartsWith(b, "/") then b
    else if a == [] || EndsWith(a, "/") then a + b
    else a + "/" + b
  }

  /** What a join keeps of its two sides: the result always ends with `b`,
      and starts with `a` unless `b` is absolute, in which case it is `b`. */
  lemma JoinShape(a: string, b: string)
    ensures StartsWith(b, "/") ==> Join(a, b) == b
    ensures !StartsWith(b, "/") ==> StartsWith(Join(a, b), a)
    ensures EndsWith(Join(a, b), b)
  {
  }

  /** Lifecycle phase of a task. */
  datatype State = Started | Stopped | Completed | Finished

  /** Outcome quality of a task or of one of its phases; `Done` is the
      constants module's `status.COMPLETED`, renamed so that it does not
      clash with the state `Completed`. */
  datatype Status = Pending | Success | Fail | Done

  /** One call of the task base class's `update_task(state, status)`. */
  datatype Update = Update(state: State, status: Status)

  /** Signals a task emits towards the task list. */
  datatype TaskSignal = TaskStarted | TaskFinished

  /** The named user-facing constants an error event carries; their text
      belongs to the localised string tables. */
  datatype Label = LoginFailed | SmtpFailedMsg | ImapFailedMsg | PacketCaptureLabel | PacketCaptureError

  /** The `{title, message, details}` dictionary every engine emits on its
      `error` signal; `details` is `str(e)` of the caught exception. */
  datatype ErrorEvent = ErrorEvent(title: Label, message: Label, details: string)
}
