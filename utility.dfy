/** The pure helpers of common/utility.py: the platform code, the netloc
    handling of the DNS lookup and of the certificate fetch, the module
    discovery walk, and the screenshot file name. The network and the file
    system stay outside: the walk receives the directory tree it would
    read, and the screenshot name receives the clock reading. */
module Utility {
  import opened Common

  // ---------------------------------------------------------------------
  // get_platform

  /** The table of known `sys.platform` values and their short codes. */
  const Platforms: map<string, string> :=
    map["linux" := "lin", "linux1" := "lin", "linux2" := "lin", "darwin" := "osx", "win32" := "win"]

  /** `get_platform()` for a given value of `sys.platform`: total, and one
      of four codes, each decided by an explicit set of platform names. */
  function GetPlatform(platform: string): (code: string)
    ensures code in {"lin", "osx", "win", "other"}
    ensures code == "lin" <==> platform in {"linux", "linux1", "linux2"}
    ensures code == "osx" <==> platform == "darwin"
    ensures code == "win" <==> platform == "win32"
    ensures code == "other" <==> platform !in {"linux", "linux1", "linux2", "darwin", "win32"}
  {
    if platform !in Platforms then "other" else Platforms[platform]
  }

  // ---------------------------------------------------------------------
  // nslookup: netloc to queried host

  const NoNetlocMessage := "Don't find Network location part in the URL"

  /** What `nslookup` does with the network-location part of the URL:
      return the fixed message, or query one host. */
  datatype Lookup = Message(text: string) | Query(host: string)

  /** An empty netloc yields the fixed message and no query; otherwise the
      queried host is the netloc up to (not including) its first `:`. */
  function NslookupTarget(netloc: string): (r: Lookup)
    ensures netloc == [] <==> r == Message(NoNetlocMessage)
    ensures netloc != [] <==> r.Query?
    ensures r.Query? ==> StartsWith(netloc, r.host) && ':' !in r.host
    ensures r.Query? && |r.host| < |netloc| ==> netloc[|r.host|] == ':'
    ensures r.Query? && ':' !in netloc ==> r.host == netloc
  {
    if netloc == [] then Message(NoNetlocMessage)
    else
      FirstPieceIsPrefix(netloc, ':');
      Query(Split(netloc, ':')[0])
  }

  // ---------------------------------------------------------------------
  // get_peer_PEM_cert: netloc to connection target

  /** Default port of `get_peer_PEM_cert`. */
  const DefaultCertPort := 443

  /** The port the connection is opened on: the caller's integer, or the
      text after the `:` of the netloc (which Python keeps as a string). */
  datatype Port = PortNumber(n: int) | PortText(s: string)

  /** `None` for an empty netloc, the `ValueError` of a two-way unpacking
      that receives more than two pieces, or the host and port to connect. */
  datatype CertTarget = NoCertificate | UnpackError | Connect(host: string, port: Port)

  /** Where `get_peer_PEM_cert(url, port)` connects: no netloc, no
      certificate; no `:`, the whole netloc on the given port; exactly one
      `:`, the two sides of it; two or more, the unpacking fails. */
  function PeerCertTarget(netloc: string, port: int): (r: CertTarget)
    ensures netloc == [] <==> r == NoCertificate
    ensures r == UnpackError <==> Count(netloc, ':') >= 2
    ensures netloc != [] && ':' !in netloc ==> r == Connect(netloc, PortNumber(port))
    ensures r.Connect? && ':' in netloc ==>
              r.port.PortText? && netloc == r.host + ":" + r.port.s
              && ':' !in r.host && ':' !in r.port.s
  {
    if netloc == [] then NoCertificate
    else if ':' in netloc then
      var parts := Split(netloc, ':');
      if |parts| == 2 then
        assert JoinWith(parts[1..], ':') == parts[1];
        Connect(parts[0], PortText(parts[1]))
      else UnpackError
    else Connect(netloc, PortNumber(port))
  }

  /** `get_peer_PEM_cert(url)`, with the default port: a netloc without
      `:` is connected on port 443, and any numeric port is 443. */
  function DefaultPeerCertTarget(netloc: string): (r: CertTarget)
    ensures netloc != [] && ':' !in netloc ==> r == Connect(netloc, PortNumber(443))
    ensures r.Connect? && r.port.PortNumber? ==> r.port.n == 443
  {
    PeerCertTarget(netloc, DefaultCertPort)
  }

  // ---------------------------------------------------------------------
  // import_modules: the file filter and the pruned walk

  /** A directory as `os.walk` would list it: its name, its files and its
      sub-directories, in listing order. */
  datatype Dir = Dir(name: string, files: seq<string>, subdirs: seq<Dir>)

  /** Directory names removed from `dirs` before the walk descends. */
  const ExcludedDirs: set<string> := {"test"}

  /** A discovered module file: a `.py` file that is not a dunder file such
      as `__init__.py`. */
  predicate IsModuleFile(file: string) {
    EndsWith(file, ".py") && !EndsWith(file, "__.py")
  }

  /** The paths appended for the files of one walked directory `root`:
      `os.path.join(start_path, root, file)` for each module file, in order. */
  function ModuleFilesIn(start: string, root: string, files: seq<string>): seq<string>
  {
    if files == [] then []
    else ModulePath(start, root, files[0]) + ModuleFilesIn(start, root, files[1..])
  }

  /** What one file of directory `root` contributes to `py_files`. */
  function ModulePath(start: string, root: string, file: string): seq<string> {
    if IsModuleFile(file) then [Join(Join(start, root), file)] else []
  }

  /** The list `py_files` after a top-down walk of `d`, whose path is `root`:
      the directory's own files first, then each non-excluded
      sub-directory's walk, in listing order. */
  function Walk(start: string, root: string, d: Dir): seq<string>
    decreases d
  {
    ModuleFilesIn(start, root, d.files) + WalkSubdirs(start, root, d.subdirs)
  }

  function WalkSubdirs(start: string, root: string, ds: seq<Dir>): seq<string>
    decreases ds
  {
    if ds == [] then []
    else
      (if ds[0].name in ExcludedDirs then [] else Walk(start, Join(root, ds[0].name), ds[0]))
      + WalkSubdirs(start, root, ds[1..])
  }

  /** One file seen by the walk: the path of its directory, the chain of
      directory names below the walk's root that lead to it, and its name. */
  datatype Entry = Entry(dir: string, chain: seq<string>, file: string)

  /** Every file the pruned walk visits, in visiting order, independently of
      the `.py` filter. */
  function Listing(root: string, chain: seq<string>, d: Dir): seq<Entry>
    decreases d
  {
    FileEntries(root, chain, d.files) + ListSubdirs(root, chain, d.subdirs)
  }

  function FileEntries(root: string, chain: seq<string>, files: seq<string>): (r: seq<Entry>)
    ensures |r| == |files|
    ensures forall i :: 0 <= i < |r| ==> r[i] == Entry(root, chain, files[i])
  {
    if files == [] then [] else [Entry(root, chain, files[0])] + FileEntries(root, chain, files[1..])
  }

  function ListSubdirs(root: string, chain: seq<string>, ds: seq<Dir>): seq<Entry>
    decreases ds
  {
    if ds == [] then []
    else
      (if ds[0].name in ExcludedDirs then []
       else Listing(Join(root, ds[0].name), chain + [ds[0].name], ds[0]))
      + ListSubdirs(root, chain, ds[1..])
  }

  /** The filter of `import_modules` applied to a list of visited files. */
  function Collect(start: string, entries: seq<Entry>): seq<string>
  {
    if entries == [] then []
    else ModulePath(start, entries[0].dir, entries[0].file) + Collect(start, entries[1..])
  }

  lemma {:induction false} CollectAppend(start: string, a: seq<Entry>, b: seq<Entry>)
    ensures Collect(start, a + b) == Collect(start, a) + Collect(start, b)
  {
    if a == [] {
      assert a + b == b;
    } else {
      assert (a + b)[0] == a[0];
      assert (a + b)[1..] == a[1..] + b;
      CollectAppend(start, a[1..], b);
    }
  }

  lemma {:induction false} CollectFileEntries(start: string, root: string, chain: seq<string>, files: seq<string>)
    ensures Collect(start, FileEntries(root, chain, files)) == ModuleFilesIn(start, root, files)
  {
    if files != [] {
      CollectFileEntries(start, root, chain, files[1..]);
    }
  }

  /** The walk's result is exactly the `.py` filter applied to the files the
      pruned walk visits, in the same order. */
  lemma {:induction false} WalkIsFilteredListing(start: string, root: string, chain: seq<string>, d: Dir)
    ensures Walk(start, root, d) == Collect(start, Listing(root, chain, d))
    decreases d, 1
  {
    CollectAppend(start, FileEntries(root, chain, d.files), ListSubdirs(root, chain, d.subdirs));
    CollectFileEntries(start, root, chain, d.files);
    WalkSubdirsIsFilteredListing(start, root, chain, d.subdirs);
  }

  lemma {:induction false} WalkSubdirsIsFilteredListing(start: string, root: string, chain: seq<string>, ds: seq<Dir>)
    ensures WalkSubdirs(start, root, ds) == Collect(start, ListSubdirs(root, chain, ds))
    decreases ds, 0
  {
    if ds != [] {
      var first := if ds[0].name in ExcludedDirs then []
                   else Listing(Join(root, ds[0].name), chain + [ds[0].name], ds[0]);
      CollectAppend(start, first, ListSubdirs(root, chain, ds[1..]));
      if ds[0].name !in ExcludedDirs {
        WalkIsFilteredListing(start, Join(root, ds[0].name), chain + [ds[0].name], ds[0]);
      }
      WalkSubdirsIsFilteredListing(start, root, chain, ds[1..]);
    }
  }

  /** Every collected path is the join of a visited directory and one of its
      module files, and every visited module file is collected. */
  lemma {:induction false} CollectMembers(start: string, entries: seq<Entry>, p: string)
    ensures p in Collect(start, entries) <==>
              exists i :: 0 <= i < |entries| && IsModuleFile(entries[i].file)
                          && p == Join(Join(start, entries[i].dir), entries[i].file)
  {
    if entries != [] {
      CollectMembers(start, entries[1..], p);
      var e := entries[0];
      if p in Collect(start, entries[1..]) {
        var i :| 0 <= i < |entries[1..]| && IsModuleFile(entries[1..][i].file)
                 && p == Join(Join(start, entries[1..][i].dir), entries[1..][i].file);
        assert entries[i + 1] == entries[1..][i];
      }
      if exists i :: 0 <= i < |entries| && IsModuleFile(entries[i].file)
                     && p == Join(Join(start, entries[i].dir), entries[i].file) {
        var i :| 0 <= i < |entries| && IsModuleFile(entries[i].file)
                 && p == Join(Join(start, entries[i].dir), entries[i].file);
        if i > 0 {
          assert entries[1..][i - 1] == entries[i];
        }
      }
    }
  }

  /** The pruning never lets the walk below a directory named `test`: no
      visited file has an excluded name in its directory chain, beyond those
      already in the chain it starts from. */
  lemma {:induction false} ListingAvoidsExcluded(root: string, chain: seq<string>, d: Dir)
    ensures forall e :: e in Listing(root, chain, d) ==>
              |chain| <= |e.chain| && e.chain[..|chain|] == chain
              && forall k :: |chain| <= k < |e.chain| ==> e.chain[k] !in ExcludedDirs
    decreases d, 1
  {
    ListSubdirsAvoidsExcluded(root, chain, d.subdirs);
  }

  lemma {:induction false} ListSubdirsAvoidsExcluded(root: string, chain: seq<string>, ds: seq<Dir>)
    ensures forall e :: e in ListSubdirs(root, chain, ds) ==>
              |chain| <= |e.chain| && e.chain[..|chain|] == chain
              && forall k :: |chain| <= k < |e.chain| ==> e.chain[k] !in ExcludedDirs
    decreases ds, 0
  {
    if ds != [] {
      ListSubdirsAvoidsExcluded(root, chain, ds[1..]);
      if ds[0].name !in ExcludedDirs {
        var sub := chain + [ds[0].name];
        ListingAvoidsExcluded(Join(root, ds[0].name), sub, ds[0]);
        forall e | e in Listing(Join(root, ds[0].name), sub, ds[0])
          ensures |chain| <= |e.chain| && e.chain[..|chain|] == chain
          ensures forall k :: |chain| <= k < |e.chain| ==> e.chain[k] !in ExcludedDirs
        {
          assert e.chain[..|sub|] == sub;
          assert e.chain[..|chain|] == sub[..|chain|];
          forall k | |chain| <= k < |e.chain|
            ensures e.chain[k] !in ExcludedDirs
          {
            if k == |chain| {
              assert e.chain[k] == sub[k];
            }
          }
        }
      }
    }
  }

  lemma {:induction false} ModuleFilesInAppend(start: string, root: string, files: seq<string>, f: string)
    ensures ModuleFilesIn(start, root, files + [f])
            == ModuleFilesIn(start, root, files) + ModulePath(start, root, f)
  {
    if files == [] {
      assert files + [f] == [f];
    } else {
      var head, rest := ModulePath(start, root, files[0]), files[1..];
      assert (files + [f])[0] == files[0];
      assert (files + [f])[1..] == rest + [f];
      ModuleFilesInAppend(start, root, rest, f);
      AppendAssociates(head, ModuleFilesIn(start, root, rest), ModulePath(start, root, f));
    }
  }

  lemma AppendAssociates(a: seq<string>, b: seq<string>, c: seq<string>)
    ensures (a + b) + c == a + (b + c)
  {
  }

  lemma ModuleFilesInStep(start: string, root: string, files: seq<string>, i: nat)
    requires i < |files|
    ensures ModuleFilesIn(start, root, files[..i + 1])
            == ModuleFilesIn(start, root, files[..i]) + ModulePath(start, root, files[i])
  {
    ModuleFilesInAppend(start, root, files[..i], files[i]);
    assert files[..i + 1] == files[..i] + [files[i]];
  }

  lemma {:induction false} WalkSubdirsAppend(start: string, root: string, ds: seq<Dir>, d: Dir)
    ensures WalkSubdirs(start, root, ds + [d])
            == WalkSubdirs(start, root, ds)
               + (if d.name in ExcludedDirs then [] else Walk(start, Join(root, d.name), d))
  {
    if ds != [] {
      assert (ds + [d])[1..] == ds[1..] + [d];
      WalkSubdirsAppend(start, root, ds[1..], d);
    }
  }

  /** The discovery loop of `import_modules`: walking `tree` from
      `startPath`, prune the excluded directories, and append the module
      files of every visited directory. The result is the pruned walk. */
  method ImportModules(startPath: string, tree: Dir) returns (pyFiles: seq<string>)
    ensures pyFiles == Walk(startPath, startPath, tree)
  {
    pyFiles := WalkFrom(startPath, startPath, tree, []);
  }

  /** The part of the walk rooted at `root`, appended to `acc`. */
  method WalkFrom(start: string, root: string, d: Dir, acc: seq<string>) returns (pyFiles: seq<string>)
    ensures pyFiles == acc + Walk(start, root, d)
    decreases d, 0
  {
    pyFiles := AppendModuleFiles(start, root, d.files, acc);
    pyFiles := DescendAll(start, root, d.subdirs, pyFiles);
    AppendAssociates(acc, ModuleFilesIn(start, root, d.files), WalkSubdirs(start, root, d.subdirs));
  }

  /** The walk continues into the sub-directories left after pruning, in
      listing order. */
  method DescendAll(start: string, root: string, ds: seq<Dir>, acc: seq<string>) returns (pyFiles: seq<string>)
    ensures pyFiles == acc + WalkSubdirs(start, root, ds)
    decreases ds, 0
  {
    if ds == [] {
      pyFiles := acc;
    } else {
      ghost var first := if ds[0].name in ExcludedDirs then [] else Walk(start, Join(root, ds[0].name), ds[0]);
      assert WalkSubdirs(start, root, ds) == first + WalkSubdirs(start, root, ds[1..]);
      pyFiles := Descend(start, root, ds[0], acc);
      pyFiles := DescendAll(start, root, ds[1..], pyFiles);
      AppendAssociates(acc, first, WalkSubdirs(start, root, ds[1..]));
    }
  }

  /** One entry of the pruned `dirs`: walked unless its name is excluded. */
  method Descend(start: string, root: string, sub: Dir, acc: seq<string>) returns (pyFiles: seq<string>)
    ensures pyFiles == acc + (if sub.name in ExcludedDirs then [] else Walk(start, Join(root, sub.name), sub))
    decreases sub, 1
  {
    if sub.name in ExcludedDirs {
      pyFiles := acc;
    } else {
      pyFiles := WalkFrom(start, Join(root, sub.name), sub, acc);
    }
  }

  /** The inner loop over the files of one walked directory. */
  method AppendModuleFiles(start: string, root: string, files: seq<string>, acc: seq<string>)
    returns (pyFiles: seq<string>)
    ensures pyFiles == acc + ModuleFilesIn(start, root, files)
  {
    pyFiles := acc;
    var i := 0;
    while i < |files|
      invariant 0 <= i <= |files|
      invariant pyFiles == acc + ModuleFilesIn(start, root, files[..i])
    {
      var file := files[i];
      ghost var before := pyFiles;
      if EndsWith(file, ".py") && !EndsWith(file, "__.py") {
        pyFiles := pyFiles + [Join(Join(start, root), file)];
        assert ModulePath(start, root, file) == [Join(Join(start, root), file)];
      } else {
        assert ModulePath(start, root, file) == [];
        assert pyFiles == before + [];
      }
      ModuleFilesInStep(start, root, files, i);
      AppendAssociates(acc, ModuleFilesIn(start, root, files[..i]), ModulePath(start, root, file));
      i := i + 1;
    }
    assert files[..i] == files;
  }

  // ---------------------------------------------------------------------
  // import_modules: module names

  /** `os.path.split(p)[-1]`: the part after the last `/`. */
  function Basename(p: string): (b: string)
    ensures '/' !in b && EndsWith(p, b)
    ensures |b| < |p| ==> p[|p| - |b| - 1] == '/'
    ensures '/' !in p ==> b == p
    decreases |p|
  {
    if p == [] || p[|p| - 1] == '/' then []
    else
      var init := p[..|p| - 1];
      SlashFreeSuffixGrows(init, p[|p| - 1], Basename(init));
      assert p == init + [p[|p| - 1]];
      Basename(init) + [p[|p| - 1]]
  }

  /** The last slash-free run of `init`, extended by a character `c` other
      than `/`, is the last slash-free run of `init + [c]`. */
  lemma SlashFreeSuffixGrows(init: string, c: char, b: string)
    requires c != '/'
    requires '/' !in b && EndsWith(init, b)
    requires |b| < |init| ==> init[|init| - |b| - 1] == '/'
    requires '/' !in init ==> b == init
    ensures var p, b' := init + [c], b + [c];
            '/' !in b' && EndsWith(p, b')
            && (|b'| < |p| ==> p[|p| - |b'| - 1] == '/')
            && ('/' !in p ==> b' == p)
  {
    var p := init + [c];
    assert p[|p| - |b| - 1..] == init[|init| - |b|..] + [c];
    if '/' !in p {
      assert forall k :: 0 <= k < |init| ==> init[k] == p[k];
    }
  }

  /** `name.rsplit(".", 1)[0]`: everything before the last `.`, or the whole
      name when it has none. */
  function Stem(name: string): (s: string)
    ensures StartsWith(name, s)
    ensures '.' in name ==> |s| < |name| && name[|s|] == '.' && '.' !in name[|s| + 1..]
    ensures '.' !in name ==> s == name
    decreases |name|
  {
    if '.' !in name then name
    else if name[|name| - 1] == '.' then name[..|name| - 1]
    else
      var s := Stem(name[..|name| - 1]);
      assert name[..|name| - 1][..|s|] == name[..|s|];
      assert '.' in name[..|name| - 1] ==>
               name[|s| + 1..] == name[..|name| - 1][|s| + 1..] + [name[|name| - 1]];
      s
  }

  /** The name under which a discovered file is imported. */
  function ModuleName(startModuleName: string, pyFile: string): string {
    startModuleName + "." + Stem(Basename(pyFile))
  }

  /** A path that ends with `/` followed by a slash-free `file` has basename
      `file`. */
  lemma BasenameAfterSlash(q: string, file: string)
    requires '/' !in file
    ensures Basename(q + "/" + file) == file
  {
    var p := q + "/" + file;
    var b := Basename(p);
    assert p[|q|] == '/' && p[|q| + 1..] == file;
    assert |b| == |file|;
    assert b == p[|q| + 1..];
  }

  /** The module name of a file collected by the walk: the import prefix,
      a dot, and the file's name without its `.py`. */
  lemma ModuleNameOfCollected(startModuleName: string, dir: string, name: string)
    requires '/' !in name
    ensures ModuleName(startModuleName, Join(dir, name + ".py")) == startModuleName + "." + name
  {
    var file := name + ".py";
    assert '/' !in file by {
      assert forall k :: 0 <= k < |file| ==> file[k] == (if k < |name| then name[k] else ".py"[k - |name|]);
    }
    var p := Join(dir, file);
    if dir == [] {
      assert p == file;
    } else if EndsWith(dir, "/") {
      assert dir == dir[..|dir| - 1] + [dir[|dir| - 1]];
      assert p == dir[..|dir| - 1] + "/" + file;
      BasenameAfterSlash(dir[..|dir| - 1], file);
    } else {
      BasenameAfterSlash(dir, file);
    }
    var s := Stem(file);
    assert file[|name|] == '.';
    assert |s| == |name|;
  }

  // ---------------------------------------------------------------------
  // screenshot_filename

  /** A reading of the clock, as `datetime.now()` returns it. */
  datatype DateTime = DateTime(year: nat, month: nat, day: nat, hour: nat, minute: nat, second: nat, microsecond: nat)

  /** The ranges a `datetime` keeps its fields in. */
  predicate ValidDateTime(t: DateTime) {
    1 <= t.year <= 9999 && 1 <= t.month <= 12 && 1 <= t.day <= 31
    && t.hour < 24 && t.minute < 60 && t.second < 60 && t.microsecond < 1000000
  }

  function Pow10(w: nat): (p: nat)
    ensures p >= 1
  {
    if w == 0 then 1 else 10 * Pow10(w - 1)
  }

  /** The low `w` decimal digits of `n`, zero-padded on the left, as the
      `%Y`, `%m`, `%d`, `%H`, `%M`, `%S` and `%f` directives print them. */
  function Digits(n: nat, w: nat): (s: string)
    ensures |s| == w
  {
    if w == 0 then [] else Digits(n / 10, w - 1) + [('0' as int + n % 10) as char]
  }

  function DigitOf(c: char): nat {
    if '0' <= c <= '9' then c as int - '0' as int else 0
  }

  /** The number a string of decimal digits denotes. */
  function DigitsValue(s: string): nat {
    if s == [] then 0 else 10 * DigitsValue(s[..|s| - 1]) + DigitOf(s[|s| - 1])
  }

  lemma {:induction false} DigitsRoundTrip(n: nat, w: nat)
    requires n < Pow10(w)
    ensures DigitsValue(Digits(n, w)) == n
  {
    if w > 0 {
      var s := Digits(n, w);
      assert s[..w - 1] == Digits(n / 10, w - 1);
      assert n / 10 < Pow10(w - 1);
      DigitsRoundTrip(n / 10, w - 1);
    }
  }

  /** `strftime("%Y-%m-%d_%H-%M-%S.%f")` */
  function Timestamp(t: DateTime): string {
    Digits(t.year, 4) + "-" + Digits(t.month, 2) + "-" + Digits(t.day, 2) + "_"
    + Digits(t.hour, 2) + "-" + Digits(t.minute, 2) + "-" + Digits(t.second, 2) + "."
    + Digits(t.microsecond, 6)
  }

  /** Reads the fields back from the fixed positions of a timestamp. */
  function ParseTimestamp(s: string): DateTime
    requires |s| == 26
  {
    DateTime(DigitsValue(s[0..4]), DigitsValue(s[5..7]), DigitsValue(s[8..10]),
             DigitsValue(s[11..13]), DigitsValue(s[14..16]), DigitsValue(s[17..19]),
             DigitsValue(s[20..26]))
  }

  /** A timestamp has 26 characters and determines the clock reading it was
      printed from. */
  lemma TimestampRoundTrip(t: DateTime)
    requires ValidDateTime(t)
    ensures |Timestamp(t)| == 26
    ensures ParseTimestamp(Timestamp(t)) == t
  {
    var s := Timestamp(t);
    assert s[0..4] == Digits(t.year, 4);
    assert s[5..7] == Digits(t.month, 2);
    assert s[8..10] == Digits(t.day, 2);
    assert s[11..13] == Digits(t.hour, 2);
    assert s[14..16] == Digits(t.minute, 2);
    assert s[17..19] == Digits(t.second, 2);
    assert s[20..26] == Digits(t.microsecond, 6);
    assert Pow10(2) == 100 && Pow10(4) == 10000 && Pow10(6) == 1000000;
    DigitsRoundTrip(t.year, 4);
    DigitsRoundTrip(t.month, 2);
    DigitsRoundTrip(t.day, 2);
    DigitsRoundTrip(t.hour, 2);
    DigitsRoundTrip(t.minute, 2);
    DigitsRoundTrip(t.second, 2);
    DigitsRoundTrip(t.microsecond, 6);
  }

  const DefaultScreenshotExtension := ".png"

  /** `screenshot_filename(path, basename, extention)` with the clock read
      as `now`: the file name `basename_<timestamp><extention>`, joined to
      `path`. */
  function ScreenshotFilename(path: string, basename: string, now: DateTime, extension: string): (r: string)
    ensures var name := basename + "_" + Timestamp(now) + extension;
              EndsWith(r, name)
              && (StartsWith(basename, "/") ==> r == name)
              && (!StartsWith(basename, "/") ==> StartsWith(r, path))
              && (!StartsWith(basename, "/") && (path == [] || EndsWith(path, "/")) ==> r == path + name)
              && (!StartsWith(basename, "/") && path != [] && !EndsWith(path, "/") ==> r == path + "/" + name)
  {
    var name := basename + "_" + Timestamp(now) + extension;
    assert name[..|basename|] == basename && name[|basename|] == '_';
    JoinScreenshotName(path, basename, name);
    Join(path, name)
  }

  /** Joining a name that starts with `basename` and then `_`: it is
      absolute exactly when the base name is, and the join follows. */
  lemma JoinScreenshotName(path: string, basename: string, name: string)
    requires StartsWith(name, basename) && |name| > |basename| && name[|basename|] == '_'
    ensures StartsWith(basename, "/") ==> Join(path, name) == name
    ensures !StartsWith(basename, "/") ==> StartsWith(Join(path, name), path)
    ensures !StartsWith(basename, "/") && (path == [] || EndsWith(path, "/")) ==> Join(path, name) == path + name
    ensures !StartsWith(basename, "/") && path != [] && !EndsWith(path, "/") ==> Join(path, name) == path + "/" + name
    ensures EndsWith(Join(path, name), name)
  {
    JoinShape(path, name);
    assert name[..1] == (if basename == [] then "_" else basename[..1]);
  }

  /** `screenshot_filename(path, basename)`, with the default extension:
      the name ends in `.png`. */
  function DefaultScreenshotFilename(path: string, basename: string, now: DateTime): (r: string)
    ensures EndsWith(r, basename + "_" + Timestamp(now) + ".png")
    ensures !StartsWith(basename, "/") ==> StartsWith(r, path)
  {
    ScreenshotFilename(path, basename, now, DefaultScreenshotExtension)
  }

  /** Two screenshots with the same path, base name and extension taken at
      different clock readings get different file names. */
  lemma ScreenshotFilenameInjective(path: string, basename: string, extension: string, t1: DateTime, t2: DateTime)
    requires ValidDateTime(t1) && ValidDateTime(t2)
    requires ScreenshotFilename(path, basename, t1, extension) == ScreenshotFilename(path, basename, t2, extension)
    ensures t1 == t2
  {
    TimestampRoundTrip(t1);
    TimestampRoundTrip(t2);
    var x1 := basename + "_" + Timestamp(t1) + extension;
    var x2 := basename + "_" + Timestamp(t2) + extension;
    assert |x1| == |x2|;
    assert x1[0] == x2[0] by {
      if basename != [] {
        assert x1[0] == basename[0] == x2[0];
      }
    }
    assert StartsWith(x1, "/") <==> StartsWith(x2, "/") by {
      assert x1[..1] == [x1[0]] && x2[..1] == [x2[0]];
    }
    assert Join(path, x1) == Join(path, x2);
    if !StartsWith(x1, "/") {
      var j := Join(path, x1);
      assert j[|j| - |x1|..] == x1;
      assert j[|j| - |x2|..] == x2;
    }
    assert x1 == x2;
    assert Timestamp(t1) == x1[|basename| + 1..|basename| + 27];
    assert Timestamp(t2) == x2[|basename| + 1..|basename| + 27];
  }
}
