/** Splitting paths at '/', as the code graph does to find a parent directory. */
module Paths {

  /** `s.split(sep)` for a one-character separator. */
  function Split(s: string, sep: char): (parts: seq<string>)
    ensures parts != []
  {
    if s == "" then [""]
    else
      var rest := Split(s[1..], sep);
      if s[0] == sep then [""] + rest else [[s[0]] + rest[0]] + rest[1..]
  }

  /** `sep.join(parts)` */
  function Join(parts: seq<string>, sep: char): string {
    if parts == [] then ""
    else if |parts| == 1 then parts[0]
    else parts[0] + [sep] + Join(parts[1..], sep)
  }

  lemma {:induction false} JoinSplit(s: string, sep: char)
    ensures Join(Split(s, sep), sep) == s
  {
    if s != "" {
      var rest := Split(s[1..], sep);
      JoinSplit(s[1..], sep);
      if s[0] == sep {
        assert ([""] + rest)[1..] == rest;
      } else {
        var parts := [[s[0]] + rest[0]] + rest[1..];
        if |rest| == 1 {
          assert parts == [[s[0]] + rest[0]];
        } else {
          assert parts[1..] == rest[1..];
        }
      }
      assert s == [s[0]] + s[1..];
    }
  }

  lemma {:induction false} JoinLast(parts: seq<string>, sep: char)
    requires |parts| >= 2
    ensures Join(parts, sep) == Join(parts[..|parts| - 1], sep) + [sep] + parts[|parts| - 1]
  {
    var n := |parts| - 1;
    if |parts| == 2 {
      assert parts[..n] == [parts[0]] && parts[1..] == [parts[1]];
    } else {
      JoinLast(parts[1..], sep);
      assert parts[1..][..n - 1] == parts[..n][1..];
    }
  }

  lemma {:induction false} SplitAt(a: string, sep: char, rest: string)
    requires sep !in a
    ensures Split(a + [sep] + rest, sep) == [a] + Split(rest, sep)
  {
    var s := a + [sep] + rest;
    if a == "" {
      assert s[1..] == rest;
    } else {
      assert s[1..] == a[1..] + [sep] + rest;
      SplitAt(a[1..], sep, rest);
      assert [a[0]] + a[1..] == a;
    }
  }

  lemma {:induction false} SplitLast(a: string, sep: char)
    requires sep !in a
    ensures Split(a, sep) == [a]
  {
    if a != "" {
      SplitLast(a[1..], sep);
      assert [a[0]] + a[1..] == a;
    }
  }

  lemma {:induction false} PartsHaveNoSeparator(s: string, sep: char, i: nat)
    requires i < |Split(s, sep)|
    ensures sep !in Split(s, sep)[i]
  {
    if s != "" {
      var rest := Split(s[1..], sep);
      if s[0] == sep {
        if i > 0 { PartsHaveNoSeparator(s[1..], sep, i - 1); }
      } else {
        PartsHaveNoSeparator(s[1..], sep, i);
      }
    }
  }

  /** `path.rstrip("/")` */
  function RStripSlash(path: string): string {
    if path != "" && path[|path| - 1] == '/' then RStripSlash(path[..|path| - 1]) else path
  }

  predicate AtTop(path: string) {
    |Split(RStripSlash(path), '/')| <= 1
  }

  /** The directory that contains `path`, for a path with more than one part. */
  function ParentPath(path: string): string {
    var parts := Split(RStripSlash(path), '/');
    Join(parts[..|parts| - 1], '/') + "/"
  }

  /** The directory that holds a file; "/" for a file without one. */
  function FileDirectory(path: string): string {
    var parts := Split(path, '/');
    Join(parts[..|parts| - 1], '/') + "/"
  }

  /** Going to the parent always shortens a path, so directory linking comes to an end. */
  lemma {:induction false} ParentIsShorter(path: string)
    requires !AtTop(path)
    ensures |ParentPath(path)| < |path|
  {
    var s := RStripSlash(path);
    var parts := Split(s, '/');
    RStripSlashIs(path);
    JoinSplit(s, '/');
    JoinLast(parts, '/');
    EndsWithLast(s);
  }

  /** A string that does not end in '/' has a nonempty last part. */
  lemma {:induction false} EndsWithLast(s: string)
    requires s == "" || s[|s| - 1] != '/'
    ensures var parts := Split(s, '/'); |parts| >= 2 ==> parts[|parts| - 1] != ""
  {
    var parts := Split(s, '/');
    if |parts| >= 2 {
      JoinSplit(s, '/');
      JoinLast(parts, '/');
      var head := Join(parts[..|parts| - 1], '/') + "/";
      assert s == head + parts[|parts| - 1];
      assert parts[|parts| - 1] == "" ==> s == head;
    }
  }

  // ---------- What the parts are, by the position of slashes ----------

  /** All parts but the last, with the slash after each, are the string up to its last slash. */
  lemma {:induction false} PartsBeforeLast(s: string)
    ensures var parts := Split(s, '/'); var last := parts[|parts| - 1];
            && '/' !in last
            && s == (if |parts| == 1 then "" else Join(parts[..|parts| - 1], '/') + "/") + last
  {
    var parts := Split(s, '/');
    JoinSplit(s, '/');
    PartsHaveNoSeparator(s, '/', |parts| - 1);
    if |parts| > 1 { JoinLast(parts, '/'); }
  }

  /** `dir` is `path` through its last slash; a path without a slash is in "/". */
  predicate IsDirectoryOf(dir: string, path: string) {
    if '/' in path then
      && 0 < |dir| <= |path| && dir == path[..|dir|] && dir[|dir| - 1] == '/'
      && forall i :: |dir| <= i < |path| ==> path[i] != '/'
    else dir == "/"
  }

  lemma {:induction false} FileDirectoryIs(path: string, dir: string)
    ensures dir == FileDirectory(path) <==> IsDirectoryOf(dir, path)
  {
    var parts := Split(path, '/');
    PartsBeforeLast(path);
    var d, last := FileDirectory(path), parts[|parts| - 1];
    if |parts| == 1 {
      assert path == last && parts[..0] == [];
    } else {
      assert path == d + last && path[|d|..] == last;
      assert path[|d| - 1] == '/' && forall i :: |d| <= i < |path| ==> path[i] == last[i - |d|];
    }
  }

  /** A name starts at `i`, behind a slash. */
  predicate StartsName(path: string, i: int) {
    0 < i < |path| && path[i - 1] == '/' && path[i] != '/'
  }

  /** `dir` is `path` up to one of its names: a directory somewhere above it. */
  predicate Encloses(dir: string, path: string) {
    StartsName(path, |dir|) && dir == path[..|dir|]
  }

  /** `dir` is `path` up to its last name: the directory it lies in. */
  ghost predicate Holds(dir: string, path: string) {
    Encloses(dir, path) && forall i :: |dir| < i ==> !StartsName(path, i)
  }

  lemma {:induction false} RStripSlashIs(path: string)
    ensures var s := RStripSlash(path);
            && |s| <= |path| && s == path[..|s|] && (s == "" || s[|s| - 1] != '/')
            && forall i :: |s| <= i < |path| ==> path[i] == '/'
  {
    if path != "" && path[|path| - 1] == '/' { RStripSlashIs(path[..|path| - 1]); }
  }

  /** A path is at the top exactly when no name in it follows a slash, and below the top its parent
      is the path up to its last name. */
  lemma {:induction false} ParentPathIs(path: string)
    ensures AtTop(path) <==> forall i :: !StartsName(path, i)
    ensures !AtTop(path) ==> Holds(ParentPath(path), path)
  {
    var s := RStripSlash(path);
    var parts := Split(s, '/');
    var last := parts[|parts| - 1];
    RStripSlashIs(path);
    PartsBeforeLast(s);
    EndsWithLast(s);
    if |parts| == 1 {
      LastName(path, s, "", last);
    } else {
      LastName(path, s, ParentPath(path), last);
    }
  }

  lemma {:induction false} LastName(path: string, s: string, dir: string, last: string)
    requires s == dir + last && '/' !in last
    requires |s| <= |path| && s == path[..|s|] && forall i :: |s| <= i < |path| ==> path[i] == '/'
    ensures forall i :: |dir| < i ==> !StartsName(path, i)
    ensures dir != "" && dir[|dir| - 1] == '/' && last != "" ==> Holds(dir, path)
  {
    forall i | |dir| < i ensures !StartsName(path, i) {
      if i < |s| { assert path[i - 1] == last[i - 1 - |dir|]; }
    }
    if dir != "" && last != "" { assert path[|dir|] == last[0] && path[|dir| - 1] == dir[|dir| - 1]; }
  }

  /** The directories above a path are the one it lies in and those above that. */
  lemma {:induction false} EnclosingStep(dir: string, path: string, above: string)
    requires Holds(dir, path)
    ensures Encloses(above, path) <==> above == dir || Encloses(above, dir)
  {
    if |above| <= |dir| { assert path[..|above|] == dir[..|above|]; }
  }
}
