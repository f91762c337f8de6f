/** The path functions the image-name pick-up uses: ntpath.basename on the
    name written in the calibration file (a Windows path), and posixpath's
    dirname and join to place that name beside the calibration file. */
module PathNames {

  predicate IsNtSeparator(c: char) {
    c == '/' || c == '\\'
  }

  predicate NoNtSeparator(s: string) {
    forall k :: 0 <= k < |s| ==> !IsNtSeparator(s[k])
  }

  /** The path part of ntpath.splitdrive: a leading "X:" drive is dropped. */
  function NtPathPart(p: string): string {
    if |p| > 1 && p[1] == ':' then p[2..] else p
  }

  /** What follows the last '/' or '\' of s; all of s when it has neither. */
  function NtTail(s: string): (r: string)
    ensures |r| <= |s| && r == s[|s| - |r|..]
    ensures NoNtSeparator(r)
    ensures |r| == |s| || IsNtSeparator(s[|s| - |r| - 1])
    decreases |s|
  {
    if |s| == 0 || IsNtSeparator(s[|s| - 1]) then ""
    else NtTail(s[..|s| - 1]) + [s[|s| - 1]]
  }

  /** ntpath.basename */
  function NtBaseName(p: string): string {
    NtTail(NtPathPart(p))
  }

  lemma {:induction false} NtTailAfterSeparator(head: string, sep: char, name: string)
    requires IsNtSeparator(sep) && NoNtSeparator(name)
    ensures NtTail(head + [sep] + name) == name
    decreases |name|
  {
    var s := head + [sep] + name;
    if name != [] {
      var name' := name[..|name| - 1];
      assert s[..|s| - 1] == head + [sep] + name';
      NtTailAfterSeparator(head, sep, name');
      assert name' + [name[|name| - 1]] == name;
    }
  }

  /** The base name of "<dir>\<name>" (or "<dir>/<name>") is name, with or without a drive. */
  lemma NtBaseNameOf(dir: string, sep: char, name: string)
    requires dir != [] && IsNtSeparator(sep) && NoNtSeparator(name)
    ensures NtBaseName(dir + [sep] + name) == name
  {
    var p := dir + [sep] + name;
    if |p| > 1 && p[1] == ':' {
      assert |dir| >= 2;
      assert p[2..] == dir[2..] + [sep] + name;
      NtTailAfterSeparator(dir[2..], sep, name);
    } else {
      NtTailAfterSeparator(dir, sep, name);
    }
  }

  // ---------------------------------------------------------------------------
  // posixpath

  /** One past the position of the last '/' of p; 0 when p has none (p.rfind('/') + 1). */
  function SlashEnd(p: string): (n: nat)
    ensures n <= |p|
    ensures n == 0 || p[n - 1] == '/'
    ensures forall k :: n <= k < |p| ==> p[k] != '/'
    decreases |p|
  {
    if |p| == 0 then 0
    else if p[|p| - 1] == '/' then |p|
    else SlashEnd(p[..|p| - 1])
  }

  predicate AllSlashes(s: string) {
    forall k :: 0 <= k < |s| ==> s[k] == '/'
  }

  function StripTrailingSlashes(s: string): (r: string)
    decreases |s|
  {
    if |s| > 0 && s[|s| - 1] == '/' then StripTrailingSlashes(s[..|s| - 1]) else s
  }

  /** posixpath.dirname */
  function DirName(p: string): string {
    var head := p[..SlashEnd(p)];
    if head != "" && !AllSlashes(head) then StripTrailingSlashes(head) else head
  }

  /** posixpath.join with two components */
  function PosixJoin(a: string, b: string): string {
    if |b| > 0 && b[0] == '/' then b
    else if a == "" || a[|a| - 1] == '/' then a + b
    else a + "/" + b
  }

  lemma {:induction false} SlashEndAfterSlash(dir: string, file: string)
    requires '/' !in file
    ensures SlashEnd(dir + "/" + file) == |dir| + 1
    decreases |file|
  {
    var p := dir + "/" + file;
    if file != [] {
      assert p[..|p| - 1] == dir + "/" + file[..|file| - 1];
      SlashEndAfterSlash(dir, file[..|file| - 1]);
    }
  }

  lemma {:induction false} SlashEndNone(file: string)
    requires '/' !in file
    ensures SlashEnd(file) == 0
    decreases |file|
  {
    if file != [] {
      SlashEndNone(file[..|file| - 1]);
    }
  }

  /** Joining a relative name onto the directory of "<dir>/<file>" gives "<dir>/<name>". */
  lemma JoinBesideFile(dir: string, file: string, name: string)
    requires dir != [] && dir[|dir| - 1] != '/' && '/' !in file
    requires name == [] || name[0] != '/'
    ensures PosixJoin(DirName(dir + "/" + file), name) == dir + "/" + name
  {
    var p := dir + "/" + file;
    SlashEndAfterSlash(dir, file);
    var head := p[..|dir| + 1];
    assert head == dir + "/";
    assert !AllSlashes(head) by {
      assert head[|dir| - 1] != '/';
    }
    assert head[..|head| - 1] == dir;
    assert StripTrailingSlashes(dir) == dir;
    assert StripTrailingSlashes(head) == dir;
    assert DirName(p) == dir;
  }

  /** A calibration file named without a directory resolves names as given. */
  lemma JoinWithoutDirectory(file: string, name: string)
    requires '/' !in file
    ensures PosixJoin(DirName(file), name) == name
  {
    SlashEndNone(file);
    assert DirName(file) == "";
    assert "" + name == name;
  }
}
