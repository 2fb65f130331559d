/**
  String helpers the event handler applies to raw event paths: Python's
  `str.replace`, the handler's `path_formatter`, and the three `os.path`
  functions it relies on (`basename`, `splitext`, `join`, POSIX flavour).
  Everything here is a pure function on `string`.
 */
module Paths {

  /** `pat` occurs somewhere in `s`. */
  predicate Contains(s: string, pat: string)
    decreases |s|
  {
    pat <= s || (s != [] && Contains(s[1..], pat))
  }

  /**
    Python's `s.replace(pat, rep)` for a non-empty `pat`: scanning left to
    right, every occurrence of `pat` that does not overlap an earlier replaced
    one is replaced by `rep`.
   */
  function ReplaceAll(s: string, pat: string, rep: string): (r: string)
    requires |pat| > 0
    ensures |rep| <= |pat| ==> |r| <= |s|
    ensures !Contains(s, pat) ==> r == s
    decreases |s|
  {
    if pat <= s then rep + ReplaceAll(s[|pat|..], pat, rep)
    else if s == [] then []
    else [s[0]] + ReplaceAll(s[1..], pat, rep)
  }

  /** A character found neither in the input nor in the replacement is not in the output. */
  lemma {:induction false} CharStaysAbsent(s: string, pat: string, rep: string, c: char)
    requires |pat| > 0
    requires c !in s && c !in rep
    ensures c !in ReplaceAll(s, pat, rep)
    decreases |s|
  {
    if pat <= s {
      assert forall x :: x in s[|pat|..] ==> x in s;
      CharStaysAbsent(s[|pat|..], pat, rep, c);
    } else if s != [] {
      assert forall x :: x in s[1..] ==> x in s;
      CharStaysAbsent(s[1..], pat, rep, c);
    }
  }

  /** Replacing an occurrence of `pat` by something shorter makes the string strictly shorter. */
  lemma {:induction false} ReplaceAllShortens(s: string, pat: string, rep: string)
    requires |pat| > 0 && |rep| < |pat|
    requires Contains(s, pat)
    ensures |ReplaceAll(s, pat, rep)| < |s|
    decreases |s|
  {
    if !(pat <= s) {
      ReplaceAllShortens(s[1..], pat, rep);
    }
  }

  /** A slash or a backslash: the two separators `path_formatter` knows. */
  predicate IsSeparator(c: char) {
    c == '/' || c == '\\'
  }

  /** No three consecutive characters of `s` are all separators. */
  predicate NoSeparatorRun(s: string)
    decreases |s|
  {
    |s| < 3 || (!(IsSeparator(s[0]) && IsSeparator(s[1]) && IsSeparator(s[2])) && NoSeparatorRun(s[1..]))
  }

  /**
    The handler's `path_formatter`: every backslash becomes a slash, then one
    pass turns each non-overlapping "//" into "/".
   */
  function PathFormatter(path: string): (r: string)
    ensures '\\' !in r
    ensures |r| <= |path|
  {
    SingleCharGone(path, '\\', "/");
    CharStaysAbsent(ReplaceAll(path, "\\", "/"), "//", "/", '\\');
    ReplaceAll(ReplaceAll(path, "\\", "/"), "//", "/")
  }

  /** Replacing a one-character pattern by text without that character removes it. */
  lemma {:induction false} SingleCharGone(s: string, c: char, rep: string)
    requires c !in rep
    ensures c !in ReplaceAll(s, [c], rep)
    decreases |s|
  {
    if s != [] {
      SingleCharGone(s[1..], c, rep);
    }
  }

  /** A character that does not occur in `s` is not a one-character pattern of `s`. */
  lemma {:induction false} AbsentCharNotContained(s: string, c: char)
    requires c !in s
    ensures !Contains(s, [c])
    decreases |s|
  {
    if s != [] {
      assert s[0] in s;
      assert !([c] <= s);
      assert forall x :: x in s[1..] ==> x in s;
      AbsentCharNotContained(s[1..], c);
    }
  }

  /** The first pass of `path_formatter` maps each character on its own. */
  lemma {:induction false} BackslashPassAt(s: string)
    ensures |ReplaceAll(s, "\\", "/")| == |s|
    ensures forall i :: 0 <= i < |s| ==>
      ReplaceAll(s, "\\", "/")[i] == (if s[i] == '\\' then '/' else s[i])
    decreases |s|
  {
    if s != [] {
      BackslashPassAt(s[1..]);
    }
  }

  /** With no run of three separators, the first pass leaves no "///". */
  lemma {:induction false} BackslashPassNoTriple(s: string)
    requires NoSeparatorRun(s)
    ensures !Contains(ReplaceAll(s, "\\", "/"), "///")
    decreases |s|
  {
    var q := ReplaceAll(s, "\\", "/");
    BackslashPassAt(s);
    if s != [] {
      BackslashPassNoTriple(s[1..]);
      BackslashPassAt(s[1..]);
      assert q[1..] == ReplaceAll(s[1..], "\\", "/");
      if |s| >= 3 {
        assert !(IsSeparator(s[0]) && IsSeparator(s[1]) && IsSeparator(s[2]));
        assert !(q[0] == '/' && q[1] == '/' && q[2] == '/');
      }
      assert !("///" <= q);
    }
  }

  /** The "//" pass keeps the first character of a non-empty input. */
  lemma SlashPassHead(s: string)
    ensures ReplaceAll(s, "//", "/") == [] <==> s == []
    ensures s != [] ==> ReplaceAll(s, "//", "/")[0] == s[0]
  {
  }

  /** A string that starts with a slash and then has no "//" in the rest, when the rest does not start with one. */
  lemma SlashThenNoDouble(head: char, t: string)
    requires !Contains(t, "//")
    requires head == '/' ==> t == [] || t[0] != '/'
    ensures !Contains([head] + t, "//")
  {
    var x := [head] + t;
    assert x[1..] == t;
    if |t| > 0 {
      assert x[0] == head && x[1] == t[0];
    }
    assert !("//" <= x);
  }

  /** With no "///" in its input, the "//" pass leaves no "//". */
  lemma {:induction false} SlashPassNoDouble(s: string)
    requires !Contains(s, "///")
    ensures !Contains(ReplaceAll(s, "//", "/"), "//")
    decreases |s|
  {
    if "//" <= s {
      assert s[1..][1..] == s[2..];
      SlashPassNoDouble(s[2..]);
      SlashPassHead(s[2..]);
      assert s[2..] != [] ==> s[2..][0] != '/';
      SlashThenNoDouble('/', ReplaceAll(s[2..], "//", "/"));
    } else if s != [] {
      SlashPassNoDouble(s[1..]);
      SlashPassHead(s[1..]);
      assert s[0] == '/' && s[1..] != [] ==> s[1..][0] != '/';
      SlashThenNoDouble(s[0], ReplaceAll(s[1..], "//", "/"));
    }
  }

  /**
    `path_formatter` is idempotent on paths without three consecutive
    separators: its output then holds neither a backslash nor "//".
   */
  lemma {:induction false} PathFormatterIdempotent(path: string)
    requires NoSeparatorRun(path)
    ensures !Contains(PathFormatter(path), "//")
    ensures PathFormatter(PathFormatter(path)) == PathFormatter(path)
  {
    var r := PathFormatter(path);
    BackslashPassNoTriple(path);
    SlashPassNoDouble(ReplaceAll(path, "\\", "/"));
    AbsentCharNotContained(r, '\\');
    assert ReplaceAll(r, "\\", "/") == r;
  }

  /** The "//" pass keeps a character that does not start a "//". */
  lemma SlashPassKeep(c: char, t: string)
    requires c != '/' || t == [] || t[0] != '/'
    ensures ReplaceAll([c] + t, "//", "/") == [c] + ReplaceAll(t, "//", "/")
  {
    var s := [c] + t;
    assert s[0] == c && s[1..] == t;
    if |t| > 0 {
      assert s[1] == t[0];
    }
    assert "//"[0] == '/' && "//"[1] == '/';
    assert !("//" <= s);
  }

  /** The "//" pass turns a leading "//" into "/". */
  lemma SlashPassCollapse(t: string)
    ensures ReplaceAll("//" + t, "//", "/") == "/" + ReplaceAll(t, "//", "/")
  {
    var s := "//" + t;
    assert "//" <= s;
    assert s[2..] == t;
  }

  /** Mixed separators: "a\\b//c" becomes "a/b/c". */
  lemma PathFormatterMixedSeparators()
    ensures PathFormatter("a\\b//c") == "a/b/c"
  {
    BackslashPassExample();
    SlashPassExample();
  }

  lemma BackslashPassExample()
    ensures ReplaceAll("a\\b//c", "\\", "/") == "a/b//c"
  {
    var raw := "a\\b//c";
    BackslashPassAt(raw);
    assert raw[1] == '\\' && raw[0] != '\\' && raw[2] != '\\' && raw[3] != '\\' && raw[4] != '\\' && raw[5] != '\\';
  }

  lemma SlashPassExample()
    ensures ReplaceAll("a/b//c", "//", "/") == "a/b/c"
  {
    var empty: string := [];
    assert ReplaceAll(empty, "//", "/") == empty;
    SlashPassKeep('c', empty);
    assert ['c'] + empty == "c";
    SlashPassCollapse("c");
    assert "//" + "c" == "//c";
    SlashPassKeep('b', "//c");
    assert ['b'] + "//c" == "b//c";
    SlashPassKeep('/', "b//c");
    assert ['/'] + "b//c" == "/b//c";
    SlashPassKeep('a', "/b//c");
    assert ['a'] + "/b//c" == "a/b//c";
  }


  /** `path_formatter` is not idempotent in general: "a///b" needs two passes to reach "a/b". */
  lemma PathFormatterNotIdempotent()
    ensures PathFormatter("a///b") == "a//b"
    ensures PathFormatter(PathFormatter("a///b")) == "a/b"
  {
    BackslashPassIdentity("a///b");
    TripleSlashPassExample();
    BackslashPassIdentity("a//b");
    DoubleSlashPassExample();
  }

  /** The backslash pass leaves a backslash-free string alone. */
  lemma BackslashPassIdentity(s: string)
    requires '\\' !in s
    ensures ReplaceAll(s, "\\", "/") == s
  {
    AbsentCharNotContained(s, '\\');
  }

  lemma TripleSlashPassExample()
    ensures ReplaceAll("a///b", "//", "/") == "a//b"
  {
    var empty: string := [];
    assert ReplaceAll(empty, "//", "/") == empty;
    SlashPassKeep('b', empty);
    assert ['b'] + empty == "b";
    SlashPassKeep('/', "b");
    assert ['/'] + "b" == "/b";
    SlashPassCollapse("/b");
    assert "//" + "/b" == "///b";
    SlashPassKeep('a', "///b");
    assert ['a'] + "///b" == "a///b";
  }


  lemma DoubleSlashPassExample()
    ensures ReplaceAll("a//b", "//", "/") == "a/b"
  {
    var empty: string := [];
    assert ReplaceAll(empty, "//", "/") == empty;
    SlashPassKeep('b', empty);
    assert ['b'] + empty == "b";
    SlashPassCollapse("b");
    assert "//" + "b" == "//b";
    SlashPassKeep('a', "//b");
    assert ['a'] + "//b" == "a//b";
  }


  /**
    Replacing `root` by "" in `root + rest` gives back `rest` exactly when
    `rest` does not contain `root`; otherwise the later copies go too.
   */
  lemma RemoveLeadingRoot(root: string, rest: string)
    requires |root| > 0
    ensures ReplaceAll(root + rest, root, "") == rest <==> !Contains(rest, root)
  {
    assert root <= root + rest;
    assert (root + rest)[|root|..] == rest;
    if Contains(rest, root) {
      ReplaceAllShortens(rest, root, "");
    }
  }

  /** Index of the last `c` in `s`, or -1 (Python's `str.rfind` on one character). */
  function LastIndexOf(s: string, c: char): (i: int)
    ensures -1 <= i < |s|
    ensures 0 <= i ==> s[i] == c
    ensures forall j :: i < j < |s| ==> s[j] != c
    decreases |s|
  {
    if s == [] then -1
    else if s[|s| - 1] == c then |s| - 1
    else LastIndexOf(s[..|s| - 1], c)
  }

  /** POSIX `os.path.basename`: the longest suffix of `p` without a slash. */
  function Basename(p: string): (r: string)
    ensures '/' !in r
    ensures |r| <= |p| && r == p[|p| - |r|..]
    ensures |r| < |p| ==> p[|p| - |r| - 1] == '/'
    decreases |p|
  {
    if p == [] || p[|p| - 1] == '/' then []
    else Basename(p[..|p| - 1]) + [p[|p| - 1]]
  }

  /** Every character of `s` is a dot (true of the empty string). */
  predicate AllDots(s: string) {
    forall i :: 0 <= i < |s| ==> s[i] == '.'
  }

  /**
    The second half of POSIX `os.path.splitext`: from the last dot of the
    final path component to the end, provided some character before that dot
    in the component is not a dot; otherwise empty (so ".bashrc" and "..."
    have no extension).
   */
  function Extension(p: string): (ext: string)
    ensures ext == [] || ext[0] == '.'
    ensures '/' !in ext && (ext != [] ==> '.' !in ext[1..])
    ensures |ext| <= |p| && ext == p[|p| - |ext|..]
  {
    var name := Basename(p);
    var dot := LastIndexOf(name, '.');
    if 0 <= dot && !AllDots(name[..dot]) then
      SuffixOfSuffix(p, name, dot);
      name[dot..]
    else
      []
  }

  /**
    The name has an extension: some dot in it has a character other than a
    dot before it.
   */
  predicate HasExtension(name: string) {
    exists i :: 0 <= i < |name| && name[i] == '.' && !AllDots(name[..i])
  }

  /** `splitext` returns a non-empty extension exactly when the basename has one. */
  lemma ExtensionIffHasExtension(p: string)
    ensures Extension(p) != [] <==> HasExtension(Basename(p))
  {
    var name := Basename(p);
    var dot := LastIndexOf(name, '.');
    LastDotStartsExtension(name);
    if 0 <= dot && !AllDots(name[..dot]) {
      assert Extension(p) == name[dot..];
      assert name[dot..][0] == '.';
    } else {
      assert Extension(p) == [];
    }
  }

  /** The last dot of `name` starts an extension exactly when some dot of `name` does. */
  lemma LastDotStartsExtension(name: string)
    ensures (0 <= LastIndexOf(name, '.') && !AllDots(name[..LastIndexOf(name, '.')])) <==> HasExtension(name)
  {
    var d := LastIndexOf(name, '.');
    if 0 <= d && !AllDots(name[..d]) {
      assert name[d] == '.';
    }
    if HasExtension(name) {
      var i :| 0 <= i < |name| && name[i] == '.' && !AllDots(name[..i]);
      assert i <= d;
      var j :| 0 <= j < i && name[..i][j] != '.';
      assert name[..d][j] == name[j];
    }
  }

  /** A suffix of a suffix of `p` is a suffix of `p`. */
  lemma SuffixOfSuffix(p: string, name: string, k: nat)
    requires |name| <= |p| && name == p[|p| - |name|..]
    requires k <= |name|
    ensures name[k..] == p[|p| - (|name| - k)..]
    ensures forall c :: c in name[k..] ==> c in name
  {
  }

  /** A path without a slash is its own basename. */
  lemma {:induction false} BasenameOfSlashFree(p: string)
    requires '/' !in p
    ensures Basename(p) == p
    decreases |p|
  {
    if p != [] {
      assert forall c :: c in p[..|p| - 1] ==> c in p;
      BasenameOfSlashFree(p[..|p| - 1]);
    }
  }

  /** The basename of a directory joined to a slash-free name is that name. */
  lemma {:induction false} BasenameAfterSlash(dir: string, name: string)
    requires '/' !in name
    ensures Basename(dir + "/" + name) == name
    decreases |name|
  {
    var p := dir + "/" + name;
    if name != [] {
      assert forall c :: c in name[..|name| - 1] ==> c in name;
      BasenameAfterSlash(dir, name[..|name| - 1]);
      assert p[..|p| - 1] == dir + "/" + name[..|name| - 1];
    }
  }

  /** `splitext` example: "a.txt" has the extension ".txt". */
  lemma ExtensionOfTxt()
    ensures Extension("a.txt") == ".txt"
  {
    var name := "a.txt";
    BasenameOfSlashFree(name);
    assert name[1] == '.' && name[2] != '.' && name[3] != '.' && name[4] != '.';
    assert LastIndexOf(name, '.') == 1;
    assert name[..1][0] == 'a';
  }

  /** `splitext` example: "out/a.md" has the extension ".md". */
  lemma ExtensionOfMd()
    ensures Extension("out/a.md") == ".md"
  {
    var name := "a.md";
    BasenameAfterSlash("out", name);
    assert "out" + "/" + name == "out/a.md";
    assert name[1] == '.' && name[2] != '.' && name[3] != '.';
    assert LastIndexOf(name, '.') == 1;
    assert name[..1][0] == 'a';
  }

  /** `splitext` example: the dot that leads ".bashrc" does not start an extension. */
  lemma ExtensionOfDotFile()
    ensures Extension(".bashrc") == ""
  {
    var name := ".bashrc";
    BasenameOfSlashFree(name);
    assert name[0] == '.' && forall j :: 0 < j < |name| ==> name[j] != '.';
    assert LastIndexOf(name, '.') == 0;
  }

  /** The path names a root-relative location (it starts with a slash). */
  predicate IsAbsolute(p: string) {
    |p| > 0 && p[0] == '/'
  }

  /**
    POSIX `os.path.join(a, b)` for two components: an absolute `b` replaces
    `a`; otherwise `b` is appended after a single slash.
   */
  function Join(a: string, b: string): (r: string)
    ensures |b| <= |r| && r[|r| - |b|..] == b
    ensures IsAbsolute(b) ==> r == b
    ensures !IsAbsolute(b) ==> a <= r
    ensures !IsAbsolute(b) && |a| > 0 && a[|a| - 1] == '/' ==> r == a + b
    ensures !IsAbsolute(b) && |a| > 0 && a[|a| - 1] != '/' ==> r == a + "/" + b
    ensures !IsAbsolute(b) && a == [] ==> r == b
  {
    if IsAbsolute(b) then b
    else if a == [] || a[|a| - 1] == '/' then a + b
    else a + "/" + b
  }
}
