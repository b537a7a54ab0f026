/** POSIX path strings as `posixpath` treats them, and the sandbox's lexical path confinement. */
module Paths {
  import opened Prelude

  const SEP := '/'
  const NUL := '\0'

  // ---------------------------------------------------------------- posixpath

  /** `s.split("/")`. */
  function Split(s: string): (parts: seq<string>)
    ensures parts != []
  {
    if s == "" then [""]
    else
      var rest := Split(s[1..]);
      if s[0] == SEP then [""] + rest else [[s[0]] + rest[0]] + rest[1..]
  }

  /** `"/".join(parts)`. */
  function JoinSlash(parts: seq<string>): string {
    if parts == [] then "" else if |parts| == 1 then parts[0] else parts[0] + [SEP] + JoinSlash(parts[1..])
  }

  /** The root a path starts with: exactly two slashes are a root of their own (IEEE Std 1003.1,
      section 4.13), any other number of leading slashes is one. */
  function Root(path: string): string {
    if path == "" || path[0] != SEP then ""
    else if |path| >= 2 && path[1] == SEP && (|path| == 2 || path[2] != SEP) then "//"
    else "/"
  }

  /** One component in `normpath`. */
  function Push(rooted: bool, stack: seq<string>, comp: string): seq<string> {
    if comp == "" || comp == "." then stack
    else if comp != ".." || (!rooted && stack == []) || (stack != [] && stack[|stack| - 1] == "..") then stack + [comp]
    else if stack != [] then stack[..|stack| - 1]
    else stack
  }

  function PushAll(rooted: bool, stack: seq<string>, comps: seq<string>): seq<string>
    decreases |comps|
  {
    if comps == [] then stack else PushAll(rooted, Push(rooted, stack, comps[0]), comps[1..])
  }

  /** The components `normpath` keeps. */
  function Components(path: string): seq<string> {
    PushAll(Root(path) != "", [], Split(path[|Root(path)|..]))
  }

  function NormPath(path: string): string {
    var normal := Root(path) + JoinSlash(Components(path));
    if normal == "" then "." else normal
  }

  /** `posixpath.join` of two paths. */
  function Join(a: string, b: string): string {
    if b != "" && b[0] == SEP then b
    else if a == "" || a[|a| - 1] == SEP then a + b
    else a + [SEP] + b
  }

  // ---------------------------------------------------------------- _safe_path

  datatype PathError = HasNul | NotInside | Escapes

  predicate StartsWith(s: string, prefix: string) { prefix <= s }

  /** `_safe_path`. */
  function SafePath(workdir: string, path: string): Result<string, PathError> {
    if NUL in path then Err(HasNul)
    else
      var base := NormPath(workdir);
      var raw := if path != "" && path[0] == SEP then path else Join(base, path);
      var normal := NormPath(raw);
      if normal == "." || normal == "/" then Err(NotInside)
      else if normal != base && !StartsWith(normal, base + [SEP]) then Err(Escapes)
      else Ok(normal)
  }

  // ---------------------------------------------------------------- component walk

  /** A proper name of a file or directory. */
  predicate IsName(comp: string) { comp != "" && comp != "." && comp != ".." && SEP !in comp }

  predicate AreNames(comps: seq<string>) { forall c <- comps :: IsName(c) }

  /** Walking from a position in the tree, step by step; `..` at the top stays there. */
  function Walk(position: seq<string>, comps: seq<string>): seq<string>
    decreases |comps|
  {
    if comps == [] then position
    else if comps[0] == "" || comps[0] == "." then Walk(position, comps[1..])
    else if comps[0] == ".." then Walk(if position == [] then [] else position[..|position| - 1], comps[1..])
    else Walk(position + [comps[0]], comps[1..])
  }

  predicate Absolute(path: string) { path != "" && path[0] == SEP }

  /** Where a path leads from the working directory `base`. */
  function Target(base: seq<string>, path: string): seq<string> {
    if Absolute(path) then Walk([], Split(path[|Root(path)|..])) else Walk(base, Split(path))
  }

  // ---------------------------------------------------------------- splitting and joining

  predicate NoSlash(comps: seq<string>) { forall c <- comps :: SEP !in c }

  lemma {:induction false} SplitNoSlash(s: string)
    ensures NoSlash(Split(s))
  {
    if s != "" {
      SplitNoSlash(s[1..]);
      var rest := Split(s[1..]);
      assert rest[0] in rest;
    }
  }

  lemma {:induction false} SplitPlain(s: string)
    requires SEP !in s
    ensures Split(s) == [s]
  {
    if s != "" {
      assert s[0] in s;
      SplitPlain(s[1..]);
      assert [s[0]] + s[1..] == s;
    }
  }

  lemma SplitStep(c: char, s: string)
    ensures Split([c] + s) == if c == SEP then [""] + Split(s) else [[c] + Split(s)[0]] + Split(s)[1..]
  {
    assert ([c] + s)[1..] == s;
  }

  lemma {:induction false} SplitAt(a: string, b: string)
    ensures Split(a + [SEP] + b) == Split(a) + Split(b)
  {
    if a == "" {
      assert a + [SEP] + b == [SEP] + b;
      SplitStep(SEP, b);
    } else {
      SplitAt(a[1..], b);
      assert a + [SEP] + b == [a[0]] + (a[1..] + [SEP] + b);
      SplitStep(a[0], a[1..] + [SEP] + b);
      assert a == [a[0]] + a[1..];
      SplitStep(a[0], a[1..]);
      HeadOfJoin(a[0], Split(a[1..]), Split(b));
    }
  }

  lemma HeadOfJoin(c: char, x: seq<string>, y: seq<string>)
    requires x != []
    ensures [[c] + (x + y)[0]] + (x + y)[1..] == [[c] + x[0]] + x[1..] + y
    ensures [""] + (x + y) == [""] + x + y
  {
  }

  lemma {:induction false} SplitJoin(comps: seq<string>)
    requires comps != [] && NoSlash(comps)
    ensures Split(JoinSlash(comps)) == comps
  {
    SplitPlain(comps[0]);
    if |comps| > 1 {
      SplitAt(comps[0], JoinSlash(comps[1..]));
      SplitJoin(comps[1..]);
    }
  }

  lemma {:induction false} JoinConcat(a: seq<string>, b: seq<string>)
    requires a != [] && b != []
    ensures JoinSlash(a + b) == JoinSlash(a) + [SEP] + JoinSlash(b)
  {
    if |a| == 1 {
      assert (a + b)[1..] == b;
    } else {
      JoinConcat(a[1..], b);
      assert (a + b)[1..] == a[1..] + b;
    }
  }

  /** The joined names start with no slash and end with none. */
  lemma {:induction false} JoinEnds(comps: seq<string>)
    requires comps != [] && AreNames(comps)
    ensures var s := JoinSlash(comps); s != "" && s[0] != SEP && s[|s| - 1] != SEP && s[0] == comps[0][0]
  {
    assert comps[0] in comps && comps[0][0] in comps[0] && comps[0][|comps[0]| - 1] in comps[0];
    if |comps| > 1 { JoinEnds(comps[1..]); }
  }

  // ---------------------------------------------------------------- walking

  lemma {:induction false} WalkIsPush(position: seq<string>, comps: seq<string>)
    requires AreNames(position) && NoSlash(comps)
    ensures PushAll(true, position, comps) == Walk(position, comps) && AreNames(Walk(position, comps))
    decreases |comps|
  {
    if comps != [] {
      assert comps[0] in comps;
      var next := Push(true, position, comps[0]);
      assert position != [] ==> position[|position| - 1] in position;
      WalkIsPush(next, comps[1..]);
    }
  }

  lemma {:induction false} WalkConcat(position: seq<string>, a: seq<string>, b: seq<string>)
    ensures Walk(position, a + b) == Walk(Walk(position, a), b)
    decreases |a|
  {
    if a == [] {
      assert a + b == b;
    } else {
      assert (a + b)[1..] == a[1..] + b;
      var next := if a[0] == "" || a[0] == "." then position
                  else if a[0] == ".." then if position == [] then [] else position[..|position| - 1]
                  else position + [a[0]];
      WalkConcat(next, a[1..], b);
    }
  }

  lemma {:induction false} WalkNames(position: seq<string>, names: seq<string>)
    requires AreNames(names)
    ensures Walk(position, names) == position + names
    decreases |names|
  {
    if names != [] {
      assert names[0] in names;
      WalkNames(position + [names[0]], names[1..]);
      assert position + [names[0]] + names[1..] == position + names;
    } else {
      assert position + names == position;
    }
  }

  // ---------------------------------------------------------------- normal forms of absolute paths

  /** The path with root `root` and components `names`. */
  function Render(root: string, names: seq<string>): string { root + JoinSlash(names) }

  lemma NormAbsolute(path: string)
    requires Absolute(path)
    ensures var names := Walk([], Split(path[|Root(path)|..]));
            AreNames(names) && Components(path) == names && NormPath(path) == Render(Root(path), names)
  {
    SplitNoSlash(path[|Root(path)|..]);
    WalkIsPush([], Split(path[|Root(path)|..]));
  }

  /** A rendered path has the root and the components it was made of. */
  lemma RenderParts(root: string, names: seq<string>)
    requires (root == "/" || root == "//") && names != [] && AreNames(names)
    ensures var path := Render(root, names);
            && Absolute(path) && Root(path) == root && path[|root|..] == JoinSlash(names)
            && Split(path[|root|..]) == names && path[|path| - 1] != SEP
  {
    JoinEnds(names);
    SplitJoin(names);
  }

  /** Rendered paths are normal forms. */
  lemma RenderIsNormal(root: string, names: seq<string>)
    requires (root == "/" || root == "//") && names != [] && AreNames(names)
    ensures NormPath(Render(root, names)) == Render(root, names)
    ensures Components(Render(root, names)) == names
  {
    RenderParts(root, names);
    NormAbsolute(Render(root, names));
    WalkNames([], names);
    assert [] + names == names;
  }

  // ---------------------------------------------------------------- inside means component prefix

  lemma PrefixOfNames(base: seq<string>, names: seq<string>)
    requires base != [] && AreNames(base) && AreNames(names) && base <= names
    ensures JoinSlash(names) == JoinSlash(base) || StartsWith(JoinSlash(names), JoinSlash(base) + [SEP])
  {
    if base != names {
      assert names == base + names[|base|..];
      JoinConcat(base, names[|base|..]);
    } else {
      assert names == base;
    }
  }

  lemma SplitBelow(base: string, path: string)
    requires base + [SEP] <= path
    ensures Split(base) <= Split(path)
  {
    var tail := path[|base| + 1..];
    assert path == base + [SEP] + tail;
    SplitAt(base, tail);
  }

  lemma NamesOfPrefix(base: seq<string>, names: seq<string>)
    requires base != [] && AreNames(base) && AreNames(names)
    requires JoinSlash(names) == JoinSlash(base) || StartsWith(JoinSlash(names), JoinSlash(base) + [SEP])
    ensures base <= names
  {
    SplitJoin(base);
    if names != [] { SplitJoin(names); } else { JoinEnds(base); }
    if StartsWith(JoinSlash(names), JoinSlash(base) + [SEP]) {
      SplitBelow(JoinSlash(base), JoinSlash(names));
    }
  }

  /** The string test of `_safe_path` says that the roots agree and one path is below the other. */
  lemma InsideExactly(r: string, base: seq<string>, r': string, names: seq<string>)
    requires (r == "/" || r == "//") && (r' == "/" || r' == "//")
    requires base != [] && AreNames(base) && AreNames(names)
    ensures var wd, normal := Render(r, base), Render(r', names);
            (normal == wd || StartsWith(normal, wd + [SEP])) <==> r == r' && base <= names
  {
    var wd, normal := Render(r, base), Render(r', names);
    JoinEnds(base);
    if names != [] { JoinEnds(names); }
    if r == r' {
      assert normal[|r|..] == JoinSlash(names) && wd[|r|..] == JoinSlash(base);
      assert (wd + [SEP])[|r|..] == JoinSlash(base) + [SEP];
      if base <= names { PrefixOfNames(base, names); }
      if normal == wd || StartsWith(normal, wd + [SEP]) {
        assert StartsWith(normal, wd + [SEP]) ==> StartsWith(normal[|r|..], (wd + [SEP])[|r|..]);
        NamesOfPrefix(base, names);
      }
    } else {
      assert wd[1] == (if r == "//" then SEP else JoinSlash(base)[0]);
      assert |normal| > 1 ==> normal[1] == (if r' == "//" then SEP else JoinSlash(names)[0]);
      assert (wd + [SEP])[1] == wd[1];
    }
  }

  // ---------------------------------------------------------------- the confinement theorem

  /** `workdir` is absolute and not the root of its tree. */
  predicate ProperWorkdir(workdir: string) { Absolute(workdir) && Components(workdir) != [] }

  lemma RawNormal(workdir: string, path: string)
    requires ProperWorkdir(workdir)
    ensures var base := NormPath(workdir);
            var raw := if Absolute(path) then path else Join(base, path);
            var root := if Absolute(path) then Root(path) else Root(workdir);
            var names := Target(Components(workdir), path);
            AreNames(names) && NormPath(raw) == Render(root, names)
  {
    NormAbsolute(workdir);
    var w, r := Components(workdir), Root(workdir);
    if Absolute(path) {
      NormAbsolute(path);
    } else {
      RenderParts(r, w);
      var raw := Render(r, w) + [SEP] + path;
      assert Join(NormPath(workdir), path) == raw;
      JoinEnds(w);
      assert Root(raw) == r;
      assert raw[|r|..] == JoinSlash(w) + [SEP] + path;
      SplitAt(JoinSlash(w), path);
      NormAbsolute(raw);
      WalkConcat([], w, Split(path));
      WalkNames([], w);
      assert [] + w == w;
    }
  }

  /** `_safe_path` accepts a path exactly if it has no NUL, is under the same root, and walking its
      components ends at or below the working directory; the result is where the walk ends. */
  lemma ConfinedExactly(workdir: string, path: string)
    requires ProperWorkdir(workdir)
    ensures var w, names := Components(workdir), Target(Components(workdir), path);
            && (SafePath(workdir, path).Ok? <==>
                  NUL !in path && (Absolute(path) ==> Root(path) == Root(workdir)) && w <= names)
            && (SafePath(workdir, path).Ok? ==> SafePath(workdir, path) == Ok(Render(Root(workdir), names)))
  {
    var w, names := Components(workdir), Target(Components(workdir), path);
    var root := if Absolute(path) then Root(path) else Root(workdir);
    NormAbsolute(workdir);
    RawNormal(workdir, path);
    InsideExactly(Root(workdir), w, root, names);
    if names != [] { JoinEnds(names); }
  }

  /** A path with exactly two leading slashes is rejected by a working directory with one. */
  lemma TwoSlashesRejected(workdir: string, path: string)
    requires ProperWorkdir(workdir) && Root(workdir) == "/" && Root(path) == "//"
    ensures SafePath(workdir, path).Err?
  {
    ConfinedExactly(workdir, path);
  }

  // ---------------------------------------------------------------- no NUL comes in

  predicate LackNul(comps: seq<string>) { forall c <- comps :: NUL !in c }

  lemma {:induction false} SplitLacksNul(s: string)
    requires NUL !in s
    ensures LackNul(Split(s))
  {
    if s != "" {
      SplitLacksNul(s[1..]);
      var rest := Split(s[1..]);
      assert rest[0] in rest && s[0] in s;
    }
  }

  lemma {:induction false} WalkLacksNul(position: seq<string>, comps: seq<string>)
    requires LackNul(position) && LackNul(comps)
    ensures LackNul(Walk(position, comps))
    decreases |comps|
  {
    if comps != [] {
      assert comps[0] in comps;
      var next := if comps[0] == "" || comps[0] == "." then position
                  else if comps[0] == ".." then if position == [] then [] else position[..|position| - 1]
                  else position + [comps[0]];
      WalkLacksNul(next, comps[1..]);
    }
  }

  lemma {:induction false} JoinLacksNul(comps: seq<string>)
    requires LackNul(comps)
    ensures NUL !in JoinSlash(comps)
  {
    if comps != [] {
      assert comps[0] in comps;
      if |comps| > 1 { JoinLacksNul(comps[1..]); }
    }
  }

  lemma TargetLacksNul(workdir: string, path: string)
    requires ProperWorkdir(workdir) && NUL !in workdir && NUL !in path
    ensures LackNul(Target(Components(workdir), path))
  {
    NormAbsolute(workdir);
    SplitLacksNul(workdir[|Root(workdir)|..]);
    WalkLacksNul([], Split(workdir[|Root(workdir)|..]));
    if Absolute(path) {
      SplitLacksNul(path[|Root(path)|..]);
      WalkLacksNul([], Split(path[|Root(path)|..]));
    } else {
      SplitLacksNul(path);
      WalkLacksNul(Components(workdir), Split(path));
    }
  }

  /** What `_safe_path` returns has only proper names, and is a fixed point of it. */
  lemma SafePathCanonical(workdir: string, path: string)
    requires ProperWorkdir(workdir) && NUL !in workdir && SafePath(workdir, path).Ok?
    ensures var p := SafePath(workdir, path).value;
            && AreNames(Components(p)) && Components(workdir) <= Components(p)
            && NormPath(p) == p && SafePath(workdir, p) == Ok(p)
  {
    ConfinedExactly(workdir, path);
    RawNormal(workdir, path);
    NormAbsolute(workdir);
    var r, names := Root(workdir), Target(Components(workdir), path);
    RenderIsNormal(r, names);
    RenderParts(r, names);
    var p := Render(r, names);
    WalkNames([], names);
    assert [] + names == names;
    assert Target(Components(workdir), p) == names;
    TargetLacksNul(workdir, path);
    JoinLacksNul(names);
    ConfinedExactly(workdir, p);
  }

  /** With `/` itself as working directory only paths with exactly two leading slashes are accepted. */
  lemma RootWorkdir(path: string)
    ensures SafePath("/", path).Ok? <==> NUL !in path && Root(path) == "//"
  {
    assert NormPath("/") == "/" by {
      assert "/"[1..] == "" && Split("") == [""] && [""][1..] == [];
      assert PushAll(true, [], [""]) == [];
    }
    var raw := if Absolute(path) then path else Join("/", path);
    assert Absolute(raw) && (Absolute(path) || Root(raw) == "/");
    NormAbsolute(raw);
    var names := Components(raw);
    var normal := Render(Root(raw), names);
    if names != [] { JoinEnds(names); }
    assert NormPath(raw) == normal;
    assert ['/'] + [SEP] == "//" == "/" + [SEP];
    if Root(raw) == "//" {
      assert normal[..2] == "//";
    } else {
      assert |normal| >= 2 ==> normal[1] == JoinSlash(names)[0];
    }
  }
}
