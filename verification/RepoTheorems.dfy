/** Files of a cloned repository land inside the destination, and the archive checks are exact. */
module RepoTheorems {
  import opened Prelude
  import opened Paths
  import opened RepoArchive

  // ---------------------------------------------------------------- relative normal forms

  /** Names, after a run of `..` that nothing can undo. */
  predicate UpThenDown(stack: seq<string>) {
    && (forall i | 0 <= i < |stack| :: stack[i] == ".." || IsName(stack[i]))
    && (forall i, j | 0 <= i < j < |stack| :: stack[j] == ".." ==> stack[i] == "..")
  }

  lemma {:induction false} PushKeepsShape(stack: seq<string>, comps: seq<string>)
    requires UpThenDown(stack) && NoSlash(comps)
    ensures UpThenDown(PushAll(false, stack, comps))
    decreases |comps|
  {
    if comps != [] {
      assert comps[0] in comps;
      PushKeepsShape(Push(false, stack, comps[0]), comps[1..]);
    }
  }

  /** Stays below where it starts, as the two string tests on normal forms say. */
  predicate Downward(path: string) {
    !Absolute(path) && NormPath(path) != ".." && !StartsWith(NormPath(path), "../")
  }

  lemma DotsShow(comps: seq<string>)
    requires comps != [] && comps[0] == ".."
    ensures JoinSlash(comps) == ".." || StartsWith(JoinSlash(comps), "../")
  {
    if |comps| > 1 { assert JoinSlash(comps)[..3] == "../"; }
  }

  lemma DownwardNames(path: string)
    requires Downward(path)
    ensures var c := Components(path);
            && AreNames(c)
            && NormPath(path) == (if c == [] then "." else JoinSlash(c))
            && Split(NormPath(path)) == (if c == [] then ["."] else c)
  {
    var c := Components(path);
    assert path[0..] == path;
    SplitNoSlash(path);
    PushKeepsShape([], Split(path));
    if c != [] {
      if c[0] == ".." { DotsShow(c); }
      forall x <- c ensures IsName(x) {}
      JoinEnds(c);
      SplitJoin(c);
    } else {
      SplitPlain(".");
    }
  }

  /** Names joined by slashes are their own normal form, and pass both tests. */
  lemma JoinedNamesNormal(names: seq<string>)
    requires names != [] && AreNames(names)
    ensures var p := JoinSlash(names); !Absolute(p) && Components(p) == names && NormPath(p) == p && Downward(p)
    ensures JoinSlash(names) != "." && !StartsWith(JoinSlash(names), "/")
  {
    JoinEnds(names);
    SplitJoin(names);
    var p := JoinSlash(names);
    assert p[0..] == p;
    PushNames([], names);
    assert [] + names == names;
    assert names[0] in names;
    FirstName(names);
  }

  lemma FirstName(names: seq<string>)
    requires names != [] && AreNames(names)
    ensures var p := JoinSlash(names); p != ".." && p != "." && !StartsWith(p, "../")
  {
    var p := JoinSlash(names);
    assert names[0] in names;
    SplitJoin(names);
    SplitPlain("..");
    SplitPlain(".");
    if StartsWith(p, "../") {
      assert p == ".." + [SEP] + p[3..];
      SplitAt("..", p[3..]);
    }
  }

  lemma {:induction false} PushNames(stack: seq<string>, names: seq<string>)
    requires AreNames(names)
    ensures PushAll(false, stack, names) == stack + names
    decreases |names|
  {
    if names != [] {
      assert names[0] in names;
      PushNames(stack + [names[0]], names[1..]);
      assert stack + [names[0]] + names[1..] == stack + names;
    } else {
      assert stack + names == stack;
    }
  }

  /** An accepted destination is a list of names. */
  lemma DestIsNames(dest: string)
    ensures SafeDest(dest).Ok? <==> NUL !in dest && Downward(dest) && Components(dest) != []
    ensures SafeDest(dest).Ok? ==> AreNames(Components(dest)) && SafeDest(dest) == Ok(JoinSlash(Components(dest)))
  {
    if Downward(dest) {
      DownwardNames(dest);
      if Components(dest) != [] { JoinedNamesNormal(Components(dest)); JoinEnds(Components(dest)); }
    }
  }

  // ---------------------------------------------------------------- normal forms keep the meaning

  /** Wherever one starts, walking what `normpath` has put on its stack is walking what it was given. */
  lemma {:induction false} PushWalks(base: seq<string>, stack: seq<string>, comps: seq<string>)
    requires UpThenDown(stack) && NoSlash(comps)
    ensures Walk(base, PushAll(false, stack, comps)) == Walk(base, stack + comps)
    decreases |comps|
  {
    if comps == [] {
      assert stack + comps == stack;
    } else {
      assert comps[0] in comps;
      PushWalks(base, Push(false, stack, comps[0]), comps[1..]);
      OnePushWalks(base, stack, comps[0]);
      SameWalk(base, Push(false, stack, comps[0]), stack + [comps[0]], comps[1..]);
      FrontMoved(stack, comps);
    }
  }

  lemma FrontMoved(stack: seq<string>, comps: seq<string>)
    requires comps != []
    ensures stack + [comps[0]] + comps[1..] == stack + comps
  {
  }

  lemma SameWalk(base: seq<string>, a: seq<string>, b: seq<string>, rest: seq<string>)
    requires Walk(base, a) == Walk(base, b)
    ensures Walk(base, a + rest) == Walk(base, b + rest)
  {
    WalkConcat(base, a, rest);
    WalkConcat(base, b, rest);
  }

  lemma OnePushWalks(base: seq<string>, stack: seq<string>, comp: string)
    requires UpThenDown(stack)
    ensures Walk(base, Push(false, stack, comp)) == Walk(base, stack + [comp])
  {
    WalkConcat(base, stack, [comp]);
    assert [comp][1..] == [];
    if comp == ".." && stack != [] && stack[|stack| - 1] != ".." {
      var init, name := stack[..|stack| - 1], stack[|stack| - 1];
      WalkConcat(base, init, [name]);
      assert stack == init + [name] && [name][1..] == [];
      assert (Walk(base, init) + [name])[..|Walk(base, init)|] == Walk(base, init);
    }
  }

  /** A relative path leads down along `names`, wherever one starts. */
  ghost predicate LeadsDown(path: string, names: seq<string>) {
    forall base: seq<string> :: Walk(base, Split(path)) == base + names
  }

  lemma ComponentsWalk(path: string, base: seq<string>)
    requires !Absolute(path)
    ensures Walk(base, Components(path)) == Walk(base, Split(path))
  {
    SplitNoSlash(path);
    assert path[0..] == path && [] + Split(path) == Split(path);
    PushWalks(base, [], Split(path));
  }

  lemma NotEmpty(c: seq<string>)
    requires c != [] && UpThenDown(c)
    ensures JoinSlash(c) != "" && NoSlash(c)
  {
    assert c[0] != "";
  }

  lemma DotsFirst(c: seq<string>)
    requires c != [] && UpThenDown(c) && (JoinSlash(c) == ".." || StartsWith(JoinSlash(c), "../"))
    ensures c[0] == ".."
  {
    NotEmpty(c);
    SplitJoin(c);
    SplitPlain("..");
    if JoinSlash(c) != ".." {
      assert JoinSlash(c) == ".." + [SEP] + JoinSlash(c)[3..];
      SplitAt("..", JoinSlash(c)[3..]);
    }
  }

  /** A normal form that the string tests refuse starts with two dots. */
  lemma UpwardStarts(path: string)
    requires !Absolute(path) && !Downward(path)
    ensures Components(path) != [] && Components(path)[0] == ".."
  {
    var c := Components(path);
    assert path[0..] == path;
    SplitNoSlash(path);
    PushKeepsShape([], Split(path));
    if c != [] {
      NotEmpty(c);
      DotsFirst(c);
    }
  }

  /** The two string tests accept a relative path exactly if it leads down, wherever one starts, and then
      its normal form consists of the names it leads along. */
  lemma DownwardExactly(path: string, names: seq<string>)
    requires !Absolute(path)
    ensures LeadsDown(path, names) <==> Downward(path) && Components(path) == names
  {
    var c := Components(path);
    forall base: seq<string> ensures Walk(base, c) == Walk(base, Split(path)) { ComponentsWalk(path, base); }
    if Downward(path) {
      DownwardNames(path);
      forall base: seq<string> ensures Walk(base, Split(path)) == base + c { WalkNames(base, c); }
      assert [] + c == c && [] + names == names;
      if LeadsDown(path, names) { assert Walk([], Split(path)) == [] + names; }
    } else {
      UpwardStarts(path);
      assert Walk(["x"], c) == Walk([], c[1..]) == Walk(["y"], c);
      assert (["x"] + names)[0] == "x" && (["y"] + names)[0] == "y";
      assert !(Walk(["x"], Split(path)) == ["x"] + names && Walk(["y"], Split(path)) == ["y"] + names);
    }
  }

  /** A destination is accepted exactly if it has no NUL, is relative, and leads strictly down wherever one
      starts; the result spells the names that it leads along. */
  lemma DestExactly(dest: string)
    ensures SafeDest(dest).Ok?
       <==> NUL !in dest && !Absolute(dest) && exists names: seq<string> :: names != [] && LeadsDown(dest, names)
    ensures forall names: seq<string> | SafeDest(dest).Ok? && LeadsDown(dest, names) ::
              SafeDest(dest) == Ok(JoinSlash(names))
  {
    DestIsNames(dest);
    if !Absolute(dest) {
      forall names: seq<string> ensures LeadsDown(dest, names) <==> Downward(dest) && Components(dest) == names {
        DownwardExactly(dest, names);
      }
      assert Downward(dest) ==> LeadsDown(dest, Components(dest));
    }
  }

  // ---------------------------------------------------------------- the archive loop

  lemma {:induction false} JoinAllNames(a: seq<string>, rest: seq<string>)
    requires a != [] && AreNames(a) && AreNames(rest)
    ensures JoinAll(JoinSlash(a), rest) == JoinSlash(a + rest)
    decreases |rest|
  {
    if rest != [] {
      assert rest[0] in rest;
      assert rest[0][0] in rest[0];
      JoinEnds(a);
      JoinConcat(a, [rest[0]]);
      JoinAllNames(a + [rest[0]], rest[1..]);
      assert a + [rest[0]] + rest[1..] == a + rest;
    } else {
      assert a + rest == a;
    }
  }

  predicate FileFits(m: Member) {
    m.kind.Regular? && m.size <= MAX_FILE_BYTES && m.data.Some? && |m.data.value| <= MAX_FILE_BYTES
  }

  /** The relative path of a member: its components below the archive's root. */
  lemma ExaminePath(m: Member, parts: seq<string>)
    requires |parts| > 1 && AreNames(parts)
    ensures NormPath(JoinAll(parts[1], parts[2..])) == JoinSlash(parts[1..])
    ensures Examine(m, parts) != Err(UnsafeRepositoryPath)
    ensures Examine(m, parts).Ok? <==> m.kind.Directory? || FileFits(m)
    ensures Examine(m, parts).Ok? ==>
              Examine(m, parts).value
                == if m.kind.Regular? then Some(File(JoinSlash(parts[1..]), m.data.value)) else None
  {
    assert parts[1] in parts;
    JoinAllNames([parts[1]], parts[2..]);
    assert [parts[1]] + parts[2..] == parts[1..];
    JoinedNamesNormal(parts[1..]);
  }

  /** The first component of a member, `.` for the archive itself. */
  function Head(m: Member): string {
    if Components(m.name) == [] then "." else Components(m.name)[0]
  }

  predicate Deep(m: Member) { |Components(m.name)| > 1 }

  /** The checks on one member, apart from the root and the totals. */
  predicate Sound(m: Member) {
    && Downward(m.name)
    && (Deep(m) ==> m.kind.Directory? || FileFits(m))
  }

  /** The file a sound member contributes. */
  function Contribution(m: Member): seq<File>
    requires Sound(m)
  {
    if Deep(m) && m.kind.Regular? then [File(JoinSlash(Components(m.name)[1..]), m.data.value)] else []
  }

  lemma AdmitExactly(root: Option<string>, m: Member)
    ensures Admit(root, m).Ok? <==> Sound(m) && (root.Some? ==> root.value == Head(m))
    ensures Admit(root, m).Ok? ==>
              && Admit(root, m).value.0 == Head(m)
              && Contribution(m) == (match Admit(root, m).value.1 case None => [] case Some(f) => [f])
    ensures Admit(root, m) != Err(UnsafeRepositoryPath)
  {
    if Downward(m.name) {
      DownwardNames(m.name);
      AdmitDownward(root, m, Components(m.name));
      if Deep(m) { ExaminePath(m, Components(m.name)); }
    }
  }

  /** A turn of the loop by the components of the member's name. */
  lemma AdmitDownward(root: Option<string>, m: Member, c: seq<string>)
    requires Downward(m.name) && Split(NormPath(m.name)) == (if c == [] then ["."] else c)
    ensures var head := if c == [] then "." else c[0];
            Admit(root, m) ==
              if root.Some? && root.value != head then Err(SeveralRoots)
              else if |c| <= 1 then Ok((head, None))
              else match Examine(m, c) case Err(e) => Err(e) case Ok(file) => Ok((head, file))
  {
  }

  /** What the checks say of one member: unsound, or its root and the files it contributes. */
  datatype Verdict = Bad | Good(head: string, files: seq<File>)

  function Judge(m: Member): Verdict { if Sound(m) then Good(Head(m), Contribution(m)) else Bad }

  function Judged(members: seq<Member>): seq<Verdict> {
    if members == [] then [] else [Judge(members[0])] + Judged(members[1..])
  }

  /** Every member is sound and under the one root. */
  predicate AllGood(root: Option<string>, verdicts: seq<Verdict>) {
    forall i | 0 <= i < |verdicts| ::
      verdicts[i].Good? && verdicts[0].Good?
      && verdicts[i].head == (if root.Some? then root.value else verdicts[0].head)
  }

  function Contributions(verdicts: seq<Verdict>): seq<File> {
    if verdicts == [] then []
    else (if verdicts[0].Good? then verdicts[0].files else []) + Contributions(verdicts[1..])
  }

  lemma {:induction false} TotalOfMore(files: seq<File>, more: seq<File>)
    ensures TotalBytes(files) <= TotalBytes(files + more)
    decreases |more|
  {
    if more == [] {
      assert files + more == files;
    } else {
      TotalOfMore(files, more[..|more| - 1]);
      assert (files + more)[..|files + more| - 1] == files + more[..|more| - 1];
    }
  }

  /** The data of all the files, one after the other. */
  function AllData(files: seq<File>): Bytes {
    if files == [] then [] else files[0].data + AllData(files[1..])
  }

  lemma {:induction false} AllDataJoin(files: seq<File>, f: File)
    ensures |AllData(files + [f])| == |AllData(files)| + |f.data|
  {
    if files == [] {
      assert files + [f] == [f] && [f][1..] == [];
    } else {
      AllDataJoin(files[1..], f);
      assert (files + [f])[0] == files[0] && (files + [f])[1..] == files[1..] + [f];
    }
  }

  /** The running total is the length of all the data. */
  lemma {:induction false} TotalExactly(files: seq<File>)
    ensures TotalBytes(files) == |AllData(files)|
  {
    if files != [] {
      var n := |files| - 1;
      TotalExactly(files[..n]);
      AllDataJoin(files[..n], files[n]);
      assert files == files[..n] + [files[n]];
    }
  }

  predicate WithinLimits(files: seq<File>) { TotalBytes(files) <= MAX_TOTAL_BYTES && |files| <= MAX_FILES }

  predicate MayFollow(root: Option<string>, v: Verdict) { v.Good? && (root.Some? ==> root.value == v.head) }

  /** One turn of the loop. */
  lemma CollectStep(root: Option<string>, files: seq<File>, members: seq<Member>)
    requires members != [] && WithinLimits(files)
    ensures var v, r := Judge(members[0]), Collect(root, files, members);
            if !MayFollow(root, v) || !WithinLimits(files + v.files) then r.Err? && r.error != UnsafeRepositoryPath
            else r == Collect(Some(v.head), files + v.files, members[1..])
  {
    AdmitExactly(root, members[0]);
    assert files + [] == files;
  }

  /** The loop over verdicts: limits are checked as files are taken. */
  predicate Accepts(root: Option<string>, files: seq<File>, verdicts: seq<Verdict>)
    decreases |verdicts|
  {
    verdicts == []
    || (MayFollow(root, verdicts[0]) && WithinLimits(files + verdicts[0].files)
        && Accepts(Some(verdicts[0].head), files + verdicts[0].files, verdicts[1..]))
  }

  lemma AcceptsCons(root: Option<string>, files: seq<File>, v: Verdict, rest: seq<Verdict>)
    ensures Accepts(root, files, [v] + rest) <==>
              MayFollow(root, v) && WithinLimits(files + v.files) && Accepts(Some(v.head), files + v.files, rest)
    ensures v.Good? ==> files + Contributions([v] + rest) == files + v.files + Contributions(rest)
  {
    assert ([v] + rest)[1..] == rest;
    if v.Good? { assert files + (v.files + Contributions(rest)) == files + v.files + Contributions(rest); }
  }

  lemma {:induction false} CollectAccepts(root: Option<string>, files: seq<File>, members: seq<Member>)
    requires WithinLimits(files)
    ensures var r, verdicts := Collect(root, files, members), Judged(members);
            if Accepts(root, files, verdicts) then r == Ok(files + Contributions(verdicts))
            else r.Err? && r.error != UnsafeRepositoryPath
    decreases |members|, 1
  {
    if members == [] {
      assert files + [] == files;
    } else {
      CollectTurn(root, files, members[0], members[1..], Judge(members[0]));
      assert members == [members[0]] + members[1..];
    }
  }

  lemma {:induction false} CollectTurn(
    root: Option<string>, files: seq<File>, m: Member, rest: seq<Member>, v: Verdict)
    requires WithinLimits(files) && v == Judge(m)
    ensures var r, verdicts := Collect(root, files, [m] + rest), [v] + Judged(rest);
            if Accepts(root, files, verdicts) then r == Ok(files + Contributions(verdicts))
            else r.Err? && r.error != UnsafeRepositoryPath
    decreases |rest| + 1, 0
  {
    CollectStep(root, files, [m] + rest);
    assert ([m] + rest)[1..] == rest;
    AcceptsCons(root, files, v, Judged(rest));
    if MayFollow(root, v) && WithinLimits(files + v.files) {
      CollectAccepts(Some(v.head), files + v.files, rest);
    }
  }

  /** Checking the limits as files are taken is checking them at the end. */
  lemma {:induction false} AcceptsExactly(root: Option<string>, files: seq<File>, verdicts: seq<Verdict>)
    requires WithinLimits(files)
    ensures Accepts(root, files, verdicts) <==>
              AllGood(root, verdicts) && WithinLimits(files + Contributions(verdicts))
    decreases |verdicts|
  {
    if verdicts == [] {
      assert files + [] == files;
    } else {
      var v, rest := verdicts[0], verdicts[1..];
      AllGoodCons(root, verdicts);
      if MayFollow(root, v) {
        TotalOfMore(files + v.files, Contributions(rest));
        assert files + v.files + Contributions(rest) == files + Contributions(verdicts);
        if WithinLimits(files + v.files) { AcceptsExactly(Some(v.head), files + v.files, rest); }
      }
    }
  }

  lemma AllGoodCons(root: Option<string>, verdicts: seq<Verdict>)
    requires verdicts != []
    ensures AllGood(root, verdicts) <==>
              MayFollow(root, verdicts[0]) && AllGood(Some(verdicts[0].head), verdicts[1..])
  {
    if MayFollow(root, verdicts[0]) && AllGood(Some(verdicts[0].head), verdicts[1..]) {
      forall i | 0 < i < |verdicts| ensures verdicts[i].Good? && verdicts[i].head == verdicts[0].head {
        assert verdicts[i] == verdicts[1..][i - 1];
      }
    }
  }

  /** The loop succeeds exactly if every member is sound, all are under one root, and the files contributed
      are at most 2000, with at most 64 mebibytes of data in all; then it returns those files in order.
      The second check of a relative path never fires. */
  lemma ArchiveExactly(members: seq<Member>)
    ensures var r, files := Collect(None, [], members), Contributions(Judged(members));
            && r != Err(UnsafeRepositoryPath)
            && (r.Ok? <==> AllGood(None, Judged(members)) && |AllData(files)| <= 0x400_0000 && |files| <= 2000)
            && (r.Ok? ==> r == Ok(files))
  {
    TotalExactly(Contributions(Judged(members)));
    CollectAccepts(None, [], members);
    AcceptsExactly(None, [], Judged(members));
    assert [] + Contributions(Judged(members)) == Contributions(Judged(members));
  }

  // ---------------------------------------------------------------- where the files land

  lemma {:induction false} ContributionPaths(members: seq<Member>, f: File) returns (names: seq<string>)
    requires f in Contributions(Judged(members))
    ensures names != [] && AreNames(names) && f.path == JoinSlash(names)
  {
    var m := members[0];
    assert Judged(members)[0] == Judge(m) && Judged(members)[1..] == Judged(members[1..]);
    if Sound(m) && f in Contribution(m) {
      DownwardNames(m.name);
      names := Components(m.name)[1..];
    } else {
      names := ContributionPaths(members[1..], f);
    }
  }

  lemma JoinNames(a: seq<string>, b: seq<string>)
    requires a != [] && b != [] && AreNames(a) && AreNames(b)
    ensures Join(JoinSlash(a), JoinSlash(b)) == JoinSlash(a + b) == JoinSlash(a) + [SEP] + JoinSlash(b)
  {
    JoinEnds(a);
    JoinEnds(b);
    JoinConcat(a, b);
  }

  /** Writing below the working directory: the path is taken as it stands. */
  lemma WriteNames(workdir: string, names: seq<string>)
    requires ProperWorkdir(workdir) && names != [] && AreNames(names) && NUL !in JoinSlash(names)
    ensures SafePath(workdir, JoinSlash(names)) == Ok(NormPath(workdir) + [SEP] + JoinSlash(names))
    ensures Components(NormPath(workdir) + [SEP] + JoinSlash(names)) == Components(workdir) + names
  {
    var p, w := JoinSlash(names), Components(workdir);
    NormAbsolute(workdir);
    NamesWalk(w, names);
    ConfinedExactly(workdir, p);
    RenderBelow(Root(workdir), w, names);
    RenderIsNormal(Root(workdir), w + names);
  }

  lemma NamesWalk(w: seq<string>, names: seq<string>)
    requires names != [] && AreNames(names)
    ensures Target(w, JoinSlash(names)) == w + names && !Absolute(JoinSlash(names))
  {
    JoinedNamesNormal(names);
    SplitJoin(names);
    WalkNames(w, names);
  }

  lemma RenderBelow(root: string, w: seq<string>, names: seq<string>)
    requires w != [] && names != []
    ensures Render(root, w + names) == Render(root, w) + [SEP] + JoinSlash(names)
  {
    JoinConcat(w, names);
    var a, b := JoinSlash(w), JoinSlash(names);
    assert root + (a + [SEP] + b) == root + a + [SEP] + b;
  }

  /** Every file of an accepted archive, copied to an accepted destination, is written to exactly
      workdir/dest/path, a path of proper names only; a name with a NUL is refused. */
  lemma ClonedFilesLandInside(workdir: string, dest: string, members: seq<Member>, f: File)
    requires ProperWorkdir(workdir) && SafeDest(dest).Ok?
    requires Collect(None, [], members).Ok? && f in Collect(None, [], members).value
    ensures var d := SafeDest(dest).value;
            var landed := NormPath(workdir) + [SEP] + d + [SEP] + f.path;
            if NUL in f.path then SafePath(workdir, Join(d, f.path)) == Err(HasNul)
            else
              && SafePath(workdir, Join(d, f.path)) == Ok(landed)
              && AreNames(Components(landed))
              && Components(workdir) + Components(dest) <= Components(landed)
  {
    ArchiveExactly(members);
    DestIsNames(dest);
    DestLacksNul(dest);
    var names := ContributionPaths(members, f);
    if NUL !in f.path { LandInside(workdir, Components(dest), names); }
  }

  lemma LandInside(workdir: string, d: seq<string>, names: seq<string>)
    requires ProperWorkdir(workdir) && d != [] && names != [] && AreNames(d) && AreNames(names)
    requires NUL !in JoinSlash(d) && NUL !in JoinSlash(names)
    ensures var landed := NormPath(workdir) + [SEP] + JoinSlash(d) + [SEP] + JoinSlash(names);
            && SafePath(workdir, Join(JoinSlash(d), JoinSlash(names))) == Ok(landed)
            && AreNames(Components(landed))
            && Components(workdir) + d <= Components(landed)
  {
    JoinNames(d, names);
    WriteNames(workdir, d + names);
    Reassociate(NormPath(workdir), JoinSlash(d), JoinSlash(names));
    LandsOnNames(workdir, d, names);
  }

  lemma Reassociate(a: string, b: string, c: string)
    ensures a + [SEP] + (b + [SEP] + c) == a + [SEP] + b + [SEP] + c
  {
  }

  lemma LandsOnNames(workdir: string, d: seq<string>, names: seq<string>)
    requires ProperWorkdir(workdir) && AreNames(d) && AreNames(names)
    ensures AreNames(Components(workdir) + (d + names))
    ensures Components(workdir) + d <= Components(workdir) + (d + names)
  {
    NormAbsolute(workdir);
    assert Components(workdir) + (d + names) == Components(workdir) + d + names;
  }

  lemma DestLacksNul(dest: string)
    requires SafeDest(dest).Ok?
    ensures NUL !in SafeDest(dest).value
  {
    DestIsNames(dest);
    SplitLacksNul(dest);
    assert dest[0..] == dest;
    PushLacksNul([], Split(dest));
    JoinLacksNul(Components(dest));
  }

  lemma {:induction false} PushLacksNul(stack: seq<string>, comps: seq<string>)
    requires LackNul(stack) && LackNul(comps)
    ensures LackNul(PushAll(false, stack, comps))
    decreases |comps|
  {
    if comps != [] {
      assert comps[0] in comps;
      PushLacksNul(Push(false, stack, comps[0]), comps[1..]);
    }
  }
}
