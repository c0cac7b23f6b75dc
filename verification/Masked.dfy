/**
  When the record can be trusted and when installs recover, exactly, with
  anything failing anywhere: what an empty file does where a directory is.
 */
module Masked {
  import opened Bits
  import opened Installer
  import opened Recovery

  // ---- to any entry, and from the last --------------------------------------------------------

  /** A blank disk, then the first `r` entries of the image, nothing disturbing. */
  lemma {:induction false} ReachEntry(img: Image, r: nat) returns (run: seq<Step>)
    requires r <= |img.entries|
    ensures CanRun(BLANK, run) && UsesOnly(run, {img}) && Steady(run)
    ensures run != [] && run[0] == Begin(img) && Quiet(run[1..])
    ensures var s, u := After(BLANK, run), Unpacked(img.entries[..r]);
            s.dirs == map[img.ver := u] && s.pc == Unpacking(img, r, Fails(img.entries[..r])) && Rooted(u)
  {
    hide CanRun, After, Do, Enabled, Rooted, Apply, Counted, Unpacked, Fails;
    if r == 0 {
      run := UpToUnpack(img);
      NothingUnpacked(img.entries);
      assert Steady(run) && run[1..] == [Go] + [Go] + [Go];
    } else {
      var before := ReachEntry(img, r - 1);
      var s := After(BLANK, before);
      var more := DoEntry(s);
      Snoc(img.entries, r - 1);
      RunAppend(BLANK, before, more);
      run := before + more;
      QuietIsSteady(more, img);
      assert run[1..] == before[1..] + more;
    }
  }

  lemma NothingUnpacked(es: seq<Entry>)
    ensures Unpacked(es[..0]) == map[] && !Fails(es[..0]) && Rooted(Unpacked(es[..0]))
  {
  }

  lemma QuietIsSteady(run: seq<Step>, img: Image)
    requires Quiet(run)
    ensures Steady(run) && UsesOnly(run, {img})
  {
    forall i | 0 <= i < |run|
      ensures SteadyStep(run[i]) && !run[i].Begin?
    {
      assert QuietStep(run[i]);
    }
  }

  /** From the end of an unpack in which nothing was counted, to the end of the install. */
  lemma WriteTheRecord(s: State, d: Tree) returns (run: seq<Step>)
    requires s.pc.Unpacking? && s.pc.i == |s.pc.img.entries| && !s.pc.failed && RECORD !in d
    requires s.pc.img.ver in s.dirs && s.dirs[s.pc.img.ver] == d
    ensures CanRun(s, run) && Quiet(run)
    ensures var t := After(s, run);
            && t.pc.Idle? && t.report == Installed(s.pc.img.ver)
            && t.dirs == s.dirs[s.pc.img.ver := d[RECORD := File(s.pc.img.note)]]
  {
    hide CanRun, After;
    var img := s.pc.img;
    RunOne(s, Go);
    Extend(s, [Go], Go);
    assert d - {RECORD} == d;
    assert After(s, [Go] + [Go]).dirs == s.dirs;
    Extend(s, [Go] + [Go], Go);
    var r := [Go] + [Go] + [Go];
    var made: Tree := d[RECORD := File("")];
    assert After(s, r).dirs == s.dirs[img.ver := made];
    Extend(s, r, Go);
    assert made[RECORD := File(img.note)] == d[RECORD := File(img.note)];
    assert After(s, r + [Go]).dirs == s.dirs[img.ver := d[RECORD := File(img.note)]];
    var end := SetCurrent(After(s, r + [Go]));
    RunAppend(s, r + [Go], end);
    run := r + [Go] + end;
  }

  lemma SetCurrent(s: State) returns (run: seq<Step>)
    requires s.pc.DropCurrent?
    ensures CanRun(s, run) && Quiet(run)
    ensures var t := After(s, run); t.pc.Idle? && t.report == Installed(s.pc.img.ver) && t.dirs == s.dirs
  {
    hide CanRun, After;
    RunOne(s, Go);
    Extend(s, [Go], Go);
    Extend(s, [Go] + [Go], Go);
    run := [Go] + [Go] + [Go];
  }

  lemma ApplyMakesNoRecord(d: Tree, e: Entry)
    requires RECORD !in d && !MakesRecord(e)
    ensures RECORD !in Apply(d, e) && (!e.Whiteout? ==> RECORD !in WithParents(d, e.path))
  {
    hide Blocked, Occupied;
  }

  lemma {:induction false} NoRecordMade(img: Image, k: nat)
    requires !Ships(img) && k <= |img.entries|
    ensures RECORD !in Unpacked(img.entries[..k])
  {
    if k > 0 {
      hide Apply;
      NoRecordMade(img, k - 1);
      Snoc(img.entries, k - 1);
      assert !MakesRecord(img.entries[k - 1]);
      ApplyMakesNoRecord(Unpacked(img.entries[..k - 1]), img.entries[k - 1]);
    }
  }

  // ---- an empty file where a directory is -----------------------------------------------------

  /** No two entries have the same path, as in one layer. */
  predicate Once(es: seq<Entry>)
  {
    forall i, k :: 0 <= i < k < |es| ==> es[i].path != es[k].path
  }

  lemma ApplyKeepsOthers(d: Tree, e: Entry, q: Path)
    requires q in d && q != e.path
    ensures q in Apply(d, e) && Apply(d, e)[q] == d[q]
  {
    hide Blocked, Occupied;
  }

  /** What is unpacked stays as long as no entry has its path. */
  lemma {:induction false} Persists(es: seq<Entry>, k: nat, m: nat, q: Path)
    requires k <= m <= |es| && q in Unpacked(es[..k]) && forall x :: k <= x < m ==> es[x].path != q
    ensures q in Unpacked(es[..m]) && Unpacked(es[..m])[q] == Unpacked(es[..k])[q]
    decreases m
  {
    hide Apply, Unpacked;
    if k < m {
      Persists(es, k, m - 1, q);
      Snoc(es, m - 1);
      ApplyKeepsOthers(Unpacked(es[..m - 1]), es[m - 1], q);
    }
  }

  lemma {:induction false} FailsGrows(es: seq<Entry>, k: nat, m: nat)
    requires k <= m <= |es| && Fails(es[..k])
    ensures Fails(es[..m])
    decreases m
  {
    hide Fails, Unpacked, Counted;
    if k < m {
      FailsGrows(es, k, m - 1);
      Snoc(es, m - 1);
    }
  }

  lemma CountedFailsAll(es: seq<Entry>, k: nat)
    requires k < |es| && Counted(Unpacked(es[..k]), es[k])
    ensures Fails(es)
  {
    hide Counted, Unpacked, Fails;
    Snoc(es, k);
    FailsGrows(es, k + 1, |es|);
    assert es[..|es|] == es;
  }

  lemma ApplyMakesFile(d: Tree, e: Entry, q: Path)
    requires q in Apply(d, e) && Apply(d, e)[q].File?
    ensures (q in d && d[q].File?) || (e.Regular? && e.path == q)
  {
    hide Blocked, Occupied;
  }

  predicate MakesFile(es: seq<Entry>, k: nat, q: Path)
  {
    exists r :: 0 <= r < k && r < |es| && es[r].Regular? && es[r].path == q
  }

  lemma {:induction false} FilesComeFrom(es: seq<Entry>, k: nat, q: Path)
    requires k <= |es| && q in Unpacked(es[..k]) && Unpacked(es[..k])[q].File?
    ensures MakesFile(es, k, q)
    decreases k
  {
    if k > 0 {
      hide Apply;
      Snoc(es, k - 1);
      var d, e := Unpacked(es[..k - 1]), es[k - 1];
      ApplyMakesFile(d, e, q);
      if q in d && d[q].File? {
        FilesComeFrom(es, k - 1, q);
      }
    }
  }

  lemma ApplyMakesDir(d: Tree, e: Entry, p: Path)
    requires Needs(e, p) && (p in d ==> d[p].Dir?) && !Blocked(d, p)
    ensures p in Apply(d, e) && Apply(d, e)[p] == Dir
  {
    hide Blocked, Occupied;
  }

  lemma OnceOther(es: seq<Entry>, k: nat, m: nat)
    requires Once(es) && k < m < |es|
    ensures es[k].path != es[m].path
  {
  }

  lemma FileIsListed(es: seq<Entry>, k: nat, q: Path) returns (r: nat)
    requires k <= |es| && q in Unpacked(es[..k]) && Unpacked(es[..k])[q].File?
    ensures r < k && es[r].path == q
  {
    hide Unpacked;
    FilesComeFrom(es, k, q);
    r :| r < k && r < |es| && es[r].Regular? && es[r].path == q;
  }

  /** If every path is listed once, a file that was unpacked stays. */
  lemma FileStays(es: seq<Entry>, j: nat, i: nat, q: Path)
    requires Once(es) && j <= i <= |es| && q in Unpacked(es[..j]) && Unpacked(es[..j])[q].File?
    ensures q in Unpacked(es[..i]) && Unpacked(es[..i])[q].File?
  {
    hide Unpacked, Once;
    var r := FileIsListed(es, j, q);
    forall x | j <= x < i
      ensures es[x].path != q
    {
      OnceOther(es, r, x);
    }
    Persists(es, j, i, q);
  }

  lemma BlockedStays(es: seq<Entry>, j: nat, i: nat, p: Path)
    requires Once(es) && j <= i <= |es| && Blocked(Unpacked(es[..j]), p)
    ensures Blocked(Unpacked(es[..i]), p)
  {
    hide Unpacked, Once;
    var d := Unpacked(es[..j]);
    var k :| 1 <= k < |p| && p[..k] in d && !d[p[..k]].Dir?;
    FileStays(es, j, i, p[..k]);
  }

  lemma NotBlockedBefore(es: seq<Entry>, j: nat, i: nat)
    requires Once(es) && !Fails(es) && j < i < |es| && es[i].Regular?
    ensures !Blocked(Unpacked(es[..j]), es[i].path)
  {
    hide Unpacked, Fails, Once, Blocked;
    NotFailing(es, i);
    if Blocked(Unpacked(es[..j]), es[i].path) {
      BlockedStays(es, j, i, es[i].path);
    }
  }

  lemma NoFileBefore(es: seq<Entry>, j: nat, i: nat)
    requires Once(es) && j < i < |es| && es[i].path in Unpacked(es[..j])
    ensures Unpacked(es[..j])[es[i].path].Dir?
  {
    hide Unpacked, Once;
    if Unpacked(es[..j])[es[i].path].File? {
      var r := FileIsListed(es, j, es[i].path);
      OnceOther(es, r, i);
    }
  }

  lemma MaskedIsDir(es: seq<Entry>, j: nat, i: nat)
    requires Once(es) && !Fails(es) && j < i < |es| && es[i].Regular? && Needs(es[j], es[i].path)
    ensures es[i].path in Unpacked(es[..i]) && Unpacked(es[..i])[es[i].path] == Dir
  {
    hide Unpacked, Fails, Apply, Blocked, Once, Needs;
    var d, p := Unpacked(es[..j]), es[i].path;
    NotBlockedBefore(es, j, i);
    if p in d {
      NoFileBefore(es, j, i);
    }
    ApplyMakesDir(d, es[j], p);
    Snoc(es, j);
    forall x | j + 1 <= x < i
      ensures es[x].path != p
    {
      OnceOther(es, x, i);
    }
    Persists(es, j + 1, i, p);
  }

  // ---- going on with the directory in the file's place ----------------------------------------

  lemma BlockedElsewhere(d: Tree, p: Path, q: Path)
    requires p in d && !(p < q)
    ensures Blocked(d[p := Dir], q) <==> Blocked(d, q)
  {
    if Blocked(d, q) {
      var k :| 1 <= k < |q| && q[..k] in d && !d[q[..k]].Dir?;
      assert q[..k] != p;
      assert q[..k] in d[p := Dir] && !d[p := Dir][q[..k]].Dir?;
    }
  }

  lemma WithParentsElsewhere(d: Tree, p: Path, q: Path)
    requires p in d && !(p <= q)
    ensures WithParents(d[p := Dir], q) == WithParents(d, q)[p := Dir]
  {
    forall r: Path | r < q
      ensures Blocked(d[p := Dir], r) <==> Blocked(d, r)
    {
      BlockedElsewhere(d, p, r);
    }
    hide Blocked;
  }

  lemma UnlinkedElsewhere(d: Tree, p: Path, q: Path)
    requires p in d && p != q
    ensures Unlinked(d[p := Dir], q) == Unlinked(d, q)[p := Dir]
    ensures Occupied(d[p := Dir], q) <==> Occupied(d, q)
  {
    var d' := d[p := Dir];
    assert forall c :: c in d' <==> c in d;
    if Occupied(d, q) {
      var c :| c in d && q < c;
      assert c in d';
    } else {
      assert d' - {q} == (d - {q})[p := Dir];
    }
  }

  /** An entry elsewhere does the same whether a file or a directory is at `p`. */
  lemma ApplyElsewhere(d: Tree, e: Entry, p: Path)
    requires p in d && !(p <= e.path)
    ensures Apply(d[p := Dir], e) == Apply(d, e)[p := Dir]
    ensures Counted(d[p := Dir], e) <==> Counted(d, e)
  {
    var q := e.path;
    BlockedElsewhere(d, p, q);
    WithParentsElsewhere(d, p, q);
    UnlinkedElsewhere(d, p, q);
    UnlinkedElsewhere(WithParents(d, q), p, q);
    hide Blocked, Occupied, WithParents, Unlinked;
    PutBoth(WithParents(d, q), p, q, if e.Regular? then File(e.data) else Dir);
  }

  lemma PutBoth(t: Tree, p: Path, q: Path, n: Node)
    requires p != q
    ensures var a: Tree := t[p := Dir];
            var b: Tree := t[q := n];
            a[q := n] == b[p := Dir]
  {
  }

  /** Below a file nothing is made. */
  lemma ApplyBelowFile(d: Tree, e: Entry, p: Path)
    requires Rooted(d) && p in d && d[p].File? && p < e.path
    ensures Blocked(d, e.path) && (!e.Regular? ==> Apply(d, e) == d)
  {
    var q := e.path;
    assert q[..|p|] == p;
    if q in d {
      NotBlockedInside(d, q);
    }
    assert d - {q} == d;
    forall r: Path | r < q
      ensures r in d || Blocked(d, r)
    {
      if |r| < |p| {
        assert ParentsMade(d, p) && p[..|r|] == r;
      } else if |r| == |p| {
        assert r == p;
      } else {
        assert r[..|p|] == p;
      }
    }
    assert WithParents(d, q) == d;
  }

  lemma RootedDir(d: Tree, p: Path)
    requires Rooted(d) && p in d
    ensures Rooted(d[p := Dir])
  {
    var d' := d[p := Dir];
    forall r | r in d'
      ensures ParentsMade(d', r)
    {
      assert ParentsMade(d, r);
    }
  }

  /** One more entry, with a directory at `p` where the undisturbed unpack may have a file. */
  lemma MaskedEntry(s: State, p: Path) returns (run: seq<Step>)
    requires AtEntry(s) && !s.pc.failed && p != Now(s).path
    requires var es, i := s.pc.img.entries, s.pc.i;
             var u := Unpacked(es[..i]);
             Rooted(u) && p in u && Here(s) == u[p := Dir] && !Counted(u, es[i])
    ensures CanRun(s, run) && UsesOnly(run, {})
    ensures var es, i := s.pc.img.entries, s.pc.i;
            var u, t := Unpacked(es[..i + 1]), After(s, run);
            t.pc == Unpacking(s.pc.img, i + 1, false) && p in u && t.dirs == s.dirs[s.pc.img.ver := u[p := Dir]]
  {
    hide CanRun, After, Unpacked, Apply;
    var es, i := s.pc.img.entries, s.pc.i;
    var u, e := Unpacked(es[..i]), Now(s);
    Snoc(es, i);
    ApplyKeepsOthers(u, e, p);
    if p < e.path && u[p].File? {
      ApplyBelowFile(u, e, p);
      RunOne(s, Fault);
      run := [Fault];
      assert s.dirs[s.pc.img.ver := u[p := Dir]] == s.dirs;
    } else {
      hide Rooted, Counted;
      RootedDir(u, p);
      if p < e.path {
        assert u[p := Dir] == u;
      } else {
        ApplyElsewhere(u, e, p);
      }
      run := DoEntry(s);
      QuietIsSteady(run, s.pc.img);
      assert Apply(u, e)[p := Dir] == Apply(Here(s), e);
    }
  }

  /** At the file itself: the directory stays, and the file passes for written. */
  lemma MaskedStart(d: Tree, e: Entry)
    requires Rooted(d) && e.Regular? && e.path in d && d[e.path] == Dir
    ensures e.path in Apply(d, e) && Apply(d, e)[e.path := Dir] == d
  {
    assert ParentsTried(d, e.path);
    TriedIsDone(d, e.path);
  }

  lemma NotFailing(es: seq<Entry>, k: nat)
    requires !Fails(es) && k <= |es|
    ensures !Fails(es[..k]) && (k < |es| ==> !Counted(Unpacked(es[..k]), es[k]))
  {
    hide Fails, Counted, Unpacked;
    assert es[..|es|] == es;
    if Fails(es[..k]) {
      FailsGrows(es, k, |es|);
    } else if k < |es| && Counted(Unpacked(es[..k]), es[k]) {
      CountedFailsAll(es, k);
    }
  }

  /** The first `k` entries with the unlink failing at entry `i` and nothing counted. */
  lemma {:induction false} MaskedRun(img: Image, j: nat, i: nat, k: nat) returns (run: seq<Step>)
    requires Once(img.entries) && !Fails(img.entries) && j < i < k <= |img.entries|
    requires Empty(img.entries[i]) && Needs(img.entries[j], img.entries[i].path)
    ensures CanRun(BLANK, run) && UsesOnly(run, {img})
    ensures var s, u, p := After(BLANK, run), Unpacked(img.entries[..k]), img.entries[i].path;
            s.pc == Unpacking(img, k, false) && p in u && s.dirs == map[img.ver := u[p := Dir]]
    decreases k
  {
    hide CanRun, After, Unpacked, Fails, Rooted, Apply, Counted;
    var es, p := img.entries, img.entries[i].path;
    var clean := ReachEntry(img, k - 1);
    NotFailing(es, k - 1);
    if k == i + 1 {
      MaskedIsDir(es, j, i);
      MaskedStart(Unpacked(es[..i]), es[i]);
      Snoc(es, i);
      Extend(BLANK, clean, Stays);
      run := clean + [Stays];
    } else {
      var before := MaskedRun(img, j, i, k - 1);
      var more := MaskedEntry(After(BLANK, before), p);
      RunAppend(BLANK, before, more);
      run := before + more;
    }
  }

  lemma {:induction false} FileListed(es: seq<Entry>, i: nat, m: nat)
    requires Once(es) && i < m <= |es| && es[i].Regular?
    ensures es[i].path in Files(es[..m])
    decreases m
  {
    hide Files;
    FilesSnoc(es, m - 1);
    if i + 1 < m {
      FileListed(es, i, m - 1);
    }
  }

  /** An image with a masked file can leave its record without that file. */
  lemma MaskedImageFools(img: Image) returns (run: seq<Step>)
    requires !Ships(img) && Once(img.entries) && !Fails(img.entries) && Masks(img.entries)
    ensures CanRun(BLANK, run) && UsesOnly(run, {img})
    ensures var s := After(BLANK, run);
            s.pc.Idle? && HasRecord(s, img.ver) && !WholeFrom(s.dirs[img.ver], img.ver, {img})
  {
    hide CanRun, After, Unpacked, Fails, Files, Once, Ships;
    var es, n := img.entries, |img.entries|;
    var j: nat, i: nat :| j < i < n && Empty(es[i]) && Needs(es[j], es[i].path);
    var p := es[i].path;
    var before := MaskedRun(img, j, i, n);
    var s := After(BLANK, before);
    assert es[..n] == es;
    NoRecordMade(img, n);
    FileListed(es, i, n);
    NotTheRecord(img, i);
    var more := WriteTheRecord(s, s.dirs[img.ver]);
    RunAppend(BLANK, before, more);
    run := before + more;
    QuietIsSteady(more, img);
    assert After(BLANK, run).dirs[img.ver][p] == Dir;
  }

  lemma NotTheRecord(img: Image, i: nat)
    requires !Ships(img) && i < |img.entries| && img.entries[i].Regular?
    ensures img.entries[i].path != RECORD
  {
    assert !MakesRecord(img.entries[i]);
  }

  // ---- exactly when the record can be trusted -------------------------------------------------

  /** The failures below are shown for images that list each path once and have no entry that must fail. */
  predicate Judged(img: Image)
  {
    !Ships(img) && Masks(img.entries) ==> Once(img.entries) && !Fails(img.entries)
  }

  /**
    The record can be trusted in every run, whatever fails and whenever the power
    is cut, exactly when the image puts nothing in the record's place, or has no
    other files, and no empty file has the path of an earlier directory.
   */
  lemma TrustedIffSound(img: Image)
    requires Judged(img)
    ensures Sound(img) <==>
            forall run :: CanRun(BLANK, run) && UsesOnly(run, {img}) ==> RecordMeansWhole(After(BLANK, run), {img})
  {
    hide CanRun, After, Harmless, Ships, Masks, Once, Fails, WholeFrom;
    if Sound(img) {
      forall run | CanRun(BLANK, run) && UsesOnly(run, {img})
        ensures RecordMeansWhole(After(BLANK, run), {img})
      {
        RecordIsTrusted(run, {img});
      }
    } else if !Harmless(img) {
      var run := HarmfulImageFools(img);
    } else {
      var run := MaskedImageFools(img);
    }
  }

  // ---- exactly when installs recover ----------------------------------------------------------

  /** The version was not there when the install began. */
  ghost predicate Fresh(s: State, ver: string)
  {
    && (s.pc.Check? || s.pc.Decide? ==> ver !in s.dirs) && !s.pc.Clearing? && !s.report.AlreadyThere?
    && (!s.pc.Idle? ==> s.pc.img.ver == ver)
  }

  lemma {:induction false} StaysFresh(s: State, run: seq<Step>, ver: string)
    requires Fresh(s, ver) && CanRun(s, run) && Quiet(run)
    ensures Fresh(After(s, run), ver)
    decreases |run|
  {
    hide QuietStep, Do, Enabled;
    if run != [] {
      assert QuietStep(run[0]);
      StepStaysFresh(s, run[0], ver);
      StaysFresh(Do(s, run[0]), run[1..], ver);
    }
  }

  lemma StepStaysFresh(s: State, a: Step, ver: string)
    requires Fresh(s, ver) && Enabled(s, a) && QuietStep(a)
    ensures Fresh(Do(s, a), ver)
  {
    hide EntryOver, ParentsMade, Occupied, HasChild, Deep;
  }

  /**
    After every history of cut and failed installs of the image, every
    undisturbed install that comes to its end is a success: this holds exactly
    when no directory of the image is too deep, no entry has to fail and no empty
    file has the path of an earlier directory.
   */
  lemma RecoversIff(img: Image)
    requires !Ships(img) && Judged(img)
    ensures (Shallow(img) && !Fails(img.entries) && !Masks(img.entries)) <==>
            forall past, run :: Install(past, img, run) && UsesOnly(past, {img}) ==>
              Success(After(After(BLANK, past), [Begin(img)] + run), img, {img})
  {
    hide CanRun, After, Success, Shallow, Fails, Files, Masks, Once, Ships;
    if !Shallow(img) {
      DeepFails(img);
    } else if Masks(img.entries) {
      MaskedFails(img);
    } else if Fails(img.entries) {
      CountedFails(img);
    } else {
      forall past, run | Install(past, img, run) && UsesOnly(past, {img})
        ensures Success(After(After(BLANK, past), [Begin(img)] + run), img, {img})
      {
        RecoversAlways(past, img, run, {img});
      }
    }
  }

  lemma DeepFails(img: Image)
    requires !Shallow(img)
    ensures exists past, run :: Install(past, img, run) && UsesOnly(past, {img}) &&
              !Success(After(After(BLANK, past), [Begin(img)] + run), img, {img})
  {
    hide CanRun, After, Shallow, Deep;
    var past := DeepRun(img);
    var run := StuckSaysInstalled(After(BLANK, past), img);
    assert Install(past, img, run);
  }

  /** A record makes the next install say so and change nothing. */
  lemma RecordSaysInstalled(s: State, img: Image) returns (run: seq<Step>)
    requires s.pc.Idle? && HasRecord(s, img.ver)
    ensures CanRun(s, [Begin(img)] + run) && Quiet(run)
    ensures var t := After(s, [Begin(img)] + run);
            t.pc.Idle? && t.report == AlreadyThere(img.ver) && t.dirs == s.dirs
  {
    hide CanRun, After;
    RunOne(s, Begin(img));
    Extend(s, [Begin(img)], Go);
    Extend(s, [Begin(img)] + [Go], Go);
    run := [Go] + [Go];
    assert [Begin(img)] + run == [Begin(img)] + [Go] + [Go];
  }

  lemma MaskedFails(img: Image)
    requires !Ships(img) && Once(img.entries) && !Fails(img.entries) && Masks(img.entries)
    ensures exists past, run :: Install(past, img, run) && UsesOnly(past, {img}) &&
              !Success(After(After(BLANK, past), [Begin(img)] + run), img, {img})
  {
    hide CanRun, After, Fails, Masks, Once, Ships, WholeFrom, Complete;
    var past := MaskedImageFools(img);
    var run := RecordSaysInstalled(After(BLANK, past), img);
    assert Install(past, img, run);
  }

  lemma CountedFails(img: Image)
    requires !Ships(img) && Sound(img) && Shallow(img) && Fails(img.entries)
    ensures exists past, run :: Install(past, img, run) && UsesOnly(past, {img}) &&
              !Success(After(After(BLANK, past), [Begin(img)] + run), img, {img})
  {
    hide Shallow, Sound, Ships, Fails, Complete;
    var past: seq<Step> := [];
    var run := CanInstall(past, img, {img});
    var s := Do(BLANK, Begin(img));
    assert ([Begin(img)] + run)[1..] == run;
    StaysFresh(s, run, img.ver);
    assert !Success(After(After(BLANK, past), [Begin(img)] + run), img, {img});
  }
}
