/**
  The same questions for a machine on which only the power fails: then unpacking
  is determined by the image, and every answer is an if and only if.
 */
module PowerCuts {
  import opened Bits
  import opened Installer
  import opened Recovery
  import opened Masked

  // ---- deep on the way ------------------------------------------------------------------------

  /** Some tree on the way through entry `i` has a directory that is too deep. */
  predicate DeepAt(es: seq<Entry>, i: nat)
    requires i < |es|
  {
    (!es[i].Whiteout? && Deep(WithParents(Unpacked(es[..i]), es[i].path))) || Deep(Unpacked(es[..i + 1]))
  }

  predicate PassesDeep(es: seq<Entry>)
  {
    exists i :: 0 <= i < |es| && DeepAt(es, i)
  }

  /** During an entry the directories are those before it and the parents of its path. */
  predicate Bounded(d: Tree, was: Tree, e: Entry)
  {
    var p := e.path;
    && (p in d && d[p].Dir? ==> p in was && was[p].Dir?)
    && if e.Whiteout? then d - {p} == was - {p} else WithParents(d, p) - {p} == WithParents(was, p) - {p}
  }

  lemma BoundedIsNotDeep(d: Tree, was: Tree, e: Entry)
    requires Bounded(d, was, e) && !Deep(was) && (!e.Whiteout? ==> !Deep(WithParents(was, e.path)))
    ensures !Deep(d)
  {
    hide Blocked;
    var p := e.path;
    var t: Tree := if e.Whiteout? then d else WithParents(d, p);
    var u: Tree := if e.Whiteout? then was else WithParents(was, p);
    forall q | q in d && d[q].Dir? && q != p
      ensures q in u && u[q].Dir?
    {
      assert q in t - {p} && (t - {p})[q] == d[q];
      assert (u - {p})[q] == u[q];
    }
  }

  lemma MkdirBounded(d: Tree, was: Tree, e: Entry, k: nat)
    requires Bounded(d, was, e) && Rooted(d) && !e.Whiteout? && 1 <= k < |e.path| && e.path[..k] !in d
    requires k > 1 ==> e.path[..k - 1] in d && d[e.path[..k - 1]].Dir?
    ensures Bounded(d[e.path[..k] := Dir], was, e)
  {
    ParentsOfNext(d, e.path, k);
    assert !Blocked(d, e.path[..k]);
    MkdirSame(d, e.path, e.path[..k]);
    hide WithParents, Blocked;
  }

  lemma DropBounded(d: Tree, was: Tree, e: Entry)
    requires Bounded(d, was, e)
    ensures Bounded(Unlinked(d, e.path), was, e)
  {
    var p := e.path;
    if p in d && !Occupied(d, p) {
      forall q: Path | q <= p
        ensures Blocked(d - {p}, q) <==> Blocked(d, q)
      {
        BlockedDrop(d, p, q);
      }
      DropSame(d, p, Dir);
      hide WithParents, Blocked;
      assert WithParents(d, p) - {p} - {p} == WithParents(d, p) - {p};
      assert d - {p} - {p} == d - {p};
    } else {
      assert Unlinked(d, p) == d;
    }
  }

  lemma WriteBounded(d: Tree, was: Tree, e: Entry, n: Node)
    requires Bounded(d, was, e) && e.Regular? && n.File? && ParentsMade(d, e.path)
    ensures Bounded(d[e.path := n], was, e)
  {
    var d', p := d[e.path := n], e.path;
    assert ParentsTried(d, p) && ParentsTried(d', p);
    TriedIsDone(d, p);
    TriedIsDone(d', p);
    hide WithParents;
    assert d' - {p} == d - {p};
  }

  lemma EntryWorkBounded(s: State, a: Step, was: Tree)
    requires AtEntry(s) && Rooted(Here(s)) && Enabled(s, a) && (a.Mkdir? || a.Drop? || a.Write?)
    requires Bounded(Here(s), was, Now(s)) && InTree(Do(s, a))
    ensures Bounded(Here(Do(s, a)), was, Now(s))
  {
    hide Bounded, Rooted, ParentsMade, Unlinked;
    var d, e := Here(s), Now(s);
    match a
    case Mkdir(k) => MkdirBounded(d, was, e, k);
    case Drop => DropBounded(d, was, e);
    case Write(n) => WriteBounded(d, was, e, File(e.data[..n]));
  }

  // ---- what every run keeps -------------------------------------------------------------------

  /** A directory with a record is exactly what the image unpacks to, and the record. */
  predicate Recorded(d: Tree, img: Image)
  {
    RECORD in d && !Fails(img.entries) && d == Unpacked(img.entries)[RECORD := d[RECORD]]
  }

  predicate OnlyThis(s: State, img: Image)
  {
    && (forall ver :: ver in s.dirs ==> ver == img.ver)
    && (!s.pc.Idle? ==> s.pc.img == img)
    && (img.ver in s.dirs && RECORD in s.dirs[img.ver] ==> Recorded(s.dirs[img.ver], img))
  }

  ghost predicate CutPc(s: State, img: Image)
    requires !s.pc.Idle? ==> s.pc.img == img
  {
    match s.pc
    case Clearing(_) => !HasRecord(s, img.ver)
    case MakeDir(_) => img.ver !in s.dirs
    case Unpacking(_, i, failed) =>
      && i <= |img.entries| && img.ver in s.dirs && !HasRecord(s, img.ver)
      && UnpackKept(s.dirs[img.ver], img.entries, i, failed)
      && (i < |img.entries| ==> Bounded(s.dirs[img.ver], Unpacked(img.entries[..i]), img.entries[i]))
    case Aborting(_) => !HasRecord(s, img.ver) && Fails(img.entries)
    case DropRecord(_) => img.ver in s.dirs && !Fails(img.entries) && NewTree(s.dirs[img.ver], img)
    case CreateRecord(_) => img.ver in s.dirs && !Fails(img.entries) && NewTree(s.dirs[img.ver], img)
    case WriteRecord(_) => HasRecord(s, img.ver)
    case DropCurrent(_) => HasRecord(s, img.ver) && Complete(s.dirs[img.ver], img)
    case CreateCurrent(_) => HasRecord(s, img.ver) && Complete(s.dirs[img.ver], img) && s.current.None?
    case WriteCurrent(_) => HasRecord(s, img.ver) && Complete(s.dirs[img.ver], img)
    case _ => true
  }

  ghost predicate CutReport(s: State, img: Image)
  {
    match s.report
    case Nothing => true
    case Installed(ver) =>
      s.pc.Idle? && ver == img.ver && HasRecord(s, ver) && Complete(s.dirs[ver], img) && s.current == Some(ver)
    case AlreadyThere(ver) => s.pc.Idle? && ver == img.ver && ver in s.dirs
    case Failed(ver) => s.pc.Idle? && ver == img.ver && Fails(img.entries)
  }

  ghost predicate CutInv(s: State, img: Image)
  {
    OnlyThis(s, img) && CutPc(s, img) && CutReport(s, img)
  }

  lemma BoundedStart(d: Tree, e: Entry)
    ensures Bounded(d, d, e)
  {
    hide WithParents;
  }

  lemma NextEntryCut(s: State, img: Image)
    requires CutInv(s, img) && Enabled(s, Go) && AtEntry(s) && !Ships(img)
    ensures CutInv(Do(s, Go), img)
  {
    hide Do, Enabled, Apply, Counted, Rooted, Unpacked, Fails, Ships, Bounded;
    var es, i := img.entries, s.pc.i;
    EndOfEntry(s);
    Snoc(es, i);
    StartOfEntry(es, i + 1);
    NoRecordMade(img, i + 1);
    NextEntryReports(s);
    if i + 1 < |es| {
      BoundedStart(Unpacked(es[..i + 1]), es[i + 1]);
    }
  }

  lemma NextEntryReports(s: State)
    requires AtEntry(s) && Enabled(s, Go)
    ensures Do(s, Go).report == s.report
  {
  }

  lemma EntryWorkCut(s: State, a: Step, img: Image)
    requires CutInv(s, img) && Enabled(s, a) && (a.Mkdir? || a.Drop? || a.Write?) && !Ships(img)
    ensures CutInv(Do(s, a), img)
  {
    hide Do, Enabled, Apply, Counted, Rooted, Unpacked, Fails, Ships, Bounded, MakesRecord;
    WorkIsAtEntry(s, a);
    ShipsNot(img, s.pc.i);
    NoRecordByWork(s, a);
    EntryWork(s, a);
    EntryWorkBounded(s, a, Unpacked(img.entries[..s.pc.i]));
  }

  lemma WorkIsAtEntry(s: State, a: Step)
    requires Enabled(s, a) && (a.Mkdir? || a.Drop? || a.Write?)
    ensures AtEntry(s)
  {
  }

  lemma ShipsNot(img: Image, i: nat)
    requires !Ships(img) && i < |img.entries|
    ensures !MakesRecord(img.entries[i])
  {
  }

  lemma NoRecordByWork(s: State, a: Step)
    requires AtEntry(s) && RECORD !in Here(s) && !MakesRecord(Now(s)) && Enabled(s, a) && (a.Mkdir? || a.Drop? || a.Write?)
    ensures InTree(Do(s, a)) && RECORD !in Here(Do(s, a))
  {
    hide ParentsMade, Occupied;
  }

  lemma RecordStepCut(s: State, img: Image)
    requires CutInv(s, img) && Enabled(s, Go) && (s.pc.DropRecord? || s.pc.CreateRecord? || s.pc.WriteRecord?)
    ensures CutInv(Do(s, Go), img)
  {
    hide Unpacked, Fails, HasChild, EntryOver, NextEntry, UnpackKept, Bounded;
    var d: Tree := Here(s);
    assert RECORD !in d ==> !Occupied(d, RECORD) && d - {RECORD} == d;
    var u: Tree := Unpacked(img.entries);
    var v: Tree := u[RECORD := if RECORD in d then d[RECORD] else Dir];
    assert v[RECORD := File(img.note)] == u[RECORD := File(img.note)];
  }

  lemma ClearingGoCut(s: State, img: Image)
    requires CutInv(s, img) && Enabled(s, Go)
    requires s.pc.Check? || s.pc.Clearing? || s.pc.Decide? || s.pc.Aborting?
    ensures CutInv(Do(s, Go), img)
  {
    hide EntryOver, NextEntry, UnpackKept, Bounded, Unpacked, Fails, Complete, Recorded;
  }

  lemma UnpackingGoCut(s: State, img: Image)
    requires CutInv(s, img) && Enabled(s, Go) && !Ships(img) && !AtEntry(s) && (s.pc.MakeDir? || s.pc.Unpacking?)
    ensures CutInv(Do(s, Go), img)
  {
    hide Ships, EntryOver, NextEntry, UnpackKept, Bounded, Unpacked, Fails, Complete, Recorded, NewTree;
    UnpackBegins(img.entries);
    if s.pc.Unpacking? {
      UnpackEnds(Here(s), img, s.pc.failed);
    }
  }

  lemma CurrentGoCut(s: State, img: Image)
    requires CutInv(s, img) && Enabled(s, Go) && (s.pc.DropCurrent? || s.pc.CreateCurrent? || s.pc.WriteCurrent?)
    ensures CutInv(Do(s, Go), img)
  {
    hide EntryOver, NextEntry, UnpackKept, Bounded, Unpacked, Fails, Complete, Recorded;
  }

  lemma GoCut(s: State, img: Image)
    requires CutInv(s, img) && Enabled(s, Go) && !Ships(img)
    ensures CutInv(Do(s, Go), img)
  {
    hide CutInv, Do, Ships;
    if AtEntry(s) {
      NextEntryCut(s, img);
    } else if s.pc.DropRecord? || s.pc.CreateRecord? || s.pc.WriteRecord? {
      RecordStepCut(s, img);
    } else if s.pc.MakeDir? || s.pc.Unpacking? {
      UnpackingGoCut(s, img);
    } else if s.pc.DropCurrent? || s.pc.CreateCurrent? || s.pc.WriteCurrent? {
      CurrentGoCut(s, img);
    } else {
      ClearingGoCut(s, img);
    }
  }

  lemma UnpackBegins(es: seq<Entry>)
    ensures UnpackKept(map[], es, 0, false) && (es != [] ==> Bounded(map[], Unpacked(es[..0]), es[0]))
  {
    assert es[..0] == [] && Rooted(map[]);
    StartOfEntry(es, 0);
    if es != [] {
      BoundedStart(map[], es[0]);
    }
  }

  lemma UnpackEnds(d: Tree, img: Image, failed: bool)
    requires UnpackKept(d, img.entries, |img.entries|, failed) && !Ships(img)
    ensures NewTree(d, img) && (failed <==> Fails(img.entries))
  {
    hide Unpacked, Fails, Ships;
    assert img.entries[..|img.entries|] == img.entries;
    NoRecordMade(img, |img.entries|);
  }

  lemma StepKeepsCut(s: State, a: Step, img: Image)
    requires CutInv(s, img) && Enabled(s, a) && SteadyStep(a) && !Ships(img) && (a.Begin? ==> a.img == img)
    ensures CutInv(Do(s, a), img)
  {
    match a
    case Go => GoCut(s, img);
    case Mkdir(_) => EntryWorkCut(s, a, img);
    case Drop => EntryWorkCut(s, a, img);
    case Write(_) => EntryWorkCut(s, a, img);
    case _ =>
      hide Unpacked, Fails, HasChild, Deep, Ships;
  }

  lemma {:induction false} RunKeepsCut(s: State, run: seq<Step>, img: Image)
    requires CutInv(s, img) && CanRun(s, run) && UsesOnly(run, {img}) && Steady(run) && !Ships(img)
    ensures CutInv(After(s, run), img)
    decreases |run|
  {
    hide CutInv, Do, Enabled, Ships;
    if run != [] {
      StepKeepsCut(s, run[0], img);
      RunKeepsCut(Do(s, run[0]), run[1..], img);
    }
  }

  lemma BlankCut(img: Image)
    ensures CutInv(BLANK, img)
  {
  }

  // ---- the record -----------------------------------------------------------------------------

  /** A recorded version has every file exactly when unpacking loses none. */
  lemma RecordedWhole(d: Tree, img: Image)
    requires Recorded(d, img) && RECORD !in Files(img.entries)
    ensures Whole(d, img) <==> Lost(img.entries) == {}
  {
    hide Unpacked, Files, Lost, Fails;
    UnpackedFiles(img.entries);
    NothingLostIff(img.entries);
    var u, m := Unpacked(img.entries), Files(img.entries);
    if Lost(img.entries) != {} {
      var p :| p in Lost(img.entries);
      assert p !in FilesOf(u);
    } else {
      forall p | p in m
        ensures p in d && d[p] == File(m[p])
      {
        assert p in FilesOf(u);
      }
    }
  }

  lemma {:induction false} NoRecordListed(img: Image, k: nat)
    requires !Ships(img) && k <= |img.entries|
    ensures RECORD !in Files(img.entries[..k])
  {
    if k > 0 {
      hide Files;
      NoRecordListed(img, k - 1);
      FilesSnoc(img.entries, k - 1);
      assert !MakesRecord(img.entries[k - 1]);
    }
  }

  lemma CutRecordWhole(s: State, img: Image)
    requires CutInv(s, img) && HasRecord(s, img.ver) && !Ships(img)
    ensures Recorded(s.dirs[img.ver], img)
    ensures WholeFrom(s.dirs[img.ver], img.ver, {img}) <==> Lost(img.entries) == {}
  {
    hide Whole, Files, Lost, Unpacked, Fails, Ships;
    NoRecordListed(img, |img.entries|);
    assert img.entries[..|img.entries|] == img.entries;
    RecordedWhole(s.dirs[img.ver], img);
    assert Whole(s.dirs[img.ver], img) ==> WholeFrom(s.dirs[img.ver], img.ver, {img});
  }

  /** An undisturbed install on a blank disk. */
  lemma CleanInstall(img: Image) returns (run: seq<Step>)
    requires !Ships(img) && !Fails(img.entries)
    ensures CanRun(BLANK, run) && UsesOnly(run, {img}) && Steady(run)
    ensures After(BLANK, run).pc.Idle? && HasRecord(After(BLANK, run), img.ver)
  {
    hide CanRun, After, Unpacked, Fails, Ships;
    var n := |img.entries|;
    assert img.entries[..n] == img.entries;
    var before := ReachEntry(img, n);
    NoRecordMade(img, n);
    var more := WriteTheRecord(After(BLANK, before), Unpacked(img.entries));
    RunAppend(BLANK, before, more);
    QuietIsSteady(more, img);
    run := before + more;
  }

  /**
    With nothing but power cuts the record can be trusted exactly when the image
    loses no file or cannot be installed at all.
   */
  lemma TrustedIffNothingLost(img: Image)
    requires !Ships(img)
    ensures (Fails(img.entries) || Lost(img.entries) == {}) <==>
            forall run :: CanRun(BLANK, run) && UsesOnly(run, {img}) && Steady(run) ==>
              RecordMeansWhole(After(BLANK, run), {img})
  {
    hide CanRun, After, Fails, Lost, Ships, CutPc, CutReport, WholeFrom, Unpacked;
    BlankCut(img);
    if Fails(img.entries) || Lost(img.entries) == {} {
      forall run | CanRun(BLANK, run) && UsesOnly(run, {img}) && Steady(run)
        ensures RecordMeansWhole(After(BLANK, run), {img})
      {
        RunKeepsCut(BLANK, run, img);
        if HasRecord(After(BLANK, run), img.ver) {
          CutRecordWhole(After(BLANK, run), img);
        }
      }
    } else {
      var run := CleanInstall(img);
      RunKeepsCut(BLANK, run, img);
      CutRecordWhole(After(BLANK, run), img);
    }
  }

  // ---- nothing too deep -----------------------------------------------------------------------

  ghost predicate ClearInv(s: State, img: Image)
  {
    && (img.ver in s.dirs ==> !Deep(s.dirs[img.ver]))
    && (s.pc.Decide? && img.ver in s.dirs ==> HasRecord(s, img.ver))
    && (s.report.AlreadyThere? ==> HasRecord(s, img.ver))
  }

  lemma NotDeepSoFar(es: seq<Entry>, k: nat)
    requires !PassesDeep(es) && k <= |es|
    ensures !Deep(Unpacked(es[..k]))
    ensures k < |es| && !es[k].Whiteout? ==> !Deep(WithParents(Unpacked(es[..k]), es[k].path))
  {
    hide Unpacked, Deep, WithParents;
    assert k < |es| ==> !DeepAt(es, k);
    if k > 0 {
      assert !DeepAt(es, k - 1);
    } else {
      assert es[..0] == [];
      EmptyNotDeep();
    }
  }

  lemma EmptyNotDeep()
    ensures !Deep(Unpacked([]))
  {
  }

  lemma UnpackingNotDeep(d: Tree, img: Image, i: nat, failed: bool)
    requires !PassesDeep(img.entries) && i <= |img.entries| && UnpackKept(d, img.entries, i, failed)
    requires i < |img.entries| ==> Bounded(d, Unpacked(img.entries[..i]), img.entries[i])
    ensures !Deep(d)
  {
    hide Unpacked, Deep, WithParents, OnTheWay, Bounded, PassesDeep;
    NotDeepSoFar(img.entries, i);
    if i < |img.entries| {
      BoundedIsNotDeep(d, Unpacked(img.entries[..i]), img.entries[i]);
    } else {
      assert img.entries[..i] == img.entries;
    }
  }

  lemma StepKeepsClear(s: State, a: Step, img: Image)
    requires CutInv(s, img) && ClearInv(s, img) && Enabled(s, a) && CutInv(Do(s, a), img)
    requires !PassesDeep(img.entries) && SteadyStep(a) && (a.Begin? ==> a.img == img)
    ensures ClearInv(Do(s, a), img)
  {
    hide PassesDeep, UnpackKept, Bounded, Unpacked, Fails, EntryOver, ParentsMade, HasChild;
    var t := Do(s, a);
    if t.pc.Unpacking? {
      UnpackingNotDeep(t.dirs[img.ver], img, t.pc.i, t.pc.failed);
    } else if InTree(s) {
      StillNotDeep(Here(s), if a.Remove? then a.path else RECORD, File(""));
      StillNotDeep(Here(s), RECORD, File(img.note));
      hide Deep;
    }
  }

  lemma StillNotDeep(d: Tree, p: Path, n: Node)
    requires !Deep(d) && n.File?
    ensures !Deep(d - {p}) && !Deep(d[p := n]) && !Deep(Unlinked(d, p))
  {
    hide HasChild;
  }

  lemma {:induction false} RunKeepsClear(s: State, run: seq<Step>, img: Image)
    requires CutInv(s, img) && ClearInv(s, img) && CanRun(s, run) && UsesOnly(run, {img}) && Steady(run)
    requires !Ships(img) && !PassesDeep(img.entries)
    ensures CutInv(After(s, run), img) && ClearInv(After(s, run), img)
    decreases |run|
  {
    hide CutInv, ClearInv, Do, Enabled, Ships, PassesDeep;
    if run != [] {
      StepKeepsCut(s, run[0], img);
      StepKeepsClear(s, run[0], img);
      RunKeepsClear(Do(s, run[0]), run[1..], img);
    }
  }

  /** One parent more. */
  lemma DoParent(s: State) returns (a: Step)
    requires AtEntry(s) && !Now(s).Whiteout? && Rooted(Here(s)) && Missing(Here(s), Now(s).path) != {}
    ensures QuietStep(a) && Enabled(s, a)
    ensures var t, p := Do(s, a), Now(s).path;
            && AtEntry(t) && t == SetTree(s, Here(t)) && Now(t) == Now(s) && Rooted(Here(t))
            && WithParents(Here(t), p) == WithParents(Here(s), p) && |Missing(Here(t), p)| < |Missing(Here(s), p)|
  {
    var d, p := Here(s), Now(s).path;
    var n :| n in Missing(d, p);
    var k := FirstMissing(d, p, n);
    a := Mkdir(k);
    FewerMissing(d, p, k);
    assert !Blocked(d, p[..k]);
    hide Missing, Blocked;
    MkdirSame(d, p, p[..k]);
    ParentsOfNext(d, p, k);
    RootedPut(d, p[..k]);
  }

  /** The parents of the entry's path, and nothing else of the entry. */
  lemma {:induction false} DoParents(s: State) returns (run: seq<Step>)
    requires AtEntry(s) && !Now(s).Whiteout? && Rooted(Here(s))
    ensures CanRun(s, run) && Quiet(run)
    ensures After(s, run) == SetTree(s, WithParents(Here(s), Now(s).path))
    decreases |Missing(Here(s), Now(s).path)|
  {
    hide CanRun, After, Do, Enabled, Missing, Rooted, WithParents, SetTree, QuietStep;
    var d, p := Here(s), Now(s).path;
    if Missing(d, p) == {} {
      NothingMissing(d, p);
      TriedIsDone(d, p);
      run := [];
      RunNone(s);
      SetSame(s);
    } else {
      var a := DoParent(s);
      RunOne(s, a);
      var rest := DoParents(Do(s, a));
      RunAppend(s, [a], rest);
      run := [a] + rest;
      SetTreeTwice(s, Here(Do(s, a)), WithParents(d, p));
    }
  }

  lemma SetSame(s: State)
    requires AtEntry(s)
    ensures SetTree(s, Here(s)) == s
  {
    assert s.dirs[s.pc.img.ver := Here(s)] == s.dirs;
  }

  /** From a blank disk to a tree that is too deep, and the power is cut. */
  lemma CutWhenDeep(img: Image) returns (run: seq<Step>)
    requires !Ships(img) && PassesDeep(img.entries)
    ensures CanRun(BLANK, run) && UsesOnly(run, {img}) && Steady(run)
    ensures After(BLANK, run).pc.Idle? && Stuck(After(BLANK, run), img.ver)
  {
    hide CanRun, After, Ships, Unpacked, Deep, WithParents, Rooted, Fails;
    var es := img.entries;
    var i: nat :| i < |es| && DeepAt(es, i);
    var before;
    if Deep(Unpacked(es[..i + 1])) {
      before := ReachEntry(img, i + 1);
      NoRecordMade(img, i + 1);
    } else {
      var start := ReachEntry(img, i);
      var more := DoParents(After(BLANK, start));
      RunAppend(BLANK, start, more);
      QuietIsSteady(more, img);
      before := start + more;
      NoRecordMade(img, i);
      ShipsNot(img, i);
      ApplyMakesNoRecord(Unpacked(es[..i]), es[i]);
    }
    Extend(BLANK, before, PowerCut);
    run := before + [PowerCut];
  }

  /**
    With nothing but power cuts, "already installed" is honest in every run
    exactly when no tree on the way through the entries is too deep to be removed,
    and the image loses no file or cannot be installed at all.
   */
  lemma AlreadyThereIff(img: Image)
    requires !Ships(img)
    ensures (!PassesDeep(img.entries) && (Fails(img.entries) || Lost(img.entries) == {})) <==>
            forall run :: CanRun(BLANK, run) && UsesOnly(run, {img}) && Steady(run) ==> Honest(After(BLANK, run), {img})
  {
    hide CanRun, After, Fails, Lost, Ships, CutPc, WholeFrom, Unpacked, PassesDeep, Deep;
    BlankCut(img);
    if PassesDeep(img.entries) {
      var past := CutWhenDeep(img);
      var more := StuckSaysInstalled(After(BLANK, past), img);
      SayingIsSteady(past, img, more);
    } else if !Fails(img.entries) && Lost(img.entries) != {} {
      var past := CleanInstall(img);
      RunKeepsCut(BLANK, past, img);
      CutRecordWhole(After(BLANK, past), img);
      var more := RecordSaysInstalled(After(BLANK, past), img);
      SayingIsSteady(past, img, more);
    } else {
      forall run | CanRun(BLANK, run) && UsesOnly(run, {img}) && Steady(run)
        ensures Honest(After(BLANK, run), {img})
      {
        var s := After(BLANK, run);
        RunKeepsClear(BLANK, run, img);
        if HasRecord(s, img.ver) {
          CutRecordWhole(s, img);
        }
      }
    }
  }

  lemma SayingIsSteady(past: seq<Step>, img: Image, more: seq<Step>)
    requires CanRun(BLANK, past) && UsesOnly(past, {img}) && Steady(past) && Quiet(more)
    requires CanRun(After(BLANK, past), [Begin(img)] + more)
    ensures var run := past + ([Begin(img)] + more);
            && CanRun(BLANK, run) && UsesOnly(run, {img}) && Steady(run)
            && After(BLANK, run) == After(After(BLANK, past), [Begin(img)] + more)
  {
    hide CanRun, After;
    QuietIsSteady(more, img);
    RunAppend(BLANK, past, [Begin(img)] + more);
  }

  // ---- recovery -------------------------------------------------------------------------------

  lemma StepReports(s: State, a: Step)
    requires Enabled(s, a) && QuietStep(a) && Do(s, a).pc.Idle?
    ensures Do(s, a).report != Nothing
  {
    hide EntryOver, ParentsMade, Occupied, HasChild, Deep;
  }

  lemma {:induction false} QuietReports(s: State, run: seq<Step>)
    requires !s.pc.Idle? && CanRun(s, run) && Quiet(run) && After(s, run).pc.Idle?
    ensures After(s, run).report != Nothing
    decreases |run|
  {
    hide Do, Enabled, QuietStep;
    var t := Do(s, run[0]);
    assert QuietStep(run[0]);
    if !t.pc.Idle? {
      QuietReports(t, run[1..]);
    } else {
      StepReports(s, run[0]);
      if |run| > 1 {
        assert QuietStep(run[1]) && Enabled(t, run[1..][0]);
        IdleIsDone(t, run[1]);
      }
    }
  }

  lemma LongIsDeep(d: Tree, p: Path)
    requires ParentsMade(d, p) && |p| > TOO_DEEP
    ensures Deep(d)
  {
    assert |p[..TOO_DEEP]| == TOO_DEEP;
  }

  lemma RecordAbove(d: Tree, p: Path)
    requires p in d && ParentsMade(d, p) && RECORD <= p
    ensures RECORD in d
  {
    if |p| == 1 {
      assert p == RECORD;
    } else {
      assert p[..1] == RECORD;
    }
  }

  lemma RootedTidy(d: Tree)
    requires Rooted(d) && !Deep(d) && RECORD !in d
    ensures TidyTree(d)
  {
    forall p | p in d
      ensures !(RECORD <= p) && Removable(p, d[p].Dir?)
    {
      assert ParentsMade(d, p);
      if RECORD <= p {
        RecordAbove(d, p);
      }
      if |p| > TOO_DEEP {
        LongIsDeep(d, p);
      }
    }
  }

  lemma RootedLess(d: Tree, p: Path)
    requires Rooted(d) && !HasChild(d, p)
    ensures Rooted(d - {p})
  {
    var d' := d - {p};
    forall r | r in d'
      ensures ParentsMade(d', r)
    {
      assert ParentsMade(d, r);
    }
  }

  /** Removing what a failed unpack left, to the end. */
  lemma {:induction false} ClearAll(s: State) returns (run: seq<Step>)
    requires s.pc.Aborting? && InTree(s) && Rooted(Here(s)) && !Deep(Here(s)) && RECORD !in Here(s)
    ensures CanRun(s, run) && Quiet(run)
    ensures After(s, run).pc.Idle? && After(s, run).report == Failed(s.pc.img.ver)
    decreases |Here(s)|
  {
    if Here(s) == map[] {
      RunOne(s, Go);
      run := [Go];
    } else {
      RootedTidy(Here(s));
      var p := Leaf(s);
      RootedLess(Here(s), p);
      StillNotDeep(Here(s), p, File(""));
      hide CanRun, After, Rooted, Deep, HasChild;
      RunOne(s, Remove(p));
      var rest := ClearAll(Do(s, Remove(p)));
      RunAppend(s, [Remove(p)], rest);
      run := [Remove(p)] + rest;
    }
  }

  /** An undisturbed install on a blank disk of an image in which an entry must fail. */
  lemma FailedInstall(img: Image) returns (run: seq<Step>)
    requires !Ships(img) && Fails(img.entries) && !PassesDeep(img.entries)
    ensures Install([], img, run) && After(BLANK, [Begin(img)] + run).report == Failed(img.ver)
  {
    hide CanRun, After, Unpacked, Fails, Ships, PassesDeep, Deep, Rooted;
    var n := |img.entries|;
    assert img.entries[..n] == img.entries;
    var all := ReachEntry(img, n);
    NoRecordMade(img, n);
    NotDeepSoFar(img.entries, n);
    Extend(BLANK, all, Go);
    var more := ClearAll(After(BLANK, all + [Go]));
    RunAppend(BLANK, all + [Go], more);
    run := all[1..] + [Go] + more;
    assert [Begin(img)] + run == all + [Go] + more;
    RunNone(BLANK);
  }

  /**
    With nothing but power cuts before it, every undisturbed install that comes to
    its end is a success exactly when no tree on the way is too deep, no entry has
    to fail and no file is lost.
   */
  lemma RecoversIff(img: Image)
    requires !Ships(img)
    ensures (!PassesDeep(img.entries) && !Fails(img.entries) && Lost(img.entries) == {}) <==>
            forall past, run :: Install(past, img, run) && UsesOnly(past, {img}) && Steady(past) ==>
              Success(After(After(BLANK, past), [Begin(img)] + run), img, {img})
  {
    hide CanRun, After, Fails, Lost, Ships, WholeFrom, Unpacked, PassesDeep, Deep, CutPc;
    BlankCut(img);
    if PassesDeep(img.entries) {
      var past := CutWhenDeep(img);
      var run := StuckSaysInstalled(After(BLANK, past), img);
      assert Install(past, img, run);
    } else if Fails(img.entries) {
      var run := FailedInstall(img);
      assert UsesOnly([], {img}) && Steady([]);
      assert After(BLANK, []) == BLANK by { RunNone(BLANK); }
    } else if Lost(img.entries) != {} {
      var past := CleanInstall(img);
      RunKeepsCut(BLANK, past, img);
      CutRecordWhole(After(BLANK, past), img);
      var run := RecordSaysInstalled(After(BLANK, past), img);
      assert Install(past, img, run);
    } else {
      forall past, run | Install(past, img, run) && UsesOnly(past, {img}) && Steady(past)
        ensures Success(After(After(BLANK, past), [Begin(img)] + run), img, {img})
      {
        InstallSucceeds(past, img, run);
      }
    }
  }

  lemma InstallSucceeds(past: seq<Step>, img: Image, run: seq<Step>)
    requires !Ships(img) && !PassesDeep(img.entries) && !Fails(img.entries) && Lost(img.entries) == {}
    requires Install(past, img, run) && UsesOnly(past, {img}) && Steady(past)
    ensures Success(After(After(BLANK, past), [Begin(img)] + run), img, {img})
  {
    hide Fails, Lost, Ships, WholeFrom, Unpacked, PassesDeep, Deep, CutPc, Complete;
    BlankCut(img);
    var s := After(BLANK, past);
    assert ([Begin(img)] + run)[1..] == run;
    QuietReports(Do(s, Begin(img)), run);
    SayingIsSteady(past, img, run);
    hide CanRun, After;
    RunKeepsClear(BLANK, past + ([Begin(img)] + run), img);
    var t := After(s, [Begin(img)] + run);
    CutRecordWhole(t, img);
  }

  // ---- the smallest image that loses a file ---------------------------------------------------

  /** A file in a directory, then, as a later layer might have it, an empty file in the directory's place. */
  const LAYERS := Image("1", [Regular(["a", "b"], "x"), Regular(["a"], "")], "")

  const FIRST: Tree := map[["a"] := Dir, ["a", "b"] := File("x")]

  lemma FirstLayer()
    ensures Apply(map[], LAYERS.entries[0]) == FIRST && !Counted(map[], LAYERS.entries[0])
    ensures !Loses(map[], LAYERS.entries[0])
  {
    var a: Path, b: Path := ["a"], ["a", "b"];
    var none: Tree := map[];
    assert b[..1] == a;
    forall q | q in Parents(b)
      ensures q == a
    {
      assert q == b[..|q|];
    }
    assert Parents(b) == {a};
    assert WithParents(none, b) == map[a := Dir];
  }

  lemma SecondLayer()
    ensures Apply(FIRST, LAYERS.entries[1]) == FIRST
    ensures !Counted(FIRST, LAYERS.entries[1]) && Loses(FIRST, LAYERS.entries[1])
  {
    var a: Path, b: Path := ["a"], ["a", "b"];
    assert b in FIRST && a < b;
    assert Parents(a) == {};
    assert WithParents(FIRST, a) == FIRST;
  }

  lemma LayersUnpack()
    ensures !Fails(LAYERS.entries) && Lost(LAYERS.entries) == {["a"]} && Unpacked(LAYERS.entries) == FIRST
  {
    var es := LAYERS.entries;
    FirstLayer();
    SecondLayer();
    hide Apply, Counted, Loses, FIRST;
    assert es[..2] == es && es[..1][..0] == [] && es[..0] == [];
    Snoc(es, 0);
    Snoc(es, 1);
    assert Lost(es[..1]) == {};
  }

  lemma LayersPlain()
    ensures !Ships(LAYERS) && Shallow(LAYERS) && Once(LAYERS.entries)
  {
    var es := LAYERS.entries;
    assert |es[0].path[0]| == 1 && |es[1].path[0]| == 1 && |RECORD[0]| == 4;
    assert |es[0].path| == 2 && |es[1].path| == 1;
  }

  /** It meets every other condition, and an install that nothing disturbs records it without the file. */
  lemma LayersLose() returns (run: seq<Step>)
    ensures !Ships(LAYERS) && Shallow(LAYERS) && Once(LAYERS.entries) && !Fails(LAYERS.entries)
    ensures CanRun(BLANK, run) && UsesOnly(run, {LAYERS}) && Steady(run)
    ensures var s := After(BLANK, run);
            HasRecord(s, LAYERS.ver) && !WholeFrom(s.dirs[LAYERS.ver], LAYERS.ver, {LAYERS})
  {
    hide CanRun, After, Unpacked, Fails, Lost, WholeFrom, Ships, Shallow, Once;
    LayersUnpack();
    LayersPlain();
    run := CleanInstall(LAYERS);
    BlankCut(LAYERS);
    RunKeepsCut(BLANK, run, LAYERS);
    CutRecordWhole(After(BLANK, run), LAYERS);
  }
}
