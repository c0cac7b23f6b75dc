/**
  What an undisturbed install comes to, on a disk with any history of installs
  that were cut short or failed.
 */
module Recovery {
  import opened Bits
  import opened Installer

  // ---- what unpacking comes to ----------------------------------------------------------------

  function Parents(p: Path): (ps: set<Path>)
    ensures forall q: Path :: q in ps <==> q < p
  {
    ParentsAre(p);
    set k | 1 <= k < |p| :: Parent(p, k)
  }

  function Parent(p: Path, k: nat): Path
    requires 1 <= k < |p|
  {
    p[..k]
  }

  lemma ParentsAre(p: Path)
    ensures forall q: Path :: q < p ==> q == Parent(p, |q|)
  {
  }

  /** The tree with every parent of `p` that can be made. */
  function WithParents(d: Tree, p: Path): Tree
  {
    d + map q | q in Parents(p) && q !in d && !Blocked(d, q) :: Dir
  }

  /** A file cannot be put at `p`. */
  predicate Conflict(d: Tree, p: Path)
  {
    Blocked(d, p) || Occupied(d, p)
  }

  /** The tree after one entry, nothing disturbing. */
  function Apply(d: Tree, e: Entry): Tree
  {
    match e
    case Folder(p) =>
      var t := WithParents(d, p);
      if p in d || Blocked(d, p) then t else t[p := Dir]
    case Regular(p, data) =>
      var t := WithParents(d, p);
      if Conflict(d, p) then t else t[p := File(data)]
    case Symlink(p) => Unlinked(WithParents(d, p), p)
    case HardLink(p) => Unlinked(WithParents(d, p), p)
    case Whiteout(p) => Unlinked(d, p)
  }

  function Unpacked(es: seq<Entry>): Tree
  {
    if es == [] then map[] else Apply(Unpacked(es[..|es| - 1]), es[|es| - 1])
  }

  /** The entry is counted as a failure: a hard link always, a file when its place is taken, unless it passes. */
  predicate Counted(d: Tree, e: Entry)
  {
    e.HardLink? || (e.Regular? && Conflict(d, e.path) && (Blocked(d, e.path) || e.data != ""))
  }

  /** The entry is an empty file that passes for written where a directory stays. */
  predicate Loses(d: Tree, e: Entry)
  {
    Empty(e) && Occupied(d, e.path)
  }

  /** Some entry is counted. */
  predicate Fails(es: seq<Entry>)
  {
    es != [] && (Fails(es[..|es| - 1]) || Counted(Unpacked(es[..|es| - 1]), es[|es| - 1]))
  }

  /** The paths whose last entry was lost in that way. */
  function Lost(es: seq<Entry>): set<Path>
  {
    if es == [] then {}
    else
      var l, e := Lost(es[..|es| - 1]), es[|es| - 1];
      if e.Folder? then l else if Loses(Unpacked(es[..|es| - 1]), e) then l + {e.path} else l - {e.path}
  }

  predicate Linked(es: seq<Entry>)
  {
    exists i :: 0 <= i < |es| && es[i].HardLink?
  }

  /** Whatever is there is in a directory that is there. */
  predicate Rooted(d: Tree)
  {
    forall p :: p in d ==> ParentsMade(d, p)
  }

  lemma Snoc(es: seq<Entry>, i: nat)
    requires i < |es|
    ensures Unpacked(es[..i + 1]) == Apply(Unpacked(es[..i]), es[i])
    ensures Fails(es[..i + 1]) <==> Fails(es[..i]) || Counted(Unpacked(es[..i]), es[i])
  {
    assert es[..i + 1][..i] == es[..i];
  }

  lemma TriedIsDone(d: Tree, p: Path)
    requires ParentsTried(d, p)
    ensures WithParents(d, p) == d
    ensures ParentsMade(d, p) <==> !Blocked(d, p)
  {
    forall q | q in Parents(p) && q !in d
      ensures Blocked(d, q)
    {
      assert q == p[..|q|];
    }
    if !Blocked(d, p) {
      forall k | 1 <= k < |p|
        ensures p[..k] in d && d[p[..k]].Dir?
      {
        NotBlockedUp(d, p, k);
      }
    }
  }

  lemma NotBlockedUp(d: Tree, p: Path, k: nat)
    requires 1 <= k < |p| && !Blocked(d, p)
    ensures !Blocked(d, p[..k]) && (p[..k] in d ==> d[p[..k]].Dir?)
  {
    forall j | 1 <= j < k
      ensures p[..k][..j] == p[..j]
    {
    }
  }

  lemma NotBlockedInside(d: Tree, p: Path)
    requires Rooted(d) && p in d
    ensures !Blocked(d, p)
  {
  }

  /** Where the entry's own operations can have got to: ending it from here comes to the same. */
  predicate OnTheWay(d: Tree, was: Tree, e: Entry)
  {
    Rooted(d) && Apply(d, e) == Apply(was, e) && (Counted(d, e) <==> Counted(was, e))
  }

  function FilesOf(d: Tree): map<Path, Bytes>
  {
    map p | p in d && d[p].File? :: d[p].data
  }

  lemma WithParentsFiles(d: Tree, p: Path)
    ensures FilesOf(WithParents(d, p)) == FilesOf(d)
  {
  }

  lemma UnlinkedFiles(d: Tree, p: Path)
    ensures FilesOf(Unlinked(d, p)) == FilesOf(d) - {p}
  {
    hide HasChild;
    if Occupied(d, p) {
      assert FilesOf(d) - {p} == FilesOf(d);
    }
  }

  lemma ApplyFiles(d: Tree, e: Entry)
    requires !Counted(d, e)
    ensures FilesOf(Apply(d, e)) == match e
                                    case Folder(_) => FilesOf(d)
                                    case Regular(p, data) => if Loses(d, e) then FilesOf(d) else FilesOf(d)[p := data]
                                    case _ => FilesOf(d) - {e.path}
  {
    hide Blocked, Occupied;
    var t := WithParents(d, e.path);
    WithParentsFiles(d, e.path);
    match e
    case Folder(p) =>
      assert p !in t ==> FilesOf(t[p := Dir]) == FilesOf(t);
    case Regular(p, data) =>
      assert FilesOf(t[p := File(data)]) == FilesOf(t)[p := data];
    case Whiteout(p) =>
      UnlinkedFiles(d, p);
    case _ =>
      UnlinkedFiles(t, e.path);
  }

  /** If no entry is counted, the files unpacked are exactly those of the image that were not lost; the lost are empty. */
  lemma {:induction false} UnpackedFiles(es: seq<Entry>)
    requires !Fails(es)
    ensures FilesOf(Unpacked(es)) == Files(es) - Lost(es)
    ensures forall p :: p in Lost(es) ==> p in Files(es) && Files(es)[p] == ""
  {
    hide Apply, FilesOf, Counted, Loses;
    if es == [] {
      NoFiles();
    } else {
      var d, e := Unpacked(es[..|es| - 1]), es[|es| - 1];
      UnpackedFiles(es[..|es| - 1]);
      ApplyFiles(d, e);
      LosesNoFile(d, e);
    }
  }

  lemma LosesNoFile(d: Tree, e: Entry)
    ensures Loses(d, e) ==> Empty(e) && e.path !in FilesOf(d)
  {
  }

  /** Every file of the image is there exactly when none was lost. */
  lemma NothingLostIff(es: seq<Entry>)
    requires !Fails(es)
    ensures Lost(es) == {} <==> FilesOf(Unpacked(es)) == Files(es)
  {
    hide Unpacked, FilesOf, Files, Lost, Fails;
    UnpackedFiles(es);
    if Lost(es) != {} {
      var p :| p in Lost(es);
      assert p !in FilesOf(Unpacked(es));
    } else {
      assert Files(es) - {} == Files(es);
    }
  }

  lemma NoFiles()
    ensures FilesOf(map[]) == map[]
  {
  }

  // ---- the operations of an entry, one by one -------------------------------------------------

  lemma BlockedPut(d: Tree, q: Path, p: Path)
    requires q !in d
    ensures Blocked(d[q := Dir], p) <==> Blocked(d, p)
  {
    if Blocked(d, p) {
      var k :| 1 <= k < |p| && p[..k] in d && !d[p[..k]].Dir?;
      assert p[..k] in d[q := Dir] && !d[q := Dir][p[..k]].Dir?;
    }
  }

  lemma BlockedDrop(d: Tree, p: Path, q: Path)
    requires q <= p
    ensures Blocked(d - {p}, q) <==> Blocked(d, q)
  {
    if Blocked(d, q) {
      var k :| 1 <= k < |q| && q[..k] in d && !d[q[..k]].Dir?;
      assert q[..k] in d - {p};
    }
  }

  lemma ParentsOfNext(d: Tree, p: Path, k: nat)
    requires Rooted(d) && 1 <= k < |p| && (k > 1 ==> p[..k - 1] in d && d[p[..k - 1]].Dir?)
    ensures ParentsMade(d, p[..k])
  {
    if k > 1 {
      var q: Path := p[..k];
      var up: Path := p[..k - 1];
      assert ParentsMade(d, up);
      forall j | 1 <= j < k
        ensures q[..j] in d && d[q[..j]].Dir?
      {
        assert j < k - 1 ==> q[..j] == up[..j];
        assert j == k - 1 ==> q[..j] == up;
      }
    }
  }

  lemma RootedPut(d: Tree, q: Path)
    requires Rooted(d) && q !in d && ParentsMade(d, q)
    ensures Rooted(d[q := Dir])
  {
    var d' := d[q := Dir];
    forall r | r in d'
      ensures ParentsMade(d', r)
    {
      assert ParentsMade(d, r);
    }
  }

  lemma MkdirSame(d: Tree, p: Path, q: Path)
    requires q < p && q !in d && !Blocked(d, q)
    ensures WithParents(d[q := Dir], p) == WithParents(d, p)
  {
    forall r: Path
      ensures Blocked(d[q := Dir], r) <==> Blocked(d, r)
    {
      BlockedPut(d, q, r);
    }
    hide Blocked;
    assert q in Parents(p);
  }

  /** Making a parent of `p` changes neither what is at `p` nor whether an unlink takes it. */
  lemma ParentIsOther(d: Tree, p: Path, k: nat)
    requires 1 <= k < |p| && p[..k] !in d
    ensures var d' := d[p[..k] := Dir];
            && (p in d' <==> p in d) && (p in d ==> d'[p] == d[p]) && (Blocked(d', p) <==> Blocked(d, p))
            && (Occupied(d', p) <==> Occupied(d, p))
            && (Unlinked(d, p) == d ==> Unlinked(d', p) == d')
  {
    var q: Path := p[..k];
    var d' := d[q := Dir];
    BlockedPut(d, q, p);
    hide Blocked;
    if Occupied(d, p) {
      var c :| c in d && p < c;
      assert c in d';
    } else if Unlinked(d, p) == d {
      assert p !in d by { assert p !in d - {p}; }
      assert d' - {p} == d';
    }
  }

  /** Making one parent. */
  lemma MkdirOnTheWay(d: Tree, e: Entry, k: nat)
    requires Rooted(d) && !e.Whiteout? && 1 <= k < |e.path| && e.path[..k] !in d
    requires k > 1 ==> e.path[..k - 1] in d && d[e.path[..k - 1]].Dir?
    ensures OnTheWay(d[e.path[..k] := Dir], d, e)
  {
    var p := e.path;
    ParentsOfNext(d, p, k);
    RootedPut(d, p[..k]);
    assert !Blocked(d, p[..k]);
    MkdirSame(d, p, p[..k]);
    ParentIsOther(d, p, k);
  }

  lemma DropOnTheWay(d: Tree, e: Entry)
    requires Rooted(d) && !e.Folder?
    ensures OnTheWay(Unlinked(d, e.path), d, e)
  {
    var p := e.path;
    if p in d && !Occupied(d, p) {
      var d' := d - {p};
      forall r | r in d'
        ensures ParentsMade(d', r)
      {
        assert ParentsMade(d, r);
      }
      forall q: Path | q <= p
        ensures Blocked(d', q) <==> Blocked(d, q)
      {
        BlockedDrop(d, p, q);
      }
      NotBlockedInside(d, p);
      DropSame(d, p, if e.Regular? then File(e.data) else Dir);
    } else {
      assert Unlinked(d, p) == d;
    }
  }

  lemma DropSame(d: Tree, p: Path, n: Node)
    requires p in d && !Occupied(d, p) && forall q: Path :: q <= p ==> (Blocked(d - {p}, q) <==> Blocked(d, q))
    ensures WithParents(d - {p}, p) == WithParents(d, p) - {p}
    ensures !Occupied(WithParents(d, p), p) && Unlinked(WithParents(d - {p}, p), p) == Unlinked(WithParents(d, p), p)
    ensures WithParents(d - {p}, p)[p := n] == WithParents(d, p)[p := n]
  {
    hide Blocked;
    var t: Tree := WithParents(d, p);
    var t': Tree := WithParents(d - {p}, p);
    assert t' == t - {p};
    assert t[p] == d[p];
    assert HasChild(t, p) ==> HasChild(d, p);
    assert t - {p} - {p} == t - {p};
  }

  lemma WriteOnTheWay(d: Tree, e: Entry, n: Node)
    requires Rooted(d) && e.Regular? && n.File? && ParentsMade(d, e.path) && (e.path in d ==> d[e.path].File?)
    ensures OnTheWay(d[e.path := n], d, e)
  {
    var p := e.path;
    var d' := d[p := n];
    forall r | r in d'
      ensures ParentsMade(d', r)
    {
      if r != p {
        assert ParentsMade(d, r);
        assert p < r ==> r[..|p|] == p;
      }
    }
    assert !Blocked(d, p) && !Blocked(d', p);
    assert ParentsTried(d, p) && ParentsTried(d', p);
    TriedIsDone(d, p);
    TriedIsDone(d', p);
  }

  /** Ending an entry gives the tree and the count that the whole entry comes to. */
  lemma EndOfEntry(s: State)
    requires AtEntry(s) && Rooted(Here(s)) && Enabled(s, Go)
    ensures var t := Do(s, Go);
            && InTree(t) && t.dirs == s.dirs[s.pc.img.ver := Here(t)]
            && Here(t) == Apply(Here(s), Now(s)) && Rooted(Here(t))
            && t.pc == Unpacking(s.pc.img, s.pc.i + 1, s.pc.failed || Counted(Here(s), Now(s)))
  {
    var d, e := Here(s), Now(s);
    if !e.Whiteout? {
      TriedIsDone(d, e.path);
      if e.path in d {
        NotBlockedInside(d, e.path);
      }
    }
    hide ParentsTried, WithParents, Blocked, HasChild, Rooted, ParentsMade;
    if e.Folder? && e.path !in d && ParentsMade(d, e.path) {
      RootedPut(d, e.path);
    }
    assert e.Regular? && e.path in d && d[e.path] == File(e.data) ==> d[e.path := File(e.data)] == d;
  }

  // ---- what every undisturbed step keeps ------------------------------------------------------

  /** The record, and otherwise exactly what the entries come to. */
  predicate Complete(d: Tree, img: Image)
  {
    d == Unpacked(img.entries)[RECORD := File(img.note)]
  }

  predicate NewTree(d: Tree, img: Image)
  {
    RECORD !in d && d == Unpacked(img.entries)
  }

  predicate UnpackKept(d: Tree, es: seq<Entry>, i: nat, failed: bool)
    requires i <= |es|
  {
    && (failed <==> Fails(es[..i]))
    && if i < |es| then OnTheWay(d, Unpacked(es[..i]), es[i]) else d == Unpacked(es)
  }

  /** Where an undisturbed install of `img` can be. */
  ghost predicate Kept(s: State, img: Image, imgs: set<Image>)
  {
    !s.pc.Idle? && s.pc.img == img && Inv(s, imgs) && TidyDisk(s) && KeptPc(s)
  }

  ghost predicate KeptPc(s: State)
    requires !s.pc.Idle? && PcInv(s)
  {
    var img := s.pc.img;
    match s.pc
    case Decide(_) => img.ver in s.dirs ==> HasRecord(s, img.ver)
    case Unpacking(_, i, failed) => UnpackKept(s.dirs[img.ver], img.entries, i, failed)
    case Aborting(_) => Fails(img.entries)
    case DropRecord(_) => !Fails(img.entries) && NewTree(s.dirs[img.ver], img)
    case CreateRecord(_) => !Fails(img.entries) && NewTree(s.dirs[img.ver], img)
    case WriteRecord(_) => !Fails(img.entries) && s.dirs[img.ver] == Unpacked(img.entries)[RECORD := File("")]
    case DropCurrent(_) => !Fails(img.entries) && HasRecord(s, img.ver) && Complete(s.dirs[img.ver], img)
    case CreateCurrent(_) =>
      !Fails(img.entries) && HasRecord(s, img.ver) && Complete(s.dirs[img.ver], img) && s.current.None?
    case WriteCurrent(_) => !Fails(img.entries) && HasRecord(s, img.ver) && Complete(s.dirs[img.ver], img)
    case _ => true
  }

  /** The version is recorded and has every file; if it was just installed it is exactly the image, and active. */
  ghost predicate Success(s: State, img: Image, imgs: set<Image>)
  {
    && s.pc.Idle? && HasRecord(s, img.ver) && WholeFrom(s.dirs[img.ver], img.ver, imgs)
    && (s.report == Installed(img.ver) || s.report == AlreadyThere(img.ver))
    && (s.report == Installed(img.ver) ==>
          !Fails(img.entries) && s.current == Some(img.ver) && Complete(s.dirs[img.ver], img))
  }

  /** The install failed, because an entry must fail, and left nothing. */
  ghost predicate Refused(s: State, img: Image)
  {
    s.pc.Idle? && Fails(img.entries) && s.report == Failed(img.ver) && img.ver !in s.dirs
  }

  ghost predicate Ended(s: State, img: Image, imgs: set<Image>)
  {
    Success(s, img, imgs) || Refused(s, img)
  }

  lemma StartOfEntry(es: seq<Entry>, i: nat)
    requires i <= |es| && Rooted(Unpacked(es[..i]))
    ensures UnpackKept(Unpacked(es[..i]), es, i, Fails(es[..i]))
  {
    assert es[..|es|] == es;
  }

  lemma NextEntryKeeps(s: State, imgs: set<Image>)
    requires !s.pc.Idle? && Kept(s, s.pc.img, imgs) && Enabled(s, Go) && AtEntry(s)
    requires Inv(Do(s, Go), imgs) && TidyDisk(Do(s, Go))
    ensures Kept(Do(s, Go), s.pc.img, imgs)
  {
    hide RecordMeansWhole, TidyDisk, Harmless, Ships, FilesSoFar, Do, Enabled, Apply, Counted, Rooted, Unpacked, Fails;
    var es, i := s.pc.img.entries, s.pc.i;
    EndOfEntry(s);
    Snoc(es, i);
    StartOfEntry(es, i + 1);
  }

  lemma EntryWorkKeeps(s: State, a: Step, imgs: set<Image>)
    requires !s.pc.Idle? && Kept(s, s.pc.img, imgs) && Enabled(s, a) && (a.Mkdir? || a.Drop? || a.Write?)
    requires Inv(Do(s, a), imgs) && TidyDisk(Do(s, a))
    ensures Kept(Do(s, a), s.pc.img, imgs)
  {
    hide RecordMeansWhole, TidyDisk, Harmless, Ships, FilesSoFar, Apply, Counted, Rooted, Unpacked, Fails, ParentsMade,
         Unlinked;
    var d, e := Here(s), Now(s);
    match a
    case Mkdir(k) => MkdirOnTheWay(d, e, k);
    case Drop => DropOnTheWay(d, e);
    case Write(n) => WriteOnTheWay(d, e, File(e.data[..n]));
  }

  lemma RecordStepKeeps(s: State, imgs: set<Image>)
    requires !s.pc.Idle? && Kept(s, s.pc.img, imgs) && Enabled(s, Go)
    requires s.pc.DropRecord? || s.pc.CreateRecord? || s.pc.WriteRecord?
    requires Inv(Do(s, Go), imgs) && TidyDisk(Do(s, Go))
    ensures Kept(Do(s, Go), s.pc.img, imgs)
  {
    hide RecordMeansWhole, TidyDisk, Harmless, Ships, Whole, Unpacked, Fails;
    var d := Here(s);
    assert RECORD !in d ==> !Occupied(d, RECORD) && d - {RECORD} == d;
    var u: Tree := Unpacked(s.pc.img.entries);
    var v: Tree := u[RECORD := File("")];
    assert v[RECORD := File(s.pc.img.note)] == u[RECORD := File(s.pc.img.note)];
  }

  lemma GoKeeps(s: State, imgs: set<Image>)
    requires !s.pc.Idle? && Kept(s, s.pc.img, imgs) && !Ships(s.pc.img) && Enabled(s, Go)
    requires Inv(Do(s, Go), imgs) && TidyDisk(Do(s, Go))
    ensures Kept(Do(s, Go), s.pc.img, imgs) || Ended(Do(s, Go), s.pc.img, imgs)
  {
    hide FilesSoFar, TidyDisk, HasChild, Harmless, Ships, Whole, EntryOver, NextEntry, OnTheWay;
    var img := s.pc.img;
    if AtEntry(s) {
      NextEntryKeeps(s, imgs);
    } else if s.pc.DropRecord? || s.pc.CreateRecord? || s.pc.WriteRecord? {
      RecordStepKeeps(s, imgs);
    } else {
      assert img.entries[..0] == [] && Rooted(map[]);
      StartOfEntry(img.entries, 0);
      assert img.entries[..|img.entries|] == img.entries;
    }
  }

  lemma RemoveKeeps(s: State, p: Path, imgs: set<Image>)
    requires !s.pc.Idle? && Kept(s, s.pc.img, imgs) && Enabled(s, Remove(p))
    requires Inv(Do(s, Remove(p)), imgs) && TidyDisk(Do(s, Remove(p)))
    ensures Kept(Do(s, Remove(p)), s.pc.img, imgs)
  {
    hide Inv, TidyDisk, Fails, HasChild;
  }

  /** Every step nothing disturbs leads to a good end or keeps the way to one. */
  lemma QuietKeeps(s: State, a: Step, img: Image, imgs: set<Image>)
    requires Kept(s, img, imgs) && !Ships(img) && Enabled(s, a) && QuietStep(a)
    ensures Kept(Do(s, a), img, imgs) || Ended(Do(s, a), img, imgs)
  {
    hide Do, Enabled, Ships, RecordMeansWhole, PcInv, TidyDisk, KeptPc, Ended, Deep, Harmless;
    StepKeepsInv(s, a, imgs);
    StepKeepsTidy(s, a);
    match a
    case Go => GoKeeps(s, imgs);
    case Remove(p) => RemoveKeeps(s, p, imgs);
    case GiveUp => NeverGivesUp(s); assert false;
    case _ => EntryWorkKeeps(s, a, imgs);
  }

  lemma NeverGivesUp(s: State)
    requires !s.pc.Idle? && PcInv(s) && !Ships(s.pc.img) && TidyDisk(s)
    ensures !Enabled(s, GiveUp)
  {
    if Removing(s.pc) && InTree(s) {
      TidyIsNotDeep(Here(s));
    }
  }

  lemma IdleIsDone(s: State, a: Step)
    requires s.pc.Idle? && QuietStep(a)
    ensures !Enabled(s, a)
  {
  }

  lemma {:induction false} QuietRun(s: State, run: seq<Step>, img: Image, imgs: set<Image>)
    requires Kept(s, img, imgs) && !Ships(img) && CanRun(s, run) && Quiet(run)
    ensures Kept(After(s, run), img, imgs) || Ended(After(s, run), img, imgs)
    decreases |run|
  {
    hide Do, Enabled, Ships, Inv, TidyDisk, KeptPc, QuietStep, Complete;
    if run != [] {
      var t := Do(s, run[0]);
      assert QuietStep(run[0]);
      QuietKeeps(s, run[0], img, imgs);
      if t.pc.Idle? {
        if |run| > 1 {
          assert QuietStep(run[1]) && Enabled(t, run[1..][0]);
          IdleIsDone(t, run[1]);
        }
      } else {
        QuietRun(t, run[1..], img, imgs);
      }
    }
  }

  // ---- the way to the end -------------------------------------------------------------------

  lemma {:induction false} Longest(ps: set<Path>) returns (p: Path)
    requires ps != {}
    ensures p in ps && forall q :: q in ps ==> |q| <= |p|
    decreases |ps|
  {
    p :| p in ps;
    if ps != {p} {
      assert ps - {p} != {} by {
        var q :| q in ps && q != p;
        assert q in ps - {p};
      }
      var q := Longest(ps - {p});
      if |q| > |p| {
        p := q;
      }
    }
  }

  /** A tidy tree can be taken away leaf by leaf. */
  lemma Leaf(s: State) returns (p: Path)
    requires Removing(s.pc) && InTree(s) && TidyTree(Here(s)) && RECORD !in Here(s) && Here(s) != map[]
    ensures Enabled(s, Remove(p)) && |Here(Do(s, Remove(p)))| < |Here(s)|
  {
    var d := Here(s);
    assert d.Keys != {};
    p := Longest(d.Keys);
    assert (d - {p}).Keys == d.Keys - {p};
  }

  /** The parents still to be made. */
  function Missing(d: Tree, p: Path): set<nat>
  {
    set k: nat | 1 <= k < |p| && p[..k] !in d && !Blocked(d, p[..k])
  }

  /** What is left to do for the entry before it is over. */
  function Pending(d: Tree, e: Entry): nat
  {
    match e
    case Folder(p) => |Missing(d, p)|
    case Regular(p, data) =>
      |Missing(d, p)| + if Conflict(d, p) then 0 else if p !in d then 1 else if d[p].Dir? then 2
                        else if d[p] == File(data) then 0 else 1
    case Whiteout(p) => if Unlinked(d, p) == d then 0 else 1
    case _ => |Missing(d, e.path)| + if Unlinked(d, e.path) == d then 0 else 1
  }

  lemma NothingMissing(d: Tree, p: Path)
    requires Missing(d, p) == {}
    ensures ParentsTried(d, p)
  {
    forall k: nat | 1 <= k < |p|
      ensures p[..k] in d || Blocked(d, p[..k])
    {
      assert k !in Missing(d, p);
    }
  }

  lemma BlockedLonger(d: Tree, p: Path, n: nat)
    requires 1 < n < |p| && !Blocked(d, p[..n])
    ensures !Blocked(d, p[..n - 1]) && (p[..n - 1] in d ==> d[p[..n - 1]].Dir?)
  {
    NotBlockedUp(d, p[..n], n - 1);
    assert p[..n][..n - 1] == p[..n - 1];
  }

  lemma {:induction false} FirstMissing(d: Tree, p: Path, n: nat) returns (k: nat)
    requires n in Missing(d, p)
    ensures k in Missing(d, p) && (k > 1 ==> p[..k - 1] in d && d[p[..k - 1]].Dir?)
    decreases n
  {
    k := n;
    if n > 1 {
      BlockedLonger(d, p, n);
      if p[..n - 1] !in d {
        k := FirstMissing(d, p, n - 1);
      }
    }
  }

  lemma FewerMissing(d: Tree, p: Path, k: nat)
    requires k in Missing(d, p)
    ensures |Missing(d[p[..k] := Dir], p)| < |Missing(d, p)|
  {
    var q: Path := p[..k];
    var after := Missing(d[q := Dir], p);
    assert k !in after;
    forall j | j in after
      ensures j in Missing(d, p) - {k}
    {
      BlockedPut(d, q, p[..j]);
    }
    Smaller(after, Missing(d, p) - {k});
  }

  lemma {:induction false} Smaller(a: set<nat>, b: set<nat>)
    requires a <= b
    ensures |a| <= |b|
    decreases a
  {
    if a != {} {
      var x :| x in a;
      Smaller(a - {x}, b - {x});
    }
  }

  /** A parent is missing: it can be made, and less is pending. */
  lemma MakeAParent(s: State) returns (a: Step)
    requires AtEntry(s) && !Now(s).Whiteout? && Missing(Here(s), Now(s).path) != {}
    ensures a.Mkdir? && Enabled(s, a) && Pending(Here(Do(s, a)), Now(s)) < Pending(Here(s), Now(s))
  {
    var d, e := Here(s), Now(s);
    var p := e.path;
    var n :| n in Missing(d, p);
    var k := FirstMissing(d, p, n);
    a := Mkdir(k);
    FewerMissing(d, p, k);
    ParentIsOther(d, p, k);
    hide Missing, HasChild, ParentsMade, Blocked;
  }

  lemma DropIsDone(d: Tree, p: Path)
    ensures Unlinked(Unlinked(d, p), p) == Unlinked(d, p)
  {
    if !Occupied(d, p) {
      assert d - {p} - {p} == d - {p};
    }
  }

  lemma SameMissing(d: Tree, p: Path, n: Node)
    ensures Missing(Unlinked(d, p), p) == Missing(d, p) && Missing(d[p := n], p) == Missing(d, p)
  {
    forall k | 1 <= k < |p|
      ensures Blocked(Unlinked(d, p), p[..k]) <==> Blocked(d, p[..k])
      ensures Blocked(d[p := n], p[..k]) <==> Blocked(d, p[..k])
    {
      BlockedDrop(d, p, p[..k]);
      BlockedSet(d, p, n, p[..k]);
    }
  }

  lemma BlockedSet(d: Tree, p: Path, n: Node, q: Path)
    requires q <= p
    ensures Blocked(d[p := n], q) <==> Blocked(d, q)
  {
    if Blocked(d, q) {
      var k :| 1 <= k < |q| && q[..k] in d && !d[q[..k]].Dir?;
      assert q[..k] in d[p := n] && d[p := n][q[..k]] == d[q[..k]];
    }
  }

  /** The parents are made and the entry is not over: its own path is next. */
  lemma OwnPathStep(s: State) returns (a: Step)
    requires AtEntry(s) && !EntryOver(Here(s), Now(s)) && (!Now(s).Whiteout? ==> ParentsTried(Here(s), Now(s).path))
    ensures (a.Drop? || a.Write?) && Enabled(s, a) && Pending(Here(Do(s, a)), Now(s)) < Pending(Here(s), Now(s))
  {
    var d, e := Here(s), Now(s);
    var p := e.path;
    if !e.Whiteout? {
      TriedIsDone(d, p);
    }
    DropIsDone(d, p);
    SameMissing(d, p, if e.Regular? then File(e.data) else Dir);
    hide Missing, HasChild, ParentsMade, Blocked, ParentsTried;
    if e.Regular? && (p in d ==> d[p].File?) {
      a := Write(|e.data|);
      assert e.data[..|e.data|] == e.data;
    } else {
      a := Drop;
    }
  }

  /** Whatever is pending can be done, and then the entry ended. */
  lemma EntryStep(s: State) returns (a: Step)
    requires AtEntry(s)
    ensures QuietStep(a) && Enabled(s, a)
    ensures !a.Go? ==>
              (a.Mkdir? || a.Drop? || a.Write?) && Pending(Here(Do(s, a)), Now(s)) < Pending(Here(s), Now(s))
  {
    hide Pending, Do;
    var d, e := Here(s), Now(s);
    if EntryOver(d, e) {
      a := Go;
    } else if !e.Whiteout? && Missing(d, e.path) != {} {
      a := MakeAParent(s);
    } else {
      if !e.Whiteout? {
        NothingMissing(d, e.path);
      }
      a := OwnPathStep(s);
    }
  }

  function Stage(pc: Pc): nat
  {
    match pc
    case Check(_) => 12
    case Clearing(_) => 11
    case Decide(_) => 10
    case MakeDir(_) => 9
    case Unpacking(_, _, _) => 8
    case Aborting(_) => 7
    case DropRecord(_) => 6
    case CreateRecord(_) => 5
    case WriteRecord(_) => 4
    case DropCurrent(_) => 3
    case CreateCurrent(_) => 2
    case WriteCurrent(_) => 1
    case Idle => 0
  }

  function EntriesLeft(s: State): nat
  {
    if s.pc.Unpacking? && s.pc.i <= |s.pc.img.entries| then |s.pc.img.entries| - s.pc.i else 0
  }

  function WorkLeft(s: State): nat
  {
    if AtEntry(s) then Pending(Here(s), Now(s)) else if Removing(s.pc) && InTree(s) then |Here(s)| else 0
  }

  predicate Nearer(s: State, t: State)
  {
    || Stage(t.pc) < Stage(s.pc)
    || (Stage(t.pc) == Stage(s.pc) && EntriesLeft(t) < EntriesLeft(s))
    || (Stage(t.pc) == Stage(s.pc) && EntriesLeft(t) == EntriesLeft(s) && WorkLeft(t) < WorkLeft(s))
  }

  lemma UnpackStep(s: State) returns (a: Step)
    requires AtEntry(s)
    ensures QuietStep(a) && Enabled(s, a) && Nearer(s, Do(s, a))
  {
    hide Pending, EntryOver, ParentsMade, Occupied;
    a := EntryStep(s);
  }

  lemma RemovalStep(s: State) returns (a: Step)
    requires Removing(s.pc) && TidyDisk(s) && PcInv(s) && !Ships(s.pc.img)
    ensures QuietStep(a) && Enabled(s, a) && Nearer(s, Do(s, a))
  {
    if InTree(s) && Here(s) != map[] {
      var p := Leaf(s);
      hide HasChild, TidyDisk;
      a := Remove(p);
    } else {
      a := Go;
    }
  }

  /** There is always a next step, and it leads nearer to the end. */
  lemma NextStep(s: State, img: Image, imgs: set<Image>) returns (a: Step)
    requires Kept(s, img, imgs) && !Ships(img)
    ensures QuietStep(a) && Enabled(s, a) && Nearer(s, Do(s, a))
  {
    hide TidyDisk, NextEntry, EntryOver, RecordMeansWhole, FilesSoFar, Whole, Harmless, Ships;
    if AtEntry(s) {
      a := UnpackStep(s);
    } else if Removing(s.pc) {
      a := RemovalStep(s);
    } else {
      a := Go;
    }
  }

  /** From anywhere in an undisturbed install there is an undisturbed way to a good end. */
  lemma {:induction false} Finish(s: State, img: Image, imgs: set<Image>) returns (run: seq<Step>)
    requires Kept(s, img, imgs) && !Ships(img)
    ensures CanRun(s, run) && Quiet(run) && Ended(After(s, run), img, imgs)
    decreases Stage(s.pc), EntriesLeft(s), WorkLeft(s)
  {
    hide Do, Enabled, Ships, Inv, TidyDisk, KeptPc, QuietStep, Complete, Stage, EntriesLeft, WorkLeft, CanRun, After;
    var a := NextStep(s, img, imgs);
    QuietKeeps(s, a, img, imgs);
    RunOne(s, a);
    if Do(s, a).pc.Idle? {
      run := [a];
    } else {
      var rest := Finish(Do(s, a), img, imgs);
      RunAppend(s, [a], rest);
      run := [a] + rest;
    }
  }

  // ---- whole entries ------------------------------------------------------------------------

  lemma EntryWork(s: State, a: Step)
    requires AtEntry(s) && Rooted(Here(s)) && Enabled(s, a) && (a.Mkdir? || a.Drop? || a.Write?)
    ensures var t := Do(s, a);
            AtEntry(t) && t == SetTree(s, Here(t)) && Now(t) == Now(s) && OnTheWay(Here(t), Here(s), Now(s))
  {
    hide OnTheWay, Rooted, ParentsMade, Unlinked;
    var d, e := Here(s), Now(s);
    match a
    case Mkdir(k) => MkdirOnTheWay(d, e, k);
    case Drop => DropOnTheWay(d, e);
    case Write(n) => WriteOnTheWay(d, e, File(e.data[..n]));
  }

  /** The operations of one entry, to its end. */
  lemma {:induction false} DoEntry(s: State) returns (run: seq<Step>)
    requires AtEntry(s) && Rooted(Here(s))
    ensures CanRun(s, run) && Quiet(run)
    ensures var t := After(s, run);
            && t.dirs == s.dirs[s.pc.img.ver := Apply(Here(s), Now(s))] && Rooted(t.dirs[s.pc.img.ver])
            && t.pc == Unpacking(s.pc.img, s.pc.i + 1, s.pc.failed || Counted(Here(s), Now(s)))
    decreases Pending(Here(s), Now(s))
  {
    hide Do, Enabled, CanRun, After, Pending, Apply, Counted, Rooted;
    var a := EntryStep(s);
    RunOne(s, a);
    if a.Go? {
      EndOfEntry(s);
      run := [a];
    } else {
      EntryWork(s, a);
      var rest := DoEntry(Do(s, a));
      RunAppend(s, [a], rest);
      run := [a] + rest;
    }
  }

  // ---- recovery -----------------------------------------------------------------------------

  /** An undisturbed install of `img` that came to its end, on a disk with history `past`. */
  ghost predicate Install(past: seq<Step>, img: Image, run: seq<Step>)
  {
    && CanRun(BLANK, past) && After(BLANK, past).pc.Idle? && Quiet(run)
    && CanRun(After(BLANK, past), [Begin(img)] + run) && After(After(BLANK, past), [Begin(img)] + run).pc.Idle?
  }

  lemma BeginKept(s: State, img: Image, imgs: set<Image>)
    requires s.pc.Idle? && Inv(s, imgs) && TidyDisk(s) && img in imgs && Sound(img) && Shallow(img)
    ensures Enabled(s, Begin(img)) && Kept(Do(s, Begin(img)), img, imgs)
  {
    hide RecordMeansWhole, Sound, Shallow, TidyTree;
    StepKeepsInv(s, Begin(img), imgs);
  }

  /** After any history, every undisturbed install ends in success or, if an entry must fail, leaves nothing. */
  lemma RecoversAlways(past: seq<Step>, img: Image, run: seq<Step>, imgs: set<Image>)
    requires Install(past, img, run) && UsesOnly(past, imgs) && img in imgs
    requires forall i :: i in imgs ==> Sound(i) && Shallow(i)
    requires !Ships(img)
    ensures Ended(After(After(BLANK, past), [Begin(img)] + run), img, imgs)
  {
    hide Do, Enabled, Ships, TidyDisk, KeptPc, Ended, Inv, Sound, Shallow;
    BlankInv(imgs);
    BlankTidy();
    RunKeepsTidy(BLANK, past, imgs);
    var s := After(BLANK, past);
    BeginKept(s, img, imgs);
    assert ([Begin(img)] + run)[1..] == run;
    QuietRun(Do(s, Begin(img)), run, img, imgs);
  }

  /** Such an install exists after every history. */
  lemma CanInstall(past: seq<Step>, img: Image, imgs: set<Image>) returns (run: seq<Step>)
    requires CanRun(BLANK, past) && After(BLANK, past).pc.Idle? && UsesOnly(past, imgs) && img in imgs
    requires forall i :: i in imgs ==> Sound(i) && Shallow(i)
    requires !Ships(img)
    ensures Install(past, img, run)
  {
    hide Do, Enabled, Ships, TidyDisk, KeptPc, Inv, Sound, Shallow, CanRun, After;
    BlankInv(imgs);
    BlankTidy();
    RunKeepsTidy(BLANK, past, imgs);
    var s := After(BLANK, past);
    BeginKept(s, img, imgs);
    run := Finish(Do(s, Begin(img)), img, imgs);
    RunOne(s, Begin(img));
    RunAppend(s, [Begin(img)], run);
  }

  // ---- hard links ---------------------------------------------------------------------------

  /** No record of a version whose image has a hard link. */
  ghost predicate Unrecorded(s: State, img: Image)
  {
    && !HasRecord(s, img.ver) && s.report != Installed(img.ver)
    && (!s.pc.Idle? ==> s.pc.img == img && Stage(s.pc) >= 7)
    && (s.pc.Unpacking? ==> s.pc.i <= |img.entries| && (Linked(img.entries[..s.pc.i]) ==> s.pc.failed))
  }

  lemma LinkedSnoc(es: seq<Entry>, i: nat)
    requires i < |es|
    ensures Linked(es[..i + 1]) <==> Linked(es[..i]) || es[i].HardLink?
  {
    if Linked(es[..i + 1]) {
      var k :| 0 <= k < i + 1 && es[..i + 1][k].HardLink?;
      assert k < i ==> es[..i][k].HardLink?;
    }
    if Linked(es[..i]) {
      var k :| 0 <= k < i && es[..i][k].HardLink?;
      assert es[..i + 1][k].HardLink?;
    }
    assert es[i].HardLink? ==> es[..i + 1][i].HardLink?;
  }

  lemma NoneYet(es: seq<Entry>)
    ensures !Linked(es[..0])
  {
  }

  lemma StepKeepsUnrecorded(s: State, a: Step, img: Image)
    requires Unrecorded(s, img) && Enabled(s, a) && Linked(img.entries) && !Ships(img)
    requires a.Begin? ==> a.img == img
    ensures Unrecorded(Do(s, a), img)
  {
    hide Linked, Ships, HasChild, ParentsMade, ParentsTried, Blocked, Deep;
    assert img.entries[..|img.entries|] == img.entries;
    assert !Linked(img.entries[..0]) by { NoneYet(img.entries); }
    if s.pc.Unpacking? && s.pc.i < |img.entries| {
      LinkedSnoc(img.entries, s.pc.i);
      if MakesRecord(img.entries[s.pc.i]) {
        EntryMakesRecord(img, s.pc.i);
      }
    }
  }

  lemma {:induction false} StaysUnrecorded(s: State, run: seq<Step>, img: Image)
    requires Unrecorded(s, img) && CanRun(s, run) && UsesOnly(run, {img}) && Linked(img.entries) && !Ships(img)
    ensures Unrecorded(After(s, run), img)
    decreases |run|
  {
    hide Unrecorded, Do, Enabled, Linked, Ships;
    if run != [] {
      StepKeepsUnrecorded(s, run[0], img);
      StaysUnrecorded(Do(s, run[0]), run[1..], img);
    }
  }

  /** An image with a hard link is never installed, in any run. */
  lemma HardLinkNeverInstalled(run: seq<Step>, img: Image)
    requires CanRun(BLANK, run) && UsesOnly(run, {img}) && Linked(img.entries) && !Ships(img)
    ensures var s := After(BLANK, run); !HasRecord(s, img.ver) && s.report != Installed(img.ver)
  {
    hide CanRun, After, Linked, Ships;
    StaysUnrecorded(BLANK, run, img);
  }

  lemma RunNone(s: State)
    ensures CanRun(s, []) && After(s, []) == s
  {
  }
}
