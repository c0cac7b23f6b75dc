/**
  Installing an application from an image onto the persistent disk, as single
  file-system operations with a power cut possible between any two.  What is on
  the disk survives the cut; where the installer was does not.  Operations may
  fail.  The disk is exFAT: it stores neither symbolic nor hard links.
 */
module Installer {
  import opened Bits

  type Bytes = string

  /**
    The names from the version's directory down; the directory itself is not
    listed.  It is the path the file system resolves, without "." and "..".
   */
  type Path = p: seq<string> | |p| > 0 witness [".app"]

  datatype Node = Dir | File(data: Bytes)

  type Tree = map<Path, Node>

  /** The record whose existence means "installed". */
  const RECORD: Path := [".app"]

  /** Recursive removal refuses a directory this far down. */
  const TOO_DEEP := 8

  datatype Entry =
    | Folder(path: Path)
    | Regular(path: Path, data: Bytes)
    | Symlink(path: Path)
    | HardLink(path: Path)
    | Whiteout(path: Path)

  /** An image: the version it says it is, its entries in archive order, and the text of its record. */
  datatype Image = Image(ver: string, entries: seq<Entry>, note: Bytes)

  /** The regular files of an image: for each path the last entry decides. */
  function Files(es: seq<Entry>): map<Path, Bytes>
  {
    if es == [] then map[]
    else
      var m, e := Files(es[..|es| - 1]), es[|es| - 1];
      match e
      case Folder(_) => m
      case Regular(p, data) => m[p := data]
      case Symlink(p) => m - {p}
      case HardLink(p) => m - {p}
      case Whiteout(p) => m - {p}
  }

  /** Every regular file of the image but the record is there, with its data. */
  predicate Whole(d: Tree, img: Image)
  {
    forall p :: p in Files(img.entries) && p != RECORD ==> p in d && d[p] == File(Files(img.entries)[p])
  }

  // ---- trees --------------------------------------------------------------------------------

  predicate ParentsMade(d: Tree, p: Path)
  {
    forall k :: 1 <= k < |p| ==> p[..k] in d && d[p[..k]].Dir?
  }

  /** Something that is no directory is in the way. */
  predicate Blocked(d: Tree, p: Path)
  {
    exists k :: 1 <= k < |p| && p[..k] in d && !d[p[..k]].Dir?
  }

  /** Each parent was made, unless something is in its way. */
  predicate ParentsTried(d: Tree, p: Path)
  {
    forall k :: 1 <= k < |p| ==> p[..k] in d || Blocked(d, p[..k])
  }

  predicate HasChild(d: Tree, p: Path)
  {
    exists q :: q in d && p < q
  }

  /** A directory that an unlink refuses. */
  predicate Occupied(d: Tree, p: Path)
  {
    p in d && d[p].Dir? && HasChild(d, p)
  }

  function Unlinked(d: Tree, p: Path): Tree
  {
    if Occupied(d, p) then d else d - {p}
  }

  predicate Deep(d: Tree)
  {
    exists p :: p in d && d[p].Dir? && |p| >= TOO_DEEP
  }

  // ---- the machine --------------------------------------------------------------------------

  datatype Pc =
    | Idle
    | Check(img: Image)                              // does the directory lack its record?
    | Clearing(img: Image)                           // removing what was left half-installed
    | Decide(img: Image)                             // is the directory there?
    | MakeDir(img: Image)
    | Unpacking(img: Image, i: nat, failed: bool)
    | Aborting(img: Image)                           // removing what a failed unpack left
    | DropRecord(img: Image)
    | CreateRecord(img: Image)
    | WriteRecord(img: Image)
    | DropCurrent(img: Image)
    | CreateCurrent(img: Image)
    | WriteCurrent(img: Image)

  datatype Report = Nothing | Installed(ver: string) | AlreadyThere(ver: string) | Failed(ver: string)

  /** The versions on the disk, the file naming the active one, and the installer. */
  datatype State = State(dirs: map<string, Tree>, current: Option<Bytes>, pc: Pc, report: Report)

  datatype Step =
    | Begin(img: Image)     // a readable image; an unreadable one changes nothing
    | Go                    // the next operation, or the end of an entry
    | Mkdir(k: nat)         // one parent of the entry's path, `k` names long
    | Drop                  // whatever has the entry's path is unlinked
    | Write(n: nat)         // the first `n` bytes of the entry's file reach the disk
    | Remove(path: Path)    // a recursive removal takes one file or empty directory
    | GiveUp                // a recursive removal meets a directory that is too deep
    | Fault                 // the next operation, no removal, fails
    | Stays                 // the unlink of a directory in an empty file's place fails
    | DiskError             // an operation of a recursive removal fails
    | PowerCut

  predicate HasRecord(s: State, ver: string)
  {
    ver in s.dirs && RECORD in s.dirs[ver]
  }

  predicate Removing(pc: Pc)
  {
    pc.Clearing? || pc.Aborting?
  }

  predicate InTree(s: State)
  {
    !s.pc.Idle? && s.pc.img.ver in s.dirs
  }

  function Here(s: State): Tree
    requires InTree(s)
  {
    s.dirs[s.pc.img.ver]
  }

  predicate AtEntry(s: State)
  {
    InTree(s) && s.pc.Unpacking? && s.pc.i < |s.pc.img.entries|
  }

  function Now(s: State): Entry
    requires AtEntry(s)
  {
    s.pc.img.entries[s.pc.i]
  }

  /** All that can be done for the entry has been done. */
  predicate EntryOver(d: Tree, e: Entry)
  {
    match e
    case Folder(p) => ParentsTried(d, p)
    case Regular(p, data) => ParentsTried(d, p) && ((p in d && d[p] == File(data)) || Blocked(d, p) || Occupied(d, p))
    case Symlink(p) => ParentsTried(d, p) && Unlinked(d, p) == d
    case HardLink(p) => ParentsTried(d, p) && Unlinked(d, p) == d
    case Whiteout(p) => Unlinked(d, p) == d
  }

  predicate Enabled(s: State, a: Step)
  {
    match a
    case Begin(img) => s.pc.Idle?
    case PowerCut => true
    case Mkdir(k) =>
      && AtEntry(s) && !Now(s).Whiteout? && 1 <= k < |Now(s).path|
      && var p := Now(s).path;
         p[..k] !in Here(s) && (k > 1 ==> p[..k - 1] in Here(s) && Here(s)[p[..k - 1]].Dir?)
    case Drop => AtEntry(s) && !Now(s).Folder?
    case Write(n) =>
      && AtEntry(s) && Now(s).Regular? && n <= |Now(s).data| && ParentsMade(Here(s), Now(s).path)
      && (Now(s).path in Here(s) ==> Here(s)[Now(s).path].File?)
    case Remove(p) =>
      && Removing(s.pc) && InTree(s) && p in Here(s) && !HasChild(Here(s), p)
      && |p| <= TOO_DEEP && (Here(s)[p].Dir? ==> |p| < TOO_DEEP)
    case GiveUp => Removing(s.pc) && InTree(s) && Deep(Here(s))
    case DiskError => Removing(s.pc)
    case Stays =>
      && AtEntry(s) && Now(s).Regular? && Now(s).data == ""
      && Now(s).path in Here(s) && Here(s)[Now(s).path].Dir?
    case Fault => !s.pc.Idle? && !s.pc.Check? && !s.pc.Decide? && !Removing(s.pc)
    case Go =>
      match s.pc
      case Idle => false
      case Clearing(img) => img.ver in s.dirs ==> s.dirs[img.ver] == map[]
      case Aborting(img) => img.ver in s.dirs ==> s.dirs[img.ver] == map[]
      case Unpacking(img, i, _) =>
        img.ver in s.dirs && (i < |img.entries| ==> EntryOver(s.dirs[img.ver], img.entries[i]))
      case DropRecord(img) => img.ver in s.dirs
      case CreateRecord(img) => img.ver in s.dirs
      case WriteRecord(img) => img.ver in s.dirs
      case _ => true
  }

  function SetTree(s: State, d: Tree): State
    requires !s.pc.Idle?
  {
    s.(dirs := s.dirs[s.pc.img.ver := d])
  }

  /**
    The file passes for written.  Opening a directory for writing succeeds, and
    of an empty file nothing is written after that.
   */
  predicate Passes(d: Tree, p: Path, data: Bytes)
  {
    p in d && (d[p] == File(data) || (data == "" && d[p].Dir?))
  }

  /** The end of an entry: a folder is made if it can be, a file that does not pass counts, a link does not. */
  function NextEntry(s: State): State
    requires AtEntry(s)
  {
    var d, e, pc := Here(s), Now(s), s.pc.(i := s.pc.i + 1);
    match e
    case Folder(p) => (if ParentsMade(d, p) && p !in d then SetTree(s, d[p := Dir]) else s).(pc := pc)
    case Regular(p, data) => s.(pc := if Passes(d, p, data) then pc else pc.(failed := true))
    case HardLink(_) => s.(pc := pc.(failed := true))
    case _ => s.(pc := pc)
  }

  function Proceed(s: State): State
    requires Enabled(s, Go)
  {
    match s.pc
    case Check(img) =>
      s.(pc := if img.ver in s.dirs && RECORD !in s.dirs[img.ver] then Clearing(img) else Decide(img))
    case Clearing(img) => s.(dirs := s.dirs - {img.ver}, pc := Decide(img))
    case Decide(img) =>
      if img.ver in s.dirs then s.(pc := Idle, report := AlreadyThere(img.ver)) else s.(pc := MakeDir(img))
    case MakeDir(img) => s.(dirs := s.dirs[img.ver := map[]], pc := Unpacking(img, 0, false))
    case Unpacking(img, i, failed) =>
      if i < |img.entries| then NextEntry(s) else s.(pc := if failed then Aborting(img) else DropRecord(img))
    case Aborting(img) => s.(dirs := s.dirs - {img.ver}, pc := Idle, report := Failed(img.ver))
    case DropRecord(img) => SetTree(s, Unlinked(Here(s), RECORD)).(pc := CreateRecord(img))
    case CreateRecord(img) =>
      if RECORD in Here(s) then s.(pc := DropCurrent(img))
      else SetTree(s, Here(s)[RECORD := File("")]).(pc := WriteRecord(img))
    case WriteRecord(img) => SetTree(s, Here(s)[RECORD := File(img.note)]).(pc := DropCurrent(img))
    case DropCurrent(img) => s.(current := None, pc := CreateCurrent(img))
    case CreateCurrent(img) =>
      if s.current.Some? then s.(pc := Idle, report := Installed(img.ver))
      else s.(current := Some(""), pc := WriteCurrent(img))
    case WriteCurrent(img) => s.(current := Some(img.ver), pc := Idle, report := Installed(img.ver))
  }

  /** What the installer does when the operation it is at fails. */
  function GoWrong(s: State): State
    requires Enabled(s, Fault)
  {
    match s.pc
    case MakeDir(img) => s.(pc := Aborting(img))
    case Unpacking(img, i, failed) =>
      // a file or hard link that cannot be made is counted and passed over, anything else just passed over
      if i >= |img.entries| then s.(pc := Aborting(img))
      else s.(pc := Unpacking(img, i + 1, failed || img.entries[i].Regular? || img.entries[i].HardLink?))
    case DropRecord(img) => s.(pc := CreateRecord(img))
    case CreateRecord(img) => s.(pc := DropCurrent(img))          // the result is not looked at
    case WriteRecord(img) => s.(pc := DropCurrent(img))
    case DropCurrent(img) => s.(pc := CreateCurrent(img))
    case CreateCurrent(img) => s.(pc := Idle, report := Installed(img.ver))
    case WriteCurrent(img) => s.(pc := Idle, report := Installed(img.ver))
  }

  /** A removal that did not get to the end; its result is not looked at either. */
  function StopRemoving(s: State): State
    requires Removing(s.pc)
  {
    if s.pc.Clearing? then s.(pc := Decide(s.pc.img)) else s.(pc := Idle, report := Failed(s.pc.img.ver))
  }

  function Do(s: State, a: Step): State
    requires Enabled(s, a)
  {
    match a
    case Begin(img) => s.(pc := Check(img), report := Nothing)
    case PowerCut => s.(pc := Idle, report := Nothing)
    case Mkdir(k) => SetTree(s, Here(s)[Now(s).path[..k] := Dir])
    case Drop => SetTree(s, Unlinked(Here(s), Now(s).path))
    case Write(n) => SetTree(s, Here(s)[Now(s).path := File(Now(s).data[..n])])
    case Remove(p) => SetTree(s, Here(s) - {p})
    case GiveUp => StopRemoving(s)
    case DiskError => StopRemoving(s)
    case Fault => GoWrong(s)
    case Stays => s.(pc := s.pc.(i := s.pc.i + 1))
    case Go => Proceed(s)
  }

  const BLANK := State(map[], None, Idle, Nothing)

  ghost predicate CanRun(s: State, run: seq<Step>)
    decreases |run|
  {
    run != [] ==> Enabled(s, run[0]) && CanRun(Do(s, run[0]), run[1..])
  }

  ghost function After(s: State, run: seq<Step>): State
    requires CanRun(s, run)
    decreases |run|
  {
    if run == [] then s else After(Do(s, run[0]), run[1..])
  }

  /** Only images of `imgs` are ever installed. */
  predicate UsesOnly(run: seq<Step>, imgs: set<Image>)
  {
    forall i :: 0 <= i < |run| && run[i].Begin? ==> run[i].img in imgs
  }

  /** No operation of a recursive removal fails; everything else may, and the power may be cut. */
  predicate RemovalsWork(run: seq<Step>)
  {
    forall i :: 0 <= i < |run| ==> !run[i].DiskError?
  }

  /** Nothing fails, but the power may be cut. */
  predicate Steady(run: seq<Step>)
  {
    forall i :: 0 <= i < |run| ==> SteadyStep(run[i])
  }

  predicate SteadyStep(a: Step)
  {
    !a.Fault? && !a.Stays? && !a.DiskError?
  }

  /** Nothing fails and the power stays on. */
  predicate Quiet(run: seq<Step>)
  {
    forall i :: 0 <= i < |run| ==> QuietStep(run[i])
  }

  predicate QuietStep(a: Step)
  {
    !a.Begin? && !a.Fault? && !a.Stays? && !a.DiskError? && !a.PowerCut?
  }

  // ---- runs -------------------------------------------------------------------------------------

  lemma {:induction false} RunAppend(s: State, x: seq<Step>, y: seq<Step>)
    requires CanRun(s, x) && CanRun(After(s, x), y)
    ensures CanRun(s, x + y) && After(s, x + y) == After(After(s, x), y)
    decreases |x|
  {
    hide Do, Enabled;
    if x == [] {
      assert x + y == y;
    } else {
      assert (x + y)[1..] == x[1..] + y;
      RunAppend(Do(s, x[0]), x[1..], y);
    }
  }

  lemma RunOne(s: State, a: Step)
    requires Enabled(s, a)
    ensures CanRun(s, [a]) && After(s, [a]) == Do(s, a)
  {
    hide Do, Enabled;
    assert [a][1..] == [];
  }

  lemma Extend(s: State, run: seq<Step>, a: Step)
    requires CanRun(s, run) && Enabled(After(s, run), a)
    ensures CanRun(s, run + [a]) && After(s, run + [a]) == Do(After(s, run), a)
  {
    hide Do, Enabled, CanRun, After;
    RunOne(After(s, run), a);
    RunAppend(s, run, [a]);
  }

  // ---- safety -------------------------------------------------------------------------------

  /** A version with a record has every file of some image that says it is that version. */
  ghost predicate RecordMeansWhole(s: State, imgs: set<Image>)
  {
    forall ver :: HasRecord(s, ver) ==> WholeFrom(s.dirs[ver], ver, imgs)
  }

  ghost predicate WholeFrom(d: Tree, ver: string, imgs: set<Image>)
  {
    exists img :: img in imgs && img.ver == ver && Whole(d, img)
  }

  /** Unpacking the entry can put something where the record goes. */
  predicate MakesRecord(e: Entry)
  {
    !e.Whiteout? && RECORD <= e.path && (|e.path| > 1 || e.Folder? || e.Regular?)
  }

  predicate Ships(img: Image)
  {
    exists i :: 0 <= i < |img.entries| && MakesRecord(img.entries[i])
  }

  /** The image puts nothing where the record goes, or has no other files. */
  predicate Harmless(img: Image)
  {
    Ships(img) ==> forall p :: p in Files(img.entries) ==> p == RECORD
  }

  /** Unpacking the entry makes `p` a directory, as itself or as a parent. */
  predicate Needs(e: Entry, p: Path)
  {
    !e.Whiteout? && (p < e.path || (e.Folder? && p == e.path))
  }

  predicate Empty(e: Entry)
  {
    e.Regular? && e.data == ""
  }

  /** An empty file has the path of a directory that an earlier entry makes. */
  predicate Masks(es: seq<Entry>)
  {
    exists j, i :: 0 <= j < i < |es| && Empty(es[i]) && Needs(es[j], es[i].path)
  }

  /** The image does nothing that makes its record worthless. */
  predicate Sound(img: Image)
  {
    Harmless(img) && (Ships(img) || !Masks(img.entries))
  }

  /** Every directory was made by one of the entries up to `i`. */
  predicate Grounded(d: Tree, es: seq<Entry>, i: nat)
  {
    forall p :: p in d && d[p].Dir? ==> MadeBy(es, i, p)
  }

  predicate MadeBy(es: seq<Entry>, i: nat, p: Path)
  {
    exists j :: 0 <= j <= i && j < |es| && Needs(es[j], p)
  }

  /** The files of the first `i` entries are there, save perhaps the one being replaced. */
  predicate FilesSoFar(d: Tree, es: seq<Entry>, i: nat)
    requires i <= |es|
  {
    var m := Files(es[..i]);
    forall p :: p in m && (i < |es| && !es[i].Folder? ==> p != es[i].path) ==> p in d && d[p] == File(m[p])
  }

  ghost predicate PcInv(s: State)
  {
    match s.pc
    case Clearing(img) => !HasRecord(s, img.ver)
    case MakeDir(img) => img.ver !in s.dirs
    case Unpacking(img, i, failed) =>
      && img.ver in s.dirs && i <= |img.entries| && (HasRecord(s, img.ver) ==> Ships(img))
      && Grounded(s.dirs[img.ver], img.entries, i)
      && (!failed && !Masks(img.entries) ==> FilesSoFar(s.dirs[img.ver], img.entries, i))
    case Aborting(img) => HasRecord(s, img.ver) ==> Ships(img)
    case DropRecord(img) => img.ver in s.dirs && Whole(s.dirs[img.ver], img)
    case CreateRecord(img) => img.ver in s.dirs && Whole(s.dirs[img.ver], img)
    case WriteRecord(img) => img.ver in s.dirs && Whole(s.dirs[img.ver], img)
    case _ => true
  }

  ghost predicate Inv(s: State, imgs: set<Image>)
  {
    && RecordMeansWhole(s, imgs) && PcInv(s)
    && (!s.pc.Idle? ==> s.pc.img in imgs && Sound(s.pc.img))
  }

  /** If every change is to one directory, and that one is good, the whole disk is. */
  lemma OneDirChanged(s: State, s': State, ver: string, imgs: set<Image>)
    requires RecordMeansWhole(s, imgs)
    requires forall v :: v != ver && v in s'.dirs ==> v in s.dirs && s'.dirs[v] == s.dirs[v]
    requires HasRecord(s', ver) ==> WholeFrom(s'.dirs[ver], ver, imgs)
    ensures RecordMeansWhole(s', imgs)
  {
    hide WholeFrom;
    forall v | HasRecord(s', v)
      ensures WholeFrom(s'.dirs[v], v, imgs)
    {
      if v != ver {
        assert HasRecord(s, v);
      }
    }
  }

  lemma ShippedIsWhole(d: Tree, img: Image, imgs: set<Image>)
    requires img in imgs && Harmless(img) && Ships(img)
    ensures WholeFrom(d, img.ver, imgs)
  {
    assert Whole(d, img);
  }

  lemma FilesSnoc(es: seq<Entry>, i: nat)
    requires i < |es|
    ensures var m := Files(es[..i]);
            Files(es[..i + 1]) == match es[i]
                                  case Folder(_) => m
                                  case Regular(p, data) => m[p := data]
                                  case _ => m - {es[i].path}
  {
    assert es[..i + 1][..i] == es[..i];
  }

  lemma FilesAll(d: Tree, img: Image)
    requires FilesSoFar(d, img.entries, |img.entries|)
    ensures Whole(d, img)
  {
    assert img.entries[..|img.entries|] == img.entries;
  }

  lemma NoFilesYet(img: Image)
    ensures FilesSoFar(map[], img.entries, 0) && Grounded(map[], img.entries, 0)
  {
  }

  /** Where nothing is masked an empty file that passes is there. */
  lemma PassesIsThere(d: Tree, es: seq<Entry>, i: nat)
    requires i < |es| && es[i].Regular? && Passes(d, es[i].path, es[i].data) && Grounded(d, es, i) && !Masks(es)
    ensures d[es[i].path] == File(es[i].data)
  {
    var p := es[i].path;
    if d[p].Dir? {
      var j :| 0 <= j <= i && j < |es| && Needs(es[j], p);
      assert j < i && Empty(es[i]);
    }
  }

  lemma GroundedPut(d: Tree, es: seq<Entry>, i: nat, p: Path, n: Node)
    requires Grounded(d, es, i) && i < |es| && (n.Dir? ==> Needs(es[i], p))
    ensures Grounded(d[p := n], es, i) && Grounded(d[p := n], es, i + 1)
    ensures Grounded(d, es, i + 1) && Grounded(d - {p}, es, i)
  {
    hide Needs;
    forall q | q in d && d[q].Dir?
      ensures MadeBy(es, i + 1, q)
    {
      assert MadeBy(es, i, q);
    }
    if n.Dir? {
      assert MadeBy(es, i, p) && MadeBy(es, i + 1, p);
    }
    hide MadeBy;
  }

  /** An image that unpacks its files, all of them, unless it ships the record and no others. */
  lemma SoundIsWhole(d: Tree, img: Image)
    requires Sound(img) && (!Masks(img.entries) ==> Whole(d, img))
    ensures Whole(d, img)
  {
    hide Files, Ships, Masks;
  }

  /** The end of an entry that lost nothing. */
  lemma FilesStep(d: Tree, d': Tree, es: seq<Entry>, i: nat)
    requires i < |es| && FilesSoFar(d, es, i)
    requires es[i].Regular? ==> es[i].path in d && d[es[i].path] == File(es[i].data)
    requires d' == d || (es[i].Folder? && es[i].path !in d && d' == d[es[i].path := Dir])
    ensures FilesSoFar(d', es, i + 1)
  {
    hide Files;
    FilesSnoc(es, i);
  }

  lemma EntryMakesRecord(img: Image, i: nat)
    requires i < |img.entries| && MakesRecord(img.entries[i])
    ensures Ships(img)
  {
  }

  lemma NextEntryKeepsInv(s: State, imgs: set<Image>)
    requires Inv(s, imgs) && Enabled(s, Go) && AtEntry(s)
    ensures Inv(Do(s, Go), imgs)
  {
    hide Files, FilesSoFar, Whole, Ships, Harmless, Masks, Grounded, WholeFrom, ParentsMade, ParentsTried, Blocked,
         Unlinked;
    var s', img, e := Do(s, Go), s.pc.img, Now(s);
    if HasRecord(s', img.ver) {
      if !HasRecord(s, img.ver) {
        EntryMakesRecord(img, s.pc.i);
      }
      ShippedIsWhole(Here(s'), img, imgs);
    }
    OneDirChanged(s, s', img.ver, imgs);
    GroundedPut(Here(s), img.entries, s.pc.i, e.path, if e.Folder? then Dir else File(""));
    if !s'.pc.failed && !Masks(img.entries) {
      if e.Regular? {
        PassesIsThere(Here(s), img.entries, s.pc.i);
      }
      FilesStep(Here(s), Here(s'), img.entries, s.pc.i);
    }
  }

  lemma KeepsRest(d: Tree, d': Tree, img: Image)
    requires Whole(d, img) && d' - {RECORD} == d - {RECORD}
    ensures Whole(d', img)
  {
    forall p | p in Files(img.entries) && p != RECORD
      ensures p in d' && d'[p] == File(Files(img.entries)[p])
    {
      assert p in d - {RECORD} && (d' - {RECORD})[p] == (d - {RECORD})[p];
    }
  }

  lemma RecordStepKeepsInv(s: State, imgs: set<Image>)
    requires Inv(s, imgs) && Enabled(s, Go) && (s.pc.DropRecord? || s.pc.CreateRecord? || s.pc.WriteRecord?)
    ensures Inv(Do(s, Go), imgs)
  {
    hide Files, Whole, Ships, Sound;
    var s', img := Do(s, Go), s.pc.img;
    assert Here(s') - {RECORD} == Here(s) - {RECORD};
    KeepsRest(Here(s), Here(s'), img);
    OneDirChanged(s, s', img.ver, imgs);
  }

  lemma GoKeepsInv(s: State, imgs: set<Image>)
    requires Inv(s, imgs) && Enabled(s, Go)
    ensures Inv(Do(s, Go), imgs)
  {
    hide Files, FilesSoFar, Whole, Ships, Sound, Masks, Grounded, WholeFrom, EntryOver, NextEntry;
    if AtEntry(s) {
      NextEntryKeepsInv(s, imgs);
    } else if s.pc.DropRecord? || s.pc.CreateRecord? || s.pc.WriteRecord? {
      RecordStepKeepsInv(s, imgs);
    } else {
      var s', img := Do(s, Go), s.pc.img;
      if s.pc.Unpacking? && !s.pc.failed {
        if !Masks(img.entries) {
          FilesAll(Here(s), img);
        }
        SoundIsWhole(Here(s), img);
      }
      NoFilesYet(img);
      OneDirChanged(s, s', img.ver, imgs);
    }
  }

  /** Making a parent, dropping or writing the entry's own path. */
  lemma EntryWorkKeepsInv(s: State, a: Step, imgs: set<Image>)
    requires Inv(s, imgs) && Enabled(s, a) && (a.Mkdir? || a.Drop? || a.Write?)
    ensures Inv(Do(s, a), imgs)
  {
    hide Files, Whole, Ships, Harmless, Masks, Grounded, WholeFrom, ParentsMade, Occupied;
    var s', img, e := Do(s, a), s.pc.img, Now(s);
    GroundedPut(Here(s), img.entries, s.pc.i, e.path, File(if a.Write? then e.data[..a.n] else ""));
    if a.Mkdir? {
      GroundedPut(Here(s), img.entries, s.pc.i, e.path[..a.k], Dir);
    }
    if HasRecord(s', img.ver) {
      if !HasRecord(s, img.ver) {
        EntryMakesRecord(img, s.pc.i);
      }
      ShippedIsWhole(Here(s'), img, imgs);
    }
    OneDirChanged(s, s', img.ver, imgs);
  }

  lemma RemoveKeepsInv(s: State, p: Path, imgs: set<Image>)
    requires Inv(s, imgs) && Enabled(s, Remove(p))
    ensures Inv(Do(s, Remove(p)), imgs)
  {
    hide Whole, Ships, Harmless, WholeFrom, HasChild;
    var s', img := Do(s, Remove(p)), s.pc.img;
    if HasRecord(s', img.ver) {
      assert HasRecord(s, img.ver);
      ShippedIsWhole(Here(s'), img, imgs);
    }
    OneDirChanged(s, s', img.ver, imgs);
  }

  lemma FaultKeepsInv(s: State, imgs: set<Image>)
    requires Inv(s, imgs) && Enabled(s, Fault)
    ensures Inv(Do(s, Fault), imgs)
  {
    hide Files, FilesSoFar, Whole, Ships, Sound, Masks, Grounded, WholeFrom;
    var s' := Do(s, Fault);
    OneDirChanged(s, s', "", imgs);
    if s'.pc.Unpacking? {
      GroundedPut(Here(s), s.pc.img.entries, s.pc.i, RECORD, File(""));
      if !s'.pc.failed && !Masks(s.pc.img.entries) {
        FilesStep(Here(s), Here(s), s.pc.img.entries, s.pc.i);
      }
    }
  }

  lemma StaysKeepsInv(s: State, imgs: set<Image>)
    requires Inv(s, imgs) && Enabled(s, Stays)
    ensures Inv(Do(s, Stays), imgs)
  {
    hide Files, FilesSoFar, Whole, Ships, Sound, Masks, Grounded, WholeFrom;
    OneDirChanged(s, Do(s, Stays), "", imgs);
    GroundedPut(Here(s), s.pc.img.entries, s.pc.i, RECORD, File(""));
    if !s.pc.failed && !Masks(s.pc.img.entries) {
      PassesIsThere(Here(s), s.pc.img.entries, s.pc.i);
    }
  }

  /** Every file operation, failure and power cut keeps the invariant. */
  lemma StepKeepsInv(s: State, a: Step, imgs: set<Image>)
    requires Inv(s, imgs) && Enabled(s, a)
    requires a.Begin? ==> a.img in imgs && Sound(a.img)
    ensures Inv(Do(s, a), imgs)
  {
    match a
    case Go => GoKeepsInv(s, imgs);
    case Mkdir(_) => EntryWorkKeepsInv(s, a, imgs);
    case Drop => EntryWorkKeepsInv(s, a, imgs);
    case Write(_) => EntryWorkKeepsInv(s, a, imgs);
    case Remove(p) => RemoveKeepsInv(s, p, imgs);
    case Fault => FaultKeepsInv(s, imgs);
    case Stays => StaysKeepsInv(s, imgs);
    case _ =>
      hide Whole, Ships, Sound, WholeFrom, Deep;
      OneDirChanged(s, Do(s, a), "", imgs);
  }

  lemma {:induction false} RunKeepsInv(s: State, run: seq<Step>, imgs: set<Image>)
    requires Inv(s, imgs) && CanRun(s, run) && UsesOnly(run, imgs)
    requires forall img :: img in imgs ==> Sound(img)
    ensures Inv(After(s, run), imgs)
    decreases |run|
  {
    hide Inv, Do, Enabled, Sound;
    if run != [] {
      StepKeepsInv(s, run[0], imgs);
      RunKeepsInv(Do(s, run[0]), run[1..], imgs);
    }
  }

  lemma BlankInv(imgs: set<Image>)
    ensures Inv(BLANK, imgs)
  {
  }

  /** In every run of installs, cut anywhere and failing anywhere, a recorded version has every file. */
  lemma RecordIsTrusted(run: seq<Step>, imgs: set<Image>)
    requires CanRun(BLANK, run) && UsesOnly(run, imgs)
    requires forall img :: img in imgs ==> Sound(img)
    ensures RecordMeansWhole(After(BLANK, run), imgs)
  {
    hide CanRun, After, Sound, RecordMeansWhole, PcInv;
    BlankInv(imgs);
    RunKeepsInv(BLANK, run, imgs);
  }

  // ---- an image that ships a record ---------------------------------------------------------

  /** A blank disk, then the install of `img` with the first `r` entries failing one by one. */
  lemma {:induction false} UpToEntry(img: Image, r: nat) returns (run: seq<Step>)
    requires r <= |img.entries|
    ensures CanRun(BLANK, run) && UsesOnly(run, {img}) && RemovalsWork(run)
    ensures var s := After(BLANK, run);
            s.pc.Unpacking? && s.pc.img == img && s.pc.i == r && s.dirs == map[img.ver := map[]]
  {
    if r == 0 {
      run := UpToUnpack(img);
    } else {
      var before := UpToEntry(img, r - 1);
      hide CanRun, After;
      Extend(BLANK, before, Fault);
      run := before + [Fault];
    }
  }

  lemma UpToUnpack(img: Image) returns (run: seq<Step>)
    ensures CanRun(BLANK, run) && UsesOnly(run, {img}) && RemovalsWork(run) && run == [Begin(img)] + [Go] + [Go] + [Go]
    ensures After(BLANK, run) == State(map[img.ver := map[]], None, Unpacking(img, 0, false), Nothing)
  {
    hide CanRun, After;
    RunOne(BLANK, Begin(img));
    Extend(BLANK, [Begin(img)], Go);
    Extend(BLANK, [Begin(img)] + [Go], Go);
    Extend(BLANK, [Begin(img)] + [Go] + [Go], Go);
    run := [Begin(img)] + [Go] + [Go] + [Go];
  }

  /** One step at an entry under the record's path, and there is something where the record goes. */
  lemma MakeRecordStep(s: State) returns (a: Step)
    requires AtEntry(s) && Here(s) == map[] && MakesRecord(Now(s))
    ensures Enabled(s, a) && !a.Begin? && !a.DiskError?
    ensures var d := s.dirs[s.pc.img.ver := map[RECORD := Dir]];
            var f := s.dirs[s.pc.img.ver := map[RECORD := File("")]];
            Do(s, a).dirs == d || Do(s, a).dirs == f
  {
    var e := Now(s);
    assert e.path[..1] == RECORD;
    if |e.path| > 1 {
      a := Mkdir(1);
    } else {
      assert e.path == RECORD;
      if e.Regular? {
        a := Write(0);
      } else {
        a := Go;
      }
    }
  }

  lemma HarmfulImageFools(img: Image) returns (run: seq<Step>)
    requires !Harmless(img)
    ensures CanRun(BLANK, run) && UsesOnly(run, {img})
    ensures !RecordMeansWhole(After(BLANK, run), {img})
  {
    var r: nat :| r < |img.entries| && MakesRecord(img.entries[r]);
    var p :| p in Files(img.entries) && p != RECORD;
    var before := UpToEntry(img, r);
    hide CanRun, After, Files, Enabled, Do;
    var a := MakeRecordStep(After(BLANK, before));
    Extend(BLANK, before, a);
    run := before + [a];
    var s := After(BLANK, run);
    assert HasRecord(s, img.ver) && p !in s.dirs[img.ver];
    assert !WholeFrom(s.dirs[img.ver], img.ver, {img});
  }

  // ---- "already installed" ------------------------------------------------------------------

  /** Recursive removal can take it. */
  predicate Removable(p: Path, dir: bool)
  {
    |p| <= TOO_DEEP && (dir ==> |p| < TOO_DEEP)
  }

  /** No directory the entry needs is too deep to be removed; under the record's path it does not matter. */
  predicate ShallowEntry(e: Entry)
  {
    e.Whiteout? || RECORD <= e.path || Removable(e.path, e.Folder?)
  }

  /** No directory of the image, listed or implied by a path, is too deep to be removed. */
  predicate Shallow(img: Image)
  {
    forall i :: 0 <= i < |img.entries| ==> ShallowEntry(img.entries[i])
  }

  /** Everything can be removed, save what is under the record's path, and then that is a directory. */
  predicate TidyTree(d: Tree)
  {
    forall p :: p in d ==> UnderRecord(d, p) && (RECORD <= p || Removable(p, d[p].Dir?))
  }

  predicate UnderRecord(d: Tree, p: Path)
  {
    RECORD < p ==> RECORD in d && d[RECORD].Dir?
  }

  ghost predicate TidyDisk(s: State)
  {
    && (forall ver :: ver in s.dirs ==> TidyTree(s.dirs[ver]))
    && (!s.pc.Idle? ==> Shallow(s.pc.img))
    && (s.pc.WriteRecord? ==> InTree(s) && RECORD in Here(s) && Here(s)[RECORD].File?)
  }

  /** "Already installed" is said only of a version that has its record and every file. */
  ghost predicate Honest(s: State, imgs: set<Image>)
  {
    s.report.AlreadyThere? ==> HasRecord(s, s.report.ver) && WholeFrom(s.dirs[s.report.ver], s.report.ver, imgs)
  }

  ghost predicate HonestInv(s: State)
  {
    && (s.report.AlreadyThere? ==> s.pc.Idle? && HasRecord(s, s.report.ver))
    && (s.pc.Decide? && s.pc.img.ver in s.dirs ==> HasRecord(s, s.pc.img.ver))
  }

  lemma EntryIsShallow(img: Image, i: nat)
    requires Shallow(img) && i < |img.entries|
    ensures ShallowEntry(img.entries[i])
  {
  }

  lemma TidyIsNotDeep(d: Tree)
    requires TidyTree(d) && RECORD !in d
    ensures !Deep(d)
  {
  }

  lemma TidyPut(d: Tree, p: Path, n: Node)
    requires TidyTree(d) && UnderRecord(d, p) && (RECORD <= p || Removable(p, n.Dir?))
    requires p == RECORD && n.File? && RECORD in d ==> d[RECORD].File?
    ensures TidyTree(d[p := n])
  {
    hide Removable;
  }

  lemma TidyUnlinked(d: Tree, p: Path)
    requires TidyTree(d)
    ensures TidyTree(Unlinked(d, p)) && (!HasChild(d, p) ==> TidyTree(d - {p}))
  {
    hide Removable;
  }

  lemma UnderMade(d: Tree, p: Path)
    requires ParentsMade(d, p)
    ensures UnderRecord(d, p)
  {
    if RECORD < p {
      assert p[..1] == RECORD;
    }
  }

  lemma UnderNext(d: Tree, p: Path, k: nat)
    requires TidyTree(d) && 1 <= k < |p| && (k > 1 ==> p[..k - 1] in d && d[p[..k - 1]].Dir?)
    ensures UnderRecord(d, p[..k])
  {
    if k > 1 && RECORD <= p {
      assert k == 2 ==> p[..k - 1] == RECORD;
      assert k > 2 ==> RECORD < p[..k - 1];
      assert UnderRecord(d, p[..k - 1]);
    }
  }

  /** What a step makes of the directory it works in. */
  lemma StepKeepsTree(s: State, a: Step)
    requires TidyDisk(s) && InTree(s) && Enabled(s, a) && s.pc.img.ver in Do(s, a).dirs
    ensures TidyTree(Do(s, a).dirs[s.pc.img.ver])
  {
    hide Shallow, TidyTree, ParentsMade, ParentsTried, Blocked, HasChild, Deep, UnderRecord;
    var d := Here(s);
    if AtEntry(s) {
      var e := Now(s);
      EntryIsShallow(s.pc.img, s.pc.i);
      TidyUnlinked(d, e.path);
      match a
      case Mkdir(k) =>
        UnderNext(d, e.path, k);
        TidyPut(d, e.path[..k], Dir);
      case Write(n) =>
        UnderMade(d, e.path);
        TidyPut(d, e.path, File(e.data[..n]));
      case _ =>
        if e.Folder? && ParentsMade(d, e.path) && e.path !in d {
          UnderMade(d, e.path);
          TidyPut(d, e.path, Dir);
        }
    } else {
      EmptyIsTidy();
      TidyUnlinked(d, RECORD);
      if a.Remove? {
        TidyUnlinked(d, a.path);
      }
      assert UnderRecord(d, RECORD) by { UnderMade(d, RECORD); }
      if s.pc.WriteRecord? || (s.pc.CreateRecord? && RECORD !in d) {
        TidyPut(d, RECORD, File(""));
        TidyPut(d, RECORD, File(s.pc.img.note));
      }
    }
  }

  lemma StepKeepsTidy(s: State, a: Step)
    requires TidyDisk(s) && PcInv(s) && Enabled(s, a) && (a.Begin? ==> Shallow(a.img))
    ensures TidyDisk(Do(s, a))
  {
    hide Do, Enabled, Shallow, PcInv, TidyTree;
    var s' := Do(s, a);
    StepKeepsRest(s, a);
    forall ver | ver in s'.dirs
      ensures TidyTree(s'.dirs[ver])
    {
      if s.pc.Idle? || s.pc.img.ver != ver {
        StepTouchesOne(s, a, ver);
      } else if InTree(s) {
        StepKeepsTree(s, a);
      } else {
        StepMakesTree(s, a);
      }
    }
  }

  lemma StepMakesTree(s: State, a: Step)
    requires !s.pc.Idle? && !InTree(s) && Enabled(s, a) && s.pc.img.ver in Do(s, a).dirs
    ensures TidyTree(Do(s, a).dirs[s.pc.img.ver])
  {
    hide EntryOver, ParentsMade, Occupied, HasChild, Deep;
  }

  lemma StepKeepsRest(s: State, a: Step)
    requires TidyDisk(s) && Enabled(s, a) && (a.Begin? ==> Shallow(a.img))
    ensures var s' := Do(s, a);
            && (!s'.pc.Idle? ==> Shallow(s'.pc.img))
            && (s'.pc.WriteRecord? ==> InTree(s') && RECORD in Here(s') && Here(s')[RECORD].File?)
  {
    hide Shallow, TidyTree, EntryOver, ParentsMade, Occupied, HasChild, Deep;
  }

  lemma EmptyIsTidy()
    ensures TidyTree(map[])
  {
  }

  lemma StepKeepsHonestInv(s: State, a: Step)
    requires HonestInv(s) && TidyDisk(s) && PcInv(s) && Enabled(s, a) && !a.DiskError?
    ensures HonestInv(Do(s, a))
  {
    if s.pc.Clearing? && InTree(s) {
      TidyIsNotDeep(Here(s));
    }
    hide Shallow, FilesSoFar, Whole, Ships, EntryOver, ParentsMade, Occupied, HasChild, Deep, TidyTree;
  }

  lemma {:induction false} RunKeepsTidy(s: State, run: seq<Step>, imgs: set<Image>)
    requires Inv(s, imgs) && TidyDisk(s) && CanRun(s, run) && UsesOnly(run, imgs)
    requires forall img :: img in imgs ==> Sound(img) && Shallow(img)
    ensures Inv(After(s, run), imgs) && TidyDisk(After(s, run))
    ensures HonestInv(s) && RemovalsWork(run) ==> HonestInv(After(s, run))
    decreases |run|
  {
    hide RecordMeansWhole, PcInv, TidyDisk, HonestInv, Do, Enabled, Sound, Shallow;
    if run != [] {
      StepKeepsInv(s, run[0], imgs);
      StepKeepsTidy(s, run[0]);
      if HonestInv(s) && !run[0].DiskError? {
        StepKeepsHonestInv(s, run[0]);
      }
      RunKeepsTidy(Do(s, run[0]), run[1..], imgs);
    }
  }

  /** `p`'s first `k` parents, and nothing else. */
  ghost function Chain(p: Path, k: nat): (d: Tree)
    requires k < |p|
    ensures forall q :: q in d <==> 1 <= |q| <= k && q == p[..|q|]
    ensures forall q :: q in d ==> d[q] == Dir
  {
    if k == 0 then map[] else Chain(p, k - 1)[p[..k] := Dir]
  }

  lemma MakeParent(s: State, k: nat)
    requires AtEntry(s) && !Now(s).Whiteout? && 1 <= k < |Now(s).path| && Here(s) == Chain(Now(s).path, k - 1)
    ensures Enabled(s, Mkdir(k)) && Do(s, Mkdir(k)) == SetTree(s, Chain(Now(s).path, k))
  {
    hide EntryOver, ParentsMade;
    var p := Now(s).path;
    assert k > 1 ==> |p[..k - 1]| == k - 1 && p[..k - 1] in Here(s);
    assert |p[..k]| == k;
  }

  lemma SetTreeTwice(s: State, d: Tree, d': Tree)
    requires AtEntry(s)
    ensures var t := SetTree(s, d); AtEntry(t) && Now(t) == Now(s) && Here(t) == d && SetTree(t, d') == SetTree(s, d')
  {
    var ver := s.pc.img.ver;
    assert s.dirs[ver := d][ver := d'] == s.dirs[ver := d'];
  }

  lemma NoParents(s: State)
    requires AtEntry(s) && Here(s) == map[]
    ensures CanRun(s, []) && After(s, []) == SetTree(s, Chain(Now(s).path, 0))
  {
    assert s.dirs[s.pc.img.ver := map[]] == s.dirs;
  }

  lemma {:induction false} MakeParents(s: State, k: nat) returns (run: seq<Step>)
    requires AtEntry(s) && Here(s) == map[] && !Now(s).Whiteout? && k < |Now(s).path|
    ensures CanRun(s, run) && UsesOnly(run, {}) && RemovalsWork(run)
    ensures After(s, run) == SetTree(s, Chain(Now(s).path, k))
  {
    hide CanRun, After, Enabled, Do, Chain, SetTree;
    var p := Now(s).path;
    if k == 0 {
      run := [];
      NoParents(s);
    } else {
      var before := MakeParents(s, k - 1);
      SetTreeTwice(s, Chain(p, k - 1), Chain(p, k));
      MakeParent(After(s, before), k);
      Extend(s, before, Mkdir(k));
      run := before + [Mkdir(k)];
    }
  }

  /** A version left without a record and with a directory that cannot be removed. */
  ghost predicate Stuck(s: State, ver: string)
  {
    && ver in s.dirs && RECORD !in s.dirs[ver] && Deep(s.dirs[ver]) && s.report != Installed(ver)
    && (!s.pc.Idle? && s.pc.img.ver == ver ==> s.pc.Check? || s.pc.Clearing? || s.pc.Decide?)
  }

  lemma MakeFolder(s: State)
    requires AtEntry(s) && Now(s).Folder? && Here(s) == Chain(Now(s).path, |Now(s).path| - 1)
    ensures Enabled(s, Go) && Do(s, Go).dirs == s.dirs[s.pc.img.ver := Here(s)[Now(s).path := Dir]]
  {
    var p := Now(s).path;
    forall k | 1 <= k < |p|
      ensures p[..k] in Here(s)
    {
      assert |p[..k]| == k;
    }
  }

  /** From an empty directory, the deep entry leaves a directory that is too deep. */
  lemma MakeDeep(s: State) returns (run: seq<Step>)
    requires AtEntry(s) && Here(s) == map[] && !ShallowEntry(Now(s))
    ensures CanRun(s, run) && UsesOnly(run, {}) && RemovalsWork(run)
    ensures s.pc.img.ver in After(s, run).dirs
    ensures var d := After(s, run).dirs[s.pc.img.ver]; RECORD !in d && Deep(d)
  {
    var p := Now(s).path;
    assert p[..1] == RECORD ==> RECORD <= p;
    if |p| > TOO_DEEP {
      run := MakeParents(s, TOO_DEEP);
      assert |p[..TOO_DEEP]| == TOO_DEEP && p[..TOO_DEEP] in Chain(p, TOO_DEEP);
    } else {
      var parents := MakeParents(s, TOO_DEEP - 1);
      hide CanRun, After, Enabled, Do;
      var t := After(s, parents);
      assert Now(t) == Now(s) && Here(t) == Chain(p, TOO_DEEP - 1);
      MakeFolder(t);
      Extend(s, parents, Go);
      run := parents + [Go];
    }
  }

  /** Unpack up to a deep directory and cut the power. */
  lemma DeepRun(img: Image) returns (run: seq<Step>)
    requires !Shallow(img)
    ensures CanRun(BLANK, run) && UsesOnly(run, {img}) && RemovalsWork(run)
    ensures After(BLANK, run).pc.Idle? && After(BLANK, run).report == Nothing && Stuck(After(BLANK, run), img.ver)
  {
    var r: nat :| r < |img.entries| && !ShallowEntry(img.entries[r]);
    var before := UpToEntry(img, r);
    hide CanRun, After, Deep;
    var s := After(BLANK, before);
    var deep := MakeDeep(s);
    RunAppend(BLANK, before, deep);
    Extend(BLANK, before + deep, PowerCut);
    run := before + deep + [PowerCut];
  }

  /** The next install gives up clearing, and takes what is left for the application. */
  lemma StuckSaysInstalled(s: State, img: Image) returns (run: seq<Step>)
    requires s.pc.Idle? && Stuck(s, img.ver)
    ensures CanRun(s, [Begin(img)] + run) && Quiet(run)
    ensures var t := After(s, [Begin(img)] + run); t.pc.Idle? && t.report == AlreadyThere(img.ver) && Stuck(t, img.ver)
  {
    hide CanRun, After;
    RunOne(s, Begin(img));
    Extend(s, [Begin(img)], Go);
    Extend(s, [Begin(img)] + [Go], GiveUp);
    Extend(s, [Begin(img)] + [Go] + [GiveUp], Go);
    run := [Go] + [GiveUp] + [Go];
    assert [Begin(img)] + run == [Begin(img)] + [Go] + [GiveUp] + [Go];
  }

  /**
    With removals that work, "already installed" is honest in every run exactly
    when no directory of the image is eight or more levels down.
   */
  lemma AlreadyThereIffShallow(img: Image)
    requires Sound(img)
    ensures Shallow(img) <==>
            forall run :: CanRun(BLANK, run) && UsesOnly(run, {img}) && RemovalsWork(run) ==>
              Honest(After(BLANK, run), {img})
  {
    hide CanRun, After, Shallow, TidyDisk, PcInv, Sound;
    if Shallow(img) {
      forall run | CanRun(BLANK, run) && UsesOnly(run, {img}) && RemovalsWork(run)
        ensures Honest(After(BLANK, run), {img})
      {
        BlankInv({img});
        assert TidyDisk(BLANK) by { BlankTidy(); }
        RunKeepsTidy(BLANK, run, {img});
        assert HonestInv(After(BLANK, run)) && RecordMeansWhole(After(BLANK, run), {img});
      }
    } else {
      var before := DeepRun(img);
      var s := After(BLANK, before);
      var more := StuckSaysInstalled(s, img);
      RunAppend(BLANK, before, [Begin(img)] + more);
      var run := before + ([Begin(img)] + more);
      assert UsesOnly(run, {img}) && RemovalsWork(run);
    }
  }

  lemma BlankTidy()
    ensures TidyDisk(BLANK)
  {
  }

  // ---- for ever -----------------------------------------------------------------------------

  lemma RemoveKeepsStuck(s: State, p: Path, ver: string)
    requires Stuck(s, ver) && Enabled(s, Remove(p))
    ensures Stuck(Do(s, Remove(p)), ver)
  {
    hide HasChild;
    var q :| q in s.dirs[ver] && s.dirs[ver][q].Dir? && |q| >= TOO_DEEP;
    assert q in Do(s, Remove(p)).dirs[ver];
  }

  /** A step changes no version but the one being installed, and reports on no other. */
  lemma StepTouchesOne(s: State, a: Step, ver: string)
    requires Enabled(s, a) && (s.pc.Idle? || s.pc.img.ver != ver)
    ensures var s' := Do(s, a);
            && (ver in s'.dirs <==> ver in s.dirs) && (ver in s.dirs ==> s'.dirs[ver] == s.dirs[ver])
            && (s'.report == Installed(ver) ==> s.report == Installed(ver))
            && (!s'.pc.Idle? ==> s'.pc.Check? || s'.pc.img.ver != ver)
  {
    hide EntryOver, ParentsMade, Occupied, HasChild, Deep;
  }

  lemma StepKeepsStuck(s: State, a: Step, ver: string)
    requires Stuck(s, ver) && Enabled(s, a)
    ensures Stuck(Do(s, a), ver)
  {
    if s.pc.Idle? || s.pc.img.ver != ver {
      hide Enabled, Do, Deep;
      StepTouchesOne(s, a, ver);
    } else if a.Remove? {
      hide Do, Deep;
      RemoveKeepsStuck(s, a.path, ver);
    } else {
      assert s.dirs[ver] != map[];
      hide Deep, HasChild;
    }
  }

  /** Nothing ever repairs it: no install of any image, with any failures and cuts, installs that version. */
  lemma {:induction false} StuckIsForEver(s: State, run: seq<Step>, ver: string)
    requires Stuck(s, ver) && CanRun(s, run)
    ensures Stuck(After(s, run), ver)
    decreases |run|
  {
    hide Stuck, Do, Enabled;
    if run != [] {
      StepKeepsStuck(s, run[0], ver);
      StuckIsForEver(Do(s, run[0]), run[1..], ver);
    }
  }
}
