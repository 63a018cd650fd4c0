/** Lodor_atomicWrite of minui.c on a card that may lose power between any two steps. */
module AtomicWrite {
  import opened Options

  /** A file's contents as programs see them. Until it is synced, a crash may leave anything. */
  datatype File = File(data: string, synced: bool)

  /** One directory. Files are numbered; a number is never used twice. stale lists, for names
      changed since the directory was last synced, the entries a crash may bring back. */
  datatype Fs = Fs(files: seq<File>, dir: map<string, nat>, stale: set<(string, Option<nat>)>)

  function Lookup(fs: Fs, name: string): Option<nat> {
    if name in fs.dir then Some(fs.dir[name]) else None
  }

  /** The entries name may have after a crash, each name on its own. */
  ghost function Entries(fs: Fs, name: string): set<Option<nat>> {
    {Lookup(fs, name)} + set p | p in fs.stale && p.0 == name :: p.1
  }

  /** What can be read through an entry after a crash: None is no file. */
  predicate Outcome(fs: Fs, e: Option<nat>, r: Option<string>) {
    match e
    case None => r.None?
    case Some(i) => i < |fs.files| && r.Some? && (fs.files[i].synced ==> r.value == fs.files[i].data)
  }

  /** A crash now can leave name with contents r. */
  ghost predicate CanRecover(fs: Fs, name: string, r: Option<string>) {
    exists e :: e in Entries(fs, name) && Outcome(fs, e, r)
  }

  /** What a running program reads. */
  function Live(fs: Fs, name: string): Option<string> {
    match Lookup(fs, name)
    case None => None
    case Some(i) => if i < |fs.files| then Some(fs.files[i].data) else None
  }

  /** Every entry, present or stale, names an existing file. */
  ghost predicate Valid(fs: Fs) {
    && (forall name :: name in fs.dir ==> fs.dir[name] < |fs.files|)
    && (forall p :: p in fs.stale && p.1.Some? ==> p.1.value < |fs.files|)
  }

  /** The temporary name does not lead to a file that name may lead to. */
  ghost predicate Apart(fs: Fs, name: string, tmp: string) {
    tmp in fs.dir ==> Some(fs.dir[tmp]) !in Entries(fs, name)
  }

  // ---- the steps ----

  function Change(fs: Fs, name: string, dir: map<string, nat>): Fs {
    fs.(dir := dir, stale := fs.stale + {(name, Lookup(fs, name))})
  }

  /** fopen(tmp, "w"): truncate, or create. */
  function Open(fs: Fs, tmp: string): Fs
    requires Lookup(fs, tmp).Some? ==> fs.dir[tmp] < |fs.files|
  {
    if tmp in fs.dir then fs.(files := fs.files[fs.dir[tmp] := File("", false)])
    else Change(fs.(files := fs.files + [File("", false)]), tmp, fs.dir[tmp := |fs.files|])
  }

  /** Some of the data has reached the file; nothing is safe yet. */
  function Write(fs: Fs, i: nat, data: string): Fs
    requires i < |fs.files|
  {
    fs.(files := fs.files[i := File(data, false)])
  }

  function Sync(fs: Fs, i: nat): Fs
    requires i < |fs.files|
  {
    fs.(files := fs.files[i := fs.files[i].(synced := true)])
  }

  function Unlink(fs: Fs, tmp: string): Fs {
    Change(fs, tmp, fs.dir - {tmp})
  }

  /** rename: both entries change at once for running programs. */
  function Rename(fs: Fs, tmp: string, path: string): Fs
    requires tmp in fs.dir
  {
    var moved := Change(fs, path, fs.dir[path := fs.dir[tmp]]);
    Change(moved, tmp, moved.dir - {tmp})
  }

  function SyncDir(fs: Fs): Fs { fs.(stale := {}) }

  // ---- what they do to another name ----

  /** Nothing recoverable under path has changed. */
  ghost predicate Same(fs: Fs, gs: Fs, path: string) {
    && Live(fs, path) == Live(gs, path)
    && forall r :: CanRecover(fs, path, r) <==> CanRecover(gs, path, r)
  }

  /** A crash now leaves the complete new contents, or what a crash before could have left. */
  ghost predicate OldOrNew(fs: Fs, gs: Fs, path: string, content: string) {
    forall r :: CanRecover(gs, path, r) ==> CanRecover(fs, path, r) || r == Some(content)
  }

  lemma EntryValid(fs: Fs, path: string)
    requires Valid(fs)
    ensures forall i :: Some(i) in Entries(fs, path) ==> i < |fs.files|
  {
  }

  lemma SameEntries(fs: Fs, gs: Fs, path: string)
    requires Valid(fs) && Lookup(fs, path) == Lookup(gs, path) && Entries(fs, path) == Entries(gs, path)
    requires |fs.files| <= |gs.files|
    requires forall i :: Some(i) in Entries(fs, path) && i < |fs.files| ==> gs.files[i] == fs.files[i]
    ensures Same(fs, gs, path)
  {
    assert Lookup(fs, path) in Entries(fs, path);
    forall r ensures CanRecover(fs, path, r) <==> CanRecover(gs, path, r) {
      EntryValid(fs, path);
      forall e | e in Entries(fs, path) ensures Outcome(fs, e, r) <==> Outcome(gs, e, r) {}
    }
  }

  lemma OpenKeeps(fs: Fs, tmp: string, path: string)
    requires Valid(fs) && tmp != path && Apart(fs, path, tmp)
    ensures var gs := Open(fs, tmp);
            Valid(gs) && Same(fs, gs, path) && Apart(gs, path, tmp) && tmp in gs.dir
  {
    var gs := Open(fs, tmp);
    EntryValid(fs, path);
    assert Entries(fs, path) == Entries(gs, path);
    SameEntries(fs, gs, path);
  }

  lemma FileKeeps(fs: Fs, tmp: string, path: string, file: File)
    requires Valid(fs) && tmp in fs.dir && Apart(fs, path, tmp)
    ensures var gs := fs.(files := fs.files[fs.dir[tmp] := file]);
            Valid(gs) && Same(fs, gs, path) && Apart(gs, path, tmp) && gs.dir == fs.dir
  {
    var gs := fs.(files := fs.files[fs.dir[tmp] := file]);
    assert Entries(fs, path) == Entries(gs, path);
    SameEntries(fs, gs, path);
  }

  lemma UnlinkKeeps(fs: Fs, tmp: string, path: string)
    requires Valid(fs) && tmp != path
    ensures var gs := Unlink(fs, tmp); Valid(gs) && Same(fs, gs, path) && Apart(gs, path, tmp)
  {
    var gs := Unlink(fs, tmp);
    assert Entries(fs, path) == Entries(gs, path);
    SameEntries(fs, gs, path);
  }

  /** After the rename a crash leaves the old contents or the synced new ones. */
  lemma RenameSwaps(fs: Fs, tmp: string, path: string, content: string)
    requires Valid(fs) && tmp != path && tmp in fs.dir && fs.files[fs.dir[tmp]] == File(content, true)
    ensures var gs := Rename(fs, tmp, path);
            && Valid(gs) && Apart(gs, path, tmp) && Live(gs, path) == Some(content) && path in gs.dir
            && gs.files[gs.dir[path]] == File(content, true)
            && forall r :: CanRecover(gs, path, r) <==> CanRecover(fs, path, r) || r == Some(content)
  {
    var gs, i := Rename(fs, tmp, path), fs.dir[tmp];
    assert Entries(gs, path) == Entries(fs, path) + {Some(i)};
    forall r ensures CanRecover(gs, path, r) <==> CanRecover(fs, path, r) || r == Some(content) {
      assert Outcome(gs, Some(i), r) <==> r == Some(content);
      forall e ensures Outcome(fs, e, r) <==> Outcome(gs, e, r) {}
    }
  }

  /** Were the data not synced before the rename, a crash could leave anything at all. */
  lemma UnsyncedRenameTears(fs: Fs, tmp: string, path: string, anything: string)
    requires Valid(fs) && tmp != path && tmp in fs.dir && !fs.files[fs.dir[tmp]].synced
    ensures CanRecover(Rename(fs, tmp, path), path, Some(anything))
  {
    var gs := Rename(fs, tmp, path);
    assert Lookup(gs, path) in Entries(gs, path) && Outcome(gs, Lookup(gs, path), Some(anything));
  }

  /** Syncing the directory makes the running state the only one a crash can leave. */
  lemma SyncDirSettles(fs: Fs, path: string, content: string)
    requires Valid(fs) && path in fs.dir && fs.files[fs.dir[path]] == File(content, true)
    ensures var gs := SyncDir(fs);
            && Valid(gs) && Live(gs, path) == Some(content)
            && forall r :: CanRecover(gs, path, r) <==> r == Some(content)
  {
    var gs := SyncDir(fs);
    assert Entries(gs, path) == {Some(fs.dir[path])};
    forall r ensures CanRecover(gs, path, r) <==> r == Some(content) {
      assert Outcome(gs, Some(fs.dir[path]), r) <==> r == Some(content);
    }
  }

  /** A rename leaves every other name as it is, for programs and for a crash. */
  lemma RenameKeepsOthers(fs: Fs, tmp: string, path: string, other: string)
    requires Valid(fs) && tmp in fs.dir && other != tmp && other != path
    ensures Same(fs, Rename(fs, tmp, path), other)
  {
    var gs := Rename(fs, tmp, path);
    assert Entries(gs, other) == Entries(fs, other);
    SameEntries(fs, gs, other);
  }

  /** Syncing the directory changes nothing for programs; a crash can then leave any name only
      with the entry it has. */
  lemma SyncDirSettlesAll(fs: Fs, name: string, r: Option<string>)
    ensures Live(SyncDir(fs), name) == Live(fs, name)
    ensures CanRecover(SyncDir(fs), name, r) <==> Outcome(fs, Lookup(fs, name), r)
  {
    var gs := SyncDir(fs);
    assert Entries(gs, name) == {Lookup(fs, name)};
    assert Outcome(gs, Lookup(fs, name), r) <==> Outcome(fs, Lookup(fs, name), r);
  }

  // ---- what a crash leaves, and what it means for the next write ----

  /** A directory as it may be found after a crash: each name under one of its entries, each
      file as far as it was synced, everything on the card. */
  ghost predicate Recovered(fs: Fs, gs: Fs) {
    && Valid(gs) && gs.stale == {} && |gs.files| == |fs.files|
    && (forall name :: Lookup(gs, name) in Entries(fs, name))
    && (forall i :: 0 <= i < |fs.files| ==> gs.files[i].synced)
    && (forall i :: 0 <= i < |fs.files| && fs.files[i].synced ==> gs.files[i].data == fs.files[i].data)
  }

  /** What is found under a name in such a directory is what the crash can leave it with. */
  lemma RecoveredReads(fs: Fs, gs: Fs, name: string)
    requires Valid(fs) && Recovered(fs, gs)
    ensures CanRecover(fs, name, Live(gs, name))
  {
    var e := Lookup(gs, name);
    assert e in Entries(fs, name) && Outcome(fs, e, Live(gs, name));
  }

  /** And everything it can leave it with is found in some such directory. */
  lemma EveryOutcomeFound(fs: Fs, name: string, r: Option<string>) returns (gs: Fs)
    requires Valid(fs) && CanRecover(fs, name, r)
    ensures Recovered(fs, gs) && Live(gs, name) == r
  {
    var e :| e in Entries(fs, name) && Outcome(fs, e, r);
    EntryValid(fs, name);
    var files := seq(|fs.files|, i requires 0 <= i < |fs.files| =>
      File(if e == Some(i) && !fs.files[i].synced then r.value else fs.files[i].data, true));
    var dir := if e.Some? then fs.dir[name := e.value] else fs.dir - {name};
    gs := Fs(files, dir, {});
    assert Lookup(gs, name) == e;
    forall other ensures Lookup(gs, other) in Entries(fs, other) {
      if other != name { assert Lookup(gs, other) == Lookup(fs, other); }
    }
  }

  /** A crash between the rename and the sync of the directory may leave both names on one
      file. */
  lemma TwoNamesOneFile(fs: Fs, tmp: string, path: string) returns (gs: Fs)
    requires Valid(fs) && tmp != path && tmp in fs.dir
    ensures Recovered(Rename(fs, tmp, path), gs) && !Apart(gs, path, tmp)
  {
    var hs, i := Rename(fs, tmp, path), fs.dir[tmp];
    gs := Fs(seq(|fs.files|, k requires 0 <= k < |fs.files| => File(fs.files[k].data, true)),
             hs.dir[tmp := i], {});
    assert (tmp, Some(i)) in hs.stale;
    forall name ensures Lookup(gs, name) in Entries(hs, name) {
      if name != tmp { assert Lookup(gs, name) == Lookup(hs, name); }
    }
    assert Lookup(gs, path) == Some(i);
  }

  /** The next write leaves the contents alone while it fills its temporary file exactly when
      the two names do not share a file. */
  lemma NextWriteSafeIff(gs: Fs, tmp: string, path: string)
    requires Valid(gs) && gs.stale == {} && tmp != path && path in gs.dir && gs.files[gs.dir[path]].synced
    ensures Same(gs, Open(gs, tmp), path) <==> Apart(gs, path, tmp)
    ensures Apart(gs, path, tmp) <==> tmp !in gs.dir || gs.dir[tmp] != gs.dir[path]
  {
    var i := gs.dir[path];
    assert Entries(gs, path) == {Some(i)};
    if Apart(gs, path, tmp) {
      OpenKeeps(gs, tmp, path);
    } else {
      var hs, lost := Open(gs, tmp), gs.files[i].data + "!";
      assert Lookup(hs, path) in Entries(hs, path) && Outcome(hs, Lookup(hs, path), Some(lost));
      assert CanRecover(hs, path, Some(lost)) && !CanRecover(gs, path, Some(lost));
    }
  }

  /** Once the directory is synced after the rename, every crash leaves the names apart. */
  lemma SettledStaysApart(fs: Fs, gs: Fs, tmp: string, path: string)
    requires tmp !in fs.dir && Recovered(SyncDir(fs), gs)
    ensures Apart(gs, path, tmp)
  {
    assert Lookup(gs, tmp) in Entries(SyncDir(fs), tmp);
  }

  // ---- the path and what the system calls answer ----

  const MAX_PATH: nat := 512

  const SUFFIX: string := ".tmp"

  /** What the calls answer, and what the file holds where they leave that open: before the
      flush (spilled), after it (flushedData), and after the close (late, if it still wrote). */
  datatype Results = Results(canOpen: bool, spilled: string, written: bool, flushed: bool, flushedData: string,
                             synced: bool, late: Option<string>, closed: bool, renamed: bool, unlinked: bool,
                             dirOpened: bool, dirSynced: bool)

  // ---- what is kept along the way ----

  lemma SameTrans(a: Fs, b: Fs, c: Fs, path: string)
    requires Same(a, b, path) && Same(b, c, path)
    ensures Same(a, c, path)
  {
    forall r ensures CanRecover(a, path, r) <==> CanRecover(c, path, r) {
      assert CanRecover(a, path, r) <==> CanRecover(b, path, r);
    }
  }

  /** Every state since start has path as it was. */
  ghost predicate Kept(start: Fs, before: seq<Fs>, history: seq<Fs>, path: string) {
    before <= history && forall i :: |before| <= i < |history| ==> Same(start, history[i], path)
  }

  /** In every state since start a crash leaves the old contents or the new. */
  ghost predicate Recorded(start: Fs, before: seq<Fs>, history: seq<Fs>, path: string, content: string) {
    before <= history && forall i :: |before| <= i < |history| ==> OldOrNew(start, history[i], path, content)
  }

  lemma KeptOne(start: Fs, before: seq<Fs>, fs: Fs, path: string)
    requires Same(start, fs, path)
    ensures Kept(start, before, before + [fs], path)
  {
  }

  lemma RecordedOne(start: Fs, before: seq<Fs>, history: seq<Fs>, fs: Fs, path: string, content: string)
    requires Recorded(start, before, history, path, content) && OldOrNew(start, fs, path, content)
    ensures Recorded(start, before, history + [fs], path, content)
  {
    hide OldOrNew;
  }

  lemma KeptIsRecorded(start: Fs, before: seq<Fs>, history: seq<Fs>, path: string, content: string)
    requires Kept(start, before, history, path)
    ensures Recorded(start, before, history, path, content)
  {
  }

  lemma NowEither(start: Fs, fs: Fs, gs: Fs, path: string, content: string)
    requires Same(start, fs, path)
    requires forall r :: CanRecover(gs, path, r) <==> CanRecover(fs, path, r) || r == Some(content)
    ensures OldOrNew(start, gs, path, content)
  {
    hide CanRecover;
  }

  lemma SettledIsNew(start: Fs, gs: Fs, path: string, content: string)
    requires forall r :: CanRecover(gs, path, r) <==> r == Some(content)
    ensures OldOrNew(start, gs, path, content)
  {
  }

  lemma NoTemp(fs: Fs, path: string, tmp: string)
    requires tmp !in fs.dir
    ensures Apart(fs, path, tmp)
  {
  }

  /** As far as the names were apart at the start, they still are, and nothing recoverable under
      path has changed in between. */
  ghost predicate Quiet(start: Fs, before: seq<Fs>, fs: Fs, history: seq<Fs>, path: string, tmp: string) {
    Apart(start, path, tmp) ==>
      Apart(fs, path, tmp) && Same(start, fs, path) && Kept(start, before, history, path)
  }

  lemma OpenQuiet(fs: Fs, history: seq<Fs>, path: string, tmp: string)
    requires Valid(fs) && tmp != path
    ensures var gs := Open(fs, tmp);
            Valid(gs) && tmp in gs.dir && Quiet(fs, history, gs, history + [gs], path, tmp)
  {
    if Apart(fs, path, tmp) {
      OpenKeeps(fs, tmp, path);
      hide Same;
      KeptOne(fs, history, Open(fs, tmp), path);
    }
  }

  lemma FileQuiet(start: Fs, before: seq<Fs>, fs: Fs, history: seq<Fs>, path: string, tmp: string, file: File)
    requires Valid(fs) && tmp in fs.dir && Quiet(start, before, fs, history, path, tmp)
    ensures var gs := fs.(files := fs.files[fs.dir[tmp] := file]);
            Valid(gs) && tmp in gs.dir && Quiet(start, before, gs, history + [gs], path, tmp)
  {
    if Apart(start, path, tmp) {
      FileKeeps(fs, tmp, path, file);
      SameTrans(start, fs, fs.(files := fs.files[fs.dir[tmp] := file]), path);
      hide Same, Apart;
    }
  }

  lemma UnlinkQuiet(start: Fs, before: seq<Fs>, fs: Fs, history: seq<Fs>, path: string, tmp: string)
    requires Valid(fs) && tmp != path && Quiet(start, before, fs, history, path, tmp)
    ensures var gs := Unlink(fs, tmp); Valid(gs) && Quiet(start, before, gs, history + [gs], path, tmp)
  {
    UnlinkKeeps(fs, tmp, path);
    if Apart(start, path, tmp) {
      SameTrans(start, fs, Unlink(fs, tmp), path);
      hide Same, Apart, Unlink;
    }
  }

  /** What a write that got as far as the rename promises. */
  ghost predicate Promised(start: Fs, before: seq<Fs>, fs: Fs, history: seq<Fs>, path: string, tmp: string,
                           content: string) {
    Apart(start, path, tmp) ==>
      Apart(fs, path, tmp) && Recorded(start, before, history, path, content) && OldOrNew(start, fs, path, content)
  }

  lemma RenamePromised(start: Fs, before: seq<Fs>, fs: Fs, history: seq<Fs>, path: string, tmp: string, content: string)
    requires Valid(fs) && tmp != path && tmp in fs.dir && fs.files[fs.dir[tmp]] == File(content, true)
    requires Quiet(start, before, fs, history, path, tmp)
    ensures var gs := Rename(fs, tmp, path);
            && Valid(gs) && tmp !in gs.dir && Live(gs, path) == Some(content) && path in gs.dir
            && gs.files[gs.dir[path]] == File(content, true)
            && Promised(start, before, gs, history + [gs], path, tmp, content)
  {
    RenameSwaps(fs, tmp, path, content);
    if Apart(start, path, tmp) {
      NowEither(start, fs, Rename(fs, tmp, path), path, content);
      hide Same, Apart, OldOrNew, Rename;
      KeptIsRecorded(start, before, history, path, content);
      RecordedOne(start, before, history, Rename(fs, tmp, path), path, content);
    }
  }

  lemma SyncDirPromised(start: Fs, before: seq<Fs>, fs: Fs, history: seq<Fs>, path: string, tmp: string,
                        content: string)
    requires Valid(fs) && path in fs.dir && tmp !in fs.dir && fs.files[fs.dir[path]] == File(content, true)
    requires Promised(start, before, fs, history, path, tmp, content)
    ensures var gs := SyncDir(fs);
            && Valid(gs) && Live(gs, path) == Some(content)
            && (forall c :: CanRecover(gs, path, c) <==> c == Some(content))
            && Promised(start, before, gs, history + [gs], path, tmp, content)
  {
    SyncDirSettles(fs, path, content);
    NoTemp(SyncDir(fs), path, tmp);
    hide Same, Apart, CanRecover, Recorded;
    SettledIsNew(start, SyncDir(fs), path, content);
    if Apart(start, path, tmp) { RecordedOne(start, before, history, SyncDir(fs), path, content); }
  }

  lemma NothingDone(fs: Fs, history: seq<Fs>, path: string, content: string)
    ensures Recorded(fs, history, history, path, content) && Same(fs, fs, path)
  {
  }

  lemma QuietIsRecorded(start: Fs, before: seq<Fs>, fs: Fs, history: seq<Fs>, path: string, tmp: string,
                        content: string)
    requires Quiet(start, before, fs, history, path, tmp)
    ensures Apart(start, path, tmp) ==>
              Apart(fs, path, tmp) && Same(start, fs, path) && Recorded(start, before, history, path, content)
  {
    hide Apart, Same, Recorded;
    if Apart(start, path, tmp) { KeptIsRecorded(start, before, history, path, content); }
  }

  lemma PromiseKept(start: Fs, before: seq<Fs>, fs: Fs, history: seq<Fs>, path: string, tmp: string, content: string)
    requires Promised(start, before, fs, history, path, tmp, content)
    ensures Apart(start, path, tmp) ==>
              && Apart(fs, path, tmp) && Recorded(start, before, history, path, content)
              && OldOrNew(start, fs, path, content)
  {
  }

  // ---- renaming whatever there is ----

  /** A crash after renaming a file like f over path leaves the old contents or the new. */
  ghost predicate Intact(fs: Fs, path: string, content: string, f: File) {
    if f.synced then f.data == content || CanRecover(fs, path, Some(f.data))
    else forall c :: c == content || CanRecover(fs, path, Some(c))
  }

  /** What a crash leaves after the rename: what it left before, or the file's contents, and
      where those are not synced any contents. */
  lemma RenameShows(fs: Fs, tmp: string, path: string)
    requires Valid(fs) && tmp != path && tmp in fs.dir
    ensures var gs, f := Rename(fs, tmp, path), fs.files[fs.dir[tmp]];
            && Valid(gs) && Live(gs, path) == Some(f.data)
            && forall r :: CanRecover(gs, path, r) <==>
                             CanRecover(fs, path, r) || (r.Some? && (f.synced ==> r.value == f.data))
  {
    var gs, i := Rename(fs, tmp, path), fs.dir[tmp];
    assert Entries(gs, path) == Entries(fs, path) + {Some(i)};
    forall r ensures CanRecover(gs, path, r) <==>
                       CanRecover(fs, path, r) || (r.Some? && (fs.files[i].synced ==> r.value == fs.files[i].data))
    {
      forall e ensures Outcome(fs, e, r) <==> Outcome(gs, e, r) {}
      assert Outcome(gs, Some(i), r) <==> r.Some? && (fs.files[i].synced ==> r.value == fs.files[i].data);
    }
  }

  lemma RenameIntactIff(fs: Fs, tmp: string, path: string, content: string)
    requires Valid(fs) && tmp != path && tmp in fs.dir
    ensures var gs, f := Rename(fs, tmp, path), fs.files[fs.dir[tmp]];
            && Valid(gs) && Live(gs, path) == Some(f.data)
            && (OldOrNew(fs, gs, path, content) <==> Intact(fs, path, content, f))
  {
    var gs, f := Rename(fs, tmp, path), fs.files[fs.dir[tmp]];
    RenameShows(fs, tmp, path);
    hide CanRecover, Rename;
    if f.synced {
      if OldOrNew(fs, gs, path, content) { assert CanRecover(gs, path, Some(f.data)); }
    } else {
      assert OldOrNew(fs, gs, path, content) ==> forall c :: CanRecover(gs, path, Some(c)) ==>
        c == content || CanRecover(fs, path, Some(c));
    }
  }

  lemma SameIntact(start: Fs, fs: Fs, gs: Fs, path: string, content: string, f: File)
    requires Same(start, fs, path)
    ensures Intact(start, path, content, f) <==> Intact(fs, path, content, f)
    ensures OldOrNew(start, gs, path, content) <==> OldOrNew(fs, gs, path, content)
  {
    hide CanRecover;
    forall c: string ensures CanRecover(start, path, Some(c)) <==> CanRecover(fs, path, Some(c)) {}
  }

  lemma RecordedLast(start: Fs, before: seq<Fs>, history: seq<Fs>, fs: Fs, path: string, content: string)
    requires Recorded(start, before, history, path, content)
    ensures Recorded(start, before, history + [fs], path, content) <==> OldOrNew(start, fs, path, content)
  {
    hide OldOrNew;
    if Recorded(start, before, history + [fs], path, content) { assert (history + [fs])[|history|] == fs; }
  }

  /** The file the cheat sidecar renames: all of the text if every write and the flush succeed,
      and on the card if the sync does and the close adds nothing. */
  function Renamed(content: string, r: Results): File {
    if !r.flushed && r.late.Some? then File(r.late.value, false)
    else File(if r.written && r.flushed then content else r.flushedData, r.synced)
  }

  /** Renaming it: a crash then leaves old or new contents exactly if the file is intact. */
  lemma SidecarRenamed(start: Fs, before: seq<Fs>, fs: Fs, history: seq<Fs>, path: string, tmp: string,
                       content: string)
    requires Valid(fs) && tmp != path && tmp in fs.dir && Quiet(start, before, fs, history, path, tmp)
    ensures var gs, f := Rename(fs, tmp, path), fs.files[fs.dir[tmp]];
            && Valid(gs) && Live(gs, path) == Some(f.data)
            && (Apart(start, path, tmp) ==>
                  (Recorded(start, before, history + [gs], path, content) <==> Intact(start, path, content, f)))
            && (!f.synced ==> forall c :: CanRecover(gs, path, Some(c)))
  {
    var gs, f := Rename(fs, tmp, path), fs.files[fs.dir[tmp]];
    RenameShows(fs, tmp, path);
    RenameIntactIff(fs, tmp, path, content);
    QuietIsRecorded(start, before, fs, history, path, tmp, content);
    hide *;
    if Apart(start, path, tmp) {
      SameIntact(start, fs, gs, path, content, f);
      RecordedLast(start, before, history, gs, path, content);
    }
  }

  /** One write of many fails, and the flush, the sync and the rename succeed: the file lacks
      what was lost, and its contents are neither the old nor the new. */
  lemma SidecarLosesLines(path: string, was: string, lost: string, kept: string)
    requires lost != [] && kept != was
    ensures var card := Fs([File(was, true)], map[path := 0], {});
            var r := Results(true, kept, false, true, kept, true, None, true, true, true, true, true);
            && Valid(card) && Live(card, path) == Some(was)
            && Renamed(lost + kept, r) == File(kept, true) && !Intact(card, path, lost + kept, Renamed(lost + kept, r))
  {
    var card := Fs([File(was, true)], map[path := 0], {});
    assert Entries(card, path) == {Some(0)};
    assert |lost + kept| > |kept|;
    assert !CanRecover(card, path, Some(kept));
  }

  // ---- the functions ----

  class Card {
    var fs: Fs
    ghost var history: seq<Fs> // every state a crash may find, step by step

    constructor (fs: Fs)
      ensures this.fs == fs && history == [fs]
    {
      this.fs, history := fs, [fs];
    }

    method Take(next: Fs)
      modifies this
      ensures fs == next && history == old(history) + [next]
    {
      fs := next;
      history := history + [next];
    }

    /** data is in the file, in the operating system's hands. */
    method WriteData(path: string, tmp: string, data: string, ghost start: Fs, ghost before: seq<Fs>)
      requires Valid(fs) && tmp in fs.dir && Quiet(start, before, fs, history, path, tmp)
      modifies this
      ensures Valid(fs) && tmp in fs.dir && Quiet(start, before, fs, history, path, tmp)
      ensures fs.files[fs.dir[tmp]] == File(data, false)
    {
      FileQuiet(start, before, fs, history, path, tmp, File(data, false));
      hide Quiet;
      Take(Write(fs, fs.dir[tmp], data));
    }

    /** fsync: what is in the file is on the card. */
    method SyncData(path: string, tmp: string, ghost start: Fs, ghost before: seq<Fs>)
      requires Valid(fs) && tmp in fs.dir && Quiet(start, before, fs, history, path, tmp)
      modifies this
      ensures Valid(fs) && tmp in fs.dir && Quiet(start, before, fs, history, path, tmp)
      ensures fs.files[fs.dir[tmp]] == File(old(fs.files[fs.dir[tmp]].data), true)
    {
      FileQuiet(start, before, fs, history, path, tmp, fs.files[fs.dir[tmp]].(synced := true));
      hide Quiet;
      Take(Sync(fs, fs.dir[tmp]));
    }

    /** Lodor_atomicWrite's temporary file: open, write, flush, sync, close, up to the first
        failure. */
    method WriteTemp(path: string, tmp: string, content: string, r: Results) returns (ok: bool)
      requires Valid(fs) && tmp != path && r.canOpen
      modifies this
      ensures Valid(fs) && tmp in fs.dir && Quiet(old(fs), old(history), fs, history, path, tmp)
      ensures ok == (r.written && r.flushed && r.synced && r.closed)
      ensures ok ==> fs.files[fs.dir[tmp]] == File(content, true)
    {
      ghost var start, before := fs, history;
      OpenQuiet(fs, history, path, tmp);
      hide Quiet;
      Take(Open(fs, tmp));
      WriteData(path, tmp, r.spilled, start, before);
      ok := r.written;
      if ok {
        WriteData(path, tmp, if r.flushed then content else r.flushedData, start, before);
        ok := r.flushed;
      }
      if ok {
        if r.synced { SyncData(path, tmp, start, before); }
        ok := r.synced;
      }
      if !ok && r.late.Some? { WriteData(path, tmp, r.late.value, start, before); }
      if !r.closed { ok := false; }
    }

    /** unlink(tmp), which may fail. */
    method Discard(path: string, tmp: string, unlinked: bool, ghost start: Fs, ghost before: seq<Fs>)
      requires Valid(fs) && tmp != path && Quiet(start, before, fs, history, path, tmp)
      modifies this
      ensures Valid(fs) && Quiet(start, before, fs, history, path, tmp) && (unlinked ==> tmp !in fs.dir)
    {
      if unlinked && tmp in fs.dir {
        UnlinkQuiet(start, before, fs, history, path, tmp);
        hide Quiet, Unlink;
        Take(Unlink(fs, tmp));
      }
    }

    /** Lodor_atomicWrite. */
    method AtomicWrite(path: string, content: string, r: Results) returns (ok: bool)
      requires Valid(fs)
      modifies this
      ensures Valid(fs)
      // it succeeds exactly when the temporary name fits and no call fails that it checks
      ensures ok <==>
                && |path| + |".tmp"| < 512
                && r.canOpen && r.written && r.flushed && r.synced && r.closed && r.renamed
      ensures ok ==> Live(fs, path) == Some(content)
      // no temporary file is left behind, unless removing it failed too
      ensures |path| + |".tmp"| < 512 && r.canOpen && (ok || r.unlinked) ==> path + ".tmp" !in fs.dir
      // after a directory sync a crash leaves only the new contents
      ensures ok && '/' in path && r.dirOpened && r.dirSynced ==>
                forall c :: CanRecover(fs, path, c) <==> c == Some(content)
      // where the temporary name does not lead to the target's file: a crash between any two
      // steps leaves the old contents or all of the new, 0 means the old are untouched, and the
      // next write may follow
      ensures Apart(old(fs), path, path + SUFFIX) ==>
                && Apart(fs, path, path + SUFFIX)
                && Recorded(old(fs), old(history), history, path, content)
                && if ok then OldOrNew(old(fs), fs, path, content) else Same(old(fs), fs, path)
    {
      var tmp := path + SUFFIX;
      ghost var start, before := fs, history;
      if |tmp| >= MAX_PATH || !r.canOpen {
        NothingDone(fs, history, path, content);
        return false;
      }
      ok := WriteTemp(path, tmp, content, r);
      if !ok || !r.renamed {
        Discard(path, tmp, r.unlinked, start, before);
        QuietIsRecorded(start, before, fs, history, path, tmp, content);
        return false;
      }
      RenamePromised(start, before, fs, history, path, tmp, content);
      hide Quiet, Promised, Rename, Valid, CanRecover;
      Take(Rename(fs, tmp, path));
      if '/' in path && r.dirOpened && r.dirSynced {
        SyncDirPromised(start, before, fs, history, path, tmp, content);
        Take(SyncDir(fs));
      }
      PromiseKept(start, before, fs, history, path, tmp, content);
    }

    /** Lodor_cheatsSidecarSave of minarch.c, with text as its contents: the same steps with no
        result looked at between opening the file and renaming it, and no directory sync. */
    method SidecarReplace(path: string, content: string, r: Results)
      requires Valid(fs)
      modifies this
      ensures Valid(fs)
      ensures r.canOpen && r.renamed ==> Live(fs, path) == Some(Renamed(content, r).data)
      ensures r.canOpen && r.renamed && r.written && r.flushed ==> Live(fs, path) == Some(content)
      // a crash between any two steps leaves the old contents or all of the new exactly if the
      // rename was not reached or the renamed file is intact
      ensures Apart(old(fs), path, path + SUFFIX) ==>
                (Recorded(old(fs), old(history), history, path, content)
                 <==> !(r.canOpen && r.renamed) || Intact(old(fs), path, content, Renamed(content, r)))
      // which it is where every write, the flush and the sync succeeded
      ensures r.written && r.flushed && r.synced ==> Intact(old(fs), path, content, Renamed(content, r))
      ensures Apart(old(fs), path, path + SUFFIX) && !(r.canOpen && r.renamed) ==> Same(old(fs), fs, path)
      // and a file that is not synced may be found with any contents
      ensures r.canOpen && r.renamed && !Renamed(content, r).synced ==> forall c :: CanRecover(fs, path, Some(c))
    {
      var tmp := path + SUFFIX;
      ghost var start, before := fs, history;
      NothingDone(fs, history, path, content);
      if !r.canOpen { return; }
      OpenQuiet(fs, history, path, tmp);
      Take(Open(fs, tmp));
      hide Quiet, Recorded, CanRecover, Valid, Live, Apart, Same;
      WriteData(path, tmp, r.spilled, start, before);
      WriteData(path, tmp, if r.written && r.flushed then content else r.flushedData, start, before);
      if r.synced { SyncData(path, tmp, start, before); }
      if !r.flushed && r.late.Some? { WriteData(path, tmp, r.late.value, start, before); }
      assert fs.files[fs.dir[tmp]] == Renamed(content, r);
      QuietIsRecorded(start, before, fs, history, path, tmp, content);
      if r.renamed {
        SidecarRenamed(start, before, fs, history, path, tmp, content);
        hide Rename, Intact;
        Take(Rename(fs, tmp, path));
      }
    }
  }
}
