/** Copying files out of the installer, and undoing it (`do_move_atomic` of
    dcos_installer/config_util.py). */
module Rollback {
  import opened Wrappers

  /** A path below a directory, component by component; `[]` is the directory itself. */
  type Path = seq<int>

  datatype Entry = Dir | File(content: int)

  type Tree = map<Path, Entry>

  function Parent(path: Path): Path
    requires path != []
  {
    path[..|path| - 1]
  }

  predicate IsDir(t: Tree, path: Path) {
    path in t && t[path].Dir?
  }

  predicate IsFile(t: Tree, path: Path) {
    path in t && t[path].File?
  }

  /** A directory tree: what exists is in a directory that exists. */
  predicate WellFormed(t: Tree) {
    IsDir(t, []) && forall path <- t :: path != [] ==> IsDir(t, Parent(path))
  }

  // ---------------------------------------------------------------- the commands

  /** `mkdir`. */
  function MadeDir(t: Tree, path: Path): Option<Tree>
    requires path != []
  {
    if path !in t && IsDir(t, Parent(path)) then Some(t[path := Dir]) else None
  }

  /** Where `cp` puts a file: into a directory of that name, if there is one. */
  function Target(t: Tree, path: Path): Path
    requires path != []
  {
    if IsDir(t, path) then path + [path[|path| - 1]] else path
  }

  /** `cp`, writing this content. */
  function Written(t: Tree, path: Path, content: int): Option<Tree>
    requires path != []
  {
    var target := Target(t, path);
    if IsDir(t, Parent(path)) && !IsDir(t, target) then Some(t[target := File(content)]) else None
  }

  function Copied(src: Tree, t: Tree, path: Path): Option<Tree>
    requires path != []
  {
    if IsFile(src, path) then Written(t, path, src[path].content) else None
  }

  /** `os.remove`; its error is only logged. */
  function FileRemoved(t: Tree, path: Path): Tree {
    if IsFile(t, path) then t - {path} else t
  }

  predicate IsEmptyDir(t: Tree, path: Path) {
    IsDir(t, path) && forall other <- t :: other != [] ==> Parent(other) != path
  }

  /** `os.rmdir`; its error is only logged. */
  function DirRemoved(t: Tree, path: Path): Tree {
    if IsEmptyDir(t, path) then t - {path} else t
  }

  function FilesRemoved(t: Tree, paths: seq<Path>): Tree {
    if paths == [] then t else FilesRemoved(FileRemoved(t, paths[|paths| - 1]), paths[..|paths| - 1])
  }

  function DirsRemoved(t: Tree, paths: seq<Path>): Tree {
    if paths == [] then t else DirsRemoved(DirRemoved(t, paths[|paths| - 1]), paths[..|paths| - 1])
  }

  // ---------------------------------------------------------------- what the journal says

  /** Everything that is new in the tree is in the journal, and nothing else has changed. */
  predicate Journaled(start: Tree, t: Tree, dirs: seq<Path>, files: seq<Path>) {
    && (forall path <- start :: path in t && t[path] == start[path])
    && (forall path <- t :: path !in start ==> if t[path].Dir? then path in dirs else path in files)
    && (forall path <- dirs :: path !in start && path != [])
    && (forall path <- files :: path !in start)
  }

  /** No directory was made before the directory it is in. */
  predicate ParentsFirst(dirs: seq<Path>) {
    forall i, j | 0 <= i < j < |dirs| :: dirs[i] != [] ==> Parent(dirs[i]) != dirs[j]
  }

  lemma {:induction false} FilesAreRemoved(t: Tree, files: seq<Path>)
    ensures forall path :: path in FilesRemoved(t, files) <==> path in t && !(t[path].File? && path in files)
    ensures forall path <- FilesRemoved(t, files) :: FilesRemoved(t, files)[path] == t[path]
  {
    if files != [] {
      var last, others := files[|files| - 1], files[..|files| - 1];
      assert files == others + [last];
      FilesAreRemoved(FileRemoved(t, last), others);
    }
  }

  /** Removing directories in reverse finds each of them empty. */
  lemma {:induction false} DirsAreRemoved(start: Tree, t: Tree, dirs: seq<Path>)
    requires WellFormed(start) && Journaled(start, t, dirs, []) && ParentsFirst(dirs)
    requires forall path <- t :: path !in start ==> t[path].Dir?
    ensures DirsRemoved(t, dirs) == start
    decreases |dirs|
  {
    if dirs == [] {
      assert t == start;
    } else {
      var last, others := dirs[|dirs| - 1], dirs[..|dirs| - 1];
      assert dirs == others + [last];
      if IsDir(t, last) {
        forall other <- t | other != []
          ensures Parent(other) != last
        {
          if other in start {
            assert IsDir(start, Parent(other));
          } else {
            assert other in dirs;
            if other == last {
              assert |Parent(other)| < |other|;
            } else {
              assert other in others;
            }
          }
        }
      }
      var next := DirRemoved(t, last);
      assert last !in next by { if last in t { assert t[last].Dir?; } }
      DirsAreRemoved(start, next, others);
    }
  }

  /** So the journal, undone backwards, gives the old tree back. */
  lemma UndoRestores(start: Tree, t: Tree, dirs: seq<Path>, files: seq<Path>)
    requires WellFormed(start) && Journaled(start, t, dirs, files) && ParentsFirst(dirs)
    ensures DirsRemoved(FilesRemoved(t, files), dirs) == start
  {
    FilesAreRemoved(t, files);
    var cleared := FilesRemoved(t, files);
    assert Journaled(start, cleared, dirs, []);
    DirsAreRemoved(start, cleared, dirs);
  }

  lemma {:induction false} DirsOnlyRemoved(t: Tree, dirs: seq<Path>)
    ensures forall path <- DirsRemoved(t, dirs) :: path in t && DirsRemoved(t, dirs)[path] == t[path]
  {
    if dirs != [] {
      DirsOnlyRemoved(DirRemoved(t, dirs[|dirs| - 1]), dirs[..|dirs| - 1]);
    }
  }

  /** A file that was there before its copy was tried is lost. */
  lemma UndoLosesOldFiles(start: Tree, t: Tree, dirs: seq<Path>, files: seq<Path>, path: Path)
    requires path in files && IsFile(start, path)
    ensures DirsRemoved(FilesRemoved(t, files), dirs) != start
  {
    FilesAreRemoved(t, files);
    DirsOnlyRemoved(FilesRemoved(t, files), dirs);
  }

  // ---------------------------------------------------------------- the copy, as a function

  /** What an interrupted command leaves behind. */
  datatype Residue = Nothing | Leaves(content: int)

  /** The tree, the journal, and how many commands are left before one is interrupted. */
  datatype State = State(tree: Tree, dirs: seq<Path>, files: seq<Path>, patience: nat)

  datatype Tried = Tried(state: State, ok: bool)

  function DirTried(s: State, path: Path, residue: Residue): Tried
    requires path != []
  {
    var noted := s.(dirs := s.dirs + [path]);
    match MadeDir(s.tree, path)
    case None => Tried(noted, false)
    case Some(made) =>
      if s.patience > 0 then Tried(noted.(tree := made, patience := s.patience - 1), true)
      else Tried(if residue.Leaves? then noted.(tree := made) else noted, false)
  }

  function FileTried(src: Tree, s: State, path: Path, residue: Residue): Tried
    requires path != []
  {
    var noted := s.(files := s.files + [path]);
    match Copied(src, s.tree, path)
    case None => Tried(noted, false)
    case Some(copied) =>
      if s.patience > 0 then Tried(noted.(tree := copied, patience := s.patience - 1), true)
      else
        match residue
        case Nothing => Tried(noted, false)
        case Leaves(content) => Tried(noted.(tree := Written(s.tree, path, content).value), false)
  }

  /** The missing parents of a file, from the one of length `k` on. */
  function ParentsTried(s: State, filename: Path, k: nat, residue: Residue): Tried
    requires 0 < k
    decreases |filename| - k
  {
    if k >= |filename| then Tried(s, true)
    else if filename[..k] in s.tree then ParentsTried(s, filename, k + 1, residue)
    else
      var made := DirTried(s, filename[..k], residue);
      if made.ok then ParentsTried(made.state, filename, k + 1, residue) else made
  }

  function OneTried(src: Tree, s: State, filename: Path, residue: Residue): Tried
    requires filename != []
  {
    var parents := ParentsTried(s, filename, 1, residue);
    if parents.ok then FileTried(src, parents.state, filename, residue) else parents
  }

  predicate Named(filenames: seq<Path>) {
    forall i | 0 <= i < |filenames| :: filenames[i] != []
  }

  function AllTried(src: Tree, s: State, filenames: seq<Path>, residue: Residue): Tried
    requires Named(filenames)
    decreases |filenames|
  {
    if filenames == [] then Tried(s, true)
    else
      var one := OneTried(src, s, filenames[0], residue);
      if one.ok then AllTried(src, one.state, filenames[1..], residue) else one
  }

  function Undone(s: State): Tree {
    DirsRemoved(FilesRemoved(s.tree, s.files), s.dirs)
  }

  // ---------------------------------------------------------------- the copy, in place

  datatype Outcome = Moved | RolledBack

  class Mover {
    const src: Tree
    const residue: Residue
    var tree: Tree
    var createdDirs: seq<Path>
    var createdFiles: seq<Path>
    /** Commands left before one is interrupted. */
    var patience: nat

    constructor (src: Tree, tree: Tree, patience: nat, residue: Residue)
      ensures this.src == src && this.residue == residue && Now() == State(tree, [], [], patience)
    {
      this.src, this.tree, this.patience, this.residue := src, tree, patience, residue;
      createdDirs, createdFiles := [], [];
    }

    function Now(): State
      reads this
    {
      State(tree, createdDirs, createdFiles, patience)
    }

    method Mkdir(path: Path) returns (ok: bool)
      requires path != []
      modifies this`tree, this`createdDirs, this`patience
      ensures Tried(Now(), ok) == DirTried(old(Now()), path, residue)
    {
      createdDirs := createdDirs + [path];
      var made := MadeDir(tree, path);
      if made.None? {
        return false;
      }
      ok := patience > 0;
      if ok {
        patience := patience - 1;
      }
      if ok || residue.Leaves? {
        tree := made.value;
      }
    }

    method Copy(path: Path) returns (ok: bool)
      requires path != []
      modifies this`tree, this`createdFiles, this`patience
      ensures Tried(Now(), ok) == FileTried(src, old(Now()), path, residue)
    {
      createdFiles := createdFiles + [path];
      var copied := Copied(src, tree, path);
      if copied.None? {
        return false;
      }
      ok := patience > 0;
      if ok {
        patience := patience - 1;
        tree := copied.value;
      } else if residue.Leaves? {
        tree := Written(tree, path, residue.content).value;
      }
    }

    method UndoAll()
      modifies this`tree
      ensures tree == Undone(old(Now()))
    {
      ghost var start := tree;
      assert createdFiles[..|createdFiles|] == createdFiles;
      for i := |createdFiles| downto 0
        invariant FilesRemoved(start, createdFiles) == FilesRemoved(tree, createdFiles[..i])
      {
        assert createdFiles[..i + 1][..i] == createdFiles[..i];
        tree := FileRemoved(tree, createdFiles[i]);
      }
      ghost var cleared := tree;
      assert createdDirs[..|createdDirs|] == createdDirs;
      for i := |createdDirs| downto 0
        invariant DirsRemoved(cleared, createdDirs) == DirsRemoved(tree, createdDirs[..i])
      {
        assert createdDirs[..i + 1][..i] == createdDirs[..i];
        tree := DirRemoved(tree, createdDirs[i]);
      }
    }

    method MakeParents(filename: Path) returns (ok: bool)
      requires filename != []
      modifies this`tree, this`createdDirs, this`patience
      ensures Tried(Now(), ok) == ParentsTried(old(Now()), filename, 1, residue)
    {
      for k := 1 to |filename|
        invariant ParentsTried(old(Now()), filename, 1, residue) == ParentsTried(Now(), filename, k, residue)
      {
        var parent := filename[..k];
        if parent !in tree {
          ok := Mkdir(parent);
          if !ok {
            return;
          }
        }
      }
      ok := true;
    }

    method CopyAll(filenames: seq<Path>) returns (ok: bool)
      requires Named(filenames)
      modifies this`tree, this`createdDirs, this`createdFiles, this`patience
      ensures Tried(Now(), ok) == AllTried(src, old(Now()), filenames, residue)
    {
      assert filenames[0..] == filenames;
      for i := 0 to |filenames|
        invariant AllTried(src, old(Now()), filenames, residue) == AllTried(src, Now(), filenames[i..], residue)
      {
        assert filenames[i..][0] == filenames[i] && filenames[i..][1..] == filenames[i + 1..];
        ok := MakeParents(filenames[i]);
        if !ok {
          return;
        }
        ok := Copy(filenames[i]);
        if !ok {
          return;
        }
      }
      ok := true;
    }

    /** `do_move_atomic`. Unless some file to copy is an existing directory, a failure restores the
        tree if and only if none of the files whose copy was tried was there before. */
    method DoMoveAtomic(filenames: seq<Path>) returns (outcome: Outcome)
      requires WellFormed(src) && WellFormed(tree) && createdDirs == [] && createdFiles == [] && Named(filenames)
      modifies this
      ensures createdFiles <= filenames
      ensures var tried := AllTried(src, old(Now()), filenames, residue);
              if tried.ok then outcome == Moved && Now() == tried.state
              else outcome == RolledBack && tree == Undone(tried.state) && createdFiles == tried.state.files
      ensures outcome.RolledBack? && (forall file <- createdFiles :: file !in old(tree)) ==> tree == old(tree)
      ensures outcome.RolledBack? && (forall filename <- filenames :: !IsDir(old(tree), filename)) ==>
                (tree == old(tree) <==> forall file <- createdFiles :: file !in old(tree))
      ensures outcome.Moved? && (forall filename <- filenames :: filename !in old(tree)) ==>
                OnlyAdded(src, old(tree), tree, createdDirs, filenames)
    {
      ghost var start, lives := tree, patience;
      var ok := CopyAll(filenames);
      FilesTried(src, State(start, [], [], lives), filenames, residue);
      if ok {
        if forall filename <- filenames :: filename !in start {
          SuccessAdds(src, start, filenames, lives, residue);
        }
        return Moved;
      }
      FailureRestoresIff(src, start, filenames, lives, residue);
      UndoAll();
      outcome := RolledBack;
    }
  }

  // ---------------------------------------------------------------- what a run keeps

  /** A name some directory of this list was made for, or that the source has as a directory. */
  predicate MadeFor(src: Tree, dirs: seq<Path>, current: Path) {
    forall dir <- dirs :: IsDir(src, dir) || (|dir| < |current| && dir == current[..|dir|])
  }

  /** Everything done so far, provided no file was there before. */
  predicate OnTrack(src: Tree, start: Tree, s: State, current: Path) {
    && WellFormed(s.tree) && ParentsFirst(s.dirs) && MadeFor(src, s.dirs, current)
    && Journaled(start, s.tree, s.dirs, s.files)
    && (forall dir <- s.dirs :: IsDir(s.tree, dir))
    && (forall file <- s.files :: IsFile(src, file) && IsFile(s.tree, file) && s.tree[file] == src[file])
  }

  /** Undoing is possible. */
  predicate Undoable(start: Tree, s: State) {
    Journaled(start, s.tree, s.dirs, s.files) && ParentsFirst(s.dirs)
  }

  lemma {:induction false} PrefixIsDir(t: Tree, path: Path, k: nat)
    requires WellFormed(t) && path in t && k < |path|
    ensures IsDir(t, path[..k])
    decreases |path|
  {
    var parent := Parent(path);
    assert IsDir(t, parent);
    if k < |parent| {
      PrefixIsDir(t, parent, k);
      assert parent[..k] == path[..k];
    } else {
      assert path[..k] == parent;
    }
  }

  /** The journal after making one more directory, whether or not the command succeeded. */
  lemma DirJournaled(start: Tree, t: Tree, dirs: seq<Path>, files: seq<Path>, path: Path, next: Tree)
    requires path != [] && path !in t && WellFormed(t)
    requires Journaled(start, t, dirs, files) && ParentsFirst(dirs) && forall dir <- dirs :: IsDir(t, dir)
    requires next == t || MadeDir(t, path) == Some(next)
    ensures Journaled(start, next, dirs + [path], files) && ParentsFirst(dirs + [path]) && WellFormed(next)
    ensures next != t ==> forall dir <- dirs + [path] :: IsDir(next, dir)
  {
    forall i | 0 <= i < |dirs| && dirs[i] != []
      ensures Parent(dirs[i]) != path
    {
      assert dirs[i] in dirs;
      assert IsDir(t, Parent(dirs[i]));
    }
  }

  /** The journal after copying one more file. */
  lemma FileJournaled(
      start: Tree, t: Tree, dirs: seq<Path>, files: seq<Path>, path: Path, content: int, next: Tree)
    requires path != [] && path !in start && !IsDir(t, path) && WellFormed(t)
    requires Journaled(start, t, dirs, files) && forall dir <- dirs :: IsDir(t, dir)
    requires next == t || Written(t, path, content) == Some(next)
    ensures Journaled(start, next, dirs, files + [path]) && WellFormed(next)
    ensures forall dir <- dirs :: IsDir(next, dir)
    ensures forall other <- t :: other != path ==> other in next && next[other] == t[other]
  {
  }

  lemma DirKeepsTrack(src: Tree, start: Tree, s: State, filename: Path, k: nat, residue: Residue)
    requires 0 < k < |filename| && filename[..k] !in s.tree && OnTrack(src, start, s, filename)
    ensures var r := DirTried(s, filename[..k], residue);
            && r.state.files == s.files
            && if r.ok then OnTrack(src, start, r.state, filename) else Undoable(start, r.state)
  {
    var r := DirTried(s, filename[..k], residue);
    DirJournaled(start, s.tree, s.dirs, s.files, filename[..k], r.state.tree);
    if r.ok {
      assert filename[..k] !in s.tree && filename[..k] in r.state.tree;
    }
  }

  lemma {:induction false} ParentsKeepTrack(
      src: Tree, start: Tree, s: State, filename: Path, k: nat, residue: Residue)
    requires 0 < k && OnTrack(src, start, s, filename)
    ensures var r := ParentsTried(s, filename, k, residue);
            && r.state.files == s.files
            && if r.ok then OnTrack(src, start, r.state, filename) else Undoable(start, r.state)
    decreases |filename| - k
  {
    hide OnTrack, Undoable, DirTried;
    if k < |filename| {
      if filename[..k] in s.tree {
        ParentsKeepTrack(src, start, s, filename, k + 1, residue);
      } else {
        var made := DirTried(s, filename[..k], residue);
        DirKeepsTrack(src, start, s, filename, k, residue);
        if made.ok {
          ParentsKeepTrack(src, start, made.state, filename, k + 1, residue);
        }
      }
    }
  }

  lemma FileKeepsTrack(src: Tree, start: Tree, s: State, filename: Path, residue: Residue)
    requires filename != [] && filename !in start && WellFormed(src) && OnTrack(src, start, s, filename)
    ensures var r := FileTried(src, s, filename, residue);
            if r.ok then OnTrack(src, start, r.state, []) else Undoable(start, r.state)
  {
    var r := FileTried(src, s, filename, residue);
    if IsDir(s.tree, filename) {
      assert filename in s.dirs;
      assert IsDir(src, filename);
      assert Journaled(start, r.state.tree, r.state.dirs, r.state.files);
    } else {
      var content := if r.ok then src[filename].content else if residue.Leaves? then residue.content else 0;
      FileJournaled(start, s.tree, s.dirs, s.files, filename, content, r.state.tree);
      if r.ok {
        forall dir <- s.dirs
          ensures IsDir(src, dir)
        {
          if |dir| < |filename| && dir == filename[..|dir|] {
            PrefixIsDir(src, filename, |dir|);
          }
        }
      }
    }
  }

  /** What was tried is a first part of what was asked for. */
  lemma {:induction false} FilesTried(src: Tree, s: State, filenames: seq<Path>, residue: Residue)
    requires Named(filenames)
    ensures var r := AllTried(src, s, filenames, residue);
            && s.files <= r.state.files <= s.files + filenames
            && (r.ok ==> r.state.files == s.files + filenames)
    decreases |filenames|
  {
    if filenames != [] {
      var one := OneTried(src, s, filenames[0], residue);
      OneIsNoted(src, s, filenames[0], residue);
      hide OneTried;
      if one.ok {
        FilesTried(src, one.state, filenames[1..], residue);
        assert s.files + filenames == one.state.files + filenames[1..];
      }
    }
  }

  lemma OneIsNoted(src: Tree, s: State, filename: Path, residue: Residue)
    requires filename != []
    ensures var one := OneTried(src, s, filename, residue);
            one.state.files == (if ParentsTried(s, filename, 1, residue).ok then s.files + [filename] else s.files)
            && (one.ok ==> one.state.files == s.files + [filename])
  {
    hide ParentsTried;
    ParentsTryNoFile(s, filename, 1, residue);
  }

  lemma {:induction false} ParentsTryNoFile(s: State, filename: Path, k: nat, residue: Residue)
    requires 0 < k
    ensures ParentsTried(s, filename, k, residue).state.files == s.files
    decreases |filename| - k
  {
    if k < |filename| {
      if filename[..k] in s.tree {
        ParentsTryNoFile(s, filename, k + 1, residue);
      } else if DirTried(s, filename[..k], residue).ok {
        ParentsTryNoFile(DirTried(s, filename[..k], residue).state, filename, k + 1, residue);
      }
    }
  }

  /** If no tried file was there before, the run is on track, and can be undone wherever it fails. */
  lemma {:induction false} AllKeepTrack(src: Tree, start: Tree, s: State, filenames: seq<Path>, residue: Residue)
    requires WellFormed(src) && Named(filenames) && OnTrack(src, start, s, [])
    requires forall file <- AllTried(src, s, filenames, residue).state.files :: file !in start
    ensures var r := AllTried(src, s, filenames, residue);
            if r.ok then OnTrack(src, start, r.state, []) else Undoable(start, r.state)
    decreases |filenames|
  {
    if filenames != [] {
      var filename, rest := filenames[0], filenames[1..];
      var parents := ParentsTried(s, filename, 1, residue);
      NewTrack(src, start, s, filename);
      ParentsKeepTrack(src, start, s, filename, 1, residue);
      if parents.ok {
        var one := FileTried(src, parents.state, filename, residue);
        hide ParentsTried, FileTried, OnTrack, Undoable;
        FileIsNoted(src, parents.state, filename, residue);
        if one.ok {
          FilesTried(src, one.state, rest, residue);
        }
        assert filename in one.state.files && filename in AllTried(src, s, filenames, residue).state.files;
        FileKeepsTrack(src, start, parents.state, filename, residue);
        if one.ok {
          AllKeepTrack(src, start, one.state, rest, residue);
        }
      }
    }
  }

  lemma FileIsNoted(src: Tree, s: State, filename: Path, residue: Residue)
    requires filename != []
    ensures FileTried(src, s, filename, residue).state.files == s.files + [filename]
  {
  }

  lemma NewTrack(src: Tree, start: Tree, s: State, filename: Path)
    requires OnTrack(src, start, s, [])
    ensures OnTrack(src, start, s, filename)
  {
  }

  // ---------------------------------------------------------------- when a failure restores the tree

  /** The tree holds the files as in the source, the directories made for them, and what was there. */
  predicate OnlyAdded(src: Tree, start: Tree, t: Tree, dirs: seq<Path>, files: seq<Path>) {
    && Journaled(start, t, dirs, files)
    && forall file <- files :: file in src && file in t && t[file] == src[file]
  }

  lemma StartIsOnTrack(src: Tree, start: Tree, patience: nat)
    requires WellFormed(start)
    ensures OnTrack(src, start, State(start, [], [], patience), [])
  {
  }

  lemma SuccessAdds(src: Tree, start: Tree, filenames: seq<Path>, patience: nat, residue: Residue)
    requires WellFormed(src) && WellFormed(start) && Named(filenames)
    requires forall filename <- filenames :: filename !in start
    requires AllTried(src, State(start, [], [], patience), filenames, residue).ok
    ensures var s := AllTried(src, State(start, [], [], patience), filenames, residue).state;
            OnlyAdded(src, start, s.tree, s.dirs, filenames)
  {
    var first := State(start, [], [], patience);
    StartIsOnTrack(src, start, patience);
    FilesTried(src, first, filenames, residue);
    assert [] + filenames == filenames;
    AllKeepTrack(src, start, first, filenames, residue);
  }

  /** Wherever a run fails. */
  lemma FailureRestoresIff(src: Tree, start: Tree, filenames: seq<Path>, patience: nat, residue: Residue)
    requires WellFormed(src) && WellFormed(start) && Named(filenames)
    requires !AllTried(src, State(start, [], [], patience), filenames, residue).ok
    ensures var s := AllTried(src, State(start, [], [], patience), filenames, residue).state;
            && ((forall file <- s.files :: file !in start) ==> Undone(s) == start)
            && ((exists file <- s.files :: IsFile(start, file)) ==> Undone(s) != start)
            && ((forall filename <- filenames :: !IsDir(start, filename)) ==>
                  (Undone(s) == start <==> forall file <- s.files :: file !in start))
  {
    hide AllTried, WellFormed, Undone, IsDir, IsFile;
    var first := State(start, [], [], patience);
    var s := AllTried(src, first, filenames, residue).state;
    FilesTried(src, first, filenames, residue);
    assert [] + filenames == filenames;
    if forall file <- s.files :: file !in start {
      NewFilesUndone(src, start, filenames, patience, residue);
    }
    forall file <- s.files | IsFile(start, file)
      ensures Undone(s) != start
    {
      OldFileLost(start, s, file);
    }
    forall file <- s.files | file in start && !IsDir(start, file)
      ensures Undone(s) != start
    {
      assert IsFile(start, file) by { DirOrFile(start, file); }
    }
  }

  lemma DirOrFile(t: Tree, path: Path)
    requires path in t && !IsDir(t, path)
    ensures IsFile(t, path)
  {
  }

  lemma OldFileLost(start: Tree, s: State, file: Path)
    requires file in s.files && IsFile(start, file)
    ensures Undone(s) != start
  {
    UndoLosesOldFiles(start, s.tree, s.dirs, s.files, file);
  }

  lemma NewFilesUndone(src: Tree, start: Tree, filenames: seq<Path>, patience: nat, residue: Residue)
    requires WellFormed(src) && WellFormed(start) && Named(filenames)
    requires !AllTried(src, State(start, [], [], patience), filenames, residue).ok
    requires forall file <- AllTried(src, State(start, [], [], patience), filenames, residue).state.files ::
               file !in start
    ensures Undone(AllTried(src, State(start, [], [], patience), filenames, residue).state) == start
  {
    hide AllTried, OnTrack, WellFormed;
    var first := State(start, [], [], patience);
    StartIsOnTrack(src, start, patience);
    AllKeepTrack(src, start, first, filenames, residue);
    var s := AllTried(src, first, filenames, residue).state;
    UndoRestores(start, s.tree, s.dirs, s.files);
  }

  // ---------------------------------------------------------------- all the points of failure

  /** The same state, so many commands nearer to the interruption. */
  function Sooner(s: State, d: nat): State
    requires d <= s.patience
  {
    s.(patience := s.patience - d)
  }

  lemma {:induction false} ParentsSooner(s: State, filename: Path, k: nat, residue: Residue, d: nat)
    requires 0 < k && ParentsTried(s, filename, k, residue).ok
    ensures ParentsTried(s, filename, k, residue).state.patience <= s.patience
    ensures d <= ParentsTried(s, filename, k, residue).state.patience ==>
              ParentsTried(Sooner(s, d), filename, k, residue) ==
              Tried(Sooner(ParentsTried(s, filename, k, residue).state, d), true)
    decreases |filename| - k
  {
    if k < |filename| {
      var next := if filename[..k] in s.tree then s else DirTried(s, filename[..k], residue).state;
      ParentsSooner(next, filename, k + 1, residue, d);
    }
  }

  lemma OneSooner(src: Tree, s: State, filename: Path, residue: Residue, d: nat)
    requires filename != [] && OneTried(src, s, filename, residue).ok
    ensures OneTried(src, s, filename, residue).state.patience <= s.patience
    ensures d <= OneTried(src, s, filename, residue).state.patience ==>
              OneTried(src, Sooner(s, d), filename, residue) ==
              Tried(Sooner(OneTried(src, s, filename, residue).state, d), true)
  {
    ParentsSooner(s, filename, 1, residue, d);
  }

  /** A run that is to be interrupted sooner goes the same way until then. */
  lemma {:induction false} AllSooner(src: Tree, s: State, filenames: seq<Path>, residue: Residue, d: nat)
    requires Named(filenames) && AllTried(src, s, filenames, residue).ok
    ensures AllTried(src, s, filenames, residue).state.patience <= s.patience
    ensures d <= AllTried(src, s, filenames, residue).state.patience ==>
              AllTried(src, Sooner(s, d), filenames, residue) ==
              Tried(Sooner(AllTried(src, s, filenames, residue).state, d), true)
    decreases |filenames|
  {
    hide OneTried;
    if filenames != [] {
      OneSooner(src, s, filenames[0], residue, d);
      AllSooner(src, OneTried(src, s, filenames[0], residue).state, filenames[1..], residue, d);
    }
  }

  lemma {:induction false} LastTried(src: Tree, s: State, most: seq<Path>, last: Path, residue: Residue)
    requires Named(most) && last != []
    ensures Named(most + [last])
    ensures var before := AllTried(src, s, most, residue);
            AllTried(src, s, most + [last], residue)
            == if before.ok then OneTried(src, before.state, last, residue) else before
    decreases |most|
  {
    hide OneTried;
    if most == [] {
      assert most + [last] == [last] && [last][1..] == [];
    } else {
      assert (most + [last])[1..] == most[1..] + [last];
      var one := OneTried(src, s, most[0], residue);
      if one.ok {
        LastTried(src, one.state, most[1..], last, residue);
      }
    }
  }

  /** A run that would succeed can be interrupted at its last copy. */
  lemma LastCopyCanFail(src: Tree, start: Tree, filenames: seq<Path>, patience: nat, residue: Residue)
      returns (sooner: nat)
    requires Named(filenames) && filenames != []
    requires AllTried(src, State(start, [], [], patience), filenames, residue).ok
    ensures var r := AllTried(src, State(start, [], [], sooner), filenames, residue);
            !r.ok && r.state.files == filenames
  {
    var first := State(start, [], [], patience);
    var most, last := filenames[..|filenames| - 1], filenames[|filenames| - 1];
    assert filenames == most + [last];
    LastTried(src, first, most, last, residue);
    sooner := CutShort(src, first, most, last, residue);
    LastTried(src, State(start, [], [], sooner), most, last, residue);
  }

  lemma CutShort(src: Tree, first: State, most: seq<Path>, last: Path, residue: Residue) returns (sooner: nat)
    requires Named(most) && last != [] && first.files == [] && AllTried(src, first, most, residue).ok
    requires OneTried(src, AllTried(src, first, most, residue).state, last, residue).ok
    ensures var before := AllTried(src, first.(patience := sooner), most, residue);
            && before.ok
            && !OneTried(src, before.state, last, residue).ok
            && OneTried(src, before.state, last, residue).state.files == most + [last]
  {
    var before := AllTried(src, first, most, residue).state;
    var parents := ParentsTried(before, last, 1, residue).state;
    var d := parents.patience;
    ParentsSooner(before, last, 1, residue, d);
    AllSooner(src, first, most, residue, d);
    FilesTried(src, first, most, residue);
    ParentsTryNoFile(before, last, 1, residue);
    assert [] + most == most;
    sooner := first.patience - d;
    assert first.(patience := sooner) == Sooner(first, d);
  }

  /** If the copy would succeed when left alone, then it restores the tree at every point of failure
      exactly when none of the files is there before. */
  lemma RestoresAlwaysIff(src: Tree, start: Tree, filenames: seq<Path>, patience: nat, residue: Residue)
    requires WellFormed(src) && WellFormed(start) && Named(filenames)
    requires AllTried(src, State(start, [], [], patience), filenames, residue).ok
    requires forall filename <- filenames :: !IsDir(start, filename)
    ensures (forall sooner: nat ::
               var r := AllTried(src, State(start, [], [], sooner), filenames, residue);
               r.ok || Undone(r.state) == start)
       <==> forall filename <- filenames :: filename !in start
  {
    forall sooner: nat | !AllTried(src, State(start, [], [], sooner), filenames, residue).ok
      ensures var s := AllTried(src, State(start, [], [], sooner), filenames, residue).state;
              (forall filename <- filenames :: filename !in start) ==> Undone(s) == start
    {
      FailureRestoresIff(src, start, filenames, sooner, residue);
      FilesTried(src, State(start, [], [], sooner), filenames, residue);
      assert [] + filenames == filenames;
    }
    if filenames != [] {
      var sooner := LastCopyCanFail(src, start, filenames, patience, residue);
      FailureRestoresIff(src, start, filenames, sooner, residue);
    }
  }
}
