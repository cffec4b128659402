/** Copying files and directory trees over an abstract file system in which any operation may fail.
    Paths are cleaned component lists; permissions and links are not part of the model. */
module FileCopy {
  import opened Common

  type Path = seq<string>
  type Content = seq<bv8>

  datatype Entry = File(content: Content) | Dir

  type Files = map<Path, Entry>

  function Parent(p: Path): Path {
    if p == [] then [] else p[..|p| - 1]
  }

  function At(files: Files, p: Path): Option<Entry> {
    if p in files then Some(files[p]) else None
  }

  /** The root is a directory and every other entry lies in a directory. */
  predicate WellFormed(files: Files) {
    && At(files, []) == Some(Dir)
    && forall p {:trigger InDir(files, p)} :: p in files ==> InDir(files, p)
  }

  predicate InDir(files: Files, p: Path) {
    At(files, Parent(p)) == Some(Dir)
  }

  lemma {:induction false} PrefixIsDir(files: Files, p: Path, q: Path)
    requires WellFormed(files) && p in files && q <= p && q != p
    ensures At(files, q) == Some(Dir)
    decreases |p|
  {
    assert InDir(files, p);
    if q == Parent(p) {
    } else {
      PrefixIsDir(files, Parent(p), q);
    }
  }

  // ------------------------------------------------------------------ what a copy should leave behind

  /** The entry at a path whose old entry is `was` after `copied` was copied onto it: a directory copied onto a
      file leaves the file. */
  function Merge(was: Option<Entry>, copied: Entry): Option<Entry> {
    if copied == Dir && was.Some? && was.value.File? then was else Some(copied)
  }

  /** The source path that is copied to p, for p at or below dst. */
  function Origin(src: Path, dst: Path, p: Path): Path
    requires dst <= p
  {
    src + p[|dst|..]
  }

  /** Is p the copy of something in the source tree, restricted to the children in `done`? */
  predicate IsTarget(before: Files, src: Path, dst: Path, done: set<string>, p: Path) {
    dst <= p && Origin(src, dst, p) in before && (p == dst || p[|dst|] in done)
  }

  /** The entry at p once dst exists and the children in `done` have been copied. */
  function Want(before: Files, src: Path, dst: Path, done: set<string>, p: Path): Option<Entry> {
    if IsTarget(before, src, dst, done, p) then Merge(At(before, p), before[Origin(src, dst, p)])
    else if p < dst && p !in before then Some(Dir)
    else At(before, p)
  }

  function Names(files: Files, dir: Path): (names: set<string>)
    ensures forall n :: n in names <==> dir + [n] in files
  {
    set p | p in files && dir < p && |p| == |dir| + 1 && dir + [p[|dir|]] == p :: p[|dir|]
  }

  function Under(files: Files, src: Path): set<Path> {
    set p | p in files && src <= p
  }

  function FilesUnder(files: Files, src: Path): set<Path> {
    set p | p in files && src <= p && files[p].File?
  }

  /** The regular files of the children in `done`. */
  function FilesBelow(files: Files, src: Path, done: set<string>): set<Path> {
    set p | p in files && src < p && files[p].File? && p[|src|] in done
  }

  // ------------------------------------------------------------------ when a copy is possible

  predicate IsFile(files: Files, p: Path) {
    p in files && files[p].File?
  }

  /** A directory can be made at path, or is there. */
  ghost predicate CanMake(files: Files, path: Path) {
    forall q :: q <= path ==> !IsFile(files, q)
  }

  predicate CanCopyFile(files: Files, src: Path, dst: Path) {
    IsFile(files, src) && At(files, Parent(dst)) == Some(Dir) && At(files, dst) != Some(Dir)
  }

  /** The entry q of the source tree finds a place: its copy does not lie in a file, and is no directory if q is
      a file. */
  predicate CanPlace(files: Files, src: Path, dst: Path, q: Path)
    requires q in files && src <= q
  {
    var target := dst + q[|src|..];
    !IsFile(files, Parent(target)) && (files[q].File? ==> At(files, target) != Some(Dir))
  }

  /** The entry p of the source tree is copied out of the source tree, or into a part of it that is not read, or not
      at all, or onto something that it does not change. */
  predicate Harmless(files: Files, src: Path, dst: Path, p: Path)
    requires p in files && src <= p
  {
    var target := dst + p[|src|..];
    src <= target && (p == src || target == src || target[|src|] in Names(files, src)) && CanPlace(files, src, dst, p)
    ==> At(files, target) == Merge(At(files, target), files[p])
  }

  /** The copy does not change what it is still going to read. */
  predicate NoFeedback(files: Files, src: Path, dst: Path) {
    forall p <- files :: src <= p ==> Harmless(files, src, dst, p)
  }

  predicate CanCopyBelow(files: Files, src: Path, dst: Path, done: set<string>) {
    forall q <- files :: src < q && q[|src|] in done ==> CanPlace(files, src, dst, q)
  }

  /** The children in `done` can be copied, and that does not change what is still to be read. */
  ghost predicate Stable(files: Files, src: Path, dst: Path, done: set<string>) {
    && WellFormed(files) && At(files, src) == Some(Dir) && NoFeedback(files, src, dst)
    && !IsFile(files, Parent(dst)) && CanCopyBelow(files, src, dst, done)
  }

  ghost predicate CanCopy(files: Files, src: Path, dst: Path) {
    && src in files
    && (forall q :: q < dst ==> !IsFile(files, q))
    && if src != [] && files[src].File? then !IsFile(files, dst) && At(files, dst + [src[|src| - 1]]) != Some(Dir)
       else CanCopyBelow(files, src, dst, Names(files, src))
  }

  // ------------------------------------------------------------------ the file system

  class FileSystem {
    var files: Files
    /** No operation fails without a reason in the file system. */
    const reliable: bool
    /** Every state the file system has been in. */
    ghost var history: seq<Files>

    predicate Valid()
      reads this
    {
      WellFormed(files)
    }

    constructor (files: Files, reliable: bool)
      requires WellFormed(files)
      ensures Valid() && this.files == files && history == [files] && this.reliable == reliable
    {
      this.files, this.reliable, history := files, reliable, [files];
    }

    /** Does an operation fail of its own accord? */
    method Fault() returns (fault: bool)
      ensures reliable ==> !fault
    {
      fault := *;
      if reliable {
        fault := false;
      }
    }

    /** A name next to dst that is not taken. */
    method TempName(dst: Path) returns (tmp: Path)
      requires Valid()
      ensures tmp !in files && tmp != dst && tmp != [] && Parent(tmp) == Parent(dst)
    {
      var name: string := *;
      ghost var all, seen: set<Path> := files.Keys + {dst}, {};
      while Parent(dst) + [name] in files || Parent(dst) + [name] == dst
        invariant seen <= all
        invariant forall p <- seen :: p != [] && |p[|p| - 1]| < |name|
        decreases |all| - |seen|
      {
        seen := seen + {Parent(dst) + [name]};
        SubsetCardinality(seen, all);
        name := name + "0";
      }
      tmp := Parent(dst) + [name];
    }

    method Change(next: Files)
      modifies this
      ensures files == next && history == old(history) + [next]
    {
      files, history := next, history + [next];
    }

    /** CopyFileWithPerms: the content goes to a temporary file next to dst, which is then renamed to dst.  Each
        step may fail, and so may the removal of the temporary file.  In every state on the way nothing is changed
        but that there is a temporary file, or that dst has the whole new content; so dst always holds its old entry
        or, if the copy succeeds, the new one. */
    method CopyFileWithPerms(src: Path, dst: Path) returns (ok: bool, leftover: Option<Path>)
      requires Valid()
      modifies this
      ensures Valid()
      ensures ok ==> leftover == None && IsFile(old(files), src)
      ensures ok ==> files == old(files)[dst := old(files)[src]]
      ensures ok ==> At(old(files), Parent(dst)) == Some(Dir) && At(old(files), dst) != Some(Dir)
      ensures !ok && leftover.None? ==> files == old(files)
      ensures !ok && leftover.Some? ==>
        leftover.value !in old(files) && leftover.value != [] && Parent(leftover.value) == Parent(dst)
        && files.Keys == old(files).Keys + {leftover.value} && forall p <- old(files) :: files[p] == old(files)[p]
      ensures reliable ==> leftover == None && (ok <==> CanCopyFile(old(files), src, dst))
      ensures old(history) <= history
      ensures FileStates(history[|old(history)|..], old(files), dst, if ok then At(old(files), src) else None)
      ensures Atomic(history[|old(history)|..], dst, At(old(files), dst), if ok then At(old(files), src) else None)
    {
      ok, leftover := false, None;
      var fault := Fault();
      if src !in files || fault {
        return;                                    // open
      }
      fault := Fault();
      if At(files, Parent(dst)) != Some(Dir) || fault {
        return;                                    // no temporary file
      }
      ghost var before := files;
      var source := files[src];
      var tmp := TempName(dst);
      Change(files[tmp := File([])]);
      PutKeepsWellFormed(before, tmp, File([]));
      TemporaryState(before, dst, tmp, []);
      ghost var made := history;
      ok := FillAndRename(source, tmp, dst, before);
      ghost var renewed := if ok then Some(source) else None;
      MoreStates(old(history), made, history, before, dst, None, renewed);
      if !ok {
        ghost var filled := history;
        leftover := Cleanup(tmp);
        assert before[tmp := File([])] - {tmp} == before;
        MoreStates(old(history), filled, history, before, dst, None, None);
      }
      StatesAreAtomic(history[|old(history)|..], before, dst, renewed);
    }

    /** The part of CopyFileWithPerms after the temporary file has been created; `before` is the state before. */
    method FillAndRename(source: Entry, tmp: Path, dst: Path, ghost before: Files) returns (ok: bool)
      requires Valid() && WellFormed(before) && At(before, Parent(dst)) == Some(Dir)
      requires IsTemporary(before, dst, tmp)
      requires files == before[tmp := File([])]
      modifies this
      ensures Valid()
      ensures ok ==> source.File? && At(before, dst) != Some(Dir) && files == before[dst := source]
      ensures !ok ==> IsFile(files, tmp) && files == before[tmp := files[tmp]]
      ensures reliable ==> (ok <==> source.File? && At(before, dst) != Some(Dir))
      ensures old(history) <= history
      ensures FileStates(history[|old(history)|..], before, dst, if ok then Some(source) else None)
    {
      ok := false;
      var partial: Content := *;
      var fault := Fault();
      if source == Dir || fault {                  // copy, possibly after some content was written
        Change(files[tmp := File(partial)]);
        assert files == before[tmp := File(partial)];
        PutKeepsWellFormed(before, tmp, File(partial));
        return;
      }
      Change(files[tmp := source]);
      assert files == before[tmp := source];
      PutKeepsWellFormed(before, tmp, source);
      fault := Fault();
      if fault {                                   // close, or change of permissions
        return;
      }
      fault := Fault();
      if At(files, dst) == Some(Dir) || fault {    // rename
        return;
      }
      Change((files - {tmp})[dst := source]);
      assert before[tmp := source] - {tmp} == before;
      PutKeepsWellFormed(before, dst, source);
      ok := true;
    }

    method Cleanup(tmp: Path) returns (leftover: Option<Path>)
      requires Valid() && tmp in files && tmp != [] && files[tmp].File?
      modifies this
      ensures Valid()
      ensures leftover == None ==> files == old(files) - {tmp} && history == old(history) + [files]
      ensures leftover != None ==> leftover == Some(tmp) && files == old(files) && history == old(history)
      ensures reliable ==> leftover == None
    {
      var fault := Fault();
      if fault {
        return Some(tmp);
      }
      RemoveKeepsWellFormed(files, tmp);
      Change(files - {tmp});
      leftover := None;
    }

    method MkdirAll(path: Path) returns (ok: bool)
      requires Valid()
      modifies this
      ensures Valid()
      ensures ok ==> CanMake(old(files), path) && At(files, path) == Some(Dir)
      ensures forall p ::
        At(files, p) == At(old(files), p) || (p <= path && p !in old(files) && At(files, p) == Some(Dir))
      ensures ok ==> forall p :: p <= path && p !in old(files) ==> At(files, p) == Some(Dir)
      ensures old(history) <= history
      ensures forall s <- history[|old(history)|..] :: DirsAdded(s, old(files), path)
      ensures reliable ==> (ok <==> CanMake(old(files), path))
      decreases |path|
    {
      if path in files {
        forall p | p <= path && p != path ensures p in files {
          PrefixIsDir(files, path, p);
        }
        CanMakeExisting(files, path);
        return files[path] == Dir;
      }
      ok := MkdirAll(Parent(path));
      DirsAddedBelow(history[|old(history)|..] + [files], old(files), path);
      CanMakeParent(old(files), path);
      var fault := Fault();
      if !ok || fault {
        return false;
      }
      PutKeepsWellFormed(files, path, Dir);
      Change(files[path := Dir]);
      forall p | p <= path && p !in old(files) ensures At(files, p) == Some(Dir) {
        if p != path {
          assert p <= Parent(path);
        }
      }
    }

    /** copyAll.  On success exactly the copies of the source tree and the missing parents of dst are new, and
        count is the number of regular files of the source tree.  On failure every path has its old entry or the
        one it would have had on success, apart from at most one temporary file below dst; and so it is in every
        state on the way. */
    method CopyAll(src: Path, dst: Path) returns (ok: bool, count: nat, leftover: Option<Path>)
      requires Valid()
      requires At(files, src) == Some(Dir) ==> NoFeedback(files, src, dst)
      modifies this
      ensures Valid()
      ensures ok ==> src in old(files) && leftover == None && count == |FilesUnder(old(files), src)|
      ensures ok ==> CanCopy(old(files), src, dst) && Copied(files, old(files), src, dst)
      ensures !ok ==> PartlyCopied(files, old(files), src, dst, leftover)
      ensures old(history) <= history && Along(history[|old(history)|..], old(files), src, dst)
      ensures reliable ==> leftover == None && (ok <==> CanCopy(old(files), src, dst))
      decreases Under(files, src), 2
    {
      ghost var before := files;
      ok, count, leftover := false, 0, None;
      if src !in files {
        return;
      }
      var source := files[src];                    // stat
      ok := true;
      if dst !in files {
        ok := MkdirAll(dst);
        DirsAreOnTheWay(history[|old(history)|..], before, src, dst);
      }
      ghost var made := history;
      if !ok {
        CanMakeMissing(before, dst);
        MkdirPart(files, before, src, dst);
        return;
      }
      MkdirDone(files, before, src, dst);
      NoFileAbove(files, before, dst);
      if source.File? {
        assert At(files, src) == At(before, src);
        count := 1;
        ghost var now := files;
        ok, leftover := CopyFileWithPerms(src, dst + [src[|src| - 1]]);
        SingleFile(before, src);
        FileStep(files, now, before, src, dst, ok, leftover);
        FileStatesOnTheWay(history[|made|..], now, before, src, dst);
        AlongBoth(old(history), made, history, before, src, dst);
        return;
      }
      ok, count, leftover := CopyEntries(src, dst, before);
      AlongBoth(old(history), made, history, before, src, dst);
    }

    /** The part of copyAll that reads a directory and copies its entries, in any order. */
    method CopyEntries(src: Path, dst: Path, ghost before: Files) returns (ok: bool, count: nat, leftover: Option<Path>)
      requires Valid() && Stable(before, src, dst, {}) && Matches(files, before, src, dst, {}) && dst in files
      modifies this
      ensures Valid()
      ensures ok ==> leftover == None && count == |FilesUnder(before, src)|
      ensures ok ==> CanCopyBelow(before, src, dst, Names(before, src))
      ensures ok ==> Matches(files, before, src, dst, Names(before, src))
      ensures !ok ==> PartlyCopied(files, before, src, dst, leftover)
      ensures old(history) <= history && Along(history[|old(history)|..], before, src, dst)
      ensures reliable ==> leftover == None && (ok <==> CanCopyBelow(before, src, dst, Names(before, src)))
      decreases Under(before, src), 1
    {
      ok, count, leftover := true, 0, None;
      var fault := Fault();
      if fault {                                   // reading the directory
        Undone(files, before, src, dst, {});
        return false, 0, None;
      }
      assert Names(files, src) == Names(before, src) by {
        SourceAtStart(before, files, src, dst);
      }
      var todo := Names(files, src);
      ghost var done: set<string> := {};
      assert FilesBelow(before, src, done) == {};
      while todo != {}
        invariant Valid() && ok && leftover == None
        invariant Copying(files, before, src, dst, done, todo, count)
        invariant old(history) <= history && Along(history[|old(history)|..], before, src, dst)
        decreases todo
      {
        var name :| name in todo;
        var fileCount;
        ghost var now, past := files, history;
        ok, fileCount, leftover := CopyEntry(src, dst, name, before, done);
        AlongBoth(old(history), past, history, before, src, dst);
        if !ok {
          BelowSplit(before, src, dst, done, name, Names(before, src));
          return;
        }
        EntryCopied(now, files, before, src, dst, done, todo, count, fileCount, name);
        count := count + fileCount;
        todo := todo - {name};
        done := done + {name};
      }
      assert done == Names(before, src);
      AllFilesAreBelow(before, src);
    }

    /** One turn of the loop over the directory entries. */
    method CopyEntry(src: Path, dst: Path, name: string, ghost before: Files, ghost done: set<string>)
      returns (ok: bool, count: nat, leftover: Option<Path>)
      requires Valid() && Stable(before, src, dst, done) && Matches(files, before, src, dst, done) && dst in files
      requires name !in done && done + {name} <= Names(before, src)
      modifies this
      ensures Valid()
      ensures ok ==> CanCopyBelow(before, src, dst, {name})
      ensures ok ==> leftover == None && Matches(files, before, src, dst, done + {name}) && dst in files
      ensures ok ==> |FilesBelow(before, src, done + {name})| == |FilesBelow(before, src, done)| + count
      ensures !ok ==> PartlyCopied(files, before, src, dst, leftover)
      ensures old(history) <= history && Along(history[|old(history)|..], before, src, dst)
      ensures reliable ==> leftover == None && (ok <==> CanCopyBelow(before, src, dst, {name}))
      decreases Under(before, src), 0
    {
      ghost var now := files;
      ChildUntouched(before, now, src, dst, done, name);
      ChildIsSmaller(now, before, src, dst, name);
      CountChild(now, before, src, done, name);
      ChildCan(now, before, src, dst, done, name);
      if files[src + [name]] == Dir {
        ok, count, leftover := CopyAll(src + [name], dst + [name]);
        ChildStep(files, now, before, src, dst, done, name, ok, leftover);
        ChildStatesOnTheWay(history[|old(history)|..], now, before, src, dst, done, name);
      } else {
        ok, leftover := CopyFileWithPerms(src + [name], dst + [name]);
        ChildFileStep(files, now, before, src, dst, done, name, ok, leftover);
        ChildFileStatesOnTheWay(history[|old(history)|..], now, before, src, dst, done, name);
        count := 1;
      }
      if ok {
        assert At(files, dst) == Want(before, src, dst, done + {name}, dst);
        assert Origin(src, dst, dst) == src;
      }
    }
  }

  predicate IsTemporary(before: Files, dst: Path, tmp: Path) {
    tmp !in before && tmp != [] && tmp != dst && Parent(tmp) == Parent(dst)
  }

  /** A state of replacing dst: nothing has changed, or there is a temporary file, or dst has its new entry. */
  ghost predicate FileState(s: Files, before: Files, dst: Path, renewed: Option<Entry>) {
    || s == before
    || (renewed.Some? && s == before[dst := renewed.value])
    || exists tmp, c :: IsTemporary(before, dst, tmp) && s == before[tmp := File(c)]
  }

  ghost predicate FileStates(states: seq<Files>, before: Files, dst: Path, renewed: Option<Entry>) {
    forall s <- states :: FileState(s, before, dst, renewed)
  }

  lemma TemporaryState(before: Files, dst: Path, tmp: Path, content: Content)
    requires IsTemporary(before, dst, tmp)
    ensures FileState(before[tmp := File(content)], before, dst, None)
  {
  }

  lemma MoreStates(h: seq<Files>, i: seq<Files>, j: seq<Files>, before: Files, dst: Path, first: Option<Entry>,
                   renewed: Option<Entry>)
    requires h <= i <= j && (first.Some? ==> first == renewed)
    requires FileStates(i[|h|..], before, dst, first) && FileStates(j[|i|..], before, dst, renewed)
    ensures FileStates(j[|h|..], before, dst, renewed)
  {
    assert j[|h|..] == i[|h|..] + j[|i|..];
    forall s | s in j[|h|..] ensures FileState(s, before, dst, renewed) {
      assert s in i[|h|..] ==> FileState(s, before, dst, first);
    }
  }

  lemma StatesAreAtomic(states: seq<Files>, before: Files, dst: Path, renewed: Option<Entry>)
    requires FileStates(states, before, dst, renewed)
    ensures Atomic(states, dst, At(before, dst), renewed)
  {
    forall s | s in states ensures At(s, dst) == At(before, dst) || (renewed.Some? && At(s, dst) == renewed) {
      assert FileState(s, before, dst, renewed);
    }
  }

  /** Nothing has changed but that directories on the path have been made. */
  ghost predicate DirsAdded(files: Files, before: Files, path: Path) {
    forall p :: At(files, p) == At(before, p) || (p <= path && p !in before && At(files, p) == Some(Dir))
  }

  lemma DirsAddedBelow(states: seq<Files>, before: Files, path: Path)
    requires path != [] && path !in before && forall s <- states :: DirsAdded(s, before, Parent(path))
    ensures forall s <- states :: DirsAdded(s, before, path) && DirsAdded(s[path := Dir], before, path)
  {
    forall s | s in states ensures DirsAdded(s, before, path) && DirsAdded(s[path := Dir], before, path) {
      assert DirsAdded(s, before, Parent(path));
    }
  }

  /** A state of copying a tree: every path has its old entry or its goal, apart from one temporary file. */
  ghost predicate OnTheWay(s: Files, before: Files, src: Path, dst: Path) {
    exists temporary :: PartlyCopied(s, before, src, dst, temporary)
  }

  ghost predicate Along(states: seq<Files>, before: Files, src: Path, dst: Path) {
    forall s <- states :: OnTheWay(s, before, src, dst)
  }

  lemma AlongBoth(h: seq<Files>, i: seq<Files>, j: seq<Files>, before: Files, src: Path, dst: Path)
    requires h <= i <= j && Along(i[|h|..], before, src, dst) && Along(j[|i|..], before, src, dst)
    ensures Along(j[|h|..], before, src, dst)
  {
    assert j[|h|..] == i[|h|..] + j[|i|..];
  }

  /** In every state dst holds what it was, or the new entry if there is one. */
  ghost predicate Atomic(states: seq<Files>, dst: Path, was: Option<Entry>, renewed: Option<Entry>) {
    forall s <- states :: At(s, dst) == was || (renewed.Some? && At(s, dst) == renewed)
  }

  /** The state of the loop over the directory entries: those in `done` are copied, `count` files in all. */
  ghost predicate Copying(files: Files, before: Files, src: Path, dst: Path, done: set<string>, todo: set<string>,
                          count: nat)
  {
    && Stable(before, src, dst, done)
    && done !! todo && done + todo == Names(before, src)
    && Matches(files, before, src, dst, done) && dst in files
    && count == |FilesBelow(before, src, done)|
  }

  lemma EntryCopied(now: Files, files: Files, before: Files, src: Path, dst: Path, done: set<string>,
                    todo: set<string>, count: nat, more: nat, name: string)
    requires Copying(now, before, src, dst, done, todo, count) && name in todo
    requires Matches(files, before, src, dst, done + {name}) && dst in files
    requires |FilesBelow(before, src, done + {name})| == |FilesBelow(before, src, done)| + more
    requires CanCopyBelow(before, src, dst, {name})
    ensures Copying(files, before, src, dst, done + {name}, todo - {name}, count + more)
  {
    assert done + {name} + (todo - {name}) == done + todo;
    BelowSplit(before, src, dst, done, name, Names(before, src));
  }

  ghost predicate Matches(files: Files, before: Files, src: Path, dst: Path, done: set<string>) {
    forall p :: At(files, p) == Want(before, src, dst, done, p)
  }

  /** The result of a successful copy. */
  ghost predicate Copied(files: Files, before: Files, src: Path, dst: Path) {
    forall p :: At(files, p) == Goal(before, src, dst, p)
  }

  function Goal(before: Files, src: Path, dst: Path, p: Path): Option<Entry> {
    match At(before, src)
    case None => At(before, p)
    case Some(File(content)) =>
      if src != [] && p == dst + [src[|src| - 1]] then Some(File(content))
      else if p <= dst && p !in before then Some(Dir)
      else At(before, p)
    case Some(Dir) => Want(before, src, dst, Names(before, src), p)
  }

  /** The result of a failed copy. */
  ghost predicate PartlyCopied(files: Files, before: Files, src: Path, dst: Path, leftover: Option<Path>) {
    && (forall p :: Some(p) != leftover ==> At(files, p) == At(before, p) || At(files, p) == Goal(before, src, dst, p))
    && (leftover.Some? ==> leftover.value !in before && dst < leftover.value)
  }

  // ------------------------------------------------------------------ creating the destination

  lemma MkdirPart(files: Files, before: Files, src: Path, dst: Path)
    requires WellFormed(before) && src in before && dst !in before
    requires forall p :: At(files, p) == At(before, p) || (p <= dst && p !in before && At(files, p) == Some(Dir))
    ensures PartlyCopied(files, before, src, dst, None)
  {
    forall p ensures At(files, p) == At(before, p) || At(files, p) == Goal(before, src, dst, p) {
      if At(files, p) != At(before, p) {
        assert p <= dst && p !in before;
        if p == dst && before[src] == Dir {
          assert Origin(src, dst, dst) == src;
        }
      }
    }
  }

  lemma DirsAreOnTheWay(states: seq<Files>, before: Files, src: Path, dst: Path)
    requires WellFormed(before) && src in before && dst !in before
    requires forall s <- states :: DirsAdded(s, before, dst)
    ensures Along(states, before, src, dst)
  {
    forall s | s in states ensures OnTheWay(s, before, src, dst) {
      MkdirPart(s, before, src, dst);
    }
  }

  lemma MkdirDone(files: Files, before: Files, src: Path, dst: Path)
    requires WellFormed(before) && src in before
    requires if dst in before then files == before else
      && (forall p :: At(files, p) == At(before, p) || (p <= dst && p !in before && At(files, p) == Some(Dir)))
      && (forall p :: p <= dst && p !in before ==> At(files, p) == Some(Dir))
    ensures forall p :: At(files, p) == if p <= dst && p !in before then Some(Dir) else At(before, p)
    ensures before[src] == Dir ==> Matches(files, before, src, dst, {})
  {
    forall p ensures At(files, p) == if p <= dst && p !in before then Some(Dir) else At(before, p) {
      if dst in before && p <= dst && p != dst {
        PrefixIsDir(before, dst, p);
      }
    }
    if before[src] == Dir {
      forall p ensures At(files, p) == Want(before, src, dst, {}, p) {
        if p == dst {
          assert Origin(src, dst, dst) == src;
        }
      }
    }
  }

  lemma CanMakeExisting(files: Files, path: Path)
    requires WellFormed(files) && path in files
    ensures CanMake(files, path) <==> files[path] == Dir
  {
    forall q | q <= path && q != path ensures !IsFile(files, q) {
      PrefixIsDir(files, path, q);
    }
    if CanMake(files, path) {
      assert !IsFile(files, path);
    }
  }

  lemma CanMakeParent(files: Files, path: Path)
    requires WellFormed(files) && path !in files
    ensures CanMake(files, path) <==> CanMake(files, Parent(path))
  {
    forall q | q <= path && q != path && CanMake(files, Parent(path)) ensures !IsFile(files, q) {
      assert q <= Parent(path);
    }
  }

  lemma CanMakeMissing(files: Files, path: Path)
    requires path !in files
    ensures CanMake(files, path) <==> forall q :: q < path ==> !IsFile(files, q)
  {
    forall q | q <= path && (forall r :: r < path ==> !IsFile(files, r)) ensures !IsFile(files, q) {
      if q != path {
        assert q < path;
      }
    }
  }

  /** The way down to an existing destination is made of directories. */
  lemma NoFileAbove(files: Files, before: Files, dst: Path)
    requires WellFormed(files) && dst in files
    requires forall p :: At(files, p) == if p <= dst && p !in before then Some(Dir) else At(before, p)
    ensures forall q :: q < dst ==> !IsFile(before, q)
  {
    forall q | q < dst ensures !IsFile(before, q) {
      PrefixIsDir(files, dst, q);
    }
  }

  // ------------------------------------------------------------------ the source tree stays as it is

  /** The part of the source tree that is going to be read: the directory itself and the children listed at first. */
  predicate IsListed(before: Files, src: Path, p: Path)
    requires src <= p
  {
    p == src || p[|src|] in Names(before, src)
  }

  lemma SourceUntouched(before: Files, src: Path, dst: Path, done: set<string>, p: Path)
    requires Stable(before, src, dst, done) && src <= p && (IsListed(before, src, p) || done == {})
    ensures Want(before, src, dst, done, p) == At(before, p)
  {
    assert src[|src|..] == [] && dst + [] == dst;
    if IsTarget(before, src, dst, done, p) {
      var q := Origin(src, dst, p);
      assert q[|src|..] == p[|dst|..] && dst + q[|src|..] == p;
      assert Harmless(before, src, dst, q);
      assert q != src ==> q[|src|] == p[|dst|];
    } else if p < dst && p !in before {
      assert Harmless(before, src, dst, src);
      if dst in before {
        PrefixIsDir(before, dst, p);
      }
    }
  }

  lemma SourceAtStart(before: Files, files: Files, src: Path, dst: Path)
    requires Stable(before, src, dst, {}) && Matches(files, before, src, dst, {})
    ensures Names(files, src) == Names(before, src)
  {
    forall n ensures n in Names(files, src) <==> n in Names(before, src) {
      SourceUntouched(before, src, dst, {}, src + [n]);
      assert At(files, src + [n]) == At(before, src + [n]);
    }
  }

  lemma ChildUntouched(before: Files, files: Files, src: Path, dst: Path, done: set<string>, name: string)
    requires Stable(before, src, dst, done) && Matches(files, before, src, dst, done) && src + [name] in before
    ensures forall p :: src + [name] <= p ==> At(files, p) == At(before, p)
  {
    forall p | src + [name] <= p ensures At(files, p) == At(before, p) {
      assert p[|src|] == name;
      SourceUntouched(before, src, dst, done, p);
    }
  }

  lemma ChildIsSmaller(now: Files, before: Files, src: Path, dst: Path, name: string)
    requires WellFormed(before) && At(before, src) == Some(Dir) && NoFeedback(before, src, dst)
    requires src + [name] in before
    requires forall p :: src + [name] <= p ==> At(now, p) == At(before, p)
    ensures Under(now, src + [name]) < Under(before, src)
    ensures NoFeedback(now, src + [name], dst + [name])
  {
    assert src in Under(before, src) && src !in Under(now, src + [name]);
    forall p | p in Under(now, src + [name]) ensures p in Under(before, src) {
      assert At(now, p) == At(before, p);
    }
    forall p | p in now && src + [name] <= p ensures Harmless(now, src + [name], dst + [name], p) {
      assert At(now, p) == At(before, p);
      ChildIsHarmless(now, before, src, dst, name, p);
    }
  }

  lemma ChildIsHarmless(now: Files, before: Files, src: Path, dst: Path, name: string, p: Path)
    requires At(before, src) == Some(Dir) && NoFeedback(before, src, dst) && src + [name] in before
    requires forall q :: src + [name] <= q ==> At(now, q) == At(before, q)
    requires src + [name] <= p && p in now
    ensures Harmless(now, src + [name], dst + [name], p)
  {
    var s, d, target := src + [name], dst + [name], dst + p[|src|..];
    SameTarget(src, dst, name, p);
    assert At(now, p) == At(before, p);
    if s <= target && CanPlace(now, s, d, p) {
      assert At(now, target) == At(before, target);
      ParentBelow(src, name, target);
      assert At(before, Parent(target)) == if Parent(target) == src then Some(Dir) else At(now, Parent(target));
      assert CanPlace(before, src, dst, p);
      assert target[|src|] == name;
      assert Harmless(before, src, dst, p);
    }
  }

  lemma ParentBelow(dir: Path, name: string, p: Path)
    requires dir + [name] <= p
    ensures Parent(p) == dir || dir + [name] <= Parent(p)
  {
    if |p| == |dir| + 1 {
      assert p == dir + [name];
    }
  }

  /** A path below a child has the same target whether the child or its parent is copied. */
  lemma SameTarget(src: Path, dst: Path, name: string, p: Path)
    requires src + [name] <= p
    ensures dst + [name] + p[|src + [name]|..] == dst + p[|src|..]
  {
    assert p[|src|..] == [name] + p[|src| + 1..];
  }

  /** Copying the source tree's own part at `way` onto the source tree would change nothing of what is listed. */
  ghost predicate OwnPartFits(files: Files, src: Path, dst: Path, way: Path) {
    forall rel ::
      src + way + rel in files && IsListed(files, src, src + rel) && CanPlace(files, src, dst, src + way + rel) ==>
        At(files, src + rel) == Merge(At(files, src + rel), files[src + way + rel])
  }

  /** When a copy does not change what it reads.  It does not if the paths are the same or apart; if src is below dst
      it depends on the part of the source that is copied onto the source; a dst that is made inside src always is
      read again. */
  lemma NoFeedbackMeans(files: Files, src: Path, dst: Path)
    requires WellFormed(files) && At(files, src) == Some(Dir)
    ensures src == dst ==> NoFeedback(files, src, dst)
    ensures !(src <= dst) && !(dst <= src) ==> NoFeedback(files, src, dst)
    ensures dst < src ==> (NoFeedback(files, src, dst) <==> OwnPartFits(files, src, dst, src[|dst|..]))
    ensures src < dst && dst !in files && !IsFile(files, Parent(dst)) ==> !NoFeedback(files, src, dst)
  {
    assert src[|src|..] == [] && dst + [] == dst;
    if src == dst {
      SamePathFits(files, src);
    } else if dst < src {
      OwnPartMeans(files, src, dst);
    } else if src < dst {
      if dst !in files && !IsFile(files, Parent(dst)) {
        assert !Harmless(files, src, dst, src);
      }
    } else {
      forall p | p in files && src <= p ensures Harmless(files, src, dst, p) {
        ApartTargets(src, dst, p[|src|..]);
      }
    }
  }

  lemma ApartTargets(src: Path, dst: Path, rel: Path)
    requires !(src <= dst) && !(dst <= src)
    ensures !(src <= dst + rel)
  {
    if src <= dst + rel {
      PrefixesCompare(src, dst, dst + rel);
      assert false;
    }
  }

  lemma SamePathFits(files: Files, src: Path)
    ensures NoFeedback(files, src, src)
  {
    forall p | p in files && src <= p ensures Harmless(files, src, src, p) {
      assert src + p[|src|..] == p;
    }
  }

  /** Below dst, what is copied onto the source tree lies on the way from dst to src once more. */
  lemma OwnPartMeans(files: Files, src: Path, dst: Path)
    requires At(files, src) == Some(Dir) && dst < src
    ensures NoFeedback(files, src, dst) <==> OwnPartFits(files, src, dst, src[|dst|..])
  {
    var way := src[|dst|..];
    assert dst + way == src;
    if NoFeedback(files, src, dst) {
      forall rel | src + way + rel in files && IsListed(files, src, src + rel)
                   && CanPlace(files, src, dst, src + way + rel)
        ensures At(files, src + rel) == Merge(At(files, src + rel), files[src + way + rel])
      {
        OwnPartTarget(src, dst, rel);
        assert Harmless(files, src, dst, src + way + rel);
      }
    }
    if OwnPartFits(files, src, dst, way) {
      forall p | p in files && src <= p ensures Harmless(files, src, dst, p) {
        var target := dst + p[|src|..];
        if src <= target {
          var rel := target[|src|..];
          TargetInSource(src, dst, p);
          assert p == src + way + rel && target == src + rel;
        }
      }
    }
  }

  lemma OwnPartTarget(src: Path, dst: Path, rel: Path)
    requires dst < src
    ensures dst + (src + src[|dst|..] + rel)[|src|..] == src + rel
  {
    assert (src + src[|dst|..] + rel)[|src|..] == src[|dst|..] + rel;
    assert dst + src[|dst|..] == src;
  }

  lemma TargetInSource(src: Path, dst: Path, p: Path)
    requires dst < src && src <= p && src <= dst + p[|src|..]
    ensures p == src + src[|dst|..] + (dst + p[|src|..])[|src|..]
  {
    var target := dst + p[|src|..];
    assert target == src + target[|src|..];
    assert dst + src[|dst|..] == src;
    assert p[|src|..] == target[|dst|..] == src[|dst|..] + target[|src|..];
    assert p == src + p[|src|..];
  }

  /** Why a destination that is made inside the source is excluded: once it is made, the directory on the way to it is
      listed, and copying that directory is a copy of the same kind.  The code has no end but a failing operation. */
  lemma SelfCopyDescends(before: Files, made: Files, src: Path, dst: Path)
    requires WellFormed(before) && At(before, src) == Some(Dir) && src < dst && dst !in before && CanMake(before, dst)
    requires forall p :: At(made, p) == if p <= dst && p !in before then Some(Dir) else At(before, p)
    ensures var name := dst[|src|];
      && name in Names(made, src) && At(made, src + [name]) == Some(Dir)
      && src + [name] < dst + [name] && dst + [name] !in made && CanMake(made, dst + [name])
  {
    var name := dst[|src|];
    var child, target := src + [name], dst + [name];
    assert child == dst[..|child|] && child <= dst;
    assert At(made, child) == Some(Dir) by {
      assert !IsFile(before, child);
    }
    assert Parent(target) == dst && !(target <= dst);
    assert At(made, target) == None by {
      assert target in before ==> InDir(before, target);
    }
    assert child == target[..|child|];
    forall q | q <= target ensures !IsFile(made, q) {
      if q != target {
        assert q <= dst;
        assert !IsFile(before, q);
        assert At(made, q) == if q <= dst && q !in before then Some(Dir) else At(before, q);
      }
    }
  }

  lemma PrefixesCompare(a: Path, b: Path, whole: Path)
    requires a <= whole && b <= whole
    ensures a <= b || b <= a
  {
    if |a| <= |b| {
      assert a == b[..|a|];
    } else {
      assert b == a[..|b|];
    }
  }

  // ------------------------------------------------------------------ one child

  lemma BelowName(files: Files, dir: Path, q: Path)
    requires WellFormed(files) && q in files && dir < q
    ensures q[|dir|] in Names(files, dir)
  {
    var child := dir + [q[|dir|]];
    assert child <= q;
    if child != q {
      PrefixIsDir(files, q, child);
    }
  }

  /** The goal of copying a child, seen from its parent. */
  lemma ChildWant(now: Files, before: Files, src: Path, dst: Path, done: set<string>, name: string, p: Path)
    requires WellFormed(now) && dst in now && Stable(before, src, dst, done)
    requires Matches(now, before, src, dst, done) && name !in done && src + [name] in before
    ensures Want(now, src + [name], dst + [name], Names(now, src + [name]), p)
         == Want(before, src, dst, done + {name}, p)
  {
    ChildUntouched(before, now, src, dst, done, name);
    UntouchedChildWant(now, before, src, dst, done, name, p);
  }

  lemma UntouchedChildWant(now: Files, before: Files, src: Path, dst: Path, done: set<string>, name: string, p: Path)
    requires WellFormed(now) && dst in now && src in before
    requires Matches(now, before, src, dst, done) && name !in done && src + [name] in before
    requires forall q :: src + [name] <= q ==> At(now, q) == At(before, q)
    ensures Want(now, src + [name], dst + [name], Names(now, src + [name]), p)
         == Want(before, src, dst, done + {name}, p)
  {
    var s, d := src + [name], dst + [name];
    assert At(now, p) == Want(before, src, dst, done, p);
    if dst < p && p[|dst|] == name {
      assert d == p[..|d|];
    }
    if d <= p {
      var q := Origin(s, d, p);
      assert p[|dst|..] == [name] + p[|dst| + 1..];
      assert q == Origin(src, dst, p);
      assert At(now, q) == At(before, q);
      assert p[|dst|] == name;
      if q in now && p != d {
        assert q[|s|] == p[|d|];
        BelowName(now, s, q);
      }
    } else {
      if p < d {
        assert p <= dst;
        if p != dst {
          PrefixIsDir(now, dst, p);
        }
      }
    }
  }

  /** Whether a child can be copied does not depend on the children copied before it. */
  lemma ChildCan(now: Files, before: Files, src: Path, dst: Path, done: set<string>, name: string)
    requires WellFormed(now) && dst in now && Stable(before, src, dst, done) && Matches(now, before, src, dst, done)
    requires name !in done && src + [name] in before
    ensures At(before, src + [name]) == Some(Dir) ==>
      (CanCopy(now, src + [name], dst + [name]) <==> CanCopyBelow(before, src, dst, {name}))
    ensures IsFile(before, src + [name]) ==>
      (CanCopyFile(now, src + [name], dst + [name]) <==> CanCopyBelow(before, src, dst, {name}))
  {
    ChildUntouched(before, now, src, dst, done, name);
    DstKept(now, before, src, dst, done, name);
    UntouchedChildCan(now, before, src, dst, name);
  }

  lemma UntouchedChildCan(now: Files, before: Files, src: Path, dst: Path, name: string)
    requires WellFormed(now) && WellFormed(before) && dst in now && src + [name] in before
    requires forall p :: src + [name] <= p ==> At(now, p) == At(before, p)
    requires forall p :: dst + [name] <= p ==> At(now, p) == At(before, p)
    requires IsFile(now, dst) <==> IsFile(before, dst)
    ensures At(before, src + [name]) == Some(Dir) ==>
      (CanCopy(now, src + [name], dst + [name]) <==> CanCopyBelow(before, src, dst, {name}))
    ensures IsFile(before, src + [name]) ==>
      (CanCopyFile(now, src + [name], dst + [name]) <==> CanCopyBelow(before, src, dst, {name}))
  {
    var s, d := src + [name], dst + [name];
    assert At(now, s) == At(before, s);
    assert s[|src|] == name && dst + s[|src|..] == d && Parent(d) == dst;
    if before[s] == Dir {
      ChildDirCan(now, before, src, dst, name);
    } else {
      forall q | q in before && src < q && q[|src|] == name ensures q == s {
        assert s == q[..|s|];
        if q != s {
          PrefixIsDir(before, q, s);
        }
      }
    }
  }

  /** Copying other children leaves the places of this one alone. */
  lemma DstKept(now: Files, before: Files, src: Path, dst: Path, done: set<string>, name: string)
    requires At(before, src) == Some(Dir) && Matches(now, before, src, dst, done) && name !in done && dst in now
    ensures forall p :: dst + [name] <= p ==> At(now, p) == At(before, p)
    ensures IsFile(now, dst) <==> IsFile(before, dst)
  {
    forall p | dst + [name] <= p ensures At(now, p) == At(before, p) {
      assert At(now, p) == Want(before, src, dst, done, p);
      assert p[|dst|] == name;
    }
    assert At(now, dst) == Want(before, src, dst, done, dst);
    assert Origin(src, dst, dst) == src;
  }

  lemma ChildDirCan(now: Files, before: Files, src: Path, dst: Path, name: string)
    requires WellFormed(now) && WellFormed(before) && dst in now
    requires At(before, src + [name]) == Some(Dir)
    requires forall p :: src + [name] <= p ==> At(now, p) == At(before, p)
    requires forall p :: dst + [name] <= p ==> At(now, p) == At(before, p)
    requires IsFile(now, dst) <==> IsFile(before, dst)
    ensures CanCopy(now, src + [name], dst + [name]) <==> CanCopyBelow(before, src, dst, {name})
  {
    var s, d := src + [name], dst + [name];
    assert At(now, s) == At(before, s);
    assert s[|src|] == name && dst + s[|src|..] == d && Parent(d) == dst;
    forall q | q < d && q != dst ensures !IsFile(now, q) {
      PrefixIsDir(now, dst, q);
    }
    assert (forall q :: q < d ==> !IsFile(now, q)) <==> !IsFile(now, dst);
    assert CanPlace(before, src, dst, s) <==> !IsFile(now, dst);
    DescendantsCan(now, before, src, dst, name);
    PlacedBelowChild(before, src, dst, name);
  }

  lemma BelowSplit(files: Files, src: Path, dst: Path, done: set<string>, name: string, all: set<string>)
    requires done + {name} <= all
    ensures CanCopyBelow(files, src, dst, done + {name})
       <==> CanCopyBelow(files, src, dst, done) && CanCopyBelow(files, src, dst, {name})
    ensures CanCopyBelow(files, src, dst, all) ==> CanCopyBelow(files, src, dst, {name})
  {
  }

  /** Every entry strictly below s finds its place. */
  predicate AllPlaced(files: Files, src: Path, dst: Path, s: Path)
    requires src <= s
  {
    forall q <- files :: s < q ==> CanPlace(files, src, dst, q)
  }

  lemma PlacedBelowChild(before: Files, src: Path, dst: Path, name: string)
    requires src + [name] in before
    ensures CanCopyBelow(before, src, dst, {name}) <==>
      CanPlace(before, src, dst, src + [name]) && AllPlaced(before, src, dst, src + [name])
  {
    var s := src + [name];
    forall q | q in before && src < q ensures q[|src|] in {name} <==> q == s || s < q {
      if q[|src|] == name {
        assert s == q[..|s|];
      }
    }
  }

  lemma DescendantsCan(now: Files, before: Files, src: Path, dst: Path, name: string)
    requires WellFormed(now)
    requires forall p :: src + [name] <= p ==> At(now, p) == At(before, p)
    requires forall p :: dst + [name] <= p ==> At(now, p) == At(before, p)
    ensures CanCopyBelow(now, src + [name], dst + [name], Names(now, src + [name]))
       <==> AllPlaced(before, src, dst, src + [name])
  {
    var s, d := src + [name], dst + [name];
    forall q | s < q && (q in now || q in before)
      ensures q in now && q in before && q[|s|] in Names(now, s)
      ensures CanPlace(now, s, d, q) <==> CanPlace(before, src, dst, q)
    {
      assert src <= q;
      assert At(now, q) == At(before, q);
      BelowName(now, s, q);
      SamePlace(now, before, src, dst, name, q);
    }
  }

  lemma SamePlace(now: Files, before: Files, src: Path, dst: Path, name: string, q: Path)
    requires src + [name] < q && q in now && q in before && At(now, q) == At(before, q)
    requires forall p :: dst + [name] <= p ==> At(now, p) == At(before, p)
    ensures CanPlace(now, src + [name], dst + [name], q) <==> CanPlace(before, src, dst, q)
  {
    var target := dst + q[|src|..];
    assert q[|src|..] == [name] + q[|src| + 1..];
    assert target == dst + [name] + q[|src| + 1..];
    assert At(now, target) == At(before, target) && At(now, Parent(target)) == At(before, Parent(target));
  }

  lemma WantGrows(before: Files, src: Path, dst: Path, done: set<string>, p: Path)
    requires At(before, src) == Some(Dir) && done <= Names(before, src)
    ensures Want(before, src, dst, done, p) == At(before, p)
         || Want(before, src, dst, done, p) == Goal(before, src, dst, p)
  {
  }

  lemma Undone(files: Files, before: Files, src: Path, dst: Path, done: set<string>)
    requires At(before, src) == Some(Dir) && done <= Names(before, src) && Matches(files, before, src, dst, done)
    ensures PartlyCopied(files, before, src, dst, None)
  {
    forall p ensures At(files, p) == At(before, p) || At(files, p) == Goal(before, src, dst, p) {
      WantGrows(before, src, dst, done, p);
    }
  }

  lemma ChildStep(files: Files, now: Files, before: Files, src: Path, dst: Path, done: set<string>, name: string,
                  ok: bool, leftover: Option<Path>)
    requires WellFormed(now) && dst in now && Stable(before, src, dst, done)
    requires Matches(now, before, src, dst, done) && name !in done && done + {name} <= Names(before, src)
    requires At(now, src + [name]) == Some(Dir)
    requires ok ==> Copied(files, now, src + [name], dst + [name])
    requires !ok ==> PartlyCopied(files, now, src + [name], dst + [name], leftover)
    ensures ok ==> Matches(files, before, src, dst, done + {name})
    ensures !ok ==> PartlyCopied(files, before, src, dst, leftover)
  {
    forall p ensures Goal(now, src + [name], dst + [name], p) == Want(before, src, dst, done + {name}, p) {
      ChildWant(now, before, src, dst, done, name, p);
    }
    if ok {
      forall p ensures At(files, p) == Want(before, src, dst, done + {name}, p) {
        assert At(files, p) == Goal(now, src + [name], dst + [name], p);
      }
    } else {
      forall p | Some(p) != leftover
        ensures At(files, p) == At(before, p) || At(files, p) == Goal(before, src, dst, p)
      {
        assert At(now, p) == Want(before, src, dst, done, p);
        WantGrows(before, src, dst, done, p);
        WantGrows(before, src, dst, done + {name}, p);
      }
      LeftoverIsNew(now, before, src, dst, done, name, leftover);
    }
  }

  lemma LeftoverIsNew(now: Files, before: Files, src: Path, dst: Path, done: set<string>, name: string,
                      leftover: Option<Path>)
    requires Matches(now, before, src, dst, done)
    requires leftover.Some? ==> leftover.value !in now && (dst + [name] < leftover.value || dst < leftover.value)
    ensures leftover.Some? ==> leftover.value !in before && dst < leftover.value
  {
    if leftover.Some? {
      assert At(now, leftover.value) == Want(before, src, dst, done, leftover.value);
    }
  }

  lemma ChildFileStep(files: Files, now: Files, before: Files, src: Path, dst: Path, done: set<string>, name: string,
                      ok: bool, leftover: Option<Path>)
    requires Stable(before, src, dst, done)
    requires Matches(now, before, src, dst, done) && name !in done && done + {name} <= Names(before, src)
    requires src + [name] in now && now[src + [name]].File?
    requires ok ==> files == now[dst + [name] := now[src + [name]]]
    requires !ok && leftover.None? ==> files == now
    requires !ok && leftover.Some? ==>
      && leftover.value !in now && leftover.value != [] && Parent(leftover.value) == Parent(dst + [name])
      && files.Keys == now.Keys + {leftover.value} && forall p <- now :: files[p] == now[p]
    ensures ok ==> Matches(files, before, src, dst, done + {name})
    ensures !ok ==> PartlyCopied(files, before, src, dst, leftover)
  {
    var s, d := src + [name], dst + [name];
    SourceUntouched(before, src, dst, done, s);
    assert At(now, s) == At(before, s);
    if ok {
      forall p ensures At(files, p) == Want(before, src, dst, done + {name}, p) {
        assert At(now, p) == Want(before, src, dst, done, p);
        ChildFileWant(before, src, dst, done, name, p);
      }
    } else {
      forall p | Some(p) != leftover
        ensures At(files, p) == At(before, p) || At(files, p) == Goal(before, src, dst, p)
      {
        assert At(files, p) == At(now, p) == Want(before, src, dst, done, p);
        WantGrows(before, src, dst, done, p);
      }
      if leftover.Some? {
        assert Parent(d) == dst && dst < leftover.value;
      }
      LeftoverIsNew(now, before, src, dst, done, name, leftover);
    }
  }

  lemma ChildFileWant(before: Files, src: Path, dst: Path, done: set<string>, name: string, p: Path)
    requires WellFormed(before) && src + [name] in before && before[src + [name]].File? && name !in done
    ensures Want(before, src, dst, done + {name}, p)
         == if p == dst + [name] then Some(before[src + [name]]) else Want(before, src, dst, done, p)
  {
    var s, d := src + [name], dst + [name];
    if dst < p && p[|dst|] == name {
      assert d == p[..|d|];
      assert p[|dst|..] == [name] + p[|d|..];
      var q := Origin(src, dst, p);
      assert q == s + p[|d|..];
      if p != d && q in before {
        PrefixIsDir(before, q, s);
      }
    }
  }

  // ------------------------------------------------------------------ a single file

  lemma FileStep(files: Files, now: Files, before: Files, src: Path, dst: Path, ok: bool, leftover: Option<Path>)
    requires src != [] && src in before && before[src].File?
    requires forall p :: At(now, p) == if p <= dst && p !in before then Some(Dir) else At(before, p)
    requires ok ==> files == now[dst + [src[|src| - 1]] := before[src]]
    requires !ok && leftover.None? ==> files == now
    requires !ok && leftover.Some? ==>
      && leftover.value !in now && leftover.value != [] && Parent(leftover.value) == Parent(dst + [src[|src| - 1]])
      && files.Keys == now.Keys + {leftover.value} && forall p <- now :: files[p] == now[p]
    ensures ok ==> Copied(files, before, src, dst)
    ensures !ok ==> PartlyCopied(files, before, src, dst, leftover)
  {
    var target := dst + [src[|src| - 1]];
    forall p | Some(p) != leftover ensures At(files, p) == At(before, p) || At(files, p) == Goal(before, src, dst, p) {
      assert At(now, p) == if p <= dst && p !in before then Some(Dir) else At(before, p);
    }
    if ok {
      forall p ensures At(files, p) == Goal(before, src, dst, p) {
        assert At(now, p) == if p <= dst && p !in before then Some(Dir) else At(before, p);
      }
    } else if leftover.Some? {
      assert Parent(target) == dst;
      assert At(now, leftover.value) == None;
    }
  }

  lemma FileStatesOnTheWay(states: seq<Files>, now: Files, before: Files, src: Path, dst: Path)
    requires src != [] && src in before && before[src].File?
    requires forall p :: At(now, p) == if p <= dst && p !in before then Some(Dir) else At(before, p)
    requires forall s <- states ::
      FileState(s, now, dst + [src[|src| - 1]], None) || FileState(s, now, dst + [src[|src| - 1]], Some(before[src]))
    ensures Along(states, before, src, dst)
  {
    var target := dst + [src[|src| - 1]];
    forall s | s in states ensures OnTheWay(s, before, src, dst) {
      if s == now {
        FileStep(s, now, before, src, dst, false, None);
        assert PartlyCopied(s, before, src, dst, None);
      } else if s == now[target := before[src]] {
        FileStep(s, now, before, src, dst, true, None);
        assert PartlyCopied(s, before, src, dst, None);
      } else {
        var tmp, c :| IsTemporary(now, target, tmp) && s == now[tmp := File(c)];
        FileStep(s, now, before, src, dst, false, Some(tmp));
        assert PartlyCopied(s, before, src, dst, Some(tmp));
      }
    }
  }

  lemma ChildFileStatesOnTheWay(states: seq<Files>, now: Files, before: Files, src: Path, dst: Path, done: set<string>,
                                name: string)
    requires Stable(before, src, dst, done)
    requires Matches(now, before, src, dst, done) && name !in done && done + {name} <= Names(before, src)
    requires src + [name] in now && now[src + [name]].File?
    requires forall s <- states ::
      FileState(s, now, dst + [name], None) || FileState(s, now, dst + [name], Some(now[src + [name]]))
    ensures Along(states, before, src, dst)
  {
    var target := dst + [name];
    forall s | s in states ensures OnTheWay(s, before, src, dst) {
      if s == now {
        ChildFileStep(s, now, before, src, dst, done, name, false, None);
        assert PartlyCopied(s, before, src, dst, None);
      } else if s == now[target := now[src + [name]]] {
        ChildFileStep(s, now, before, src, dst, done, name, true, None);
        Undone(s, before, src, dst, done + {name});
      } else {
        var tmp, c :| IsTemporary(now, target, tmp) && s == now[tmp := File(c)];
        ChildFileStep(s, now, before, src, dst, done, name, false, Some(tmp));
        assert PartlyCopied(s, before, src, dst, Some(tmp));
      }
    }
  }

  lemma ChildStatesOnTheWay(states: seq<Files>, now: Files, before: Files, src: Path, dst: Path, done: set<string>,
                            name: string)
    requires WellFormed(now) && dst in now && Stable(before, src, dst, done)
    requires Matches(now, before, src, dst, done) && name !in done && done + {name} <= Names(before, src)
    requires At(now, src + [name]) == Some(Dir)
    requires Along(states, now, src + [name], dst + [name])
    ensures Along(states, before, src, dst)
  {
    forall s | s in states ensures OnTheWay(s, before, src, dst) {
      assert OnTheWay(s, now, src + [name], dst + [name]);
      var temporary :| PartlyCopied(s, now, src + [name], dst + [name], temporary);
      ChildStep(s, now, before, src, dst, done, name, false, temporary);
    }
  }

  // ------------------------------------------------------------------ counting

  lemma SingleFile(before: Files, src: Path)
    requires WellFormed(before) && src in before && before[src].File?
    ensures FilesUnder(before, src) == {src}
  {
    forall p | p in FilesUnder(before, src) ensures p == src {
      if p != src {
        PrefixIsDir(before, p, src);
      }
    }
  }

  lemma CountChild(now: Files, before: Files, src: Path, done: set<string>, name: string)
    requires WellFormed(before) && src + [name] in before && name !in done
    requires forall p :: src + [name] <= p ==> At(now, p) == At(before, p)
    ensures |FilesBelow(before, src, done + {name})|
         == |FilesBelow(before, src, done)| + |FilesUnder(now, src + [name])|
    ensures before[src + [name]].File? ==> |FilesUnder(now, src + [name])| == 1
  {
    var child := src + [name];
    var more, fewer := FilesBelow(before, src, done + {name}), FilesBelow(before, src, done);
    var own := FilesUnder(before, child);
    forall p ensures p in FilesUnder(now, child) <==> p in own {
      if child <= p {
        assert src <= p;
        assert At(now, p) == At(before, p);
      }
    }
    assert FilesUnder(now, child) == own;
    forall p ensures p in more <==> p in fewer || p in own {
      if src < p && p[|src|] == name {
        assert child == p[..|child|];
      }
    }
    assert more == fewer + own && fewer !! own;
    if before[child].File? {
      SingleFile(before, child);
    }
  }

  lemma AllFilesAreBelow(before: Files, src: Path)
    requires WellFormed(before) && At(before, src) == Some(Dir)
    ensures FilesBelow(before, src, Names(before, src)) == FilesUnder(before, src)
  {
    forall p | p in FilesUnder(before, src) ensures p in FilesBelow(before, src, Names(before, src)) {
      assert p != src;
      BelowName(before, src, p);
    }
  }

  // ------------------------------------------------------------------ what the result means

  /** Everything in the source tree is at the same place below dst. */
  ghost predicate Overlaid(files: Files, before: Files, src: Path, dst: Path) {
    forall rel :: src + rel in before ==> At(files, dst + rel) == Some(before[src + rel])
  }

  /** No directory of the source meets a file of the destination. */
  ghost predicate DirsMeetNoFile(before: Files, src: Path, dst: Path) {
    forall rel :: src + rel in before && before[src + rel] == Dir ==> !IsFile(before, dst + rel)
  }

  /** No path is a file on one side and a directory on the other. */
  ghost predicate Compatible(before: Files, src: Path, dst: Path) {
    && DirsMeetNoFile(before, src, dst)
    && (forall rel :: IsFile(before, src + rel) ==> At(before, dst + rel) != Some(Dir))
  }

  /** A successful copy of a directory leaves dst overlaid with src exactly when no directory of the source meets
      a file of the destination. */
  lemma CopiedIsOverlay(files: Files, before: Files, src: Path, dst: Path)
    requires WellFormed(before) && At(before, src) == Some(Dir) && Copied(files, before, src, dst)
    ensures Overlaid(files, before, src, dst) <==> DirsMeetNoFile(before, src, dst)
  {
    forall rel | src + rel in before
      ensures At(files, dst + rel) == Merge(At(before, dst + rel), before[src + rel])
    {
      assert (dst + rel)[|dst|..] == rel;
      assert Origin(src, dst, dst + rel) == src + rel;
      if rel != [] {
        BelowName(before, src, src + rel);
      }
    }
  }

  /** A successful copy of a file puts it into dst under its own name, makes dst and the directories above it where
      they are missing, and leaves everything else alone. */
  lemma CopiedFile(files: Files, before: Files, src: Path, dst: Path)
    requires WellFormed(before) && IsFile(before, src) && Copied(files, before, src, dst)
    ensures src != []
    ensures var p := dst + [src[|src| - 1]];
      && At(files, p) == Some(before[src])
      && (forall q :: q != p && q in before ==> At(files, q) == Some(before[q]))
      && (forall q :: q != p && q !in before ==> At(files, q) == if q <= dst then Some(Dir) else None)
  {
  }

  /** A file can be copied exactly when no file is in the way of dst and no directory in the way of the copy. */
  lemma CanCopyFileExactly(before: Files, src: Path, dst: Path)
    requires WellFormed(before) && IsFile(before, src)
    ensures CanCopy(before, src, dst) <==>
      && (forall q :: q <= dst ==> !IsFile(before, q))
      && At(before, dst + [src[|src| - 1]]) != Some(Dir)
  {
    if CanCopy(before, src, dst) {
      forall q | q <= dst ensures !IsFile(before, q) {
        if q != dst {
          assert q < dst;
        }
      }
    }
  }

  /** A directory can be copied with an overlay as the result exactly when the trees are compatible and dst does
      not lie in a file; it can be copied without one only when an empty directory meets a file. */
  lemma CompatibleExactly(before: Files, src: Path, dst: Path)
    requires WellFormed(before) && At(before, src) == Some(Dir)
    ensures CanCopy(before, src, dst) && DirsMeetNoFile(before, src, dst)
       <==> (forall q :: q < dst ==> !IsFile(before, q)) && Compatible(before, src, dst)
    ensures CanCopy(before, src, dst) ==>
      forall rel :: rel != [] && src + rel in before ==> !IsFile(before, dst + Parent(rel))
  {
    if CanCopy(before, src, dst) {
      forall rel | rel != [] && src + rel in before
        ensures !IsFile(before, dst + Parent(rel))
        ensures before[src + rel].File? ==> At(before, dst + rel) != Some(Dir)
      {
        Placed(before, src, dst, rel);
      }
      assert !IsFile(before, src + []) by { assert src + [] == src; }
    }
    if (forall q :: q < dst ==> !IsFile(before, q)) && Compatible(before, src, dst) {
      forall q | q in before && src < q ensures CanPlace(before, src, dst, q) {
        PlaceFor(before, src, dst, q);
      }
    }
  }

  lemma Placed(before: Files, src: Path, dst: Path, rel: Path)
    requires WellFormed(before) && At(before, src) == Some(Dir) && CanCopy(before, src, dst)
    requires rel != [] && src + rel in before
    ensures !IsFile(before, dst + Parent(rel))
    ensures before[src + rel].File? ==> At(before, dst + rel) != Some(Dir)
  {
    var q := src + rel;
    BelowName(before, src, q);
    assert CanPlace(before, src, dst, q) && q[|src|..] == rel;
    assert Parent(dst + rel) == dst + Parent(rel);
  }

  lemma PlaceFor(before: Files, src: Path, dst: Path, q: Path)
    requires WellFormed(before) && Compatible(before, src, dst) && q in before && src < q
    ensures CanPlace(before, src, dst, q)
  {
    var rel := q[|src|..];
    assert src + rel == q && src + Parent(rel) == Parent(q) && Parent(dst + rel) == dst + Parent(rel);
    assert InDir(before, q);
  }

  /** A directory of the source that meets a file leaves the file. */
  lemma FileMeetingDirStays(files: Files, before: Files, src: Path, dst: Path, rel: Path)
    requires WellFormed(before) && At(before, src) == Some(Dir) && Copied(files, before, src, dst)
    requires At(before, src + rel) == Some(Dir) && IsFile(before, dst + rel)
    ensures At(files, dst + rel) == At(before, dst + rel)
  {
    assert (dst + rel)[|dst|..] == rel;
    assert At(files, dst + rel) == Goal(before, src, dst, dst + rel);
  }

  function Root(): (files: Files)
    ensures WellFormed(files) && files.Keys == {[]}
  {
    map[[] := Dir]
  }

  /** The tree with an empty directory s/e and a file d/e. */
  function EmptyDirAndFile(content: Content): Files {
    Root()[["s"] := Dir][["s", "e"] := Dir][["d"] := Dir][["d", "e"] := File(content)]
  }

  lemma NotPrefix(a: Path, b: Path, i: nat)
    requires i < |a| && (i < |b| ==> a[i] != b[i])
    ensures !(a <= b)
  {
  }

  lemma EmptyDirAndFileIsTree(content: Content)
    ensures WellFormed(EmptyDirAndFile(content))
  {
    var s: Path, d: Path := ["s"], ["d"];
    var one := Root()[s := Dir];
    assert s + ["e"] == ["s", "e"] && d + ["e"] == ["d", "e"];
    PutKeepsWellFormed(Root(), s, Dir);
    PutChild(one, s, "e", Dir);
    var two := one[["s", "e"] := Dir];
    assert "s"[0] != "d"[0];
    PutKeepsWellFormed(two, d, Dir);
    assert ["s", "e"][0] != ["d", "e"][0];
    PutChild(two[d := Dir], d, "e", File(content));
  }

  lemma PutChild(files: Files, dir: Path, name: string, entry: Entry)
    requires WellFormed(files) && At(files, dir) == Some(Dir) && At(files, dir + [name]) != Some(Dir)
    ensures WellFormed(files[dir + [name] := entry])
  {
    assert Parent(dir + [name]) == dir;
    PutKeepsWellFormed(files, dir + [name], entry);
  }

  lemma EmptyDirAndFileApart(content: Content)
    ensures NoFeedback(EmptyDirAndFile(content), ["s"], ["d"])
  {
    EmptyDirAndFileIsTree(content);
    NoFeedbackMeans(EmptyDirAndFile(content), ["s"], ["d"]);
    assert "s"[0] != "d"[0];
    NotPrefix(["s"], ["d"], 0);
    NotPrefix(["d"], ["s"], 0);
  }

  /** Copying s onto d in that tree succeeds without an overlay: d/e stays a file. */
  lemma EmptyDirMeetsFile(content: Content)
    ensures var files := EmptyDirAndFile(content);
      && WellFormed(files) && At(files, ["s"]) == Some(Dir) && NoFeedback(files, ["s"], ["d"])
      && CanCopy(files, ["s"], ["d"]) && !DirsMeetNoFile(files, ["s"], ["d"])
      && Goal(files, ["s"], ["d"], ["d", "e"]) == Some(File(content))
  {
    var files := EmptyDirAndFile(content);
    EmptyDirAndFileIsTree(content);
    EmptyDirAndFileApart(content);
    var s: Path, d: Path, e: Path := ["s"], ["d"], ["e"];
    ConcatOfNames("s", "e");
    ConcatOfNames("d", "e");
    assert At(files, s + e) == Some(Dir) && IsFile(files, d + e);
    forall q | q in files && s < q ensures CanPlace(files, s, d, q) {
      assert q == s + e && q[1..] == e && Parent(d + e) == d;
    }
    forall q | q < d ensures !IsFile(files, q) {
      assert q == [];
    }
    assert Origin(s, d, d + e) == s + e && "e" in Names(files, s);
  }

  lemma ConcatOfNames(a: string, b: string)
    ensures [a] + [b] == [a, b] && [a, b][1..] == [b] && Parent([a, b]) == [a]
  {
  }

  /** What goes wrong when a copy does change what it reads.  Let src lie below dst, let b be the first name on the way
      from dst to src, and let the entry b of src be copied before the entry n.  Then the second copy takes what the
      first has put into src, and not what was there. */
  lemma ChangedSourceIsCopied(before: Files, middle: Files, after: Files, src: Path, dst: Path, n: string, rel: Path)
    requires WellFormed(before) && WellFormed(middle) && dst < src && n != src[|dst|]
    requires At(before, src) == Some(Dir) && At(before, src + [src[|dst|]]) == Some(Dir)
    requires Copied(middle, before, src + [src[|dst|]], dst + [src[|dst|]])
    requires At(middle, src + [n]) == Some(Dir) && Copied(after, middle, src + [n], dst + [n])
    requires src + src[|dst|..] + ([n] + rel) in before
    ensures var own, listed, target := src + src[|dst|..] + ([n] + rel), src + ([n] + rel), dst + ([n] + rel);
      && At(after, target) == Merge(At(before, target), Merge(At(before, listed), before[own]).value)
      && Goal(before, src, dst, target) ==
           if listed in before then Merge(At(before, target), before[listed]) else At(before, target)
  {
    var own, listed, target := src + src[|dst|..] + ([n] + rel), src + ([n] + rel), dst + ([n] + rel);
    FirstStep(before, middle, src, dst, n, rel);
    SecondStep(middle, after, src, dst, n, rel, Merge(At(before, listed), before[own]).value);
    assert target[|dst|] == n && target[|dst|..] == [n] + rel;
    assert Origin(src, dst, target) == listed;
    if listed in before {
      BelowName(before, src, listed);
    }
  }

  lemma FirstStep(before: Files, middle: Files, src: Path, dst: Path, n: string, rel: Path)
    requires WellFormed(before) && dst < src && n != src[|dst|]
    requires At(before, src) == Some(Dir) && At(before, src + [src[|dst|]]) == Some(Dir)
    requires Copied(middle, before, src + [src[|dst|]], dst + [src[|dst|]])
    requires src + src[|dst|..] + ([n] + rel) in before
    ensures At(middle, src + ([n] + rel))
         == Merge(At(before, src + ([n] + rel)), before[src + src[|dst|..] + ([n] + rel)])
    ensures At(middle, dst + ([n] + rel)) == At(before, dst + ([n] + rel))
  {
    var b := src[|dst|];
    var s, d, own, listed := src + [b], dst + [b], src + src[|dst|..] + ([n] + rel), src + ([n] + rel);
    assert src[|dst|..] == [b] + src[|d|..];
    assert d <= src && d <= listed && d != listed;
    assert own == s + (src[|d|..] + ([n] + rel)) && listed == d + (src[|d|..] + ([n] + rel));
    assert Origin(s, d, listed) == own;
    BelowName(before, s, own);
    assert listed[|d|] == own[|s|];
    assert At(middle, listed) == Goal(before, s, d, listed);
    assert (dst + ([n] + rel))[|dst|] == n && d[|dst|] == b;
    assert At(middle, dst + ([n] + rel)) == Goal(before, s, d, dst + ([n] + rel));
  }

  lemma SecondStep(middle: Files, after: Files, src: Path, dst: Path, n: string, rel: Path, entry: Entry)
    requires WellFormed(middle) && At(middle, src + [n]) == Some(Dir) && Copied(after, middle, src + [n], dst + [n])
    requires At(middle, src + ([n] + rel)) == Some(entry)
    ensures At(after, dst + ([n] + rel)) == Merge(At(middle, dst + ([n] + rel)), entry)
  {
    var s, d, q, target := src + [n], dst + [n], src + ([n] + rel), dst + ([n] + rel);
    assert q == s + rel && target == d + rel && target[|d|..] == rel;
    assert Origin(s, d, target) == q;
    if rel != [] {
      BelowName(middle, s, q);
    }
    assert At(after, target) == Goal(middle, s, d, target);
  }

  /** The two steps of that loop on files: the copy reaches its goal exactly when the file that is copied onto the
      source has the same content. */
  method FeedbackBreaksOverlay(fs: FileSystem, src: Path, dst: Path, n: string)
    requires fs.Valid() && fs.reliable && dst < src && n != src[|dst|]
    requires At(fs.files, src) == Some(Dir) && At(fs.files, src + [src[|dst|]]) == Some(Dir)
    requires IsFile(fs.files, src + [n]) && At(fs.files, dst + [n]) != Some(Dir)
    requires IsFile(fs.files, src + src[|dst|..] + [n])
    requires NoFeedback(fs.files, src + [src[|dst|]], dst + [src[|dst|]])
    requires CanCopy(fs.files, src + [src[|dst|]], dst + [src[|dst|]])
    modifies fs
    ensures At(fs.files, dst + [n]) == At(old(fs.files), src + src[|dst|..] + [n])
    ensures Goal(old(fs.files), src, dst, dst + [n]) == At(old(fs.files), src + [n])
    ensures At(fs.files, dst + [n]) == Goal(old(fs.files), src, dst, dst + [n]) <==>
      At(old(fs.files), src + [n]) == At(old(fs.files), src + src[|dst|..] + [n])
    ensures At(fs.files, dst + [n]) != Goal(old(fs.files), src, dst, dst + [n]) ==> !NoFeedback(old(fs.files), src, dst)
  {
    ghost var before := fs.files;
    var b := src[|dst|];
    assert [n] + [] == [n];
    FileGoal(before, src, dst, n);
    var ok, count, leftover := fs.CopyAll(src + [b], dst + [b]);
    FirstStep(before, fs.files, src, dst, n, []);
    DstStaysDir(before, fs.files, src, dst);
    assert Parent(dst + [n]) == dst;
    ok, leftover := fs.CopyFileWithPerms(src + [n], dst + [n]);
  }

  lemma DstStaysDir(before: Files, middle: Files, src: Path, dst: Path)
    requires WellFormed(before) && dst < src && At(before, src) == Some(Dir)
    requires At(before, src + [src[|dst|]]) == Some(Dir)
    requires Copied(middle, before, src + [src[|dst|]], dst + [src[|dst|]])
    ensures At(middle, dst) == Some(Dir)
  {
    PrefixIsDir(before, src, dst);
    assert At(middle, dst) == Goal(before, src + [src[|dst|]], dst + [src[|dst|]], dst);
  }

  lemma FileGoal(before: Files, src: Path, dst: Path, n: string)
    requires WellFormed(before) && dst < src && At(before, src) == Some(Dir) && IsFile(before, src + [n])
    requires At(before, dst + [n]) != Some(Dir) && IsFile(before, src + src[|dst|..] + [n])
    ensures Goal(before, src, dst, dst + [n]) == At(before, src + [n])
    ensures At(before, src + [n]) != At(before, src + src[|dst|..] + [n]) ==> !NoFeedback(before, src, dst)
  {
    var own := src + src[|dst|..] + [n];
    assert Origin(src, dst, dst + [n]) == src + [n];
    OwnPartTarget(src, dst, [n]);
    assert Parent(src + [n]) == src && (src + [n])[|src|] == n;
    assert CanPlace(before, src, dst, own);
    if NoFeedback(before, src, dst) {
      assert Harmless(before, src, dst, own);
    }
  }

  /** The tree with the files a/b/b/c and a/b/c. */
  function Nested(inner: Content, outer: Content): Files {
    Root()[["a"] := Dir][["a", "b"] := Dir][["a", "b", "b"] := Dir]
          [["a", "b", "b", "c"] := File(inner)][["a", "b", "c"] := File(outer)]
  }

  /** For instance, copying a/b onto a takes the entries b and c in this order, and leaves the content of a/b/b/c at
      a/c. */
  method NestedLosesFile(inner: Content, outer: Content) returns (fs: FileSystem)
    ensures At(Nested(inner, outer), ["a", "b", "c"]) == Some(File(outer))
    ensures At(fs.files, ["a", "c"]) == Some(File(inner))
    ensures inner != outer ==> !NoFeedback(Nested(inner, outer), ["a", "b"], ["a"])
  {
    ghost var before := Nested(inner, outer);
    var ab: Path, a: Path := ["a", "b"], ["a"];
    NestedIsTree(inner, outer);
    NestedInnerApart(inner, outer);
    NestedCanCopy(inner, outer);
    assert ab + ["b"] == ["a", "b", "b"] && a + ["b"] == ab && ab[|a|..] == ["b"];
    assert ab + ["c"] == ["a", "b", "c"] && a + ["c"] == ["a", "c"];
    assert ab + ab[|a|..] + ["c"] == ["a", "b", "b", "c"];
    assert "b"[0] != "c"[0];
    NestedFree(inner, outer);
    fs := new FileSystem(Nested(inner, outer), true);
    FeedbackBreaksOverlay(fs, ab, a, "c");
  }

  lemma NestedFree(inner: Content, outer: Content)
    ensures At(Nested(inner, outer), ["a", "c"]) == None
  {
    assert "b"[0] != "c"[0];
    assert ["a", "c"][1] != ["a", "b"][1];
  }

  lemma NestedIsTree(inner: Content, outer: Content)
    ensures WellFormed(Nested(inner, outer))
  {
    var a: Path, ab: Path, abb: Path := ["a"], ["a", "b"], ["a", "b", "b"];
    var dirs := Root()[a := Dir][ab := Dir][abb := Dir];
    PutKeepsWellFormed(Root(), a, Dir);
    assert a + ["b"] == ab && ab + ["b"] == abb;
    PutChild(Root()[a := Dir], a, "b", Dir);
    PutChild(Root()[a := Dir][ab := Dir], ab, "b", Dir);
    assert abb + ["c"] == ["a", "b", "b", "c"] && ab + ["c"] == ["a", "b", "c"];
    assert "b"[0] != "c"[0];
    PutChild(dirs, abb, "c", File(inner));
    assert ["a", "b", "c"][2] != abb[2];
    PutChild(dirs[["a", "b", "b", "c"] := File(inner)], ab, "c", File(outer));
  }

  lemma NestedInnerApart(inner: Content, outer: Content)
    ensures NoFeedback(Nested(inner, outer), ["a", "b", "b"], ["a", "b"])
  {
    var files := Nested(inner, outer);
    var loop: Path := ["a", "b", "b", "b"];
    NestedIsTree(inner, outer);
    NoFeedbackMeans(files, ["a", "b", "b"], ["a", "b"]);
    assert ["a", "b", "b"] + ["a", "b", "b"][2..] == loop;
    assert "b"[0] != "c"[0];
    assert ["a", "b", "b", "c"][3] == "c";
    forall rel: Path ensures loop + rel !in files {
      assert (loop + rel)[3] == "b";
    }
  }

  lemma NestedCanCopy(inner: Content, outer: Content)
    ensures CanCopy(Nested(inner, outer), ["a", "b", "b"], ["a", "b"])
  {
    var files := Nested(inner, outer);
    var abb: Path, ab: Path := ["a", "b", "b"], ["a", "b"];
    forall q | q in files && abb < q ensures CanPlace(files, abb, ab, q) {
      assert q[3..] == ["c"] && ab + ["c"] == ["a", "b", "c"] && Parent(["a", "b", "c"]) == ab;
    }
    forall q | q < ab ensures !IsFile(files, q) {
      assert q == ab[..|q|];
      assert q == [] || q == ["a"];
    }
  }

  /** A successful copy changes nothing outside dst, except that missing parents of dst are created. */
  lemma CopiedKeepsTheRest(files: Files, before: Files, src: Path, dst: Path, p: Path)
    requires WellFormed(before) && src in before && Copied(files, before, src, dst)
    requires !(dst <= p)
    ensures At(files, p) == At(before, p) || (p < dst && p !in before && At(files, p) == Some(Dir))
  {
    assert At(files, p) == Goal(before, src, dst, p);
  }

  /** What was at dst and is not in the source tree stays. */
  lemma CopiedKeepsExtras(files: Files, before: Files, src: Path, dst: Path, rel: Path)
    requires At(before, src) == Some(Dir) && Copied(files, before, src, dst)
    requires src + rel !in before
    ensures At(files, dst + rel) == At(before, dst + rel)
  {
    assert (dst + rel)[|dst|..] == rel;
    assert At(files, dst + rel) == Goal(before, src, dst, dst + rel);
  }

  /** An entry may be put where there was none, or where there was a file, if its parent is a directory. */
  lemma PutKeepsWellFormed(before: Files, p: Path, entry: Entry)
    requires WellFormed(before) && At(before, Parent(p)) == Some(Dir) && At(before, p) != Some(Dir)
    ensures WellFormed(before[p := entry])
  {
    var after := before[p := entry];
    forall q | q in after ensures InDir(after, q) {
      assert q in before ==> InDir(before, q);
    }
  }

  lemma RemoveKeepsWellFormed(files: Files, p: Path)
    requires WellFormed(files) && p in files && p != [] && files[p].File?
    ensures WellFormed(files - {p})
  {
    forall q | q in files - {p} ensures InDir(files - {p}, q) {
      assert InDir(files, q);
    }
  }
}
