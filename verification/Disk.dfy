/**
  A file system as the move and upload actions see it: names refer to files, several names may refer
  to the same one, and every operation can fail.
*/
module Disk {
  import opened Basics
  import opened Framing

  type Path = string
  type File = nat

  datatype Remote = Remote(host: string, path: string)

  datatype Fs = Fs(
    names: map<Path, File>,
    data: map<File, Bytes>,
    next: File,                    // no file with this or a higher number exists
    remote: map<Remote, Bytes>)

  datatype RenameAnswer = Renamed | LinkError | OtherError

  /** What the operating system and the network answer during one action. */
  datatype Answers = Answers(
    mkdir: bool,
    rename: RenameAnswer,
    open: bool,
    stat: bool,
    create: bool,
    copied: Option<nat>,   // None: everything; Some(n): an error after at most n bytes
    closeTarget: bool,
    closeSource: bool,
    remove: bool,
    connect: bool,         // SFTP session
    closeSession: bool,
    check: bool,           // verdict of a ZIP validation, result of a command
    afterCommand: Fs)      // whatever an external command leaves behind

  predicate WellFormed(fs: Fs) {
    && (forall p :: p in fs.names ==> fs.names[p] in fs.data && fs.names[p] < fs.next)
    && (forall f :: f in fs.data ==> f < fs.next)
  }

  /** Two names of one file. */
  predicate SameFile(fs: Fs, p: Path, q: Path) {
    p in fs.names && q in fs.names && fs.names[p] == fs.names[q]
  }

  predicate Has(fs: Fs, p: Path, bytes: Bytes) {
    p in fs.names && fs.names[p] in fs.data && fs.data[fs.names[p]] == bytes
  }

  /** rename(2): nothing happens when both names already refer to the same file. */
  function AfterRename(fs: Fs, src: Path, dst: Path): Fs
    requires src in fs.names
  {
    if SameFile(fs, src, dst) then fs else fs.(names := (fs.names - {src})[dst := fs.names[src]])
  }

  /** open(2) with create and truncate. */
  function AfterTruncate(fs: Fs, p: Path): Fs {
    if p in fs.names then fs.(data := fs.data[fs.names[p] := []])
    else fs.(names := fs.names[p := fs.next], data := fs.data[fs.next := []], next := fs.next + 1)
  }

  function Written(source: Bytes, copied: Option<nat>): Bytes {
    if copied.Some? && copied.value < |source| then source[..copied.value] else source
  }

  function AfterCopy(fs: Fs, src: Path, dst: Path, copied: Option<nat>): Fs
    requires src in fs.names && dst in fs.names && fs.names[src] in fs.data
  {
    fs.(data := fs.data[fs.names[dst] := Written(fs.data[fs.names[src]], copied)])
  }

  function AfterRemove(fs: Fs, p: Path): Fs {
    fs.(names := fs.names - {p})
  }

  /** Copy of src over dst as the move action does it; the flag is true when no step failed. */
  function CopyOver(fs: Fs, src: Path, dst: Path, a: Answers): (Fs, bool)
    requires WellFormed(fs)
  {
    if src !in fs.names || !a.open || !a.stat || !a.create then (fs, false) else
      var t := AfterTruncate(fs, dst);
      (AfterCopy(t, src, dst, a.copied), a.copied.None? && a.closeTarget && a.closeSource)
  }

  /** The move action with its destination resolved. */
  function MoveFile(fs: Fs, src: Path, dst: Path, a: Answers): (Fs, bool)
    requires WellFormed(fs)
  {
    if !a.mkdir then (fs, false)
    else if src in fs.names && a.rename.Renamed? then (AfterRename(fs, src, dst), true)
    else if a.rename.OtherError? then (fs, false)
    else
      var (t, ok) := CopyOver(fs, src, dst, a);
      if ok && a.remove then (AfterRemove(t, src), true) else (t, false)
  }

  /** Upload over SFTP with its destination resolved, deleting the source only after a complete copy. */
  function Upload(fs: Fs, src: Path, dst: Remote, deleteSource: bool, a: Answers): (Fs, bool)
    requires WellFormed(fs)
  {
    if !a.connect || src !in fs.names || !a.open || !a.stat || !a.create then (fs, false) else
      var source := fs.data[fs.names[src]];
      var written := Written(source, a.copied);
      var t := fs.(remote := fs.remote[dst := written]);
      if a.copied.Some? || !a.closeTarget || |written| != |source| || !a.closeSource then (t, false)
      else if !deleteSource then (t, a.closeSession)
      else if a.remove then (AfterRemove(t, src), a.closeSession)
      else (t, false)
  }

  /** The bytes are where they were, at the destination, or both. */
  predicate Kept(fs: Fs, src: Path, dst: Path, bytes: Bytes) {
    Has(fs, src, bytes) || Has(fs, dst, bytes)
  }

  /**
    A move never loses the file, whatever fails, if and only if its destination is not another
    name of the source: then the fallback copy truncates the file it is about to read.
  */
  lemma {:induction false} MoveKeepsBytesUnlessAliased(fs: Fs, src: Path, dst: Path, bytes: Bytes, some: Answers)
    requires WellFormed(fs) && Has(fs, src, bytes) && bytes != []
    ensures (forall a :: Kept(MoveFile(fs, src, dst, a).0, src, dst, bytes)) <==> !SameFile(fs, src, dst)
  {
    if SameFile(fs, src, dst) {
      var a := some.(mkdir := true, rename := LinkError, open := true, stat := true, create := true, copied := None);
      assert !Kept(MoveFile(fs, src, dst, a).0, src, dst, bytes);
    }
  }

  /** Every step of the copy works. */
  predicate Copies(a: Answers) {
    a.open && a.stat && a.create && a.copied.None? && a.closeTarget && a.closeSource
  }

  /**
    A move succeeds exactly if the directory is there and the rename works, or fails with a link error
    and the whole copy and the removal work; then the bytes are at the destination, under any other
    name of the source unless they were copied, and the source is gone unless it was renamed onto
    itself. All other files are as they were.
  */
  lemma {:induction false} MoveSucceedsExactly(fs: Fs, src: Path, dst: Path, a: Answers)
    requires WellFormed(fs)
    ensures var (t, ok) := MoveFile(fs, src, dst, a);
      && (ok <==> src in fs.names && a.mkdir && (a.rename.Renamed? || (a.rename.LinkError? && Copies(a) && a.remove)))
      && (ok && !SameFile(fs, src, dst) ==> src !in t.names && Has(t, dst, fs.data[fs.names[src]]))
      && (ok && SameFile(fs, src, dst) && a.rename.Renamed? ==> t == fs)
      && (!ok && src in fs.names ==> src in t.names && t.names[src] == fs.names[src])
      && (forall p :: p in fs.names && p != src && p != dst ==> p in t.names && t.names[p] == fs.names[p])
      && (forall f :: f in fs.data && !(dst in fs.names && f == fs.names[dst]) ==>
            f in t.data && t.data[f] == fs.data[f])
      && t.remote == fs.remote
  {
  }

  /**
    An upload succeeds exactly if every step works, deleting included where it is asked for; then the
    remote file has the source's bytes, and the source is gone exactly if deleting was asked for. It is
    also gone where only closing the session failed. Nothing else changes on either side.
  */
  lemma {:induction false} UploadSucceedsExactly(fs: Fs, src: Path, dst: Remote, deleteSource: bool, a: Answers)
    requires WellFormed(fs)
    ensures var (t, ok) := Upload(fs, src, dst, deleteSource, a);
      var copied := a.connect && src in fs.names && Copies(a);
      && (ok <==> copied && (deleteSource ==> a.remove) && a.closeSession)
      && (copied ==> dst in t.remote && t.remote[dst] == fs.data[fs.names[src]])
      && t.names == (if copied && deleteSource && a.remove then fs.names - {src} else fs.names)
      && t.data == fs.data && t.remote - {dst} == fs.remote - {dst}
  {
  }

  class Volume {
    var fs: Fs

    constructor (fs: Fs)
      ensures this.fs == fs
    {
      this.fs := fs;
    }

    /** copyFile: the source is opened before the destination is truncated. */
    method CopyFile(src: Path, dst: Path, a: Answers) returns (ok: bool)
      requires WellFormed(fs)
      modifies this
      ensures (fs, ok) == CopyOver(old(fs), src, dst, a) && WellFormed(fs)
    {
      if src !in fs.names || !a.open {
        return false;
      }
      if !a.stat {
        return false;
      }
      if !a.create {
        return false;
      }
      fs := AfterTruncate(fs, dst);
      fs := AfterCopy(fs, src, dst, a.copied);
      ok := a.copied.None?;
      if !a.closeTarget {
        ok := false;
      }
      if !a.closeSource {
        ok := false;
      }
    }

    method Move(src: Path, dst: Path, a: Answers) returns (ok: bool)
      requires WellFormed(fs)
      modifies this
      ensures (fs, ok) == MoveFile(old(fs), src, dst, a) && WellFormed(fs)
    {
      if !a.mkdir {
        return false;
      }
      var answer := if src in fs.names then a.rename else if a.rename.Renamed? then LinkError else a.rename;
      if answer.Renamed? {
        fs := AfterRename(fs, src, dst);
        return true;
      }
      if !answer.LinkError? {
        return false;
      }
      var copied := CopyFile(src, dst, a);
      if !copied {
        return false;
      }
      if !a.remove {
        return false;
      }
      fs := AfterRemove(fs, src);
      return true;
    }

    /** uploadFile: both files are closed before it returns. */
    method UploadFile(src: Path, dst: Remote, a: Answers) returns (ok: bool)
      requires WellFormed(fs)
      modifies this
      ensures WellFormed(fs)
      ensures ok ==>
        && src in old(fs).names
        && fs == old(fs).(remote := old(fs).remote[dst := old(fs).data[old(fs).names[src]]])
      ensures (fs, ok) == Upload(old(fs), src, dst, false, a.(connect := true, closeSession := true))
    {
      if src !in fs.names || !a.open {
        return false;
      }
      if !a.stat {
        return false;
      }
      if !a.create {
        return false;
      }
      var source := fs.data[fs.names[src]];
      var written := Written(source, a.copied);
      fs := fs.(remote := fs.remote[dst := written]);
      ok := a.copied.None?;
      if !a.closeTarget {
        ok := false;
      }
      if ok && |written| != |source| {
        ok := false;
      }
      if !a.closeSource {
        ok := false;
      }
    }

    method Send(src: Path, dst: Remote, deleteSource: bool, a: Answers) returns (ok: bool)
      requires WellFormed(fs)
      modifies this
      ensures (fs, ok) == Upload(old(fs), src, dst, deleteSource, a) && WellFormed(fs)
    {
      if !a.connect {
        return false;
      }
      ok := UploadFile(src, dst, a);
      if ok && deleteSource {
        if a.remove {
          fs := AfterRemove(fs, src);
        } else {
          ok := false;
        }
      }
      if !a.closeSession {
        ok := false;
      }
    }
  }
}
