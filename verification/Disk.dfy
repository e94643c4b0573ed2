/** The four files an update touches, with every operation allowed to fail and the process allowed to
    stop after any of them. */
module Disk {
  import opened Basics

  /** The binary itself, and the same path with .new, .old and .failed appended. */
  datatype Path = Target | New | Old | Failed

  /** `Torn` is a file whose writing began and did not finish. */
  datatype Image = Whole(build: Bytes) | Torn

  type Files = map<Path, Image>

  datatype WriteFault = Written | CannotOpen | WriteFails

  function Remove(fs: Files, p: Path, ok: bool): Files {
    if ok then fs - {p} else fs
  }

  function RenameTo(fs: Files, from: Path, to: Path): Files
    requires from in fs
  {
    (fs - {from})[to := fs[from]]
  }

  /** The states a write passes through after the one it starts in. */
  function WriteStates(fs: Files, p: Path, blob: Bytes, f: WriteFault): seq<Files> {
    match f
    case CannotOpen => []
    case WriteFails => [fs[p := Torn]]
    case Written => [fs[p := Torn], fs[p := Whole(blob)]]
  }

  class Disk {
    var files: Files

    /** Every state so far, oldest first: what a stop of the process could leave behind. */
    ghost var trail: seq<Files>

    ghost predicate Valid()
      reads this
    {
      trail != [] && Last(trail) == files
    }

    constructor (files: Files)
      ensures Valid() && this.files == files && trail == [files]
    {
      this.files := files;
      trail := [files];
    }

    method WriteFile(p: Path, blob: Bytes, f: WriteFault) returns (ok: bool)
      requires Valid()
      modifies this
      ensures Valid() && ok == f.Written?
      ensures trail == old(trail) + WriteStates(old(files), p, blob, f)
    {
      if f.CannotOpen? {
        return false;
      }
      files := files[p := Torn];
      trail := trail + [files];
      ghost var torn := files;
      if f.WriteFails? {
        return false;
      }
      files := files[p := Whole(blob)];
      assert files == old(files)[p := Whole(blob)];
      trail := trail + [files];
      assert trail == old(trail) + [torn, files];
      ok := true;
    }

    method Unlink(p: Path, works: bool)
      requires Valid()
      modifies this
      ensures Valid() && files == Remove(old(files), p, works) && trail == old(trail) + [files]
    {
      if works {
        files := files - {p};
      }
      trail := trail + [files];
    }

    method Rename(from: Path, to: Path, works: bool) returns (ok: bool)
      requires Valid()
      modifies this
      ensures Valid() && ok == (works && from in old(files))
      ensures files == if ok then RenameTo(old(files), from, to) else old(files)
      ensures trail == if ok then old(trail) + [files] else old(trail)
    {
      ok := works && from in files;
      if ok {
        files := RenameTo(files, from, to);
        trail := trail + [files];
      }
    }
  }
}
