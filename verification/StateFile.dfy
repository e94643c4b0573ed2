/** One file in the relay's state directory, written with os.WriteFile. */
module StateFile {

  /** `Garbled` is what a torn write leaves: bytes that no longer parse. */
  datatype StateFile<T> = Absent | Garbled | Holds(value: T)

  /** os.WriteFile truncates before it writes, so a failure may leave the old file or a torn one. */
  datatype FileWrite = Written | TornWrite | NothingWritten

  /** A relay without a state directory writes nothing and calls that success. */
  predicate SaveWorks(hasDir: bool, mkdirOk: bool, write: FileWrite) {
    !hasDir || (mkdirOk && write.Written?)
  }

  function Saved<T>(hasDir: bool, file: StateFile<T>, value: T, mkdirOk: bool, write: FileWrite): StateFile<T> {
    if !hasDir || !mkdirOk || write.NothingWritten? then file
    else if write.Written? then Holds(value) else Garbled
  }

  /** A save that reports success has put exactly the value in the file, when there is a directory for one; one that
      reports failure has left the file as it was, or garbled it. */
  lemma SavedExactly<T>(hasDir: bool, file: StateFile<T>, value: T, mkdirOk: bool, write: FileWrite)
    ensures var after, ok := Saved(hasDir, file, value, mkdirOk, write), SaveWorks(hasDir, mkdirOk, write);
            && (hasDir ==> (ok <==> mkdirOk && write == Written)) && (!hasDir ==> ok && after == file)
            && (hasDir && ok ==> after == Holds(value))
            && (!ok ==> after == if mkdirOk && write == TornWrite then Garbled else file)
  {}
}
