/** The outcome of every operation on a volume. */
module FatResult {
  datatype Error =
    // building the tree
    | BadName | Twice | FileNotDirectory
    // laying a volume out
    | Overflow | NoTable | WrongFormat | NoFsInfoRoom
    // filling it
    | Full | TooLarge | RootFull | RootMisplaced
    // opening one
    | NoBootSector | SectorSize | ZeroField | FixedRoot | NoDataRegion | TableTooSmall
    | RootOutside | FsInfoOutside
    // reading one
    | OutsideVolume | FreeInChain | BadInChain | LoopingChain
    | TooDeep | NoClusters | ClaimedTwice | ShortChain | IsDirectory | NoSignatures

  datatype Result<+T> = Ok(value: T) | Err(error: Error) {
    predicate IsFailure() { Err? }

    function PropagateFailure<U>(): Result<U>
      requires Err?
    {
      Err(error)
    }

    function Extract(): T
      requires Ok?
    {
      value
    }
  }
}
