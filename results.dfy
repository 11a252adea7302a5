/** Optional values and the failures the recommender core can raise. */
module Results {

  datatype Option<+T> = None | Some(value: T)
  {
    function GetOr(default: T): T
    {
      match this
      case Some(v) => v
      case None => default
    }
  }

  /** The failures of the core.  The source raises them as Python exceptions:
      TitleNotFound is the IndexError of `.index[0]` on an empty selection,
      NeighbourOutOfRange the IndexError of `df.iloc[i]` on a neighbour position
      past the last row, and EmptyCatalog the TypeError of `set(0)` when the
      catalog has no rows. */
  datatype Error = TitleNotFound | NeighbourOutOfRange | EmptyCatalog

  datatype Result<+T> = Success(value: T) | Failure(error: Error)
}
