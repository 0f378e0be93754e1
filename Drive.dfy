/** The part of the cloud drive the organizer sees: drive items as snapshots
    read from a listing, the requests it sends, the exceptions it can meet,
    and the remote service itself as an oracle that answers each request. */
module Drive {
  import opened Wrappers

  /** A calendar date, already converted to local time. The ranges are those
      of a .NET `DateTime`. */
  type Year = y: int | 1 <= y <= 9999 witness 1
  type Month = m: int | 1 <= m <= 12 witness 1
  type Day = d: int | 1 <= d <= 31 witness 1
  datatype Date = Date(year: Year, month: Month, day: Day)

  /** The photo facet; it is present on photos and on videos. */
  datatype PhotoFacet = PhotoFacet(taken: Option<Date>)

  /** The folder facet; it is present only on folders. */
  datatype FolderFacet = FolderFacet(childCount: Option<int>)

  /** A drive item. `mimeType` is None when the file facet or its MIME type is null. */
  datatype DriveItem = DriveItem(
    id: string,
    name: string,
    mimeType: Option<string>,
    created: Option<Date>,
    photo: Option<PhotoFacet>,
    folder: Option<FolderFacet>)

  /** The source folder as returned by a request that expands its children. */
  datatype ExpandedFolder = ExpandedFolder(children: Option<seq<DriveItem>>, folder: Option<FolderFacet>)

  /** The body of an update request: only the fields the organizer sets. */
  datatype Patch =
    | FolderPatch                                // a new item whose only field is an empty folder facet
    | MovePatch(parentId: string, name: string)  // parent reference id and name, nothing else

  /** One observable effect of a run, in the order it happens. */
  datatype Effect =
    | ListChildren(path: string)               // get the folder at `path`, expanding its children
    | UpdateAtPath(path: string, patch: Patch) // update (or create) the item at `path`
    | UpdateItem(id: string, patch: Patch)     // update the item with id `id`
    | Delay(ms: nat)                           // wait before retrying

  /** What a remote request gives back: a value, or an exception with its message. */
  datatype Reply<+T> = Answered(value: T) | Threw(detail: string)

  /** The remote service. Each request is answered as a function of its
      position `t` in the run's effect trace and of its arguments, so any
      behaviour of the service, including one that changes over time, is a
      possible Remote. */
  datatype Remote = Remote(
    listChildren: (nat, string) -> Reply<ExpandedFolder>,
    updateAtPath: (nat, string, Patch) -> Reply<DriveItem>,
    updateItem: (nat, string, Patch) -> Reply<DriveItem>)

  /** The parameter named by an ArgumentNullException. */
  datatype Parameter =
    | Client  // the helper's constructor
    | Source  // the sequence given to a LINQ operator

  /** The exceptions the organizer can meet. */
  datatype Fault =
    | ArgumentNull(param: Parameter) // ArgumentNullException
    | NullReference                // a member access through a null reference
    | ArgumentOutOfRange           // Substring with a negative length
    | InvalidOperation             // `.Value` of an empty Nullable
    | ServiceError(detail: string) // an exception thrown by a remote request

  /** The result of a remote operation together with the effects it issued. */
  datatype Exchange<+T> = Exchange(effects: seq<Effect>, result: Result<T, Fault>)
}
