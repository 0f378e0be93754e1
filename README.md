# OneDrive photo organizer, modelled in Dafny

The organizer sorts the files of one OneDrive folder (the "photos folder")
into dated folders. For each file, it classifies the MIME type as a photo, a
video or an unknown file. It picks a root bucket: `/Camera` for photos and
unknown files, `/Camera - Video` for videos. It appends the date the file
was taken, or else the date it was created, as `yyyy/MM/dd`. Then it asks the
drive to create that folder hierarchy and moves the file there. A move is
attempted up to three times (at most two retries), with a 3000 ms pause
between attempts. The
organizer works batch by batch. After each batch it lists the photos folder
again, and it stops when the new batch is empty or when as many files have
been moved as the folder reported at the start. The first exception stops
the run and reports the name of the item being handled.

The model has six modules:

- `Wrappers`: `Option` (null) and `Result` (a value or a thrown exception).
- `FileTypes`: the `FileType` enumeration.
- `Drive`: drive items, dates, the request patches, the exceptions
  (`Fault`), the effects a run issues, and the remote service as a `Remote`.
  A `Remote` is an oracle that answers each request as a function of the
  request's arguments and of its position in the run's effect trace. The
  proofs hold for any such answers, including exceptions and answers that
  change over time, but an answer is always an item or an exception: null
  answers are not modelled (see "Left out").
- `Text`: the .NET string operations used (`ToLower`, `IndexOf`), `Split`
  (used only to state the shape of paths), and zero-padded decimal
  formatting (`yyyy`, `MM`, `dd`).
- `OnedriveHelper`: the helper class. Its fields are read-only after
  construction, so it is a value. Listing, folder creation and moves return
  the effects they issued together with their result or exception.
- `Program`: classification, the destination path, and `Main`'s organizer
  loop as imperative methods. Each method returns the effects it issued and
  the moves it completed. Each loop is specified by a recursive predicate
  that fixes its trace exactly: `BatchOutcome` for the loop over a batch,
  `PassOutcome` for one repetition of the do-while loop, and `LoopOutcome`
  for the do-while loop. Uniqueness lemmas show that the service's answers
  admit exactly one trace, one list of moves and one outcome.

`GetFileType` throws on a MIME type that has no '/'. The code computes
`Substring(0, -1)`, which throws `ArgumentOutOfRangeException`; such a
type is not treated as Unknown. The model follows the code
(`Program.FileTypeNeedsSlash`).

## Model

| member | source | states |
|---|---|---|
| `Text.LowerChar` | Program.cs:100 | lower-casing one character leaves no ASCII capital, changes a character exactly when it is a capital A to Z, and maps a capital to the same letter in lower case |
| `Text.ToLowerLowers` | Program.cs:100 | `ToLower` keeps the length, leaves no ASCII capital, keeps every other character, and leaves a string unchanged exactly when it has no capital |
| `Text.IndexOf` | Program.cs:101 | the position of the first occurrence of the character, or -1 exactly when it does not occur |
| `Text.ZeroPadded` | Program.cs:86 | the `yyyy`/`MM`/`dd` field is exactly `width` decimal digits |
| `Text.ZeroPaddedRoundTrip` | Program.cs:92 | a number below 10^width is read back unchanged from its zero-padded digits |
| `OnedriveHelper.New` | OnedriveHelper.cs:17-21 | the constructor throws ArgumentNullException for the client exactly when the client is null; otherwise it keeps the client and the settings unchecked |
| `OnedriveHelper.NonFolders` | OnedriveHelper.cs:35 | the filter keeps only non-folder children, drawn from the listing |
| `OnedriveHelper.NonFoldersKeepsFiles` | OnedriveHelper.cs:35 | every child without a folder facet is kept |
| `OnedriveHelper.NonFoldersAppend` | OnedriveHelper.cs:35 | the filter distributes over concatenation, so the original order is kept |
| `OnedriveHelper.NonFoldersOfFiles` | OnedriveHelper.cs:35 | a listing of files only is returned unchanged |
| `OnedriveHelper.GetPhotos` | OnedriveHelper.cs:27-36 | one listing request for the configured path; a service exception, null children (ArgumentNullException) or a null folder facet (NullReferenceException) fail; otherwise it returns the non-folder children and the folder's unfiltered child count |
| `OnedriveHelper.CreateFolderHierarchy` | OnedriveHelper.cs:43-52 | exactly one update at the given path carrying only a folder facet; the service's answer or exception is returned unchanged, with no retry |
| `OnedriveHelper.MoveRequest` | OnedriveHelper.cs:62-69 | the move is an update of the item's own id whose payload names the destination's id as the new parent and keeps the item's name |
| `OnedriveHelper.MoveItem` | OnedriveHelper.cs:60-99 | 1 to 3 move attempts with a 3000 ms delay between two attempts and none after the last; every attempt before the last threw; success returns the last attempt's answer; failure means the third attempt threw, and its exception is rethrown |
| `OnedriveHelper.MoveOutcomeSucceeds` | OnedriveHelper.cs:74-95 | a move succeeds exactly when one of its three attempts is answered, and fails only with the service's exception |
| `OnedriveHelper.MoveOutcomeUnique` | OnedriveHelper.cs:74-95 | the service's answers fix the move's requests and result: two runs against the same answers issue the same requests and return the same result |
| `OnedriveHelper.AttemptsAndDelays` | OnedriveHelper.cs:72-95 | an alternating trace of attempts and delays has k attempts and k - 1 delays |
| `Program.GetFileType` | Program.cs:98-100 | a null MIME type throws a null reference |
| `Program.FileTypeNeedsSlash` | Program.cs:100-101 | classification throws (ArgumentOutOfRange) exactly when the MIME type has no '/' |
| `Program.FirstSlashAfter` | Program.cs:101 | the text before the first '/' equals a '/'-free word exactly when the text starts with that word followed by '/' |
| `Program.FileTypeByPrefix` | Program.cs:100-110 | Photo exactly when the lower-cased MIME type starts with "image/", Video exactly when it starts with "video/", Unknown exactly when it starts with neither |
| `Program.UpperCaseImageIsPhoto` | Program.cs:100-105 | "IMAGE/PNG" is a Photo: the comparison ignores case, in a culture that lowers A to Z to a to z |
| `Program.RootFolder` | Program.cs:75-83 | Video gives "/Camera - Video", Photo and Unknown give "/Camera", and every file type gives a non-empty root |
| `Program.RootIsBucket` | Program.cs:78-82 | each root is '/' followed by a bucket name that has no '/' |
| `Program.DateFolder` | Program.cs:85-93 | the taken date when the photo facet has one, otherwise the created date; a missing created date throws InvalidOperation even when a taken date exists |
| `Program.FormatDateReadsBack` | Program.cs:86-92 | `yyyy/MM/dd` is ten characters with '/' at positions 4 and 7, and its three digit fields read back as the year, month and day |
| `Program.GetNewFolderName` | Program.cs:71-96 | a classification exception comes first, then a missing created date; the path exists exactly when both succeed |
| `Program.DatedPathPieces` | Program.cs:95 | `/{bucket}/{yyyy}/{MM}/{dd}` splits on '/' into "", the bucket, and the three digit fields |
| `Program.DateDigits` | Program.cs:86 | the year, month and day digits read back as the date |
| `Program.FolderNameShape` | Program.cs:86-95 | the destination path splits on '/' into exactly five pieces: "", the bucket of the file type, 4 year digits, 2 month digits and 2 day digits, read back as the chosen date |
| `Program.TakenDateWins` | Program.cs:89-93 | when a taken date exists, changing the created date does not change the path |
| `Program.Below` | Program.cs:53 | `doneCount < totalItems` on a nullable total is false when the total is null, and otherwise the comparison of the count with the total |
| `Program.ProcessItem` | Program.cs:43-46 | an unclassifiable or undated item throws before any request; otherwise the folder request at its path comes first; if it throws, that is the only request and its exception is the item's; if it is answered, the rest of the trace is MoveItem's trace for that folder, started one step later, and the move's answer or exception is the item's |
| `Program.PlaceItem` | Program.cs:45-46 | the folder request comes first; a thrown folder request ends the item with that exception; an answered one is followed by exactly MoveItem's trace to the answered folder, and success records the folder, the move's answer and the positions of both |
| `Program.ItemSucceeds` | Program.cs:44-46 | an item is moved exactly when its path exists, its folder request is answered and one of the three move attempts to that folder is answered; any other failure after the path is the service's exception |
| `Program.PlaceOutcomeUnique` | Program.cs:45-46 | the service's answers fix the folder request and move of an item: one trace and one result |
| `Program.ItemOutcomeUnique` | Program.cs:44-46 | the service's answers fix the requests and the result of one pass of the loop body |
| `Program.ItemRequests` | Program.cs:44-46 | one item issues at most six requests: the folder request for its destination path first, then only moves of the item into the folder the service answered, and retry delays; a moved item was placed by the first and the last of them |
| `Program.ItemMoveAnswered` | Program.cs:43-46 | a moved item is the child itself; its folder request and its move stand in its trace at the recorded positions, answered by the service with the recorded folder and item, and the move is its last request |
| `OnedriveHelper.MoveOutcomeLast` | OnedriveHelper.cs:74-98 | a move that succeeds ends with the attempt the service answered, and returns that answer |
| `Program.ItemStepDeterministic` | Program.cs:43-46 | the loop body leaves each child, started at a given time, one trace and one result |
| `Program.ItemStepAnswered` | Program.cs:43-46 | every move completed by the loop body is its child's and is answered in its trace |
| `Program.AnswersOfInTrace` | Program.cs:41-52 | a move answered in a prefix of the run's trace, or in a suffix numbered from where it starts, is answered in the whole trace |
| `Program.BatchEnds` | Program.cs:41-50 | the loop over a batch ends with an exception exactly when fewer children were moved than the batch holds; an empty batch issues no request; a batch moved whole ends with its last child's move |
| `Program.BatchMovesAnswered` | Program.cs:41-48 | the i-th completed move of a batch is the move of its i-th child, answered by the service in the batch's trace |
| `Program.BatchOutcomeUnique` | Program.cs:41-50 | the service's answers fix the batch's trace, its moves and its exception |
| `Program.MoveBatch` | Program.cs:41-50 | the foreach loop: its requests and moves extend the run's and are exactly `BatchOutcome`: the children in listing order, each child's requests right after the previous child's, each child moved before the next is taken up, the first exception ending the batch with that child's trace; the in-flight name is the child that threw, or else the last child of the batch (unchanged for an empty batch) |
| `Program.AfterListing` | Program.cs:52-53 | the do-while condition on the re-listing: a listing exception ends the run as Failed with the in-flight name; the loop repeats exactly when the listing succeeded with files and the count is below the total (never with a null total), with those files as the next batch; otherwise the run completes with the count and the total |
| `Program.PassLengthIs` | Program.cs:41-52 | a repetition that moves its whole batch issues exactly the batch's requests and one listing |
| `Program.PassThrows` | Program.cs:41-50 | a repetition whose batch throws stops the run as Failed, naming the child that threw |
| `Program.PassListed` | Program.cs:50-53 | a repetition whose batch is moved whole lists the photos folder right after it, and the loop condition on that listing decides how it ends |
| `Program.PassOutcomeUnique` | Program.cs:39-53 | the service's answers fix one repetition's trace, moves and end |
| `Program.PassMovesAnswered` | Program.cs:41-48 | the i-th completed move of a repetition is that of the i-th child of its batch, answered in its trace |
| `Program.PassShaped` | Program.cs:39-53 | a repetition that moves fewer than its batch stops the run; one that moves its whole batch ends as the re-listing at its last request decides |
| `Program.LoopOfShaped` | Program.cs:39-53 | every repetition of the loop over the service has that shape |
| `Program.LoopOfCounts` | Program.cs:36-53 | no repetition reports "no items", and one that completes the run counts the earlier moves and its own against the total |
| `Program.LoopOfDeterministic` | Program.cs:39-53 | the repetitions of the loop over the service are deterministic |
| `Program.LoopOfAnswered` | Program.cs:41-48 | every move a repetition of the loop over the service completes is answered in its trace |
| `Program.LoopStops` | Program.cs:53 | a repetition that stops the run is the whole rest of the loop |
| `Program.LoopRepeats` | Program.cs:39-53 | a repetition that repeats, followed by the loop from the new batch right after it, is the loop |
| `Program.LoopFirstPass` | Program.cs:39-53 | every loop begins with one repetition; if it stops, it is the whole loop; if it repeats, the rest is the loop from the new batch, right after its requests and moves |
| `Program.LoopCompleted` | Program.cs:36-53 | the loop never reports "no items", and a completed loop counts every move it made on top of the earlier ones, against the total |
| `Program.LoopMovesAnswered` | Program.cs:41-53 | every completed move of the loop is answered in the loop's trace |
| `Program.LoopOutcomeUnique` | Program.cs:39-53 | with deterministic repetitions, the loop has exactly one trace, one list of moves and one outcome |
| `Program.Repeat` | Program.cs:39-53 | one repetition of the do-while loop: its requests and moves extend the run's and are exactly `PassOutcome`: the batch is moved, then the photos folder is listed once more as the last request, and `AfterListing` on that answer decides; an item exception stops it without a listing, naming the child that threw; a repeat has moved the whole batch, has a non-empty next batch and a count below the total |
| `Program.RepeatListed` | Program.cs:52-53 | after a batch moved whole, the one re-listing and the decision on it complete the repetition |
| `Program.OrganizeLoop` | Program.cs:36-53 | with an unbounded count (see Left out), the do-while loop terminates for any answers of the service; its requests extend the first listing's and are exactly `LoopOutcome`: repetitions one after another without a gap, each starting with the count and in-flight name the previous left, until one stops the run |
| `Program.Organize` | Program.cs:21-60 | a null client fails before any request; the run begins by listing the photos folder; a failing first listing ends the run with that request only; the run reports "no items" exactly when the first listing reports a total of 0, and then creates no folder and moves nothing; otherwise the loop runs on the first listing's files and total, right after it |
| `Program.RunUnique` | Program.cs:36-53 | the service's answers fix a run's loop: one trace, one list of moves, one outcome |
| `Program.RunMovesAnswered` | Program.cs:36-53 | every move of a run was answered by the service at its recorded positions, with its own folder and move requests; a run's loop never reports "no items"; a completed run counts every move and reports the total |

## Left out

- Authentication (AuthenticationHelper.cs): token acquisition and the Graph client are foreign library calls; the client is a parameter of `Program.Organize`.
- Configuration loading (`LoadConfiguration`, AppSettings.cs): the settings are a parameter; only the photos folder path is modelled.
- Console output: progress lines and the report of the failing item are not modelled; the report is the `Failed` outcome and its item name.
- Asynchrony and real time: each awaited call is one step of the effect trace, and `Task.Delay(3000)` is a `Delay(3000)` effect.
- The service's semantics: whether an update at a path creates or overwrites folders, paging of the expanded children, and whether moved items leave the listing are not modelled. The remote is an arbitrary oracle.
- Time zones: dates are taken as already local, and the date separator is a literal '/' rather than the culture's.
- Case conversion: `ToLower` is culture-sensitive; the model assumes a culture that maps exactly A to Z to a to z and leaves every other character alone. Under a Turkish culture "IMAGE/PNG" lowers to "ımage/png" (dotless ı) and is Unknown, so `Program.UpperCaseImageIsPhoto` and `Program.FileTypeByPrefix` hold only under that assumption.
- Null ids and names are not modelled; an item's id and name are strings.
- Calendar validity: a day is 1 to 31 whatever the month.
- Program.OrganizeLoop: the moved-items count is an unbounded integer, while the source's `doneCount` (Program.cs:36, 48) is a 32-bit `int` whose increment wraps after 2^31 - 1 moves; the wrap is not modelled, and the loop's termination for any answers of the service holds only for runs below that count.
- Null answers: the service answers every request with an item or an exception. A null folder from the folder request would throw a NullReferenceException at `newFolderPath.Id` (OnedriveHelper.cs:66), and a null child in a listing would throw one at `c.Folder` (OnedriveHelper.cs:35); neither is modelled. `Program.ItemSucceeds` (any failure after the path is the service's exception) relies on this.
