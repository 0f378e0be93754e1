/** The organizer: classification of a drive item, its destination folder
    path, and the main loop that moves every file of the photos folder into
    that path. */
module Program {
  import opened Wrappers
  import opened Text
  import opened Drive
  import opened FileTypes
  import opened OnedriveHelper

  // ---------------------------------------------------------------------
  // Classification and destination path
  // ---------------------------------------------------------------------

  /** GetFileType: the lower-cased MIME type up to its first '/' decides. A
      null file facet or MIME type, and a MIME type without '/', throw. */
  function GetFileType(item: DriveItem): (r: Result<FileType, Fault>)
    ensures item.mimeType.None? ==> r == Failure(NullReference)
  {
    match item.mimeType
    case None => Failure(NullReference)
    case Some(m) =>
      var mimeType := ToLower(m);
      var slash := IndexOf(mimeType, '/');
      if slash < 0 then Failure(ArgumentOutOfRange)
      else
        var typeOfFile := mimeType[..slash];
        if typeOfFile == "image" then Success(Photo)
        else if typeOfFile == "video" then Success(Video)
        else Success(Unknown)
  }

  /** A MIME type without '/' is not classified as Unknown: it throws. */
  lemma FileTypeNeedsSlash(item: DriveItem, m: string)
    requires item.mimeType == Some(m)
    ensures GetFileType(item).Failure? <==> '/' !in m
    ensures GetFileType(item).Failure? ==> GetFileType(item).error == ArgumentOutOfRange
  {
    var lower := ToLower(m);
    if '/' in m {
      var i :| 0 <= i < |m| && m[i] == '/';
      assert lower[i] == '/';
    }
  }

  predicate StartsWith(s: string, prefix: string) {
    |prefix| <= |s| && s[..|prefix|] == prefix
  }

  /** The first '/' of a string that starts with `word + "/"`, where `word`
      has no '/', is right after `word`. */
  lemma FirstSlashAfter(s: string, word: string)
    requires '/' !in word
    ensures StartsWith(s, word + "/") ==> IndexOf(s, '/') == |word|
    ensures 0 <= IndexOf(s, '/') && s[..IndexOf(s, '/')] == word ==> StartsWith(s, word + "/")
  {
    var k := IndexOf(s, '/');
    if StartsWith(s, word + "/") {
      assert s[|word|] == (word + "/")[|word|] == '/';
      assert forall i :: 0 <= i < |word| ==> s[i] == word[i];
    }
    if 0 <= k && s[..k] == word {
      assert s[..|word| + 1] == s[..k] + [s[k]];
    }
  }

  /** GetFileType is a case-insensitive test of the MIME type's prefix:
      "image/" gives Photo, "video/" gives Video, anything else Unknown. */
  lemma FileTypeByPrefix(item: DriveItem, m: string)
    requires item.mimeType == Some(m) && '/' in m
    ensures GetFileType(item) == Success(Photo) <==> StartsWith(ToLower(m), "image/")
    ensures GetFileType(item) == Success(Video) <==> StartsWith(ToLower(m), "video/")
    ensures GetFileType(item) == Success(Unknown) <==>
              !StartsWith(ToLower(m), "image/") && !StartsWith(ToLower(m), "video/")
  {
    FileTypeNeedsSlash(item, m);
    var lower := ToLower(m);
    var k := IndexOf(lower, '/');
    assert GetFileType(item) == if lower[..k] == "image" then Success(Photo)
                                else if lower[..k] == "video" then Success(Video)
                                else Success(Unknown);
    assert "image" + "/" == "image/" && "video" + "/" == "video/";
    FirstSlashAfter(lower, "image");
    FirstSlashAfter(lower, "video");
  }

  /** An upper-case MIME type is classified like its lower-case form. */
  lemma UpperCaseImageIsPhoto(item: DriveItem)
    requires item.mimeType == Some("IMAGE/PNG")
    ensures GetFileType(item) == Success(Photo)
  {
    var lower := ToLower("IMAGE/PNG");
    assert lower[..5] == "image" by {
      forall i | 0 <= i < 5
        ensures lower[i] == "image"[i]
      {
      }
    }
    assert lower[5] == '/';
    var k := IndexOf(lower, '/');
    assert k == 5 by {
      assert '/' in lower[..6];
      assert '/' !in lower[..5];
    }
  }

  /** The root bucket of a file type: videos apart, photos and unknown files
      together. Every file type has one, so the initial empty root never
      survives. */
  function RootFolder(fileType: FileType): (root: string)
    ensures |root| > 0
    ensures root == "/Camera - Video" <==> fileType == Video
    ensures root == "/Camera" <==> fileType != Video
  {
    var root := if fileType.Photo? || fileType.Unknown? then "/Camera" else "";
    if fileType.Video? then "/Camera - Video" else root
  }

  /** The name of a root bucket, without its leading '/'. */
  function BucketName(fileType: FileType): string {
    if fileType == Video then "Camera - Video" else "Camera"
  }

  /** The root folder is a '/' followed by the bucket name. */
  lemma RootIsBucket(fileType: FileType)
    ensures RootFolder(fileType) == "/" + BucketName(fileType)
    ensures '/' !in BucketName(fileType)
  {
    assert "/" + "Camera - Video" == "/Camera - Video";
    assert "/" + "Camera" == "/Camera";
  }

  /** The date a file is filed under: the taken date when the photo facet
      has one, otherwise the created date. The created date is read first,
      so an item without one throws even when it has a taken date. */
  function DateFolder(item: DriveItem): (r: Result<Date, Fault>)
    ensures r.Failure? <==> item.created.None?
    ensures r.Failure? ==> r.error == InvalidOperation
    ensures r.Success? && item.photo.Some? && item.photo.value.taken.Some? ==> r.value == item.photo.value.taken.value
    ensures r.Success? && (item.photo.None? || item.photo.value.taken.None?) ==> r.value == item.created.value
  {
    match item.created
    case None => Failure(InvalidOperation)
    case Some(created) =>
      if item.photo.Some? && item.photo.value.taken.Some? then Success(item.photo.value.taken.value)
      else Success(created)
  }

  /** `yyyy/MM/dd` with a literal '/'. */
  function FormatDate(d: Date): string {
    ZeroPadded(d.year, 4) + "/" + ZeroPadded(d.month, 2) + "/" + ZeroPadded(d.day, 2)
  }

  /** The formatted date is ten characters: four year digits, '/', two
      month digits, '/', two day digits, and the digits read back as the
      date. */
  lemma FormatDateReadsBack(d: Date)
    ensures var s := FormatDate(d);
      && |s| == 10 && s[4] == '/' && s[7] == '/'
      && AllDigits(s[..4]) && AllDigits(s[5..7]) && AllDigits(s[8..])
      && DigitsValue(s[..4]) == d.year && DigitsValue(s[5..7]) == d.month && DigitsValue(s[8..]) == d.day
  {
    var s := FormatDate(d);
    var yyyy, mm, dd := ZeroPadded(d.year, 4), ZeroPadded(d.month, 2), ZeroPadded(d.day, 2);
    assert s[..4] == yyyy && s[5..7] == mm && s[8..] == dd;
    DateDigits(d);
  }

  /** GetNewFolderName: `{root}/{yyyy}/{MM}/{dd}`. A failure to classify
      comes before a missing created date. */
  function GetNewFolderName(item: DriveItem): (r: Result<string, Fault>)
    ensures GetFileType(item).Failure? ==> r == Failure(GetFileType(item).error)
    ensures GetFileType(item).Success? && item.created.None? ==> r == Failure(InvalidOperation)
    ensures r.Success? <==> GetFileType(item).Success? && item.created.Some?
  {
    match GetFileType(item)
    case Failure(e) => Failure(e)
    case Success(fileType) =>
      var rootFolder := RootFolder(fileType);
      match DateFolder(item)
      case Failure(e) => Failure(e)
      case Success(date) => Success(rootFolder + "/" + FormatDate(date))
  }

  /** A path of four '/'-free pieces, each after a '/', splits back into an
      empty piece and those four. */
  lemma SplitPath(a: string, b: string, c: string, d: string)
    requires '/' !in a && '/' !in b && '/' !in c && '/' !in d
    ensures Split("/" + a + "/" + b + "/" + c + "/" + d, '/') == ["", a, b, c, d]
  {
    var p1, p2, p3 := "/" + a, "/" + a + "/" + b, "/" + a + "/" + b + "/" + c;
    assert p1 == [] + ['/'] + a;
    SplitBeforePiece([], '/', a);
    assert Split(p1, '/') == ["", a];
    SplitBeforePiece(p1, '/', b);
    assert Split(p2, '/') == ["", a, b];
    SplitBeforePiece(p2, '/', c);
    assert Split(p3, '/') == ["", a, b, c];
    SplitBeforePiece(p3, '/', d);
  }

  /** A bucket name without '/' followed by a formatted date splits on '/'
      into an empty piece, the name, and the zero-padded year, month and day. */
  lemma DatedPathPieces(name: string, date: Date)
    requires '/' !in name
    ensures Split("/" + name + "/" + FormatDate(date), '/') ==
              ["", name, ZeroPadded(date.year, 4), ZeroPadded(date.month, 2), ZeroPadded(date.day, 2)]
  {
    var yyyy, mm, dd := ZeroPadded(date.year, 4), ZeroPadded(date.month, 2), ZeroPadded(date.day, 2);
    assert '/' !in yyyy && '/' !in mm && '/' !in dd;
    var q := "/" + name + "/";
    assert q + (yyyy + "/") == q + yyyy + "/";
    assert q + (yyyy + "/" + mm) == q + yyyy + "/" + mm;
    assert q + (yyyy + "/" + mm + "/") == q + yyyy + "/" + mm + "/";
    assert q + (yyyy + "/" + mm + "/" + dd) == q + yyyy + "/" + mm + "/" + dd;
    SplitPath(name, yyyy, mm, dd);
  }

  /** The zero-padded year, month and day read back as the date. */
  lemma DateDigits(date: Date)
    ensures DigitsValue(ZeroPadded(date.year, 4)) == date.year
    ensures DigitsValue(ZeroPadded(date.month, 2)) == date.month
    ensures DigitsValue(ZeroPadded(date.day, 2)) == date.day
  {
    ZeroPaddedRoundTrip(date.year, 4);
    ZeroPaddedRoundTrip(date.month, 2);
    ZeroPaddedRoundTrip(date.day, 2);
  }

  /** The destination path splits on '/' into exactly five pieces: an empty
      one, the bucket name, a four-digit year, a two-digit month and a
      two-digit day, and the digits read back as the date that was chosen. */
  lemma FolderNameShape(item: DriveItem)
    requires GetNewFolderName(item).Success?
    ensures
      var parts := Split(GetNewFolderName(item).value, '/');
      var date := DateFolder(item).value;
      && |parts| == 5
      && parts[0] == ""
      && parts[1] == BucketName(GetFileType(item).value)
      && |parts[2]| == 4 && |parts[3]| == 2 && |parts[4]| == 2
      && AllDigits(parts[2]) && AllDigits(parts[3]) && AllDigits(parts[4])
      && DigitsValue(parts[2]) == date.year
      && DigitsValue(parts[3]) == date.month
      && DigitsValue(parts[4]) == date.day
  {
    var name := BucketName(GetFileType(item).value);
    RootIsBucket(GetFileType(item).value);
    var date := DateFolder(item).value;
    assert GetNewFolderName(item).value == "/" + name + "/" + FormatDate(date);
    DatedPathPieces(name, date);
    DateDigits(date);
  }

  /** The taken date decides whatever the created date is. */
  lemma TakenDateWins(item: DriveItem, otherCreated: Date)
    requires item.photo.Some? && item.photo.value.taken.Some? && item.created.Some?
    ensures GetNewFolderName(item.(created := Some(otherCreated))) == GetNewFolderName(item)
  {
  }

  // ---------------------------------------------------------------------
  // The organizer loop
  // ---------------------------------------------------------------------

  /** A completed move: the item, its destination path, the folder the path
      resolved to, the item as the move returned it, and the positions in
      the run's effects of the folder request and of the answered move. */
  datatype Placement = Placement(item: DriveItem, path: string, folder: DriveItem, moved: DriveItem, folderAt: nat, moveAt: nat)

  /** How a run ends. */
  datatype Outcome =
    | NoItems                                   // the first listing reported no children
    | Completed(done: nat, total: Option<int>)  // the loop ended normally
    | Failed(currentItem: string, fault: Fault) // an exception stopped the run

  /** `doneCount < totalItems` on a nullable total: a lifted comparison,
      false when the total is null. */
  function Below(done: int, total: Option<int>): (below: bool)
    ensures total.None? ==> !below
    ensures total.Some? ==> (below <==> done < total.value)
  {
    total.Some? && done < total.value
  }

  /** The folder request and the move of `child` to the destination `path`,
      started at time `t`, as the service's answers fix them: the folder is
      requested first; an exception there is thrown on before any move;
      otherwise the item is moved into the folder the service answered, and
      the move's answer or exception is the item's. */
  predicate PlaceOutcome(h: Helper, child: DriveItem, path: string, t: nat, effects: seq<Effect>, r: Result<Placement, Fault>) {
    && |effects| >= 1 && effects[0] == UpdateAtPath(path, FolderPatch)
    && match h.client.updateAtPath(t, path, FolderPatch)
       case Threw(detail) => |effects| == 1 && r == Failure(ServiceError(detail))
       case Answered(folder) =>
         && (r.Success? ==>
               && r.value == Placement(child, path, folder, r.value.moved, t, t + |effects| - 1)
               && MoveOutcome(h, child, folder, t + 1, effects[1..], Success(r.value.moved)))
         && (r.Failure? ==> MoveOutcome(h, child, folder, t + 1, effects[1..], Failure(r.error)))
  }

  /** The body of the loop over a batch for `child`, started at time `t`:
      its destination path is computed first, and an exception there is
      thrown on before any request. */
  predicate ItemOutcome(h: Helper, child: DriveItem, t: nat, effects: seq<Effect>, r: Result<Placement, Fault>) {
    && (GetNewFolderName(child).Failure? ==> effects == [] && r == Failure(GetNewFolderName(child).error))
    && (GetNewFolderName(child).Success? ==> PlaceOutcome(h, child, GetNewFolderName(child).value, t, effects, r))
  }

  /** An item is moved exactly when its destination path exists, the folder
      request is answered, and one of the three move attempts to that folder
      is answered; any other exception is the service's. */
  lemma ItemSucceeds(h: Helper, child: DriveItem, t: nat, effects: seq<Effect>, r: Result<Placement, Fault>)
    requires ItemOutcome(h, child, t, effects, r)
    ensures r.Success? <==>
              && GetNewFolderName(child).Success?
              && h.client.updateAtPath(t, GetNewFolderName(child).value, FolderPatch).Answered?
              && SomeAttemptAnswers(h, child, h.client.updateAtPath(t, GetNewFolderName(child).value, FolderPatch).value, t + 1)
    ensures r.Failure? && GetNewFolderName(child).Success? ==> r.error.ServiceError?
  {
    if GetNewFolderName(child).Success? {
      var path := GetNewFolderName(child).value;
      if h.client.updateAtPath(t, path, FolderPatch).Answered? {
        var folder := h.client.updateAtPath(t, path, FolderPatch).value;
        var m := if r.Success? then Success(r.value.moved) else Failure(r.error);
        MoveOutcomeSucceeds(h, child, folder, t + 1, effects[1..], m);
      }
    }
  }

  /** The service's answers leave the folder request and the move of an
      item exactly one trace and one result. */
  lemma PlaceOutcomeUnique(h: Helper, child: DriveItem, path: string, t: nat,
                           e1: seq<Effect>, r1: Result<Placement, Fault>, e2: seq<Effect>, r2: Result<Placement, Fault>)
    requires PlaceOutcome(h, child, path, t, e1, r1) && PlaceOutcome(h, child, path, t, e2, r2)
    ensures e1 == e2 && r1 == r2
  {
    if h.client.updateAtPath(t, path, FolderPatch).Answered? {
      var folder := h.client.updateAtPath(t, path, FolderPatch).value;
      var m1 := if r1.Success? then Success(r1.value.moved) else Failure(r1.error);
      var m2 := if r2.Success? then Success(r2.value.moved) else Failure(r2.error);
      MoveOutcomeUnique(h, child, folder, t + 1, e1[1..], m1, e2[1..], m2);
      assert e1 == [e1[0]] + e1[1..];
      assert e2 == [e2[0]] + e2[1..];
    }
  }

  /** The service's answers leave an item exactly one trace and one result. */
  lemma ItemOutcomeUnique(h: Helper, child: DriveItem, t: nat,
                          e1: seq<Effect>, r1: Result<Placement, Fault>, e2: seq<Effect>, r2: Result<Placement, Fault>)
    requires ItemOutcome(h, child, t, e1, r1) && ItemOutcome(h, child, t, e2, r2)
    ensures e1 == e2 && r1 == r2
  {
    var path := GetNewFolderName(child);
    if path.Success? {
      PlaceOutcomeUnique(h, child, path.value, t, e1, r1, e2, r2);
    }
  }

  /** The folder the service answered to the folder request for `child`'s
      destination path at time `t`, or None when the path or the request
      threw. */
  function AnsweredFolder(h: Helper, child: DriveItem, t: nat): Option<DriveItem> {
    match GetNewFolderName(child)
    case Failure(_) => None
    case Success(path) =>
      match h.client.updateAtPath(t, path, FolderPatch)
      case Threw(_) => None
      case Answered(folder) => Some(folder)
  }

  /** `e` is a move of `item` into `folder`, or a retry delay. */
  predicate MoveIssuedFor(e: Effect, item: DriveItem, folder: DriveItem) {
    e == MoveRequest(item, folder) || e == Delay(RetryDelayMs)
  }

  /** The requests for one item, at most six, all serve it: the folder for
      its destination path first, then only moves of the item into the
      folder the service answered, and retry delays; a moved item was
      placed by the first and the last of them. */
  lemma ItemRequests(h: Helper, child: DriveItem, t: nat, effects: seq<Effect>, r: Result<Placement, Fault>)
    requires ItemOutcome(h, child, t, effects, r)
    ensures |effects| <= 2 * MaxAttempts
    ensures effects != [] ==>
              GetNewFolderName(child).Success? && effects[0] == UpdateAtPath(GetNewFolderName(child).value, FolderPatch)
    ensures |effects| >= 2 ==>
              && AnsweredFolder(h, child, t).Some?
              && forall i :: 1 <= i < |effects| ==> MoveIssuedFor(effects[i], child, AnsweredFolder(h, child, t).value)
    ensures r.Success? ==> r.value.item == child && r.value.folderAt == t && r.value.moveAt + 1 == t + |effects| && |effects| >= 2
  {
    if GetNewFolderName(child).Success? {
      var path := GetNewFolderName(child).value;
      if h.client.updateAtPath(t, path, FolderPatch).Answered? {
        var folder := h.client.updateAtPath(t, path, FolderPatch).value;
        var rest := effects[1..];
        forall i | 1 <= i < |effects|
          ensures MoveIssuedFor(effects[i], child, folder)
        {
          assert effects[i] == rest[i - 1];
        }
      }
    }
  }

  /** The body of the loop over a batch, for one child started at time `t`:
      its destination path, then the folder hierarchy, then the move. */
  method ProcessItem(h: Helper, child: DriveItem, t: nat) returns (r: Result<Placement, Fault>, effects: seq<Effect>)
    ensures ItemOutcome(h, child, t, effects, r)
  {
    var newFolder := GetNewFolderName(child);
    if newFolder.Failure? {
      r, effects := Failure(newFolder.error), [];
    } else {
      r, effects := PlaceItem(h, child, newFolder.value, t);
    }
  }

  /** The folder creation and the move of one child, to the destination
      path `path`, started at time `t`. */
  method PlaceItem(h: Helper, child: DriveItem, path: string, t: nat) returns (r: Result<Placement, Fault>, effects: seq<Effect>)
    ensures PlaceOutcome(h, child, path, t, effects, r)
  {
    var folderRef := CreateFolderHierarchy(h, path, t);
    if folderRef.result.Failure? {
      r, effects := Failure(folderRef.result.error), folderRef.effects;
    } else {
      var folder := folderRef.result.value;
      var moved, moveEffects := MoveItem(h, child, folder, t + 1);
      effects := folderRef.effects + moveEffects;
      assert effects[1..] == moveEffects;
      if moved.Failure? {
        r := Failure(moved.error);
      } else {
        r := Success(Placement(child, path, folder, moved.value, t, t + |effects| - 1));
      }
    }
  }

  /** The name of the last child of a batch, or `cur` when the batch is
      empty: the in-flight name once the loop over the batch is done. */
  function LastNameOr(batch: seq<DriveItem>, cur: string): string {
    if batch == [] then cur else batch[|batch| - 1].name
  }

  /** The completed move `pl` stands in `effects`, numbered from `t`, as the
      service answered it: the folder for the item's destination path was
      requested at `folderAt` and answered with `folder`, and the move into
      that folder was requested at `moveAt` and answered with `moved`. */
  predicate MoveAnswered(h: Helper, t: nat, effects: seq<Effect>, pl: Placement) {
    && t <= pl.folderAt < pl.moveAt < t + |effects|
    && GetNewFolderName(pl.item) == Success(pl.path)
    && effects[pl.folderAt - t] == UpdateAtPath(pl.path, FolderPatch)
    && h.client.updateAtPath(pl.folderAt, pl.path, FolderPatch) == Answered(pl.folder)
    && effects[pl.moveAt - t] == MoveRequest(pl.item, pl.folder)
    && h.client.updateItem(pl.moveAt, pl.item.id, MovePatch(pl.folder.id, pl.item.name)) == Answered(pl.moved)
  }

  /** A moved item was moved by its own answered folder request and its
      own answered move, the last of its requests. */
  lemma ItemMoveAnswered(h: Helper, child: DriveItem, t: nat, effects: seq<Effect>, pl: Placement)
    requires ItemOutcome(h, child, t, effects, Success(pl))
    ensures pl.item == child && MoveAnswered(h, t, effects, pl)
  {
    var moves := effects[1..];
    MoveOutcomeLast(h, child, pl.folder, t + 1, moves, pl.moved, pl.moveAt);
    assert effects[pl.moveAt - t] == moves[|moves| - 1];
  }

  /** A move answered in a prefix of a trace is answered in the trace. */
  lemma MoveAnsweredPrefix(h: Helper, t: nat, effects: seq<Effect>, n: nat, pl: Placement)
    requires n <= |effects| && MoveAnswered(h, t, effects[..n], pl)
    ensures MoveAnswered(h, t, effects, pl)
  {
    assert effects[..n][pl.folderAt - t] == effects[pl.folderAt - t];
    assert effects[..n][pl.moveAt - t] == effects[pl.moveAt - t];
  }

  /** A move answered in a suffix of a trace, numbered from where the
      suffix starts, is answered in the whole trace. */
  lemma MoveAnsweredSuffix(h: Helper, t: nat, effects: seq<Effect>, n: nat, t': nat, pl: Placement)
    requires n <= |effects| && t' == t + n && MoveAnswered(h, t', effects[n..], pl)
    ensures MoveAnswered(h, t, effects, pl)
  {
    assert effects[n..][pl.folderAt - t'] == effects[pl.folderAt - t];
    assert effects[n..][pl.moveAt - t'] == effects[pl.moveAt - t];
  }

  // ---------------------------------------------------------------------
  // One batch
  // ---------------------------------------------------------------------

  // The loops below are specified over relations (`ItemStep`, `Service`,
  // `Loop`) rather than over the helper directly. This layer only keeps each
  // proof obligation small: its only instances are `ItemStepOf`, `ServiceOf`
  // and `LoopOf`, and the predicates `BatchOutcome`, `PassOutcome` and
  // `LoopOutcome` read the same with those instances substituted.

  /** The body of the loop over a batch, as a relation between a child, the
      time its requests start, those requests and the child's result. */
  type ItemStep = (DriveItem, nat, seq<Effect>, Result<Placement, Fault>) -> bool

  /** The body of the loop over a batch as the service `h` answers it. */
  function ItemStepOf(h: Helper): ItemStep {
    (child: DriveItem, t: nat, effects: seq<Effect>, r: Result<Placement, Fault>) => ItemOutcome(h, child, t, effects, r)
  }

  /** `step` leaves each child, started at a given time, exactly one trace
      and one result. */
  ghost predicate Deterministic(step: ItemStep) {
    forall child, t, e1, r1, e2, r2 :: step(child, t, e1, r1) && step(child, t, e2, r2) ==> e1 == e2 && r1 == r2
  }

  /** What a completed move `pl` leaves in a trace numbered from `t`. */
  type Answers = (nat, seq<Effect>, Placement) -> bool

  /** MoveAnswered for the service behind `h`. */
  ghost function AnswersOf(h: Helper): Answers {
    (t: nat, e: seq<Effect>, pl: Placement) => MoveAnswered(h, t, e, pl)
  }

  /** What `ans` finds in a part of a trace, a prefix or a suffix numbered
      from where the suffix starts, it finds in the whole trace. */
  ghost predicate InTrace(ans: Answers) {
    && (forall t: nat, e: seq<Effect>, e': seq<Effect>, pl {:trigger ans(t, e', pl), ans(t, e, pl)} ::
          e' <= e && ans(t, e', pl) ==> ans(t, e, pl))
    && (forall t: nat, e: seq<Effect>, n: nat, t': nat, pl {:trigger ans(t', e[n..], pl), ans(t, e, pl)} ::
          n <= |e| && t' == t + n && ans(t', e[n..], pl) ==> ans(t, e, pl))
  }

  /** Every move `step` completes is its child's and stands in its trace
      as `ans` finds it. */
  ghost predicate AnsweredBy(ans: Answers, step: ItemStep) {
    forall child, t, effects, r {:trigger step(child, t, effects, r)} :: step(child, t, effects, r) && r.Success? ==>
      r.value.item == child && ans(t, effects, r.value)
  }

  /** The service's answers fix each child's trace and result. */
  lemma ItemStepDeterministic(h: Helper)
    ensures Deterministic(ItemStepOf(h))
  {
    forall child, t, e1, r1, e2, r2 | ItemOutcome(h, child, t, e1, r1) && ItemOutcome(h, child, t, e2, r2)
      ensures e1 == e2 && r1 == r2
    {
      ItemOutcomeUnique(h, child, t, e1, r1, e2, r2);
    }
  }

  /** Every move of the loop body is its child's, answered by the service. */
  lemma ItemStepAnswered(h: Helper)
    ensures AnsweredBy(AnswersOf(h), ItemStepOf(h))
  {
    forall child, t, effects, r | ItemOutcome(h, child, t, effects, r) && r.Success?
      ensures r.value.item == child && AnswersOf(h)(t, effects, r.value)
    {
      ItemMoveAnswered(h, child, t, effects, r.value);
    }
  }

  /** The loop over a batch started at time `t`, with `step` its body: the
      children are taken up in order, each one's requests following the
      previous one's without a gap; `moved` holds the completed moves, and
      the first exception, `failure`, ends the batch with the trace of the
      child that threw. */
  ghost predicate BatchOutcome(step: ItemStep, batch: seq<DriveItem>, t: nat,
                               effects: seq<Effect>, moved: seq<Placement>, failure: Option<Fault>)
    decreases |batch|
  {
    match (batch == [], moved == [])
    case (true, _) =>
      effects == [] && moved == [] && failure.None?
    case (false, true) =>
      failure.Some? && step(batch[0], t, effects, Failure(failure.value))
    case (false, false) =>
      var n := moved[0].moveAt + 1 - t;
      && 1 <= n <= |effects|
      && step(batch[0], t, effects[..n], Success(moved[0]))
      && BatchOutcome(step, batch[1..], moved[0].moveAt + 1, effects[n..], moved[1..], failure)
  }

  /** A batch ends in failure exactly when not every child was moved, and a
      batch that completes ends with the last child's answered move. */
  lemma {:induction false} BatchEnds(step: ItemStep, batch: seq<DriveItem>, t: nat,
                                     effects: seq<Effect>, moved: seq<Placement>, failure: Option<Fault>)
    requires BatchOutcome(step, batch, t, effects, moved, failure)
    ensures |moved| <= |batch|
    ensures failure.None? <==> |moved| == |batch|
    ensures failure.None? && batch == [] ==> effects == []
    ensures failure.None? && batch != [] ==> moved[|batch| - 1].moveAt + 1 == t + |effects|
    decreases |batch|
  {
    if batch != [] && moved != [] {
      var n := moved[0].moveAt + 1 - t;
      BatchEnds(step, batch[1..], moved[0].moveAt + 1, effects[n..], moved[1..], failure);
    }
  }

  /** The `i`-th completed move of a batch is that of its `i`-th child, as
      the service answered it. */
  lemma {:induction false} BatchMovesAnswered(ans: Answers, step: ItemStep, batch: seq<DriveItem>, t: nat, effects: seq<Effect>,
                                              moved: seq<Placement>, failure: Option<Fault>, i: nat)
    requires InTrace(ans) && AnsweredBy(ans, step)
    requires BatchOutcome(step, batch, t, effects, moved, failure) && i < |moved|
    ensures i < |batch| && moved[i].item == batch[i] && ans(t, effects, moved[i])
    decreases i
  {
    var n := moved[0].moveAt + 1 - t;
    if i == 0 {
      assert step(batch[0], t, effects[..n], Success(moved[0]));
      assert effects[..n] <= effects;
    } else {
      BatchMovesAnswered(ans, step, batch[1..], moved[0].moveAt + 1, effects[n..], moved[1..], failure, i - 1);
      assert moved[1..][i - 1] == moved[i] && batch[1..][i - 1] == batch[i];
    }
  }

  /** With a deterministic body, a batch has exactly one trace, one list of
      moves and one failure. */
  lemma {:induction false} BatchOutcomeUnique(step: ItemStep, batch: seq<DriveItem>, t: nat,
                                              e1: seq<Effect>, m1: seq<Placement>, f1: Option<Fault>,
                                              e2: seq<Effect>, m2: seq<Placement>, f2: Option<Fault>)
    requires Deterministic(step)
    requires BatchOutcome(step, batch, t, e1, m1, f1) && BatchOutcome(step, batch, t, e2, m2, f2)
    ensures e1 == e2 && m1 == m2 && f1 == f2
    decreases |batch|
  {
    if batch != [] {
      var i1 := if m1 == [] then e1 else e1[..m1[0].moveAt + 1 - t];
      var r1: Result<Placement, Fault> := if m1 == [] then Failure(f1.value) else Success(m1[0]);
      var i2 := if m2 == [] then e2 else e2[..m2[0].moveAt + 1 - t];
      var r2: Result<Placement, Fault> := if m2 == [] then Failure(f2.value) else Success(m2[0]);
      assert step(batch[0], t, i1, r1) && step(batch[0], t, i2, r2);
      if m1 != [] {
        var n := m1[0].moveAt + 1 - t;
        BatchOutcomeUnique(step, batch[1..], m1[0].moveAt + 1, e1[n..], m1[1..], f1, e2[n..], m2[1..], f2);
        assert e1 == e1[..n] + e1[n..] && e2 == e2[..n] + e2[n..];
        assert m1 == [m1[0]] + m1[1..] && m2 == [m2[0]] + m2[1..];
      }
    }
  }

  /** A child moved at the head of a batch, followed by the outcome of the
      rest of the batch, is the outcome of the batch. */
  lemma BatchCons(step: ItemStep, batch: seq<DriveItem>, t: nat, itemEffects: seq<Effect>, pl: Placement,
                  t': nat, effects: seq<Effect>, moved: seq<Placement>, failure: Option<Fault>)
    requires batch != [] && step(batch[0], t, itemEffects, Success(pl))
    requires |itemEffects| >= 1 && pl.moveAt + 1 == t + |itemEffects| && t' == pl.moveAt + 1
    requires BatchOutcome(step, batch[1..], t', effects, moved, failure)
    ensures BatchOutcome(step, batch, t, itemEffects + effects, [pl] + moved, failure)
  {
    var n := |itemEffects|;
    assert (itemEffects + effects)[..n] == itemEffects && (itemEffects + effects)[n..] == effects;
    assert ([pl] + moved)[1..] == moved;
  }

  /** A child that throws at the head of a batch ends it. */
  lemma BatchThrows(step: ItemStep, batch: seq<DriveItem>, t: nat, effects: seq<Effect>, fault: Fault)
    requires batch != [] && step(batch[0], t, effects, Failure(fault))
    ensures BatchOutcome(step, batch, t, effects, [], Some(fault))
  {
  }

  /** Where the loop over `batch` stands after its first `j` children, with
      the requests and moves of the run so far: whatever the remaining
      children do completes the outcome of the whole batch. */
  ghost predicate BatchSoFar(step: ItemStep, batch: seq<DriveItem>, j: nat, effects0: seq<Effect>, moved0: seq<Placement>,
                             effects: seq<Effect>, moved: seq<Placement>)
  {
    && j <= |batch| && effects0 <= effects && moved0 <= moved
    && forall e, m, f {:trigger BatchOutcome(step, batch[j..], |effects|, e, m, f)} ::
         BatchOutcome(step, batch[j..], |effects|, e, m, f) ==>
         BatchOutcome(step, batch, |effects0|, effects[|effects0|..] + e, moved[|moved0|..] + m, f)
  }

  /** Before the first child, the rest of the batch is the whole batch. */
  lemma BatchStarts(step: ItemStep, batch: seq<DriveItem>, effects0: seq<Effect>, moved0: seq<Placement>)
    ensures BatchSoFar(step, batch, 0, effects0, moved0, effects0, moved0)
  {
    forall e, m, f | BatchOutcome(step, batch[0..], |effects0|, e, m, f)
      ensures BatchOutcome(step, batch, |effects0|, effects0[|effects0|..] + e, moved0[|moved0|..] + m, f)
    {
      assert batch[0..] == batch;
      assert effects0[|effects0|..] + e == e && moved0[|moved0|..] + m == m;
    }
  }

  /** A child moved at position `j` advances the loop to `j + 1`. */
  lemma BatchAdvances(step: ItemStep, batch: seq<DriveItem>, j: nat, effects0: seq<Effect>, moved0: seq<Placement>,
                      effects: seq<Effect>, moved: seq<Placement>, itemEffects: seq<Effect>, pl: Placement)
    requires j < |batch| && BatchSoFar(step, batch, j, effects0, moved0, effects, moved)
    requires step(batch[j], |effects|, itemEffects, Success(pl))
    requires |itemEffects| >= 1 && pl.moveAt + 1 == |effects| + |itemEffects|
    ensures BatchSoFar(step, batch, j + 1, effects0, moved0, effects + itemEffects, moved + [pl])
  {
    var effects', moved' := effects + itemEffects, moved + [pl];
    assert effects0 <= effects' by { assert effects'[..|effects0|] == effects[..|effects0|]; }
    assert moved0 <= moved' by { assert moved'[..|moved0|] == moved[..|moved0|]; }
    forall e, m, f | BatchOutcome(step, batch[j + 1..], |effects'|, e, m, f)
      ensures BatchOutcome(step, batch, |effects0|, effects'[|effects0|..] + e, moved'[|moved0|..] + m, f)
    {
      assert batch[j..][1..] == batch[j + 1..];
      BatchCons(step, batch[j..], |effects|, itemEffects, pl, |effects'|, e, m, f);
      assert effects'[|effects0|..] + e == effects[|effects0|..] + (itemEffects + e);
      assert moved'[|moved0|..] + m == moved[|moved0|..] + ([pl] + m);
    }
  }

  /** A child that throws at position `j` ends the whole batch with its
      exception. */
  lemma BatchStops(step: ItemStep, batch: seq<DriveItem>, j: nat, effects0: seq<Effect>, moved0: seq<Placement>,
                   effects: seq<Effect>, moved: seq<Placement>, itemEffects: seq<Effect>, fault: Fault)
    requires j < |batch| && BatchSoFar(step, batch, j, effects0, moved0, effects, moved)
    requires step(batch[j], |effects|, itemEffects, Failure(fault))
    ensures effects0 <= effects + itemEffects
    ensures BatchOutcome(step, batch, |effects0|, (effects + itemEffects)[|effects0|..], moved[|moved0|..], Some(fault))
  {
    assert batch[j..][0] == batch[j];
    BatchThrows(step, batch[j..], |effects|, itemEffects, fault);
    assert (effects + itemEffects)[|effects0|..] == effects[|effects0|..] + itemEffects;
    assert moved[|moved0|..] + [] == moved[|moved0|..];
    assert (effects + itemEffects)[..|effects0|] == effects[..|effects0|];
  }

  /** After the last child, the batch is complete and nothing failed. */
  lemma BatchFinishes(step: ItemStep, batch: seq<DriveItem>, effects0: seq<Effect>, moved0: seq<Placement>,
                      effects: seq<Effect>, moved: seq<Placement>)
    requires BatchSoFar(step, batch, |batch|, effects0, moved0, effects, moved)
    ensures BatchOutcome(step, batch, |effects0|, effects[|effects0|..], moved[|moved0|..], None)
  {
    assert BatchOutcome(step, batch[|batch|..], |effects|, [], [], None);
    assert effects[|effects0|..] + [] == effects[|effects0|..];
    assert moved[|moved0|..] + [] == moved[|moved0|..];
  }

  /** The loop over one batch, continuing the run's requests `effects0` and
      moves `moved0`, with `currentItem0` the in-flight name: each child in
      order becomes the in-flight name and is moved; the first exception
      ends the batch. */
  method MoveBatch(h: Helper, batch: seq<DriveItem>, effects0: seq<Effect>, moved0: seq<Placement>, currentItem0: string)
    returns (failure: Option<Fault>, effects: seq<Effect>, moved: seq<Placement>, currentItem: string)
    ensures effects0 <= effects && moved0 <= moved
    ensures BatchOutcome(ItemStepOf(h), batch, |effects0|, effects[|effects0|..], moved[|moved0|..], failure)
    ensures failure.None? ==> currentItem == LastNameOr(batch, currentItem0)
    ensures failure.Some? ==> |moved| - |moved0| < |batch| && currentItem == batch[|moved| - |moved0|].name
  {
    var step := ItemStepOf(h);
    failure, effects, moved, currentItem := None, effects0, moved0, currentItem0;
    BatchStarts(step, batch, effects0, moved0);
    var j := 0;
    while j < |batch|
      invariant BatchSoFar(step, batch, j, effects0, moved0, effects, moved)
      invariant |moved| == |moved0| + j
      invariant currentItem == LastNameOr(batch[..j], currentItem0)
    {
      var child := batch[j];
      currentItem := child.name;
      var r, itemEffects := ProcessItem(h, child, |effects|);
      assert step(child, |effects|, itemEffects, r);
      if r.Failure? {
        BatchStops(step, batch, j, effects0, moved0, effects, moved, itemEffects, r.error);
        failure, effects := Some(r.error), effects + itemEffects;
        return;
      }
      ItemRequests(h, child, |effects|, itemEffects, r);
      BatchAdvances(step, batch, j, effects0, moved0, effects, moved, itemEffects, r.value);
      effects, moved := effects + itemEffects, moved + [r.value];
      j := j + 1;
    }
    BatchFinishes(step, batch, effects0, moved0, effects, moved);
    assert batch[..j] == batch;
  }

  // ---------------------------------------------------------------------
  // The do-while loop of Main
  // ---------------------------------------------------------------------

  /** What the do-while loop of Main sees of the service: the body of the
      loop over a batch, the re-listing of the photos folder at a time, and
      the photos folder's path. */
  datatype Service = Service(step: ItemStep, relist: nat -> Result<Batch, Fault>, photosPath: string)

  /** The loop's view of the service behind the helper `h`. */
  function ServiceOf(h: Helper): Service {
    Service(ItemStepOf(h), (at: nat) => GetPhotos(h, at).result, h.settings.photosFolderPath)
  }

  /** How one repetition of the do-while loop ends: the run stops with an
      outcome, or the loop repeats with a new batch. */
  datatype PassEnd = Stop(outcome: Outcome) | Continue(children: seq<DriveItem>)

  /** The answer `listing` of the re-listing after `done` items were
      moved, and the loop condition on it: a listing that throws ends the run as Failed with
      the in-flight name `cur`; the loop repeats exactly when the listing
      has files and the count is below the total; otherwise the run ends
      normally. */
  function AfterListing(listing: Result<Batch, Fault>, total: Option<int>, done: nat, cur: string): (next: PassEnd)
    ensures listing.Failure? ==> next == Stop(Failed(cur, listing.error))
    ensures next.Continue? <==> listing.Success? && listing.value.files != [] && Below(done, total)
    ensures next.Continue? ==> next.children == listing.value.files
    ensures listing.Success? && next.Stop? ==> next.outcome == Completed(done, total)
  {
    if listing.Failure? then Stop(Failed(cur, listing.error))
    else if |listing.value.files| > 0 && Below(done, total) then Continue(listing.value.files)
    else Stop(Completed(done, total))
  }

  /** One repetition of the do-while loop at time `t`, with `step` the body
      of the loop over a batch, `done` items moved before it and `cur` the
      in-flight name: the batch `children` is moved; an item that throws
      ends the run; otherwise the photos folder is listed once more, as the
      last request, and the loop condition decides. */
  ghost predicate PassOutcome(s: Service, total: Option<int>, children: seq<DriveItem>, done: nat, cur: string,
                              t: nat, effects: seq<Effect>, moved: seq<Placement>, next: PassEnd)
  {
    match |moved| < |children|
    case true =>
      && next.Stop? && next.outcome.Failed? && next.outcome.currentItem == children[|moved|].name
      && BatchOutcome(s.step, children, t, effects, moved, Some(next.outcome.fault))
    case false =>
      && |effects| >= 1
      && BatchOutcome(s.step, children, t, effects[..|effects| - 1], moved, None)
      && effects[|effects| - 1] == ListChildren(s.photosPath)
      && next == AfterListing(s.relist(t + |effects| - 1), total, done + |children|, LastNameOr(children, cur))
  }

  /** A repetition whose batch throws at its `k`-th child ends there,
      naming that child. */
  lemma PassThrows(s: Service, total: Option<int>, children: seq<DriveItem>, done: nat, cur: string,
                   t: nat, effects: seq<Effect>, moved: seq<Placement>, fault: Fault, k: nat, name: string)
    requires BatchOutcome(s.step, children, t, effects, moved, Some(fault))
    requires k == |moved| < |children| && name == children[k].name
    ensures PassOutcome(s, total, children, done, cur, t, effects, moved, Stop(Failed(name, fault)))
  {
  }

  /** A repetition whose batch is moved whole re-lists the photos folder
      right after it, and the re-listing decides. */
  lemma PassListed(s: Service, total: Option<int>, children: seq<DriveItem>, done: nat, cur: string,
                   t: nat, effects: seq<Effect>, moved: seq<Placement>, at: nat, doneAfter: nat)
    requires |effects| >= 1 && effects[|effects| - 1] == ListChildren(s.photosPath)
    requires BatchOutcome(s.step, children, t, effects[..|effects| - 1], moved, None)
    requires at == t + |effects| - 1 && doneAfter == done + |moved|
    ensures |moved| == |children|
    ensures PassOutcome(s, total, children, done, cur, t, effects, moved,
                        AfterListing(s.relist(at), total, doneAfter, LastNameOr(children, cur)))
  {
    BatchEnds(s.step, children, t, effects[..|effects| - 1], moved, None);
  }

  /** The number of requests of the first repetition in a loop whose moves
      are `moved`, counted from its start `t`, when it moves its whole
      batch: up to and including the re-listing that follows the batch's
      last move. */
  function PassLength(children: seq<DriveItem>, t: nat, moved: seq<Placement>): int
    requires |children| <= |moved|
  {
    if children == [] then 1 else moved[|children| - 1].moveAt + 2 - t
  }

  /** A repetition that moves its whole batch takes the batch's requests
      and the re-listing. */
  lemma PassLengthIs(s: Service, total: Option<int>, children: seq<DriveItem>, done: nat, cur: string,
                     t: nat, effects: seq<Effect>, moved: seq<Placement>, next: PassEnd)
    requires PassOutcome(s, total, children, done, cur, t, effects, moved, next) && |children| <= |moved|
    ensures |moved| == |children| && PassLength(children, t, moved) == |effects|
  {
    BatchEnds(s.step, children, t, effects[..|effects| - 1], moved, None);
  }

  /** With a deterministic body, a repetition has exactly one trace, one
      list of moves and one end. */
  lemma PassOutcomeUnique(s: Service, total: Option<int>, children: seq<DriveItem>, done: nat, cur: string, t: nat,
                          p1: seq<Effect>, m1: seq<Placement>, x1: PassEnd, p2: seq<Effect>, m2: seq<Placement>, x2: PassEnd)
    requires Deterministic(s.step)
    requires PassOutcome(s, total, children, done, cur, t, p1, m1, x1)
    requires PassOutcome(s, total, children, done, cur, t, p2, m2, x2)
    ensures p1 == p2 && m1 == m2 && x1 == x2
  {
    var b1 := if |m1| < |children| then p1 else p1[..|p1| - 1];
    var f1 := if |m1| < |children| then Some(x1.outcome.fault) else None;
    var b2 := if |m2| < |children| then p2 else p2[..|p2| - 1];
    var f2 := if |m2| < |children| then Some(x2.outcome.fault) else None;
    BatchOutcomeUnique(s.step, children, t, b1, m1, f1, b2, m2, f2);
    if |children| <= |m1| {
      assert p1 == b1 + [p1[|p1| - 1]] && p2 == b2 + [p2[|p2| - 1]];
    }
  }

  /** The `i`-th completed move of a repetition is that of the `i`-th child
      of its batch, and stands in its trace as the service answered it. */
  lemma PassMovesAnswered(ans: Answers, s: Service, total: Option<int>, children: seq<DriveItem>, done: nat, cur: string,
                          t: nat, effects: seq<Effect>, moved: seq<Placement>, next: PassEnd, i: nat)
    requires InTrace(ans) && AnsweredBy(ans, s.step)
    requires PassOutcome(s, total, children, done, cur, t, effects, moved, next) && i < |moved|
    ensures i < |children| && moved[i].item == children[i] && ans(t, effects, moved[i])
  {
    if |moved| < |children| {
      BatchMovesAnswered(ans, s.step, children, t, effects, moved, Some(next.outcome.fault), i);
    } else {
      var n := |effects| - 1;
      BatchMovesAnswered(ans, s.step, children, t, effects[..n], moved, None, i);
      assert effects[..n] <= effects;
    }
  }

  // ---------------------------------------------------------------------
  // The do-while loop
  // ---------------------------------------------------------------------

  /** One repetition of the loop, as a relation between its batch, the
      number of moves before it, the in-flight name before it, its start,
      its requests, its moves and its end. */
  type PassStep = (seq<DriveItem>, nat, string, nat, seq<Effect>, seq<Placement>, PassEnd) -> bool

  /** The loop's view of one run: a repetition `pass`, and `relist`, how a
      repetition that moved its whole batch ends, from the number of moves,
      the in-flight name and the time of its re-listing. */
  datatype Loop = Loop(pass: PassStep, relist: (nat, string, nat) -> PassEnd)

  /** The loop over the service `s` with the reported total `total`. */
  ghost function LoopOf(s: Service, total: Option<int>): Loop {
    Loop((children: seq<DriveItem>, done: nat, cur: string, t: nat, effects: seq<Effect>, moved: seq<Placement>, next: PassEnd) =>
           PassOutcome(s, total, children, done, cur, t, effects, moved, next),
         (done: nat, cur: string, at: nat) => AfterListing(s.relist(at), total, done, cur))
  }

  /** A repetition that moves less than its batch stops the run; one that
      moves its whole batch takes the batch's requests and one listing, and
      ends as the re-listing decides. */
  ghost predicate Shaped(l: Loop) {
    forall c: seq<DriveItem>, d: nat, cur: string, t: nat, e: seq<Effect>, m: seq<Placement>, x: PassEnd ::
      l.pass(c, d, cur, t, e, m, x) ==>
      && (|m| < |c| ==> x.Stop?)
      && (|c| <= |m| ==> |m| == |c| && 1 <= |e| && PassLength(c, t, m) == |e| &&
                         x == l.relist(d + |c|, LastNameOr(c, cur), t + |e| - 1))
  }

  /** No repetition reports NoItems, and one that completes the run counts
      the moves before it and its own, against the total. */
  ghost predicate Counts(l: Loop, total: Option<int>) {
    forall c: seq<DriveItem>, d: nat, cur: string, t: nat, e: seq<Effect>, m: seq<Placement>, x: PassEnd ::
      l.pass(c, d, cur, t, e, m, x) && x.Stop? ==>
      x.outcome != NoItems && (x.outcome.Completed? ==> x.outcome == Completed(d + |m|, total))
  }

  /** A repetition, started at a given time, has exactly one trace, one list
      of moves and one end. */
  ghost predicate PassDeterministic(l: Loop) {
    forall c: seq<DriveItem>, d: nat, cur: string, t: nat, e1: seq<Effect>, m1: seq<Placement>, x1: PassEnd,
           e2: seq<Effect>, m2: seq<Placement>, x2: PassEnd :: l.pass(c, d, cur, t, e1, m1, x1) && l.pass(c, d, cur, t, e2, m2, x2) ==>
      e1 == e2 && m1 == m2 && x1 == x2
  }

  /** Every move a repetition completes stands in its trace as `ans` finds
      it. */
  ghost predicate PassAnswered(ans: Answers, l: Loop) {
    forall c: seq<DriveItem>, d: nat, cur: string, t: nat, e: seq<Effect>, m: seq<Placement>, x: PassEnd, i
      {:trigger ans(t, e, m[i]), l.pass(c, d, cur, t, e, m, x)} ::
      l.pass(c, d, cur, t, e, m, x) && 0 <= i < |m| ==> ans(t, e, m[i])
  }

  /** A move answered in a part of a trace is answered in the whole. */
  lemma AnswersOfInTrace(h: Helper)
    ensures InTrace(AnswersOf(h))
  {
    var ans := AnswersOf(h);
    forall t: nat, e: seq<Effect>, e': seq<Effect>, pl | e' <= e && ans(t, e', pl)
      ensures ans(t, e, pl)
    {
      assert e[..|e'|] == e';
      MoveAnsweredPrefix(h, t, e, |e'|, pl);
    }
    forall t: nat, e: seq<Effect>, n: nat, t': nat, pl | n <= |e| && t' == t + n && ans(t', e[n..], pl)
      ensures ans(t, e, pl)
    {
      MoveAnsweredSuffix(h, t, e, n, t', pl);
    }
  }

  /** The loop over the service is Shaped. */
  lemma LoopOfShaped(s: Service, total: Option<int>)
    ensures Shaped(LoopOf(s, total))
  {
    var l := LoopOf(s, total);
    forall c: seq<DriveItem>, d: nat, cur: string, t: nat, e: seq<Effect>, m: seq<Placement>, x: PassEnd
      | l.pass(c, d, cur, t, e, m, x)
      ensures |m| < |c| ==> x.Stop?
      ensures |c| <= |m| ==> |m| == |c| && 1 <= |e| && PassLength(c, t, m) == |e| &&
                             x == l.relist(d + |c|, LastNameOr(c, cur), t + |e| - 1)
    {
      PassShaped(s, total, c, d, cur, t, e, m, x);
    }
  }

  /** One repetition of the loop over the service: a partial batch stops
      the run, a whole batch is followed by the re-listing that decides. */
  lemma PassShaped(s: Service, total: Option<int>, c: seq<DriveItem>, d: nat, cur: string,
                   t: nat, e: seq<Effect>, m: seq<Placement>, x: PassEnd)
    requires LoopOf(s, total).pass(c, d, cur, t, e, m, x)
    ensures |m| < |c| ==> x.Stop?
    ensures |c| <= |m| ==> |m| == |c| && 1 <= |e| && PassLength(c, t, m) == |e| &&
                           x == LoopOf(s, total).relist(d + |c|, LastNameOr(c, cur), t + |e| - 1)
  {
    if |c| <= |m| {
      PassLengthIs(s, total, c, d, cur, t, e, m, x);
    }
  }

  /** The loop over the service Counts its moves against the total. */
  lemma LoopOfCounts(s: Service, total: Option<int>)
    ensures Counts(LoopOf(s, total), total)
  {
    var l := LoopOf(s, total);
    forall c: seq<DriveItem>, d: nat, cur: string, t: nat, e: seq<Effect>, m: seq<Placement>, x: PassEnd
      | l.pass(c, d, cur, t, e, m, x) && x.Stop?
      ensures x.outcome != NoItems && (x.outcome.Completed? ==> x.outcome == Completed(d + |m|, total))
    {
      if |c| <= |m| {
        PassLengthIs(s, total, c, d, cur, t, e, m, x);
      }
    }
  }

  /** With a deterministic body, the loop over the service has
      deterministic repetitions. */
  lemma LoopOfDeterministic(s: Service, total: Option<int>)
    requires Deterministic(s.step)
    ensures PassDeterministic(LoopOf(s, total))
  {
    var l := LoopOf(s, total);
    forall c: seq<DriveItem>, d: nat, cur: string, t: nat, e1: seq<Effect>, m1: seq<Placement>, x1: PassEnd,
           e2: seq<Effect>, m2: seq<Placement>, x2: PassEnd
      | l.pass(c, d, cur, t, e1, m1, x1) && l.pass(c, d, cur, t, e2, m2, x2)
      ensures e1 == e2 && m1 == m2 && x1 == x2
    {
      PassOutcomeUnique(s, total, c, d, cur, t, e1, m1, x1, e2, m2, x2);
    }
  }

  /** Every move of a repetition of the loop over the service is answered
      as the body answers it. */
  lemma LoopOfAnswered(ans: Answers, s: Service, total: Option<int>)
    requires InTrace(ans) && AnsweredBy(ans, s.step)
    ensures PassAnswered(ans, LoopOf(s, total))
  {
    var l := LoopOf(s, total);
    forall c: seq<DriveItem>, d: nat, cur: string, t: nat, e: seq<Effect>, m: seq<Placement>, x: PassEnd, i
      | l.pass(c, d, cur, t, e, m, x) && 0 <= i < |m|
      ensures ans(t, e, m[i])
    {
      PassMovesAnswered(ans, s, total, c, d, cur, t, e, m, x, i);
    }
  }

  /** The do-while loop of Main from the batch `children` on, at time `t`,
      with `done` items moved before and `cur` the in-flight name: its
      repetitions one after the other, each one's requests following the
      previous one's without a gap, until one of them stops the run with
      `outcome`. */
  ghost predicate LoopOutcome(l: Loop, children: seq<DriveItem>, done: nat, cur: string,
                              t: nat, effects: seq<Effect>, moved: seq<Placement>, outcome: Outcome)
    decreases |effects|, 1
  {
    match |moved| < |children|
    case true =>
      l.pass(children, done, cur, t, effects, moved, Stop(outcome))
    case false =>
      LoopAfterBatch(l, children, done, cur, t, effects, moved, outcome)
  }

  /** The loop whose first repetition moves its whole batch: that
      repetition's requests, up to the re-listing, and then the rest. */
  ghost predicate LoopAfterBatch(l: Loop, children: seq<DriveItem>, done: nat, cur: string,
                                 t: nat, effects: seq<Effect>, moved: seq<Placement>, outcome: Outcome)
    requires |children| <= |moved|
    decreases |effects|, 0
  {
    var n := PassLength(children, t, moved);
    && 1 <= n <= |effects|
    && var next := l.relist(done + |children|, LastNameOr(children, cur), t + n - 1);
       && l.pass(children, done, cur, t, effects[..n], moved[..|children|], next)
       && LoopRest(l, next, done + |children|, LastNameOr(children, cur), t + n, effects[n..], moved[|children|..], outcome)
  }

  /** The loop after a repetition that ended with `next`, from time `t` on:
      nothing more after a stop, the loop from the new batch after a repeat. */
  ghost predicate LoopRest(l: Loop, next: PassEnd, done: nat, cur: string,
                           t: nat, effects: seq<Effect>, moved: seq<Placement>, outcome: Outcome)
    decreases |effects|, 2
  {
    match next
    case Stop(o) => o == outcome && effects == [] && moved == []
    case Continue(files) => LoopOutcome(l, files, done, cur, t, effects, moved, outcome)
  }

  /** A repetition that stops the run is the whole loop. */
  lemma LoopStops(l: Loop, children: seq<DriveItem>, done: nat, cur: string,
                  t: nat, effects: seq<Effect>, moved: seq<Placement>, outcome: Outcome)
    requires Shaped(l) && l.pass(children, done, cur, t, effects, moved, Stop(outcome))
    ensures LoopOutcome(l, children, done, cur, t, effects, moved, outcome)
  {
    if |children| <= |moved| {
      var n := |effects|;
      assert effects[..n] == effects && moved[..|children|] == moved;
      assert effects[n..] == [] && moved[|children|..] == [];
    }
  }

  /** A repetition that repeats, followed by the rest of the loop from the
      new batch, is the whole loop. */
  lemma LoopRepeats(l: Loop, children: seq<DriveItem>, done: nat, cur: string,
                    t: nat, effects: seq<Effect>, moved: seq<Placement>, files: seq<DriveItem>,
                    restEffects: seq<Effect>, restMoved: seq<Placement>, outcome: Outcome)
    requires Shaped(l) && l.pass(children, done, cur, t, effects, moved, Continue(files))
    requires LoopOutcome(l, files, done + |children|, LastNameOr(children, cur), t + |effects|, restEffects, restMoved, outcome)
    ensures LoopOutcome(l, children, done, cur, t, effects + restEffects, moved + restMoved, outcome)
  {
    var n := |effects|;
    assert (effects + restEffects)[..n] == effects && (effects + restEffects)[n..] == restEffects;
    assert (moved + restMoved)[..|children|] == moved && (moved + restMoved)[|children|..] == restMoved;
  }

  /** The first repetition of a loop, `pass` its requests and `passMoved`
      its moves, ended with `next`: a stop ends the loop, a repeat is
      followed by the rest of the loop from the new batch. */
  lemma LoopFirstPass(l: Loop, children: seq<DriveItem>, done: nat, cur: string,
                      t: nat, effects: seq<Effect>, moved: seq<Placement>, outcome: Outcome)
    returns (pass: seq<Effect>, passMoved: seq<Placement>, next: PassEnd)
    requires LoopOutcome(l, children, done, cur, t, effects, moved, outcome)
    ensures l.pass(children, done, cur, t, pass, passMoved, next)
    ensures pass <= effects && passMoved <= moved
    ensures next.Stop? ==> pass == effects && passMoved == moved && next.outcome == outcome
    ensures next.Continue? ==>
              && 1 <= |pass| && |passMoved| == |children|
              && LoopOutcome(l, next.children, done + |children|, LastNameOr(children, cur), t + |pass|,
                             effects[|pass|..], moved[|passMoved|..], outcome)
  {
    if |moved| < |children| {
      pass, passMoved, next := effects, moved, Stop(outcome);
    } else {
      assert LoopAfterBatch(l, children, done, cur, t, effects, moved, outcome);
      var n := PassLength(children, t, moved);
      pass, passMoved := effects[..n], moved[..|children|];
      next := l.relist(done + |children|, LastNameOr(children, cur), t + n - 1);
      assert LoopRest(l, next, done + |children|, LastNameOr(children, cur), t + n, effects[n..], moved[|children|..], outcome);
      if next.Stop? {
        assert effects == pass + effects[n..] && moved == passMoved + moved[|children|..];
      }
    }
  }

  /** A loop never reports NoItems, and a completed one counts every move
      of the loop on top of `done` and reports the total. */
  lemma {:induction false} LoopCompleted(l: Loop, total: Option<int>, children: seq<DriveItem>, done: nat, cur: string,
                                         t: nat, effects: seq<Effect>, moved: seq<Placement>, outcome: Outcome)
    requires Counts(l, total) && LoopOutcome(l, children, done, cur, t, effects, moved, outcome)
    ensures outcome != NoItems
    ensures outcome.Completed? ==> outcome == Completed(done + |moved|, total)
    decreases |effects|
  {
    var pass, passMoved, next := LoopFirstPass(l, children, done, cur, t, effects, moved, outcome);
    if next.Continue? {
      var k := |passMoved|;
      LoopCompleted(l, total, next.children, done + |children|, LastNameOr(children, cur), t + |pass|,
                    effects[|pass|..], moved[k..], outcome);
      assert |moved| == k + |moved[k..]|;
    }
  }

  /** The `i`-th completed move of the loop stands in its trace as the
      service answered it. */
  lemma {:induction false} LoopMovesAnswered(ans: Answers, l: Loop, children: seq<DriveItem>, done: nat, cur: string,
                                             t: nat, effects: seq<Effect>, moved: seq<Placement>, outcome: Outcome, i: nat)
    requires InTrace(ans) && PassAnswered(ans, l)
    requires LoopOutcome(l, children, done, cur, t, effects, moved, outcome) && i < |moved|
    ensures ans(t, effects, moved[i])
    decreases |effects|
  {
    var pass, passMoved, next := LoopFirstPass(l, children, done, cur, t, effects, moved, outcome);
    var k := |passMoved|;
    if i < k {
      assert ans(t, pass, passMoved[i]);
      assert moved[i] == passMoved[i];
    } else {
      assert next.Continue?;
      LoopMovesAnswered(ans, l, next.children, done + |children|, LastNameOr(children, cur), t + |pass|,
                        effects[|pass|..], moved[k..], outcome, i - k);
      assert moved[k..][i - k] == moved[i];
    }
  }

  /** With a deterministic repetition, the loop has exactly one trace, one
      list of moves and one outcome. */
  lemma {:induction false} LoopOutcomeUnique(l: Loop, children: seq<DriveItem>, done: nat, cur: string, t: nat,
                                             e1: seq<Effect>, m1: seq<Placement>, o1: Outcome,
                                             e2: seq<Effect>, m2: seq<Placement>, o2: Outcome)
    requires PassDeterministic(l)
    requires LoopOutcome(l, children, done, cur, t, e1, m1, o1)
    requires LoopOutcome(l, children, done, cur, t, e2, m2, o2)
    ensures e1 == e2 && m1 == m2 && o1 == o2
    decreases |e1|
  {
    var p1, pm1, x1 := LoopFirstPass(l, children, done, cur, t, e1, m1, o1);
    var p2, pm2, x2 := LoopFirstPass(l, children, done, cur, t, e2, m2, o2);
    assert p1 == p2 && pm1 == pm2 && x1 == x2;
    if x1.Continue? {
      var n, k := |p1|, |pm1|;
      LoopOutcomeUnique(l, x1.children, done + |children|, LastNameOr(children, cur), t + n,
                        e1[n..], m1[k..], o1, e2[n..], m2[k..], o2);
      assert e1 == p1 + e1[n..] && e2 == p2 + e2[n..];
      assert m1 == pm1 + m1[k..] && m2 == pm2 + m2[k..];
    }
  }

  /** One repetition of the do-while loop of Main, continuing the run's
      requests `effects0` and moves `moved0`, with `currentItem0` the
      in-flight name: move `children0`, re-list the photos folder, and
      decide whether to repeat. */
  method Repeat(h: Helper, totalItems: Option<int>, children0: seq<DriveItem>,
                effects0: seq<Effect>, moved0: seq<Placement>, currentItem0: string)
    returns (next: PassEnd, effects: seq<Effect>, moved: seq<Placement>, currentItem: string)
    ensures effects0 <= effects && moved0 <= moved
    ensures PassOutcome(ServiceOf(h), totalItems, children0, |moved0|, currentItem0, |effects0|,
                        effects[|effects0|..], moved[|moved0|..], next)
    ensures next.Continue? ==>
              && currentItem == LastNameOr(children0, currentItem0)
              && |moved| == |moved0| + |children0|
              && next.children != [] && Below(|moved|, totalItems)
  {
    var failure;
    failure, effects, moved, currentItem := MoveBatch(h, children0, effects0, moved0, currentItem0);
    ghost var s := ServiceOf(h);
    if failure.Some? {
      next := Stop(Failed(currentItem, failure.value));
      PassThrows(s, totalItems, children0, |moved0|, currentItem0, |effects0|,
                 effects[|effects0|..], moved[|moved0|..], failure.value, |moved| - |moved0|, currentItem);
      return;
    }
    var before := effects;
    var listing := GetPhotos(h, |before|);
    effects := before + listing.effects;
    next := AfterListing(listing.result, totalItems, |moved|, currentItem);
    RepeatListed(h, totalItems, children0, effects0, moved0, currentItem0, before, moved);
  }

  /** Repeat's re-listing: after its batch is moved whole, Repeat lists the
      photos folder once and decides on the answer. */
  lemma RepeatListed(h: Helper, totalItems: Option<int>, children0: seq<DriveItem>, effects0: seq<Effect>,
                     moved0: seq<Placement>, currentItem0: string, before: seq<Effect>, moved: seq<Placement>)
    requires effects0 <= before && moved0 <= moved
    requires BatchOutcome(ItemStepOf(h), children0, |effects0|, before[|effects0|..], moved[|moved0|..], None)
    ensures |moved| == |moved0| + |children0|
    ensures
      var listing := GetPhotos(h, |before|);
      PassOutcome(ServiceOf(h), totalItems, children0, |moved0|, currentItem0, |effects0|,
                  (before + listing.effects)[|effects0|..], moved[|moved0|..],
                  AfterListing(listing.result, totalItems, |moved|, LastNameOr(children0, currentItem0)))
  {
    var s := ServiceOf(h);
    var listing := GetPhotos(h, |before|);
    var effects := (before + listing.effects)[|effects0|..];
    assert effects[..|effects| - 1] == before[|effects0|..];
    PassListed(s, totalItems, children0, |moved0|, currentItem0, |effects0|, effects, moved[|moved0|..], |before|, |moved|);
    assert s.relist(|before|) == listing.result;
  }

  /** Where the do-while loop stands at the top of a repetition, after the
      requests `effects` and moves `moved` of the run, with `children` the
      next batch and `currentItem` the in-flight name: whatever the loop
      does from here completes the loop from the first batch. */
  ghost predicate LoopSoFar(l: Loop, firstBatch: seq<DriveItem>, effects0: seq<Effect>,
                            children: seq<DriveItem>, effects: seq<Effect>, moved: seq<Placement>, currentItem: string)
  {
    && effects0 <= effects
    && forall e, m, o {:trigger LoopOutcome(l, children, |moved|, currentItem, |effects|, e, m, o)} ::
         LoopOutcome(l, children, |moved|, currentItem, |effects|, e, m, o) ==>
         LoopOutcome(l, firstBatch, 0, "", |effects0|, effects[|effects0|..] + e, moved + m, o)
  }

  /** At the first repetition, the loop from here is the whole loop. */
  lemma LoopStarts(l: Loop, firstBatch: seq<DriveItem>, effects0: seq<Effect>)
    ensures LoopSoFar(l, firstBatch, effects0, firstBatch, effects0, [], "")
  {
    forall e, m, o | LoopOutcome(l, firstBatch, 0, "", |effects0|, e, m, o)
      ensures LoopOutcome(l, firstBatch, 0, "", |effects0|, effects0[|effects0|..] + e, [] + m, o)
    {
      assert effects0[|effects0|..] + e == e && [] + m == m;
    }
  }

  /** A repetition that repeats advances the loop to the new batch. */
  lemma LoopAdvances(l: Loop, firstBatch: seq<DriveItem>, effects0: seq<Effect>,
                     children: seq<DriveItem>, effects: seq<Effect>, moved: seq<Placement>, currentItem: string,
                     effects': seq<Effect>, moved': seq<Placement>, files: seq<DriveItem>)
    requires Shaped(l) && LoopSoFar(l, firstBatch, effects0, children, effects, moved, currentItem)
    requires effects <= effects' && moved <= moved'
    requires l.pass(children, |moved|, currentItem, |effects|, effects'[|effects|..], moved'[|moved|..], Continue(files))
    ensures LoopSoFar(l, firstBatch, effects0, files, effects', moved', LastNameOr(children, currentItem))
  {
    var pass, passMoved := effects'[|effects|..], moved'[|moved|..];
    assert |moved'| == |moved| + |children|;
    assert effects0 <= effects' by { assert effects'[..|effects0|] == effects[..|effects0|]; }
    forall e, m, o | LoopOutcome(l, files, |moved'|, LastNameOr(children, currentItem), |effects'|, e, m, o)
      ensures LoopOutcome(l, firstBatch, 0, "", |effects0|, effects'[|effects0|..] + e, moved' + m, o)
    {
      LoopRepeats(l, children, |moved|, currentItem, |effects|, pass, passMoved, files, e, m, o);
      assert effects'[|effects0|..] + e == effects[|effects0|..] + (pass + e);
      assert moved' + m == moved + (passMoved + m);
    }
  }

  /** A repetition that stops completes the loop from the first batch. */
  lemma LoopFinishes(l: Loop, firstBatch: seq<DriveItem>, effects0: seq<Effect>,
                     children: seq<DriveItem>, effects: seq<Effect>, moved: seq<Placement>, currentItem: string,
                     effects': seq<Effect>, moved': seq<Placement>, outcome: Outcome)
    requires Shaped(l) && LoopSoFar(l, firstBatch, effects0, children, effects, moved, currentItem)
    requires effects <= effects' && moved <= moved'
    requires l.pass(children, |moved|, currentItem, |effects|, effects'[|effects|..], moved'[|moved|..], Stop(outcome))
    ensures effects0 <= effects'
    ensures LoopOutcome(l, firstBatch, 0, "", |effects0|, effects'[|effects0|..], moved', outcome)
  {
    var pass, passMoved := effects'[|effects|..], moved'[|moved|..];
    assert effects'[..|effects0|] == effects[..|effects0|];
    LoopStops(l, children, |moved|, currentItem, |effects|, pass, passMoved, outcome);
    assert effects'[|effects0|..] == effects[|effects0|..] + pass;
    assert moved' == moved + passMoved;
  }

  /** The do-while loop of Main, from the first batch on, continuing the
      requests `effects0` made so far: move the batch, re-list the photos
      folder, and repeat while the new batch has files and fewer moves than
      `totalItems` are done. With the count unbounded, it terminates
      whatever the service answers: each repetition moves at least one more
      item, or follows an empty batch with a non-empty one, and the count is
      bounded by the total. */
  method OrganizeLoop(h: Helper, firstBatch: seq<DriveItem>, totalItems: Option<int>, effects0: seq<Effect>)
    returns (outcome: Outcome, effects: seq<Effect>, moved: seq<Placement>)
    ensures effects0 <= effects
    ensures LoopOutcome(LoopOf(ServiceOf(h), totalItems), firstBatch, 0, "", |effects0|, effects[|effects0|..], moved, outcome)
  {
    ghost var l := LoopOf(ServiceOf(h), totalItems);
    LoopOfShaped(ServiceOf(h), totalItems);
    var currentItem := "";
    var children := firstBatch;
    effects, moved := effects0, [];
    LoopStarts(l, firstBatch, effects0);
    while true
      invariant LoopSoFar(l, firstBatch, effects0, children, effects, moved, currentItem)
      decreases if totalItems.Some? then totalItems.value - |moved| else 0, if children == [] then 1 else 0
    {
      var next, effects', moved', currentItem' := Repeat(h, totalItems, children, effects, moved, currentItem);
      assert l.pass(children, |moved|, currentItem, |effects|, effects'[|effects|..], moved'[|moved|..], next);
      if next.Stop? {
        LoopFinishes(l, firstBatch, effects0, children, effects, moved, currentItem, effects', moved', next.outcome);
        outcome, effects, moved := next.outcome, effects', moved';
        return;
      }
      LoopAdvances(l, firstBatch, effects0, children, effects, moved, currentItem, effects', moved', next.children);
      children, effects, moved, currentItem := next.children, effects', moved', currentItem';
    }
  }

  /** The first listing of a run. */
  function FirstListing(client: Remote, settings: AppSettings): Result<Batch, Fault> {
    GetPhotos(Helper(client, settings), 0).result
  }

  /** Main, with the client and settings given: construct the helper, list
      the photos folder, stop if it reports no children, and otherwise run
      the loop. Any exception stops the run and reports the in-flight name. */
  method Organize(client: Option<Remote>, settings: AppSettings)
    returns (outcome: Outcome, effects: seq<Effect>, moved: seq<Placement>)
    // A null client fails in the constructor, before any request.
    ensures client.None? ==> outcome == Failed("", ArgumentNull(Client)) && effects == [] && moved == []
    // Otherwise the run begins by listing the photos folder.
    ensures client.Some? ==> |effects| >= 1 && effects[0] == ListChildren(settings.photosFolderPath)
    // A first listing that throws ends the run with that exception.
    ensures client.Some? && FirstListing(client.value, settings).Failure? ==>
              && outcome == Failed("", FirstListing(client.value, settings).error)
              && effects == [ListChildren(settings.photosFolderPath)] && moved == []
    // Early exit: a reported total of 0 creates no folder and moves nothing.
    ensures outcome == NoItems <==>
              client.Some? && FirstListing(client.value, settings).Success? &&
              FirstListing(client.value, settings).value.total == Some(0)
    ensures outcome == NoItems ==> effects == [ListChildren(settings.photosFolderPath)] && moved == []
    // Otherwise the loop runs on the first listing's files and total, right after it.
    ensures client.Some? && FirstListing(client.value, settings).Success? && outcome != NoItems ==>
              LoopOutcome(LoopOf(ServiceOf(Helper(client.value, settings)), FirstListing(client.value, settings).value.total),
                          FirstListing(client.value, settings).value.files, 0, "", 1, effects[1..], moved, outcome)
  {
    effects, moved := [], [];
    var onedriveClient := New(client, settings);
    if onedriveClient.Failure? {
      outcome := Failed("", onedriveClient.error);
      return;
    }
    var h := onedriveClient.value;
    var listing := GetPhotos(h, 0);
    effects := listing.effects;
    if listing.result.Failure? {
      outcome := Failed("", listing.result.error);
      return;
    }
    var children := listing.result.value.files;
    var totalItems := listing.result.value.total;
    if totalItems == Some(0) {
      outcome := NoItems;
      return;
    }
    outcome, effects, moved := OrganizeLoop(h, children, totalItems, effects);
    LoopOfCounts(ServiceOf(h), totalItems);
    LoopCompleted(LoopOf(ServiceOf(h), totalItems), totalItems, children, 0, "", 1, effects[1..], moved, outcome);
  }

  /** A run's loop is fixed by the service's answers: one trace, one list of
      moves, one outcome. */
  lemma RunUnique(h: Helper, total: Option<int>, files: seq<DriveItem>,
                  e1: seq<Effect>, m1: seq<Placement>, o1: Outcome, e2: seq<Effect>, m2: seq<Placement>, o2: Outcome)
    requires LoopOutcome(LoopOf(ServiceOf(h), total), files, 0, "", 1, e1, m1, o1)
    requires LoopOutcome(LoopOf(ServiceOf(h), total), files, 0, "", 1, e2, m2, o2)
    ensures e1 == e2 && m1 == m2 && o1 == o2
  {
    ItemStepDeterministic(h);
    LoopOfDeterministic(ServiceOf(h), total);
    LoopOutcomeUnique(LoopOf(ServiceOf(h), total), files, 0, "", 1, e1, m1, o1, e2, m2, o2);
  }

  /** Every move of a run was answered by the service where it says: its
      destination folder at `folderAt` and the move at `moveAt`, numbered
      from the first request of the loop; and a completed run counts them
      all. */
  lemma RunMovesAnswered(h: Helper, total: Option<int>, files: seq<DriveItem>,
                         effects: seq<Effect>, moved: seq<Placement>, outcome: Outcome)
    requires LoopOutcome(LoopOf(ServiceOf(h), total), files, 0, "", 1, effects, moved, outcome)
    ensures forall i :: 0 <= i < |moved| ==> MoveAnswered(h, 1, effects, moved[i])
    ensures outcome != NoItems
    ensures outcome.Completed? ==> outcome == Completed(|moved|, total)
  {
    var l := LoopOf(ServiceOf(h), total);
    ItemStepAnswered(h);
    AnswersOfInTrace(h);
    LoopOfAnswered(AnswersOf(h), ServiceOf(h), total);
    forall i | 0 <= i < |moved|
      ensures MoveAnswered(h, 1, effects, moved[i])
    {
      LoopMovesAnswered(AnswersOf(h), l, files, 0, "", 1, effects, moved, outcome, i);
    }
    LoopOfCounts(ServiceOf(h), total);
    LoopCompleted(l, total, files, 0, "", 1, effects, moved, outcome);
  }
}
