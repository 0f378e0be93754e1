/** The drive helper: listing the photos folder, creating a folder hierarchy
    and moving an item with a bounded retry. */
module OnedriveHelper {
  import opened Wrappers
  import opened Drive

  /** The settings the helper reads: the path of the folder to organize. */
  datatype AppSettings = AppSettings(photosFolderPath: string)

  /** A helper bound to a client and settings; both are read-only after construction. */
  datatype Helper = Helper(client: Remote, settings: AppSettings)

  /** Retry policy of MoveItem. */
  const MaxAttempts: nat := 3
  const RetryDelayMs: nat := 3000

  /** The constructor: a null client is rejected, the settings are not checked. */
  function New(client: Option<Remote>, settings: AppSettings): (r: Result<Helper, Fault>)
    ensures r.Failure? <==> client.None?
    ensures r.Failure? ==> r.error == ArgumentNull(Client)
    ensures r.Success? ==> r.value.client == client.value && r.value.settings == settings
  {
    match client
    case None => Failure(ArgumentNull(Client))
    case Some(c) => Success(Helper(c, settings))
  }

  /** The children that are not folders, in their original order. */
  function NonFolders(items: seq<DriveItem>): (files: seq<DriveItem>)
    ensures |files| <= |items|
    ensures forall f :: f in files ==> f in items && f.folder.None?
  {
    if items == [] then []
    else if items[0].folder.None? then [items[0]] + NonFolders(items[1..])
    else NonFolders(items[1..])
  }

  /** Every non-folder child is kept. */
  lemma {:induction false} NonFoldersKeepsFiles(items: seq<DriveItem>, x: DriveItem)
    requires x in items && x.folder.None?
    ensures x in NonFolders(items)
  {
    if items[0] != x {
      NonFoldersKeepsFiles(items[1..], x);
    }
  }

  /** The filter works piecewise, so it keeps the original order. */
  lemma {:induction false} NonFoldersAppend(a: seq<DriveItem>, b: seq<DriveItem>)
    ensures NonFolders(a + b) == NonFolders(a) + NonFolders(b)
  {
    if a == [] {
      assert a + b == b;
    } else {
      assert (a + b)[1..] == a[1..] + b;
      NonFoldersAppend(a[1..], b);
    }
  }

  /** A listing without folders is returned unchanged. */
  lemma {:induction false} NonFoldersOfFiles(items: seq<DriveItem>)
    requires forall i :: 0 <= i < |items| ==> items[i].folder.None?
    ensures NonFolders(items) == items
  {
    if items != [] {
      NonFoldersOfFiles(items[1..]);
    }
  }

  /** A listing: the files of the photos folder, and the folder's own child count. */
  datatype Batch = Batch(files: seq<DriveItem>, total: Option<int>)

  /** GetPhotosAsync, requested at time `t`: the files among the children,
      paired with the folder's unfiltered child count. */
  function GetPhotos(h: Helper, t: nat): (x: Exchange<Batch>)
    ensures x.effects == [ListChildren(h.settings.photosFolderPath)]
    ensures
      var reply := h.client.listChildren(t, h.settings.photosFolderPath);
      && (reply.Threw? ==> x.result == Failure(ServiceError(reply.detail)))
      && (reply.Answered? && reply.value.children.None? ==> x.result == Failure(ArgumentNull(Source)))
      && (reply.Answered? && reply.value.children.Some? && reply.value.folder.None? ==> x.result == Failure(NullReference))
      && (x.result.Success? <==> reply.Answered? && reply.value.children.Some? && reply.value.folder.Some?)
      && (x.result.Success? ==>
            && x.result.value.files == NonFolders(reply.value.children.value)
            && x.result.value.total == reply.value.folder.value.childCount)
  {
    var path := h.settings.photosFolderPath;
    var effects := [ListChildren(path)];
    match h.client.listChildren(t, path)
    case Threw(detail) => Exchange(effects, Failure(ServiceError(detail)))
    case Answered(folder) =>
      if folder.children.None? then Exchange(effects, Failure(ArgumentNull(Source)))
      else if folder.folder.None? then Exchange(effects, Failure(NullReference))
      else Exchange(effects, Success(Batch(NonFolders(folder.children.value), folder.folder.value.childCount)))
  }

  /** CreateFolderHiearchyAsync, requested at time `t`: one update at `path`
      carrying only a folder facet, whose answer is returned as it is. */
  function CreateFolderHierarchy(h: Helper, path: string, t: nat): (x: Exchange<DriveItem>)
    ensures x.effects == [UpdateAtPath(path, FolderPatch)]
    ensures forall folder :: x.result == Success(folder) <==> h.client.updateAtPath(t, path, FolderPatch) == Answered(folder)
    ensures forall detail :: x.result == Failure(ServiceError(detail)) <==> h.client.updateAtPath(t, path, FolderPatch) == Threw(detail)
  {
    var effects := [UpdateAtPath(path, FolderPatch)];
    match h.client.updateAtPath(t, path, FolderPatch)
    case Answered(folder) => Exchange(effects, Success(folder))
    case Threw(detail) => Exchange(effects, Failure(ServiceError(detail)))
  }

  /** The request that moves `item` under `dest`, keeping its name. */
  function MoveRequest(item: DriveItem, dest: DriveItem): (r: Effect)
    ensures r.UpdateItem? && r.id == item.id
    ensures r.patch.MovePatch? && r.patch.parentId == dest.id && r.patch.name == item.name
  {
    UpdateItem(item.id, MovePatch(dest.id, item.name))
  }

  /** The answer to move attempt `i` (from 0) of a MoveItem that starts at
      time `t`: attempts are separated by one delay each. */
  function AttemptReply(h: Helper, item: DriveItem, dest: DriveItem, t: nat, i: nat): Reply<DriveItem> {
    h.client.updateItem(t + 2 * i, item.id, MovePatch(dest.id, item.name))
  }

  /** Requests and delays alternating, from a request to a request: one
      delay fewer than requests, so success on attempt k costs k requests and
      k - 1 delays. */
  lemma {:induction false} AttemptsAndDelays(item: DriveItem, dest: DriveItem, effects: seq<Effect>)
    requires |effects| % 2 == 1
    requires forall i :: 0 <= i < |effects| ==>
               effects[i] == if i % 2 == 0 then MoveRequest(item, dest) else Delay(RetryDelayMs)
    ensures multiset(effects)[MoveRequest(item, dest)] == (|effects| + 1) / 2
    ensures multiset(effects)[Delay(RetryDelayMs)] == |effects| / 2
    decreases |effects|
  {
    if |effects| == 1 {
      assert effects == [MoveRequest(item, dest)];
    } else {
      var shorter := effects[..|effects| - 2];
      AttemptsAndDelays(item, dest, shorter);
      assert effects == shorter + [Delay(RetryDelayMs), MoveRequest(item, dest)];
    }
  }

  /** Some attempt among the first three of a move started at time `t` is answered. */
  predicate SomeAttemptAnswers(h: Helper, item: DriveItem, dest: DriveItem, t: nat) {
    exists i :: 0 <= i < MaxAttempts && AttemptReply(h, item, dest, t, i).Answered?
  }

  /** The requests `effects` and the result `r` of a MoveItemAsync started at
      time `t`, as the service's answers fix them: one to three move attempts
      with a 3000 ms delay between two attempts and none after the last;
      every attempt but the last threw; the last one's answer is returned,
      and when it is the third and it threw, its exception is rethrown. */
  predicate MoveOutcome(h: Helper, item: DriveItem, dest: DriveItem, t: nat, effects: seq<Effect>, r: Result<DriveItem, Fault>) {
    && 1 <= (|effects| + 1) / 2 <= MaxAttempts && |effects| % 2 == 1
    && (forall i :: 0 <= i < |effects| ==>
          effects[i] == if i % 2 == 0 then MoveRequest(item, dest) else Delay(RetryDelayMs))
    && (forall i :: 0 <= i < |effects| / 2 ==> AttemptReply(h, item, dest, t, i).Threw?)
    && (r.Success? ==> AttemptReply(h, item, dest, t, |effects| / 2) == Answered(r.value))
    && (r.Failure? ==>
          && |effects| == 2 * MaxAttempts - 1
          && AttemptReply(h, item, dest, t, MaxAttempts - 1).Threw?
          && r.error == ServiceError(AttemptReply(h, item, dest, t, MaxAttempts - 1).detail))
  }

  /** A move that succeeds ends with the attempt that was answered. */
  lemma MoveOutcomeLast(h: Helper, item: DriveItem, dest: DriveItem, t: nat, effects: seq<Effect>, moved: DriveItem, at: nat)
    requires MoveOutcome(h, item, dest, t, effects, Success(moved)) && at == t + |effects| - 1
    ensures effects[|effects| - 1] == MoveRequest(item, dest)
    ensures h.client.updateItem(at, item.id, MovePatch(dest.id, item.name)) == Answered(moved)
  {
    assert t + 2 * (|effects| / 2) == at;
  }

  /** A move succeeds exactly when one of its three attempts is answered,
      and it fails only with the service's exception. */
  lemma MoveOutcomeSucceeds(h: Helper, item: DriveItem, dest: DriveItem, t: nat, effects: seq<Effect>, r: Result<DriveItem, Fault>)
    requires MoveOutcome(h, item, dest, t, effects, r)
    ensures r.Success? <==> SomeAttemptAnswers(h, item, dest, t)
    ensures r.Failure? ==> r.error.ServiceError?
  {
    if r.Failure? {
      forall i | 0 <= i < MaxAttempts
        ensures AttemptReply(h, item, dest, t, i).Threw?
      {
        if i < |effects| / 2 {
        }
      }
    }
  }

  /** A move's trace is no longer than another trace the same answers allow:
      the attempt that ends the other trace is answered, or it is the third. */
  lemma MoveTraceNoLonger(h: Helper, item: DriveItem, dest: DriveItem, t: nat,
                          e1: seq<Effect>, r1: Result<DriveItem, Fault>, e2: seq<Effect>, r2: Result<DriveItem, Fault>)
    requires MoveOutcome(h, item, dest, t, e1, r1) && MoveOutcome(h, item, dest, t, e2, r2)
    ensures |e1| <= |e2|
  {
    if r2.Success? {
      assert AttemptReply(h, item, dest, t, |e2| / 2).Answered?;
    }
  }

  /** The service's answers leave a move exactly one trace and one result. */
  lemma MoveOutcomeUnique(h: Helper, item: DriveItem, dest: DriveItem, t: nat,
                          e1: seq<Effect>, r1: Result<DriveItem, Fault>, e2: seq<Effect>, r2: Result<DriveItem, Fault>)
    requires MoveOutcome(h, item, dest, t, e1, r1) && MoveOutcome(h, item, dest, t, e2, r2)
    ensures e1 == e2 && r1 == r2
  {
    MoveTraceNoLonger(h, item, dest, t, e1, r1, e2, r2);
    MoveTraceNoLonger(h, item, dest, t, e2, r2, e1, r1);
    assert forall i :: 0 <= i < |e1| ==> e1[i] == e2[i];
  }

  /** MoveItemAsync, started at time `t`: up to three attempts of the move
      request, a 3000 ms delay between two attempts and none after the last;
      the first success is returned, and when all three fail the third
      failure is rethrown. */
  method MoveItem(h: Helper, item: DriveItem, dest: DriveItem, t: nat) returns (r: Result<DriveItem, Fault>, effects: seq<Effect>)
    ensures MoveOutcome(h, item, dest, t, effects, r)
  {
    var newItem := MovePatch(dest.id, item.name);
    var updatedItem: Option<DriveItem> := None;
    var tryCount := 1;
    var isSuccess := false;
    effects := [];
    while true
      invariant 1 <= tryCount <= MaxAttempts
      invariant !isSuccess && updatedItem.None?
      invariant |effects| == 2 * (tryCount - 1)
      invariant forall i :: 0 <= i < |effects| ==>
                  effects[i] == if i % 2 == 0 then MoveRequest(item, dest) else Delay(RetryDelayMs)
      invariant forall i :: 0 <= i < tryCount - 1 ==> AttemptReply(h, item, dest, t, i).Threw?
      decreases MaxAttempts - tryCount
    {
      assert AttemptReply(h, item, dest, t, tryCount - 1) == h.client.updateItem(t + |effects|, item.id, newItem);
      effects := effects + [UpdateItem(item.id, newItem)];
      match h.client.updateItem(t + |effects| - 1, item.id, newItem) {
        case Answered(moved) =>
          updatedItem := Some(moved);
          isSuccess := true;
        case Threw(detail) =>
          tryCount := tryCount + 1;
          if tryCount > MaxAttempts {
            r := Failure(ServiceError(detail));
            return;
          }
          effects := effects + [Delay(RetryDelayMs)];
      }
      if !(tryCount <= MaxAttempts && !isSuccess) {
        break;
      }
    }
    // The loop is left only on success, so the initial null is never returned.
    r := Success(updatedItem.value);
  }
}
