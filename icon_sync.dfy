/**
 * The decision logic of the icon synchronisation loop, stated on values.
 * Visit is one iteration of the loop over the schema items (the white-space
 * test, the existence check, fetch, transcode and upload inside the
 * try/catch, and the pacing delay); Synchronize is the whole loop. The blob
 * container, the Steam lookup, the HTTP download and the image transcoder
 * are the abstract Environment.
 */
module IconSync {
  import opened Wrappers
  import opened Naming

  newtype byte = x: int | 0 <= x < 256
  type Bytes = seq<byte>

  /** A schema item as the loop reads it: DefIndex, Name and a possibly null ImageInventoryPath. */
  datatype Item = Item(defIndex: nat, name: string, imagePath: Option<string>)

  /** A stored blob: its bytes and the content type it was uploaded with. */
  datatype Blob = Blob(content: Bytes, contentType: string)

  /** The icon blob container: file name to blob. */
  type Store = map<string, Blob>

  /**
   * What the loop cannot see into, as total functions fixed for one run:
   * whether ExistsAsync or UploadAsync throws for a key, the Steam icon-path
   * lookup (None when it throws), the HTTP download (None when it throws) and
   * the PNG-to-JPEG transcoder (None when the bytes do not decode).
   */
  datatype Environment = Environment(
    existsFails: string -> bool,
    resolveIconPath: string -> Option<string>,
    download: string -> Option<Bytes>,
    transcode: Bytes -> Option<Bytes>,
    uploadFails: string -> bool)

  /** The exception one item's pipeline can raise, by the call that raised it. */
  datatype ItemError =
    | ExistsCheckError
    | UpstreamLookupError
    | UpstreamDownloadError
    | DecodeError
    | UploadError

  /** What happened to one item. */
  datatype Outcome =
    | SkippedEmptyPath
    | SkippedExists
    | Stored
    | Failed(error: ItemError)

  /** The answer of one existence check. */
  datatype Reply = Present | Absent | Faulted

  /** The externally visible calls of the loop, in the order they are made. */
  datatype Effect =
    | ExistsCheck(key: string, reply: Reply)
    | IconPathLookup(name: string)
    | Download(url: string)
    | Upload(key: string, contentType: string, accepted: bool)
    | Delay(ms: nat)

  /** Pause after a key that already exists. */
  const ExistingItemDelayMs: nat := 500
  /** Pause after a stored icon and after a caught failure. */
  const NewItemDelayMs: nat := 5000

  /** What ExistsAsync answers for a key. */
  function ExistsReply(store: Store, key: string, env: Environment): Reply
  {
    if env.existsFails(key) then Faulted
    else if key in store then Present
    else Absent
  }

  /** The result of fetching an icon and the calls made to fetch it. */
  datatype Fetch = Fetch(icon: Result<Bytes, ItemError>, effects: seq<Effect>)

  /**
   * GetItemIconFromSteamAsync: look the lookup name up, then download
   * "{SteamCdnBaseUrl}/{iconPath}".
   */
  function FetchIcon(path: string, env: Environment): Fetch
  {
    var name := LookupName(path);
    match env.resolveIconPath(name)
    case None => Fetch(Err(UpstreamLookupError), [IconPathLookup(name)])
    case Some(iconPath) =>
      var url := IconUrl(SteamCdnBaseUrl, iconPath);
      match env.download(url)
      case None => Fetch(Err(UpstreamDownloadError), [IconPathLookup(name), Download(url)])
      case Some(bytes) => Fetch(Ok(bytes), [IconPathLookup(name), Download(url)])
  }

  /** One item processed: its outcome, the container afterwards and the calls made. */
  datatype Step = Step(outcome: Outcome, store: Store, effects: seq<Effect>)

  /**
   * The branch taken when the key is absent: fetch, transcode and upload,
   * each of which may throw; every exit waits NewItemDelayMs.
   */
  function StoreIcon(store: Store, key: string, fetch: Fetch, env: Environment): Step
  {
    var pause := [Delay(NewItemDelayMs)];
    match fetch.icon
    case Err(e) => Step(Failed(e), store, fetch.effects + pause)
    case Ok(png) =>
      match env.transcode(png)
      case None => Step(Failed(DecodeError), store, fetch.effects + pause)
      case Some(jpg) =>
        if env.uploadFails(key) then
          Step(Failed(UploadError), store, fetch.effects + [Upload(key, IconContentType, false)] + pause)
        else
          Step(Stored, store[key := Blob(jpg, IconContentType)],
               fetch.effects + [Upload(key, IconContentType, true)] + pause)
  }

  /**
   * The body of the try block for an item with a path, with its catch: check
   * the key, then skip it or fetch, transcode and upload it.
   */
  function SyncIcon(store: Store, key: string, path: string, env: Environment): Step
  {
    var reply := ExistsReply(store, key, env);
    var check := [ExistsCheck(key, reply)];
    match reply
    case Faulted => Step(Failed(ExistsCheckError), store, check + [Delay(NewItemDelayMs)])
    case Present => Step(SkippedExists, store, check + [Delay(ExistingItemDelayMs)])
    case Absent =>
      var s := StoreIcon(store, key, FetchIcon(path, env), env);
      Step(s.outcome, s.store, check + s.effects)
  }

  /** One iteration of the loop over the schema items. */
  function Visit(store: Store, item: Item, env: Environment): Step
  {
    if IsNullOrWhiteSpace(item.imagePath) then Step(SkippedEmptyPath, store, [])
    else SyncIcon(store, StorageKey(item.defIndex), item.imagePath.value, env)
  }

  /** The state of a run: the container, one outcome per visited item, and every call made. */
  datatype RunResult = RunResult(store: Store, outcomes: seq<Outcome>, effects: seq<Effect>)

  /** The loop over the items, in order, for a given per-item step. */
  function Sweep(store: Store, items: seq<Item>, visit: (Store, Item) -> Step): (r: RunResult)
    ensures |r.outcomes| == |items|
    decreases |items|
  {
    if items == [] then RunResult(store, [], [])
    else
      var prev := Sweep(store, items[..|items| - 1], visit);
      var step := visit(prev.store, items[|items| - 1]);
      RunResult(step.store, prev.outcomes + [step.outcome], prev.effects + step.effects)
  }

  /** The loop body, for a fixed environment. */
  function VisitIn(env: Environment): (Store, Item) -> Step
  {
    (store, item) => Visit(store, item, env)
  }

  /** The loop over the schema items, in schema order, starting from the given container. */
  function Synchronize(store: Store, items: seq<Item>, env: Environment): RunResult
  {
    Sweep(store, items, VisitIn(env))
  }

  /** An outcome for which the icon was fetched: the existence check answered Absent. */
  predicate Attempted(o: Outcome)
  {
    o.Stored? || (o.Failed? && o.error != ExistsCheckError)
  }

  /** The pauses an item with this outcome causes. */
  function PacingOf(o: Outcome): seq<nat>
  {
    match o
    case SkippedEmptyPath => []
    case SkippedExists => [ExistingItemDelayMs]
    case Stored => [NewItemDelayMs]
    case Failed(_) => [NewItemDelayMs]
  }

  /** The pauses a run with these outcomes causes, in order. */
  function Pacing(outcomes: seq<Outcome>): seq<nat>
    decreases |outcomes|
  {
    if outcomes == [] then []
    else Pacing(outcomes[..|outcomes| - 1]) + PacingOf(outcomes[|outcomes| - 1])
  }

  /** The delays recorded in a trace, in order. */
  function Delays(effects: seq<Effect>): seq<nat>
    decreases |effects|
  {
    if effects == [] then []
    else Delays(effects[..|effects| - 1])
         + (if effects[|effects| - 1].Delay? then [effects[|effects| - 1].ms] else [])
  }

  /** The number of accepted uploads of a key in a trace. */
  function AcceptedUploads(effects: seq<Effect>, key: string): nat
    decreases |effects|
  {
    if effects == [] then 0
    else
      var e := effects[|effects| - 1];
      AcceptedUploads(effects[..|effects| - 1], key) + (if e.Upload? && e.accepted && e.key == key then 1 else 0)
  }
}
