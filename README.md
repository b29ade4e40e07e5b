# Cosmetic item icon synchronisation, modelled in Dafny

DotaDatabaseFunctions keeps an Azure blob container, "cosmeticitemicons", that holds one
JPEG icon per Dota 2 cosmetic item. The job that fills it is `CosmeticItemIconFunction.Run`.
It walks the items of the game schema in order, and for each item whose
`ImageInventoryPath` is not blank it does the following:

1. It names the blob `"{DefIndex}.jpg"` and asks the container whether that blob exists.
2. When the blob exists, it waits 500 ms.
3. When the blob is missing, it asks the Steam economy API for the icon path of the
   text after the last '/' of the inventory path. It then downloads
   `https://steamcdn-a.akamaihd.net/apps/570/{iconPath}`, re-encodes the image as JPEG
   over a black background and uploads it with content type `image/jpg`. Then it waits 5 s.
4. When any of these calls throws, the exception is caught and logged, the job waits
   5 s, and it moves on to the next item.

The project is organised in five modules:

- `Wrappers` (`wrappers.dfy`) holds `Option` and `Result`.
- `Naming` (`naming.dfy`) holds the pure string logic:
  - `String.IsNullOrWhiteSpace` over the `Char.IsWhiteSpace` set;
  - the storage key `"{DefIndex}.jpg"` with its decoder;
  - `LastIndexOf` and the lookup name;
  - the CDN URL `"{base}/{iconPath}"`.
- `IconSync` (`icon_sync.dfy`) states one loop iteration as a function on values:
  - `Visit` is one iteration. It covers the white-space test, the existence check, the
    fetch, the transcode, the upload, the try/catch and the pacing delay.
  - `Synchronize` is the whole loop, defined as a fold (`Sweep`) over the items.
  - The blob service, the Steam lookup, the HTTP download and the image transcoder are
    one `Environment` of total functions fixed for a run. `None` or `true` there means
    "this call throws".
  - Every run records a trace of `Effect`s: existence checks with their answers,
    lookups, downloads, uploads and delays.
- `SyncProperties` (`sync_properties.dfy`) proves the guarantees of the job:
  - per item: the empty-path skip, no overwrite, and the pacing;
  - per run: the container only grows, at most one upload per key (a later item with
    the same DefIndex is skipped), failure isolation,
    in-order processing, and what a second run does.
- `CosmeticItemIcon` (`cosmetic_item_icon.dfy`) holds the job in its own imperative form:
  - a `BlobContainer` class whose `blobs` map is updated in place by `Upload`;
  - a `CosmeticItemIconFunction` class whose methods `Run`, `SyncItemIcon`,
    `GetItemIconFromSteam`, `UploadItemIconToBlobStorage` and `Delay` append to a
    `trace` field.
  - `Run` is a `for` loop. Its invariant ties the container, the outcomes so far and the
    trace to `Synchronize` on the prefix of the items already visited.

## Model

| member | source | states |
|---|---|---|
| Naming.IsNullOrWhiteSpace | DotaDatabaseFunctions/CosmeticItemIconFunction.cs:75 | the path is blank exactly when it is null or every character is white space; a null or empty path is blank |
| Naming.StorageKey | DotaDatabaseFunctions/CosmeticItemIconFunction.cs:79 | the key is a canonical decimal rendering (no sign, no leading zero) followed by ".jpg" |
| Naming.DecimalString | DotaDatabaseFunctions/CosmeticItemIconFunction.cs:79 | renders DefIndex in decimal with no sign and no leading zero; it starts with '0' only for 0 |
| Naming.ParseDecimalString | DotaDatabaseFunctions/CosmeticItemIconFunction.cs:79 | reading the decimal rendering of a DefIndex back gives that DefIndex |
| Naming.DecimalStringOfParse | DotaDatabaseFunctions/CosmeticItemIconFunction.cs:79 | every canonical digit string is the rendering of the number it denotes |
| Naming.StorageKeyRoundTrip | DotaDatabaseFunctions/CosmeticItemIconFunction.cs:79 | decoding the key of a DefIndex gives that DefIndex back |
| Naming.KeyOfDefIndex | DotaDatabaseFunctions/CosmeticItemIconFunction.cs:79 | any blob name that decodes to a DefIndex is exactly that item's key |
| Naming.StorageKeyInjective | DotaDatabaseFunctions/CosmeticItemIconFunction.cs:79 | two items share a key if and only if they share a DefIndex |
| Naming.LastIndexOf | DotaDatabaseFunctions/CosmeticItemIconFunction.cs:116 | the result is -1 or the position of a '/', and no '/' follows it |
| Naming.LookupName | DotaDatabaseFunctions/CosmeticItemIconFunction.cs:116-117 | the lookup name is a suffix of the path, holds no '/', and is the whole path or follows a '/' |
| Naming.LookupNameWithoutSlash | DotaDatabaseFunctions/CosmeticItemIconFunction.cs:116-117 | a path without '/' is looked up as it is |
| Naming.LookupNameUnique | DotaDatabaseFunctions/CosmeticItemIconFunction.cs:116-117 | the lookup name is the only suffix with those three properties: the text after the last '/' |
| Naming.IconUrl | DotaDatabaseFunctions/CosmeticItemIconFunction.cs:120 | the definition: the base, a '/', then the resolved icon path (its properties are in IconUrlParts and IconUrlInjective) |
| Naming.IconUrlParts | DotaDatabaseFunctions/CosmeticItemIconFunction.cs:120 | the URL is the base, one '/', then the icon path; both parts can be read back from it |
| Naming.IconUrlInjective | DotaDatabaseFunctions/CosmeticItemIconFunction.cs:120 | under one base, two icon paths give the same URL if and only if they are equal |
| IconSync.ExistsReply | DotaDatabaseFunctions/CosmeticItemIconFunction.cs:84 | the definition: Faulted when ExistsAsync throws for the key, Present when the key is in the container, Absent otherwise |
| IconSync.FetchIcon | DotaDatabaseFunctions/CosmeticItemIconFunction.cs:114-122 | the definition: look up the lookup name of the path; when that throws, fail with UpstreamLookupError; otherwise download the CDN URL of the resolved path and fail with UpstreamDownloadError when that throws; the calls are the lookup and then the download |
| IconSync.StoreIcon | DotaDatabaseFunctions/CosmeticItemIconFunction.cs:85-96 | the definition of the absent-key branch: a failed fetch, a failed transcode or a failed upload gives Failed with that error and leaves the container unchanged; otherwise the transcoded bytes are stored under the key as image/jpg; every exit ends with a 5 s pause |
| IconSync.SyncIcon | DotaDatabaseFunctions/CosmeticItemIconFunction.cs:82-107 | the definition of the try/catch for one item: check the key; when the check throws, fail and pause 5 s; when the key exists, skip and pause 500 ms; otherwise run StoreIcon on the fetched icon |
| IconSync.Visit | DotaDatabaseFunctions/CosmeticItemIconFunction.cs:75-107 | the definition of one loop iteration: a blank path is skipped with no call; otherwise SyncIcon runs on the key "{DefIndex}.jpg" and the path |
| IconSync.Synchronize | DotaDatabaseFunctions/CosmeticItemIconFunction.cs:72-109 | the definition of the loop: Visit on each item in schema order, each on the container the earlier items left |
| IconSync.Sweep | DotaDatabaseFunctions/CosmeticItemIconFunction.cs:72-109 | the loop is total: every item yields exactly one outcome |
| SyncProperties.FetchIconErrors | DotaDatabaseFunctions/CosmeticItemIconFunction.cs:114-122 | fetching an icon fails only in the icon-path lookup or in the download |
| SyncProperties.VisitOutcome | DotaDatabaseFunctions/CosmeticItemIconFunction.cs:75-107 | an item is skipped for its path if and only if the path is blank; it is skipped as existing if and only if the check answers that the blob exists; it fails in the check if and only if the check throws; it reaches the fetch if and only if the check answers that the blob is missing |
| SyncProperties.StoreIconStore | DotaDatabaseFunctions/CosmeticItemIconFunction.cs:87-93 | the absent-key branch writes only when it stores, and then writes the transcoded bytes of the fetched icon under its key as image/jpg |
| SyncProperties.VisitStore | DotaDatabaseFunctions/CosmeticItemIconFunction.cs:84-107 | only a Stored item writes; it writes its own key, which was absent; the blob is image/jpg and its bytes are the transcode of the icon fetched for the item's own path; every other blob is kept |
| SyncProperties.FetchIconCalls | DotaDatabaseFunctions/CosmeticItemIconFunction.cs:116-121 | the fetch first looks up the text after the last '/' of the path, then downloads the CDN URL of the icon path the lookup returned |
| SyncProperties.StoreIconBeginsWithFetch | DotaDatabaseFunctions/CosmeticItemIconFunction.cs:87-93 | the calls of the absent-key branch begin with the calls of the fetch |
| SyncProperties.VisitFetchesOwnIcon | DotaDatabaseFunctions/CosmeticItemIconFunction.cs:116-121 | an item that reaches the fetch looks up the lookup name of its own path right after the check, then downloads the URL of the icon path resolved for it |
| SyncProperties.StoreIconPauseLast | DotaDatabaseFunctions/CosmeticItemIconFunction.cs:93-106 | the absent-key branch makes its 5 s pause last, after the upload, and makes no other pause |
| SyncProperties.StoreIconDelays | DotaDatabaseFunctions/CosmeticItemIconFunction.cs:84-96 | once the key is missing, the item's only delay is one 5 s pause and it is the last call, whichever call failed |
| SyncProperties.StoreIconUploadKey | DotaDatabaseFunctions/CosmeticItemIconFunction.cs:124-132 | the absent-key branch uploads only its own key, with content type image/jpg |
| SyncProperties.StoreIconAccepted | DotaDatabaseFunctions/CosmeticItemIconFunction.cs:84-96 | the absent-key branch makes one accepted upload of its key exactly when it stores |
| SyncProperties.SyncIconPacing | DotaDatabaseFunctions/CosmeticItemIconFunction.cs:84-107 | an item with a path first checks its key, and pauses 500 ms after a skip and 5 s after a store or a caught failure |
| SyncProperties.VisitPacing | DotaDatabaseFunctions/CosmeticItemIconFunction.cs:75-107 | an item makes no call exactly when its path is blank; otherwise its first call is the check of its key and its delays match its outcome |
| SyncProperties.SyncIconUploads | DotaDatabaseFunctions/CosmeticItemIconFunction.cs:84-96 | an upload only happens after the check of the same key answered that it is missing; the key really is absent; the content type is image/jpg |
| SyncProperties.VisitUploads | DotaDatabaseFunctions/CosmeticItemIconFunction.cs:75-96 | the same as SyncIconUploads for any item; an item with a blank path uploads nothing |
| SyncProperties.SynchronizeSnoc | DotaDatabaseFunctions/CosmeticItemIconFunction.cs:72-109 | one more item at the end of the schema adds exactly one visit on the container left by the others |
| SyncProperties.SynchronizeSplit | DotaDatabaseFunctions/CosmeticItemIconFunction.cs:72-109 | a run over a + b is the run over a followed by the run over b from the container that a left |
| SyncProperties.StoreOnlyGrows | DotaDatabaseFunctions/CosmeticItemIconFunction.cs:72-109 | every blob present before the run is still there afterwards, unchanged |
| SyncProperties.PrefixStoreGrows | DotaDatabaseFunctions/CosmeticItemIconFunction.cs:72-109 | the container after any prefix of the items is contained in the final container |
| SyncProperties.OutcomeInOrder | DotaDatabaseFunctions/CosmeticItemIconFunction.cs:72-109 | the outcome of item i is what visiting it gives on the container the earlier items left |
| SyncProperties.NewKeysAreStoredItems | DotaDatabaseFunctions/CosmeticItemIconFunction.cs:79-96 | a key is new after the run if and only if some Stored item has it; every new blob is image/jpg |
| SyncProperties.NoUploadToExistingKey | DotaDatabaseFunctions/CosmeticItemIconFunction.cs:84-96 | no upload of a run targets a key that was in the container when the run began |
| SyncProperties.AtMostOneUploadPerKey | DotaDatabaseFunctions/CosmeticItemIconFunction.cs:72-109 | each key gets one accepted upload if the run added it, and none otherwise |
| SyncProperties.StoredKeyStays | DotaDatabaseFunctions/CosmeticItemIconFunction.cs:84-96 | the key of a Stored item stays in the container for every later item of the run |
| SyncProperties.LaterDuplicateIsSkipped | DotaDatabaseFunctions/CosmeticItemIconFunction.cs:84-101 | when an earlier item with the same DefIndex was Stored, a later item with a path finds the key and is skipped as existing, unless its check throws |
| SyncProperties.PacingTrace | DotaDatabaseFunctions/CosmeticItemIconFunction.cs:95-106 | the delays of a run are, in order: 500 ms per existing key, 5 s per stored icon or caught failure, none per blank path |
| SyncProperties.WithPaths | DotaDatabaseFunctions/CosmeticItemIconFunction.cs:75 | an item is kept if and only if it is one of the items and its path is not blank |
| SyncProperties.EmptyPathItemsAreInert | DotaDatabaseFunctions/CosmeticItemIconFunction.cs:75 | removing the items with blank paths leaves the final container and the whole trace unchanged |
| SyncProperties.FailureIsolation | DotaDatabaseFunctions/CosmeticItemIconFunction.cs:82-107 | a failed item leaves no mark: the run without it ends in the same container, and every other item has the same outcome |
| SyncProperties.SecondRunRetriesOnlyFailures | DotaDatabaseFunctions/CosmeticItemIconFunction.cs:84 | a second run fetches an icon only for an item that failed in the first run |
| SyncProperties.SecondRunUploadsNothingStored | DotaDatabaseFunctions/CosmeticItemIconFunction.cs:84-96 | a second run never uploads a key that the container holds after the first run |
| SyncProperties.SecondRunIsIdempotent | DotaDatabaseFunctions/CosmeticItemIconFunction.cs:72-109 | when nothing failed, a second run fetches nothing, uploads nothing and leaves the container as it was |
| SyncProperties.VisitWithoutFaults | DotaDatabaseFunctions/CosmeticItemIconFunction.cs:84-101 | when no call throws, an item with a path is skipped if its key exists, and otherwise is stored under its key as image/jpg |
| SyncProperties.ThreeItemRun | DotaDatabaseFunctions/CosmeticItemIconFunction.cs:72-109 | with a blank item, a new item and an existing item, the outcomes are those three and exactly the two keys remain |
| SyncProperties.EndToEndScenario | DotaDatabaseFunctions/CosmeticItemIconFunction.cs:72-109 | items 1 (blank), 2 and 3 against a container that holds 3.jpg give Skipped, Stored and Exists, and the container ends as {2.jpg, 3.jpg} |
| CosmeticItemIcon.BlobContainer.Exists | DotaDatabaseFunctions/CosmeticItemIconFunction.cs:84 | the reply is Faulted exactly when the call throws, and Present exactly when it does not throw and the blob is there |
| CosmeticItemIcon.BlobContainer.Upload | DotaDatabaseFunctions/CosmeticItemIconFunction.cs:128-131 | unless it throws, the upload writes the bytes and the content type under the key; nothing else changes |
| CosmeticItemIcon.CosmeticItemIconFunction.Delay | DotaDatabaseFunctions/CosmeticItemIconFunction.cs:95 | a pause is recorded, with its length, after every earlier call |
| CosmeticItemIcon.CosmeticItemIconFunction.GetItemIconFromSteam | DotaDatabaseFunctions/CosmeticItemIconFunction.cs:114-122 | the icon and the calls made (the lookup of the lookup name, then the download of the CDN URL) are those of FetchIcon |
| CosmeticItemIcon.CosmeticItemIconFunction.UploadItemIconToBlobStorage | DotaDatabaseFunctions/CosmeticItemIconFunction.cs:124-132 | uploads the JPEG under the file name as image/jpg, or leaves the container unchanged when the call throws |
| CosmeticItemIcon.CosmeticItemIconFunction.SyncItemIcon | DotaDatabaseFunctions/CosmeticItemIconFunction.cs:79-107 | the outcome, the new container and the calls of one item with a path are those of SyncIcon |
| CosmeticItemIcon.CosmeticItemIconFunction.Run | DotaDatabaseFunctions/CosmeticItemIconFunction.cs:72-109 | the final container, the outcomes and the trace are those of Synchronize over all the items, so every run lemma above holds of the loop |

## Left out

- The schema download and parse (`GetSchemaAsync`, lines 157-175) are not modelled. The
  run takes its items as a parameter; a failure there aborts the run before the loop.
- `ConvertPngToJpg` (lines 134-155) is the `transcode` oracle of the `Environment`. Its
  pixels, its black background and its JPEG encoder are not modelled, only "decodes or
  throws".
- The Steam economy API, the HTTP client and the blob service are oracles. Configuration,
  connection strings, the timer trigger and logging have no effect on the modelled
  behaviour and are not modelled.
- A call that throws is modelled per key, URL or name, and is fixed for one run. A
  second run may use a different `Environment`.
- A lookup that returns a null `Data` is not distinguished. The URL then ends in "/", and
  the `resolveIconPath` oracle may return `Some("")` for it.
- `Task.Delay` is recorded in the trace as a `Delay` effect of so many milliseconds; no
  time passes.
- Two runs at the same time on one container are not modelled. That race, where another
  writer creates the key between the check and the upload, lies outside the
  single-threaded loop.
- The log message at line 89 says "JPG --> PNG", but the code converts PNG to JPEG.
  The model follows the code, and the message has no effect.
- Naming.StorageKey: DefIndex is an unbounded `nat`. The source's unsigned 32-bit bound
  does not change the decimal key, so it is not modelled.
- Naming.IsWhiteSpace: works on the character set that `Char.IsWhiteSpace` accepts. The
  UTF-16 surrogate handling of .NET strings is not modelled.
- DotaDatabaseFunctions/SchemaFunction.cs and DotaDatabaseFunctions/Startup.cs belong to
  other jobs and are not part of this model.
