/**
 * The icon synchronisation job as the source writes it: an object whose Run
 * method walks the schema items and, inside a try/catch per item, checks the
 * icon container for "{DefIndex}.jpg", and when it is missing fetches the
 * icon from Steam, transcodes it and uploads it, pausing after every item.
 * Each method is proved against the value-level definitions of IconSync.
 */
module CosmeticItemIcon {
  import opened Wrappers
  import opened Naming
  import opened IconSync
  import SyncProperties

  /** The "cosmeticitemicons" blob container, as seen through its block blob clients. */
  class BlobContainer {
    var blobs: Store

    constructor (initial: Store)
      ensures blobs == initial
    {
      blobs := initial;
    }

    /** ExistsAsync for the blob named key; Faulted when the call throws. */
    method Exists(key: string, env: Environment) returns (reply: Reply)
      ensures reply == Faulted <==> env.existsFails(key)
      ensures reply == Present <==> !env.existsFails(key) && key in blobs
      ensures reply == ExistsReply(blobs, key, env)
    {
      if env.existsFails(key) {
        reply := Faulted;
      } else if key in blobs {
        reply := Present;
      } else {
        reply := Absent;
      }
    }

    /**
     * UploadAsync for the blob named key: writes the bytes and content type,
     * replacing any blob of that name, unless the call throws.
     */
    method Upload(key: string, content: Bytes, contentType: string, env: Environment) returns (ok: bool)
      modifies this
      ensures ok == !env.uploadFails(key)
      ensures blobs == if ok then old(blobs)[key := Blob(content, contentType)] else old(blobs)
    {
      ok := !env.uploadFails(key);
      if ok {
        blobs := blobs[key := Blob(content, contentType)];
      }
    }
  }

  class CosmeticItemIconFunction {
    /** The calls made so far, in order: existence checks, lookups, downloads, uploads and pauses. */
    var trace: seq<Effect>

    constructor ()
      ensures trace == []
    {
      trace := [];
    }

    /** Task.Delay, recorded rather than waited for. */
    method Delay(ms: nat)
      modifies this
      ensures trace == old(trace) + [Effect.Delay(ms)]
    {
      trace := trace + [Effect.Delay(ms)];
    }

    /**
     * GetItemIconFromSteamAsync: look up the icon path of the text after the
     * last '/', then download "{SteamCdnBaseUrl}/{iconPath}".
     */
    method GetItemIconFromSteam(path: string, env: Environment) returns (icon: Result<Bytes, ItemError>)
      modifies this
      ensures icon == FetchIcon(path, env).icon
      ensures trace == old(trace) + FetchIcon(path, env).effects
    {
      // The text after the last '/', as LookupName computes it.
      ghost var trace0 := trace;
      var itemName := LookupName(path);
      trace := trace + [IconPathLookup(itemName)];
      var response := env.resolveIconPath(itemName);
      if response.None? {
        icon := Err(UpstreamLookupError);
        assert FetchIcon(path, env) == Fetch(icon, [IconPathLookup(itemName)]);
      } else {
        var itemIconUrl := IconUrl(SteamCdnBaseUrl, response.value);
        trace := trace + [Download(itemIconUrl)];
        var download := env.download(itemIconUrl);
        icon := if download.None? then Err(UpstreamDownloadError) else Ok(download.value);
        assert FetchIcon(path, env) == Fetch(icon, [IconPathLookup(itemName), Download(itemIconUrl)]);
        assert trace == trace0 + [IconPathLookup(itemName), Download(itemIconUrl)];
      }
    }

    /** UploadItemIconToBlobStorageAsync: upload the JPEG under fileName with content type image/jpg. */
    method UploadItemIconToBlobStorage(fileName: string, iconJpg: Bytes, container: BlobContainer, env: Environment)
      returns (ok: bool)
      modifies this, container
      ensures ok == !env.uploadFails(fileName)
      ensures container.blobs
              == if ok then old(container.blobs)[fileName := Blob(iconJpg, IconContentType)] else old(container.blobs)
      ensures trace == old(trace) + [Upload(fileName, IconContentType, ok)]
    {
      ok := container.Upload(fileName, iconJpg, IconContentType, env);
      trace := trace + [Upload(fileName, IconContentType, ok)];
    }

    /**
     * The try block for one item with a path, and its catch: a key that
     * exists is skipped after 500 ms; a missing one is fetched, transcoded
     * and uploaded, then 5 s pass; any exception is caught and 5 s pass.
     */
    method SyncItemIcon(uploadFileName: string, path: string, container: BlobContainer, env: Environment)
      returns (outcome: Outcome)
      modifies this, container
      ensures var step := SyncIcon(old(container.blobs), uploadFileName, path, env);
              && outcome == step.outcome
              && container.blobs == step.store
              && trace == old(trace) + step.effects
    {
      ghost var blobs0, trace0 := container.blobs, trace;
      var reply := container.Exists(uploadFileName, env);
      trace := trace + [ExistsCheck(uploadFileName, reply)];
      ghost var check := [ExistsCheck(uploadFileName, reply)];
      match reply
      case Faulted =>
        Delay(NewItemDelayMs);
        outcome := Failed(ExistsCheckError);
        assert trace == trace0 + (check + [Effect.Delay(NewItemDelayMs)]);
      case Present =>
        Delay(ExistingItemDelayMs);
        outcome := SkippedExists;
        assert trace == trace0 + (check + [Effect.Delay(ExistingItemDelayMs)]);
      case Absent =>
        ghost var fetch := FetchIcon(path, env);
        ghost var s := StoreIcon(blobs0, uploadFileName, fetch, env);
        assert SyncIcon(blobs0, uploadFileName, path, env) == Step(s.outcome, s.store, check + s.effects);
        var iconPng := GetItemIconFromSteam(path, env);
        if iconPng.Err? {
          Delay(NewItemDelayMs);
          assert trace == trace0 + (check + (fetch.effects + [Effect.Delay(NewItemDelayMs)]));
          return Failed(iconPng.error);
        }
        // ConvertPngToJpg
        var iconJpg := env.transcode(iconPng.value);
        if iconJpg.None? {
          Delay(NewItemDelayMs);
          assert trace == trace0 + (check + (fetch.effects + [Effect.Delay(NewItemDelayMs)]));
          return Failed(DecodeError);
        }
        var ok := UploadItemIconToBlobStorage(uploadFileName, iconJpg.value, container, env);
        Delay(NewItemDelayMs);
        assert trace == trace0 + (check + (fetch.effects + [Upload(uploadFileName, IconContentType, ok)] + [Effect.Delay(NewItemDelayMs)]));
        if !ok {
          return Failed(UploadError);
        }
        outcome := Stored;
    }

    /**
     * The loop of Run over the schema items: every item is visited in order,
     * an item without a path is passed over, and no failure stops the loop.
     * The container, the outcomes and the trace end as Synchronize says.
     */
    method Run(items: seq<Item>, container: BlobContainer, env: Environment) returns (outcomes: seq<Outcome>)
      modifies this, container
      ensures var r := Synchronize(old(container.blobs), items, env);
              && container.blobs == r.store
              && outcomes == r.outcomes
              && trace == old(trace) + r.effects
    {
      outcomes := [];
      for i := 0 to |items|
        invariant var r := Synchronize(old(container.blobs), items[..i], env);
                  && container.blobs == r.store
                  && outcomes == r.outcomes
                  && trace == old(trace) + r.effects
      {
        var item := items[i];
        ghost var prev := Synchronize(old(container.blobs), items[..i], env);
        ghost var step := Visit(prev.store, item, env);
        var outcome: Outcome;
        if !IsNullOrWhiteSpace(item.imagePath) {
          var uploadFileName := StorageKey(item.defIndex);
          assert step == SyncIcon(prev.store, uploadFileName, item.imagePath.value, env);
          outcome := SyncItemIcon(uploadFileName, item.imagePath.value, container, env);
        } else {
          assert step == Step(SkippedEmptyPath, prev.store, []);
          outcome := SkippedEmptyPath;
        }
        assert outcome == step.outcome && container.blobs == step.store;
        assert trace == old(trace) + (prev.effects + step.effects);
        outcomes := outcomes + [outcome];
        assert items[..i + 1] == items[..i] + [item];
        SyncProperties.SynchronizeSnoc(old(container.blobs), items[..i], item, env);
      }
      assert items[..|items|] == items;
    }
  }
}
