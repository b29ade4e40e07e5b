/**
 * What the icon loop guarantees: per item (empty-path skip, no overwrite,
 * pacing) and per run (the container only grows, at most one upload per key,
 * failure isolation, in-order processing, and a second run that retries only
 * the items that failed).
 */
module SyncProperties {
  import opened Wrappers
  import opened Naming
  import opened IconSync

  // ---------------------------------------------------------------------------
  // Traces
  // ---------------------------------------------------------------------------

  lemma {:induction false} DelaysAppend(a: seq<Effect>, b: seq<Effect>)
    ensures Delays(a + b) == Delays(a) + Delays(b)
    decreases |b|
  {
    if b != [] {
      var b' := b[..|b| - 1];
      assert (a + b)[..|a + b| - 1] == a + b';
      DelaysAppend(a, b');
    } else {
      assert a + b == a;
    }
  }

  lemma {:induction false} AcceptedUploadsAppend(a: seq<Effect>, b: seq<Effect>, key: string)
    ensures AcceptedUploads(a + b, key) == AcceptedUploads(a, key) + AcceptedUploads(b, key)
    decreases |b|
  {
    if b != [] {
      var b' := b[..|b| - 1];
      assert (a + b)[..|a + b| - 1] == a + b';
      AcceptedUploadsAppend(a, b', key);
    } else {
      assert a + b == a;
    }
  }

  lemma {:induction false} PacingAppend(a: seq<Outcome>, b: seq<Outcome>)
    ensures Pacing(a + b) == Pacing(a) + Pacing(b)
    decreases |b|
  {
    if b != [] {
      var b' := b[..|b| - 1];
      assert (a + b)[..|a + b| - 1] == a + b';
      PacingAppend(a, b');
    } else {
      assert a + b == a;
    }
  }

  /** A trace without a successful upload records no accepted upload of any key. */
  lemma {:induction false} NoAcceptedUploads(effects: seq<Effect>, key: string)
    requires forall j :: 0 <= j < |effects| ==> !(effects[j].Upload? && effects[j].accepted)
    ensures AcceptedUploads(effects, key) == 0
    decreases |effects|
  {
    if effects != [] {
      NoAcceptedUploads(effects[..|effects| - 1], key);
    }
  }

  /** A trace without a pause records no delay. */
  lemma {:induction false} NoDelays(effects: seq<Effect>)
    requires forall j :: 0 <= j < |effects| ==> !effects[j].Delay?
    ensures Delays(effects) == []
    decreases |effects|
  {
    if effects != [] {
      NoDelays(effects[..|effects| - 1]);
    }
  }

  /** A trace without pauses, followed by one pause, records exactly that pause. */
  lemma PauseAfter(pre: seq<Effect>, ms: nat)
    requires forall j :: 0 <= j < |pre| ==> !pre[j].Delay?
    ensures Delays(pre + [Delay(ms)]) == [ms]
  {
    NoDelays(pre);
    assert (pre + [Delay(ms)])[..|pre|] == pre;
  }

  /** Fetching an icon only looks the name up and downloads: it neither pauses nor uploads. */
  predicate Quiet(effects: seq<Effect>)
  {
    forall j :: 0 <= j < |effects| ==> effects[j].IconPathLookup? || effects[j].Download?
  }

  lemma FetchIconQuiet(path: string, env: Environment)
    ensures Quiet(FetchIcon(path, env).effects)
  {
  }

  lemma QuietTrace(effects: seq<Effect>, k: string)
    requires Quiet(effects)
    ensures Delays(effects) == [] && AcceptedUploads(effects, k) == 0
  {
    NoDelays(effects);
    NoAcceptedUploads(effects, k);
  }

  // ---------------------------------------------------------------------------
  // One item
  // ---------------------------------------------------------------------------

  /**
   * Which outcome an item gets: empty-path skip exactly for a null, empty or
   * white-space path; existing-key skip exactly when the check answers
   * Present; the icon is fetched exactly when the check answers Absent.
   */
  lemma VisitOutcome(store: Store, item: Item, env: Environment)
    ensures var step := Visit(store, item, env);
            var reply := ExistsReply(store, StorageKey(item.defIndex), env);
            && (step.outcome == SkippedEmptyPath <==> IsNullOrWhiteSpace(item.imagePath))
            && (step.outcome == SkippedExists <==> !IsNullOrWhiteSpace(item.imagePath) && reply == Present)
            && (step.outcome == Failed(ExistsCheckError) <==> !IsNullOrWhiteSpace(item.imagePath) && reply == Faulted)
            && (Attempted(step.outcome) <==> !IsNullOrWhiteSpace(item.imagePath) && reply == Absent)
  {
    if !IsNullOrWhiteSpace(item.imagePath) {
      var key := StorageKey(item.defIndex);
      if ExistsReply(store, key, env) == Absent {
        var fetch := FetchIcon(item.imagePath.value, env);
        FetchIconErrors(item.imagePath.value, env);
        StoreIconAttempted(store, key, fetch, env);
      }
    }
  }

  /** Fetching an icon fails only on the lookup or on the download. */
  lemma FetchIconErrors(path: string, env: Environment)
    ensures var icon := FetchIcon(path, env).icon;
            icon.Err? ==> icon.error == UpstreamLookupError || icon.error == UpstreamDownloadError
  {
  }

  /** Once the key was found absent, the item counts as attempted whatever happens next. */
  lemma StoreIconAttempted(store: Store, key: string, fetch: Fetch, env: Environment)
    requires fetch.icon.Err? ==> fetch.icon.error != ExistsCheckError
    ensures Attempted(StoreIcon(store, key, fetch, env).outcome)
  {
  }

  /**
   * The absent-key branch writes only when it stores, and then writes the
   * transcoded bytes of the fetched icon under its key as image/jpg.
   */
  lemma StoreIconStore(store: Store, key: string, fetch: Fetch, env: Environment)
    ensures var s := StoreIcon(store, key, fetch, env);
            && (!s.outcome.Stored? ==> s.store == store)
            && (s.outcome.Stored? ==>
                  && fetch.icon.Ok?
                  && env.transcode(fetch.icon.value).Some?
                  && s.store == store[key := Blob(env.transcode(fetch.icon.value).value, IconContentType)])
  {
  }

  /**
   * How one item changes the container: only a Stored item writes, it writes
   * its own key, which was absent, with content type image/jpg and the
   * transcoded bytes of the icon fetched for its own path, and it keeps
   * every other blob.
   */
  lemma VisitStore(store: Store, item: Item, env: Environment)
    ensures var step := Visit(store, item, env);
            var key := StorageKey(item.defIndex);
            && (!step.outcome.Stored? ==> step.store == store)
            && (step.outcome.Stored? ==>
                  && key !in store
                  && step.store.Keys == store.Keys + {key}
                  && step.store[key].contentType == IconContentType
                  && item.imagePath.Some?
                  && FetchIcon(item.imagePath.value, env).icon.Ok?
                  && env.transcode(FetchIcon(item.imagePath.value, env).icon.value) == Some(step.store[key].content)
                  && forall k :: k in store ==> step.store[k] == store[k])
  {
    if !IsNullOrWhiteSpace(item.imagePath) {
      var key := StorageKey(item.defIndex);
      var step := SyncIcon(store, key, item.imagePath.value, env);
      if ExistsReply(store, key, env) == Absent {
        var fetch := FetchIcon(item.imagePath.value, env);
        var s := StoreIcon(store, key, fetch, env);
        assert step.outcome == s.outcome && step.store == s.store;
        StoreIconStore(store, key, fetch, env);
      } else {
        assert step.store == store && !step.outcome.Stored?;
      }
    }
  }

  /**
   * An item that reaches the fetch looks up the text after the last '/' of
   * its own path right after the existence check, and, when that lookup
   * answers, downloads that icon path under the CDN base.
   */
  lemma VisitFetchesOwnIcon(store: Store, item: Item, env: Environment)
    ensures var step := Visit(store, item, env);
            Attempted(step.outcome) ==>
              && item.imagePath.Some?
              && var name := LookupName(item.imagePath.value);
              && |step.effects| >= 2
              && step.effects[1] == IconPathLookup(name)
              && (env.resolveIconPath(name).Some? ==>
                    && |step.effects| >= 3
                    && step.effects[2] == Download(IconUrl(SteamCdnBaseUrl, env.resolveIconPath(name).value)))
  {
    var step := Visit(store, item, env);
    if Attempted(step.outcome) {
      VisitOutcome(store, item, env);
      var path := item.imagePath.value;
      var key := StorageKey(item.defIndex);
      var fetch := FetchIcon(path, env);
      var s := StoreIcon(store, key, fetch, env);
      assert step.effects == [ExistsCheck(key, Absent)] + s.effects;
      FetchIconCalls(path, env);
      StoreIconBeginsWithFetch(store, key, fetch, env);
      assert step.effects[1..] == s.effects;
    }
  }

  /** The fetch first looks up the lookup name, then downloads the resolved icon path. */
  lemma FetchIconCalls(path: string, env: Environment)
    ensures var f := FetchIcon(path, env);
            var name := LookupName(path);
            && |f.effects| >= 1
            && f.effects[0] == IconPathLookup(name)
            && (env.resolveIconPath(name).Some? ==>
                  && |f.effects| >= 2
                  && f.effects[1] == Download(IconUrl(SteamCdnBaseUrl, env.resolveIconPath(name).value)))
  {
  }

  /** The absent-key branch starts with the calls of the fetch. */
  lemma StoreIconBeginsWithFetch(store: Store, key: string, fetch: Fetch, env: Environment)
    ensures fetch.effects <= StoreIcon(store, key, fetch, env).effects
  {
  }

  /** The pause that ends the absent-key branch, whichever call failed. */
  lemma StoreIconDelays(store: Store, key: string, fetch: Fetch, env: Environment)
    requires Quiet(fetch.effects)
    ensures Delays(StoreIcon(store, key, fetch, env).effects) == [NewItemDelayMs]
    ensures PacingOf(StoreIcon(store, key, fetch, env).outcome) == [NewItemDelayMs]
    ensures var s := StoreIcon(store, key, fetch, env);
            |s.effects| > 0 && s.effects[|s.effects| - 1] == Delay(NewItemDelayMs)
  {
    var s := StoreIcon(store, key, fetch, env);
    StoreIconPauseLast(store, key, fetch, env);
    var pre := s.effects[..|s.effects| - 1];
    assert s.effects == pre + [Delay(NewItemDelayMs)];
    PauseAfter(pre, NewItemDelayMs);
  }

  /** The absent-key branch ends with its one pause, and makes no other. */
  lemma StoreIconPauseLast(store: Store, key: string, fetch: Fetch, env: Environment)
    requires Quiet(fetch.effects)
    ensures var s := StoreIcon(store, key, fetch, env);
            && |s.effects| > 0
            && s.effects[|s.effects| - 1] == Delay(NewItemDelayMs)
            && forall j :: 0 <= j < |s.effects| - 1 ==> !s.effects[j].Delay?
  {
  }

  /** The absent-key branch uploads only its key, as image/jpg. */
  lemma StoreIconUploadKey(store: Store, key: string, fetch: Fetch, env: Environment)
    requires Quiet(fetch.effects)
    ensures var s := StoreIcon(store, key, fetch, env);
            forall j :: 0 <= j < |s.effects| && s.effects[j].Upload? ==>
              s.effects[j].key == key && s.effects[j].contentType == IconContentType
  {
  }

  /** The absent-key branch makes one accepted upload of its key exactly when it stores. */
  lemma StoreIconAccepted(store: Store, key: string, fetch: Fetch, env: Environment, k: string)
    requires Quiet(fetch.effects)
    ensures var s := StoreIcon(store, key, fetch, env);
            AcceptedUploads(s.effects, k) == (if s.outcome.Stored? && k == key then 1 else 0)
  {
    var s := StoreIcon(store, key, fetch, env);
    var pause := [Delay(NewItemDelayMs)];
    QuietTrace(fetch.effects, k);
    match fetch.icon
    case Err(_) =>
      AcceptedUploadsAppend(fetch.effects, pause, k);
    case Ok(png) =>
      match env.transcode(png)
      case None =>
        AcceptedUploadsAppend(fetch.effects, pause, k);
      case Some(jpg) =>
        var u := Upload(key, IconContentType, !env.uploadFails(key));
        assert s.effects == (fetch.effects + [u]) + pause;
        AcceptedUploadsAppend(fetch.effects, [u], k);
        AcceptedUploadsAppend(fetch.effects + [u], pause, k);
  }

  /**
   * The calls one item with a path makes: first the existence check of its
   * key, then exactly the pause its outcome calls for (500 ms after an
   * existing key, 5 s after a store or a caught failure).
   */
  lemma SyncIconPacing(store: Store, key: string, path: string, env: Environment)
    ensures var step := SyncIcon(store, key, path, env);
            && |step.effects| > 0
            && step.effects[0] == ExistsCheck(key, ExistsReply(store, key, env))
            && Delays(step.effects) == PacingOf(step.outcome)
  {
    var reply := ExistsReply(store, key, env);
    var check := [ExistsCheck(key, reply)];
    assert Delays(check) == [] by { NoDelays(check); }
    match reply
    case Faulted =>
      DelaysAppend(check, [Delay(NewItemDelayMs)]);
    case Present =>
      DelaysAppend(check, [Delay(ExistingItemDelayMs)]);
    case Absent =>
      var fetch := FetchIcon(path, env);
      var s := StoreIcon(store, key, fetch, env);
      FetchIconQuiet(path, env);
      StoreIconDelays(store, key, fetch, env);
      DelaysAppend(check, s.effects);
  }

  /**
   * The calls one item makes: none for an empty path; otherwise the first is
   * the existence check of its key, and its delays are exactly the pause its
   * outcome calls for.
   */
  lemma VisitPacing(store: Store, item: Item, env: Environment)
    ensures var step := Visit(store, item, env);
            var key := StorageKey(item.defIndex);
            && (step.outcome == SkippedEmptyPath <==> step.effects == [])
            && (step.effects != [] ==> step.effects[0] == ExistsCheck(key, ExistsReply(store, key, env)))
            && Delays(step.effects) == PacingOf(step.outcome)
  {
    VisitOutcome(store, item, env);
    if !IsNullOrWhiteSpace(item.imagePath) {
      var key := StorageKey(item.defIndex);
      var step := SyncIcon(store, key, item.imagePath.value, env);
      assert Visit(store, item, env) == step;
      SyncIconPacing(store, key, item.imagePath.value, env);
    } else {
      assert Visit(store, item, env) == Step(SkippedEmptyPath, store, []);
    }
  }

  /**
   * No overwrite, per item with a path: an upload is only of its own key,
   * only after the existence check of that key answered Absent, and only when
   * the key is not in the container; it carries content type image/jpg, and
   * an accepted upload happens exactly when the item is Stored.
   */
  lemma SyncIconUploads(store: Store, key: string, path: string, env: Environment, k: string)
    ensures var step := SyncIcon(store, key, path, env);
            && (forall j :: 0 <= j < |step.effects| && step.effects[j].Upload? ==>
                  && step.effects[j].key == key
                  && step.effects[j].contentType == IconContentType
                  && step.effects[0] == ExistsCheck(key, Absent)
                  && key !in store)
            && AcceptedUploads(step.effects, k) == (if step.outcome.Stored? && k == key then 1 else 0)
  {
    var step := SyncIcon(store, key, path, env);
    var reply := ExistsReply(store, key, env);
    var check := [ExistsCheck(key, reply)];
    assert step.effects == check + step.effects[1..];
    AcceptedUploadsAppend(check, step.effects[1..], k);
    if reply == Absent {
      var fetch := FetchIcon(path, env);
      FetchIconQuiet(path, env);
      StoreIconUploadKey(store, key, fetch, env);
      StoreIconAccepted(store, key, fetch, env, k);
    } else {
      NoAcceptedUploads(step.effects[1..], k);
    }
  }

  /** SyncIconUploads for a whole item: nothing at all for an empty path. */
  lemma VisitUploads(store: Store, item: Item, env: Environment, k: string)
    ensures var step := Visit(store, item, env);
            var key := StorageKey(item.defIndex);
            && (forall j :: 0 <= j < |step.effects| && step.effects[j].Upload? ==>
                  && step.effects[j].key == key
                  && step.effects[j].contentType == IconContentType
                  && step.effects[0] == ExistsCheck(key, Absent)
                  && key !in store)
            && AcceptedUploads(step.effects, k) == (if step.outcome.Stored? && k == key then 1 else 0)
  {
    if !IsNullOrWhiteSpace(item.imagePath) {
      SyncIconUploads(store, StorageKey(item.defIndex), item.imagePath.value, env, k);
    }
  }

  // ---------------------------------------------------------------------------
  // A whole run
  // ---------------------------------------------------------------------------

  /** Every blob of `before` is in `after`, unchanged. */
  ghost predicate Grows(before: Store, after: Store)
  {
    forall k :: k in before ==> k in after && after[k] == before[k]
  }

  /** Appending one item to the schema appends one visit to the run. */
  lemma SweepSnoc(store: Store, items: seq<Item>, item: Item, visit: (Store, Item) -> Step)
    ensures var prev := Sweep(store, items, visit);
            var step := visit(prev.store, item);
            Sweep(store, items + [item], visit)
              == RunResult(step.store, prev.outcomes + [step.outcome], prev.effects + step.effects)
  {
    assert (items + [item])[..|items|] == items;
  }

  lemma SynchronizeSnoc(store: Store, items: seq<Item>, item: Item, env: Environment)
    ensures var prev := Synchronize(store, items, env);
            var step := Visit(prev.store, item, env);
            Synchronize(store, items + [item], env)
              == RunResult(step.store, prev.outcomes + [step.outcome], prev.effects + step.effects)
  {
    SweepSnoc(store, items, item, VisitIn(env));
  }

  /**
   * In-order processing: a run over a + b ends where the run over b ends when
   * started from the container the run over a left behind ...
   */
  lemma {:induction false} SweepSplitStore(store: Store, a: seq<Item>, b: seq<Item>, visit: (Store, Item) -> Step)
    ensures Sweep(store, a + b, visit).store == Sweep(Sweep(store, a, visit).store, b, visit).store
    decreases |b|
  {
    if b == [] {
      assert a + b == a;
    } else {
      var b' := b[..|b| - 1];
      assert (a + b)[..|a + b| - 1] == a + b';
      assert (a + b)[|a + b| - 1] == b[|b| - 1];
      SweepSplitStore(store, a, b', visit);
    }
  }

  /** ... its outcomes are those of a followed by those of b ... */
  lemma {:induction false} SweepSplitOutcomes(store: Store, a: seq<Item>, b: seq<Item>, visit: (Store, Item) -> Step)
    ensures var ra := Sweep(store, a, visit);
            Sweep(store, a + b, visit).outcomes == ra.outcomes + Sweep(ra.store, b, visit).outcomes
    decreases |b|
  {
    if b == [] {
      assert a + b == a;
    } else {
      var b', x := b[..|b| - 1], b[|b| - 1];
      var ra := Sweep(store, a, visit);
      var rb' := Sweep(ra.store, b', visit);
      assert (a + b)[..|a + b| - 1] == a + b';
      assert (a + b)[|a + b| - 1] == x;
      SweepSplitOutcomes(store, a, b', visit);
      SweepSplitStore(store, a, b', visit);
      var o := visit(rb'.store, x).outcome;
      assert Sweep(ra.store, b, visit).outcomes == rb'.outcomes + [o];
      assert (ra.outcomes + rb'.outcomes) + [o] == ra.outcomes + (rb'.outcomes + [o]);
    }
  }

  /** ... and its calls are those of a followed by those of b. */
  lemma {:induction false} SweepSplitEffects(store: Store, a: seq<Item>, b: seq<Item>, visit: (Store, Item) -> Step)
    ensures var ra := Sweep(store, a, visit);
            Sweep(store, a + b, visit).effects == ra.effects + Sweep(ra.store, b, visit).effects
    decreases |b|
  {
    if b == [] {
      assert a + b == a;
    } else {
      var b', x := b[..|b| - 1], b[|b| - 1];
      var ra := Sweep(store, a, visit);
      var rb' := Sweep(ra.store, b', visit);
      assert (a + b)[..|a + b| - 1] == a + b';
      assert (a + b)[|a + b| - 1] == x;
      SweepSplitEffects(store, a, b', visit);
      SweepSplitStore(store, a, b', visit);
      var e := visit(rb'.store, x).effects;
      assert Sweep(ra.store, b, visit).effects == rb'.effects + e;
      assert (ra.effects + rb'.effects) + e == ra.effects + (rb'.effects + e);
    }
  }

  /** The three together, for the loop body. */
  lemma SynchronizeSplit(store: Store, a: seq<Item>, b: seq<Item>, env: Environment)
    ensures var ra := Synchronize(store, a, env);
            var rb := Synchronize(ra.store, b, env);
            Synchronize(store, a + b, env) == RunResult(rb.store, ra.outcomes + rb.outcomes, ra.effects + rb.effects)
  {
    SweepSplitStore(store, a, b, VisitIn(env));
    SweepSplitOutcomes(store, a, b, VisitIn(env));
    SweepSplitEffects(store, a, b, VisitIn(env));
  }

  /** The container only grows: every blob present before the run is still there, unchanged. */
  lemma {:induction false} StoreOnlyGrows(store: Store, items: seq<Item>, env: Environment)
    ensures Grows(store, Synchronize(store, items, env).store)
    decreases |items|
  {
    if items != [] {
      var init := items[..|items| - 1];
      assert items == init + [items[|items| - 1]];
      SynchronizeSnoc(store, init, items[|items| - 1], env);
      StoreOnlyGrows(store, init, env);
      VisitStore(Synchronize(store, init, env).store, items[|items| - 1], env);
    }
  }

  /** The container after the first n items is contained in the final one. */
  lemma PrefixStoreGrows(store: Store, items: seq<Item>, env: Environment, n: nat)
    requires n <= |items|
    ensures Grows(Synchronize(store, items[..n], env).store, Synchronize(store, items, env).store)
  {
    assert items == items[..n] + items[n..];
    SynchronizeSplit(store, items[..n], items[n..], env);
    StoreOnlyGrows(Synchronize(store, items[..n], env).store, items[n..], env);
  }

  /**
   * In-order processing: the outcome of item i is what visiting it gives on
   * the container the items before it left behind.
   */
  lemma OutcomeInOrder(store: Store, items: seq<Item>, env: Environment, i: nat)
    requires i < |items|
    ensures var before := Synchronize(store, items[..i], env);
            var step := Visit(before.store, items[i], env);
            && Synchronize(store, items[..i + 1], env).store == step.store
            && Synchronize(store, items, env).outcomes[i] == step.outcome
  {
    assert items == items[..i + 1] + items[i + 1..];
    assert items[..i + 1] == items[..i] + [items[i]];
    SynchronizeSplit(store, items[..i + 1], items[i + 1..], env);
    SynchronizeSnoc(store, items[..i], items[i], env);
  }

  /**
   * The keys a run adds are exactly the keys of the items it Stored, and
   * every blob it adds has content type image/jpg.
   */
  lemma {:induction false} NewKeysAreStoredItems(store: Store, items: seq<Item>, env: Environment, k: string)
    ensures var r := Synchronize(store, items, env);
            && ((k in r.store && k !in store) <==>
                  exists i :: 0 <= i < |items| && r.outcomes[i] == Stored && StorageKey(items[i].defIndex) == k)
            && (k in r.store && k !in store ==> r.store[k].contentType == IconContentType)
    decreases |items|
  {
    var r := Synchronize(store, items, env);
    if items != [] {
      var n := |items| - 1;
      var init := items[..n];
      var prev := Synchronize(store, init, env);
      var step := Visit(prev.store, items[n], env);
      assert items == init + [items[n]];
      SynchronizeSnoc(store, init, items[n], env);
      NewKeysAreStoredItems(store, init, env, k);
      StoreOnlyGrows(store, init, env);
      VisitStore(prev.store, items[n], env);
      assert forall i :: 0 <= i < n ==> r.outcomes[i] == prev.outcomes[i] && items[i] == init[i];
      assert r.outcomes[n] == step.outcome;
    }
  }

  /**
   * No overwrite, per run: every upload the run attempts is of a key that
   * was not in the container when the run started, with content type image/jpg.
   */
  lemma {:induction false} NoUploadToExistingKey(store: Store, items: seq<Item>, env: Environment)
    ensures var r := Synchronize(store, items, env);
            forall j :: 0 <= j < |r.effects| && r.effects[j].Upload? ==>
              r.effects[j].key !in store && r.effects[j].contentType == IconContentType
    decreases |items|
  {
    if items != [] {
      var n := |items| - 1;
      var init := items[..n];
      var prev := Synchronize(store, init, env);
      var step := Visit(prev.store, items[n], env);
      assert items == init + [items[n]];
      SynchronizeSnoc(store, init, items[n], env);
      NoUploadToExistingKey(store, init, env);
      StoreOnlyGrows(store, init, env);
      VisitUploads(prev.store, items[n], env, "");
      var effects := prev.effects + step.effects;
      forall j | 0 <= j < |effects| && effects[j].Upload?
        ensures effects[j].key !in store && effects[j].contentType == IconContentType
      {
        if j >= |prev.effects| {
          var e := step.effects[j - |prev.effects|];
          assert effects[j] == e;
          assert e.key == StorageKey(items[n].defIndex) && e.key !in prev.store;
        } else {
          assert effects[j] == prev.effects[j];
        }
      }
    }
  }

  /**
   * At most one upload per key per run: a key is uploaded successfully once
   * if the run added it to the container, and never otherwise; in particular
   * two items with the same DefIndex never both write it.
   */
  lemma {:induction false} AtMostOneUploadPerKey(store: Store, items: seq<Item>, env: Environment, k: string)
    ensures var r := Synchronize(store, items, env);
            AcceptedUploads(r.effects, k) == (if k in r.store && k !in store then 1 else 0)
    decreases |items|
  {
    if items != [] {
      var n := |items| - 1;
      var init := items[..n];
      var prev := Synchronize(store, init, env);
      var step := Visit(prev.store, items[n], env);
      assert items == init + [items[n]];
      SynchronizeSnoc(store, init, items[n], env);
      AtMostOneUploadPerKey(store, init, env, k);
      StoreOnlyGrows(store, init, env);
      VisitStore(prev.store, items[n], env);
      VisitUploads(prev.store, items[n], env, k);
      AcceptedUploadsAppend(prev.effects, step.effects, k);
    }
  }

  /**
   * Two items with one DefIndex: once the earlier one is Stored, the later
   * one finds its key in the container and is skipped as existing (unless
   * that existence check throws).
   */
  lemma LaterDuplicateIsSkipped(store: Store, items: seq<Item>, env: Environment, i: nat, j: nat)
    requires i < j < |items|
    requires items[i].defIndex == items[j].defIndex
    requires !IsNullOrWhiteSpace(items[j].imagePath)
    requires Synchronize(store, items, env).outcomes[i] == Stored
    requires !env.existsFails(StorageKey(items[j].defIndex))
    ensures Synchronize(store, items, env).outcomes[j] == SkippedExists
  {
    StoredKeyStays(store, items, env, i, j);
    var before := Synchronize(store, items[..j], env).store;
    OutcomeInOrder(store, items, env, j);
    VisitOutcome(before, items[j], env);
  }

  /** The key of a Stored item is in the container for the rest of the run. */
  lemma StoredKeyStays(store: Store, items: seq<Item>, env: Environment, i: nat, j: nat)
    requires i < j <= |items|
    requires Synchronize(store, items, env).outcomes[i] == Stored
    ensures StorageKey(items[i].defIndex) in Synchronize(store, items[..j], env).store
  {
    OutcomeInOrder(store, items, env, i);
    VisitStore(Synchronize(store, items[..i], env).store, items[i], env);
    assert items[..j][..i + 1] == items[..i + 1];
    PrefixStoreGrows(store, items[..j], env, i + 1);
  }

  /**
   * The pacing trace: the delays a run records are, in order, 500 ms per
   * existing-key skip, 5 s per stored icon or caught failure, and none for an
   * empty-path skip.
   */
  lemma {:induction false} PacingTrace(store: Store, items: seq<Item>, env: Environment)
    ensures var r := Synchronize(store, items, env);
            Delays(r.effects) == Pacing(r.outcomes)
    decreases |items|
  {
    if items != [] {
      var n := |items| - 1;
      var init := items[..n];
      var prev := Synchronize(store, init, env);
      var step := Visit(prev.store, items[n], env);
      assert items == init + [items[n]];
      SynchronizeSnoc(store, init, items[n], env);
      PacingTrace(store, init, env);
      VisitPacing(prev.store, items[n], env);
      DelaysAppend(prev.effects, step.effects);
      PacingAppend(prev.outcomes, [step.outcome]);
      assert Pacing([step.outcome]) == PacingOf(step.outcome);
    }
  }

  /** The items the loop does not skip as having no image path. */
  function WithPaths(items: seq<Item>): (r: seq<Item>)
    ensures forall i :: 0 <= i < |r| ==> !IsNullOrWhiteSpace(r[i].imagePath)
    ensures forall x :: x in r <==> x in items && !IsNullOrWhiteSpace(x.imagePath)
    ensures |r| <= |items|
    decreases |items|
  {
    if items == [] then []
    else
      var init, last := items[..|items| - 1], items[|items| - 1];
      assert forall x :: x in items <==> x in init || x == last;
      if IsNullOrWhiteSpace(last.imagePath) then WithPaths(init)
      else WithPaths(init) + [last]
  }

  /**
   * Empty-path skip, per run: items with a null, empty or white-space path
   * make no call and change nothing; the run behaves as if they were absent.
   */
  lemma {:induction false} EmptyPathItemsAreInert(store: Store, items: seq<Item>, env: Environment)
    ensures var r := Synchronize(store, items, env);
            var r' := Synchronize(store, WithPaths(items), env);
            r'.store == r.store && r'.effects == r.effects
    decreases |items|
  {
    if items != [] {
      var n := |items| - 1;
      var init := items[..n];
      assert items == init + [items[n]];
      SynchronizeSnoc(store, init, items[n], env);
      EmptyPathItemsAreInert(store, init, env);
      if !IsNullOrWhiteSpace(items[n].imagePath) {
        SynchronizeSnoc(store, WithPaths(init), items[n], env);
      } else {
        assert Synchronize(store, items, env).effects == Synchronize(store, init, env).effects + [];
      }
    }
  }

  /**
   * Failure isolation: an item whose pipeline failed leaves no trace in the
   * container, so the run over the schema without it ends with the same
   * container and gives every other item the same outcome.
   */
  lemma FailureIsolation(store: Store, items: seq<Item>, env: Environment, k: nat)
    requires k < |items|
    requires Synchronize(store, items, env).outcomes[k].Failed?
    ensures var r := Synchronize(store, items, env);
            var r' := Synchronize(store, items[..k] + items[k + 1..], env);
            r'.store == r.store && r'.outcomes == r.outcomes[..k] + r.outcomes[k + 1..]
  {
    var a, x, b := items[..k], items[k], items[k + 1..];
    var ra := Synchronize(store, a, env);
    var step := Visit(ra.store, x, env);
    var rb := Synchronize(ra.store, b, env);
    assert items == (a + [x]) + b;
    SynchronizeSnoc(store, a, x, env);
    SynchronizeSplit(store, a + [x], b, env);
    SynchronizeSplit(store, a, b, env);
    VisitStore(ra.store, x, env);
    var r := Synchronize(store, items, env);
    assert r.outcomes == (ra.outcomes + [step.outcome]) + rb.outcomes;
    assert r.outcomes[..k] == ra.outcomes;
    assert r.outcomes[k + 1..] == rb.outcomes;
  }

  /**
   * A second run over the same items, started from the container the first
   * run left, fetches an icon only for an item that failed in the first run;
   * and it uploads no key the first run stored.
   */
  lemma SecondRunRetriesOnlyFailures(store: Store, items: seq<Item>, env1: Environment, env2: Environment, i: nat)
    requires i < |items|
    ensures var r1 := Synchronize(store, items, env1);
            var r2 := Synchronize(r1.store, items, env2);
            Attempted(r2.outcomes[i]) ==> r1.outcomes[i].Failed?
  {
    var r1 := Synchronize(store, items, env1);
    var r2 := Synchronize(r1.store, items, env2);
    var key := StorageKey(items[i].defIndex);
    if Attempted(r2.outcomes[i]) {
      var m2 := Synchronize(r1.store, items[..i], env2).store;
      OutcomeInOrder(r1.store, items, env2, i);
      VisitOutcome(m2, items[i], env2);
      StoreOnlyGrows(r1.store, items[..i], env2);
      assert key !in r1.store;
      var p1 := Synchronize(store, items[..i], env1).store;
      OutcomeInOrder(store, items, env1, i);
      PrefixStoreGrows(store, items, env1, i + 1);
      VisitOutcome(p1, items[i], env1);
      VisitStore(p1, items[i], env1);
    }
  }

  /** The second run makes no upload of a key the first run stored or found. */
  lemma SecondRunUploadsNothingStored(store: Store, items: seq<Item>, env1: Environment, env2: Environment, k: string)
    requires k in Synchronize(store, items, env1).store
    ensures var r1 := Synchronize(store, items, env1);
            var r2 := Synchronize(r1.store, items, env2);
            && AcceptedUploads(r2.effects, k) == 0
            && forall j :: 0 <= j < |r2.effects| && r2.effects[j].Upload? ==> r2.effects[j].key != k
  {
    var r1 := Synchronize(store, items, env1);
    NoUploadToExistingKey(r1.store, items, env2);
    AtMostOneUploadPerKey(r1.store, items, env2, k);
  }

  /**
   * Idempotence: when no item failed in the first run, a second run over the
   * same items fetches nothing, uploads nothing and leaves the container as
   * the first run left it.
   */
  lemma SecondRunIsIdempotent(store: Store, items: seq<Item>, env1: Environment, env2: Environment)
    requires forall i :: 0 <= i < |items| ==> !Synchronize(store, items, env1).outcomes[i].Failed?
    ensures var r1 := Synchronize(store, items, env1);
            var r2 := Synchronize(r1.store, items, env2);
            && r2.store == r1.store
            && (forall i :: 0 <= i < |items| ==> !Attempted(r2.outcomes[i]))
            && (forall k :: AcceptedUploads(r2.effects, k) == 0)
  {
    var r1 := Synchronize(store, items, env1);
    var r2 := Synchronize(r1.store, items, env2);
    forall i | 0 <= i < |items| ensures !Attempted(r2.outcomes[i]) {
      SecondRunRetriesOnlyFailures(store, items, env1, env2, i);
    }
    forall k ensures k in r2.store ==> k in r1.store {
      NewKeysAreStoredItems(r1.store, items, env2, k);
    }
    StoreOnlyGrows(r1.store, items, env2);
    forall k ensures AcceptedUploads(r2.effects, k) == 0 {
      AtMostOneUploadPerKey(r1.store, items, env2, k);
    }
  }

  // ---------------------------------------------------------------------------
  // A concrete scenario
  // ---------------------------------------------------------------------------

  /** An environment in which no call throws and every icon decodes. */
  ghost predicate NoFaults(env: Environment)
  {
    && (forall k :: !env.existsFails(k))
    && (forall k :: !env.uploadFails(k))
    && (forall n :: env.resolveIconPath(n).Some?)
    && (forall u :: env.download(u).Some?)
    && (forall b :: env.transcode(b).Some?)
  }

  /** An item with a path that is not white space, under a fault-free environment. */
  lemma VisitWithoutFaults(store: Store, item: Item, env: Environment)
    requires NoFaults(env)
    requires !IsNullOrWhiteSpace(item.imagePath)
    ensures var key := StorageKey(item.defIndex);
            var step := Visit(store, item, env);
            && (key in store ==> step.outcome == SkippedExists && step.store == store)
            && (key !in store ==> step.outcome == Stored && step.store.Keys == store.Keys + {key}
                                  && step.store[key].contentType == IconContentType
                                  && forall k :: k in store ==> step.store[k] == store[k])
  {
    var key := StorageKey(item.defIndex);
    VisitOutcome(store, item, env);
    VisitStore(store, item, env);
    if key !in store {
      var fetch := FetchIcon(item.imagePath.value, env);
      assert fetch.icon.Ok?;
    }
  }

  /**
   * Three items against a container holding the third one's key: the first,
   * without a path, is skipped; the second is stored; the third is skipped
   * as existing.
   */
  lemma ThreeItemRun(env: Environment, blob: Blob, i1: Item, i2: Item, i3: Item)
    requires NoFaults(env)
    requires IsNullOrWhiteSpace(i1.imagePath)
    requires !IsNullOrWhiteSpace(i2.imagePath) && !IsNullOrWhiteSpace(i3.imagePath)
    requires i2.defIndex != i3.defIndex
    ensures var k2, k3 := StorageKey(i2.defIndex), StorageKey(i3.defIndex);
            var r := Synchronize(map[k3 := blob], [i1, i2, i3], env);
            && r.outcomes == [SkippedEmptyPath, Stored, SkippedExists]
            && r.store.Keys == {k2, k3}
            && r.store[k3] == blob
            && r.store[k2].contentType == IconContentType
  {
    var k2, k3 := StorageKey(i2.defIndex), StorageKey(i3.defIndex);
    StorageKeyInjective(i2.defIndex, i3.defIndex);
    var s0: Store := map[k3 := blob];
    SynchronizeSnoc(s0, [], i1, env);
    assert [i1, i2] == [i1] + [i2];
    SynchronizeSnoc(s0, [i1], i2, env);
    assert [i1, i2, i3] == [i1, i2] + [i3];
    SynchronizeSnoc(s0, [i1, i2], i3, env);
    VisitOutcome(s0, i1, env);
    VisitStore(s0, i1, env);
    VisitWithoutFaults(s0, i2, env);
    VisitWithoutFaults(Synchronize(s0, [i1, i2], env).store, i3, env);
  }

  /**
   * Items 1 (empty path), 2 and 3 against a container holding 3.jpg: item 1
   * is skipped for its path, item 2 is stored as 2.jpg, item 3 is skipped as
   * existing, and the container ends with exactly 2.jpg and 3.jpg.
   */
  lemma EndToEndScenario(env: Environment, blob: Blob)
    requires NoFaults(env)
    ensures var items := [Item(1, "item1", Some("")),
                          Item(2, "item2", Some("econ/icon2.png")),
                          Item(3, "item3", Some("econ/icon3.png"))];
            var r := Synchronize(map["3.jpg" := blob], items, env);
            && r.outcomes == [SkippedEmptyPath, Stored, SkippedExists]
            && r.store.Keys == {"2.jpg", "3.jpg"}
            && r.store["3.jpg"] == blob
            && r.store["2.jpg"].contentType == IconContentType
  {
    var i2, i3 := Item(2, "item2", Some("econ/icon2.png")), Item(3, "item3", Some("econ/icon3.png"));
    assert StorageKey(2) == "2.jpg";
    assert StorageKey(3) == "3.jpg";
    assert !IsNullOrWhiteSpace(i2.imagePath) by { assert !IsWhiteSpace(i2.imagePath.value[0]); }
    assert !IsNullOrWhiteSpace(i3.imagePath) by { assert !IsWhiteSpace(i3.imagePath.value[0]); }
    ThreeItemRun(env, blob, Item(1, "item1", Some("")), i2, i3);
  }
}
