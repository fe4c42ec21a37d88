/** The applications store of scripts/apps.js: its state (`apps`, `meta`, `status`) and the
    loader that decides where the registry comes from. The loader's inputs, which the source
    reads from the browser, are gathered in `Env`: whether the page is opened from a
    `file:` URL, the shared file as fetched (none when the request or its JSON failed), the
    parsed local-storage override (`JNull` when missing or unparsable), and the values of the
    globals `DEFAULT_APPS`, `DEFAULT_APPS_META` and `Apps` (`JNull` when undefined). */
module Registry {
  import opened Maybe
  import opened JsonValue
  import opened Entries
  import opened Payload

  /** The `status.source` codes. */
  datatype Source = Shared | Local | Bundled | Defaults | Picker {
    function Code(): string {
      match this
      case Shared => "shared"
      case Local => "local"
      case Bundled => "bundled"
      case Defaults => "defaults"
      case Picker => "picker"
    }
  }

  datatype Status = Status(source: Option<Source>, error: Option<string>, note: Option<string>)

  datatype Store = Store(apps: seq<Entry>, meta: Meta, status: Status)

  /** The state before anything is loaded. */
  const Initial := Store([], EmptyMeta, Status(None, None, None))

  const LocalNote := "Using localStorage overrides."
  const BundledNote := "Using offline bundled registry."
  const FetchError :=
    "Unable to load Applications/JSON/app.json. Confirm the file exists next to BASE and try Reload links."

  datatype Env = Env(fileProtocol: bool, fetched: Option<Json>, local: Json,
                     defaultApps: Json, defaultAppsMeta: Json, windowApps: Json)

  /** A store after loading, with the boolean the loader resolves to. */
  datatype Loaded = Loaded(store: Store, ok: bool)

  /** `note || fallback` on an optional note. */
  function OrNote(note: Option<string>, fallback: string): (r: Option<string>)
    ensures r.Some? && (fallback != "" ==> r.value != "")
    ensures note.Some? && note.value != "" ==> r == note
    ensures !(note.Some? && note.value != "") ==> r == Some(fallback)
  {
    if note.Some? && note.value != "" then note else Some(fallback)
  }

  /** `applyPayload(payload, source, error, note)`: the store is replaced wholesale by the
      canonical entries and metadata of the payload and the given status. */
  function ApplyPayload(payload: Json, source: Source, error: Option<string>, note: Option<string>)
    : (s: Store)
    ensures |s.apps| == |ParsePayload(payload).apps|
    ensures forall i :: 0 <= i < |s.apps| ==> s.apps[i] == NormalizeEntry(ParsePayload(payload).apps[i])
    ensures s.meta == ParsePayload(payload).meta
    ensures s.status == Status(Some(source), error, note)
  {
    var parsed := ParsePayload(payload);
    Store(Normalize(JArr(parsed.apps)), parsed.meta, Status(Some(source), error, note))
  }

  /** What each source would supply. The network offers the fetched file, local storage a
      truthy override, the bundle `getBundledDefaults()`, and the built-in list is always
      there (`window.Apps || []`). The picker is never consulted by the loader. */
  function Offer(env: Env, src: Source): (r: Option<Json>)
    ensures src == Shared ==> r == env.fetched
    ensures src == Local ==> (r.Some? <==> Truthy(env.local)) && (r.Some? ==> r.value == env.local)
    ensures src == Bundled ==> r == GetBundledDefaults(env.defaultApps, env.defaultAppsMeta)
    ensures src == Defaults ==> r.Some? && (Truthy(env.windowApps) ==> r.value == env.windowApps)
    ensures src == Defaults && !Truthy(env.windowApps) ==> r == Some(JArr([]))
    ensures src == Picker ==> r.None?
  {
    match src
    case Shared => env.fetched
    case Local => if Truthy(env.local) then Some(env.local) else None
    case Bundled => GetBundledDefaults(env.defaultApps, env.defaultAppsMeta)
    case Defaults => Some(if Truthy(env.windowApps) then env.windowApps else JArr([]))
    case Picker => None
  }

  /** The first source of `order` that offers a payload. */
  function FirstOffered(order: seq<Source>, env: Env): (r: Option<Source>)
    ensures r.Some? ==> r.value in order && Offer(env, r.value).Some?
    ensures r.None? <==> forall i :: 0 <= i < |order| ==> Offer(env, order[i]).None?
  {
    if order == [] then None
    else if Offer(env, order[0]).Some? then Some(order[0])
    else FirstOffered(order[1..], env)
  }

  const OfflineOrder := [Local, Bundled, Defaults]
  const OnlineOrder := [Shared, Local, Bundled, Defaults]

  /** `resolveOffline({error, note})`: the local override if there is one (with its own
      note), else the bundled defaults (with the given note or the bundled one), else the
      built-in list (with the given note). The error is recorded as given, and the result
      is true unless it fell through to the built-in list. */
  function ResolveOffline(env: Env, error: Option<string>, note: Option<string>): (r: Loaded)
    ensures r.store.status.error == error
    ensures r.ok <==> r.store.status.source != Some(Defaults)
    ensures r.store.status.source == Some(Local) ==> r.store.status.note == Some(LocalNote)
    ensures r.store.status.source == Some(Bundled) ==> r.store.status.note == OrNote(note, BundledNote)
    ensures r.store.status.source == Some(Defaults) ==> r.store.status.note == note
  {
    var local := Offer(env, Local);
    var bundled := Offer(env, Bundled);
    if local.Some? then Loaded(ApplyPayload(local.value, Local, error, Some(LocalNote)), true)
    else if bundled.Some? then Loaded(ApplyPayload(bundled.value, Bundled, error, OrNote(note, BundledNote)), true)
    else Loaded(ApplyPayload(Offer(env, Defaults).value, Defaults, error, note), false)
  }

  /** `loadFromNetwork()`: the shared file when it arrives, with no error and result true;
      otherwise the offline resolution with the fixed error message, and result false
      whichever offline source supplied the data. */
  function LoadFromNetwork(env: Env): (r: Loaded)
    ensures r.ok <==> env.fetched.Some?
    ensures env.fetched.Some? ==> r.store.status == Status(Some(Shared), None, None)
    ensures env.fetched.Some? ==>
              r.store.apps == Normalize(JArr(ParsePayload(env.fetched.value).apps)) &&
              r.store.meta == ParsePayload(env.fetched.value).meta
    ensures env.fetched.None? ==> r.store.status.error == Some(FetchError)
    ensures env.fetched.None? ==> r.store == ResolveOffline(env, Some(FetchError), None).store
  {
    if env.fetched.Some? then Loaded(ApplyPayload(env.fetched.value, Shared, None, None), true)
    else Loaded(ResolveOffline(env, Some(FetchError), None).store, false)
  }

  /** `load()`: from a `file:` page straight to the offline resolution with the bundled
      note, else through the network. */
  function Load(env: Env): (r: Loaded)
    ensures env.fileProtocol ==> r == ResolveOffline(env, None, Some(BundledNote))
    ensures !env.fileProtocol ==> r == LoadFromNetwork(env)
    ensures !env.fileProtocol && env.fetched.None? ==> !r.ok
  {
    if env.fileProtocol then ResolveOffline(env, None, Some(BundledNote)) else LoadFromNetwork(env)
  }

  /** `reload()`: clearing the old error first makes no difference, because every path
      replaces the whole store; reloading is loading afresh, whatever the store held. */
  function Reload(s: Store, env: Env): (r: Loaded)
    ensures r == Load(env)
  {
    if env.fileProtocol then ResolveOffline(env, None, Some(BundledNote)) else LoadFromNetwork(env)
  }

  /** The first offline source that offers a payload, read off the precedence order. */
  lemma FirstOfferedOffline(env: Env)
    ensures FirstOffered(OfflineOrder, env) ==
              if Offer(env, Local).Some? then Some(Local)
              else if Offer(env, Bundled).Some? then Some(Bundled)
              else Some(Defaults)
  {
    var last := [Defaults];
    assert FirstOffered(last, env) == Some(Defaults);
    var tail := [Bundled, Defaults];
    assert tail[1..] == last;
    assert FirstOffered(tail, env) ==
             if Offer(env, Bundled).Some? then Some(Bundled) else Some(Defaults);
    var order := OfflineOrder;
    assert order[1..] == tail;
  }

  /** Offline resolution takes the first of local override, bundle and built-in list that
      offers a payload, and the store holds exactly the canonical entries and the metadata
      of that payload. */
  lemma ResolveOfflinePrecedence(env: Env, error: Option<string>, note: Option<string>)
    ensures ResolveOffline(env, error, note).store.status.source == FirstOffered(OfflineOrder, env)
    ensures var src := FirstOffered(OfflineOrder, env).value;
            ResolveOffline(env, error, note).store.apps == Normalize(JArr(ParsePayload(Offer(env, src).value).apps)) &&
            ResolveOffline(env, error, note).store.meta == ParsePayload(Offer(env, src).value).meta
  {
    FirstOfferedOffline(env);
  }

  /** The loader takes the first source, in precedence order, that offers a payload (network,
      local override, bundle, built-in list; the network only for pages not opened from a
      file), and the store holds exactly the canonical entries and the metadata of that
      source's payload. */
  lemma LoadPrecedence(env: Env)
    ensures Load(env).store.status.source ==
              FirstOffered(if env.fileProtocol then OfflineOrder else OnlineOrder, env)
    ensures var src := Load(env).store.status.source.value;
            Load(env).store.apps == Normalize(JArr(ParsePayload(Offer(env, src).value).apps)) &&
            Load(env).store.meta == ParsePayload(Offer(env, src).value).meta
  {
    if env.fileProtocol {
      ResolveOfflinePrecedence(env, None, Some(BundledNote));
    } else if env.fetched.None? {
      ResolveOfflinePrecedence(env, Some(FetchError), None);
      assert OnlineOrder[1..] == OfflineOrder;
    } else {
      assert OnlineOrder[0] == Shared;
    }
  }

  /** When the shared file does not arrive, a local override wins over the bundle, the
      bundle wins over the built-in list and carries the fetch error, and `load` reports
      false in every case. */
  lemma FetchFailureFallback(env: Env)
    requires !env.fileProtocol && env.fetched.None?
    ensures !Load(env).ok
    ensures Load(env).store.status.error == Some(FetchError)
    ensures Truthy(env.local) ==> Load(env).store.status.source == Some(Local)
    ensures !Truthy(env.local) && IsObject(env.defaultApps) ==>
              Load(env).store.status.source == Some(Bundled)
    ensures !Truthy(env.local) && !IsObject(env.defaultApps) ==>
              Load(env).store.status.source == Some(Defaults)
  {
    var r := ResolveOffline(env, Some(FetchError), None);
    assert Load(env).store == r.store;
  }

  /** `importFromPicker(file)`: no file, or one that is not JSON, leaves the store as it was;
      otherwise its content replaces the store with source `picker` and no error or note. */
  function ImportFromPicker(s: Store, picked: Option<Json>): (r: Store)
    ensures picked.None? ==> r == s
    ensures picked.Some? ==> r.status == Status(Some(Picker), None, None)
    ensures picked.Some? ==> r.meta == ParsePayload(picked.value).meta
    ensures picked.Some? ==> r.apps == Normalize(JArr(ParsePayload(picked.value).apps))
  {
    if picked.None? then s else ApplyPayload(picked.value, Picker, None, None)
  }

  /** The outcome of `saveToLocal(list)`: the new store, what was written to local storage,
      and the returned flag. */
  datatype Saved = Saved(store: Store, written: Option<Json>, ok: bool)

  /** `saveToLocal(list)`. `storageOk` says whether the browser accepted the write. On
      success the list is written as a payload carrying the store's metadata and the status
      becomes the local override's; the entries held by the store are untouched. A refused
      write changes nothing. */
  function SaveToLocal(s: Store, list: seq<Entry>, storageOk: bool): (r: Saved)
    ensures r.ok == storageOk
    ensures r.store.apps == s.apps && r.store.meta == s.meta
    ensures storageOk ==> r.written == Some(GetPayload(s.meta, list))
    ensures storageOk ==> r.store.status == Status(Some(Local), None, Some(LocalNote))
    ensures !storageOk ==> r == Saved(s, None, false)
  {
    if storageOk then
      Saved(s.(status := Status(Some(Local), None, Some(LocalNote))), Some(GetPayload(s.meta, list)), true)
    else Saved(s, None, false)
  }

  /** Saving and then resolving offline from what was saved restores the saved entries and
      the metadata, with the status the save itself reported (plus the incoming error). */
  lemma SaveThenResolve(s: Store, list: seq<Entry>, env: Env, error: Option<string>, note: Option<string>)
    requires forall i :: 0 <= i < |list| ==> Canonical(list[i])
    requires env.local == SaveToLocal(s, list, true).written.value
    ensures ResolveOffline(env, error, note).store == Store(list, s.meta, Status(Some(Local), error, Some(LocalNote)))
    ensures ResolveOffline(env, error, note).ok
  {
    assert Truthy(env.local);
    SavedRegistryReloads(s.meta, list);
  }
}
