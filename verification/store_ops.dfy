/** The edits the admin page makes to the applications store (`addApp`, `updateApp`,
    `removeAt`, `setAll` and `setMeta` in scripts/apps.js). Each returns the next store;
    none of them touches the status. */
module StoreOps {
  import opened Maybe
  import opened Text
  import opened JsonValue
  import opened Actions
  import opened Entries
  import opened Payload
  import opened Registry

  /** The key `addApp` gives a new entry: the slug of its label, or of "app". */
  function NewKey(name: string): (k: string)
    ensures k != [] && |k| <= |Or(name, "app")|
    ensures forall i :: 0 <= i < |k| ==> !IsSpace(k[i])
  {
    SlugKey(Or(name, "app"))
  }

  /** An empty label keys as `app`. */
  lemma NewKeyDefault()
    ensures NewKey("") == "app"
  {
    var app := "app";
    assert NoSpace(app);
    SlugKeyNoSpace(app);
    assert Lower(app) == app;
  }

  /** The key `addApp` gives is the key normalisation derives for a stored entry that has
      only that label: both slug the label, and an empty label slugs to `app` either way
      (normalisation's default label `App` lower-cases to it). */
  lemma NewKeyMatchesNormalize(name: string)
    ensures NewKey(name) == NormalizeEntry(JObj(map["label" := JStr(name)])).key
  {
    var a := JObj(map["label" := JStr(name)]);
    assert Str(a, "key") == "" && Str(a, "label") == name;
    if name == "" {
      NewKeyDefault();
      var dflt := "App";
      assert NoSpace(dflt);
      SlugKeyNoSpace(dflt);
      assert Lower(dflt) == "app";
    }
  }

  /** `addApp({label, href, icon, action})`: one entry appended, keyed by the slug of the
      label, with the action normalised against it; the existing entries are untouched. */
  function AddApp(s: Store, name: string, href: string, icon: string, action: Json): (r: Store)
    ensures |r.apps| == |s.apps| + 1
    ensures r.apps[..|s.apps|] == s.apps
    ensures r.apps[|s.apps|] == Entry(NewKey(name), name, icon, href,
                                      NormalizeAction(action, name, NewKey(name), href))
    ensures r.meta == s.meta && r.status == s.status
  {
    var key := NewKey(name);
    s.(apps := s.apps + [Entry(key, name, icon, href, NormalizeAction(action, name, key, href))])
  }

  /** The fields `updateApp` may be given; `None` is an absent (or null) field, which keeps
      the current value (the source's `??`). A falsy `action` keeps the current action. */
  datatype AppPatch = AppPatch(name: Option<string>, href: Option<string>, icon: Option<string>,
                               action: Json)

  /** The entry `updateApp` stores at an index holding `cur`: label, href and icon from the
      patch when present, the key kept, and the action (the patch's, else the current one)
      normalised against the new label and href. */
  function Patched(cur: Entry, patch: AppPatch): (e: Entry)
    ensures e.key == cur.key
    ensures e.name == patch.name.GetOr(cur.name)
    ensures e.href == patch.href.GetOr(cur.href)
    ensures e.icon == patch.icon.GetOr(cur.icon)
    ensures Truthy(patch.action) ==> e.action == NormalizeAction(patch.action, e.name, cur.key, e.href)
    ensures !Truthy(patch.action) ==>
              e.action == NormalizeAction(ActionToJson(cur.action), e.name, cur.key, e.href)
    ensures e.name != "" ==> WellFormed(e.action)
  {
    var name := patch.name.GetOr(cur.name);
    var href := patch.href.GetOr(cur.href);
    var raw := if Truthy(patch.action) then patch.action else ActionToJson(cur.action);
    Entry(cur.key, name, patch.icon.GetOr(cur.icon), href, NormalizeAction(raw, name, cur.key, href))
  }

  /** `updateApp(index, data)`: an index outside the list changes nothing; otherwise only
      that entry is replaced, and the list keeps its length. */
  function UpdateApp(s: Store, index: int, patch: AppPatch): (r: Store)
    ensures !(0 <= index < |s.apps|) ==> r == s
    ensures |r.apps| == |s.apps|
    ensures forall j :: 0 <= j < |s.apps| && j != index ==> r.apps[j] == s.apps[j]
    ensures 0 <= index < |s.apps| ==> r.apps[index] == Patched(s.apps[index], patch)
    ensures r.meta == s.meta && r.status == s.status
  {
    if 0 <= index < |s.apps| then s.(apps := s.apps[index := Patched(s.apps[index], patch)]) else s
  }

  /** An edit that brings no action keeps a canonical entry's action as it was, even when
      the href changes: a link keeps its own url. */
  lemma PatchKeepsAction(cur: Entry, patch: AppPatch)
    requires WellFormed(cur.action) && !Truthy(patch.action)
    ensures Patched(cur, patch).action == cur.action
  {
    NormalizeActionRoundTrip(cur.action, patch.name.GetOr(cur.name), cur.key, patch.href.GetOr(cur.href));
  }

  /** An edit that does not blank the label or the href keeps a canonical list canonical. */
  lemma UpdatePreservesCanonical(s: Store, index: int, patch: AppPatch)
    requires forall i :: 0 <= i < |s.apps| ==> Canonical(s.apps[i])
    requires patch.name != Some("") && patch.href != Some("")
    ensures forall i :: 0 <= i < |s.apps| ==> Canonical(UpdateApp(s, index, patch).apps[i])
  {
    if 0 <= index < |s.apps| {
      var e := Patched(s.apps[index], patch);
      assert e.name != "";
    }
  }

  /** `removeAt(index)`: an index outside the list changes nothing; otherwise exactly that
      entry goes and the others keep their order. */
  function RemoveAt(s: Store, index: int): (r: Store)
    ensures !(0 <= index < |s.apps|) ==> r == s
    ensures 0 <= index < |s.apps| ==> |r.apps| == |s.apps| - 1
    ensures 0 <= index < |s.apps| ==> forall j :: 0 <= j < index ==> r.apps[j] == s.apps[j]
    ensures 0 <= index < |s.apps| ==> forall j :: index <= j < |r.apps| ==> r.apps[j] == s.apps[j + 1]
    ensures r.meta == s.meta && r.status == s.status
  {
    if 0 <= index < |s.apps| then s.(apps := s.apps[..index] + s.apps[index + 1..]) else s
  }

  /** Removing the entry just added restores the store. */
  lemma RemoveUndoesAdd(s: Store, name: string, href: string, icon: string, action: Json)
    ensures RemoveAt(AddApp(s, name, href, icon, action), |s.apps|) == s
  {
    var t := AddApp(s, name, href, icon, action);
    assert t.apps[..|s.apps|] + t.apps[|s.apps| + 1..] == s.apps;
  }

  /** `setAll(list)`: the store's entries become the canonical form of `list`. */
  function SetAll(s: Store, list: Json): (r: Store)
    ensures forall i :: 0 <= i < |r.apps| ==> Canonical(r.apps[i])
    ensures list.JArr? ==> |r.apps| == |list.items|
    ensures list.JArr? ==> forall i :: 0 <= i < |r.apps| ==> r.apps[i] == NormalizeEntry(list.items[i])
    ensures !list.JArr? ==> r.apps == []
    ensures r.meta == s.meta && r.status == s.status
  {
    s.(apps := Normalize(list))
  }

  /** Syncing the store from a canonical copy of its own entries changes nothing. */
  lemma SetAllSyncBack(s: Store)
    requires forall i :: 0 <= i < |s.apps| ==> Canonical(s.apps[i])
    ensures SetAll(s, EntriesToJson(s.apps)) == s
  {
    NormalizeRoundTrip(s.apps);
  }

  /** The metadata fields `setMeta` may be given; `None` is a field the patch lacks. */
  datatype MetaPatch = MetaPatch(version: Option<string>, updated: Option<string>,
                                 updatedBy: Option<string>)

  /** `setMeta(next)`: `{...meta, ...next}`, each field the patch carries overrides. */
  function SetMeta(s: Store, patch: MetaPatch): (r: Store)
    ensures r.meta.version == patch.version.GetOr(s.meta.version)
    ensures r.meta.updated == patch.updated.GetOr(s.meta.updated)
    ensures r.meta.updatedBy == patch.updatedBy.GetOr(s.meta.updatedBy)
    ensures r.apps == s.apps && r.status == s.status
  {
    s.(meta := Meta(patch.version.GetOr(s.meta.version), patch.updated.GetOr(s.meta.updated),
                    patch.updatedBy.GetOr(s.meta.updatedBy)))
  }

  /** Applying the same metadata patch twice is applying it once, and an empty patch is
      no change. */
  lemma SetMetaIdempotent(s: Store, patch: MetaPatch)
    ensures SetMeta(SetMeta(s, patch), patch) == SetMeta(s, patch)
    ensures SetMeta(s, MetaPatch(None, None, None)) == s
  {
  }
}
