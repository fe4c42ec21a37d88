# Applications registry, admin model and forms hub — a Dafny model

This project models the data-handling core of the dashboard's three scripts:

- **The applications store** (`scripts/apps.js`, the `AppsStore` module). It has four parts:
  - the normalisation of loose launcher records into canonical entries, each with exactly one tagged action;
  - the payload parser, which accepts a bare array, `{apps}`, `{items}`, and nested or flat metadata;
  - the source resolver: shared file, then local-storage override, then bundled defaults, then built-in list;
  - the store edits (`addApp`, `updateApp`, `removeAt`, `setAll`, `setMeta`), `saveToLocal`, `validate`, and `exportBundles`.
- **The admin page's working model** (`scripts/main.js`). It covers:
  - rows forced to links whose url is the row's href;
  - lookup by key and key generation;
  - URL checking;
  - the inline URL editor;
  - the delete button;
  - the source badge;
  - HTML escaping.
- **The forms hub** (`scripts/forms.js`). It covers:
  - loading and normalising the forms registry;
  - search filtering and pinned-first ordering;
  - the pin set and the recently opened list;
  - `file://` URL conversion;
  - text and attribute escaping.

## Structure

The store is a value, `Registry.Store(apps, meta, status)`. Every operation is a pure function from the old store to the new one. The browser inputs become parameters:

- the `file:` flag, the fetched shared file, the local-storage value and the three globals are gathered in `Registry.Env`;
- the current time is a string parameter;
- `new URL`, `encodeURI` and `localeCompare` are function parameters;
- `Math.random` is a finite stream of suffixes.

JSON is `JsonValue.Json`, with JavaScript truthiness and property access. Actions are a sum type, `Actions.Action`.

Modules, in dependency order:

| module | file | role |
|---|---|---|
| `Maybe` | maybe.dfy | `Option` |
| `Seqs` | seqs.dfy | filtering, prefixes and an indexed flat-map, with their algebra |
| `Text` | text.dfy | JavaScript `\s`, `trim`, lower-casing, global run replacement, `includes`, number formatting |
| `Html` | html.dfy | `escapeHTML` / `esc`, `escAttr`, and a decoder used to state that escaping loses nothing |
| `JsonValue` | json.dfy | JSON values |
| `Actions` | actions.dfy | `normalizeAction`, `defaultLinkAction` |
| `Entries` | entries.dfy | `normalize` |
| `Payload` | payload.dfy | `parsePayload`, `getPayload`, `getBundledDefaults` |
| `Registry` | registry.dfy | store state, `applyPayload`, the resolver, `importFromPicker`, `saveToLocal` |
| `StoreOps` | store_ops.dfy | `addApp`, `updateApp`, `removeAt`, `setAll`, `setMeta` |
| `Export` | export.dfy | `getEffectiveUrl`, `validate`, `exportBundles` |
| `Admin` | admin.dfy | the working-model helpers of `scripts/main.js` |
| `Forms` | forms.dfy | the forms hub |

## Behaviour worth noting

These are points where the code behaves in a way a reader might not expect. The model follows the code in each case.

- **Missing href.** The href of a record falls back to its `url` and then to `#` when the value is *empty*, not only when it is missing: the code uses `||` (scripts/apps.js:19).
- **Empty label in `validate`.** The code gives an entry with an empty label the row label `App <n>` before testing it (scripts/apps.js:228-229). So an empty label is never reported, and only a whitespace-only label is. `Export.EmptyLabelAccepted` shows that an entry with an empty label, an icon and a link is valid.
- **Synthesised version.** It is `v` followed by the date with its dashes turned into dots, `vYYYY.MM.DD` (scripts/apps.js:262).
- **`load` after a network failure.** `load` resolves to false whenever the shared file fails, even when a local override or the bundle then supplied the registry (scripts/apps.js:133-134).
- **`getAll` aliasing.** `getAll` returns the live array, not a copy (scripts/apps.js:184). A value model cannot observe that aliasing.
- **List length.** `normalize` keeps one entry per input element. There is no filtering of ill-formed elements.

## Model

| member | source | states |
|---|---|---|
| Actions.DefaultLinkAction | scripts/apps.js:63-75 | always a link with a non-empty url, target, rel and aria label. The url is the href, else the existing url, else the placeholder for the key. Every other field comes from the existing action when it has one, else from its default. |
| Actions.NormalizeAction | scripts/apps.js:30-61 | Total. The variant is chosen by the `type` field: a missing action or an unknown type gives a link. The url of a `link` action is its own url, else the href, else the placeholder; an unknown type prefers the href. Target, rel, title and aria label of a present link or unknown-type action are its own, else `_blank`, `noopener noreferrer`, the label and `Open <label>`. Local and modal actions take title and aria label the same way. A local action's relative path falls back to `rel`, and a disabled tile's texts to `<label> coming soon`. With a label the result is well formed. |
| Actions.NormalizeActionRoundTrip | scripts/apps.js:30-61 | a serialised well-formed action normalises back to itself, whatever label, key and href accompany it |
| Entries.SlugKey | scripts/apps.js:17 | the derived key has no whitespace, is no longer than the label, and is empty only for an empty label |
| Entries.SlugKeyNoSpace | scripts/apps.js:17 | a label without whitespace keys as its lower-case self |
| Entries.SlugKeyAppend | scripts/apps.js:17 | a label split at a point not inside a whitespace run keys as the concatenation of the parts' keys |
| Entries.SlugKeySpaceRun | scripts/apps.js:17 | a whitespace run of any length and kind becomes a single `-` |
| Entries.SlugKeyJoin | scripts/apps.js:17 | two words separated by whitespace key as the lower-cased words joined by `-` |
| Entries.NormalizeEntry | scripts/apps.js:16-27 | label defaults to `App`; key to the label's slug; href to `href`, then `url`, then `#`; icon to "". The action is normalised against these values, and the result is canonical. |
| Entries.Normalize | scripts/apps.js:15-28 | a non-array gives no entries; an array gives one canonical entry per element, in order |
| Entries.NormalizeRoundTrip | scripts/apps.js:15-28 | a canonical list survives serialisation and normalisation unchanged |
| Entries.NormalizeIdempotent | scripts/apps.js:15-28 | normalising the serialised result of a normalisation gives the same list |
| Entries.IntranetExample | scripts/apps.js:15-28 | `[{label:"Intranet", href:"https://intra"}]` normalises to key `intranet` and a link to the href with `_blank` / `noopener noreferrer` |
| Payload.ParsePayload | scripts/apps.js:77-92 | Total. A bare array is the list with empty metadata. An object's list is `apps`, else `items`, else empty. Its metadata comes from `meta` when that is an object, else from the top level. Anything else is empty. |
| Payload.ParsedRoundTrip | scripts/apps.js:77-92 | the `{apps, meta}` form of a parsed payload parses back to it |
| Payload.GetPayload | scripts/apps.js:216-223 | a flat object with exactly the three metadata fields and `apps`, each read back as written, and no nested `meta` |
| Payload.GetPayloadRoundTrip | scripts/apps.js:216-223 | a saved payload parses back to the saved metadata and the serialised entries |
| Payload.SavedRegistryReloads | scripts/apps.js:216-223 | a canonical registry saved as a payload reloads as exactly the same entries and metadata |
| Payload.GetBundledDefaults | scripts/apps.js:322-337 | offers a payload exactly when `DEFAULT_APPS` is an array or object. An array is paired with `DEFAULT_APPS_META`; an object parses as a payload. The result parses back to that content. |
| Registry.ApplyPayload | scripts/apps.js:94-104 | the store becomes the canonical entries and metadata of the parsed payload, with exactly the given status |
| Registry.ResolveOffline | scripts/apps.js:137-153 | the error is kept. Local wins with its own note; the bundle comes next, with the given note or the bundled one; the built-in list comes last, with the given note. The result is true unless the built-in list was used. |
| Registry.Offer | scripts/apps.js:114-150 | what each source supplies: the fetched file, a truthy local override, the bundled defaults, and the built-in list (`window.Apps`, or `[]`), which is always there; the picker is never asked |
| Registry.ResolveOfflinePrecedence | scripts/apps.js:137-153 | the chosen source is the first of local, bundled and built-in that offers a payload; the store holds that payload's canonical entries and its metadata |
| Registry.LoadFromNetwork | scripts/apps.js:114-135 | true exactly when the file arrives. Then the store holds the file's canonical entries and metadata, and the status is `shared` with no error or note. Otherwise the result is the offline resolution carrying the fixed fetch error. |
| Registry.Load | scripts/apps.js:106-112 | a `file:` page resolves offline with the bundled note; otherwise the network path is taken, and a failed fetch resolves to false |
| Registry.LoadPrecedence | scripts/apps.js:106-153 | the loader takes the first source offering a payload, in the order network, local, bundle, built-in list (network only off `file:`); the store holds that payload's canonical entries and its metadata |
| Registry.FetchFailureFallback | scripts/apps.js:128-153 | after a failed fetch: local beats the bundle, and the bundle beats the built-in list. The fetch error is recorded and the result is false. |
| Registry.Reload | scripts/apps.js:155-161 | reloading is loading afresh, whatever the previous store and its error held |
| Registry.ImportFromPicker | scripts/apps.js:168-182 | no file or unparsable text leaves the store unchanged; otherwise the store holds the payload's canonical entries and metadata, with status `picker` and no error |
| Registry.SaveToLocal | scripts/apps.js:297-309 | On success it writes the payload of the list with the store's metadata and sets the local status and note. It returns whether storage accepted the write. A refused write changes nothing. |
| Registry.SaveThenResolve | scripts/apps.js:297-309 | resolving offline from what was saved restores the saved entries and metadata under the local status |
| StoreOps.NewKey | scripts/apps.js:193 | the key of a new entry is non-empty and free of whitespace |
| StoreOps.NewKeyDefault | scripts/apps.js:193 | an empty label keys as `app` |
| StoreOps.NewKeyMatchesNormalize | scripts/apps.js:193 | the key `addApp` gives equals the key `normalize` derives for a record with only that label, the empty label included |
| StoreOps.AddApp | scripts/apps.js:192-197 | exactly one entry is appended, keyed by the label's slug with its action normalised. Existing entries, metadata and status are untouched. |
| StoreOps.Patched | scripts/apps.js:199-208 | The key is kept. Label, href and icon come from the patch when present, else stay as they were. The action is the patch's action when it is truthy, else the current one, normalised against the new label and href. |
| StoreOps.UpdateApp | scripts/apps.js:199-208 | an out-of-range index changes nothing; otherwise only that entry is replaced, and the length is kept |
| StoreOps.PatchKeepsAction | scripts/apps.js:199-208 | an update without an action keeps a canonical entry's action, even when the href changes |
| StoreOps.UpdatePreservesCanonical | scripts/apps.js:199-208 | an update that does not blank the label or href keeps a canonical list canonical |
| StoreOps.RemoveAt | scripts/apps.js:210-214 | an out-of-range index changes nothing; otherwise exactly that entry goes and the others keep their order |
| StoreOps.RemoveUndoesAdd | scripts/apps.js:192-214 | removing the entry just added restores the store |
| StoreOps.SetAll | scripts/apps.js:339-345 | entry i is the canonical form of element i of the list, so there is one per element in order; a non-array gives none; meta and status are untouched |
| StoreOps.SetAllSyncBack | scripts/apps.js:339-345 | syncing the store from a serialised copy of its own canonical entries changes nothing |
| StoreOps.SetMeta | scripts/apps.js:186-189 | each field the patch carries overrides; the others are kept |
| StoreOps.SetMetaIdempotent | scripts/apps.js:186-189 | applying a metadata patch twice is applying it once, and an empty patch is no change |
| Export.EffectiveUrl | scripts/apps.js:237-243 | a link leads to its url, a local action to its path or else its relative path, a modal to its id, and a disabled tile to the entry's href |
| Export.CanonicalHasUrl | scripts/apps.js:237-243 | a canonical link or disabled tile always has an effective url |
| Export.RowLabel | scripts/apps.js:228 | the entry's own label, else `App <row>`; never empty |
| Export.EntryOk | scripts/apps.js:228-232 | the three checks of one entry: a label that is not only whitespace, a non-blank icon, and an effective url |
| Export.EntryErrors | scripts/apps.js:227-233 | each failed check adds its own message and each message means its check failed; there are as many messages as failed checks, so none exactly when the entry passes |
| Export.BothMissing | scripts/apps.js:229-232 | a labelled entry without icon and url gets both messages, the icon's first: the checks do not stop at the first failure |
| Export.ErrorsFrom | scripts/apps.js:225-235 | a list has no errors exactly when every entry passes, and at most three per entry |
| Export.ErrorsFromAppend | scripts/apps.js:225-235 | the errors of a concatenation are those of each part, with rows numbered on |
| Export.Validate | scripts/apps.js:225-235 | valid iff there are no errors iff every entry passes; errors are bounded by three per entry. What each entry contributes is stated by `EntryErrors` |
| Export.ValidateExample | scripts/apps.js:225-235 | an unlabelled entry without an icon yields exactly `App 1: missing icon path.` |
| Export.EmptyLabelAccepted | scripts/apps.js:227-229 | an entry with an empty label, an icon and a link url passes validation |
| Export.VersionOf | scripts/apps.js:262 | `v` followed by the first ten characters of the time, with every `-` turned into `.` |
| Export.StampOf | scripts/apps.js:267 | the time with every `:` and `.` turned into `-`, character by character |
| Export.Stamped | scripts/apps.js:256-265 | an empty `updated` becomes the time and an empty version the derived one; set fields and `updatedBy` are kept |
| Export.Working | scripts/apps.js:247 | an export works on the canonical form of a passed list, else on the store's own entries |
| Export.ExportBundles | scripts/apps.js:245-271 | An invalid list is rejected with all its errors and nothing changes. Otherwise: only the store's metadata changes, to the stamped metadata; the payload carries it with the working entries; both file names share one stamp. |
| Export.ExportReloads | scripts/apps.js:245-271 | an exported payload loads back as exactly the exported entries and the stamped metadata, with a non-empty version |
| Export.ImportExported | scripts/apps.js:168-182 | importing an exported file through the picker restores exactly the exported entries and the stamped metadata |
| Export.ExportStampsOnce | scripts/apps.js:253-265 | after an export the metadata is already stamped, so a second stamping changes nothing |
| Html.Escape | scripts/forms.js:329-333 | no raw `<`, `>`, `"` or `'` remains, and text without special characters is unchanged |
| Html.EscapeRoundTrip | scripts/main.js:4 | decoding the escaped text gives the input back: escaping loses nothing |
| Html.EscapeAttr | scripts/forms.js:335-337 | no raw markup character and no backtick remains |
| Html.EscapeAttrRoundTrip | scripts/forms.js:329-337 | decoding attribute-escaped text gives the input back |
| Admin.DeriveHref | scripts/main.js:204-207 | a link's own url when it has one, else the entry's href |
| Admin.DeriveHrefNormalized | scripts/main.js:193-207 | a normalised row derives its own href again |
| Admin.EnsureLinkAction | scripts/main.js:209-220 | The result is a link to the given href. An existing link keeps the target, rel, title and aria label it has set; an empty one becomes `_blank`, `noopener noreferrer` and `Open <label>` respectively. Anything else becomes a fresh link titled `Open <label>`, with `Application` for a missing label. |
| Admin.EnsureLinkActionIdempotent | scripts/main.js:209-220 | forcing a link twice to the same href is forcing it once |
| Admin.NormalizeModelApp | scripts/main.js:193-202 | The result has a label, the key or the generated one, and the icon. Its href is the link url when there is one, else the old href. Its action is a complete link to that href. |
| Admin.NormalizeModelAppIdempotent | scripts/main.js:193-202 | normalising a normalised row changes nothing |
| Admin.MatchesHostPathIff | scripts/main.js:385 | the scan of the longest host prefix accepts exactly the values the host/path pattern matches |
| Admin.ValidateAppUrl | scripts/main.js:379-389 | empty means required. An http(s) value is valid iff it parses. Any other value is valid iff it is a host with an optional path. Each failure carries its message. |
| Admin.StripDashesCases | scripts/main.js:441 | ends without a dash are kept, a lone `-` vanishes, and otherwise exactly one dash is cut from each dashed end |
| Admin.KeyBase | scripts/main.js:441 | the lower-cased label (or `app`) with every run of other characters turned into one `-`, an outer `-` dropped, and `app` when nothing is left; what it yields is stated by the lemmas below |
| Admin.KeyBaseShaped | scripts/main.js:441 | the base key is non-empty lower-case letters and digits, with single inner dashes |
| Admin.KeyBaseWord | scripts/main.js:441 | a label of letters and digits keys as its lower-case self |
| Admin.KeyBaseJoin | scripts/main.js:441 | two words separated by any run of other characters key as the lower-cased words joined by one `-` |
| Admin.KeyBaseNothingLeft | scripts/main.js:441 | a label without letters or digits falls back to `app` |
| Admin.KeyBaseDefault | scripts/main.js:441 | an empty label keys as `app` |
| Admin.FindAppIndexByKey | scripts/main.js:300-302 | the first index holding the key, or -1 exactly when no row holds it |
| Admin.FirstFreeKey | scripts/main.js:442-446 | the first candidate that no row holds, or none when the suffix stream runs out |
| Admin.GenerateAppKey | scripts/main.js:440-447 | a returned key is held by no row and extends the label's base key |
| Admin.DeriveSourceLabel | scripts/main.js:233-236 | an empty code shows `Defaults`; each of the five codes shows its table label; any other code is shown as it is; never empty |
| Admin.SourceLabelsDistinct | scripts/main.js:35-41 | every source code has its own badge label, distinct from the others and from the no-source label |
| Admin.UpdateModelForKey | scripts/main.js:308-314 | false and no change for a missing key; otherwise only the first matching row is replaced by the normalised updater result |
| Admin.WithUrl | scripts/main.js:366-370 | the edited row keeps key, label and icon, and both its href and its link url become the value |
| Admin.CommitInlineUrl | scripts/main.js:355-377 | An empty key or invalid URL changes nothing. A valid URL succeeds exactly when some row has the key. Then that row keeps its key and gets the trimmed value as href and link url, and no other row changes. |
| Admin.CommitInlineUrlTwice | scripts/main.js:355-377 | committing the same value again changes nothing more |
| Admin.DeleteByKey | scripts/main.js:325-338 | No change without a key, for an unknown key, or without confirmation. Otherwise no row with the key survives, every other row does, and the model shrinks. |
| Admin.DeleteSplit | scripts/main.js:333 | deleting from a split model deletes from each part and keeps the parts in order |
| Admin.DeleteIdempotent | scripts/main.js:333 | deleting a key twice is deleting it once |
| Forms.NormalizeForm | scripts/forms.js:94-103 | each of id, description, icon, href and absolute href is the trimmed field; the title is the trimmed title, else the id; the search text is the lower-cased title and description |
| Forms.NormalizeFormRoundTrip | scripts/forms.js:94-103 | a normalised form written back normalises to itself |
| Forms.LoadRegistry | scripts/forms.js:77-92 | A failed load gives no forms and the notice. Otherwise the forms are the normalised entries of the `forms` array that have an id, in file order, and there is no notice. |
| Forms.LoadRegistryRoundTrip | scripts/forms.js:77-103 | a registry file written from normalised forms with ids loads back as exactly those forms |
| Forms.FilterForms | scripts/forms.js:171-174 | an empty query keeps everything; otherwise exactly the forms whose search text contains the query, in their original order |
| Forms.FilterFormsAppend | scripts/forms.js:171-174 | searching a concatenation searches each part and keeps the parts in order |
| Forms.FilterFormsSingle | scripts/forms.js:171-174 | a single form is kept exactly when its search text contains the query |
| Forms.FilterFormsMatch | scripts/forms.js:171-174 | every kept form contains the query at some position |
| Forms.BeforeCases | scripts/forms.js:177-183 | a pinned form goes before an unpinned one and never after it; within a group the titles decide |
| Forms.Before | scripts/forms.js:177-183 | whether `a` may precede `b`: pinned ahead of unpinned, otherwise by title |
| Forms.Insert | scripts/forms.js:176-184 | one insertion step: the result is the input plus `x` as a multiset, one longer, and starts with `x` or the old head |
| Forms.SortForms | scripts/forms.js:176-184 | the result is a permutation of the input |
| Forms.SortFormsSorted | scripts/forms.js:176-184 | under a total title order each form may precede the next under the comparator |
| Forms.SortFormsPinnedFirst | scripts/forms.js:176-184 | A permutation with every pinned form before every unpinned one. Neighbours within a group are in title order. |
| Forms.TogglePin | scripts/forms.js:270-277 | the id's membership flips and every other id's is kept |
| Forms.TogglePinTwice | scripts/forms.js:270-277 | toggling twice restores the pins |
| Forms.TrackRecent | scripts/forms.js:283-289 | The form is first, with the new time, and appears nowhere else. The rest is a prefix of the old list without it, and the list holds at most 12. |
| Forms.TrackRecentAgain | scripts/forms.js:283-289 | opening the same form again only refreshes its time |
| Forms.ToFileUrl | scripts/forms.js:299-303 | a `file://` URL in any case is unchanged; any other path is encoded behind `file://` after each backslash becomes `/` and every other character is kept |
| Forms.ToFileUrlIdempotent | scripts/forms.js:299-303 | every result is a `file://` URL, so converting twice is converting once |

## Left out

- `render()` and everything drawn: renderers, toasts, alerts, console logging, the file-warning banner and the `loadedFromPicker` flag that only controls it.
- Timing and environment:
  - the cache-busting query string;
  - the asynchrony of `fetch` and `file.text()`.
- The JSON text itself:
  - `JSON.stringify` formatting of the downloads;
  - the exact content of the JavaScript registry file;
  - the Blob/anchor download mechanism.
  The model keeps the payload value and the metadata block instead.
- JSON property values that are truthy but not strings, such as a numeric `label` or `key`. They are read as absent. Forms ids given as numbers, which the source converts with `String`, are read the same way.
- `null` elements of a registry list, on which the source throws.
- Lower-casing and case-insensitive matching cover only ASCII letters. The source's `toLowerCase` is full Unicode.
- `getAll`, `getMeta` and `getStatus` are not modelled. They return the state, and the live array that `getAll` exposes cannot be observed in a value model.
- The admin modal's add/edit submit path and icon upload. Only the table's inline editor and delete button are modelled.
- The forms hub's `state.map` id index, its rendering, opening forms, and the storage of pins and recents. The model keeps the data those store.
- Forms.SortForms: the source sorts with `localeCompare`. The model takes the title order as a parameter `le`, and its ordering lemmas assume it is total.
- Admin.GenerateAppKey: `Math.random` suffixes are drawn from a finite stream `suffixes`. When every candidate in the stream is taken, the model returns `None`, whereas the source keeps drawing.
- Admin.DeriveSourceLabel: inherited property names of the label table, such as `constructor`, are not modelled.
- Admin.EnsureLinkAction: the href is always given. The source's `hrefValue ?? deriveHref(app)` fallback is never used by its callers.
- Admin.ValidateAppUrl: `new URL(value)` is a parameter `parses`. URL syntax is not modelled.
- Forms.ToFileUrl: `encodeURI` is a parameter `encode`.
- The `label` property is named `name` in the model, because `label` is reserved in Dafny.
- StoreOps.AddApp: an absent label is modelled as the empty string. The source then stores an undefined label, and the action's aria label and title read `Open undefined` and `undefined`; the model has `Open ` and "" there.
- scripts/nav.js, scripts/briefings.js and scripts/data.js are not part of this model.
