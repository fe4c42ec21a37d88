/** Checking and exporting the registry (`validate`, `getEffectiveUrl` and `exportBundles`
    in scripts/apps.js). The export stamps missing metadata with the current time, writes
    it back to the store, and produces a JSON file and a JavaScript registry file whose
    names share one timestamp. */
module Export {
  import opened Maybe
  import opened Text
  import opened Seqs
  import opened JsonValue
  import opened Actions
  import opened Entries
  import opened Payload
  import opened Registry

  /** `getEffectiveUrl(app)`: where the tile leads — a link's url, a local action's path
      (else its relative path), a modal's id, and the entry's href for a disabled action. */
  function EffectiveUrl(e: Entry): (r: string)
    ensures e.action.Link? ==> r == e.action.url
    ensures e.action.Local? ==> r == Or(e.action.path, e.action.relPath)
    ensures e.action.Modal? ==> r == e.action.modalId
    ensures e.action.Disabled? ==> r == e.href
  {
    match e.action
    case Link(url, _, _, _, _) => url
    case Local(path, relPath, _, _) => Or(path, relPath)
    case Modal(modalId, _, _) => modalId
    case Disabled(_, _) => e.href
  }

  /** Canonical links and disabled tiles always lead somewhere; only a local action without
      paths or a modal without an id can lack an effective url. */
  lemma CanonicalHasUrl(e: Entry)
    requires Canonical(e) && (e.action.Link? || e.action.Disabled?)
    ensures EffectiveUrl(e) != ""
  {
  }

  /** The label a row is reported under: its own, or `App <n>` for row n (1-based). */
  function RowLabel(e: Entry, row: nat): (r: string)
    ensures r != ""
    ensures e.name != "" ==> r == e.name
    ensures e.name == "" ==> r == "App " + NatToString(row)
  {
    Or(e.name, "App " + NatToString(row))
  }

  /** The checks `validate` makes of one entry, stated without the row label: a label that
      is not only whitespace (an empty one is let through, because the row label replaces it
      before the test), a non-blank icon, and an effective url. */
  predicate EntryOk(e: Entry) {
    (e.name == "" || Trim(e.name) != "") && Trim(e.icon) != "" && EffectiveUrl(e) != ""
  }

  const MissingIcon := ": missing icon path."
  const MissingUrl := ": missing link or action URL."

  /** The message for a row whose label is only whitespace. */
  function MissingName(row: nat): string {
    "Row " + NatToString(row) + ": missing name/label."
  }

  /** The three messages differ (in their next-to-last character), so each one marks its
      own failed check. */
  lemma MessagesDistinct(name: string, row: nat)
    ensures name + MissingIcon != name + MissingUrl
    ensures MissingName(row) != name + MissingIcon && MissingName(row) != name + MissingUrl
  {
    var icon, url, missing := name + MissingIcon, name + MissingUrl, MissingName(row);
    assert icon[|icon| - 2] == 'h';
    assert url[|url| - 2] == 'L';
    assert missing[|missing| - 2] == 'l';
  }

  /** The messages for the entry in row `row`, in the order the source pushes them: one for
      each check that fails, none exactly when the entry passes. */
  function EntryErrors(e: Entry, row: nat): (errs: seq<string>)
    ensures errs == [] <==> EntryOk(e)
    ensures (MissingName(row) in errs) <==> Trim(RowLabel(e, row)) == ""
    ensures (RowLabel(e, row) + MissingIcon in errs) <==> Trim(e.icon) == ""
    ensures (RowLabel(e, row) + MissingUrl in errs) <==> EffectiveUrl(e) == ""
    ensures |errs| == (if Trim(RowLabel(e, row)) == "" then 1 else 0)
                      + (if Trim(e.icon) == "" then 1 else 0) + (if EffectiveUrl(e) == "" then 1 else 0)
    ensures |errs| <= 3
  {
    var name := RowLabel(e, row);
    assert e.name == "" ==> name[0] == 'A';
    MessagesDistinct(name, row);
    ThreeChecks(Trim(name) == "", MissingName(row), Trim(e.icon) == "", name + MissingIcon,
                EffectiveUrl(e) == "", name + MissingUrl);
    Flag(Trim(name) == "", MissingName(row)) + Flag(Trim(e.icon) == "", name + MissingIcon)
    + Flag(EffectiveUrl(e) == "", name + MissingUrl)
  }

  /** The message `m` when its check failed (`failed`), else nothing. */
  function Flag(failed: bool, m: string): seq<string> {
    if failed then [m] else []
  }

  /** Three checks with distinct messages: each message is reported exactly when its check
      failed, and there are as many messages as failed checks. */
  lemma ThreeChecks(b1: bool, m1: string, b2: bool, m2: string, b3: bool, m3: string)
    requires m1 != m2 && m1 != m3 && m2 != m3
    ensures var l := Flag(b1, m1) + Flag(b2, m2) + Flag(b3, m3);
            (m1 in l <==> b1) && (m2 in l <==> b2) && (m3 in l <==> b3) &&
            |l| == (if b1 then 1 else 0) + (if b2 then 1 else 0) + (if b3 then 1 else 0)
  {
  }

  /** A labelled entry with neither icon nor url gets both messages, the icon's first: the
      checks do not stop at the first failure. */
  lemma BothMissing(e: Entry, row: nat)
    requires Trim(RowLabel(e, row)) != "" && Trim(e.icon) == "" && EffectiveUrl(e) == ""
    ensures EntryErrors(e, row) == [RowLabel(e, row) + MissingIcon, RowLabel(e, row) + MissingUrl]
  {
  }

  /** The messages for `list`, whose first element is row `row`, in list order. */
  function ErrorsFrom(list: seq<Entry>, row: nat): (errs: seq<string>)
    ensures errs == [] <==> forall i :: 0 <= i < |list| ==> EntryOk(list[i])
    ensures |errs| <= 3 * |list|
  {
    FlatMapFromEmpty(list, row, EntryErrors);
    FlatMapFromBound(list, row, EntryErrors, 3);
    FlatMapFrom(list, row, EntryErrors)
  }

  /** The messages of a concatenation are those of each part, the second part's rows
      numbered on from the first's. */
  lemma ErrorsFromAppend(a: seq<Entry>, b: seq<Entry>, row: nat)
    ensures ErrorsFrom(a + b, row) == ErrorsFrom(a, row) + ErrorsFrom(b, row + |a|)
  {
    FlatMapFromAppend(a, b, row, EntryErrors);
  }

  datatype Validation = Validation(valid: bool, errors: seq<string>)

  /** `validate(list)`: every error of every entry, rows numbered from 1; valid exactly when
      there is none, which is exactly when every entry passes; at most three per entry. */
  function Validate(list: seq<Entry>): (v: Validation)
    ensures v.valid <==> v.errors == []
    ensures v.valid <==> forall i :: 0 <= i < |list| ==> EntryOk(list[i])
    ensures |v.errors| <= 3 * |list|
  {
    var errs := ErrorsFrom(list, 1);
    Validation(errs == [], errs)
  }

  /** One row with no label and no icon but an href: only the icon is reported, under the
      row label `App 1`. */
  lemma ValidateExample()
    ensures Validate([Entry("k", "", "", "#", Disabled("t", "a"))]).errors == ["App 1" + MissingIcon]
  {
    var e := Entry("k", "", "", "#", Disabled("t", "a"));
    ExampleRowErrors(e);
    assert [e][1..] == [];
    assert FlatMapFrom([e], 1, EntryErrors) == EntryErrors(e, 1) + FlatMapFrom([e][1..], 2, EntryErrors);
  }

  /** An entry with an empty label but an icon and a link is valid: the row label `App 1`
      stands in for the label before it is checked. */
  lemma EmptyLabelAccepted(e: Entry)
    requires e.name == "" && e.icon == "x.png" && e.action.Link? && e.action.url == "https://a"
    ensures Validate([e]).valid
  {
    assert !IsSpace(e.icon[0]);
    assert EntryOk([e][0]);
  }

  lemma ExampleRowErrors(e: Entry)
    requires e == Entry("k", "", "", "#", Disabled("t", "a"))
    ensures EntryErrors(e, 1) == ["App 1" + MissingIcon]
  {
    ExampleRowLabel(e);
    var name := RowLabel(e, 1);
    assert !IsSpace(name[0]);
    OnlyIconMissing(e, 1);
  }

  /** An entry whose only fault is its icon gets exactly the icon message. */
  lemma OnlyIconMissing(e: Entry, row: nat)
    requires Trim(RowLabel(e, row)) != "" && Trim(e.icon) == "" && EffectiveUrl(e) != ""
    ensures EntryErrors(e, row) == [RowLabel(e, row) + MissingIcon]
  {
  }

  lemma ExampleRowLabel(e: Entry)
    requires e.name == ""
    ensures RowLabel(e, 1) == "App 1"
  {
    assert NatToString(1) == "1";
  }

  /** `v` + the date part of an ISO timestamp with `-` turned into `.` (`vYYYY.MM.DD`). */
  function VersionOf(nowIso: string): (v: string)
    ensures v != [] && v[0] == 'v'
    ensures |v| == 1 + |Take(nowIso, 10)| <= 11
    ensures forall i :: 1 <= i < |v| ==> v[i] != '-'
    ensures forall i :: 0 <= i < |v| - 1 ==> v[i + 1] == if nowIso[i] == '-' then '.' else nowIso[i]
  {
    "v" + ReplaceChars(Take(nowIso, 10), {'-'}, '.')
  }

  /** The timestamp with `:` and `.` turned into `-`, as used in both file names. */
  function StampOf(nowIso: string): (s: string)
    ensures |s| == |nowIso|
    ensures forall i :: 0 <= i < |s| ==> s[i] != ':' && s[i] != '.'
    ensures forall i :: 0 <= i < |s| ==> s[i] == if nowIso[i] == ':' || nowIso[i] == '.' then '-' else nowIso[i]
  {
    ReplaceChars(nowIso, {':', '.'}, '-')
  }

  /** The metadata after an export: an empty `updated` becomes the time, an empty
      `version` is derived from it, and `updatedBy` is left alone. */
  function Stamped(m: Meta, nowIso: string): (r: Meta)
    ensures m.updated != "" ==> r.updated == m.updated
    ensures m.updated == "" ==> r.updated == nowIso
    ensures m.version != "" ==> r.version == m.version
    ensures m.version == "" ==> r.version == VersionOf(nowIso)
    ensures r.version != ""
    ensures r.updatedBy == m.updatedBy
  {
    Meta(Or(m.version, VersionOf(nowIso)), Or(m.updated, nowIso), m.updatedBy)
  }

  /** What an export downloads: both file names, the payload of the JSON file, and the
      metadata block of the registry file. */
  datatype Bundle = Bundle(jsonName: string, jsName: string, payload: Json, meta: Meta)

  datatype Outcome = Rejected(errors: seq<string>) | Written(bundle: Bundle)

  datatype Exported = Exported(store: Store, outcome: Outcome)

  /** The entries an export works on: the canonical form of `list` when one is passed
      (any array, even an empty one, is truthy), else the store's own. */
  function Working(s: Store, list: Json): (r: seq<Entry>)
    ensures Truthy(list) ==> r == Normalize(list)
    ensures !Truthy(list) ==> r == s.apps
    ensures Truthy(list) ==> forall i :: 0 <= i < |r| ==> Canonical(r[i])
  {
    if Truthy(list) then Normalize(list) else s.apps
  }

  /** `exportBundles(list)` at time `nowIso`. A list that fails validation is rejected with
      all its errors and nothing changes. Otherwise the store's metadata is stamped (and
      nothing else in the store changes), the payload carries the stamped metadata and the
      working entries, and the two files are named from one stamp of the time. */
  function ExportBundles(s: Store, list: Json, nowIso: string): (r: Exported)
    ensures !Validate(Working(s, list)).valid ==>
              r == Exported(s, Rejected(Validate(Working(s, list)).errors))
    ensures Validate(Working(s, list)).valid ==> r.outcome.Written?
    ensures r.outcome.Written? ==> r.store == s.(meta := Stamped(s.meta, nowIso))
    ensures r.outcome.Written? ==>
              r.outcome.bundle.meta == r.store.meta &&
              r.outcome.bundle.payload == GetPayload(r.store.meta, Working(s, list))
    ensures r.outcome.Written? ==>
              r.outcome.bundle.jsonName == "app-links-" + StampOf(nowIso) + ".json" &&
              r.outcome.bundle.jsName == "app-registry-" + StampOf(nowIso) + ".js"
  {
    var working := Working(s, list);
    var v := Validate(working);
    if !v.valid then Exported(s, Rejected(v.errors))
    else
      var m := Stamped(s.meta, nowIso);
      var stamp := StampOf(nowIso);
      Exported(s.(meta := m),
               Written(Bundle("app-links-" + stamp + ".json", "app-registry-" + stamp + ".js",
                              GetPayload(m, working), m)))
  }

  /** An exported file loads back as exactly what was exported: the working entries (when
      they are canonical, as a passed list always is) and the stamped metadata, with a
      non-empty version. */
  lemma ExportReloads(s: Store, list: Json, nowIso: string)
    requires Truthy(list) || forall i :: 0 <= i < |s.apps| ==> Canonical(s.apps[i])
    requires Validate(Working(s, list)).valid
    ensures var b := ExportBundles(s, list, nowIso).outcome.bundle;
            Normalize(JArr(ParsePayload(b.payload).apps)) == Working(s, list) &&
            ParsePayload(b.payload).meta == Stamped(s.meta, nowIso) &&
            ParsePayload(b.payload).meta.version != ""
  {
    SavedRegistryReloads(Stamped(s.meta, nowIso), Working(s, list));
  }

  /** Importing an exported JSON file through the picker, into any store, restores exactly
      the exported entries and the stamped metadata. */
  lemma ImportExported(s: Store, list: Json, nowIso: string, t: Store)
    requires Truthy(list) || forall i :: 0 <= i < |s.apps| ==> Canonical(s.apps[i])
    requires Validate(Working(s, list)).valid
    ensures var b := ExportBundles(s, list, nowIso).outcome.bundle;
            ImportFromPicker(t, Some(b.payload)).apps == Working(s, list) &&
            ImportFromPicker(t, Some(b.payload)).meta == Stamped(s.meta, nowIso)
  {
    ExportReloads(s, list, nowIso);
  }

  /** Exporting twice at the same time stamps nothing the second time: the first export
      already filled the metadata in. */
  lemma ExportStampsOnce(s: Store, list: Json, nowIso: string)
    ensures var r := ExportBundles(s, list, nowIso);
            r.outcome.Written? ==> Stamped(r.store.meta, nowIso) == r.store.meta
  {
    var r := ExportBundles(s, list, nowIso);
    if r.outcome.Written? {
      assert r.store.meta == Stamped(s.meta, nowIso);
      assert r.store.meta.version != "";
      if s.meta.updated == "" && nowIso == "" {
        assert r.store.meta.updated == "";
      }
    }
  }
}
