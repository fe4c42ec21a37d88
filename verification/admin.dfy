/** The admin page's working copy of the registry (scripts/main.js). Every entry of the
    working model is forced to a link whose url is the entry's href; rows are addressed by
    key; URLs typed into the table are checked before they are stored. */
module Admin {
  import opened Maybe
  import opened Text
  import opened Seqs
  import opened Actions
  import opened Entries
  import opened Registry

  const DefaultAppLabel := "Application"

  /** `deriveHref(app)`: a link's own url when it has one, else the entry's href. */
  function DeriveHref(e: Entry): (r: string)
    ensures e.action.Link? && e.action.url != "" ==> r == e.action.url
    ensures !(e.action.Link? && e.action.url != "") ==> r == e.href
  {
    if e.action.Link? then Or(e.action.url, e.href) else e.href
  }

  /** `ensureLinkAction(app, href)`: the entry's action becomes a link to `href`. An existing
      link keeps its target, rel, title and aria label where they are set; anything else
      is replaced by a fresh link. Title and aria label default to `Open <label>`, with
      `Application` for a missing label. */
  function EnsureLinkAction(action: Action, name: string, href: string): (a: Action)
    ensures a.Link? && a.url == href
    ensures a.target != "" && a.rel != "" && a.title != "" && a.ariaLabel != ""
    ensures action.Link? ==> a.target == Or(action.target, DefaultTarget) && a.rel == Or(action.rel, DefaultRel)
    ensures action.Link? ==>
              a.title == Or(action.title, OpenLabel(Or(name, DefaultAppLabel))) &&
              a.ariaLabel == Or(action.ariaLabel, OpenLabel(Or(name, DefaultAppLabel)))
    ensures !action.Link? ==>
              a == Link(href, DefaultTarget, DefaultRel, OpenLabel(Or(name, DefaultAppLabel)),
                        OpenLabel(Or(name, DefaultAppLabel)))
  {
    var shown := Or(name, DefaultAppLabel);
    var base := if action.Link? then action else Link("", "", "", "", "");
    Link(href, Or(base.target, DefaultTarget), Or(base.rel, DefaultRel),
         Or(base.title, OpenLabel(shown)), Or(base.ariaLabel, OpenLabel(shown)))
  }

  /** Forcing a link twice to the same href is forcing it once. */
  lemma EnsureLinkActionIdempotent(action: Action, name: string, name': string, href: string)
    ensures EnsureLinkAction(EnsureLinkAction(action, name, href), name', href)
         == EnsureLinkAction(action, name, href)
  {
  }

  /** `normalizeModelApp(app)`. `fallbackKey` is what `generateAppKey(label)` yields; it is
      used only when the entry has no key. The result has a label, a key (given a non-empty
      fallback), an href derived from the action, and a link action pointing at that href. */
  function NormalizeModelApp(e: Entry, fallbackKey: string): (r: Entry)
    ensures r.name != "" && r.name == Or(e.name, DefaultAppLabel)
    ensures r.key == Or(e.key, fallbackKey)
    ensures r.icon == e.icon
    ensures e.action.Link? && e.action.url != "" ==> r.href == e.action.url
    ensures !(e.action.Link? && e.action.url != "") ==> r.href == e.href
    ensures r.action.Link? && r.action.url == r.href
    ensures r.action.target != "" && r.action.rel != "" && r.action.title != "" && r.action.ariaLabel != ""
  {
    var name := Or(e.name, DefaultAppLabel);
    var href := DeriveHref(e);
    Entry(Or(e.key, fallbackKey), name, e.icon, href, EnsureLinkAction(e.action, name, href))
  }

  /** Normalising a normalised entry changes nothing, whatever key would be generated the
      second time. */
  lemma NormalizeModelAppIdempotent(e: Entry, fallbackKey: string, fallbackKey': string)
    requires Or(e.key, fallbackKey) != ""
    ensures NormalizeModelApp(NormalizeModelApp(e, fallbackKey), fallbackKey') == NormalizeModelApp(e, fallbackKey)
  {
    var r := NormalizeModelApp(e, fallbackKey);
    EnsureLinkActionIdempotent(e.action, r.name, r.name, r.href);
    assert DeriveHref(r) == r.href;
  }

  /** A normalised entry derives its own href again: its link points where its href says. */
  lemma DeriveHrefNormalized(e: Entry, fallbackKey: string)
    ensures DeriveHref(NormalizeModelApp(e, fallbackKey)) == NormalizeModelApp(e, fallbackKey).href
  {
    var r := NormalizeModelApp(e, fallbackKey);
    if r.href == "" {
      assert r.action.url == "";
    }
  }

  /** The outcome of `validateAppUrl(value)`. */
  datatype UrlCheck = UrlOk | UrlBad(message: string)

  const UrlRequired := "URL is required."
  const UrlBadHttp := "Enter a valid http(s) URL."
  const UrlBadForm := "Enter http(s):// or internal host/path."

  /** `/^https?:\/\//i`. */
  predicate HasHttpScheme(v: string) {
    StartsWithIgnoreCase(v, "http://") || StartsWithIgnoreCase(v, "https://")
  }

  /** `[\w.-]`: the characters of a host name in the host/path pattern. */
  predicate HostChar(c: char) {
    ('a' <= c <= 'z') || ('A' <= c <= 'Z') || ('0' <= c <= '9') || c == '_' || c == '.' || c == '-'
  }

  /** The characters `.` does not match. */
  predicate LineTerminator(c: char) {
    c == '\n' || c == '\r' || c == '\U{2028}' || c == '\U{2029}'
  }

  /** `v` splits at `k` into a non-empty host and an optional `/`-path without line breaks,
      as `^[\w.-]+(\/.*)?$` requires. */
  predicate HostPathAt(v: string, k: int) {
    0 < k <= |v| && (forall j :: 0 <= j < k ==> HostChar(v[j]))
    && (k == |v| || (v[k] == '/' && forall j :: k < j < |v| ==> !LineTerminator(v[j])))
  }

  /** The host/path pattern decided by scanning the longest host prefix. */
  predicate MatchesHostPath(v: string) {
    var k := |v| - |SkipWhile(v, HostChar)|;
    HostPathAt(v, k)
  }

  /** The scan agrees with the pattern: it matches exactly when some split does. */
  lemma MatchesHostPathIff(v: string)
    ensures MatchesHostPath(v) <==> exists k :: HostPathAt(v, k)
  {
    var k := |v| - |SkipWhile(v, HostChar)|;
    SkipWhileSkipped(v, HostChar);
    if exists m :: HostPathAt(v, m) {
      var m :| HostPathAt(v, m);
      if m < k {
        assert HostChar(v[m]);
      } else if m > k {
        assert HostChar(v[k]);
      }
    }
  }

  /** `validateAppUrl(value)`. `parses` stands for `new URL(value)` succeeding. An empty
      value is required-missing; an http(s) value is valid exactly when it parses; any other
      value is valid exactly when it is a host with an optional path. */
  function ValidateAppUrl(value: string, parses: string -> bool): (r: UrlCheck)
    ensures value == "" ==> r == UrlBad(UrlRequired)
    ensures value != "" && HasHttpScheme(value) ==> (r.UrlOk? <==> parses(value))
    ensures value != "" && HasHttpScheme(value) && !parses(value) ==> r == UrlBad(UrlBadHttp)
    ensures value != "" && !HasHttpScheme(value) ==> (r.UrlOk? <==> exists k :: HostPathAt(value, k))
    ensures value != "" && !HasHttpScheme(value) && r.UrlBad? ==> r.message == UrlBadForm
  {
    MatchesHostPathIff(value);
    if value == "" then UrlBad(UrlRequired)
    else if HasHttpScheme(value) then (if parses(value) then UrlOk else UrlBad(UrlBadHttp))
    else if MatchesHostPath(value) then UrlOk
    else UrlBad(UrlBadForm)
  }

  /** Characters a generated key keeps. */
  predicate KeyChar(c: char) {
    ('a' <= c <= 'z') || ('0' <= c <= '9')
  }

  predicate NotKeyChar(c: char) {
    !KeyChar(c)
  }

  /** `.replace(/(^-|-$)/g, '')`: one leading and one trailing `-` removed. */
  function StripDashes(s: string): (r: string)
    ensures |r| <= |s|
  {
    var a := if s != [] && s[0] == '-' then s[1..] else s;
    if a != [] && a[|a| - 1] == '-' then a[..|a| - 1] else a
  }

  /** What the global `(^-|-$)` replacement does, case by case: ends without a dash are
      kept, a lone `-` vanishes, and otherwise exactly the dashed ends are cut. */
  lemma StripDashesCases(s: string)
    ensures s == [] || (s[0] != '-' && s[|s| - 1] != '-') ==> StripDashes(s) == s
    ensures s == "-" ==> StripDashes(s) == []
    ensures |s| >= 2 && s[0] == '-' && s[|s| - 1] == '-' ==> StripDashes(s) == s[1..|s| - 1]
    ensures s != [] && s[0] == '-' && s[|s| - 1] != '-' ==> StripDashes(s) == s[1..]
    ensures s != [] && s[0] != '-' && s[|s| - 1] == '-' ==> StripDashes(s) == s[..|s| - 1]
  {
  }

  /** A key made only of lower-case letters, digits and single inner dashes. */
  predicate KeyShaped(k: string) {
    k != [] && k[0] != '-' && k[|k| - 1] != '-'
    && (forall i :: 0 <= i < |k| ==> KeyChar(k[i]) || k[i] == '-')
    && forall i :: 0 <= i < |k| - 1 ==> !(k[i] == '-' && k[i + 1] == '-')
  }

  /** The base key of `generateAppKey(label)`: the lower-cased label (or `app`) with every
      run of other characters turned into one `-`, an outer `-` dropped, and `app` if
      nothing is left. */
  function KeyBase(name: string): string {
    Or(StripDashes(ReplaceRuns(Lower(Or(name, "app")), NotKeyChar, '-')), "app")
  }

  /** The base key is always key-shaped. */
  lemma KeyBaseShaped(name: string)
    ensures KeyShaped(KeyBase(name))
  {
    var dashed := ReplaceRuns(Lower(Or(name, "app")), NotKeyChar, '-');
    ReplaceRunsNoDoubles(Lower(Or(name, "app")), NotKeyChar, '-');
    StripDashesShaped(dashed);
  }

  /** When the dashed form of a non-empty label starts and ends with a letter or digit,
      that dashed form is the base key. */
  lemma KeyBaseDashed(name: string)
    requires name != []
    requires var d := ReplaceRuns(Lower(name), NotKeyChar, '-');
             d != [] && KeyChar(d[0]) && KeyChar(d[|d| - 1])
    ensures KeyBase(name) == ReplaceRuns(Lower(name), NotKeyChar, '-')
  {
  }

  /** A label made only of letters and digits keys as its lower-case self. */
  lemma KeyBaseWord(name: string)
    requires name != [] && forall i :: 0 <= i < |name| ==> KeyChar(LowerChar(name[i]))
    ensures KeyBase(name) == Lower(name)
  {
    var low := Lower(name);
    KeyBaseWordSteps(name, low);
    KeyBaseDashed(name);
  }

  /** The facts `KeyBaseWord` chains: a lower-cased word is its own dashed form, with a
      letter or digit at each end. */
  lemma KeyBaseWordSteps(name: string, low: string)
    requires low == Lower(name)
    requires name != [] && forall i :: 0 <= i < |name| ==> KeyChar(LowerChar(name[i]))
    ensures low != [] && KeyChar(low[0]) && KeyChar(low[|low| - 1])
    ensures ReplaceRuns(low, NotKeyChar, '-') == low
  {
    WordDashed(low);
  }

  /** A word of letters and digits has no run to replace. */
  lemma WordDashed(low: string)
    requires low != [] && forall i :: 0 <= i < |low| ==> KeyChar(low[i])
    ensures ReplaceRuns(low, NotKeyChar, '-') == low
  {
    ReplaceRunsIdentity(low, NotKeyChar, '-');
  }

  /** Two words separated by any run of other characters (spaces, punctuation) key as the
      lower-cased words joined by a single `-`. */
  lemma KeyBaseJoin(a: string, w: string, b: string)
    requires a != [] && forall i :: 0 <= i < |a| ==> KeyChar(LowerChar(a[i]))
    requires w != [] && forall i :: 0 <= i < |w| ==> NotKeyChar(LowerChar(w[i]))
    requires b != [] && forall i :: 0 <= i < |b| ==> KeyChar(LowerChar(b[i]))
    ensures KeyBase(a + w + b) == Lower(a) + "-" + Lower(b)
  {
    var la, lw, lb := Lower(a), Lower(w), Lower(b);
    var d := la + "-" + lb;
    assert a + w + b == a + (w + b);
    assert la + ("-" + lb) == d;
    assert d[0] == la[0] && d[|d| - 1] == lb[|lb| - 1];
    assert Lower(a + w + b) == la + (lw + lb) by {
      LowerAppend(a, w + b);
      LowerAppend(w, b);
    }
    assert ReplaceRuns(la + (lw + lb), NotKeyChar, '-') == d by {
      ReplaceRunsJoin(la, lw, lb);
    }
    KeyBaseDashed(a + w + b);
  }

  /** The run replacement underneath `KeyBaseJoin`, on lower-cased parts. */
  lemma ReplaceRunsJoin(la: string, lw: string, lb: string)
    requires la != [] && forall i :: 0 <= i < |la| ==> KeyChar(la[i])
    requires lw != [] && forall i :: 0 <= i < |lw| ==> NotKeyChar(lw[i])
    requires lb != [] && forall i :: 0 <= i < |lb| ==> KeyChar(lb[i])
    ensures ReplaceRuns(la + (lw + lb), NotKeyChar, '-') == la + ("-" + lb)
  {
    ReplaceRunsAppend(la, lw + lb, NotKeyChar, '-');
    ReplaceRunsIdentity(la, NotKeyChar, '-');
    ReplaceRunsRun(lw, lb, NotKeyChar, '-');
    ReplaceRunsIdentity(lb, NotKeyChar, '-');
  }

  /** A label with no letter or digit at all falls back to `app`. */
  lemma KeyBaseNothingLeft(name: string)
    requires name != [] && forall i :: 0 <= i < |name| ==> NotKeyChar(LowerChar(name[i]))
    ensures KeyBase(name) == "app"
  {
    var low := Lower(name);
    assert low + [] == low;
    ReplaceRunsRun(low, [], NotKeyChar, '-');
  }

  /** An empty label keys as `app`. */
  lemma KeyBaseDefault()
    ensures KeyBase("") == "app"
  {
    var app := "app";
    assert forall i :: 0 <= i < |app| ==> KeyChar(LowerChar(app[i]));
    KeyBaseWord(app);
    assert Lower(app) == app;
  }

  /** Stripping the outer dashes of a dashed slug without doubled dashes leaves no dash at
      either end. */
  lemma StripDashesShaped(s: string)
    requires forall i :: 0 <= i < |s| ==> KeyChar(s[i]) || s[i] == '-'
    requires forall i :: 0 <= i < |s| - 1 ==> !(s[i] == '-' && s[i + 1] == '-')
    ensures StripDashes(s) == [] || KeyShaped(StripDashes(s))
  {
    var a := if s != [] && s[0] == '-' then s[1..] else s;
    assert forall i :: 0 <= i < |a| - 1 ==> !(a[i] == '-' && a[i + 1] == '-');
    if s != [] && s[0] == '-' {
      assert a == [] || a[0] != '-';
    }
  }

  /** `findAppIndexByKey(key)`: the first index holding `key`, or -1 when none does. */
  function FindAppIndexByKey(model: seq<Entry>, key: string): (r: int)
    ensures -1 <= r < |model|
    ensures r == -1 <==> forall i :: 0 <= i < |model| ==> model[i].key != key
    ensures r >= 0 ==> model[r].key == key && forall j :: 0 <= j < r ==> model[j].key != key
  {
    if model == [] then -1
    else if model[0].key == key then 0
    else
      var k := FindAppIndexByKey(model[1..], key);
      if k == -1 then -1 else k + 1
  }

  /** The keys `generateAppKey` tries in turn: the base, then the base with each random
      suffix. */
  function Candidate(base: string, suffixes: seq<string>, i: nat): string
    requires i <= |suffixes|
  {
    if i == 0 then base else base + "-" + suffixes[i - 1]
  }

  /** Some row of the model already holds `key`. */
  predicate Taken(model: seq<Entry>, key: string) {
    FindAppIndexByKey(model, key) != -1
  }

  /** Candidate `i` is the first one not taken. */
  predicate FirstFree(model: seq<Entry>, base: string, suffixes: seq<string>, i: nat) {
    i <= |suffixes| && !Taken(model, Candidate(base, suffixes, i))
    && forall j :: 0 <= j < i ==> Taken(model, Candidate(base, suffixes, j))
  }

  /** The loop of `generateAppKey`: try the candidates in turn until one is free. The
      source draws suffixes from `Math.random` for ever; here they come from the finite
      stream `suffixes`, and running out of it yields `None`. */
  method FirstFreeKey(base: string, model: seq<Entry>, suffixes: seq<string>) returns (r: Option<string>)
    ensures r.Some? ==> exists i :: FirstFree(model, base, suffixes, i) && r.value == Candidate(base, suffixes, i)
    ensures r.None? ==> forall j :: 0 <= j <= |suffixes| ==> Taken(model, Candidate(base, suffixes, j))
  {
    var i := 0;
    var key := base;
    while Taken(model, key)
      invariant 0 <= i <= |suffixes|
      invariant key == Candidate(base, suffixes, i)
      invariant forall j :: 0 <= j < i ==> Taken(model, Candidate(base, suffixes, j))
      decreases |suffixes| - i
    {
      if i == |suffixes| {
        return None;
      }
      i := i + 1;
      key := base + "-" + suffixes[i - 1];
    }
    assert FirstFree(model, base, suffixes, i);
    return Some(key);
  }

  /** `generateAppKey(label)`: the first free candidate built on the label's base key, so
      no row holds the key returned, and it starts with that base. */
  method GenerateAppKey(name: string, model: seq<Entry>, suffixes: seq<string>) returns (r: Option<string>)
    ensures r.Some? ==> forall i :: 0 <= i < |model| ==> model[i].key != r.value
    ensures r.Some? ==> KeyBase(name) <= r.value
    ensures r.Some? ==> exists i :: FirstFree(model, KeyBase(name), suffixes, i)
                                   && r.value == Candidate(KeyBase(name), suffixes, i)
    ensures r.None? ==> forall j :: 0 <= j <= |suffixes| ==> Taken(model, Candidate(KeyBase(name), suffixes, j))
  {
    r := FirstFreeKey(KeyBase(name), model, suffixes);
    if r.Some? {
      var i :| FirstFree(model, KeyBase(name), suffixes, i) && r.value == Candidate(KeyBase(name), suffixes, i);
      assert !Taken(model, r.value);
    }
  }

  /** `deriveSourceLabel(code)`: the badge text for a `status.source` code ("" for none);
      a code outside the table is shown as it is. */
  function DeriveSourceLabel(code: string): (r: string)
    ensures r != ""
    ensures code == "" ==> r == "Defaults"
    ensures code == "shared" ==> r == "Shared registry"
    ensures code == "local" ==> r == "Local override"
    ensures code == "bundled" ==> r == "Bundled defaults"
    ensures code == "defaults" ==> r == "Built-in list"
    ensures code == "picker" ==> r == "Imported file"
    ensures code != "" && code !in {"shared", "local", "bundled", "defaults", "picker"} ==> r == code
  {
    if code == "" then "Defaults"
    else if code == "shared" then "Shared registry"
    else if code == "local" then "Local override"
    else if code == "bundled" then "Bundled defaults"
    else if code == "defaults" then "Built-in list"
    else if code == "picker" then "Imported file"
    else code
  }

  /** Every source the store can report has its own label, distinct from the others and from
      the label shown when no source is known. */
  lemma SourceLabelsDistinct(a: Source, b: Source)
    ensures DeriveSourceLabel(a.Code()) != "Defaults"
    ensures a != b ==> DeriveSourceLabel(a.Code()) != DeriveSourceLabel(b.Code())
  {
  }

  /** The outcome of an edit addressed by key: the next model and whether a row matched. */
  datatype Updated = Updated(model: seq<Entry>, ok: bool)

  /** `updateModelForKey(key, updater)`: a missing key changes nothing and reports false;
      otherwise only the first row with that key is replaced, by the normalised result of
      the updater, and the model keeps its length. */
  function UpdateModelForKey(model: seq<Entry>, key: string, updater: Entry -> Entry, fallbackKey: string)
    : (r: Updated)
    ensures r.ok <==> exists i :: 0 <= i < |model| && model[i].key == key
    ensures !r.ok ==> r.model == model
    ensures |r.model| == |model|
    ensures r.ok ==> var idx := FindAppIndexByKey(model, key);
                     r.model[idx] == NormalizeModelApp(updater(model[idx]), fallbackKey)
                     && forall j :: 0 <= j < |model| && j != idx ==> r.model[j] == model[j]
  {
    var idx := FindAppIndexByKey(model, key);
    if idx == -1 then Updated(model, false)
    else Updated(model[idx := NormalizeModelApp(updater(model[idx]), fallbackKey)], true)
  }

  /** What the inline editor's updater does to a row: new href, link to it. */
  function WithUrl(e: Entry, value: string): (r: Entry)
    ensures r.key == e.key && r.name == e.name && r.icon == e.icon
    ensures r.href == value && r.action.Link? && r.action.url == value
    ensures DeriveHref(r) == value
  {
    e.(href := value, action := EnsureLinkAction(e.action, e.name, value))
  }

  /** `commitInlineUrlChange(input)`, model effect only. The typed value is trimmed; an
      empty key or an invalid URL leaves the model as it was; otherwise the row with that
      key (the first) ends up with both its href and its link url equal to the trimmed
      value, keeps its key, and no other row changes. */
  function CommitInlineUrl(model: seq<Entry>, key: string, raw: string, parses: string -> bool,
                           fallbackKey: string): (r: Updated)
    ensures key == "" || ValidateAppUrl(Trim(raw), parses).UrlBad? ==> r == Updated(model, false)
    ensures key != "" && ValidateAppUrl(Trim(raw), parses).UrlOk? ==>
              (r.ok <==> FindAppIndexByKey(model, key) != -1)
    ensures !r.ok ==> r.model == model
    ensures |r.model| == |model|
    ensures r.ok ==> var idx := FindAppIndexByKey(model, key);
                     0 <= idx && r.model[idx].href == Trim(raw) && r.model[idx].action.Link?
                     && r.model[idx].action.url == Trim(raw) && r.model[idx].key == key
                     && forall j :: 0 <= j < |model| && j != idx ==> r.model[j] == model[j]
  {
    var value := Trim(raw);
    if key == "" || ValidateAppUrl(value, parses).UrlBad? then Updated(model, false)
    else UpdateModelForKey(model, key, e => WithUrl(e, value), fallbackKey)
  }

  /** Committing the same value to the same row a second time changes nothing more: the
      row already links to the value, and normalising it again is the identity. */
  lemma CommitInlineUrlTwice(model: seq<Entry>, key: string, raw: string, parses: string -> bool,
                             fallbackKey: string)
    ensures var r := CommitInlineUrl(model, key, raw, parses, fallbackKey);
            CommitInlineUrl(r.model, key, raw, parses, fallbackKey) == r
  {
    var r := CommitInlineUrl(model, key, raw, parses, fallbackKey);
    if r.ok {
      var v := Trim(raw);
      var idx := FindAppIndexByKey(model, key);
      var row := WithUrl(model[idx], v);
      assert r.model == model[idx := NormalizeModelApp(row, fallbackKey)];
      FindAfterUpdate(model, r.model, key, idx);
      CommittedRowStable(row, v, fallbackKey);
      assert r.model[idx := NormalizeModelApp(WithUrl(r.model[idx], v), fallbackKey)] == r.model;
    }
  }

  /** A row that already links to `v` is left as it is by a further commit of `v`. */
  lemma CommittedRowStable(row: Entry, v: string, fallbackKey: string)
    requires row.key != "" && row.action.Link? && row.action.url == v && row.href == v
    ensures var n := NormalizeModelApp(row, fallbackKey);
            NormalizeModelApp(WithUrl(n, v), fallbackKey) == n
  {
    var n := NormalizeModelApp(row, fallbackKey);
    EnsureLinkActionIdempotent(row.action, row.name, n.name, n.href);
    assert WithUrl(n, v) == n;
    NormalizeModelAppIdempotent(row, fallbackKey, fallbackKey);
  }

  /** Replacing the first row with a key by another row with that key leaves it the first. */
  lemma FindAfterUpdate(model: seq<Entry>, model': seq<Entry>, key: string, idx: int)
    requires idx == FindAppIndexByKey(model, key) && idx != -1
    requires |model'| == |model| && model'[idx].key == key
    requires forall j :: 0 <= j < |model| && j != idx ==> model'[j] == model[j]
    ensures FindAppIndexByKey(model', key) == idx
  {
  }

  /** The delete button of a row: nothing happens without a key, for a key no row has, or
      when the user does not confirm; otherwise every row with that key goes and the rest
      stay in order. */
  function DeleteByKey(model: seq<Entry>, key: string, confirmed: bool): (r: seq<Entry>)
    ensures key == "" || FindAppIndexByKey(model, key) == -1 || !confirmed ==> r == model
    ensures key != "" && confirmed ==> forall i :: 0 <= i < |r| ==> r[i].key != key
    ensures forall i :: 0 <= i < |model| && model[i].key != key ==> model[i] in r
    ensures key != "" && confirmed && FindAppIndexByKey(model, key) != -1 ==> |r| < |model|
  {
    if key == "" || FindAppIndexByKey(model, key) == -1 || !confirmed then model
    else
      var idx := FindAppIndexByKey(model, key);
      FilterDrops(model, OtherKey(key), idx);
      Filter(model, OtherKey(key))
  }

  /** The rows a delete of `key` keeps. */
  function OtherKey(key: string): Entry -> bool {
    (e: Entry) => e.key != key
  }

  /** Deleting from a model split in two deletes from each part and keeps the parts in
      order; with `FilterSingleton` this fixes the position of every surviving row. */
  lemma DeleteSplit(a: seq<Entry>, b: seq<Entry>, key: string)
    requires key != "" && FindAppIndexByKey(a + b, key) != -1
    ensures DeleteByKey(a + b, key, true) == Filter(a, OtherKey(key)) + Filter(b, OtherKey(key))
  {
    FilterAppend(a, b, OtherKey(key));
  }

  /** Deleting twice is deleting once. */
  lemma DeleteIdempotent(model: seq<Entry>, key: string)
    ensures DeleteByKey(DeleteByKey(model, key, true), key, true) == DeleteByKey(model, key, true)
  {
  }
}
