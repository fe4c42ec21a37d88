/** The forms hub's bookkeeping (scripts/forms.js): the registry of forms, the search
    filter, the pinned-first ordering, the pin set, the recently opened list and the
    conversion of absolute paths to `file://` URLs. */
module Forms {
  import opened Maybe
  import opened Text
  import opened Seqs
  import opened JsonValue

  datatype Form = Form(id: string, title: string, desc: string, icon: string, href: string,
                       hrefAbs: string, search: string)

  /** What `normalizeForm` guarantees of a form: every text field trimmed, a title unless
      the id is empty too, and the search text derived from title and description. */
  predicate FormShaped(f: Form) {
    Trimmed(f.id) && Trimmed(f.title) && Trimmed(f.desc) && Trimmed(f.icon)
    && Trimmed(f.href) && Trimmed(f.hrefAbs)
    && (f.title != "" || f.id == "")
    && f.search == Lower(f.title + " " + f.desc)
  }

  /** `normalizeForm(entry)`: every field trimmed, the title falling back to the id, and the
      search text the lower-cased title and description joined by a space. */
  function NormalizeForm(entry: Json): (f: Form)
    ensures FormShaped(f)
    ensures f.id == Trim(Str(entry, "id"))
    ensures f.title == Or(Trim(Str(entry, "title")), f.id)
    ensures f.desc == Trim(Str(entry, "desc"))
    ensures f.icon == Trim(Str(entry, "icon"))
    ensures f.href == Trim(Str(entry, "href"))
    ensures f.hrefAbs == Trim(Str(entry, "hrefAbs"))
  {
    var id := Trim(Str(entry, "id"));
    var title := Or(Trim(Str(entry, "title")), id);
    var desc := Trim(Str(entry, "desc"));
    Form(id, title, desc, Trim(Str(entry, "icon")), Trim(Str(entry, "href")),
         Trim(Str(entry, "hrefAbs")), Lower(title + " " + desc))
  }

  /** A form as it appears in the registry file. */
  function FormToJson(f: Form): Json {
    JObj(map["id" := JStr(f.id), "title" := JStr(f.title), "desc" := JStr(f.desc),
             "icon" := JStr(f.icon), "href" := JStr(f.href), "hrefAbs" := JStr(f.hrefAbs)])
  }

  /** A normalised form written back to the registry normalises to itself. */
  lemma NormalizeFormRoundTrip(f: Form)
    requires FormShaped(f)
    ensures NormalizeForm(FormToJson(f)) == f
  {
    var j := FormToJson(f);
    assert Str(j, "id") == f.id;
    assert Str(j, "title") == f.title;
    assert Str(j, "desc") == f.desc;
    assert Str(j, "icon") == f.icon;
    assert Str(j, "href") == f.href;
    assert Str(j, "hrefAbs") == f.hrefAbs;
  }

  const LoadError := "Could not load forms registry. Check the file is available locally."

  /** The hub's registry after loading, with the notice shown ("" for none). */
  datatype Catalog = Catalog(forms: seq<Form>, error: string)

  function HasId(f: Form): bool {
    f.id != ""
  }

  /** Every element of the `forms` array normalised, in order. */
  function NormalizeForms(items: seq<Json>): (r: seq<Form>)
    ensures |r| == |items|
    ensures forall i :: 0 <= i < |items| ==> r[i] == NormalizeForm(items[i])
  {
    seq(|items|, i requires 0 <= i < |items| => NormalizeForm(items[i]))
  }

  /** The `forms` array of a fetched registry (`data?.forms`), empty unless it is an array. */
  function FormItems(data: Json): seq<Json> {
    if Get(data, "forms").JArr? then Get(data, "forms").items else []
  }

  /** `loadRegistry()` over the fetched file (none when the request or its JSON failed): the
      normalised entries of its `forms` array, without those whose id is empty, in file
      order; a failed load leaves no forms and the notice. */
  function LoadRegistry(fetched: Option<Json>): (r: Catalog)
    ensures fetched.None? ==> r == Catalog([], LoadError)
    ensures fetched.Some? ==> r.error == ""
    ensures fetched.Some? ==> r.forms == Filter(NormalizeForms(FormItems(fetched.value)), HasId)
    ensures forall i :: 0 <= i < |r.forms| ==> r.forms[i].id != "" && FormShaped(r.forms[i])
    ensures fetched.Some? ==> forall i :: 0 <= i < |FormItems(fetched.value)| ==>
              NormalizeForm(FormItems(fetched.value)[i]).id != "" ==>
                NormalizeForm(FormItems(fetched.value)[i]) in r.forms
  {
    match fetched
    case None => Catalog([], LoadError)
    case Some(data) => Catalog(Filter(NormalizeForms(FormItems(data)), HasId), "")
  }

  /** A registry file written from normalised forms that all have ids loads back as exactly
      those forms, in the same order. */
  lemma LoadRegistryRoundTrip(forms: seq<Form>)
    requires forall i :: 0 <= i < |forms| ==> FormShaped(forms[i]) && forms[i].id != ""
    ensures LoadRegistry(Some(RegistryFile(forms))).forms == forms
  {
    var items := seq(|forms|, i requires 0 <= i < |forms| => FormToJson(forms[i]));
    assert FormItems(RegistryFile(forms)) == items;
    forall i | 0 <= i < |forms|
      ensures NormalizeForm(items[i]) == forms[i]
    {
      NormalizeFormRoundTrip(forms[i]);
    }
    assert NormalizeForms(items) == forms;
    FilterKeepsAll(forms, HasId);
  }

  /** The registry file `{ "forms": [...] }` holding `forms`. */
  function RegistryFile(forms: seq<Form>): Json {
    JObj(map["forms" := JArr(seq(|forms|, i requires 0 <= i < |forms| => FormToJson(forms[i])))])
  }

  /** The forms a non-empty search keeps. */
  function Matches(query: string): Form -> bool {
    (f: Form) => Includes(f.search, query)
  }

  /** `filterForms()`: an empty query keeps every form; otherwise exactly the forms whose
      search text contains the query, in their original order. */
  function FilterForms(forms: seq<Form>, query: string): (r: seq<Form>)
    ensures query == "" ==> r == forms
    ensures forall i :: 0 <= i < |r| ==> Includes(r[i].search, query)
    ensures forall i :: 0 <= i < |forms| && Includes(forms[i].search, query) ==> forms[i] in r
    ensures forall i :: 0 <= i < |r| ==> r[i] in forms
    ensures query != "" ==> r == Filter(forms, Matches(query))
  {
    if query == "" then
      assert forall i :: 0 <= i < |forms| ==> Includes(forms[i].search, query);
      forms
    else Filter(forms, Matches(query))
  }

  /** Searching a list split in two searches each part and keeps the parts in order; with
      the single-form case this fixes the order of the result. */
  lemma FilterFormsAppend(a: seq<Form>, b: seq<Form>, query: string)
    ensures FilterForms(a + b, query) == FilterForms(a, query) + FilterForms(b, query)
  {
    if query != "" {
      FilterAppend(a, b, Matches(query));
    }
  }

  /** A single form is kept exactly when its search text contains the query. */
  lemma FilterFormsSingle(f: Form, query: string)
    ensures FilterForms([f], query) == if Includes(f.search, query) then [f] else []
  {
    if query != "" {
      FilterSingleton(f, Matches(query));
    }
  }

  /** A form kept by a non-empty search contains the query at some position. */
  lemma FilterFormsMatch(forms: seq<Form>, query: string, i: int)
    requires 0 <= i < |FilterForms(forms, query)|
    ensures exists k :: OccursAt(FilterForms(forms, query)[i].search, query, k)
  {
    IncludesAt(FilterForms(forms, query)[i].search, query);
  }

  /** `localeCompare` is not modelled; `le(a, b)` says title `a` may come before title `b`,
      and the lemmas assume it is total. */
  ghost predicate Total(le: (string, string) -> bool) {
    forall a, b :: le(a, b) || le(b, a)
  }

  /** The comparator of `sortForms`: a pinned form before an unpinned one, otherwise by
      title. */
  predicate Before(pins: set<string>, le: (string, string) -> bool, a: Form, b: Form) {
    (a.id in pins && b.id !in pins) || ((a.id in pins) == (b.id in pins) && le(a.title, b.title))
  }

  /** The comparator's three cases: a pinned form goes ahead of an unpinned one and never
      behind it, and within a group the titles decide. */
  lemma BeforeCases(pins: set<string>, le: (string, string) -> bool, a: Form, b: Form)
    ensures a.id in pins && b.id !in pins ==> Before(pins, le, a, b) && !Before(pins, le, b, a)
    ensures (a.id in pins) == (b.id in pins) ==> (Before(pins, le, a, b) <==> le(a.title, b.title))
  {
  }

  /** Inserts `x` before the first element it may precede; it goes ahead of the elements it
      ties with, which were later in the input. */
  function Insert(pins: set<string>, le: (string, string) -> bool, x: Form, s: seq<Form>): (r: seq<Form>)
    ensures multiset(r) == multiset(s) + multiset{x}
    ensures |r| == |s| + 1
    ensures r[0] == x || (s != [] && r[0] == s[0])
  {
    if s == [] || Before(pins, le, x, s[0]) then [x] + s
    else
      assert s == [s[0]] + s[1..];
      [s[0]] + Insert(pins, le, x, s[1..])
  }

  /** `sortForms(list)`, as an insertion sort under the same comparator. */
  function SortForms(pins: set<string>, le: (string, string) -> bool, s: seq<Form>): (r: seq<Form>)
    ensures multiset(r) == multiset(s)
    ensures |r| == |s|
  {
    if s == [] then []
    else
      assert s == [s[0]] + s[1..];
      Insert(pins, le, s[0], SortForms(pins, le, s[1..]))
  }

  predicate SortedBy(pins: set<string>, le: (string, string) -> bool, s: seq<Form>) {
    forall i :: 0 <= i < |s| - 1 ==> Before(pins, le, s[i], s[i + 1])
  }

  lemma {:induction false} InsertSorted(pins: set<string>, le: (string, string) -> bool, x: Form, s: seq<Form>)
    requires Total(le) && SortedBy(pins, le, s)
    ensures SortedBy(pins, le, Insert(pins, le, x, s))
    decreases |s|
  {
    if s == [] || Before(pins, le, x, s[0]) {
    } else {
      assert le(x.title, s[0].title) || le(s[0].title, x.title);
      assert Before(pins, le, s[0], x);
      assert SortedBy(pins, le, s[1..]);
      InsertSorted(pins, le, x, s[1..]);
    }
  }

  /** Under a total title order the result is ordered by the comparator: each form may
      precede the next. */
  lemma {:induction false} SortFormsSorted(pins: set<string>, le: (string, string) -> bool, s: seq<Form>)
    requires Total(le)
    ensures SortedBy(pins, le, SortForms(pins, le, s))
    decreases |s|
  {
    if s != [] {
      SortFormsSorted(pins, le, s[1..]);
      InsertSorted(pins, le, s[0], SortForms(pins, le, s[1..]));
    }
  }

  /** In a sorted list every pinned form comes before every unpinned one. */
  lemma {:induction false} SortedPinnedFirst(pins: set<string>, le: (string, string) -> bool, s: seq<Form>, i: int, j: int)
    requires SortedBy(pins, le, s) && 0 <= i < j < |s|
    ensures s[j].id in pins ==> s[i].id in pins
    decreases j - i
  {
    if i + 1 < j {
      SortedPinnedFirst(pins, le, s, i + 1, j);
    }
  }

  /** The sorted forms are a permutation of the input with every pinned form first, and
      neighbours in the same group are in title order. */
  lemma SortFormsPinnedFirst(pins: set<string>, le: (string, string) -> bool, s: seq<Form>)
    requires Total(le)
    ensures var r := SortForms(pins, le, s);
            multiset(r) == multiset(s)
            && (forall i, j :: 0 <= i < j < |r| && r[j].id in pins ==> r[i].id in pins)
            && (forall i :: 0 <= i < |r| - 1 && ((r[i].id in pins) == (r[i + 1].id in pins)) ==>
                  le(r[i].title, r[i + 1].title))
  {
    var r := SortForms(pins, le, s);
    SortFormsSorted(pins, le, s);
    forall i, j | 0 <= i < j < |r| && r[j].id in pins
      ensures r[i].id in pins
    {
      SortedPinnedFirst(pins, le, r, i, j);
    }
  }

  /** `togglePin(id)`: flips whether `id` is pinned and leaves every other id alone. */
  function TogglePin(pins: set<string>, id: string): (r: set<string>)
    ensures id in r <==> id !in pins
    ensures forall other :: other != id ==> (other in r <==> other in pins)
  {
    if id in pins then pins - {id} else pins + {id}
  }

  /** Toggling twice restores the pins. */
  lemma TogglePinTwice(pins: set<string>, id: string)
    ensures TogglePin(TogglePin(pins, id), id) == pins
  {
  }

  /** One entry of the recently opened list: the form id and when it was opened. */
  datatype Recent = Recent(id: string, ts: int)

  const MaxRecent := 12

  function NotId(id: string): Recent -> bool {
    (e: Recent) => e.id != id
  }

  /** `trackRecent(id)` at time `now`: the form moves to the front with the new time, its
      older entries go, the others keep their order, and the list holds at most 12. */
  function TrackRecent(recent: seq<Recent>, id: string, now: int): (r: seq<Recent>)
    ensures 1 <= |r| <= MaxRecent
    ensures r[0] == Recent(id, now)
    ensures forall i :: 1 <= i < |r| ==> r[i].id != id
    ensures r[1..] <= Filter(recent, NotId(id))
    ensures |r| == if 1 + |Filter(recent, NotId(id))| <= MaxRecent then 1 + |Filter(recent, NotId(id))| else MaxRecent
  {
    var rest := Filter(recent, NotId(id));
    TakeCons(Recent(id, now), rest, MaxRecent - 1);
    Take([Recent(id, now)] + rest, MaxRecent)
  }

  /** Opening the same form again only refreshes its time. */
  lemma TrackRecentAgain(recent: seq<Recent>, id: string, t: int, t': int)
    ensures TrackRecent(TrackRecent(recent, id, t), id, t') == TrackRecent(recent, id, t')
  {
    var rest := Filter(recent, NotId(id));
    var kept := Take(rest, MaxRecent - 1);
    TakeCons(Recent(id, t), rest, MaxRecent - 1);
    TakeCons(Recent(id, t'), rest, MaxRecent - 1);
    var once := [Recent(id, t)] + kept;
    assert TrackRecent(recent, id, t) == once;
    FilterAppend([Recent(id, t)], kept, NotId(id));
    FilterSingleton(Recent(id, t), NotId(id));
    assert forall i :: 0 <= i < |kept| ==> kept[i] == rest[i];
    FilterKeepsAll(kept, NotId(id));
    assert Filter(once, NotId(id)) == kept;
    TakeCons(Recent(id, t'), kept, MaxRecent - 1);
    assert Take(kept, MaxRecent - 1) == kept;
  }

  /** `toFileUrl(absPath)`. `encode` stands for `encodeURI`. A `file://` URL (in any letter
      case) is returned unchanged; any other path gets its backslashes turned into slashes
      and is encoded behind `file://`. */
  function ToFileUrl(p: string, encode: string -> string): (r: string)
    ensures StartsWithIgnoreCase(p, "file://") ==> r == p
    ensures !StartsWithIgnoreCase(p, "file://") ==>
              exists q :: r == "file://" + encode(q) && |q| == |p|
                          && forall i :: 0 <= i < |q| ==> q[i] == if p[i] == '\\' then '/' else p[i]
  {
    if StartsWithIgnoreCase(p, "file://") then p
    else
      var q := ReplaceChars(p, {'\\'}, '/');
      "file://" + encode(q)
  }

  /** Every result of `toFileUrl` is a `file://` URL, so converting twice is converting
      once. */
  lemma ToFileUrlIdempotent(p: string, encode: string -> string)
    ensures StartsWithIgnoreCase(ToFileUrl(p, encode), "file://")
    ensures ToFileUrl(ToFileUrl(p, encode), encode) == ToFileUrl(p, encode)
  {
    var r := ToFileUrl(p, encode);
    if !StartsWithIgnoreCase(p, "file://") {
      assert r[..7] == "file://";
      LowerFileScheme();
    }
  }

  lemma LowerFileScheme()
    ensures Lower("file://") == "file://"
  {
    var scheme := "file://";
    assert forall i :: 0 <= i < 7 ==> Lower(scheme)[i] == LowerChar(scheme[i]) == scheme[i];
  }
}
