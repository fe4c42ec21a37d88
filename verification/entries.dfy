/** Canonical application entries (`normalize` in scripts/apps.js): every loose record of
    the registry becomes an entry with a key, a label, an icon, an href and one action. */
module Entries {
  import opened Text
  import opened JsonValue
  import opened Actions

  /** `name` holds the source's `label` property (`label` is a reserved word in Dafny). */
  datatype Entry = Entry(key: string, name: string, icon: string, href: string, action: Action)

  const DefaultLabel := "App"
  const DefaultHref := "#"

  /** `label.toLowerCase().replace(/\s+/g,'-')`: the key derived from a label. It has no
      whitespace, is never longer than the label, and is empty only for an empty label. */
  function SlugKey(name: string): (r: string)
    ensures |r| <= |name|
    ensures r == [] <==> name == []
    ensures forall i :: 0 <= i < |r| ==> !IsSpace(r[i])
  {
    ReplaceRuns(Lower(name), IsSpace, '-')
  }

  /** A label without whitespace keys as its lower-case self. */
  lemma SlugKeyNoSpace(name: string)
    requires NoSpace(name)
    ensures SlugKey(name) == Lower(name)
  {
    LowerKeepsSpace(name);
    ReplaceRunsIdentity(Lower(name), IsSpace, '-');
  }

  /** Keys are built piecewise: a label split where no whitespace run is cut keys as the
      concatenation of the keys of its parts. */
  lemma SlugKeyAppend(a: string, b: string)
    requires a == [] || !IsSpace(a[|a| - 1])
    ensures SlugKey(a + b) == SlugKey(a) + SlugKey(b)
  {
    LowerAppend(a, b);
    LowerKeepsSpace(a);
    ReplaceRunsAppend(Lower(a), Lower(b), IsSpace, '-');
  }

  /** A run of whitespace, however long and of whatever kind, becomes a single `-`. */
  lemma SlugKeySpaceRun(w: string, b: string)
    requires w != [] && forall i :: 0 <= i < |w| ==> IsSpace(w[i])
    requires b == [] || !IsSpace(b[0])
    ensures SlugKey(w + b) == "-" + SlugKey(b)
  {
    LowerAppend(w, b);
    LowerKeepsSpace(w);
    LowerKeepsSpace(b);
    ReplaceRunsRun(Lower(w), Lower(b), IsSpace, '-');
  }

  /** Two words separated by whitespace key as the lower-cased words joined by `-`. */
  lemma SlugKeyJoin(a: string, w: string, b: string)
    requires NoSpace(a) && NoSpace(b)
    requires w != [] && forall i :: 0 <= i < |w| ==> IsSpace(w[i])
    ensures SlugKey(a + w + b) == Lower(a) + "-" + Lower(b)
  {
    assert a + w + b == a + (w + b);
    assert Lower(a) + ("-" + Lower(b)) == Lower(a) + "-" + Lower(b);
    assert b == [] || !IsSpace(b[0]);
    SlugKeyAppend(a, w + b);
    SlugKeyNoSpace(a);
    SlugKeySpaceRun(w, b);
    SlugKeyNoSpace(b);
  }

  /** What normalisation guarantees of every entry it produces. */
  predicate Canonical(e: Entry) {
    e.key != "" && e.name != "" && e.href != "" && WellFormed(e.action)
  }

  /** One element of `normalize`: label defaults to "App", key to the slug of the label,
      href to the record's `href`, else its `url`, else "#", icon to "", and the action is
      normalised against those values. The result is canonical. */
  function NormalizeEntry(a: Json): (e: Entry)
    ensures Canonical(e)
    ensures e.name == Or(Str(a, "label"), DefaultLabel)
    ensures Str(a, "key") != "" ==> e.key == Str(a, "key")
    ensures Str(a, "key") == "" ==> e.key == SlugKey(e.name)
    ensures Str(a, "href") != "" ==> e.href == Str(a, "href")
    ensures Str(a, "href") == "" && Str(a, "url") != "" ==> e.href == Str(a, "url")
    ensures Str(a, "href") == "" && Str(a, "url") == "" ==> e.href == DefaultHref
    ensures e.icon == Str(a, "icon")
    ensures e.action == NormalizeAction(Get(a, "action"), e.name, e.key, e.href)
  {
    var name := Or(Str(a, "label"), DefaultLabel);
    var key := Or(Str(a, "key"), SlugKey(name));
    var href := Or(Str(a, "href"), Or(Str(a, "url"), DefaultHref));
    Entry(key, name, Str(a, "icon"), href, NormalizeAction(Get(a, "action"), name, key, href))
  }

  /** `normalize(list)`: a non-array gives the empty list; an array gives one canonical
      entry per element, in the same order. */
  function Normalize(list: Json): (r: seq<Entry>)
    ensures !list.JArr? ==> r == []
    ensures list.JArr? ==> |r| == |list.items|
    ensures list.JArr? ==> forall i :: 0 <= i < |r| ==> r[i] == NormalizeEntry(list.items[i])
    ensures forall i :: 0 <= i < |r| ==> Canonical(r[i])
  {
    if list.JArr? then NormalizeAll(list.items) else []
  }

  function NormalizeAll(items: seq<Json>): (r: seq<Entry>)
    ensures |r| == |items|
    ensures forall i :: 0 <= i < |r| ==> r[i] == NormalizeEntry(items[i])
  {
    if items == [] then [] else [NormalizeEntry(items[0])] + NormalizeAll(items[1..])
  }

  /** The JSON object a canonical entry serialises to (`JSON.stringify` of an entry). */
  function EntryToJson(e: Entry): Json {
    JObj(map["key" := JStr(e.key), "label" := JStr(e.name), "icon" := JStr(e.icon),
             "href" := JStr(e.href), "action" := ActionToJson(e.action)])
  }

  function EntriesToJson(es: seq<Entry>): (j: Json)
    ensures j.JArr? && |j.items| == |es|
    ensures forall i :: 0 <= i < |es| ==> j.items[i] == EntryToJson(es[i])
  {
    JArr(seq(|es|, i requires 0 <= i < |es| => EntryToJson(es[i])))
  }

  /** A serialised canonical entry normalises back to itself. */
  lemma NormalizeEntryRoundTrip(e: Entry)
    requires Canonical(e)
    ensures NormalizeEntry(EntryToJson(e)) == e
  {
    var j := EntryToJson(e);
    assert Str(j, "label") == e.name;
    assert Str(j, "key") == e.key;
    assert Str(j, "href") == e.href;
    assert Str(j, "icon") == e.icon;
    assert Get(j, "action") == ActionToJson(e.action);
    NormalizeActionRoundTrip(e.action, e.name, e.key, e.href);
  }

  /** A canonical list survives serialisation and normalisation unchanged; this is what
      makes writing the registry out and loading it back lossless. */
  lemma NormalizeRoundTrip(es: seq<Entry>)
    requires forall i :: 0 <= i < |es| ==> Canonical(es[i])
    ensures Normalize(EntriesToJson(es)) == es
  {
    var r := Normalize(EntriesToJson(es));
    forall i | 0 <= i < |es| ensures r[i] == es[i] {
      NormalizeEntryRoundTrip(es[i]);
    }
  }

  /** Normalisation is idempotent across a serialisation round trip. */
  lemma NormalizeIdempotent(list: Json)
    ensures Normalize(EntriesToJson(Normalize(list))) == Normalize(list)
  {
    NormalizeRoundTrip(Normalize(list));
  }

  /** A record with only a label and an href: the key is the lower-cased label and the
      action is a link to the href with the default target and rel. */
  lemma IntranetExample()
    ensures Normalize(JArr([JObj(map["label" := JStr("Intranet"), "href" := JStr("https://intra")])]))
         == [Entry("intranet", "Intranet", "", "https://intra",
                   Link("https://intra", DefaultTarget, DefaultRel, "Intranet", "Open Intranet"))]
  {
    var a := JObj(map["label" := JStr("Intranet"), "href" := JStr("https://intra")]);
    IntranetEntry(a);
    var r := Normalize(JArr([a]));
    assert |r| == 1 && r[0] == NormalizeEntry(a);
  }

  lemma IntranetEntry(a: Json)
    requires a == JObj(map["label" := JStr("Intranet"), "href" := JStr("https://intra")])
    ensures NormalizeEntry(a) == Entry("intranet", "Intranet", "", "https://intra",
              Link("https://intra", DefaultTarget, DefaultRel, "Intranet", "Open Intranet"))
  {
    assert Str(a, "label") == "Intranet";
    assert Str(a, "href") == "https://intra";
    assert Str(a, "key") == "";
    assert Str(a, "icon") == "";
    assert Get(a, "action") == JNull;
    SlugIntranet();
    var e := NormalizeEntry(a);
    assert e.key == "intranet" && e.name == "Intranet" && e.icon == "" && e.href == "https://intra";
    assert e.action == DefaultLinkAction("Intranet", "https://intra", JNull, "intranet");
    IntranetLink();
  }

  lemma IntranetLink()
    ensures DefaultLinkAction("Intranet", "https://intra", JNull, "intranet")
         == Link("https://intra", DefaultTarget, DefaultRel, "Intranet", "Open Intranet")
  {
  }

  lemma SlugIntranet()
    ensures SlugKey("Intranet") == "intranet"
  {
    LowerIntranet();
    var s := "intranet";
    assert forall i :: 0 <= i < |s| ==> 'a' <= s[i] <= 'z';
    ReplaceRunsIdentity(s, IsSpace, '-');
  }

  lemma LowerIntranet()
    ensures Lower("Intranet") == "intranet"
  {
    var r := Lower("Intranet");
    assert |r| == 8;
    assert r[0] == LowerChar('I') == 'i';
    assert forall i :: 1 <= i < 8 ==> r[i] == "intranet"[i];
  }
}
