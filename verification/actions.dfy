/** The launch action attached to every application tile (`normalizeAction` and
    `defaultLinkAction` in scripts/apps.js). The source keeps actions as loose objects with
    a string `type`; here they are a sum type with one constructor per variant, and the
    "unknown type behaves as a link" coercion is an explicit arm of `NormalizeAction`. */
module Actions {
  import opened Text
  import opened JsonValue

  datatype Action =
    | Link(url: string, target: string, rel: string, title: string, ariaLabel: string)
    | Local(path: string, relPath: string, title: string, ariaLabel: string)
    | Modal(modalId: string, title: string, ariaLabel: string)
    | Disabled(title: string, ariaLabel: string)

  const DefaultTarget := "_blank"
  const DefaultRel := "noopener noreferrer"
  const PlaceholderPrefix := "https://placeholder.local/"

  /** `Open ${label}`. */
  function OpenLabel(name: string): string {
    "Open " + name
  }

  /** `${label} coming soon`. */
  function ComingSoon(name: string): string {
    name + " coming soon"
  }

  /** The URL a link gets when neither the entry nor its action names one. */
  function PlaceholderUrl(key: string): string {
    PlaceholderPrefix + key
  }

  /** A canonical action: every field the tile renderer shows is filled in. */
  predicate WellFormed(a: Action) {
    match a
    case Link(url, target, rel, title, aria) =>
      url != "" && target != "" && rel != "" && title != "" && aria != ""
    case Local(_, _, title, aria) => title != "" && aria != ""
    case Modal(_, title, aria) => title != "" && aria != ""
    case Disabled(title, aria) => title != "" && aria != ""
  }

  /** `defaultLinkAction(label, href, existing, key)`: a link whose fields come from
      `existing` where it has them and from the defaults otherwise. Its url is never
      empty: `href`, else the existing url, else the placeholder for `key`. */
  function DefaultLinkAction(name: string, href: string, existing: Json, key: string): (r: Action)
    ensures r.Link? && r.url != "" && r.target != "" && r.rel != "" && r.ariaLabel != ""
    ensures href != "" ==> r.url == href
    ensures href == "" && Str(existing, "url") != "" ==> r.url == Str(existing, "url")
    ensures href == "" && Str(existing, "url") == "" ==> r.url == PlaceholderUrl(key)
    ensures r.target == Or(Str(existing, "target"), DefaultTarget)
    ensures r.rel == Or(Str(existing, "rel"), DefaultRel)
    ensures r.title == Or(Str(existing, "title"), name)
    ensures r.ariaLabel == Or(Str(existing, "ariaLabel"), OpenLabel(name))
    ensures name != "" ==> WellFormed(r)
  {
    Link(Or(href, Or(Str(existing, "url"), PlaceholderUrl(key))),
         Or(Str(existing, "target"), DefaultTarget),
         Or(Str(existing, "rel"), DefaultRel),
         Or(Str(existing, "title"), name),
         Or(Str(existing, "ariaLabel"), OpenLabel(name)))
  }

  /** Which branch of `normalizeAction` a raw action takes: `action.type || 'link'`
      compared against the four known names. */
  datatype Kind = KindLink | KindLocal | KindModal | KindDisabled | KindUnknown

  function KindOf(action: Json): Kind {
    var t := Get(action, "type");
    if !Truthy(t) || t == JStr("link") then KindLink
    else if t == JStr("local") then KindLocal
    else if t == JStr("modal") then KindModal
    else if t == JStr("disabled") then KindDisabled
    else KindUnknown
  }

  /** `normalizeAction(action, label, key, href)`. Total: a missing action and an unknown
      type both give a link, every other type gives its own variant, and with a non-empty
      label the result is well formed. */
  function NormalizeAction(action: Json, name: string, key: string, href: string): (r: Action)
    ensures r.Link? <==> !Truthy(action) || KindOf(action) in {KindLink, KindUnknown}
    ensures r.Local? <==> Truthy(action) && KindOf(action) == KindLocal
    ensures r.Modal? <==> Truthy(action) && KindOf(action) == KindModal
    ensures r.Disabled? <==> Truthy(action) && KindOf(action) == KindDisabled
    ensures r.Link? ==> r.url != ""
    ensures !Truthy(action) ==> r == DefaultLinkAction(name, href, JNull, key)
    ensures Truthy(action) && KindOf(action) == KindLink ==>
              r.url == Or(Str(action, "url"), Or(href, PlaceholderUrl(key)))
    ensures Truthy(action) && KindOf(action) == KindUnknown ==>
              r.url == Or(href, Or(Str(action, "url"), PlaceholderUrl(key)))
    ensures Truthy(action) && r.Link? ==>
              r.target == Or(Str(action, "target"), DefaultTarget) &&
              r.rel == Or(Str(action, "rel"), DefaultRel)
    ensures Truthy(action) && !r.Disabled? ==>
              r.title == Or(Str(action, "title"), name) &&
              r.ariaLabel == Or(Str(action, "ariaLabel"), OpenLabel(name))
    ensures r.Local? ==> r.path == Str(action, "path")
    ensures r.Local? ==> r.relPath == Or(Str(action, "relPath"), Str(action, "rel"))
    ensures r.Modal? ==> r.modalId == Str(action, "modalId")
    ensures r.Disabled? ==> r.title == Or(Str(action, "title"), ComingSoon(name))
    ensures r.Disabled? ==> r.ariaLabel == Or(Str(action, "ariaLabel"), ComingSoon(name))
    ensures name != "" ==> WellFormed(r)
  {
    if !Truthy(action) then DefaultLinkAction(name, href, JNull, key)
    else match KindOf(action)
      case KindLink => DefaultLinkAction(name, Or(Str(action, "url"), href), action, key)
      case KindLocal =>
        Local(Str(action, "path"),
              Or(Str(action, "relPath"), Str(action, "rel")),
              Or(Str(action, "title"), name),
              Or(Str(action, "ariaLabel"), OpenLabel(name)))
      case KindModal =>
        Modal(Str(action, "modalId"),
              Or(Str(action, "title"), name),
              Or(Str(action, "ariaLabel"), OpenLabel(name)))
      case KindDisabled =>
        Disabled(Or(Str(action, "title"), ComingSoon(name)),
                 Or(Str(action, "ariaLabel"), ComingSoon(name)))
      case KindUnknown => DefaultLinkAction(name, href, action, key)
  }

  /** The JSON object a canonical action serialises to. */
  function ActionToJson(a: Action): Json {
    match a
    case Link(url, target, rel, title, aria) =>
      JObj(map["type" := JStr("link"), "url" := JStr(url), "target" := JStr(target),
               "rel" := JStr(rel), "title" := JStr(title), "ariaLabel" := JStr(aria)])
    case Local(path, relPath, title, aria) =>
      JObj(map["type" := JStr("local"), "path" := JStr(path), "relPath" := JStr(relPath),
               "title" := JStr(title), "ariaLabel" := JStr(aria)])
    case Modal(modalId, title, aria) =>
      JObj(map["type" := JStr("modal"), "modalId" := JStr(modalId),
               "title" := JStr(title), "ariaLabel" := JStr(aria)])
    case Disabled(title, aria) =>
      JObj(map["type" := JStr("disabled"), "title" := JStr(title), "ariaLabel" := JStr(aria)])
  }

  lemma LinkRoundTrip(a: Action, name: string, key: string, href: string)
    requires a.Link? && WellFormed(a)
    ensures NormalizeAction(ActionToJson(a), name, key, href) == a
  {
    var j := ActionToJson(a);
    assert Get(j, "type") == JStr("link");
    assert Str(j, "url") == a.url;
    assert Str(j, "target") == a.target;
    assert Str(j, "rel") == a.rel;
    assert Str(j, "title") == a.title;
    assert Str(j, "ariaLabel") == a.ariaLabel;
  }

  lemma LocalRoundTrip(a: Action, name: string, key: string, href: string)
    requires a.Local? && WellFormed(a)
    ensures NormalizeAction(ActionToJson(a), name, key, href) == a
  {
    var j := ActionToJson(a);
    assert Get(j, "type") == JStr("local");
    assert Str(j, "path") == a.path;
    assert Str(j, "relPath") == a.relPath;
    assert Str(j, "rel") == "";
    assert Str(j, "title") == a.title;
    assert Str(j, "ariaLabel") == a.ariaLabel;
  }

  lemma ModalRoundTrip(a: Action, name: string, key: string, href: string)
    requires a.Modal? && WellFormed(a)
    ensures NormalizeAction(ActionToJson(a), name, key, href) == a
  {
    var j := ActionToJson(a);
    assert Get(j, "type") == JStr("modal");
    assert Str(j, "modalId") == a.modalId;
    assert Str(j, "title") == a.title;
    assert Str(j, "ariaLabel") == a.ariaLabel;
  }

  lemma DisabledRoundTrip(a: Action, name: string, key: string, href: string)
    requires a.Disabled? && WellFormed(a)
    ensures NormalizeAction(ActionToJson(a), name, key, href) == a
  {
    var j := ActionToJson(a);
    assert Get(j, "type") == JStr("disabled");
    assert Str(j, "title") == a.title;
    assert Str(j, "ariaLabel") == a.ariaLabel;
  }

  /** Canonical actions are fixed points of normalisation: serialising a well-formed action
      and normalising it again gives it back, whatever label, key and href accompany it. */
  lemma NormalizeActionRoundTrip(a: Action, name: string, key: string, href: string)
    requires WellFormed(a)
    ensures NormalizeAction(ActionToJson(a), name, key, href) == a
  {
    match a
    case Link(_, _, _, _, _) => LinkRoundTrip(a, name, key, href);
    case Local(_, _, _, _) => LocalRoundTrip(a, name, key, href);
    case Modal(_, _, _) => ModalRoundTrip(a, name, key, href);
    case Disabled(_, _) => DisabledRoundTrip(a, name, key, href);
  }
}
