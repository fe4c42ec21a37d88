/** HTML escaping used when the dashboard writes user data into markup: `escapeHTML`
    (scripts/main.js), and `esc` and `escAttr` (scripts/forms.js). `esc` and `escapeHTML`
    are the same mapping and are modelled once, as `Escape`. */
module Html {

  /** The five characters `esc` rewrites. */
  predicate Special(c: char) {
    c == '&' || c == '<' || c == '>' || c == '"' || c == '\''
  }

  /** The markup-significant characters that never survive escaping unencoded. */
  predicate Raw(c: char) {
    c == '<' || c == '>' || c == '"' || c == '\''
  }

  function EscapeChar(c: char): string {
    match c
    case '&' => "&amp;"
    case '<' => "&lt;"
    case '>' => "&gt;"
    case '"' => "&quot;"
    case '\'' => "&#39;"
    case _ => [c]
  }

  /** `esc(str)`: no raw `<`, `>`, `"` or `'` is left in the output, and text without any
      of the five special characters is returned unchanged. */
  function Escape(s: string): (r: string)
    ensures |s| <= |r|
    ensures forall i :: 0 <= i < |r| ==> !Raw(r[i])
    ensures (forall i :: 0 <= i < |s| ==> !Special(s[i])) ==> r == s
  {
    if s == [] then [] else EscapeChar(s[0]) + Escape(s[1..])
  }

  /** `.replace(/`/g, '&#96;')`. */
  function ReplaceBackticks(s: string): (r: string)
    ensures forall i :: 0 <= i < |r| ==> r[i] != '`'
    ensures (forall i :: 0 <= i < |s| ==> !Raw(s[i])) ==> forall i :: 0 <= i < |r| ==> !Raw(r[i])
  {
    if s == [] then []
    else (if s[0] == '`' then "&#96;" else [s[0]]) + ReplaceBackticks(s[1..])
  }

  /** `escAttr(str)`: like `esc`, and additionally no backtick survives. */
  function EscapeAttr(s: string): (r: string)
    ensures forall i :: 0 <= i < |r| ==> !Raw(r[i]) && r[i] != '`'
  {
    ReplaceBackticks(Escape(s))
  }

  /** Decodes the six entities the two escapers produce; any other text is kept. */
  function Unescape(s: string): string
    decreases |s|
  {
    if s == [] then []
    else if "&amp;" <= s then "&" + Unescape(s[5..])
    else if "&lt;" <= s then "<" + Unescape(s[4..])
    else if "&gt;" <= s then ">" + Unescape(s[4..])
    else if "&quot;" <= s then "\"" + Unescape(s[6..])
    else if "&#39;" <= s then "'" + Unescape(s[5..])
    else if "&#96;" <= s then "`" + Unescape(s[5..])
    else [s[0]] + Unescape(s[1..])
  }

  /** The entity each encoded character is written as: `esc`'s five and `escAttr`'s
      backtick. */
  function Entity(c: char): string {
    if c == '`' then "&#96;" else EscapeChar(c)
  }

  /** Decoding one escaped character in front of any text. */
  lemma UnescapeStep(c: char, rest: string)
    ensures Unescape(EscapeChar(c) + rest) == [c] + Unescape(rest)
  {
    if Special(c) {
      UnescapeEntity(c, rest);
    } else {
      var s := [c] + rest;
      assert s[0] == c && s[1..] == rest;
    }
  }

  /** Decoding an entity in front of any text gives its character back. The entities are
      tried in a fixed order, and none of them begins with one tried before it. */
  lemma UnescapeEntity(c: char, rest: string)
    requires Special(c) || c == '`'
    ensures Unescape(Entity(c) + rest) == [c] + Unescape(rest)
  {
    var ent := Entity(c);
    var s := ent + rest;
    assert ent <= s && s[|ent|..] == rest;
    assert s[0] == '&' && s[1] == ent[1] && s[2] == ent[2];
  }

  /** Escaping loses nothing: decoding the output of `esc` gives the input back. */
  lemma {:induction false} EscapeRoundTrip(s: string)
    ensures Unescape(Escape(s)) == s
    decreases |s|
  {
    if s != [] {
      EscapeRoundTrip(s[1..]);
      UnescapeStep(s[0], Escape(s[1..]));
    }
  }

  /** Backtick replacement distributes over concatenation. */
  lemma {:induction false} ReplaceBackticksAppend(a: string, b: string)
    ensures ReplaceBackticks(a + b) == ReplaceBackticks(a) + ReplaceBackticks(b)
    decreases |a|
  {
    if a == [] {
      assert a + b == b;
    } else {
      assert (a + b)[0] == a[0] && (a + b)[1..] == a[1..] + b;
      ReplaceBackticksAppend(a[1..], b);
    }
  }

  /** `escAttr` of one character followed by more text. */
  lemma EscapeAttrStep(s: string)
    requires s != []
    ensures EscapeAttr(s) == (if s[0] == '`' then "&#96;" else EscapeChar(s[0])) + EscapeAttr(s[1..])
  {
    assert Escape(s) == EscapeChar(s[0]) + Escape(s[1..]);
    ReplaceBackticksAppend(EscapeChar(s[0]), Escape(s[1..]));
    BacktickChar(s[0]);
  }

  /** Backtick replacement after escaping one character touches only a backtick. */
  lemma BacktickChar(c: char)
    ensures ReplaceBackticks(EscapeChar(c)) == if c == '`' then "&#96;" else EscapeChar(c)
  {
    var e := EscapeChar(c);
    if Special(c) {
      assert forall i :: 0 <= i < |e| ==> e[i] != '`';
      NoBackticksUnchanged(e);
    } else {
      assert e == [c] && e[1..] == [];
    }
  }

  lemma {:induction false} NoBackticksUnchanged(s: string)
    requires forall i :: 0 <= i < |s| ==> s[i] != '`'
    ensures ReplaceBackticks(s) == s
    decreases |s|
  {
    if s != [] {
      NoBackticksUnchanged(s[1..]);
    }
  }

  /** Attribute escaping loses nothing either. */
  lemma {:induction false} EscapeAttrRoundTrip(s: string)
    ensures Unescape(EscapeAttr(s)) == s
    decreases |s|
  {
    if s != [] {
      var rest := EscapeAttr(s[1..]);
      EscapeAttrStep(s);
      EscapeAttrRoundTrip(s[1..]);
      if s[0] == '`' {
        UnescapeEntity('`', rest);
      } else {
        UnescapeStep(s[0], rest);
      }
      assert s == [s[0]] + s[1..];
    }
  }
}
