/** String operations the dashboard scripts borrow from JavaScript: the `\s` class and
    `trim`, lower-casing, run replacement with a global regular expression, character
    replacement, `includes` and decimal formatting. */
module Text {

  /** The characters matched by JavaScript's `\s`; `String.prototype.trim` strips exactly these. */
  predicate IsSpace(c: char) {
    || c == ' ' || c == '\t' || c == '\n' || c == '\U{B}' || c == '\U{C}' || c == '\r'
    || c == '\U{A0}' || c == '\U{1680}' || ('\U{2000}' <= c <= '\U{200A}')
    || c == '\U{2028}' || c == '\U{2029}' || c == '\U{202F}' || c == '\U{205F}'
    || c == '\U{3000}' || c == '\U{FEFF}'
  }

  /** JavaScript's `a || b` on two strings: `a` unless it is empty. */
  function Or(a: string, b: string): string {
    if a != "" then a else b
  }

  /** No whitespace at either end. */
  predicate Trimmed(s: string) {
    s == [] || (!IsSpace(s[0]) && !IsSpace(s[|s| - 1]))
  }

  function TrimStart(s: string): (r: string)
    ensures |r| <= |s|
    ensures r == s[|s| - |r|..]
    ensures r == [] || !IsSpace(r[0])
    ensures forall i :: 0 <= i < |s| - |r| ==> IsSpace(s[i])
  {
    if s != [] && IsSpace(s[0]) then TrimStart(s[1..]) else s
  }

  function TrimEnd(s: string): (r: string)
    ensures |r| <= |s|
    ensures r == s[..|r|]
    ensures r == [] || !IsSpace(r[|r| - 1])
    ensures forall i :: |r| <= i < |s| ==> IsSpace(s[i])
  {
    if s != [] && IsSpace(s[|s| - 1]) then TrimEnd(s[..|s| - 1]) else s
  }

  /** `String.prototype.trim`: the result has no whitespace at its ends, a string that
      already has none is returned as is, and only an all-whitespace string trims to "". */
  function Trim(s: string): (r: string)
    ensures Trimmed(r)
    ensures |r| <= |s|
    ensures Trimmed(s) ==> r == s
    ensures r == [] <==> forall i :: 0 <= i < |s| ==> IsSpace(s[i])
  {
    TrimEnd(TrimStart(s))
  }

  /** ASCII lower-casing of one character. */
  function LowerChar(c: char): char {
    if 'A' <= c <= 'Z' then (c as int + 32) as char else c
  }

  /** `String.prototype.toLowerCase`, restricted to the ASCII letters. */
  function Lower(s: string): (r: string)
    ensures |r| == |s|
    ensures forall i :: 0 <= i < |s| ==> r[i] == LowerChar(s[i])
  {
    if s == [] then [] else [LowerChar(s[0])] + Lower(s[1..])
  }

  /** Lower-casing distributes over concatenation. */
  lemma {:induction false} LowerAppend(a: string, b: string)
    ensures Lower(a + b) == Lower(a) + Lower(b)
    decreases |a|
  {
    if a == [] {
      assert a + b == b;
    } else {
      assert (a + b)[0] == a[0] && (a + b)[1..] == a[1..] + b;
      LowerAppend(a[1..], b);
      assert [LowerChar(a[0])] + (Lower(a[1..]) + Lower(b)) == ([LowerChar(a[0])] + Lower(a[1..])) + Lower(b);
    }
  }

  /** No character of `s` is whitespace. */
  predicate NoSpace(s: string) {
    forall i :: 0 <= i < |s| ==> !IsSpace(s[i])
  }

  /** Lower-casing neither creates nor removes whitespace. */
  lemma LowerKeepsSpace(s: string)
    ensures forall i :: 0 <= i < |s| ==> (IsSpace(Lower(s)[i]) <==> IsSpace(s[i]))
  {
  }

  /** Drops the leading characters satisfying `p`. */
  function SkipWhile(s: string, p: char -> bool): (r: string)
    ensures |r| <= |s|
    ensures r == s[|s| - |r|..]
    ensures r == [] || !p(r[0])
  {
    if s != [] && p(s[0]) then SkipWhile(s[1..], p) else s
  }

  /** Every character `SkipWhile` drops satisfies `p`. */
  lemma {:induction false} SkipWhileSkipped(s: string, p: char -> bool)
    ensures forall i :: 0 <= i < |s| - |SkipWhile(s, p)| ==> p(s[i])
    decreases |s|
  {
    if s != [] && p(s[0]) {
      SkipWhileSkipped(s[1..], p);
      assert forall i :: 1 <= i < |s| ==> s[i] == s[1..][i - 1];
    }
  }

  /** `s.replace(/[class]+/g, rep)` where `p` is the class: every maximal run of characters
      satisfying `p` becomes a single `rep`. The result is empty only for an empty input,
      and every character left is either `rep` or outside the class. */
  function ReplaceRuns(s: string, p: char -> bool, rep: char): (r: string)
    ensures |r| <= |s|
    ensures r == [] <==> s == []
    ensures forall i :: 0 <= i < |r| ==> r[i] == rep || !p(r[i])
    decreases |s|
  {
    if s == [] then []
    else if p(s[0]) then [rep] + ReplaceRuns(SkipWhile(s[1..], p), p, rep)
    else [s[0]] + ReplaceRuns(s[1..], p, rep)
  }

  /** The first character of the result is the replacement exactly when the input starts
      inside a run or with the replacement character itself. */
  lemma ReplaceRunsHead(s: string, p: char -> bool, rep: char)
    requires s != []
    ensures ReplaceRuns(s, p, rep)[0] == rep <==> p(s[0]) || s[0] == rep
  {
  }

  /** When the replacement itself belongs to the class, the result never holds two
      replacements in a row. */
  lemma {:induction false} ReplaceRunsNoDoubles(s: string, p: char -> bool, rep: char)
    requires p(rep)
    ensures forall i :: 0 <= i < |ReplaceRuns(s, p, rep)| - 1 ==>
              !(ReplaceRuns(s, p, rep)[i] == rep && ReplaceRuns(s, p, rep)[i + 1] == rep)
    decreases |s|
  {
    if s == [] {
    } else if p(s[0]) {
      var t := SkipWhile(s[1..], p);
      ReplaceRunsNoDoubles(t, p, rep);
      var rt := ReplaceRuns(t, p, rep);
      assert ReplaceRuns(s, p, rep) == [rep] + rt;
      if t != [] {
        ReplaceRunsHead(t, p, rep);
      }
    } else {
      ReplaceRunsNoDoubles(s[1..], p, rep);
      assert ReplaceRuns(s, p, rep) == [s[0]] + ReplaceRuns(s[1..], p, rep);
    }
  }

  /** A string with no character of the class passes through unchanged. */
  lemma {:induction false} ReplaceRunsIdentity(s: string, p: char -> bool, rep: char)
    requires forall i :: 0 <= i < |s| ==> !p(s[i])
    ensures ReplaceRuns(s, p, rep) == s
    decreases |s|
  {
    if s != [] {
      ReplaceRunsIdentity(s[1..], p, rep);
    }
  }

  /** Skipping a prefix that ends outside the class never reaches the text after it. */
  lemma {:induction false} SkipWhileAppend(a: string, b: string, p: char -> bool)
    requires a != [] && !p(a[|a| - 1])
    ensures SkipWhile(a + b, p) == SkipWhile(a, p) + b
    decreases |a|
  {
    assert (a + b)[0] == a[0];
    if p(a[0]) {
      assert |a| > 1;
      assert (a + b)[1..] == a[1..] + b;
      SkipWhileAppend(a[1..], b, p);
    }
  }

  /** Skipping a run of the class stops exactly where the run ends. */
  lemma {:induction false} SkipWhileAll(w: string, b: string, p: char -> bool)
    requires forall i :: 0 <= i < |w| ==> p(w[i])
    requires b == [] || !p(b[0])
    ensures SkipWhile(w + b, p) == b
    decreases |w|
  {
    if w == [] {
      assert w + b == b;
    } else {
      assert (w + b)[0] == w[0] && (w + b)[1..] == w[1..] + b;
      SkipWhileAll(w[1..], b, p);
    }
  }

  /** Run replacement works piecewise across a boundary that is not inside a run. */
  lemma {:induction false} ReplaceRunsAppend(a: string, b: string, p: char -> bool, rep: char)
    requires a == [] || !p(a[|a| - 1])
    ensures ReplaceRuns(a + b, p, rep) == ReplaceRuns(a, p, rep) + ReplaceRuns(b, p, rep)
    decreases |a|, 1
  {
    if a == [] {
      assert a + b == b;
    } else if p(a[0]) {
      ReplaceRunsAppendRun(a, b, p, rep);
    } else {
      assert (a + b)[0] == a[0] && (a + b)[1..] == a[1..] + b;
      ReplaceRunsAppend(a[1..], b, p, rep);
    }
  }

  /** The case of `ReplaceRunsAppend` where the prefix opens with a run. */
  lemma {:induction false} ReplaceRunsAppendRun(a: string, b: string, p: char -> bool, rep: char)
    requires a != [] && p(a[0]) && !p(a[|a| - 1])
    ensures ReplaceRuns(a + b, p, rep) == ReplaceRuns(a, p, rep) + ReplaceRuns(b, p, rep)
    decreases |a|, 0
  {
    assert |a| >= 2;
    var a1 := a[1..];
    var t := SkipWhile(a1, p);
    assert a1[|a1| - 1] == a[|a| - 1];
    SkipWhileKeepsLast(a1, p);
    assert t != [] && !p(t[|t| - 1]) && |t| < |a|;
    ReplaceRunsAppend(t, b, p, rep);
    ReplaceRunsOpenAppend(a, b, p, rep);
    ReplaceRunsOpen(a, p, rep);
  }

  /** A text opening with a run that ends inside `a`: the run is replaced and `b` follows
      what is left of `a` unchanged. */
  lemma ReplaceRunsOpenAppend(a: string, b: string, p: char -> bool, rep: char)
    requires a != [] && p(a[0]) && !p(a[|a| - 1])
    ensures ReplaceRuns(a + b, p, rep) == [rep] + ReplaceRuns(SkipWhile(a[1..], p) + b, p, rep)
  {
    assert (a + b)[0] == a[0] && (a + b)[1..] == a[1..] + b;
    ReplaceRunsOpen(a + b, p, rep);
    SkipWhileAppend(a[1..], b, p);
  }

  /** A text opening with a run: one replacement, then the rest after the run. */
  lemma ReplaceRunsOpen(s: string, p: char -> bool, rep: char)
    requires s != [] && p(s[0])
    ensures ReplaceRuns(s, p, rep) == [rep] + ReplaceRuns(SkipWhile(s[1..], p), p, rep)
  {
  }

  /** Skipping stops before a last character outside the class. */
  lemma SkipWhileKeepsLast(a: string, p: char -> bool)
    requires a != [] && !p(a[|a| - 1])
    ensures SkipWhile(a, p) != [] && SkipWhile(a, p)[|SkipWhile(a, p)| - 1] == a[|a| - 1]
  {
    SkipWhileSkipped(a, p);
  }

  /** A whole run of the class becomes a single replacement character. */
  lemma ReplaceRunsRun(w: string, b: string, p: char -> bool, rep: char)
    requires w != [] && forall i :: 0 <= i < |w| ==> p(w[i])
    requires b == [] || !p(b[0])
    ensures ReplaceRuns(w + b, p, rep) == [rep] + ReplaceRuns(b, p, rep)
  {
    assert (w + b)[0] == w[0] && (w + b)[1..] == w[1..] + b;
    SkipWhileAll(w[1..], b, p);
  }

  /** `s.replace(/[from]/g, to)` for a class of single characters. */
  function ReplaceChars(s: string, from: set<char>, to: char): (r: string)
    ensures |r| == |s|
    ensures forall i :: 0 <= i < |s| ==> r[i] == if s[i] in from then to else s[i]
  {
    if s == [] then [] else [if s[0] in from then to else s[0]] + ReplaceChars(s[1..], from, to)
  }

  /** Case-insensitive (ASCII) test that `s` starts with `prefix`, written in lower case. */
  predicate StartsWithIgnoreCase(s: string, prefix: string) {
    |prefix| <= |s| && Lower(s[..|prefix|]) == prefix
  }

  /** `String.prototype.includes`. */
  predicate Includes(s: string, q: string)
    decreases |s|
  {
    q <= s || (s != [] && Includes(s[1..], q))
  }

  /** `q` occurs in `s` starting at position `i`. */
  predicate OccursAt(s: string, q: string, i: int) {
    0 <= i <= |s| - |q| && s[i..i + |q|] == q
  }

  /** `includes` holds exactly when `q` occurs at some position of `s`. */
  lemma IncludesAt(s: string, q: string)
    ensures Includes(s, q) <==> exists i :: OccursAt(s, q, i)
  {
    if Includes(s, q) {
      IncludesOccurs(s, q);
    }
    if exists i :: OccursAt(s, q, i) {
      var i :| OccursAt(s, q, i);
      OccursIncludes(s, q, i);
    }
  }

  lemma {:induction false} IncludesOccurs(s: string, q: string)
    requires Includes(s, q)
    ensures exists i :: OccursAt(s, q, i)
    decreases |s|
  {
    if q <= s {
      assert s[0..|q|] == q;
      assert OccursAt(s, q, 0);
    } else {
      IncludesOccurs(s[1..], q);
      var i :| OccursAt(s[1..], q, i);
      assert s[i + 1..i + 1 + |q|] == s[1..][i..i + |q|];
      assert OccursAt(s, q, i + 1);
    }
  }

  lemma {:induction false} OccursIncludes(s: string, q: string, i: int)
    requires OccursAt(s, q, i)
    ensures Includes(s, q)
    decreases i
  {
    if i == 0 {
      assert s[..|q|] == q;
    } else {
      assert s[1..][i - 1..i - 1 + |q|] == s[i..i + |q|];
      OccursIncludes(s[1..], q, i - 1);
    }
  }

  function DigitChar(d: nat): char
    requires d < 10
  {
    "0123456789"[d]
  }

  /** Decimal rendering of a natural number, as in a template literal `${n}`. */
  function NatToString(n: nat): (r: string)
    ensures r != []
    ensures forall i :: 0 <= i < |r| ==> '0' <= r[i] <= '9'
  {
    if n < 10 then [DigitChar(n)] else NatToString(n / 10) + [DigitChar(n % 10)]
  }
}
