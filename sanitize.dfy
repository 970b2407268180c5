/** `sanitizeText`: HTML-entity escaping as a chain of global single
    character replacements applied one after another. */
module Sanitize {
  import opened Optional

  /** `s.replace(/c/g, rep)`: every occurrence of `c`, left to right. */
  function ReplaceAll(s: string, c: char, rep: string): string {
    if s == [] then [] else (if s[0] == c then rep else [s[0]]) + ReplaceAll(s[1..], c, rep)
  }

  datatype Replacement = Replacement(target: char, text: string)

  /** The replacements of `sanitizeText`, in the order they are chained. */
  const Chain: seq<Replacement> := [
    Replacement('&', "&amp;"),
    Replacement('<', "&lt;"),
    Replacement('>', "&gt;"),
    Replacement('"', "&quot;"),
    Replacement('\'', "&#x27;"),
    Replacement('/', "&#x2F;")
  ]

  /** Applies each replacement to the result of the previous one. */
  function ApplyChain(s: string, reps: seq<Replacement>): string
    decreases |reps|
  {
    if reps == [] then s else ApplyChain(ReplaceAll(s, reps[0].target, reps[0].text), reps[1..])
  }

  /** `sanitizeText(input)`. */
  function SanitizeText(input: string): string {
    if input == "" then "" else ApplyChain(input, Chain)
  }

  /** The escape of one character, stated on its own. */
  function EscapeChar(c: char): string {
    match c
    case '&' => "&amp;"
    case '<' => "&lt;"
    case '>' => "&gt;"
    case '"' => "&quot;"
    case '\'' => "&#x27;"
    case '/' => "&#x2F;"
    case _ => [c]
  }

  predicate IsTarget(c: char) {
    c == '&' || c == '<' || c == '>' || c == '"' || c == '\'' || c == '/'
  }

  /** A single left-to-right pass that escapes each character on its own. */
  function Escape(s: string): string {
    if s == [] then [] else EscapeChar(s[0]) + Escape(s[1..])
  }

  // ------------------------------------------------ the chain is a single pass

  lemma {:induction false} ReplaceAllAppend(a: string, b: string, c: char, rep: string)
    ensures ReplaceAll(a + b, c, rep) == ReplaceAll(a, c, rep) + ReplaceAll(b, c, rep)
  {
    if a == [] {
      assert a + b == b;
    } else {
      assert (a + b)[1..] == a[1..] + b;
      ReplaceAllAppend(a[1..], b, c, rep);
    }
  }

  lemma {:induction false} ReplaceAllAbsent(s: string, c: char, rep: string)
    requires c !in s
    ensures ReplaceAll(s, c, rep) == s
  {
    if s != [] {
      ReplaceAllAbsent(s[1..], c, rep);
    }
  }

  lemma {:induction false} ApplyChainAppend(a: string, b: string, reps: seq<Replacement>)
    ensures ApplyChain(a + b, reps) == ApplyChain(a, reps) + ApplyChain(b, reps)
    decreases |reps|
  {
    if reps != [] {
      ReplaceAllAppend(a, b, reps[0].target, reps[0].text);
      ApplyChainAppend(ReplaceAll(a, reps[0].target, reps[0].text),
                       ReplaceAll(b, reps[0].target, reps[0].text), reps[1..]);
    }
  }

  lemma {:induction false} ApplyChainAbsent(s: string, reps: seq<Replacement>)
    requires forall j :: 0 <= j < |reps| ==> reps[j].target !in s
    ensures ApplyChain(s, reps) == s
    decreases |reps|
  {
    if reps != [] {
      ReplaceAllAbsent(s, reps[0].target, reps[0].text);
      ApplyChainAbsent(s, reps[1..]);
    }
  }

  /** A character that is the `k`-th target and no earlier one becomes the
      `k`-th text, provided no later target occurs in that text. */
  lemma {:induction false} ApplyChainTarget(c: char, reps: seq<Replacement>, k: nat)
    requires k < |reps| && reps[k].target == c
    requires forall j :: 0 <= j < k ==> reps[j].target != c
    requires forall j :: k < j < |reps| ==> reps[j].target !in reps[k].text
    ensures ApplyChain([c], reps) == reps[k].text
    decreases |reps|
  {
    if k == 0 {
      assert ReplaceAll([c], c, reps[0].text) == reps[0].text;
      ApplyChainAbsent(reps[0].text, reps[1..]);
    } else {
      assert ReplaceAll([c], reps[0].target, reps[0].text) == [c];
      ApplyChainTarget(c, reps[1..], k - 1);
    }
  }

  lemma ChainTable()
    ensures forall k, j :: 0 <= k < j < |Chain| ==> Chain[j].target !in Chain[k].text
    ensures forall k, j :: 0 <= k < j < |Chain| ==> Chain[j].target != Chain[k].target
  {
  }

  /** The chain sends one character to its escape. */
  lemma ChainChar(c: char)
    ensures ApplyChain([c], Chain) == EscapeChar(c)
  {
    ChainTable();
    if IsTarget(c) {
      var k := if c == '&' then 0 else if c == '<' then 1 else if c == '>' then 2
               else if c == '"' then 3 else if c == '\'' then 4 else 5;
      ApplyChainTarget(c, Chain, k);
    } else {
      ApplyChainAbsent([c], Chain);
    }
  }

  /** Because `&` is replaced first and no replacement text holds a later
      target, the chained replaces equal the single per-character pass. */
  lemma {:induction false} SanitizeIsEscape(s: string)
    ensures SanitizeText(s) == Escape(s)
  {
    if s != [] {
      assert s == [s[0]] + s[1..];
      ApplyChainAppend([s[0]], s[1..], Chain);
      ChainChar(s[0]);
      SanitizeIsEscape(s[1..]);
    }
  }

  // --------------------------------------------------------- output invariants

  /** The entity texts. */
  predicate IsEntity(e: string) {
    e == "&amp;" || e == "&lt;" || e == "&gt;" || e == "&quot;" || e == "&#x27;" || e == "&#x2F;"
  }

  /** Position `i` of `r` starts one of the entities. */
  predicate EntityAt(r: string, i: int) {
    0 <= i < |r| &&
    exists n :: i + 1 <= n <= |r| && IsEntity(r[i..n])
  }

  /** The properties the output promises: no markup-significant character
      but `&`, and every `&` begins an entity. */
  predicate SafeOutput(r: string) {
    (forall i :: 0 <= i < |r| ==> r[i] != '<' && r[i] != '>' && r[i] != '"' && r[i] != '\'' && r[i] != '/')
    && (forall i :: 0 <= i < |r| && r[i] == '&' ==> EntityAt(r, i))
  }

  lemma EscapeCharSafe(c: char)
    ensures SafeOutput(EscapeChar(c))
    ensures |EscapeChar(c)| >= 1
  {
    var e := EscapeChar(c);
    if IsTarget(c) {
      assert IsEntity(e[0..|e|]);
      assert forall i :: 0 < i < |e| ==> e[i] != '&';
    }
  }

  lemma {:induction false} SafeAppend(a: string, b: string)
    requires SafeOutput(a) && SafeOutput(b)
    ensures SafeOutput(a + b)
  {
    var r := a + b;
    forall i | 0 <= i < |r| && r[i] == '&' ensures EntityAt(r, i) {
      if i < |a| {
        assert a[i] == '&';
        var n :| i + 1 <= n <= |a| && IsEntity(a[i..n]);
        assert r[i..n] == a[i..n];
      } else {
        assert b[i - |a|] == '&';
        var n :| i - |a| + 1 <= n <= |b| && IsEntity(b[i - |a|..n]);
        assert r[i..n + |a|] == b[i - |a|..n];
      }
    }
    assert forall i :: 0 <= i < |r| ==> r[i] == (if i < |a| then a[i] else b[i - |a|]);
  }

  /** Escaped text is safe, and never shorter than its input. */
  lemma {:induction false} EscapeSafe(s: string)
    ensures SafeOutput(Escape(s))
    ensures |Escape(s)| >= |s|
  {
    if s != [] {
      EscapeCharSafe(s[0]);
      EscapeSafe(s[1..]);
      SafeAppend(EscapeChar(s[0]), Escape(s[1..]));
    }
  }

  /** `sanitizeText` output holds none of `<`, `>`, `"`, `'`, `/`, every `&`
      in it begins an entity, and it is at least as long as the input. */
  lemma SanitizeTextSafe(s: string)
    ensures SafeOutput(SanitizeText(s))
    ensures |SanitizeText(s)| >= |s|
    ensures s == "" ==> SanitizeText(s) == ""
  {
    SanitizeIsEscape(s);
    EscapeSafe(s);
  }

  /** Text without any target character is returned unchanged. */
  lemma {:induction false} EscapePlain(s: string)
    requires forall i :: 0 <= i < |s| ==> !IsTarget(s[i])
    ensures Escape(s) == s
  {
    if s != [] {
      EscapePlain(s[1..]);
      assert [s[0]] + s[1..] == s;
    }
  }

  // ----------------------------------------------------------- the inverse

  /** The character an entity at the start of `s` stands for, with the
      entity's length. */
  function LeadingEntity(s: string): Option<(char, nat)> {
    if |s| >= 5 && s[..5] == "&amp;" then Some(('&', 5))
    else if |s| >= 4 && s[..4] == "&lt;" then Some(('<', 4))
    else if |s| >= 4 && s[..4] == "&gt;" then Some(('>', 4))
    else if |s| >= 6 && s[..6] == "&quot;" then Some(('"', 6))
    else if |s| >= 6 && s[..6] == "&#x27;" then Some(('\'', 6))
    else if |s| >= 6 && s[..6] == "&#x2F;" then Some(('/', 6))
    else None
  }

  /** Decodes the six entities, left to right. */
  function Unescape(s: string): string
    decreases |s|
  {
    if s == [] then []
    else match LeadingEntity(s)
      case Some((c, n)) => if 1 <= n <= |s| then [c] + Unescape(s[n..]) else [s[0]] + Unescape(s[1..])
      case None => [s[0]] + Unescape(s[1..])
  }

  lemma LeadingEntityOfEscape(c: char, t: string)
    ensures IsTarget(c) ==> LeadingEntity(EscapeChar(c) + t) == Some((c, |EscapeChar(c)|))
    ensures !IsTarget(c) ==> LeadingEntity(EscapeChar(c) + t) == None
  {
    var s := EscapeChar(c) + t;
    var e := EscapeChar(c);
    assert s[..|e|] == e;
    assert forall i :: 0 <= i < |e| ==> s[i] == e[i];
    if !IsTarget(c) {
      assert s[0] == c && c != '&';
    } else if c != '&' {
      // the second character tells the entities apart, except for the two
      // numeric ones, which differ in the fifth
      assert |s| >= 5 ==> s[..5][1] == s[1] != 'a';
      if c == '\'' || c == '/' {
        assert |s| >= 4 ==> s[..4][1] == '#';
        assert s[..6][1] == '#';
        assert s[..6][4] == s[4];
      } else {
        assert |s| >= 6 ==> s[..6][1] == s[1];
        assert s[..4][1] == s[1];
      }
    }
  }

  /** Escaping loses nothing: decoding the escaped text gives back the
      input. */
  lemma {:induction false} UnescapeEscape(s: string)
    ensures Unescape(Escape(s)) == s
  {
    if s != [] {
      var e := EscapeChar(s[0]);
      var t := Escape(s[1..]);
      LeadingEntityOfEscape(s[0], t);
      assert (e + t)[|e|..] == t;
      if !IsTarget(s[0]) {
        assert (e + t)[1..] == t;
      }
      UnescapeEscape(s[1..]);
    }
  }

  /** Different inputs never sanitise to the same text. */
  lemma SanitizeTextInjective(s: string, u: string)
    requires SanitizeText(s) == SanitizeText(u)
    ensures s == u
  {
    SanitizeIsEscape(s);
    SanitizeIsEscape(u);
    UnescapeEscape(s);
    UnescapeEscape(u);
  }
}
