/**
 The placeholder pattern `{{ name }}` of message templates: a scanner over
 characters, proved to be the only leftmost reading of a text, and substitution.
 */
module Placeholders {
  import opened Options
  import opened Text

  predicate IsNameChar(c: char) {
    'A' <= c <= 'Z' || 'a' <= c <= 'z' || '0' <= c <= '9' || c == '_' || c == '.' || c == '-'
  }

  predicate IsName(s: string) {
    s != "" && forall i | 0 <= i < |s| :: IsNameChar(s[i])
  }

  /** `raw` is one placeholder for `name`, with `lead` and `trail` the white space inside it. */
  predicate Spelled(raw: string, lead: string, name: string, trail: string) {
    Blank(lead) && IsName(name) && Blank(trail) && raw == "{{" + lead + name + trail + "}}"
  }

  /** What the regular expression accepts. */
  ghost predicate IsHole(raw: string, name: string) {
    exists lead, trail :: Spelled(raw, lead, name, trail)
  }

  function SpaceEnd(text: string, i: nat): (j: nat)
    requires i <= |text|
    ensures i <= j <= |text|
    decreases |text| - i
  {
    if i < |text| && IsSpace(text[i]) then SpaceEnd(text, i + 1) else i
  }

  function NameEnd(text: string, i: nat): (j: nat)
    requires i <= |text|
    ensures i <= j <= |text|
    decreases |text| - i
  {
    if i < |text| && IsNameChar(text[i]) then NameEnd(text, i + 1) else i
  }

  datatype Match = Match(length: nat, name: string)

  /** The placeholder that starts `text`, if one does. */
  function MatchAt(text: string): (m: Option<Match>)
    ensures m.Some? ==> 2 < m.value.length <= |text|
  {
    if |text| < 2 || text[0] != '{' || text[1] != '{' then None
    else
      var a := SpaceEnd(text, 2);
      var b := NameEnd(text, a);
      var c := SpaceEnd(text, b);
      if a < b && c + 2 <= |text| && text[c] == '}' && text[c+1] == '}'
      then Some(Match(c + 2, text[a..b]))
      else None
  }

  lemma {:induction false} SpacesTo(text: string, i: nat)
    requires i <= |text|
    ensures Blank(text[i..SpaceEnd(text, i)])
    decreases |text| - i
  {
    if i < |text| && IsSpace(text[i]) {
      SpacesTo(text, i + 1);
      var j := SpaceEnd(text, i + 1);
      assert text[i..j] == [text[i]] + text[i+1..j];
    }
  }

  lemma {:induction false} NameTo(text: string, i: nat)
    requires i <= |text|
    ensures forall k | 0 <= k < |text[i..NameEnd(text, i)]| :: IsNameChar(text[i..NameEnd(text, i)][k])
    decreases |text| - i
  {
    if i < |text| && IsNameChar(text[i]) {
      NameTo(text, i + 1);
      var j := NameEnd(text, i + 1);
      assert text[i..j] == [text[i]] + text[i+1..j];
    }
  }

  lemma PartsJoin(text: string, a: nat, b: nat, c: nat)
    requires 2 <= a <= b <= c && c + 2 <= |text|
    requires text[0] == '{' && text[1] == '{' && text[c] == '}' && text[c+1] == '}'
    ensures text[..c+2] == "{{" + text[2..a] + text[a..b] + text[b..c] + "}}"
  {
  }

  lemma MatchIsHole(text: string)
    requires MatchAt(text).Some?
    ensures IsHole(text[..MatchAt(text).value.length], MatchAt(text).value.name)
  {
    var a := SpaceEnd(text, 2);
    var b := NameEnd(text, a);
    var c := SpaceEnd(text, b);
    SpacesTo(text, 2);
    NameTo(text, a);
    SpacesTo(text, b);
    PartsJoin(text, a, b, c);
    assert Spelled(text[..c+2], text[2..a], text[a..b], text[b..c]);
  }

  lemma {:induction false} SpaceEndAt(text: string, i: nat, j: nat)
    requires i <= j <= |text| && Blank(text[i..j]) && (j < |text| ==> !IsSpace(text[j]))
    ensures SpaceEnd(text, i) == j
    decreases j - i
  {
    if i < j {
      assert text[i..j][0] == text[i];
      assert text[i+1..j] == text[i..j][1..];
      SpaceEndAt(text, i + 1, j);
    }
  }

  lemma {:induction false} NameEndAt(text: string, i: nat, j: nat)
    requires i <= j <= |text| && (forall k | i <= k < j :: IsNameChar(text[k])) && (j < |text| ==> !IsNameChar(text[j]))
    ensures NameEnd(text, i) == j
    decreases j - i
  {
    if i < j {
      NameEndAt(text, i + 1, j);
    }
  }

  /** Where the parts of a placeholder lie in a text that starts with it. */
  lemma PartsLie(text: string, raw: string, lead: string, name: string, trail: string)
    requires raw == "{{" + lead + name + trail + "}}" && raw <= text
    ensures var a := 2 + |lead|;
            var b := a + |name|;
            var c := b + |trail|;
            && |raw| == c + 2 && text[0] == '{' && text[1] == '{'
            && text[2..a] == lead && text[a..b] == name && text[b..c] == trail
            && text[c] == '}' && text[c+1] == '}'
  {
    var a := 2 + |lead|;
    var b := a + |name|;
    var c := b + |trail|;
    assert text[..|raw|] == raw;
    assert raw[2..a] == lead && raw[a..b] == name && raw[b..c] == trail;
    assert text[2..a] == raw[2..a] && text[a..b] == raw[a..b] && text[b..c] == raw[b..c];
  }

  lemma MatchOfParts(text: string, a: nat, b: nat, c: nat)
    requires 2 <= a < b <= c && c + 2 <= |text| && text[0] == '{' && text[1] == '{'
    requires Blank(text[2..a]) && IsName(text[a..b]) && Blank(text[b..c]) && text[c] == '}' && text[c+1] == '}'
    ensures MatchAt(text) == Some(Match(c + 2, text[a..b]))
  {
    assert text[a..b][0] == text[a];
    SpaceEndAt(text, 2, a);
    forall k | a <= k < b ensures IsNameChar(text[k]) {
      assert text[k] == text[a..b][k-a];
    }
    assert !IsNameChar(text[b]) by {
      if b < c {
        assert text[b] == text[b..c][0];
      }
    }
    NameEndAt(text, a, b);
    SpaceEndAt(text, b, c);
  }

  lemma SpelledIsMatch(text: string, raw: string, lead: string, name: string, trail: string)
    requires Spelled(raw, lead, name, trail) && raw <= text
    ensures MatchAt(text) == Some(Match(|raw|, name))
  {
    var a := 2 + |lead|;
    PartsLie(text, raw, lead, name, trail);
    MatchOfParts(text, a, a + |name|, a + |name| + |trail|);
  }

  /** A text that starts with a placeholder is matched there, at that length and name and no other. */
  lemma HoleIsMatch(raw: string, name: string, rest: string)
    requires IsHole(raw, name)
    ensures MatchAt(raw + rest) == Some(Match(|raw|, name))
  {
    var lead, trail :| Spelled(raw, lead, name, trail);
    SpelledIsMatch(raw + rest, raw, lead, name, trail);
  }

  // ---- Scanning ----

  datatype Token = Lit(c: char) | Hole(raw: string, name: string)

  /** Left to right: a placeholder where one starts, else one character. */
  function Scan(text: string): seq<Token>
    decreases |text|
  {
    if text == "" then []
    else
      var m := MatchAt(text);
      if m.Some? then [Hole(text[..m.value.length], m.value.name)] + Scan(text[m.value.length..])
      else [Lit(text[0])] + Scan(text[1..])
  }

  function Raw(t: Token): string {
    if t.Lit? then [t.c] else t.raw
  }

  function Print(tokens: seq<Token>): string {
    if tokens == [] then "" else Raw(tokens[0]) + Print(tokens[1..])
  }

  /** No placeholder starts `text`. */
  ghost predicate NoHoleAt(text: string) {
    forall raw, name | IsHole(raw, name) :: !(raw <= text)
  }

  /** A reading's next token: a placeholder, or a character where none starts. */
  ghost predicate Fits(t: Token, rest: string) {
    if t.Hole? then IsHole(t.raw, t.name) else NoHoleAt([t.c] + rest)
  }

  /** Every hole is a placeholder and no literal character starts one. */
  ghost predicate Leftmost(tokens: seq<Token>)
    decreases |tokens|
  {
    tokens == [] || (Fits(tokens[0], Print(tokens[1..])) && Leftmost(tokens[1..]))
  }

  lemma NoMatchNoHole(text: string)
    ensures MatchAt(text).None? <==> NoHoleAt(text)
  {
    if MatchAt(text).Some? {
      MatchIsHole(text);
      assert text[..MatchAt(text).value.length] <= text;
    }
    forall raw, name | IsHole(raw, name) && raw <= text ensures MatchAt(text).Some? {
      HoleIsMatch(raw, name, text[|raw|..]);
      assert text == raw + text[|raw|..];
    }
  }

  /** Scanning loses nothing. */
  lemma {:induction false} ScanPrints(text: string)
    ensures Print(Scan(text)) == text
    decreases |text|
  {
    if text != "" {
      var n := if MatchAt(text).Some? then MatchAt(text).value.length else 1;
      ScanPrints(text[n..]);
      assert text == text[..n] + text[n..];
      assert Scan(text)[1..] == Scan(text[n..]);
    }
  }

  /** Scanning reads placeholders leftmost. */
  lemma {:induction false} ScanIsLeftmost(text: string)
    ensures Leftmost(Scan(text))
    decreases |text|
  {
    if text != "" {
      var n := if MatchAt(text).Some? then MatchAt(text).value.length else 1;
      ScanIsLeftmost(text[n..]);
      assert Scan(text)[1..] == Scan(text[n..]);
      if MatchAt(text).Some? {
        MatchIsHole(text);
      } else {
        NoMatchNoHole(text);
        ScanPrints(text);
      }
    }
  }

  /** A placeholder, or a character where none starts, is the first token. */
  lemma ScanFirst(t: Token, rest: string)
    requires Fits(t, rest)
    ensures Scan(Raw(t) + rest) == [t] + Scan(rest)
  {
    var text := Raw(t) + rest;
    assert text[..|Raw(t)|] == Raw(t) && text[|Raw(t)|..] == rest;
    if t.Hole? {
      HoleIsMatch(t.raw, t.name, rest);
    } else {
      NoMatchNoHole(text);
    }
  }

  /** And no other reading is leftmost: printing then scanning gives the tokens back. */
  lemma {:induction false} PrintScans(tokens: seq<Token>)
    requires Leftmost(tokens)
    ensures Scan(Print(tokens)) == tokens
    decreases |tokens|
  {
    if tokens != [] {
      PrintScans(tokens[1..]);
      ScanFirst(tokens[0], Print(tokens[1..]));
      assert tokens == [tokens[0]] + tokens[1..];
    }
  }

  /** `findall`: the names, as a set. */
  function Names(tokens: seq<Token>): set<string> {
    if tokens == [] then {} else (if tokens[0].Hole? then {tokens[0].name} else {}) + Names(tokens[1..])
  }

  function Found(text: string): set<string> {
    Names(Scan(text))
  }

  // ---- Substitution ----

  function Lookup(sample: map<string, string>, name: string): string {
    if name in sample then sample[name] else ""
  }

  function Filled(tokens: seq<Token>, sample: map<string, string>): string {
    if tokens == [] then ""
    else (if tokens[0].Hole? then Lookup(sample, tokens[0].name) else [tokens[0].c]) + Filled(tokens[1..], sample)
  }

  function Render(text: string, sample: map<string, string>): string {
    Filled(Scan(text), sample)
  }

  /** Two samples give the same text when they give the same value to every name found in it. */
  lemma {:induction false} SameValuesSameText(tokens: seq<Token>, s: map<string, string>, t: map<string, string>)
    requires forall name | name in Names(tokens) :: Lookup(s, name) == Lookup(t, name)
    ensures Filled(tokens, s) == Filled(tokens, t)
    decreases |tokens|
  {
    if tokens != [] {
      SameValuesSameText(tokens[1..], s, t);
    }
  }

  /** A text without placeholders is rendered as it is. */
  lemma {:induction false} NoHolesUnchanged(tokens: seq<Token>, sample: map<string, string>)
    requires Names(tokens) == {}
    ensures Filled(tokens, sample) == Print(tokens)
    decreases |tokens|
  {
    if tokens != [] {
      NoHolesUnchanged(tokens[1..], sample);
    }
  }

  lemma PlainTextUnchanged(text: string, sample: map<string, string>)
    requires Found(text) == {}
    ensures Render(text, sample) == text
  {
    ScanPrints(text);
    NoHolesUnchanged(Scan(text), sample);
  }

  ghost predicate AgreeOn(names: set<string>, s: map<string, string>, t: map<string, string>) {
    forall name | name in names :: Lookup(s, name) == Lookup(t, name)
  }

  lemma {:induction false} LongerWith(tokens: seq<Token>, name: string)
    ensures |Filled(tokens, map[name := "x"])| >= |Filled(tokens, map[])|
    ensures name in Names(tokens) ==> |Filled(tokens, map[name := "x"])| > |Filled(tokens, map[])|
    decreases |tokens|
  {
    if tokens != [] {
      LongerWith(tokens[1..], name);
    }
  }

  /**
   Non-interference, exactly: a text depends on no variable outside `allowed` if
   and only if every placeholder found in it is allowed.
   */
  lemma DependsOnlyOnAllowed(text: string, allowed: set<string>)
    ensures Found(text) <= allowed <==>
            forall s, t | AgreeOn(allowed, s, t) :: Render(text, s) == Render(text, t)
  {
    if Found(text) <= allowed {
      forall s, t | AgreeOn(allowed, s, t) ensures Render(text, s) == Render(text, t) {
        SameValuesSameText(Scan(text), s, t);
      }
    } else {
      var name :| name in Found(text) && name !in allowed;
      LongerWith(Scan(text), name);
      assert AgreeOn(allowed, map[], map[name := "x"]);
      assert Render(text, map[]) != Render(text, map[name := "x"]);
    }
  }

  /** A placeholder alone scans to itself. */
  lemma HoleAlone(raw: string, name: string)
    requires IsHole(raw, name)
    ensures Scan(raw) == [Hole(raw, name)]
  {
    assert Print([Hole(raw, name)]) == raw by {
      assert raw + "" == raw;
    }
    assert [Hole(raw, name)][1..] == [];
    PrintScans([Hole(raw, name)]);
  }

  /** What a text's first token adds to the names found in the rest. */
  lemma FoundFirst(t: Token, rest: string)
    requires Fits(t, rest)
    ensures Found(Raw(t) + rest) == (if t.Hole? then {t.name} else {}) + Found(rest)
  {
    ScanFirst(t, rest);
    assert ([t] + Scan(rest))[1..] == Scan(rest);
  }

  /** Rendering goes token by token: a placeholder gives its value, or nothing without one, anything else stays. */
  lemma RenderFirst(t: Token, rest: string, sample: map<string, string>)
    requires Fits(t, rest)
    ensures Render(Raw(t) + rest, sample)
         == (if t.Lit? then [t.c] else if t.name in sample then sample[t.name] else "") + Render(rest, sample)
    ensures Render("", sample) == ""
  {
    ScanFirst(t, rest);
    assert ([t] + Scan(rest))[1..] == Scan(rest);
  }

  lemma LiteralFits(c: char, rest: string)
    requires c != '{' || rest == "" || rest[0] != '{'
    ensures Fits(Lit(c), rest)
  {
    forall raw, name | IsHole(raw, name) ensures !(raw <= [c] + rest) {
      var lead, trail :| Spelled(raw, lead, name, trail);
      assert |raw| >= 2 && raw[0] == '{' && raw[1] == '{';
    }
  }

  lemma FoundBehind(c: char, rest: string)
    requires c != '{'
    ensures Found([c] + rest) == Found(rest)
  {
    LiteralFits(c, rest);
    FoundFirst(Lit(c), rest);
  }

  /** A placeholder between texts without braces is all that is found. */
  lemma {:induction false} FoundAround(before: string, raw: string, name: string, after: string)
    requires IsHole(raw, name)
    requires (forall i | 0 <= i < |before| :: before[i] != '{') && (forall i | 0 <= i < |after| :: after[i] != '{')
    ensures Found(before + raw + after) == {name}
    decreases |before|
  {
    if before == "" {
      FoundFirst(Hole(raw, name), after);
      FoundPlain(after);
      assert before + raw + after == raw + after;
    } else {
      var rest := before[1..] + raw + after;
      FoundAround(before[1..], raw, name, after);
      FoundBehind(before[0], rest);
      assert before + raw + after == [before[0]] + rest;
    }
  }

  lemma {:induction false} FoundPlain(text: string)
    requires forall i | 0 <= i < |text| :: text[i] != '{'
    ensures Found(text) == {}
    decreases |text|
  {
    if text != "" {
      LiteralFits(text[0], text[1..]);
      FoundFirst(Lit(text[0]), text[1..]);
      FoundPlain(text[1..]);
      assert text == [text[0]] + text[1..];
    }
  }

  function Braced(name: string): string {
    "{{" + name + "}}"
  }

  lemma BracedIsHole(name: string)
    requires IsName(name)
    ensures IsHole(Braced(name), name)
  {
    assert Braced(name) == "{{" + "" + name + "" + "}}";
    assert Spelled(Braced(name), "", name, "");
  }

  /** Three braces in a row: the first one is a literal. */
  lemma ThirdBrace(rest: string)
    requires |rest| >= 2 && rest[0] == '{' && rest[1] == '{'
    ensures Scan("{" + rest) == [Lit('{')] + Scan(rest)
  {
    var text := "{" + rest;
    assert text[2] == '{';
    assert SpaceEnd(text, 2) == 2 && NameEnd(text, 2) == 2;
    assert text[1..] == rest;
  }

  lemma TwoClosing()
    ensures Scan("}}") == [Lit('}'), Lit('}')]
  {
    LiteralFirst("}}");
    LiteralFirst("}");
    assert "}}"[1..] == "}" && "}"[1..] == "";
  }

  function BracedTokens(hole: Token): seq<Token> {
    [Lit('{')] + ([Lit('{')] + ([hole] + [Lit('}'), Lit('}')]))
  }

  lemma ScanInner(name: string)
    requires IsName(name)
    ensures Scan(Braced(name) + "}}") == [Hole(Braced(name), name)] + [Lit('}'), Lit('}')]
  {
    var inner := Braced(name) + "}}";
    BracedIsHole(name);
    HoleIsMatch(Braced(name), name, "}}");
    assert inner[..|Braced(name)|] == Braced(name) && inner[|Braced(name)|..] == "}}";
    TwoClosing();
  }

  lemma ScanDoublyBraced(name: string)
    requires IsName(name)
    ensures Scan("{" + ("{" + (Braced(name) + "}}"))) == BracedTokens(Hole(Braced(name), name))
  {
    ScanInner(name);
    ThirdBrace(Braced(name) + "}}");
    ThirdBrace("{" + (Braced(name) + "}}"));
  }

  lemma FilledCons(token: Token, rest: seq<Token>, sample: map<string, string>)
    ensures Filled([token] + rest, sample)
            == (if token.Hole? then Lookup(sample, token.name) else [token.c]) + Filled(rest, sample)
  {
    assert ([token] + rest)[1..] == rest;
  }

  lemma FillBraced(hole: Token, sample: map<string, string>)
    requires hole.Hole?
    ensures Filled(BracedTokens(hole), sample) == "{{" + Lookup(sample, hole.name) + "}}"
  {
    var close := [Lit('}')] + [Lit('}')];
    FilledCons(Lit('}'), [], sample);
    FilledCons(Lit('}'), [Lit('}')], sample);
    FilledCons(hole, close, sample);
    FilledCons(Lit('{'), [hole] + close, sample);
    FilledCons(Lit('{'), [Lit('{')] + ([hole] + close), sample);
    assert [Lit('}')] + [] == [Lit('}')] && close == [Lit('}'), Lit('}')];
    assert Filled(close, sample) == "}}";
  }

  /** Rendering is not idempotent: a substituted value can complete a placeholder around it. */
  lemma RenderingTwiceDiffers(name: string)
    requires IsName(name)
    ensures Render("{" + ("{" + (Braced(name) + "}}")), map[name := name]) == Braced(name)
    ensures Render(Braced(name), map[name := name]) == name != Braced(name)
  {
    var hole := Hole(Braced(name), name);
    ScanDoublyBraced(name);
    FillBraced(hole, map[name := name]);
    BracedIsHole(name);
    HoleAlone(Braced(name), name);
    FilledCons(hole, [], map[name := name]);
    assert [hole] + [] == [hole];
  }

  /** A text that does not start with two braces starts with a literal. */
  lemma LiteralFirst(text: string)
    requires text != "" && (|text| < 2 || text[0] != '{' || text[1] != '{')
    ensures Scan(text) == [Lit(text[0])] + Scan(text[1..])
  {
  }
}
