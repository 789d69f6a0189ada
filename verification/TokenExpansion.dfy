/**
 Expanding one token, for any three lookup tables.  What makes an expansion final is said of the tables here,
 once; `CommandPolicy` shows it of the IOS tables.
 */
module TokenExpansion {
  import opened Option
  import opened Text

  // ---------------------------------------------------------------- literals

  predicate IsDigit(c: char) {
    '0' <= c <= '9'
  }

  predicate IsLetter(c: char) {
    'a' <= c <= 'z' || 'A' <= c <= 'Z'
  }

  predicate AddressMark(c: char) {
    c == '/' || c == '.' || c == ':' || c == '<' || c == '>'
  }

  /** Numbers, addresses, ranges and the two help characters are never expanded. */
  predicate Literal(s: string) {
    || s == "?" || s == "|"
    || ((exists i | 0 <= i < |s| :: IsDigit(s[i])) && forall i | 0 <= i < |s| :: !IsLetter(s[i]))
    || exists i | 0 <= i < |s| :: AddressMark(s[i])
  }

  lemma LiteralMeans(s: string)
    ensures Literal(s) <==> s == "?" || s == "|"
                            || ((exists i | 0 <= i < |s| :: '0' <= s[i] <= '9')
                                && forall i | 0 <= i < |s| :: !('a' <= s[i] <= 'z') && !('A' <= s[i] <= 'Z'))
                            || exists i | 0 <= i < |s| :: s[i] in {'/', '.', ':', '<', '>'}
  {
    assert forall i | 0 <= i < |s| :: IsDigit(s[i]) <==> '0' <= s[i] <= '9';
    assert forall i | 0 <= i < |s| :: IsLetter(s[i]) <==> 'a' <= s[i] <= 'z' || 'A' <= s[i] <= 'Z';
    assert forall i | 0 <= i < |s| :: AddressMark(s[i]) <==> s[i] in {'/', '.', ':', '<', '>'};
  }

  method IsCiscoLiteral(s: string) returns (r: bool)
    ensures r == Literal(s)
    ensures r <==> s == "?" || s == "|"
                   || ((exists i | 0 <= i < |s| :: '0' <= s[i] <= '9')
                       && forall i | 0 <= i < |s| :: !('a' <= s[i] <= 'z') && !('A' <= s[i] <= 'Z'))
                   || exists i | 0 <= i < |s| :: s[i] in {'/', '.', ':', '<', '>'}
  {
    LiteralMeans(s);
    if s == "?" || s == "|" {
      return true;
    }
    var hasDigit, hasAlpha, hasMark := false, false, false;
    for i := 0 to |s|
      invariant hasDigit == exists k | 0 <= k < i :: IsDigit(s[k])
      invariant hasAlpha == exists k | 0 <= k < i :: IsLetter(s[k])
      invariant hasMark == exists k | 0 <= k < i :: AddressMark(s[k])
    {
      if IsDigit(s[i]) {
        hasDigit := true;
      } else if IsLetter(s[i]) {
        hasAlpha := true;
      }
      hasMark := hasMark || AddressMark(s[i]);
    }
    r := (hasDigit && !hasAlpha) || hasMark;
  }

  // ---------------------------------------------------------------- one token

  /** By parent and token; by token; the one keyword a token of two letters or more begins. */
  datatype Tables = Tables(context: (string, string) -> Option<string>, alias: string -> Option<string>,
                           longer: string -> Option<string>)

  /** The nearest parent first, then the two nearest joined by a space. */
  function ContextExpand(tb: Tables, token: string, prev: seq<string>): Option<string> {
    if prev == [] then None
    else
      var near := tb.context(prev[|prev| - 1], token);
      if near.Some? then near
      else if |prev| >= 2 then tb.context(prev[|prev| - 2] + " " + prev[|prev| - 1], token)
      else None
  }

  function Expand(tb: Tables, raw: string, prev: seq<string>): string {
    var token := Lower(TrimSpace(raw));
    if token == "" || Literal(token) then raw
    else if ContextExpand(tb, token, prev).Some? then ContextExpand(tb, token, prev).value
    else if tb.alias(token).Some? then tb.alias(token).value
    else if |token| >= 2 && tb.longer(token).Some? then tb.longer(token).value
    else token
  }

  /** What a word that is no literal expands to: what the nearest word before it makes of it; failing that, the two
      nearest; failing that, its own abbreviation; failing that, the one keyword it begins; failing all, itself. */
  lemma ExpansionOrder(tb: Tables, t: string, prev: seq<string>)
    requires Lower(TrimSpace(t)) == t && t != "" && !Literal(t)
    ensures var n := |prev|;
            var near := if n >= 1 then tb.context(prev[n - 1], t) else None;
            var wide := if n >= 2 then tb.context(prev[n - 2] + " " + prev[n - 1], t) else None;
            Expand(tb, t, prev) ==
            if near.Some? then near.value
            else if wide.Some? then wide.value
            else if tb.alias(t).Some? then tb.alias(t).value
            else if |t| >= 2 && tb.longer(t).Some? then tb.longer(t).value
            else t
  {
  }

  // ---------------------------------------------------------------- lawful tables

  /** A word that is as the tables want it. */
  predicate Normal(w: string) {
    Word(w) && IsLower(w) && Lower(TrimSpace(w)) == w
  }

  predicate Own(w: string, found: Option<string>) {
    found == None || found == Some(w)
  }

  /** No table turns this word into another one. */
  ghost predicate Final(tb: Tables, w: string) {
    && Normal(w)
    && Own(w, tb.alias(w)) && Own(w, tb.longer(w))
    && forall parent :: Own(w, tb.context(parent, w))
  }

  /** What a table gives for a token is the token itself or a final word. */
  ghost predicate Settled(tb: Tables, t: string, found: Option<string>) {
    found.Some? && found.value != t ==> Final(tb, found.value)
  }

  ghost predicate Lawful(tb: Tables) {
    && (forall t :: Settled(tb, t, tb.alias(t)))
    && (forall t :: Settled(tb, t, tb.longer(t)))
    && (forall parent, t :: Settled(tb, t, tb.context(parent, t)))
  }

  lemma FinalStays(tb: Tables, w: string, prev: seq<string>)
    requires Final(tb, w)
    ensures Expand(tb, w, prev) == w
  {
  }

  lemma ContextSettled(tb: Tables, token: string, prev: seq<string>)
    requires Lawful(tb)
    ensures Settled(tb, token, ContextExpand(tb, token, prev))
  {
  }

  lemma LowerTrimTwice(raw: string)
    ensures Lower(TrimSpace(Lower(TrimSpace(raw)))) == Lower(TrimSpace(raw))
  {
    var t := TrimSpace(raw);
    TrimEnds(raw);
    TrimOfWord(Lower(t));
    LowerTwice(t);
  }

  lemma TrimEnds(s: string)
    ensures var t := TrimSpace(s); t == "" || (!IsSpace(t[0]) && !IsSpace(t[|t| - 1]))
  {
  }

  /** Expanding gives the text itself, or its trimmed lower case, or a final word. */
  lemma ExpansionIsFinal(tb: Tables, raw: string, prev: seq<string>)
    requires Lawful(tb)
    ensures var v := Expand(tb, raw, prev); v == raw || v == Lower(TrimSpace(raw)) || Final(tb, v)
  {
    var token := Lower(TrimSpace(raw));
    ContextSettled(tb, token, prev);
    assert Settled(tb, token, tb.alias(token)) && Settled(tb, token, tb.longer(token));
  }

  lemma OwnExpansion(tb: Tables, raw: string, prev: seq<string>)
    requires Expand(tb, raw, prev) == Lower(TrimSpace(raw))
    ensures Expand(tb, Expand(tb, raw, prev), prev) == Expand(tb, raw, prev)
  {
    LowerTrimTwice(raw);
  }

  /** Expanding the expansion of any token in the same place changes nothing. */
  lemma TokenSettles(tb: Tables, raw: string, prev: seq<string>)
    requires Lawful(tb)
    ensures Expand(tb, Expand(tb, raw, prev), prev) == Expand(tb, raw, prev)
  {
    var v := Expand(tb, raw, prev);
    ExpansionIsFinal(tb, raw, prev);
    if v == Lower(TrimSpace(raw)) {
      OwnExpansion(tb, raw, prev);
    } else if v != raw {
      FinalStays(tb, v, prev);
    }
  }

  lemma TokenKeepsWord(tb: Tables, t: string, prev: seq<string>)
    requires Lawful(tb) && Word(t) && IsLower(t)
    ensures Word(Expand(tb, t, prev)) && IsLower(Expand(tb, t, prev))
  {
    TrimOfWord(t);
    ExpansionIsFinal(tb, t, prev);
  }

  // ---------------------------------------------------------------- "do"

  /** "do" is listed as itself, nothing else is listed as "do", and it is no parent. */
  ghost predicate DoStandsAlone(tb: Tables) {
    && Normal("do") && !Literal("do") && tb.alias("do") == Some("do")
    && (forall t :: tb.alias(t) == Some("do") ==> t == "do")
    && (forall t :: tb.longer(t) != Some("do"))
    && (forall t :: tb.context("do", t) == None)
    && (forall parent, t :: tb.context("do " + parent, t) == None)
  }

  lemma OnlyDoIsDo(tb: Tables, t: string)
    requires DoStandsAlone(tb) && Word(t) && IsLower(t)
    ensures Expand(tb, t, []) == "do" <==> t == "do"
  {
    TrimOfWord(t);
  }

  lemma SameContext(tb: Tables, t: string, prev: seq<string>, other: seq<string>)
    requires ContextExpand(tb, Lower(TrimSpace(t)), prev) == ContextExpand(tb, Lower(TrimSpace(t)), other)
    ensures Expand(tb, t, prev) == Expand(tb, t, other)
  {
  }

  lemma DoIsNoParent(tb: Tables, t: string, prev: seq<string>)
    requires DoStandsAlone(tb) && |prev| <= 2
    ensures Expand(tb, t, ["do"] + prev) == Expand(tb, t, prev)
  {
    var token := Lower(TrimSpace(t));
    var more := ["do"] + prev;
    if |prev| == 0 {
      assert more[|more| - 1] == "do";
    } else if |prev| == 1 {
      assert more[|more| - 1] == prev[0] && more[|more| - 2] == "do";
      assert "do" + " " + prev[0] == "do " + prev[0];
    } else {
      assert more[|more| - 1] == prev[1] && more[|more| - 2] == prev[0];
    }
    SameContext(tb, t, more, prev);
  }

  lemma AliasStays(tb: Tables, t: string)
    requires Normal(t) && tb.alias(t) == Some(t)
    ensures Expand(tb, t, []) == t
  {
  }
}
