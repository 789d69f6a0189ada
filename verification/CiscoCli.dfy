/** Token-by-token expansion of IOS abbreviations. */
module CiscoCli {
  import opened Option
  import opened Text
  import opened CiscoTables
  import opened TokenExpansion

  // ---------------------------------------------------------------- unique prefixes

  function Matches(words: seq<string>, partial: string): (m: seq<string>)
    ensures forall w | w in m :: w in words && partial <= w
  {
    if words == [] then []
    else (if partial <= words[0] then [words[0]] else []) + Matches(words[1..], partial)
  }

  /** The one word of a list that a text abbreviates, if there is exactly one. */
  function UniqueIn(words: seq<string>, partial: string): (r: Option<string>)
    ensures r.Some? ==> r.value in words && partial <= r.value
    ensures r.Some? && partial in words ==> r.value == partial
  {
    var m := Matches(words, partial);
    if |m| == 1 then
      if partial in words then MatchesHolds(words, partial, partial); Some(m[0]) else Some(m[0])
    else None
  }

  function UniquePrefix(partial: string): Option<string> {
    UniqueIn(Vocabulary(), partial)
  }

  lemma {:induction false} MatchesHolds(words: seq<string>, partial: string, w: string)
    requires w in words && partial <= w
    ensures w in Matches(words, partial)
  {
    if w != words[0] {
      MatchesHolds(words[1..], partial, w);
    }
  }

  lemma {:induction false} MatchesConcat(a: seq<string>, b: seq<string>, partial: string)
    ensures Matches(a + b, partial) == Matches(a, partial) + Matches(b, partial)
  {
    if a == [] {
      assert a + b == b;
    } else {
      assert (a + b)[1..] == a[1..] + b;
      MatchesConcat(a[1..], b, partial);
    }
  }

  lemma {:induction false} NoMatches(words: seq<string>, partial: string)
    ensures Matches(words, partial) == [] <==> forall i | 0 <= i < |words| :: !(partial <= words[i])
  {
    if words != [] {
      NoMatches(words[1..], partial);
      assert forall i | 0 <= i < |words[1..]| :: words[1..][i] == words[i + 1];
      if forall i | 0 <= i < |words[1..]| :: !(partial <= words[1..][i]) {
        forall i | 0 < i < |words| ensures !(partial <= words[i]) {
          assert words[i] == words[1..][i - 1];
        }
      }
    }
  }

  /** One entry of the list begins with the text, and this is it. */
  predicate OnlyAt(words: seq<string>, partial: string, i: int) {
    && 0 <= i < |words| && partial <= words[i]
    && forall j | 0 <= j < |words| && j != i :: !(partial <= words[j])
  }

  lemma {:induction false} OneMatch(words: seq<string>, partial: string, w: string)
    ensures Matches(words, partial) == [w] <==> exists i: int :: OnlyAt(words, partial, i) && words[i] == w
  {
    if words != [] {
      var rest := words[1..];
      assert forall i | 0 <= i < |rest| :: rest[i] == words[i + 1];
      if partial <= words[0] {
        NoMatches(rest, partial);
        FirstOnly(words, partial);
      } else {
        OneMatch(rest, partial, w);
        LaterOnly(words, partial, w);
      }
    }
  }

  lemma FirstOnly(words: seq<string>, partial: string)
    requires words != [] && partial <= words[0]
    ensures forall i :: OnlyAt(words, partial, i) ==> i == 0
    ensures OnlyAt(words, partial, 0) <==> forall i | 0 <= i < |words[1..]| :: !(partial <= words[1..][i])
  {
    if forall i | 0 <= i < |words[1..]| :: !(partial <= words[1..][i]) {
      forall j | 0 < j < |words| ensures !(partial <= words[j]) {
        assert words[j] == words[1..][j - 1];
      }
    }
  }

  lemma LaterOnly(words: seq<string>, partial: string, w: string)
    requires words != [] && !(partial <= words[0])
    ensures (exists i :: OnlyAt(words, partial, i) && words[i] == w)
            <==> exists i :: OnlyAt(words[1..], partial, i) && words[1..][i] == w
  {
    var rest := words[1..];
    if i :| OnlyAt(words, partial, i) && words[i] == w {
      assert i > 0 && rest[i - 1] == words[i];
      forall j | 0 <= j < |rest| && j != i - 1 ensures !(partial <= rest[j]) {
        assert rest[j] == words[j + 1];
      }
      assert OnlyAt(rest, partial, i - 1);
    }
    if i :| OnlyAt(rest, partial, i) && rest[i] == w {
      forall j | 0 <= j < |words| && j != i + 1 ensures !(partial <= words[j]) {
        if j > 0 {
          assert words[j] == rest[j - 1];
        }
      }
      assert OnlyAt(words, partial, i + 1);
    }
  }

  /** A text abbreviates a keyword exactly when that keyword is the only entry of the vocabulary that begins with it. */
  lemma UniquePrefixMeans(partial: string, w: string)
    ensures UniquePrefix(partial) == Some(w) <==>
              exists i | 0 <= i < |Vocabulary()| :: Vocabulary()[i] == w && partial <= w
                && forall j | 0 <= j < |Vocabulary()| && j != i :: !(partial <= Vocabulary()[j])
  {
    UniqueInMeans(Vocabulary(), partial, w);
  }

  lemma UniqueInMeans(words: seq<string>, partial: string, w: string)
    ensures UniqueIn(words, partial) == Some(w) <==>
              exists i | 0 <= i < |words| :: words[i] == w && partial <= w
                && forall j | 0 <= j < |words| && j != i :: !(partial <= words[j])
  {
    OneMatch(words, partial, w);
    if i :| 0 <= i < |words| && words[i] == w && partial <= w && forall j | 0 <= j < |words| && j != i :: !(partial <= words[j]) {
      assert OnlyAt(words, partial, i);
    }
    if UniqueIn(words, partial) == Some(w) {
      assert Matches(words, partial) == [w];
      var i :| OnlyAt(words, partial, i) && words[i] == w;
    }
  }

  /** The search loop over any word list. */
  method CollectMatches(words: seq<string>, partial: string) returns (matches: seq<string>)
    ensures matches == Matches(words, partial)
  {
    matches := [];
    for i := 0 to |words|
      invariant matches == Matches(words[..i], partial)
    {
      var last := [words[i]];
      assert words[..i + 1] == words[..i] + last;
      MatchesConcat(words[..i], last, partial);
      assert last[1..] == [];
      if partial <= words[i] {
        matches := matches + [words[i]];
      }
    }
    assert words[..|words|] == words;
  }

  method CiscoUniquePrefix(partial: string) returns (r: Option<string>)
    ensures r == UniquePrefix(partial)
  {
    var matches := CollectMatches(Vocabulary(), partial);
    r := if |matches| == 1 then Some(matches[0]) else None;
  }

  // ---------------------------------------------------------------- one token

  function IosTables(): Tables {
    Tables(Context, Alias, UniquePrefix)
  }

  function ExpandToken(raw: string, prev: seq<string>): string {
    Expand(IosTables(), raw, prev)
  }

  // ---------------------------------------------------------------- a line

  function LastThree(ws: seq<string>): seq<string> {
    if |ws| > 3 then ws[|ws| - 3..] else ws
  }

  /** Left to right, each token with up to three words of what has been produced before it. */
  function ExpandWith(expand: (string, seq<string>) -> string, fields: seq<string>): (out: seq<string>)
    ensures |out| == |fields|
  {
    if fields == [] then []
    else
      var before := ExpandWith(expand, fields[..|fields| - 1]);
      before + [expand(fields[|fields| - 1], LastThree(before))]
  }

  function ExpandTokens(fields: seq<string>): (out: seq<string>)
    ensures |out| == |fields|
  {
    ExpandWith(ExpandToken, fields)
  }

  method ExpandFields(expand: (string, seq<string>) -> string, fields: seq<string>) returns (out: seq<string>)
    ensures out == ExpandWith(expand, fields)
  {
    out := [];
    for i := 0 to |fields|
      invariant out == ExpandWith(expand, fields[..i])
    {
      var prev := out;
      if |prev| > 3 {
        prev := prev[|prev| - 3..];
      }
      assert fields[..i + 1][..i] == fields[..i];
      out := out + [expand(fields[i], prev)];
    }
    assert fields[..|fields|] == fields;
  }

  method ExpandCiscoTokens(fields: seq<string>) returns (out: seq<string>)
    ensures out == ExpandTokens(fields)
  {
    out := ExpandFields(ExpandToken, fields);
  }

  /** Expansion is causal: the expansion of a prefix is a prefix of the expansion. */
  lemma {:induction false} ExpansionIsCausal(expand: (string, seq<string>) -> string, fields: seq<string>, k: nat)
    requires k <= |fields|
    ensures ExpandWith(expand, fields[..k]) == ExpandWith(expand, fields)[..k]
  {
    if k < |fields| {
      var init := fields[..|fields| - 1];
      ExpansionIsCausal(expand, init, k);
      assert init[..k] == fields[..k];
    } else {
      assert fields[..k] == fields;
    }
  }

  /** Each output word is the expansion of its token after the words before it. */
  lemma ExpansionAt(expand: (string, seq<string>) -> string, fields: seq<string>, i: nat)
    requires i < |fields|
    ensures var out := ExpandWith(expand, fields); out[i] == expand(fields[i], LastThree(out[..i]))
  {
    ExpansionIsCausal(expand, fields, i);
    ExpansionIsCausal(expand, fields, i + 1);
    assert fields[..i + 1][..i] == fields[..i];
    var out := ExpandWith(expand, fields);
    assert out[..i + 1][i] == out[i];
  }

  /** When the expansion of a token does not expand further in its place, neither does that of a line. */
  lemma {:induction false} ExpansionSettles(expand: (string, seq<string>) -> string, fields: seq<string>)
    requires forall t, prev :: expand(expand(t, prev), prev) == expand(t, prev)
    ensures ExpandWith(expand, ExpandWith(expand, fields)) == ExpandWith(expand, fields)
  {
    if fields != [] {
      var init := fields[..|fields| - 1];
      var out := ExpandWith(expand, fields);
      ExpansionSettles(expand, init);
      assert out[..|out| - 1] == ExpandWith(expand, init);
    }
  }
}
