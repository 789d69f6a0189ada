/**
 What the user's terminal gets to see of the device's output: known secrets are starred chunk by chunk, then
 everything typed after a password prompt is starred to the end of its line, across chunks.  The streaming
 part keeps 16 bytes of the line and one flag; it is proved to star exactly the bytes that a look at the
 whole stream so far would star.  Bytes are characters here.
 */
module PasswordMasker {
  import opened Text

  const WINDOW := 16

  predicate LineBreak(c: char) {
    c == '\r' || c == '\n'
  }

  predicate Printable(c: char) {
    ' ' <= c <= '~'
  }

  predicate HasSuffix(s: string, suffix: string) {
    |suffix| <= |s| && s[|s| - |suffix|..] == suffix
  }

  /** The text ends with "password:", "passphrase:" or "secret:" in any case. */
  predicate EndsWithPrompt(s: string) {
    exists k | 0 <= k < |PROMPTS| :: HasSuffix(Lower(s), PROMPTS[k])
  }

  const PROMPTS := ["password:", "passphrase:", "secret:"]

  predicate NoBreak(s: string) {
    forall i | 0 <= i < |s| :: !LineBreak(s[i])
  }

  // ---------------------------------------------------------------- the whole-stream specification

  /** A byte of the current line, the last one included, has completed a prompt. */
  predicate Armed(seen: string) {
    seen != "" && !LineBreak(seen[|seen| - 1]) && (EndsWithPrompt(seen) || Armed(seen[..|seen| - 1]))
  }

  /** Byte i is starred: printable, not blank, and after a prompt on its line. */
  predicate Starred(stream: string, i: nat)
    requires i < |stream|
  {
    Printable(stream[i]) && stream[i] != ' ' && Armed(stream[..i])
  }

  /** The next bytes of a stream, each starred or not. */
  function Masked(seen: string, p: string): (out: string)
    ensures |out| == |p|
    decreases |p|
  {
    if p == "" then ""
    else [MaskChar(seen, p[0])] + Masked(seen + [p[0]], p[1..])
  }

  lemma {:induction false} MaskedAt(seen: string, p: string, i: nat)
    requires i < |p|
    ensures Masked(seen, p)[i] == if Starred(seen + p, |seen| + i) then '*' else p[i]
    decreases |p|
  {
    if i == 0 {
      assert (seen + p)[..|seen|] == seen;
    } else {
      MaskedAt(seen + [p[0]], p[1..], i - 1);
      assert seen + [p[0]] + p[1..] == seen + p;
    }
  }

  function MaskChar(seen: string, c: char): char {
    if Armed(seen) && Printable(c) && c != ' ' then '*' else c
  }

  lemma MaskedStep(done: string, seen: string, p: string, i: nat)
    requires i < |p|
    ensures done + Masked(seen, p[i..]) == (done + [MaskChar(seen, p[i])]) + Masked(seen + [p[i]], p[i + 1..])
  {
    assert p[i..][1..] == p[i + 1..];
  }

  lemma Finish(before: string, p: string, out: string)
    ensures before + p[..|p|] == before + p && out + Masked(before + p[..|p|], p[|p|..]) == out
  {
    assert p[..|p|] == p;
  }

  lemma TakeOneMore(before: string, p: string, i: nat)
    requires i < |p|
    ensures before + p[..i] + [p[i]] == before + p[..i + 1]
  {
  }

  /** Chunking does not matter. */
  lemma {:induction false} MaskedConcat(seen: string, p: string, q: string)
    ensures Masked(seen, p + q) == Masked(seen, p) + Masked(seen + p, q)
    decreases |p|
  {
    if p == "" {
      assert p + q == q && seen + p == seen;
    } else {
      assert (p + q)[0] == p[0] && (p + q)[1..] == p[1..] + q;
      MaskedConcat(seen + [p[0]], p[1..], q);
      assert seen + [p[0]] + p[1..] == seen + p;
    }
  }

  /** The byte before position j completed a prompt, and its line has not ended since. */
  predicate PromptAt(seen: string, j: nat) {
    0 < j <= |seen| && EndsWithPrompt(seen[..j]) && NoBreak(seen[j - 1..])
  }

  lemma PromptAtEarlier(seen: string, j: nat)
    requires j < |seen|
    ensures PromptAt(seen, j) <==> PromptAt(seen[..|seen| - 1], j) && !LineBreak(seen[|seen| - 1])
  {
    var init := seen[..|seen| - 1];
    assert seen[..j] == init[..j];
    if j > 0 {
      NoBreakSnoc(init[j - 1..], seen[|seen| - 1]);
      assert seen[j - 1..] == init[j - 1..] + [seen[|seen| - 1]];
    }
  }

  lemma NoBreakSnoc(s: string, c: char)
    ensures NoBreak(s + [c]) <==> NoBreak(s) && !LineBreak(c)
  {
    assert (s + [c])[|s|] == c;
    assert forall i | 0 <= i < |s| :: (s + [c])[i] == s[i];
  }

  lemma PromptAtEnd(seen: string)
    requires seen != ""
    ensures PromptAt(seen, |seen|) <==> EndsWithPrompt(seen) && !LineBreak(seen[|seen| - 1])
  {
    assert seen[..|seen|] == seen;
    assert seen[|seen| - 1..] == [seen[|seen| - 1]];
  }

  /** Armed, said without recursion: some byte of the current line completed a prompt. */
  lemma {:induction false} ArmedByPromptOnLine(seen: string)
    ensures Armed(seen) <==> exists j: nat | j <= |seen| :: PromptAt(seen, j)
    decreases |seen|
  {
    if seen != "" {
      var init := seen[..|seen| - 1];
      ArmedByPromptOnLine(init);
      PromptAtEnd(seen);
      forall j: nat | j < |seen| ensures PromptAt(seen, j) <==> PromptAt(init, j) && !LineBreak(seen[|seen| - 1]) {
        PromptAtEarlier(seen, j);
      }
    }
  }

  /** The streaming masker against the whole-line specification: a byte becomes a star exactly when it is
      printable, not blank, and an earlier byte of its line, in this chunk or an earlier one, completed a prompt. */
  lemma StarredExactlyAfterPrompt(before: string, p: string, i: nat)
    requires i < |p|
    ensures var earlier := (before + p)[..|before| + i];
            Masked(before, p)[i] ==
            if Printable(p[i]) && p[i] != ' ' && exists j: nat | j <= |earlier| :: PromptAt(earlier, j) then '*' else p[i]
  {
    MaskedAt(before, p, i);
    ArmedByPromptOnLine((before + p)[..|before| + i]);
  }

  // ---------------------------------------------------------------- the same, letter by letter

  predicate SmallOrColon(w: string) {
    w != "" && w[|w| - 1] == ':' && forall m | 0 <= m < |w| :: 'a' <= w[m] <= 'z' || w[m] == ':'
  }

  lemma LetterInAnyCase(c: char, w: char)
    requires 'a' <= w <= 'z' || w == ':'
    ensures LowerChar(c) == w <==> c == w || ('a' <= w <= 'z' && c as int == w as int - 32)
  {
  }

  lemma SuffixByBytes(s: string, w: string)
    ensures HasSuffix(s, w) <==> |w| <= |s| && forall m | 0 <= m < |w| :: s[|s| - |w| + m] == w[m]
  {
    if |w| <= |s| {
      var tail := s[|s| - |w|..];
      assert forall m | 0 <= m < |w| :: tail[m] == s[|s| - |w| + m];
      assert tail == w <==> forall m | 0 <= m < |w| :: tail[m] == w[m];
    }
  }

  lemma SuffixInAnyCase(s: string, w: string)
    requires SmallOrColon(w)
    ensures HasSuffix(Lower(s), w) <==>
            && |w| <= |s|
            && forall m | 0 <= m < |w| ::
                 var c := s[|s| - |w| + m];
                 c == w[m] || ('a' <= w[m] <= 'z' && c as int == w[m] as int - 32)
  {
    SuffixByBytes(Lower(s), w);
    if |w| <= |s| {
      forall m | 0 <= m < |w|
        ensures Lower(s)[|s| - |w| + m] == w[m] <==>
                var c := s[|s| - |w| + m];
                c == w[m] || ('a' <= w[m] <= 'z' && c as int == w[m] as int - 32)
      {
        LetterInAnyCase(s[|s| - |w| + m], w[m]);
      }
    }
  }

  lemma PromptWordsAre(k: nat)
    requires k < |PROMPTS|
    ensures SmallOrColon(PROMPTS[k])
  {
    assert SmallOrColon("password:") && SmallOrColon("passphrase:") && SmallOrColon("secret:");
  }

  lemma EndsInColon(s: string)
    requires EndsWithPrompt(s)
    ensures s != "" && s[|s| - 1] == ':'
  {
    var k :| 0 <= k < |PROMPTS| && HasSuffix(Lower(s), PROMPTS[k]);
    PromptWordsAre(k);
    SuffixInAnyCase(s, PROMPTS[k]);
    assert s[|s| - |PROMPTS[k]| + (|PROMPTS[k]| - 1)] == ':';
  }

  lemma NoBreakBehind(seen: string, j: nat)
    requires 0 < j <= |seen| && !LineBreak(seen[j - 1])
    ensures NoBreak(seen[j - 1..]) <==> forall k | j <= k < |seen| :: seen[k] != '\r' && seen[k] != '\n'
  {
    assert forall k | j - 1 <= k < |seen| :: seen[k] == seen[j - 1..][k - (j - 1)];
  }

  lemma PromptAtMeans(seen: string, j: nat)
    requires j <= |seen|
    ensures PromptAt(seen, j) <==>
            EndsWithPrompt(seen[..j]) && forall k | j <= k < |seen| :: seen[k] != '\r' && seen[k] != '\n'
  {
    if EndsWithPrompt(seen[..j]) {
      EndsInColon(seen[..j]);
      NoBreakBehind(seen, j);
    }
  }

  lemma SpelledWhenArmed(seen: string, j: nat, words: seq<string>) returns (n: nat)
    requires j <= |seen| && PromptAt(seen, j) && words == PROMPTS
    ensures forall k | j <= k < |seen| :: seen[k] != '\r' && seen[k] != '\n'
    ensures n < |words| && |words[n]| <= |seen[..j]|
    ensures forall m | 0 <= m < |words[n]| ::
              var c := seen[..j][|seen[..j]| - |words[n]| + m];
              c == words[n][m] || ('a' <= words[n][m] <= 'z' && c as int == words[n][m] as int - 32)
  {
    PromptAtMeans(seen, j);
    n :| n < |words| && HasSuffix(Lower(seen[..j]), words[n]);
    PromptWordsAre(n);
    SuffixInAnyCase(seen[..j], words[n]);
  }

  lemma ArmedWhenSpelled(seen: string, j: nat, words: seq<string>, n: nat)
    requires j <= |seen| && (forall k | j <= k < |seen| :: seen[k] != '\r' && seen[k] != '\n')
    requires words == PROMPTS && n < |words| && |words[n]| <= |seen[..j]|
    requires forall m | 0 <= m < |words[n]| ::
               var c := seen[..j][|seen[..j]| - |words[n]| + m];
               c == words[n][m] || ('a' <= words[n][m] <= 'z' && c as int == words[n][m] as int - 32)
    ensures PromptAt(seen, j)
  {
    PromptWordsAre(n);
    SuffixInAnyCase(seen[..j], words[n]);
    PromptAtMeans(seen, j);
  }

  /** The streaming masker, in the letters of the stream.  A byte that does not come out as it was is a star in place of
      a printable byte that is not blank, and one of three words ends before it on its line, each letter small or
      capital. */
  lemma StarredOnlyAfterPrompt(before: string, p: string, i: nat, earlier: string, words: seq<string>)
    returns (j: nat, n: nat)
    requires i < |p| && earlier == (before + p)[..|before| + i]
    requires words == ["password:", "passphrase:", "secret:"]
    requires Masked(before, p)[i] != p[i]
    ensures Masked(before, p)[i] == '*' && ' ' < p[i] <= '~'
    ensures j <= |earlier| && forall k | j <= k < |earlier| :: earlier[k] != '\r' && earlier[k] != '\n'
    ensures n < |words| && |words[n]| <= |earlier[..j]|
    ensures forall m | 0 <= m < |words[n]| ::
              var c := earlier[..j][|earlier[..j]| - |words[n]| + m];
              c == words[n][m] || ('a' <= words[n][m] <= 'z' && c as int == words[n][m] as int - 32)
  {
    MaskedAt(before, p, i);
    ArmedByPromptOnLine(earlier);
    j :| j <= |earlier| && PromptAt(earlier, j);
    n := SpelledWhenArmed(earlier, j, words);
  }

  /** The converse: behind such a word, to the end of the line, every printable byte that is not blank is a star. */
  lemma StarredAfterPrompt(before: string, p: string, i: nat, earlier: string, words: seq<string>, j: nat, n: nat)
    requires i < |p| && earlier == (before + p)[..|before| + i]
    requires words == ["password:", "passphrase:", "secret:"]
    requires j <= |earlier| && forall k | j <= k < |earlier| :: earlier[k] != '\r' && earlier[k] != '\n'
    requires n < |words| && |words[n]| <= |earlier[..j]|
    requires forall m | 0 <= m < |words[n]| ::
               var c := earlier[..j][|earlier[..j]| - |words[n]| + m];
               c == words[n][m] || ('a' <= words[n][m] <= 'z' && c as int == words[n][m] as int - 32)
    ensures Masked(before, p)[i] == if ' ' < p[i] <= '~' then '*' else p[i]
  {
    MaskedAt(before, p, i);
    ArmedWhenSpelled(earlier, j, words, n);
    ArmedByPromptOnLine(earlier);
  }

  // ---------------------------------------------------------------- the window

  function CurrentLine(s: string): string {
    if s == "" || LineBreak(s[|s| - 1]) then "" else CurrentLine(s[..|s| - 1]) + [s[|s| - 1]]
  }

  lemma {:induction false} CurrentLineIsTail(s: string)
    ensures var line := CurrentLine(s);
            && |line| <= |s| && line == s[|s| - |line|..]
            && (|line| < |s| ==> LineBreak(s[|s| - |line| - 1]))
    decreases |s|
  {
    if s != "" && !LineBreak(s[|s| - 1]) {
      var init := s[..|s| - 1];
      CurrentLineIsTail(init);
      assert s == init + [s[|s| - 1]];
    }
  }

  function Tail(s: string): (t: string)
    ensures |t| <= WINDOW && |t| <= |s|
  {
    if |s| > WINDOW then s[|s| - WINDOW..] else s
  }

  lemma DropDrop(s: string, a: nat, b: nat)
    requires a + b <= |s|
    ensures s[a..][b..] == s[a + b..]
  {
  }

  lemma LowerDrop(s: string, k: nat)
    requires k <= |s|
    ensures Lower(s[k..]) == Lower(s)[k..]
  {
  }

  /** The window is the end of the text. */
  lemma WindowIsTail(s: string, line: string, t: string)
    requires |line| <= |s| && line == s[|s| - |line|..] && t == Tail(line)
    ensures |t| <= |s| && Lower(t) == Lower(s)[|s| - |t|..]
  {
    DropDrop(s, |s| - |line|, |line| - |t|);
    LowerDrop(s, |s| - |t|);
  }

  lemma SuffixFromWindow(s: string, t: string, suffix: string)
    requires |t| <= |s| && t == s[|s| - |t|..]
    ensures HasSuffix(t, suffix) ==> HasSuffix(s, suffix)
    ensures |suffix| <= |t| && HasSuffix(s, suffix) ==> HasSuffix(t, suffix)
  {
    if |suffix| <= |t| {
      assert t[|t| - |suffix|..] == s[|s| - |suffix|..];
    }
  }

  /** A suffix without line breaks cannot reach back over one. */
  lemma SuffixStopsAtBreak(low: string, suffix: string, k: nat)
    requires k < |low| && LineBreak(low[k]) && NoBreak(suffix) && HasSuffix(low, suffix)
    ensures |suffix| < |low| - k
  {
    var from := |low| - |suffix|;
    assert forall i | from <= i < |low| :: low[i] == suffix[i - from];
  }

  lemma WindowHolds(s: string, line: string, suffix: string)
    requires |line| <= |s| && (|line| < |s| ==> LineBreak(s[|s| - |line| - 1]))
    requires NoBreak(suffix) && HasSuffix(Lower(s), suffix)
    ensures |suffix| <= |line|
  {
    if |line| < |s| {
      assert LineBreak(Lower(s)[|s| - |line| - 1]);
      SuffixStopsAtBreak(Lower(s), suffix, |s| - |line| - 1);
    }
  }

  lemma SuffixInLine(s: string, line: string, t: string, suffix: string)
    requires |line| <= |s| && line == s[|s| - |line|..] && (|line| < |s| ==> LineBreak(s[|s| - |line| - 1]))
    requires NoBreak(suffix) && |suffix| <= WINDOW && t == Tail(line)
    ensures HasSuffix(Lower(s), suffix) <==> HasSuffix(Lower(t), suffix)
  {
    WindowIsTail(s, line, t);
    if HasSuffix(Lower(s), suffix) {
      WindowHolds(s, line, suffix);
    }
    SuffixFromWindow(Lower(s), Lower(t), suffix);
  }

  lemma PromptWords(k: nat)
    requires k < |PROMPTS|
    ensures NoBreak(PROMPTS[k]) && |PROMPTS[k]| <= WINDOW
  {
    assert NoBreak("password:") && NoBreak("passphrase:") && NoBreak("secret:");
  }

  lemma LineSuffices(s: string, line: string)
    requires |line| <= |s| && line == s[|s| - |line|..] && (|line| < |s| ==> LineBreak(s[|s| - |line| - 1]))
    ensures EndsWithPrompt(s) <==> EndsWithPrompt(Tail(line))
  {
    forall k | 0 <= k < |PROMPTS| ensures HasSuffix(Lower(s), PROMPTS[k]) <==> HasSuffix(Lower(Tail(line)), PROMPTS[k]) {
      PromptWords(k);
      SuffixInLine(s, line, Tail(line), PROMPTS[k]);
    }
  }

  /** The window sees every prompt the whole stream sees. */
  lemma WindowSuffices(s: string)
    ensures EndsWithPrompt(s) <==> EndsWithPrompt(Tail(CurrentLine(s)))
  {
    CurrentLineIsTail(s);
    LineSuffices(s, CurrentLine(s));
  }

  /** How one more byte changes what is armed. */
  lemma ArmedStep(seen: string, b: char)
    ensures Armed(seen + [b]) <==> !LineBreak(b) && (Armed(seen) || EndsWithPrompt(seen + [b]))
  {
    assert (seen + [b])[..|seen|] == seen;
  }

  lemma LineStep(seen: string, b: char)
    ensures CurrentLine(seen + [b]) == if LineBreak(b) then "" else CurrentLine(seen) + [b]
  {
    assert (seen + [b])[..|seen|] == seen;
  }

  lemma TailStep(line: string, b: char)
    ensures Tail(line + [b]) == Tail(Tail(line) + [b])
  {
  }

  /** The window and the flag describe the stream. */
  ghost predicate Tracks(seen: string, downBuf: string, downMasking: bool) {
    downMasking == Armed(seen) && (!downMasking ==> downBuf == Tail(CurrentLine(seen)))
  }

  /** What one more byte makes of the window and the flag. */
  function Next(downBuf: string, downMasking: bool, b: char): (string, bool) {
    if LineBreak(b) then ("", false)
    else if downMasking then (downBuf, true)
    else (Tail(downBuf + [b]), EndsWithPrompt(Tail(downBuf + [b])))
  }

  lemma NextTracks(seen: string, downBuf: string, downMasking: bool, b: char)
    requires Tracks(seen, downBuf, downMasking)
    ensures Tracks(seen + [b], Next(downBuf, downMasking, b).0, Next(downBuf, downMasking, b).1)
  {
    ArmedStep(seen, b);
    LineStep(seen, b);
    TailStep(CurrentLine(seen), b);
    WindowSuffices(seen + [b]);
  }

  // ---------------------------------------------------------------- known secrets

  function Stars(n: nat): (s: string)
    ensures |s| == n && forall i | 0 <= i < n :: s[i] == '*'
  {
    seq(n, _ => '*')
  }

  /** Every non-overlapping occurrence, leftmost first, replaced by as many stars. */
  function ReplaceAll(s: string, secret: string): (r: string)
    requires secret != ""
    ensures |r| == |s|
    decreases |s|
  {
    if s == "" then ""
    else if secret <= s then Stars(|secret|) + ReplaceAll(s[|secret|..], secret)
    else [s[0]] + ReplaceAll(s[1..], secret)
  }

  predicate OccursAt(s: string, x: string, k: nat) {
    k + |x| <= |s| && s[k..k + |x|] == x
  }

  predicate Contains(s: string, x: string) {
    exists k: nat | k <= |s| :: OccursAt(s, x, k)
  }

  lemma ContainsMeans(s: string, x: string)
    ensures Contains(s, x) <==> exists a, b :: s == a + x + b
  {
    if k: nat :| k <= |s| && OccursAt(s, x, k) {
      assert s == s[..k] + x + s[k + |x|..];
    }
    forall a, b | s == a + x + b ensures Contains(s, x) {
      assert s[|a|..|a| + |x|] == x;
      assert OccursAt(s, x, |a|);
    }
  }

  /** The same text with some bytes turned into stars. */
  predicate Redaction(s: string, r: string) {
    |r| == |s| && forall i | 0 <= i < |s| :: r[i] == s[i] || r[i] == '*'
  }

  lemma RedactionHides(s: string, r: string, x: string)
    requires Redaction(s, r) && '*' !in x && !Contains(s, x)
    ensures !Contains(r, x)
  {
    forall k: nat | k <= |r| ensures !OccursAt(r, x, k) {
      if OccursAt(r, x, k) && x != "" {
        FoundIsOriginal(s, r, x, k);
      } else if x == "" {
        assert OccursAt(s, x, 0);
      }
    }
  }

  lemma {:induction false} ReplaceIsRedaction(s: string, secret: string)
    requires secret != ""
    ensures Redaction(s, ReplaceAll(s, secret))
    decreases |s|
  {
    if s == "" {
    } else if secret <= s {
      ReplaceIsRedaction(s[|secret|..], secret);
    } else {
      ReplaceIsRedaction(s[1..], secret);
    }
  }

  lemma OccursBehind(s: string, x: string, cut: nat, i: nat)
    requires cut <= i < |s| && exists k | 0 <= k <= i - cut < k + |x| :: x <= s[cut..][k..]
    ensures exists k | 0 <= k <= i < k + |x| :: x <= s[k..]
  {
    var k :| 0 <= k <= i - cut < k + |x| && x <= s[cut..][k..];
    assert s[cut + k..] == s[cut..][k..];
  }

  /** Redaction changes a byte only into a star, and only inside an occurrence of the secret. */
  lemma {:induction false} StarredInsideSecret(s: string, x: string, i: nat)
    requires x != "" && i < |s|
    ensures ReplaceAll(s, x)[i] == s[i] || ReplaceAll(s, x)[i] == '*'
    ensures ReplaceAll(s, x)[i] != s[i] ==> exists k | 0 <= k <= i < k + |x| :: x <= s[k..]
    decreases |s|
  {
    var cut := if x <= s then |x| else 1;
    if i >= cut {
      StarredInsideSecret(s[cut..], x, i - cut);
      if ReplaceAll(s, x)[i] != s[i] {
        OccursBehind(s, x, cut, i);
      }
    } else if x <= s {
      assert s[0..] == s;
    }
  }

  lemma FoundIsOriginal(s: string, r: string, x: string, k: nat)
    requires Redaction(s, r) && '*' !in x && x != "" && OccursAt(r, x, k)
    ensures OccursAt(s, x, k) && r[k] != '*'
  {
    forall i | 0 <= i < |x| ensures s[k + i] == x[i] == r[k + i] && r[k + i] != '*' {
      assert r[k + i] == r[k..k + |x|][i];
      assert x[i] in x;
    }
    assert r[k + 0] != '*';
  }

  /** What is left of a text too short to hold the secret. */
  lemma {:induction false} TooShort(s: string, secret: string)
    requires secret != "" && |s| < |secret|
    ensures ReplaceAll(s, secret) == s
    decreases |s|
  {
    if s != "" {
      TooShort(s[1..], secret);
    }
  }

  /** A beginning that does not end in a star was there before. */
  lemma {:induction false} BeginningIsOriginal(s: string, secret: string, t: string)
    requires secret != "" && 0 < |t| <= |secret| && t[|t| - 1] != '*' && t <= ReplaceAll(s, secret)
    ensures t <= s
    decreases |t|
  {
    var r := ReplaceAll(s, secret);
    assert t[|t| - 1] == r[|t| - 1];
    if !(secret <= s) && |t| > 1 {
      assert r[1..] == ReplaceAll(s[1..], secret);
      BeginningIsOriginal(s[1..], secret, t[1..]);
      assert t == [t[0]] + t[1..] && s == [s[0]] + s[1..];
    }
  }

  predicate StarAtAnEnd(x: string)
    requires x != ""
  {
    x[0] == '*' || x[|x| - 1] == '*'
  }

  lemma OccursLater(r: string, x: string, cut: nat, k: nat)
    requires cut <= k && OccursAt(r, x, k)
    ensures OccursAt(r[cut..], x, k - cut)
  {
    assert r[cut..][k - cut..k - cut + |x|] == r[k..k + |x|];
  }

  /** A secret with no star at either end is gone afterwards. */
  lemma {:induction false} ReplaceHides(s: string, secret: string)
    requires secret != "" && !StarAtAnEnd(secret)
    ensures !Contains(ReplaceAll(s, secret), secret)
    decreases |s|
  {
    var r := ReplaceAll(s, secret);
    var cut := if s == "" then 0 else if secret <= s then |secret| else 1;
    if s != "" {
      ReplaceHides(s[cut..], secret);
      assert r[cut..] == ReplaceAll(s[cut..], secret);
    }
    forall k: nat | k <= |r| ensures !OccursAt(r, secret, k) {
      if OccursAt(r, secret, k) {
        if k >= cut {
          OccursLater(r, secret, cut, k);
        } else {
          NotAtTheCut(s, secret, k);
        }
      }
    }
  }

  lemma NotAtTheCut(s: string, secret: string, k: nat)
    requires secret != "" && !StarAtAnEnd(secret) && s != ""
    requires k < (if secret <= s then |secret| else 1)
    ensures !OccursAt(ReplaceAll(s, secret), secret, k)
  {
    var r := ReplaceAll(s, secret);
    if OccursAt(r, secret, k) {
      assert r[k] == r[k..k + |secret|][0] == secret[0];
      if !(secret <= s) {
        assert secret == r[..|secret|];
        BeginningIsOriginal(s, secret, secret);
      }
    }
  }

  /** Nowhere within the head of this text does the word begin. */
  predicate BeginsNowhere(x: string, head: string, s: string) {
    forall j | 0 <= j < |head| :: !(x <= (head + s)[j..])
  }

  /** As long as the secret does not begin, the text goes through. */
  lemma {:induction false} ReplaceSkips(head: string, s: string, secret: string)
    requires secret != "" && BeginsNowhere(secret, head, s)
    ensures ReplaceAll(head + s, secret) == head + ReplaceAll(s, secret)
    decreases |head|
  {
    if head == "" {
      assert head + s == s;
    } else {
      var t := head + s;
      assert t[0..] == t && t[1..] == head[1..] + s && t[0] == head[0];
      forall j | 0 <= j < |head[1..]| ensures !(secret <= (head[1..] + s)[j..]) {
        assert (head[1..] + s)[j..] == t[j + 1..];
      }
      ReplaceSkips(head[1..], s, secret);
    }
  }

  /** Begun by a star, the secret survives in itself followed by its tail. */
  lemma LeadingStarSurvives(x: string)
    requires x != "" && x[0] == '*'
    ensures Contains(ReplaceAll(x + x[1..], x), x)
  {
    var s := x + x[1..];
    var r := ReplaceAll(s, x);
    assert s[|x|..] == x[1..];
    TooShort(x[1..], x);
    assert r == Stars(|x|) + x[1..];
    assert r[|x| - 1..|x| - 1 + |x|] == x;
    assert OccursAt(r, x, |x| - 1);
  }

  lemma NoEarlierOccurrence(x: string, j: nat)
    requires x != "" && x[0] != '*' && x[|x| - 1] == '*' && j < |x| - 1
    ensures !(x <= (x[..|x| - 1] + x)[j..])
  {
    var t := (x[..|x| - 1] + x)[j..];
    assert t[0] == x[j] && t[|x| - 1] == x[j];
  }

  lemma NothingEarlier(x: string)
    requires x != "" && x[0] != '*' && x[|x| - 1] == '*'
    ensures BeginsNowhere(x, x[..|x| - 1], x)
  {
    var front := x[..|x| - 1];
    forall j | 0 <= j < |front| ensures !(x <= (front + x)[j..]) {
      NoEarlierOccurrence(x, j);
    }
  }

  lemma WholeIsStarred(x: string)
    requires x != ""
    ensures ReplaceAll(x, x) == Stars(|x|)
  {
    assert x[|x|..] == "";
  }

  lemma FrontAndStars(x: string)
    requires x != "" && x[|x| - 1] == '*'
    ensures Contains(x[..|x| - 1] + Stars(|x|), x)
  {
    var r := x[..|x| - 1] + Stars(|x|);
    assert r[0..|x|] == x;
    assert OccursAt(r, x, 0);
  }

  /** Ended by a star only, the secret survives in its front followed by itself. */
  lemma TrailingStarSurvives(x: string)
    requires x != "" && x[0] != '*' && x[|x| - 1] == '*'
    ensures Contains(ReplaceAll(x[..|x| - 1] + x, x), x)
  {
    NothingEarlier(x);
    ReplaceSkips(x[..|x| - 1], x, x);
    WholeIsStarred(x);
    FrontAndStars(x);
  }

  /** No text keeps the secret through its own redaction. */
  ghost predicate AlwaysRemoved(x: string)
    requires x != ""
  {
    forall s :: !Contains(ReplaceAll(s, x), x)
  }

  /** Redaction removes a secret from every text exactly when the secret neither begins nor ends with a star. */
  lemma RedactionRemovesExactly(x: string)
    requires x != ""
    ensures AlwaysRemoved(x) <==> !StarAtAnEnd(x)
  {
    if x[0] == '*' {
      LeadingStarSurvives(x);
    } else if x[|x| - 1] == '*' {
      TrailingStarSurvives(x);
    } else {
      forall s ensures !Contains(ReplaceAll(s, x), x) {
        ReplaceHides(s, x);
      }
    }
  }

  // ---------------------------------------------------------------- two secrets, one after the other

  /** One round of the loop over the known secrets; an empty one is skipped. */
  function Round(s: string, x: string): (r: string)
    ensures |r| == |s|
  {
    if x == "" then s else ReplaceAll(s, x)
  }

  function TwoRounds(s: string, e: string, p: string): (r: string)
    ensures |r| == |s|
  {
    Round(Round(s, e), p)
  }

  /** Within e, stars stand where the leftmost p of a text that is otherwise e would be starred. */
  predicate CompletesAt(e: string, p: string, i: nat) {
    i + |p| <= |e| && e[i..i + |p|] == Stars(|p|) && BeginsNowhere(p, e[..i], p)
  }

  /** Starring p can complete e, which does not hold p itself. */
  predicate Completable(e: string, p: string) {
    !Contains(e, p) && exists i | 0 <= i <= |e| :: CompletesAt(e, p, i)
  }

  lemma {:induction false} Untouched(s: string, x: string)
    requires x != "" && !Contains(s, x)
    ensures ReplaceAll(s, x) == s
    decreases |s|
  {
    if s != "" {
      if x <= s {
        assert OccursAt(s, x, 0);
      }
      TailHasNone(s, x, 1);
      Untouched(s[1..], x);
    }
  }

  lemma TailHasNone(s: string, x: string, cut: nat)
    requires cut <= |s| && !Contains(s, x)
    ensures !Contains(s[cut..], x)
  {
    if k: nat :| k <= |s[cut..]| && OccursAt(s[cut..], x, k) {
      OccursAfter(s, x, cut, k);
    }
  }

  lemma OccursAfter(s: string, x: string, cut: nat, k: nat)
    requires cut <= |s| && OccursAt(s[cut..], x, k)
    ensures OccursAt(s, x, cut + k) && Contains(s, x)
  {
    assert s[cut + k..cut + k + |x|] == s[cut..][k..k + |x|];
    assert OccursAt(s, x, cut + k);
  }

  lemma SameLengthUntouched(s: string, x: string)
    requires x != "" && |s| == |x| && s != x
    ensures ReplaceAll(s, x) == s
  {
    TooShort(s[1..], x);
  }

  lemma ReplaceHead(tail: string, x: string)
    requires x != ""
    ensures ReplaceAll(x + tail, x) == Stars(|x|) + ReplaceAll(tail, x)
  {
    assert (x + tail)[|x|..] == tail;
  }

  /** In front of the completing place p does not begin, whatever follows it. */
  lemma NoEarlierStart(e: string, p: string, i: nat, tail: string)
    requires CompletesAt(e, p, i)
    ensures BeginsNowhere(p, e[..i], p + tail)
  {
    var head := e[..i];
    forall m | 0 <= m < |head| ensures !(p <= (head + (p + tail))[m..]) {
      assert (head + p)[m..][..|p|] == (head + (p + tail))[m..][..|p|];
      assert !(p <= (head + p)[m..]);
    }
  }

  lemma TailUntouched(e: string, p: string, cut: nat)
    requires p != "" && cut <= |e| && !Contains(e, p)
    ensures ReplaceAll(e[cut..], p) == e[cut..]
  {
    TailHasNone(e, p, cut);
    Untouched(e[cut..], p);
  }

  /** The text that is e but for the p that stands at the completing place. */
  function Incomplete(e: string, p: string, i: nat): string
    requires i + |p| <= |e|
  {
    e[..i] + (p + e[i + |p|..])
  }

  lemma FirstRoundPasses(e: string, p: string, i: nat)
    requires e != "" && p != "" && !StarAtAnEnd(p) && CompletesAt(e, p, i)
    ensures ReplaceAll(Incomplete(e, p, i), e) == Incomplete(e, p, i)
  {
    assert Incomplete(e, p, i)[i] == p[0] && e[i] == e[i..i + |p|][0] == '*';
    SameLengthUntouched(Incomplete(e, p, i), e);
  }

  lemma StarredBetween(head: string, p: string, tail: string)
    requires p != "" && BeginsNowhere(p, head, p + tail) && ReplaceAll(tail, p) == tail
    ensures ReplaceAll(head + (p + tail), p) == head + (Stars(|p|) + tail)
  {
    ReplaceSkips(head, p + tail, p);
    ReplaceHead(tail, p);
  }

  lemma PutTogether(e: string, i: nat, j: nat)
    requires i <= j <= |e|
    ensures e[..i] + (e[i..j] + e[j..]) == e
  {
  }

  lemma SecondRoundCompletes(e: string, p: string, i: nat, head: string, tail: string)
    requires p != "" && i + |p| <= |e| && head == e[..i] && tail == e[i + |p|..] && e[i..i + |p|] == Stars(|p|)
    requires BeginsNowhere(p, head, p + tail) && ReplaceAll(tail, p) == tail
    ensures ReplaceAll(head + (p + tail), p) == e
  {
    StarredBetween(head, p, tail);
    PutTogether(e, i, i + |p|);
  }

  /** It comes out as e. */
  lemma CompletionSurvives(e: string, p: string, i: nat)
    requires e != "" && p != "" && !StarAtAnEnd(p) && !Contains(e, p) && CompletesAt(e, p, i)
    ensures TwoRounds(Incomplete(e, p, i), e, p) == e
  {
    FirstRoundPasses(e, p, i);
    NoEarlierStart(e, p, i, e[i + |p|..]);
    TailUntouched(e, p, i + |p|);
    SecondRoundCompletes(e, p, i, e[..i], e[i + |p|..]);
  }

  /** "axb" shows "a*b" when "x" is starred after it: a secret with no star at either end. */
  lemma CompletedSecret()
    ensures TwoRounds("axb", "a*b", "x") == "a*b" && !StarAtAnEnd("a*b") && !StarAtAnEnd("x")
  {
    var e, p := "a*b", "x";
    assert p[0] == 'x' && e[0] == 'a' && e[1] == '*' && e[2] == 'b';
    forall k: nat | k <= |e| ensures !OccursAt(e, p, k) {
      if k < |e| {
        assert e[k..k + 1][0] == e[k];
      }
    }
    assert (e[..1] + p)[0..][0] == 'a' && e[1..2] == Stars(1);
    assert CompletesAt(e, p, 1);
    CompletionSurvives(e, p, 1);
    assert Incomplete(e, p, 1) == "axb";
  }

  /** In u, stars stand where the text t has its leftmost p, and all before is alike. */
  predicate StarredFirst(t: string, p: string, u: string, i: nat) {
    && i + |p| <= |u| && i + |p| <= |t| && u[i..i + |p|] == Stars(|p|)
    && t[..i] == u[..i] && t[i..i + |p|] == p
    && forall m | 0 <= m < i :: !(p <= t[m..])
  }

  lemma SliceFrom(s: string, i: nat, n: nat)
    requires i + n <= |s|
    ensures s[i..][..n] == s[i..i + n]
  {
  }

  lemma SliceOfTail(s: string, k: nat, n: nat)
    requires s != "" && k + n <= |s[1..]|
    ensures s[k + 1..k + 1 + n] == s[1..][k..k + n]
    ensures s[..k + 1] == [s[0]] + s[1..][..k]
  {
    assert s[1..][k..] == s[k + 1..];
    SliceFrom(s[1..], k, n);
    SliceFrom(s, k + 1, n);
    assert s == [s[0]] + s[1..];
  }

  lemma StarredFirstLater(t: string, p: string, u: string, k: nat)
    requires t != "" && u != "" && t[0] == u[0] && !(p <= t) && StarredFirst(t[1..], p, u[1..], k)
    ensures StarredFirst(t, p, u, k + 1)
  {
    SliceOfTail(u, k, |p|);
    SliceOfTail(t, k, |p|);
    forall m | 0 <= m < k + 1 ensures !(p <= t[m..]) {
      if m > 0 {
        assert t[m..] == t[1..][m - 1..];
      } else {
        assert t[0..] == t;
      }
    }
  }

  lemma StarredAtOnce(t: string, p: string, u: string)
    requires p != "" && p <= t && u != "" && u[|u| - 1] != '*' && u <= ReplaceAll(t, p)
    ensures StarredFirst(t, p, u, 0)
  {
    var r := ReplaceAll(t, p);
    assert u[|u| - 1] == r[|u| - 1];
    assert u[..|p|] == r[..|p|] == Stars(|p|);
  }

  /** Where a beginning of the starred text first differs from the text, p stood. */
  lemma {:induction false} FirstStarred(t: string, p: string, u: string) returns (i: nat)
    requires p != "" && u != "" && u[|u| - 1] != '*' && u <= ReplaceAll(t, p) && !(u <= t)
    ensures StarredFirst(t, p, u, i)
    decreases |u|
  {
    if p <= t {
      StarredAtOnce(t, p, u);
      i := 0;
    } else {
      RestDiffers(t, p, u);
      var k := FirstStarred(t[1..], p, u[1..]);
      StarredFirstLater(t, p, u, k);
      i := k + 1;
    }
  }

  lemma RestDiffers(t: string, p: string, u: string)
    requires p != "" && u != "" && u <= ReplaceAll(t, p) && !(u <= t) && !(p <= t)
    ensures t != "" && t[0] == u[0] && u[1..] <= ReplaceAll(t[1..], p) && !(u[1..] <= t[1..])
  {
    assert u[0] == ReplaceAll(t, p)[0];
    assert u == [u[0]] + u[1..] && t == [t[0]] + t[1..];
  }

  lemma BeginningCompletes(t: string, e: string, p: string)
    requires e != "" && p != "" && !StarAtAnEnd(e) && e <= ReplaceAll(t, p) && !(e <= t)
    ensures exists i | 0 <= i <= |e| :: CompletesAt(e, p, i)
  {
    var i := FirstStarred(t, p, e);
    var head := e[..i];
    forall m | 0 <= m < |head| ensures !(p <= (head + p)[m..]) {
      assert t[m..][..i + |p| - m] == (head + p)[m..];
      assert !(p <= t[m..]);
    }
    assert CompletesAt(e, p, i);
  }

  lemma PrefixOccurs(t: string, e: string)
    ensures e <= t ==> Contains(t, e)
  {
    if e <= t {
      assert OccursAt(t, e, 0);
    }
  }

  /** If starring p brings e into a text, it completes e. */
  lemma {:induction false} NewOccurrenceCompletes(t: string, e: string, p: string, k: nat)
    requires e != "" && p != "" && !StarAtAnEnd(e) && !Contains(t, e) && OccursAt(ReplaceAll(t, p), e, k)
    ensures exists i | 0 <= i <= |e| :: CompletesAt(e, p, i)
    decreases |t|
  {
    var r := ReplaceAll(t, p);
    var cut := if p <= t then |p| else 1;
    assert r[k] == r[k..k + |e|][0] == e[0];
    if k >= cut {
      var later: nat := k - cut;
      TailHasNone(t, e, cut);
      assert r[cut..] == ReplaceAll(t[cut..], p);
      OccursLater(r, e, cut, k);
      NewOccurrenceCompletes(t[cut..], e, p, later);
    } else {
      assert k == 0 && e == r[..|e|];
      PrefixOccurs(t, e);
      BeginningCompletes(t, e, p);
    }
  }

  lemma OccursWithin(r: string, e: string, p: string, k: nat, j: nat)
    requires OccursAt(r, e, k) && OccursAt(e, p, j)
    ensures Contains(r, p)
  {
    forall n | 0 <= n < |p| ensures r[k + j + n] == p[n] {
      assert p[n] == e[j..j + |p|][n] == e[j + n] == r[k..k + |e|][j + n];
    }
    assert r[k + j..k + j + |p|] == p;
    assert OccursAt(r, p, k + j);
  }

  lemma SurvivalCompletes(s: string, e: string, p: string)
    requires e != "" && p != "" && !StarAtAnEnd(e) && !StarAtAnEnd(p) && Contains(TwoRounds(s, e, p), e)
    ensures Completable(e, p)
  {
    var t := ReplaceAll(s, e);
    var r := ReplaceAll(t, p);
    ReplaceHides(s, e);
    ReplaceHides(t, p);
    var k: nat :| k <= |r| && OccursAt(r, e, k);
    if j: nat :| j <= |e| && OccursAt(e, p, j) {
      OccursWithin(r, e, p, k, j);
    }
    NewOccurrenceCompletes(t, e, p, k);
  }

  /** No text keeps either secret through both rounds. */
  ghost predicate BothAlwaysRemoved(e: string, p: string) {
    forall s :: !Contains(TwoRounds(s, e, p), e) && !Contains(TwoRounds(s, e, p), p)
  }

  /** Of two secrets with no star at either end, both are removed from every text, exactly unless starring the second
      can complete the first. */
  lemma TwoRoundsRemoveExactly(e: string, p: string)
    requires e != "" && p != "" && !StarAtAnEnd(e) && !StarAtAnEnd(p)
    ensures BothAlwaysRemoved(e, p) <==> !Completable(e, p)
  {
    if Completable(e, p) {
      var i :| 0 <= i <= |e| && CompletesAt(e, p, i);
      CompletionSurvives(e, p, i);
      assert OccursAt(e, e, 0);
      assert Contains(TwoRounds(Incomplete(e, p, i), e, p), e);
    } else {
      forall s ensures !Contains(TwoRounds(s, e, p), e) && !Contains(TwoRounds(s, e, p), p) {
        ReplaceHides(ReplaceAll(s, e), p);
        if Contains(TwoRounds(s, e, p), e) {
          SurvivalCompletes(s, e, p);
        }
      }
    }
  }

  // ---------------------------------------------------------------- the filter

  class Masker {
    const enableSecret: string
    const portalPassword: string
    var downBuf: string
    var downMasking: bool
    /** Everything the streaming stage has been given so far. */
    ghost var seen: string

    ghost predicate Valid()
      reads this
    {
      Tracks(seen, downBuf, downMasking)
    }

    constructor (enableSecret: string, portalPassword: string)
      ensures Valid() && seen == ""
      ensures this.enableSecret == enableSecret && this.portalPassword == portalPassword
    {
      this.enableSecret, this.portalPassword := enableSecret, portalPassword;
      downBuf, downMasking, seen := "", false, "";
    }

    /** A byte is starred exactly when the whole-stream specification stars it; nothing is added or dropped. */
    method StreamMaskPassword(p: string) returns (out: string)
      requires Valid()
      modifies this
      ensures Valid() && seen == old(seen) + p
      ensures out == Masked(old(seen), p)
    {
      out := "";
      ghost var before := seen;
      assert p[0..] == p && before + p[..0] == before;
      for i := 0 to |p|
        invariant Valid() && seen == before + p[..i]
        invariant Masked(before, p) == out + Masked(before + p[..i], p[i..])
      {
        MaskedStep(out, before + p[..i], p, i);
        TakeOneMore(before, p, i);
        var c := MaskOne(p[i]);
        Accept(p[i]);
        out := out + [c];
      }
      Finish(before, p, out);
    }

    function MaskOne(b: char): (c: char)
      requires Valid()
      reads this
      ensures c == MaskChar(seen, b)
    {
      if downMasking && Printable(b) && b != ' ' then '*' else b
    }

    /** The state update for one byte. */
    method Accept(b: char)
      requires Valid()
      modifies this
      ensures Valid() && seen == old(seen) + [b]
    {
      NextTracks(seen, downBuf, downMasking, b);
      Slide(b);
      seen := seen + [b];
    }

    method Slide(b: char)
      modifies `downBuf, `downMasking
      ensures (downBuf, downMasking) == Next(old(downBuf), old(downMasking), b)
    {
      if downMasking {
        if LineBreak(b) {
          downMasking := false;
          downBuf := "";
        }
      } else {
        downBuf := downBuf + [b];
        if |downBuf| > WINDOW {
          downBuf := downBuf[|downBuf| - WINDOW..];
        }
        if LineBreak(b) {
          downBuf := "";
        } else if EndsWithPrompt(downBuf) {
          downMasking := true;
        }
      }
    }

    /** The two secrets are starred one after the other, then the stream stage masks what is left.  So the chunk keeps
        its length, no byte is changed except into a star, and no star-free secret is in it. */
    method FilterDownstream(p: string) returns (out: string)
      requires Valid()
      modifies this
      ensures Valid() && seen == old(seen) + TwoRounds(p, TrimSpace(enableSecret), TrimSpace(portalPassword))
      ensures out == Masked(old(seen), TwoRounds(p, TrimSpace(enableSecret), TrimSpace(portalPassword)))
      ensures Redaction(p, out)
      ensures forall x | x in {TrimSpace(enableSecret), TrimSpace(portalPassword)} && x != "" && '*' !in x :: !Contains(out, x)
    {
      if |p| == 0 {
        EmptyContainsNothing(p);
        return p;
      }
      var text := Redact(p, TrimSpace(enableSecret));
      ghost var first := text;
      text := Redact(text, TrimSpace(portalPassword));
      out := StreamMaskPassword(text);
      MaskedIsRedaction(old(seen), text);
      BothHidden(p, first, text, out, TrimSpace(enableSecret), TrimSpace(portalPassword));
    }

    /** One round of the loop over the known secrets. */
    method Redact(p: string, secret: string) returns (text: string)
      ensures text == Round(p, secret) && Redaction(p, text)
      ensures secret != "" && !StarAtAnEnd(secret) ==> !Contains(text, secret)
    {
      if secret == "" {
        return p;
      }
      text := ReplaceAll(p, secret);
      ReplaceIsRedaction(p, secret);
      if !StarAtAnEnd(secret) {
        ReplaceHides(p, secret);
      }
    }
  }

  lemma {:induction false} MaskedIsRedaction(seen: string, p: string)
    ensures Redaction(p, Masked(seen, p))
    decreases |p|
  {
    if p != "" {
      MaskedIsRedaction(seen + [p[0]], p[1..]);
    }
  }

  lemma BothHidden(p: string, first: string, text: string, out: string, x: string, y: string)
    requires Redaction(p, first) && Redaction(first, text) && Redaction(text, out)
    requires x != "" && '*' !in x ==> !Contains(first, x)
    requires y != "" && '*' !in y ==> !Contains(text, y)
    ensures Redaction(p, out)
    ensures forall z | z in {x, y} && z != "" && '*' !in z :: !Contains(out, z)
  {
    if x != "" && '*' !in x {
      RedactionHides(first, text, x);
      RedactionHides(text, out, x);
    }
    if y != "" && '*' !in y {
      RedactionHides(text, out, y);
    }
  }

  lemma EmptyContainsNothing(p: string)
    requires p == ""
    ensures forall x: string | x != "" :: !Contains(p, x)
  {
  }
}
