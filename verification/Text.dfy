/** The string functions the policy code leans on, for ASCII text. */
module Text {

  predicate IsSpace(c: char) {
    c == ' ' || '\t' <= c <= '\r'
  }

  function LowerChar(c: char): char {
    if 'A' <= c <= 'Z' then (c as int + 32) as char else c
  }

  function Lower(s: string): (r: string)
    ensures |r| == |s|
    ensures forall i | 0 <= i < |s| :: r[i] == LowerChar(s[i])
  {
    seq(|s|, i requires 0 <= i < |s| => LowerChar(s[i]))
  }

  function TrimLeft(s: string): (r: string)
    ensures |r| <= |s|
    ensures r != "" ==> !IsSpace(r[0])
  {
    if s != "" && IsSpace(s[0]) then TrimLeft(s[1..]) else s
  }

  function TrimRight(s: string): (r: string)
    ensures |r| <= |s| && r == s[..|r|]
    ensures r != "" ==> !IsSpace(r[|r| - 1])
  {
    if s != "" && IsSpace(s[|s| - 1]) then TrimRight(s[..|s| - 1]) else s
  }

  function TrimSpace(s: string): string {
    TrimRight(TrimLeft(s))
  }

  function IndexOf(s: string, c: char): (i: nat)
    ensures i <= |s| && (i < |s| ==> s[i] == c) && forall k | 0 <= k < i :: s[k] != c
  {
    if s == "" || s[0] == c then 0 else 1 + IndexOf(s[1..], c)
  }

  /** The vendor root of a kind: what stands before its first hyphen, if anything does. */
  function FamilyOf(kind: string): (family: string)
    ensures (kind != "" && kind[0] == '-') || '-' !in kind ==> family == kind
    ensures kind != "" && kind[0] != '-' && '-' in kind ==> '-' !in family && family + "-" <= kind
  {
    var i := IndexOf(kind, '-');
    if 0 < i < |kind| then kind[..i] else kind
  }

  /** The length of the leading run of non-blanks. */
  function WordLen(s: string): (n: nat)
    ensures n <= |s|
    ensures forall i | 0 <= i < n :: !IsSpace(s[i])
    ensures n < |s| ==> IsSpace(s[n])
  {
    if s == "" || IsSpace(s[0]) then 0 else 1 + WordLen(s[1..])
  }

  /** The maximal runs of non-blanks, in order. */
  function Fields(s: string): seq<string>
    decreases |s|
  {
    if s == "" then []
    else if IsSpace(s[0]) then Fields(s[1..])
    else [s[..WordLen(s)]] + Fields(s[WordLen(s)..])
  }

  /** Nonempty and free of blanks. */
  predicate Word(w: string) {
    w != "" && forall i | 0 <= i < |w| :: !IsSpace(w[i])
  }

  predicate Words(ws: seq<string>) {
    forall i | 0 <= i < |ws| :: Word(ws[i])
  }

  predicate IsLower(s: string) {
    Lower(s) == s
  }

  predicate AllLower(ws: seq<string>) {
    forall i | 0 <= i < |ws| :: IsLower(ws[i])
  }

  /** The words with one space between neighbours. */
  function Join(ws: seq<string>): string {
    if ws == [] then "" else if |ws| == 1 then ws[0] else ws[0] + " " + Join(ws[1..])
  }

  function LowerWords(ws: seq<string>): (r: seq<string>)
    ensures |r| == |ws|
    ensures forall i | 0 <= i < |ws| :: r[i] == Lower(ws[i])
  {
    seq(|ws|, i requires 0 <= i < |ws| => Lower(ws[i]))
  }

  // ---------------------------------------------------------------- laws

  /** Lower-casing turns 'A' to 'Z' into 'a' to 'z' and leaves the rest. */
  lemma LowerMeans(s: string)
    ensures |Lower(s)| == |s|
    ensures forall i | 0 <= i < |s| ::
              if 'A' <= s[i] <= 'Z' then Lower(s)[i] as int == s[i] as int + 32 else Lower(s)[i] == s[i]
  {
  }

  lemma {:induction false} TrimLeftCuts(s: string)
    ensures |TrimLeft(s)| <= |s| && s[|s| - |TrimLeft(s)|..] == TrimLeft(s)
    ensures forall i | 0 <= i < |s| - |TrimLeft(s)| :: s[i] == ' ' || '\t' <= s[i] <= '\r'
  {
    if s != "" && IsSpace(s[0]) {
      TrimLeftCuts(s[1..]);
      forall i | 0 <= i < |s| - |TrimLeft(s)| ensures s[i] == ' ' || '\t' <= s[i] <= '\r' {
        if i > 0 {
          assert s[i] == s[1..][i - 1];
        }
      }
    }
  }

  lemma {:induction false} TrimRightCuts(s: string)
    ensures forall i | |TrimRight(s)| <= i < |s| :: s[i] == ' ' || '\t' <= s[i] <= '\r'
  {
    if s != "" && IsSpace(s[|s| - 1]) {
      var init := s[..|s| - 1];
      TrimRightCuts(init);
      forall i | |TrimRight(s)| <= i < |s| ensures s[i] == ' ' || '\t' <= s[i] <= '\r' {
        if i < |init| {
          assert s[i] == init[i];
        }
      }
    }
  }

  /** Trimming cuts white space off both ends, and all of it. */
  lemma TrimMeans(s: string)
    ensures exists i, j | 0 <= i <= j <= |s| ::
              && TrimSpace(s) == s[i..j]
              && (forall k | 0 <= k < i || j <= k < |s| :: s[k] == ' ' || '\t' <= s[k] <= '\r')
              && (i < j ==> !(s[i] == ' ' || '\t' <= s[i] <= '\r') && !(s[j - 1] == ' ' || '\t' <= s[j - 1] <= '\r'))
  {
    TrimLeftCuts(s);
    var t := TrimLeft(s);
    TrimRightCuts(t);
    var i := |s| - |t|;
    var j := i + |TrimRight(t)|;
    assert TrimSpace(s) == s[i..j];
    forall k | 0 <= k < i || j <= k < |s| ensures s[k] == ' ' || '\t' <= s[k] <= '\r' {
      if j <= k {
        assert s[k] == t[k - i];
      }
    }
  }

  lemma LowerTwice(s: string)
    ensures Lower(Lower(s)) == Lower(s)
  {
  }

  lemma {:induction false} FieldsAreWords(s: string)
    ensures Words(Fields(s))
    decreases |s|
  {
    if s == "" {
    } else if IsSpace(s[0]) {
      FieldsAreWords(s[1..]);
    } else {
      FieldsAreWords(s[WordLen(s)..]);
    }
  }

  lemma {:induction false} WordLenLower(s: string)
    ensures WordLen(Lower(s)) == WordLen(s)
  {
    if s != "" && !IsSpace(s[0]) {
      assert Lower(s)[1..] == Lower(s[1..]);
      WordLenLower(s[1..]);
    }
  }

  lemma {:induction false} FieldsLower(s: string)
    ensures Fields(Lower(s)) == LowerWords(Fields(s))
    decreases |s|
  {
    if s == "" {
    } else if IsSpace(s[0]) {
      assert Lower(s)[1..] == Lower(s[1..]);
      FieldsLower(s[1..]);
    } else {
      var n := WordLen(s);
      WordLenLower(s);
      assert Lower(s)[..n] == Lower(s[..n]) && Lower(s)[n..] == Lower(s[n..]);
      FieldsLower(s[n..]);
      assert LowerWords([s[..n]] + Fields(s[n..])) == [Lower(s[..n])] + LowerWords(Fields(s[n..]));
    }
  }

  /** Fields of a text that starts with a word and a blank, or is a word. */
  lemma FieldsOfWord(w: string, rest: string)
    requires Word(w) && (rest == "" || IsSpace(rest[0]))
    ensures Fields(w + rest) == [w] + Fields(rest)
  {
    var s := w + rest;
    assert |w| < |s| ==> s[|w|] == rest[0];
    assert forall i | 0 <= i < |w| :: s[i] == w[i];
    assert WordLen(s) == |w|;
    assert s[..|w|] == w && s[|w|..] == rest;
  }

  /** A blank between two texts separates their fields. */
  lemma {:induction false} FieldsConcat(a: string, sep: char, b: string)
    requires IsSpace(sep)
    ensures Fields(a + [sep] + b) == Fields(a) + Fields(b)
    decreases |a|
  {
    var rest := [sep] + b;
    if a == "" {
      assert a + [sep] + b == rest && rest[1..] == b;
    } else if IsSpace(a[0]) {
      assert (a + [sep] + b)[1..] == a[1..] + [sep] + b;
      FieldsConcat(a[1..], sep, b);
    } else {
      var n := WordLen(a);
      FieldsConcat(a[n..], sep, b);
      FieldsOfWord(a[..n], a[n..] + [sep] + b);
      FieldsOfWord(a[..n], a[n..]);
      SplitAt(a, n, [sep] + b);
    }
  }

  lemma SplitAt(a: string, n: nat, rest: string)
    requires n <= |a| && rest != ""
    ensures a[..n] + a[n..] == a
    ensures a[..n] + (a[n..] + [rest[0]] + rest[1..]) == a + [rest[0]] + rest[1..]
  {
  }

  lemma {:induction false} FieldsJoin(ws: seq<string>)
    requires Words(ws)
    ensures Fields(Join(ws)) == ws
  {
    if ws == [] {
    } else {
      FieldsOfWord(ws[0], "");
      assert ws[0] + "" == ws[0];
      if |ws| == 1 {
      } else {
        FieldsJoin(ws[1..]);
        FieldsConcat(ws[0], ' ', Join(ws[1..]));
      }
    }
  }

  lemma {:induction false} FieldsTrimLeft(s: string)
    ensures Fields(TrimLeft(s)) == Fields(s)
  {
    if s != "" && IsSpace(s[0]) {
      FieldsTrimLeft(s[1..]);
    }
  }

  lemma {:induction false} FieldsTrimRight(s: string)
    ensures Fields(TrimRight(s)) == Fields(s)
  {
    if s != "" && IsSpace(s[|s| - 1]) {
      var init := s[..|s| - 1];
      FieldsTrimRight(init);
      FieldsConcat(init, s[|s| - 1], "");
      assert s == init + [s[|s| - 1]] + "";
    }
  }

  lemma FieldsTrim(s: string)
    ensures Fields(TrimSpace(s)) == Fields(s)
  {
    FieldsTrimLeft(s);
    FieldsTrimRight(TrimLeft(s));
  }

  lemma {:induction false} TrimOfWord(w: string)
    requires w == "" || (!IsSpace(w[0]) && !IsSpace(w[|w| - 1]))
    ensures TrimSpace(w) == w
  {
  }

  /** Joining distributes over concatenation with one space in between. */
  lemma {:induction false} JoinConcat(a: seq<string>, b: seq<string>)
    requires a != [] && b != []
    ensures Join(a + b) == Join(a) + " " + Join(b)
  {
    if |a| == 1 {
      assert (a + b)[1..] == b;
    } else {
      assert (a + b)[1..] == a[1..] + b;
      JoinConcat(a[1..], b);
    }
  }

  lemma {:induction false} JoinLower(ws: seq<string>)
    requires AllLower(ws)
    ensures IsLower(Join(ws))
  {
    if |ws| > 1 {
      JoinLower(ws[1..]);
      var s := Join(ws);
      forall i | 0 <= i < |s| ensures LowerChar(s[i]) == s[i] {
        if i < |ws[0]| {
          assert s[i] == ws[0][i] && Lower(ws[0])[i] == LowerChar(ws[0][i]);
        } else if i > |ws[0]| {
          assert s[i] == Join(ws[1..])[i - |ws[0]| - 1];
          assert Lower(Join(ws[1..]))[i - |ws[0]| - 1] == LowerChar(s[i]);
        }
      }
    }
  }
}
