/** What the tables have in common: no full keyword is an abbreviation of another one. */
module CiscoTableFacts {
  import opened Option
  import opened Text
  import opened CiscoTables
  import opened TokenExpansion
  import opened CiscoCli

  /** Full words the tables produce that are not in the vocabulary. */
  predicate Extra(t: string) {
    || t == "bgp" || t == "community" || t == "dhcp" || t == "do" || t == "eigrp" || t == "encapsulation" || t == "end"
    || t == "ftp" || t == "interfaces" || t == "isis" || t == "memory" || t == "nat" || t == "no" || t == "ospf"
    || t == "rip" || t == "scp" || t == "ssh" || t == "tftp" || t == "version"
  }

  predicate Full(t: string) {
    Keyword(t) || Extra(t)
  }

  /** Full words no vocabulary keyword continues, so that the prefix search leaves them alone. */
  predicate Closed(t: string) {
    t == "memory" || t == "version" || t == "encapsulation" || t == "community"
  }

  /** A full word is looked up as nothing but itself. */
  predicate KeyFact(t: string, found: Option<string>) {
    found == None || found == Some(t) || !Full(t)
  }

  /** An entry that does not stand for itself stands for a full word the prefix search keeps. */
  predicate ValueFact(t: string, found: Option<string>) {
    found.Some? && found.value != t ==> Keyword(found.value) || Closed(found.value)
  }

  // ---------------------------------------------------------------- the alias table, letter by letter

  lemma AliasKeyAtoC(t: string)
    ensures t != "" && 'a' <= t[0] <= 'c' ==> KeyFact(t, Alias(t))
  {
  }

  lemma AliasValueAtoC(t: string)
    ensures t != "" && 'a' <= t[0] <= 'c' ==> ValueFact(t, Alias(t))
  {
  }

  lemma AliasKeyDtoE(t: string)
    ensures t != "" && 'd' <= t[0] <= 'e' ==> KeyFact(t, Alias(t))
  {
  }

  lemma AliasValueDtoE(t: string)
    ensures t != "" && 'd' <= t[0] <= 'e' ==> ValueFact(t, Alias(t))
  {
  }

  lemma AliasKeyFtoL(t: string)
    ensures t != "" && 'f' <= t[0] <= 'l' ==> KeyFact(t, Alias(t))
  {
  }

  lemma AliasValueFtoL(t: string)
    ensures t != "" && 'f' <= t[0] <= 'l' ==> ValueFact(t, Alias(t))
  {
  }

  lemma AliasKeyMtoP(t: string)
    ensures t != "" && 'm' <= t[0] <= 'p' ==> KeyFact(t, Alias(t))
  {
  }

  lemma AliasValueMtoP(t: string)
    ensures t != "" && 'm' <= t[0] <= 'p' ==> ValueFact(t, Alias(t))
  {
  }

  lemma AliasKeyQtoR(t: string)
    ensures t != "" && 'q' <= t[0] <= 'r' ==> KeyFact(t, Alias(t))
  {
  }

  lemma AliasValueQtoR(t: string)
    ensures t != "" && 'q' <= t[0] <= 'r' ==> ValueFact(t, Alias(t))
  {
  }

  lemma AliasKeySShort(t: string)
    ensures t != "" && t[0] == 's' && |t| <= 3 ==> KeyFact(t, Alias(t))
  {
  }

  lemma AliasKeySMiddle(t: string)
    ensures t != "" && t[0] == 's' && 3 < |t| <= 5 ==> KeyFact(t, Alias(t))
  {
  }

  lemma AliasKeySLong(t: string)
    ensures t != "" && t[0] == 's' && |t| > 5 ==> KeyFact(t, Alias(t))
  {
  }

  lemma AliasKeyS(t: string)
    requires t != "" && t[0] == 's'
    ensures KeyFact(t, Alias(t))
  {
    if |t| <= 3 { AliasKeySShort(t); } else if |t| <= 5 { AliasKeySMiddle(t); } else { AliasKeySLong(t); }
  }

  lemma AliasKeyTtoZ(t: string)
    ensures t != "" && 't' <= t[0] <= 'z' ==> KeyFact(t, Alias(t))
  {
  }

  lemma AliasValueTtoZ(t: string)
    ensures t != "" && 't' <= t[0] <= 'z' ==> ValueFact(t, Alias(t))
  {
  }

  lemma AliasValueS(t: string)
    ensures t != "" && 's' <= t[0] <= 's' ==> ValueFact(t, Alias(t))
  {
  }

  lemma AliasFacts(t: string)
    ensures KeyFact(t, Alias(t)) && ValueFact(t, Alias(t))
  {
    if t == "" || t[0] < 'a' || t[0] > 'z' {
    } else {
      var c := t[0];
      if c <= 'c' { AliasKeyAtoC(t); AliasValueAtoC(t); }
      else if c <= 'e' { AliasKeyDtoE(t); AliasValueDtoE(t); }
      else if c <= 'l' { AliasKeyFtoL(t); AliasValueFtoL(t); }
      else if c <= 'p' { AliasKeyMtoP(t); AliasValueMtoP(t); }
      else if c <= 'r' { AliasKeyQtoR(t); AliasValueQtoR(t); }
      else if c <= 's' { AliasKeyS(t); AliasValueS(t); }
      else { AliasKeyTtoZ(t); AliasValueTtoZ(t); }
    }
  }

  // ---------------------------------------------------------------- the context tables, parent by parent

  lemma FactsConfigure(t: string)
    ensures KeyFact(t, AfterConfigure(t)) && ValueFact(t, AfterConfigure(t))
  {
  }

  lemma ShowKeyAtoC(t: string)
    ensures t != "" && 'a' <= t[0] <= 'c' ==> KeyFact(t, AfterShow(t))
  {
  }

  lemma ShowValueAtoC(t: string)
    ensures t != "" && 'a' <= t[0] <= 'c' ==> ValueFact(t, AfterShow(t))
  {
  }

  lemma ShowKeyDtoI(t: string)
    ensures t != "" && 'd' <= t[0] <= 'i' ==> KeyFact(t, AfterShow(t))
  {
  }

  lemma ShowValueDtoI(t: string)
    ensures t != "" && 'd' <= t[0] <= 'i' ==> ValueFact(t, AfterShow(t))
  {
  }

  lemma ShowKeyJtoQ(t: string)
    ensures t != "" && 'j' <= t[0] <= 'q' ==> KeyFact(t, AfterShow(t))
  {
  }

  lemma ShowValueJtoQ(t: string)
    ensures t != "" && 'j' <= t[0] <= 'q' ==> ValueFact(t, AfterShow(t))
  {
  }

  lemma ShowKeyR(t: string)
    ensures t != "" && 'r' <= t[0] <= 'r' ==> KeyFact(t, AfterShow(t))
  {
  }

  lemma ShowValueR(t: string)
    ensures t != "" && 'r' <= t[0] <= 'r' ==> ValueFact(t, AfterShow(t))
  {
  }

  lemma ShowKeyS(t: string)
    ensures t != "" && 's' <= t[0] <= 's' ==> KeyFact(t, AfterShow(t))
  {
  }

  lemma ShowValueS(t: string)
    ensures t != "" && 's' <= t[0] <= 's' ==> ValueFact(t, AfterShow(t))
  {
  }

  lemma ShowKeyTtoZ(t: string)
    ensures t != "" && 't' <= t[0] <= 'z' ==> KeyFact(t, AfterShow(t))
  {
  }

  lemma ShowValueTtoZ(t: string)
    ensures t != "" && 't' <= t[0] <= 'z' ==> ValueFact(t, AfterShow(t))
  {
  }

  lemma FactsShow(t: string)
    ensures KeyFact(t, AfterShow(t)) && ValueFact(t, AfterShow(t))
  {
    if t == "" || t[0] < 'a' || t[0] > 'z' {
    } else {
      var c := t[0];
      if c <= 'c' { ShowKeyAtoC(t); ShowValueAtoC(t); }
      else if c <= 'i' { ShowKeyDtoI(t); ShowValueDtoI(t); }
      else if c <= 'q' { ShowKeyJtoQ(t); ShowValueJtoQ(t); }
      else if c <= 'r' { ShowKeyR(t); ShowValueR(t); }
      else if c <= 's' { ShowKeyS(t); ShowValueS(t); }
      else { ShowKeyTtoZ(t); ShowValueTtoZ(t); }
    }
  }

  lemma CopyKey(t: string)
    ensures KeyFact(t, AfterCopy(t))
  {
  }

  lemma FactsCopy(t: string)
    ensures KeyFact(t, AfterCopy(t)) && ValueFact(t, AfterCopy(t))
  {
    CopyKey(t);
  }

  lemma FactsErase(t: string)
    ensures KeyFact(t, AfterErase(t)) && ValueFact(t, AfterErase(t))
  {
  }

  lemma WriteAtoM(t: string)
    ensures t != "" && 'a' <= t[0] <= 'm' ==> KeyFact(t, AfterWrite(t)) && ValueFact(t, AfterWrite(t))
  {
  }

  lemma WriteNtoZ(t: string)
    ensures t != "" && 'n' <= t[0] <= 'z' ==> KeyFact(t, AfterWrite(t)) && ValueFact(t, AfterWrite(t))
  {
  }

  lemma FactsWrite(t: string)
    ensures KeyFact(t, AfterWrite(t)) && ValueFact(t, AfterWrite(t))
  {
    if t == "" || t[0] < 'a' || t[0] > 'z' {
    } else {
      if t[0] <= 'm' { WriteAtoM(t); } else { WriteNtoZ(t); }
    }
  }

  lemma InterfaceAtoR(t: string)
    ensures t != "" && 'a' <= t[0] <= 'r' ==> KeyFact(t, AfterInterface(t)) && ValueFact(t, AfterInterface(t))
  {
  }

  lemma InterfaceKeyStoZ(t: string)
    ensures t != "" && 's' <= t[0] <= 'z' ==> KeyFact(t, AfterInterface(t))
  {
  }

  lemma InterfaceValueStoZ(t: string)
    ensures t != "" && 's' <= t[0] <= 'z' ==> ValueFact(t, AfterInterface(t))
  {
  }

  lemma FactsInterface(t: string)
    ensures KeyFact(t, AfterInterface(t)) && ValueFact(t, AfterInterface(t))
  {
    if t == "" || t[0] < 'a' || t[0] > 'z' {
    } else {
      if t[0] <= 'r' { InterfaceAtoR(t); } else { InterfaceKeyStoZ(t); InterfaceValueStoZ(t); }
    }
  }

  lemma FactsRouter(t: string)
    ensures KeyFact(t, AfterRouter(t)) && ValueFact(t, AfterRouter(t))
  {
  }

  lemma FactsIp(t: string)
    ensures KeyFact(t, AfterIp(t)) && ValueFact(t, AfterIp(t))
  {
  }

  lemma FactsLine(t: string)
    ensures KeyFact(t, AfterLine(t)) && ValueFact(t, AfterLine(t))
  {
  }

  lemma FactsSnmpServer(t: string)
    ensures KeyFact(t, AfterSnmpServer(t)) && ValueFact(t, AfterSnmpServer(t))
  {
  }

  lemma FactsUsername(t: string)
    ensures KeyFact(t, AfterUsername(t)) && ValueFact(t, AfterUsername(t))
  {
  }

  lemma ContextFacts(parent: string, t: string)
    ensures KeyFact(t, Context(parent, t)) && ValueFact(t, Context(parent, t))
  {
    if parent == "configure" { FactsConfigure(t); }
    else if parent == "show" { FactsShow(t); }
    else if parent == "copy" { FactsCopy(t); }
    else if parent == "erase" { FactsErase(t); }
    else if parent == "write" { FactsWrite(t); }
    else if parent == "interface" { FactsInterface(t); }
    else if parent == "router" { FactsRouter(t); }
    else if parent == "ip" { FactsIp(t); }
    else if parent == "line" { FactsLine(t); }
    else if parent == "snmp-server" { FactsSnmpServer(t); }
    else if parent == "username" { FactsUsername(t); }
  }

  /** No parent contains a space, so the two-word parents the lookup also tries match nothing. */
  lemma NoTwoWordParent(a: string, b: string, t: string)
    ensures Context(a + " " + b, t) == None
  {
    var parent := a + " " + b;
    assert parent[|a|] == ' ';
  }

  // ---------------------------------------------------------------- the vocabulary as one list

  lemma {:induction false} KeywordsOfInitials(initials: string, w: string)
    ensures w in KeywordsOf(initials) <==> exists i | 0 <= i < |initials| :: w in Keywords(initials[i])
  {
    if initials != "" {
      KeywordsOfInitials(initials[1..], w);
      if i :| 0 <= i < |initials[1..]| && w in Keywords(initials[1..][i]) {
        assert w in Keywords(initials[i + 1]);
      }
      if i :| 0 < i < |initials| && w in Keywords(initials[i]) {
        assert w in Keywords(initials[1..][i - 1]);
      }
    }
  }

  lemma KeywordInVocabulary(w: string)
    ensures Keyword(w) <==> w in Vocabulary()
  {
    KeywordsOfInitials(INITIALS, w);
    if i :| 0 <= i < |INITIALS| && w in Keywords(INITIALS[i]) {
      KeywordSpelling(INITIALS[i], w);
    }
    if Keyword(w) {
      assert exists i | 0 <= i < |INITIALS| :: INITIALS[i] == w[0] by {
        InitialListed(w[0]);
      }
    }
  }

  lemma InitialListed(c: char)
    requires Keywords(c) != []
    ensures exists i | 0 <= i < |INITIALS| :: INITIALS[i] == c
  {
    assert INITIALS[0] == 'a' && INITIALS[1] == 'b' && INITIALS[2] == 'c' && INITIALS[3] == 'd' && INITIALS[4] == 'e';
    assert INITIALS[5] == 'f' && INITIALS[6] == 'g' && INITIALS[7] == 'h' && INITIALS[8] == 'i' && INITIALS[9] == 'k';
    assert INITIALS[10] == 'l' && INITIALS[11] == 'm' && INITIALS[12] == 'n' && INITIALS[13] == 'p' && INITIALS[14] == 'r';
    assert INITIALS[15] == 's' && INITIALS[16] == 't' && INITIALS[17] == 'u' && INITIALS[18] == 'v' && INITIALS[19] == 'w';
  }

  /** The prefix search never turns a keyword into another word. */
  lemma KeywordKeepsItself(w: string)
    requires Keyword(w)
    ensures UniquePrefix(w) == None || UniquePrefix(w) == Some(w)
  {
    KeywordInVocabulary(w);
  }

  lemma PrefixIsKeyword(t: string)
    ensures UniquePrefix(t).Some? ==> Keyword(UniquePrefix(t).value) && t <= UniquePrefix(t).value
  {
    if UniquePrefix(t).Some? {
      KeywordInVocabulary(UniquePrefix(t).value);
    }
  }

  lemma ClosedHasNoExtension(t: string)
    requires Closed(t)
    ensures UniquePrefix(t) == None
  {
    PrefixIsKeyword(t);
    if UniquePrefix(t).Some? {
      var w := UniquePrefix(t).value;
      assert w[0] == t[0];
      LongerIsNoKeyword(t, w);
    }
  }

  lemma LongerIsNoKeyword(t: string, w: string)
    requires Closed(t) && t <= w
    ensures w !in Keywords(t[0])
  {
    assert t[0] == w[0] && t[1] == w[1] && t[2] == w[2];
  }

  // ---------------------------------------------------------------- how the words are spelled

  predicate PlainChar(c: char) {
    'a' <= c <= 'z' || c == '-' || IsDigit(c)
  }

  /** Lower-case letters, digits and hyphens only. */
  predicate Plain(w: string) {
    w != "" && forall i | 0 <= i < |w| :: PlainChar(w[i])
  }

  predicate Spelled(c: char, w: string) {
    Plain(w) && w[0] == c
  }

  lemma PlainAtoB(c: char, w: string)
    requires 'a' <= c <= 'b' && w in Keywords(c)
    ensures Spelled(c, w)
  {
  }

  lemma PlainCShort(c: char, w: string)
    requires c == 'c' && w in Keywords(c) && |w| <= 6
    ensures Spelled(c, w)
  {
  }

  lemma PlainCLong(c: char, w: string)
    requires c == 'c' && w in Keywords(c) && |w| > 6
    ensures Spelled(c, w)
  {
  }

  lemma PlainC(c: char, w: string)
    requires c == 'c' && w in Keywords(c)
    ensures Spelled(c, w)
  {
    if |w| <= 6 { PlainCShort(c, w); } else { PlainCLong(c, w); }
  }

  lemma PlainD(c: char, w: string)
    requires 'd' <= c <= 'd' && w in Keywords(c)
    ensures Spelled(c, w)
  {
  }

  lemma PlainE(c: char, w: string)
    requires 'e' <= c <= 'e' && w in Keywords(c)
    ensures Spelled(c, w)
  {
  }

  lemma PlainFtoH(c: char, w: string)
    requires 'f' <= c <= 'h' && w in Keywords(c)
    ensures Spelled(c, w)
  {
  }

  lemma PlainItoL(c: char, w: string)
    requires 'i' <= c <= 'l' && w in Keywords(c)
    ensures Spelled(c, w)
  {
  }

  lemma PlainMtoN(c: char, w: string)
    requires 'm' <= c <= 'o' && w in Keywords(c)
    ensures Spelled(c, w)
  {
  }

  lemma PlainP(c: char, w: string)
    requires c == 'p' && w in Keywords(c)
    ensures Spelled(c, w)
  {
  }

  lemma PlainRShort(c: char, w: string)
    requires 'q' <= c <= 'r' && w in Keywords(c) && |w| <= 6
    ensures Spelled(c, w)
  {
  }

  lemma PlainRMiddle(c: char, w: string)
    requires 'q' <= c <= 'r' && w in Keywords(c) && 6 < |w| <= 9
    ensures Spelled(c, w)
  {
  }

  lemma PlainRLong(c: char, w: string)
    requires 'q' <= c <= 'r' && w in Keywords(c) && |w| > 9
    ensures Spelled(c, w)
  {
  }

  lemma PlainSShort(c: char, w: string)
    requires 's' <= c <= 's' && w in Keywords(c) && |w| <= 5
    ensures Spelled(c, w)
  {
  }

  lemma PlainSSix(c: char, w: string)
    requires 's' <= c <= 's' && w in Keywords(c) && |w| == 6
    ensures Spelled(c, w)
  {
  }

  lemma PlainSSeven(c: char, w: string)
    requires 's' <= c <= 's' && w in Keywords(c) && |w| == 7
    ensures Spelled(c, w)
  {
  }

  lemma PlainSEight(c: char, w: string)
    requires 's' <= c <= 's' && w in Keywords(c) && |w| == 8
    ensures Spelled(c, w)
  {
  }

  lemma PlainSWide(c: char, w: string)
    requires 's' <= c <= 's' && w in Keywords(c) && 8 < |w| <= 10
    ensures Spelled(c, w)
  {
  }

  lemma PlainSEleven(c: char, w: string)
    requires 's' <= c <= 's' && w in Keywords(c) && |w| == 11
    ensures Spelled(c, w)
  {
  }

  lemma PlainSLong(c: char, w: string)
    requires 's' <= c <= 's' && w in Keywords(c) && 11 < |w| <= 13
    ensures Spelled(c, w)
  {
  }

  lemma PlainSLongest(c: char, w: string)
    requires 's' <= c <= 's' && w in Keywords(c) && |w| > 13
    ensures Spelled(c, w)
  {
  }

  lemma PlainS(c: char, w: string)
    requires c == 's' && w in Keywords(c)
    ensures Spelled(c, w)
  {
    if |w| <= 5 { PlainSShort(c, w); }
    else if |w| == 6 { PlainSSix(c, w); }
    else if |w| == 7 { PlainSSeven(c, w); }
    else if |w| == 8 { PlainSEight(c, w); }
    else if |w| <= 10 { PlainSWide(c, w); }
    else if |w| == 11 { PlainSEleven(c, w); }
    else if |w| <= 13 { PlainSLong(c, w); }
    else { PlainSLongest(c, w); }
  }

  lemma PlainT(c: char, w: string)
    requires 't' <= c <= 't' && w in Keywords(c)
    ensures Spelled(c, w)
  {
  }

  lemma PlainUtoZ(c: char, w: string)
    requires 'u' <= c <= 'z' && w in Keywords(c)
    ensures Spelled(c, w)
  {
  }

  /** A keyword is listed under its own first letter, and plain. */
  lemma KeywordSpelling(c: char, w: string)
    requires w in Keywords(c)
    ensures Spelled(c, w)
  {
    if c <= 'b' { PlainAtoB(c, w); }
    else if c == 'c' { PlainC(c, w); }
    else if c <= 'd' { PlainD(c, w); }
    else if c <= 'e' { PlainE(c, w); }
    else if c <= 'h' { PlainFtoH(c, w); }
    else if c <= 'l' { PlainItoL(c, w); }
    else if c <= 'o' { PlainMtoN(c, w); }
    else if c == 'p' { PlainP(c, w); }
    else if c <= 'r' { if |w| <= 6 { PlainRShort(c, w); } else if |w| <= 9 { PlainRMiddle(c, w); } else { PlainRLong(c, w); } }
    else if c <= 's' { PlainS(c, w); }
    else if c <= 't' { PlainT(c, w); }
    else { PlainUtoZ(c, w); }
  }

  lemma KeywordsArePlain(w: string)
    requires Keyword(w)
    ensures Plain(w)
  {
    KeywordSpelling(w[0], w);
  }

  lemma ClosedArePlain(w: string)
    ensures Closed(w) ==> Plain(w)
  {
  }

  /** A plain word is its own lower-case, trimmed form. */
  lemma PlainIsNormal(w: string)
    requires Plain(w)
    ensures Word(w) && IsLower(w) && Lower(TrimSpace(w)) == w
  {
    assert PlainChar(w[0]) && PlainChar(w[|w| - 1]);
    TrimOfWord(w);
    forall i | 0 <= i < |w| ensures Lower(w)[i] == w[i] && !IsSpace(w[i]) {
      assert PlainChar(w[i]);
    }
  }
}
