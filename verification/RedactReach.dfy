/** Which tokens of the original buffer `censor` reaches: all of them for the five URL rules, and exactly
    the unshadowed ones for the JSON rule. */
module RedactReach {
  import opened Bytes
  import opened Redact

  const JSON: nat := 5
  const URL_ENDS: seq<Byte> := Ascii("=D")

  /** A URL needle has no URL terminator in it, and ends in a byte no needle has further in. */
  ghost predicate UrlShape(needle: seq<Byte>) {
    && needle != []
    && needle[|needle| - 1] in URL_ENDS
    && (forall i :: 0 <= i < |needle| ==> needle[i] !in URL_TERMINATORS)
    && (forall i :: 0 <= i < |needle| - 1 ==> needle[i] !in URL_ENDS)
  }

  lemma AsciiUrlShape(needle: string)
    requires forall i :: 0 <= i < |needle| ==> needle[i] < 128 as char
    requires needle != "" && needle[|needle| - 1] in "=D"
    requires forall i :: 0 <= i < |needle| ==> needle[i] !in "&\"' \t\r\n;<>"
    requires forall i :: 0 <= i < |needle| - 1 ==> needle[i] !in "=D"
    ensures UrlShape(Ascii(needle))
  {
    assert '=' in "=D" && 'D' in "=D";
    assert URL_ENDS[0] as int == '=' as int && URL_ENDS[1] as int == 'D' as int;
    forall i | 0 <= i < |needle|
      ensures Ascii(needle)[i] !in URL_TERMINATORS
    {
      var t := "&\"' \t\r\n;<>";
      assert forall k :: 0 <= k < |t| ==> t[k] in t;
    }
  }

  lemma ApiKeyShape()
    ensures UrlShape(Ascii("api_key="))
  {
    AsciiUrlShape("api_key=");
  }

  lemma EncodedHeaderShape()
    ensures UrlShape(Ascii("X-MediaBrowser-Token%3D"))
  {
    AsciiUrlShape("X-MediaBrowser-Token%3D");
  }

  lemma HeaderShape()
    ensures UrlShape(Ascii("X-MediaBrowser-Token="))
  {
    AsciiUrlShape("X-MediaBrowser-Token=");
  }

  lemma CamelApiKeyShape()
    ensures UrlShape(Ascii("ApiKey="))
  {
    AsciiUrlShape("ApiKey=");
  }

  lemma AccessTokenShape()
    ensures UrlShape(Ascii("AccessToken="))
  {
    AsciiUrlShape("AccessToken=");
  }

  lemma UrlShapes()
    ensures forall k :: 0 <= k < JSON ==> UrlShape(RULES[k].needle) && RULES[k].terminators == URL_TERMINATORS
  {
    ApiKeyShape();
    EncodedHeaderShape();
    HeaderShape();
    CamelApiKeyShape();
    AccessTokenShape();
  }

  lemma JsonShape()
    ensures RULES[JSON].terminators == JSON_TERMINATORS
    ensures |RULES[JSON].needle| == 14 && RULES[JSON].needle[13] == JSON_TERMINATORS[0]
    ensures forall b :: b in RULES[JSON].needle ==> b !in URL_ENDS
    ensures JSON_TERMINATORS[0] in URL_TERMINATORS && |JSON_TERMINATORS| == 1
  {
    assert URL_TERMINATORS[1] == JSON_TERMINATORS[0];
  }

  /** No occurrence of `short` can end inside an occurrence of `long`. */
  ghost predicate NeverEndsWithin(short: seq<Byte>, long: seq<Byte>) {
    short != [] && forall i :: 0 <= i < |long| - 1 ==> long[i] != short[|short| - 1]
  }

  /** The needle does not end its own token. */
  ghost predicate Plain(rule: Rule) {
    forall b :: b in rule.needle ==> b !in rule.terminators
  }

  lemma RuleInterplay(k: nat, j: nat)
    requires k < |RULES| && j < |RULES|
    ensures j < JSON ==> NeverEndsWithin(RULES[k].needle, RULES[j].needle) && Plain(RULES[j]) && StopsAtLeastAt(RULES[j], RULES[k])
    ensures k < JSON ==> NeverEndsWithin(RULES[k].needle, RULES[j].needle)
  {
    UrlShapes();
    JsonShape();
  }

  lemma TokenSwallowsNeedle(buf: seq<Byte>, rule: Rule, q: nat, plain: Rule, p: nat, i: nat)
    requires NeverEndsWithin(rule.needle, plain.needle) && Plain(plain) && StopsAtLeastAt(plain, rule)
    requires OccursAt(buf, rule.needle, q) && OccursAt(buf, plain.needle, p)
    requires p <= i < p + |plain.needle| && InToken(buf, rule, q, i)
    ensures q + |rule.needle| <= p
    ensures TokenEnd(buf, p + |plain.needle|, plain.terminators) <= TokenEnd(buf, q + |rule.needle|, rule.terminators)
  {
    var from, n := q + |rule.needle|, |plain.needle|;
    TokenStartsOutside(buf, rule, q, plain.needle, p, i);
    var end := TokenEnd(buf, from, rule.terminators);
    if end < p + n {
      ByteOfOccurrence(buf, plain.needle, p, end - p);
    }
  }

  lemma TokenStartsOutside(buf: seq<Byte>, rule: Rule, q: nat, needle: seq<Byte>, p: nat, i: nat)
    requires NeverEndsWithin(rule.needle, needle)
    requires OccursAt(buf, rule.needle, q) && OccursAt(buf, needle, p)
    requires p <= i < p + |needle| && InToken(buf, rule, q, i)
    ensures q + |rule.needle| <= p
  {
    var from := q + |rule.needle|;
    ByteOfOccurrence(buf, rule.needle, q, |rule.needle| - 1);
    if p < from {
      ByteOfOccurrence(buf, needle, p, from - 1 - p);
    }
  }

  // ---- URL rules reach every token ----

  ghost predicate TokenOverwritten(buf: seq<Byte>, r: seq<Byte>, rule: Rule, p: nat)
    requires |r| == |buf| && p + |rule.needle| <= |buf|
  {
    forall i: nat :: InToken(buf, rule, p, i) ==> r[i] == X
  }

  lemma TokenEndGrows(buf: seq<Byte>, r: seq<Byte>, from: nat, terminators: seq<Byte>)
    requires OverwritesOf(buf, r) && X !in terminators && from <= |buf|
    ensures TokenEnd(buf, from, terminators) <= TokenEnd(r, from, terminators)
  {
    var end := TokenEnd(r, from, terminators);
    if end < |buf| {
      assert r[end] == buf[end];
    }
  }

  lemma PlainTokenCovered(buf: seq<Byte>, cur: seq<Byte>, rule: Rule, plain: Rule, p: nat, i: nat)
    requires WellFormed(rule) && NeverEndsWithin(rule.needle, plain.needle) && Plain(plain) && StopsAtLeastAt(plain, rule)
    requires OccursAt(buf, plain.needle, p) && OverwritesOf(buf, cur)
    requires forall from: nat :: from <= |buf| ==> TokenEnd(cur, from, rule.terminators) == TokenEnd(buf, from, rule.terminators)
    requires p <= i < p + |plain.needle| && Covered(cur, rule, i)
    ensures TokenOverwritten(buf, Elided(cur, rule), plain, p)
  {
    var q: nat :| Found(cur, rule, q) && InToken(cur, rule, q, i);
    OccurrenceWasThere(buf, cur, rule.needle, q);
    assert InToken(buf, rule, q, i);
    TokenSwallowsNeedle(buf, rule, q, plain, p, i);
    FoundTokenElided(cur, rule, q);
  }

  /** A rule either leaves a plain needle standing or overwrites the token behind it as well. */
  lemma PlainTokenStep(buf: seq<Byte>, cur: seq<Byte>, rule: Rule, plain: Rule, p: nat)
    requires WellFormed(rule) && NeverEndsWithin(rule.needle, plain.needle) && Plain(plain) && StopsAtLeastAt(plain, rule)
    requires OccursAt(buf, plain.needle, p) && OccursAt(cur, plain.needle, p) && OverwritesOf(buf, cur)
    requires forall from: nat :: from <= |buf| ==> TokenEnd(cur, from, rule.terminators) == TokenEnd(buf, from, rule.terminators)
    ensures OccursAt(Elided(cur, rule), plain.needle, p) || TokenOverwritten(buf, Elided(cur, rule), plain, p)
  {
    var r, n := Elided(cur, rule), |plain.needle|;
    if i: nat :| p <= i < p + n && Covered(cur, rule, i) {
      PlainTokenCovered(buf, cur, rule, plain, p, i);
    } else {
      assert r[p..p + n] == cur[p..p + n];
    }
  }

  lemma {:induction false} UrlTokenReached(buf: seq<Byte>, k: nat, j: nat, p: nat)
    requires k <= |RULES| && j < JSON && OccursAt(buf, RULES[j].needle, p)
    ensures OccursAt(CensoredBy(buf, k), RULES[j].needle, p) || TokenOverwritten(buf, CensoredBy(buf, k), RULES[j], p)
  {
    if k > 0 {
      UrlTokenReached(buf, k - 1, j, p);
      if OccursAt(CensoredBy(buf, k - 1), RULES[j].needle, p) {
        RuleTable();
        RuleInterplay(k - 1, j);
        TerminatorsSurvive(buf, k - 1, k - 1);
        PlainTokenStep(buf, CensoredBy(buf, k - 1), RULES[k - 1], RULES[j], p);
      }
    }
  }

  /** Once rule `j` has run, the token behind every original occurrence of its needle is gone. */
  lemma CensorReachesUrlTokens(buf: seq<Byte>, k: nat, j: nat, p: nat)
    requires j < JSON && j < k <= |RULES| && OccursAt(buf, RULES[j].needle, p)
    ensures TokenOverwritten(buf, CensoredBy(buf, k), RULES[j], p)
  {
    var r := CensoredBy(buf, k);
    UrlTokenReached(buf, k, j, p);
    CensoredByRedacts(buf, k);
    CensoredOverwrites(buf, k);
    RuleTable();
    TokenEndGrows(buf, r, p + |RULES[j].needle|, RULES[j].terminators);
    if OccursAt(r, RULES[j].needle, p) {
      forall i: nat | InToken(buf, RULES[j], p, i)
        ensures r[i] == X
      {
        assert InToken(r, RULES[j], p, i);
      }
    }
  }

  // ---- The JSON rule reaches exactly the unshadowed tokens ----

  /** Byte `p` lies in a token of one of the URL rules. */
  ghost predicate InUrlToken(buf: seq<Byte>, p: nat) {
    exists k: nat, q: nat :: k < JSON && OccursAt(buf, RULES[k].needle, q) && InToken(buf, RULES[k], q, p)
  }

  /** The JSON needle at `p` begins inside a token: of a URL rule, or of an unshadowed JSON needle before it. */
  ghost predicate Shadowed(buf: seq<Byte>, p: nat)
    decreases p
  {
    || InUrlToken(buf, p)
    || exists q: nat :: q < p && OccursAt(buf, RULES[JSON].needle, q) && InToken(buf, RULES[JSON], q, p) && !Shadowed(buf, q)
  }

  /** A needle no token begins in stays intact unless a token covers its first byte. */
  lemma NeedleStep(buf: seq<Byte>, cur: seq<Byte>, rule: Rule, needle: seq<Byte>, p: nat)
    requires WellFormed(rule) && NeverEndsWithin(rule.needle, needle)
    requires OccursAt(buf, needle, p) && OccursAt(cur, needle, p) && OverwritesOf(buf, cur)
    requires forall from: nat :: from <= |buf| ==> TokenEnd(cur, from, rule.terminators) == TokenEnd(buf, from, rule.terminators)
    requires forall q: nat :: OccursAt(buf, rule.needle, q) ==> !InToken(buf, rule, q, p)
    ensures OccursAt(Elided(cur, rule), needle, p)
  {
    var r, n := Elided(cur, rule), |needle|;
    forall i: nat | p <= i < p + n
      ensures r[i] == cur[i]
    {
      if Covered(cur, rule, i) {
        var q: nat :| Found(cur, rule, q) && InToken(cur, rule, q, i);
        OccurrenceWasThere(buf, cur, rule.needle, q);
        assert InToken(buf, rule, q, i);
        TokenStartsOutside(buf, rule, q, needle, p, i);
      }
    }
    assert r[p..p + n] == cur[p..p + n];
  }

  lemma {:induction false} JsonNeedleKept(buf: seq<Byte>, k: nat, p: nat)
    requires k <= JSON && !InUrlToken(buf, p) && OccursAt(buf, RULES[JSON].needle, p)
    ensures OccursAt(CensoredBy(buf, k), RULES[JSON].needle, p)
  {
    if k > 0 {
      JsonNeedleKept(buf, k - 1, p);
      RuleTable();
      RuleInterplay(k - 1, JSON);
      TerminatorsSurvive(buf, k - 1, k - 1);
      NeedleStep(buf, CensoredBy(buf, k - 1), RULES[k - 1], RULES[JSON].needle, p);
    }
  }

  lemma FirstByte(buf: seq<Byte>, needle: seq<Byte>, p: nat)
    ensures needle != [] && OccursAt(buf, needle, p) ==> buf[p] == needle[0]
  {
    if needle != [] && OccursAt(buf, needle, p) {
      ByteOfOccurrence(buf, needle, p, 0);
    }
  }

  lemma OccurrencesApart(buf: seq<Byte>, rule: Rule, q: nat, p: nat)
    requires WellFormed(rule) && q < p && OccursAt(buf, rule.needle, q) && OccursAt(buf, rule.needle, p)
    ensures q + |rule.needle| <= p
  {
    FirstByte(buf, rule.needle, p);
    if p < q + |rule.needle| {
      ByteOfOccurrence(buf, rule.needle, q, p - q);
    }
  }

  lemma JsonNeedleLost(buf: seq<Byte>, p: nat)
    requires InUrlToken(buf, p)
    ensures !OccursAt(CensoredBy(buf, JSON), RULES[JSON].needle, p)
  {
    RuleTable();
    var k: nat, q: nat :| k < JSON && OccursAt(buf, RULES[k].needle, q) && InToken(buf, RULES[k], q, p);
    CensorReachesUrlTokens(buf, JSON, k, q);
    assert CensoredBy(buf, JSON)[p] == X;
    FirstByte(CensoredBy(buf, JSON), RULES[JSON].needle, p);
  }

  /** The JSON rule's scan stops at exactly the unshadowed occurrences of its needle. */
  lemma {:induction false} FoundIffUnshadowed(buf: seq<Byte>, p: nat)
    requires OccursAt(buf, RULES[JSON].needle, p)
    ensures Found(CensoredBy(buf, JSON), RULES[JSON], p) <==> !Shadowed(buf, p)
    decreases p
  {
    var cur, rule := CensoredBy(buf, JSON), RULES[JSON];
    RuleTable();
    TerminatorsSurvive(buf, JSON, JSON);
    if InUrlToken(buf, p) {
      JsonNeedleLost(buf, p);
    } else {
      JsonNeedleKept(buf, JSON, p);
      forall q: nat | q < p && OccursAt(buf, rule.needle, q)
        ensures Found(cur, rule, q) <==> !Shadowed(buf, q)
        ensures InToken(buf, rule, q, p) <==> p < TokenEnd(cur, q + |rule.needle|, rule.terminators)
      {
        FoundIffUnshadowed(buf, q);
        OccurrencesApart(buf, rule, q, p);
      }
      forall q: nat | q < p && Found(cur, rule, q)
        ensures OccursAt(buf, rule.needle, q)
      {
        OccurrenceWasThere(buf, cur, rule.needle, q);
      }
    }
  }

  lemma UnshadowedOverwritten(buf: seq<Byte>, p: nat)
    requires OccursAt(buf, RULES[JSON].needle, p) && !Shadowed(buf, p)
    ensures TokenOverwritten(buf, Censored(buf), RULES[JSON], p)
  {
    RuleTable();
    FoundIffUnshadowed(buf, p);
    TerminatorsSurvive(buf, JSON, JSON);
    FoundTokenElided(CensoredBy(buf, JSON), RULES[JSON], p);
  }

  /** A token that holds byte `i`, the first but `x` behind a terminator, begins right behind that terminator. */
  lemma TokenStartsAt(buf: seq<Byte>, rule: Rule, q: nat, from: nat, i: nat)
    requires WellFormed(rule) && OccursAt(buf, rule.needle, q) && InToken(buf, rule, q, i)
    requires 0 < from <= i < |buf| && buf[from - 1] in rule.terminators
    requires forall m :: from <= m < i ==> buf[m] == X
    ensures q + |rule.needle| == from
  {
    ByteOfOccurrence(buf, rule.needle, q, |rule.needle| - 1);
  }

  lemma LastByteTells(k: nat)
    requires k < |RULES| && RULES[k].needle != [] && RULES[k].needle[|RULES[k].needle| - 1] == JSON_TERMINATORS[0]
    ensures k == JSON
  {
    UrlShapes();
    assert JSON_TERMINATORS[0] !in URL_ENDS;
  }

  lemma QuoteStops(k: nat)
    requires k < |RULES|
    ensures JSON_TERMINATORS[0] in RULES[k].terminators
  {
    UrlShapes();
    JsonShape();
  }

  lemma TokenBehindQuote(buf: seq<Byte>, cur: seq<Byte>, rule: Rule, from: nat, i: nat) returns (q: nat)
    requires WellFormed(rule) && JSON_TERMINATORS[0] in rule.terminators
    requires 0 < from <= i < |buf| && buf[from - 1] == JSON_TERMINATORS[0]
    requires forall m :: from <= m < i ==> buf[m] == X
    requires exists p: nat :: Found(cur, rule, p) && OccursAt(buf, rule.needle, p) && InToken(buf, rule, p, i)
    ensures q + |rule.needle| == from && Found(cur, rule, q) && rule.needle[|rule.needle| - 1] == JSON_TERMINATORS[0]
  {
    q :| Found(cur, rule, q) && OccursAt(buf, rule.needle, q) && InToken(buf, rule, q, i);
    TokenStartsAt(buf, rule, q, from, i);
    ByteOfOccurrence(buf, rule.needle, q, |rule.needle| - 1);
  }

  /** The byte behind a quote is overwritten only by a rule whose needle ends in that quote. */
  lemma NeedleEndsBefore(buf: seq<Byte>, k: nat, from: nat, i: nat)
    requires k < |RULES| && 0 < from <= i < |buf| && buf[from - 1] == JSON_TERMINATORS[0]
    requires forall m :: from <= m < i ==> buf[m] == X
    requires Covered(CensoredBy(buf, k), RULES[k], i)
    ensures k == JSON
    ensures from >= |RULES[JSON].needle| && Found(CensoredBy(buf, k), RULES[k], from - |RULES[JSON].needle|)
  {
    RuleTable();
    QuoteStops(k);
    CoveredWasToken(buf, k, i);
    var q := TokenBehindQuote(buf, CensoredBy(buf, k), RULES[k], from, i);
    LastByteTells(k);
  }

  lemma {:induction false} ChangedByRule(buf: seq<Byte>, k: nat, i: nat) returns (j: nat)
    requires k <= |RULES| && i < |buf| && CensoredBy(buf, k)[i] != buf[i]
    ensures j < k && Covered(CensoredBy(buf, j), RULES[j], i)
  {
    if CensoredBy(buf, k - 1)[i] == buf[i] {
      j := k - 1;
    } else {
      j := ChangedByRule(buf, k - 1, i);
    }
  }

  lemma ShadowedStays(buf: seq<Byte>, p: nat, i: nat)
    requires OccursAt(buf, RULES[JSON].needle, p) && Shadowed(buf, p)
    requires InToken(buf, RULES[JSON], p, i) && buf[i] != X
    requires forall m: nat :: InToken(buf, RULES[JSON], p, m) && m < i ==> buf[m] == X
    ensures Censored(buf)[i] == buf[i]
  {
    JsonShape();
    FoundIffUnshadowed(buf, p);
    var from := p + |RULES[JSON].needle|;
    ByteOfOccurrence(buf, RULES[JSON].needle, p, |RULES[JSON].needle| - 1);
    if Censored(buf)[i] != buf[i] {
      var k := ChangedByRule(buf, |RULES|, i);
      forall m | from <= m < i ensures buf[m] == X {
        assert InToken(buf, RULES[JSON], p, m);
      }
      NeedleEndsBefore(buf, k, from, i);
    }
  }

  lemma {:induction false} FirstExposed(buf: seq<Byte>, rule: Rule, p: nat, i: nat) returns (first: nat)
    requires p + |rule.needle| <= |buf| && InToken(buf, rule, p, i) && buf[i] != X
    ensures InToken(buf, rule, p, first) && buf[first] != X
    ensures forall m: nat :: InToken(buf, rule, p, m) && m < first ==> buf[m] == X
  {
    if m: nat :| m < i && InToken(buf, rule, p, m) && buf[m] != X {
      first := FirstExposed(buf, rule, p, m);
    } else {
      first := i;
    }
  }

  /** A JSON token is overwritten exactly when its needle is unshadowed (or it was all `x` to begin with). */
  lemma JsonTokenOverwrittenIff(buf: seq<Byte>, p: nat)
    requires OccursAt(buf, RULES[JSON].needle, p)
    ensures TokenOverwritten(buf, Censored(buf), RULES[JSON], p)
      <==> !Shadowed(buf, p) || TokenOverwritten(buf, buf, RULES[JSON], p)
  {
    if !Shadowed(buf, p) {
      UnshadowedOverwritten(buf, p);
    } else if TokenOverwritten(buf, buf, RULES[JSON], p) {
      CensoredOverwrites(buf, |RULES|);
    } else {
      var i: nat :| InToken(buf, RULES[JSON], p, i) && buf[i] != X;
      var first := FirstExposed(buf, RULES[JSON], p, i);
      ShadowedStays(buf, p, first);
    }
  }

  const NESTED: seq<Byte> := Ascii("AccessToken\":\"AccessToken\":\"k")

  lemma NestedNeedles()
    ensures OccursAt(NESTED, RULES[JSON].needle, 0) && OccursAt(NESTED, RULES[JSON].needle, 14)
    ensures |NESTED| == 29 && NESTED[28] != X && NESTED[28] != JSON_TERMINATORS[0]
    ensures InToken(NESTED, RULES[JSON], 0, 14) && InToken(NESTED, RULES[JSON], 14, 28)
  {
    var needle := Ascii("AccessToken\":\"");
    assert NESTED[0..14] == needle;
    assert NESTED[14..28] == needle;
    TokenEndIs(NESTED, 14, 25, JSON_TERMINATORS);
    TokenEndIs(NESTED, 28, 29, JSON_TERMINATORS);
  }

  /** A JSON needle inside the token of another is destroyed, and the token behind it stays. */
  lemma JsonTokenCanBeMissed()
    ensures exists buf: seq<Byte>, p: nat ::
      OccursAt(buf, RULES[JSON].needle, p) && !TokenOverwritten(buf, Censored(buf), RULES[JSON], p)
  {
    NestedNeedles();
    UrlShapes();
    assert !Shadowed(NESTED, 0);
    assert Shadowed(NESTED, 14);
    JsonTokenOverwrittenIff(NESTED, 14);
  }

  // ---- The literals themselves ----

  /** The buffer reads `s` at `p`. */
  predicate ReadsAt(buf: seq<Byte>, p: nat, s: string) {
    p + |s| <= |buf| && forall i :: 0 <= i < |s| ==> buf[p + i] as int == s[i] as int
  }

  /** From `from` on up to byte `i` the buffer has none of the characters `ends`. */
  predicate BeforeEnd(buf: seq<Byte>, from: nat, i: nat, ends: string) {
    from <= i < |buf| && forall k :: from <= k <= i ==> buf[k] as int as char !in ends
  }

  predicate UrlLiteral(s: string) {
    s == "api_key=" || s == "X-MediaBrowser-Token%3D" || s == "X-MediaBrowser-Token=" || s == "ApiKey=" || s == "AccessToken="
  }

  predicate AsciiOnly(s: string) { forall i :: 0 <= i < |s| ==> s[i] < 128 as char }

  lemma ReadIsOccurrence(buf: seq<Byte>, p: nat, s: string)
    requires AsciiOnly(s)
    ensures ReadsAt(buf, p, s) <==> OccursAt(buf, Ascii(s), p)
  {
    if OccursAt(buf, Ascii(s), p) {
      forall i | 0 <= i < |s|
        ensures buf[p + i] as int == s[i] as int
      {
        assert buf[p..p + |s|][i] == Ascii(s)[i];
      }
    }
  }

  lemma AsciiHas(s: string, b: Byte)
    requires AsciiOnly(s)
    ensures b in Ascii(s) <==> b as int as char in s
  {
    if b as int as char in s {
      var k :| 0 <= k < |s| && s[k] == b as int as char;
      assert Ascii(s)[k] == b;
    }
    if b in Ascii(s) {
      var k :| 0 <= k < |s| && Ascii(s)[k] == b;
      assert s[k] == b as int as char;
    }
  }

  lemma BeforeEndIsToken(buf: seq<Byte>, p: nat, s: string, ends: string, i: nat)
    requires AsciiOnly(s) && AsciiOnly(ends) && p + |s| <= |buf| && BeforeEnd(buf, p + |s|, i, ends)
    ensures InToken(buf, Rule(Ascii(s), Ascii(ends)), p, i)
  {
    var end := TokenEnd(buf, p + |s|, Ascii(ends));
    if end < |buf| {
      AsciiHas(ends, buf[end]);
    }
  }

  lemma UrlLiteralRule(s: string) returns (j: nat)
    requires UrlLiteral(s)
    ensures j < JSON && AsciiOnly(s) && AsciiOnly("&\"' \t\r\n;<>")
    ensures RULES[j] == Rule(Ascii(s), Ascii("&\"' \t\r\n;<>"))
  {
    j := if s == "api_key=" then 0
      else if s == "X-MediaBrowser-Token%3D" then 1
      else if s == "X-MediaBrowser-Token=" then 2
      else if s == "ApiKey=" then 3
      else 4;
  }

  /** Whatever stands in a buffer behind one of the five URL-style literals, up to the first of the characters
      that end such a token, is written over. */
  lemma LiteralUrlTokens(buf: seq<Byte>, p: nat, s: string, i: nat)
    requires UrlLiteral(s) && ReadsAt(buf, p, s) && BeforeEnd(buf, p + |s|, i, "&\"' \t\r\n;<>")
    ensures Censored(buf)[i] as int == 'x' as int
  {
    var j := UrlLiteralRule(s);
    ReadIsOccurrence(buf, p, s);
    BeforeEndIsToken(buf, p, s, "&\"' \t\r\n;<>", i);
    CensorReachesUrlTokens(buf, |RULES|, j, p);
  }

  /** And behind the JSON literal, wherever it still stands afterwards, nothing but `x` comes before the quote. */
  lemma LiteralJsonTokens(buf: seq<Byte>, p: nat, i: nat)
    requires ReadsAt(Censored(buf), p, "AccessToken\":\"") && BeforeEnd(Censored(buf), p + 14, i, "\"")
    ensures Censored(buf)[i] as int == 'x' as int
  {
    var r := Censored(buf);
    assert RULES[JSON] == Rule(Ascii("AccessToken\":\""), Ascii("\""));
    ReadIsOccurrence(r, p, "AccessToken\":\"");
    BeforeEndIsToken(r, p, "AccessToken\":\"", "\"", i);
    CensorRedactsAll(buf);
  }
}
