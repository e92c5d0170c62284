/** The in-place token redactor of the logging backend. */
module Redact {
  import opened Bytes
  import opened Options

  const X: Byte := 120

  datatype Rule = Rule(needle: seq<Byte>, terminators: seq<Byte>)

  /** The bytes of an ASCII literal. */
  function Ascii(s: string): (bytes: seq<Byte>)
    requires forall i :: 0 <= i < |s| ==> s[i] < 128 as char
    ensures |bytes| == |s|
    ensures forall i :: 0 <= i < |s| ==> bytes[i] as int == s[i] as int
  {
    seq(|s|, i requires 0 <= i < |s| => s[i] as int as Byte)
  }

  const URL_TERMINATORS: seq<Byte> := Ascii("&\"' \t\r\n;<>")
  const JSON_TERMINATORS: seq<Byte> := Ascii("\"")

  const RULES: seq<Rule> := [
    Rule(Ascii("api_key="), URL_TERMINATORS),
    Rule(Ascii("X-MediaBrowser-Token%3D"), URL_TERMINATORS),
    Rule(Ascii("X-MediaBrowser-Token="), URL_TERMINATORS),
    Rule(Ascii("ApiKey="), URL_TERMINATORS),
    Rule(Ascii("AccessToken="), URL_TERMINATORS),
    Rule(Ascii("AccessToken\":\""), JSON_TERMINATORS)
  ]

  // ---- Searching ----

  predicate OccursAt(buf: seq<Byte>, needle: seq<Byte>, p: nat) {
    p + |needle| <= |buf| && buf[p..p + |needle|] == needle
  }

  /** The first occurrence of a non-empty needle at or after `from`. */
  function FindSubslice(haystack: seq<Byte>, needle: seq<Byte>, from: nat): (pos: Option<nat>)
    ensures pos.Some? ==> from <= pos.value && needle != [] && OccursAt(haystack, needle, pos.value)
    ensures pos.Some? ==> forall q: nat :: from <= q < pos.value ==> !OccursAt(haystack, needle, q)
    ensures pos.None? && needle != [] ==> forall q: nat :: from <= q ==> !OccursAt(haystack, needle, q)
    decreases |haystack| - from
  {
    if needle == [] || from > |haystack| then None
    else if OccursAt(haystack, needle, from) then Some(from)
    else FindSubslice(haystack, needle, from + 1)
  }

  /** The first terminator at or after `from`, or the end of the buffer. */
  function TokenEnd(buf: seq<Byte>, from: nat, terminators: seq<Byte>): (end: nat)
    requires from <= |buf|
    ensures from <= end <= |buf|
    ensures forall i :: from <= i < end ==> buf[i] !in terminators
    ensures end < |buf| ==> buf[end] in terminators
    decreases |buf| - from
  {
    if from == |buf| || buf[from] in terminators then from
    else TokenEnd(buf, from + 1, terminators)
  }

  // ---- What one rule does ----

  /** The occurrences a left-to-right scan stops at: it resumes behind the token of the
      occurrence before, so an occurrence that starts earlier than that is passed over. */
  ghost predicate Found(buf: seq<Byte>, rule: Rule, p: nat): (found: bool)
    ensures found ==> p + |rule.needle| <= |buf|
    decreases p
  {
    && rule.needle != []
    && OccursAt(buf, rule.needle, p)
    && forall q: nat :: q < p && Found(buf, rule, q) ==> TokenEnd(buf, q + |rule.needle|, rule.terminators) <= p
  }

  /** Byte `i` belongs to the token behind the occurrence at `p`. */
  predicate InToken(buf: seq<Byte>, rule: Rule, p: nat, i: nat)
    requires p + |rule.needle| <= |buf|
  {
    p + |rule.needle| <= i < TokenEnd(buf, p + |rule.needle|, rule.terminators)
  }

  ghost predicate Covered(buf: seq<Byte>, rule: Rule, i: nat) {
    exists p: nat :: Found(buf, rule, p) && InToken(buf, rule, p, i)
  }

  /** The buffer with every token behind a found occurrence overwritten. */
  ghost function Elided(buf: seq<Byte>, rule: Rule): (r: seq<Byte>)
    ensures |r| == |buf|
  {
    seq(|buf|, i requires 0 <= i < |buf| => if Covered(buf, rule, i) then X else buf[i])
  }

  /** The end of a token is determined by what `TokenEnd` promises. */
  lemma TokenEndIs(buf: seq<Byte>, from: nat, end: nat, terminators: seq<Byte>)
    requires from <= end <= |buf|
    requires forall i :: from <= i < end ==> buf[i] !in terminators
    requires end < |buf| ==> buf[end] in terminators
    ensures TokenEnd(buf, from, terminators) == end
  {
  }

  /** Bytes from `start` on decide everything the scan looks at from `start` on. */
  lemma SameTail(a: seq<Byte>, b: seq<Byte>, rule: Rule, start: nat)
    requires |a| == |b|
    requires forall i :: start <= i < |a| ==> a[i] == b[i]
    ensures forall q: nat :: start <= q ==> OccursAt(a, rule.needle, q) == OccursAt(b, rule.needle, q)
    ensures forall from: nat :: start <= from <= |a| ==> TokenEnd(a, from, rule.terminators) == TokenEnd(b, from, rule.terminators)
  {
    forall q: nat | start <= q && q + |rule.needle| <= |a|
      ensures OccursAt(a, rule.needle, q) == OccursAt(b, rule.needle, q)
    {
      assert a[q..q + |rule.needle|] == b[q..q + |rule.needle|];
    }
    forall from: nat | start <= from <= |a|
      ensures TokenEnd(a, from, rule.terminators) == TokenEnd(b, from, rule.terminators)
    {
      TokenEndIs(b, from, TokenEnd(a, from, rule.terminators), rule.terminators);
    }
  }

  ghost predicate Frontier(buf: seq<Byte>, rule: Rule, start: nat) {
    forall q: nat :: q < start && Found(buf, rule, q) ==> TokenEnd(buf, q + |rule.needle|, rule.terminators) <= start
  }

  /** The next occurrence behind the frontier is found. */
  lemma NextIsFound(buf: seq<Byte>, rule: Rule, start: nat, pos: nat)
    requires Frontier(buf, rule, start)
    requires start <= pos && rule.needle != [] && OccursAt(buf, rule.needle, pos)
    requires forall q: nat :: start <= q < pos ==> !OccursAt(buf, rule.needle, q)
    ensures Found(buf, rule, pos)
  {
    forall q: nat | q < pos && Found(buf, rule, q)
      ensures TokenEnd(buf, q + |rule.needle|, rule.terminators) <= pos
    {
      assert OccursAt(buf, rule.needle, q);
    }
  }

  lemma FoundApart(buf: seq<Byte>, rule: Rule, q: nat, p: nat)
    requires q < p && Found(buf, rule, q) && Found(buf, rule, p)
    ensures TokenEnd(buf, q + |rule.needle|, rule.terminators) <= p
  {
  }

  /** One turn of the scan: the next occurrence is found, and it alone covers bytes up to its token's end. */
  lemma ElidedStep(buf: seq<Byte>, rule: Rule, start: nat, pos: nat)
    requires Frontier(buf, rule, start)
    requires start <= pos && rule.needle != [] && OccursAt(buf, rule.needle, pos)
    requires forall q: nat :: start <= q < pos ==> !OccursAt(buf, rule.needle, q)
    ensures var end := TokenEnd(buf, pos + |rule.needle|, rule.terminators);
      && Frontier(buf, rule, end)
      && forall i: nat :: start <= i < end ==> Covered(buf, rule, i) == (pos + |rule.needle| <= i)
  {
    NextIsFound(buf, rule, start, pos);
    var end := TokenEnd(buf, pos + |rule.needle|, rule.terminators);
    forall q: nat | q < end && Found(buf, rule, q)
      ensures q < start || q == pos
    {
      FoundInRange(buf, rule, start, pos, q);
    }
    forall i: nat | start <= i < end
      ensures Covered(buf, rule, i) == (pos + |rule.needle| <= i)
    {
      assert InToken(buf, rule, pos, i) == (pos + |rule.needle| <= i);
      if Covered(buf, rule, i) {
        var q: nat :| Found(buf, rule, q) && InToken(buf, rule, q, i);
        assert q < end;
      }
    }
  }

  lemma FoundInRange(buf: seq<Byte>, rule: Rule, start: nat, pos: nat, q: nat)
    requires forall r: nat :: start <= r < pos ==> !OccursAt(buf, rule.needle, r)
    requires Found(buf, rule, pos) && Found(buf, rule, q)
    requires q < TokenEnd(buf, pos + |rule.needle|, rule.terminators)
    ensures q < start || q == pos
  {
    if pos < q {
      FoundApart(buf, rule, pos, q);
    }
  }

  lemma ElidedRest(buf: seq<Byte>, rule: Rule, start: nat)
    requires Frontier(buf, rule, start)
    requires rule.needle != [] ==> forall q: nat :: start <= q ==> !OccursAt(buf, rule.needle, q)
    ensures forall i: nat :: start <= i ==> !Covered(buf, rule, i)
  {
  }

  /** The scan has come to `start`: what lies before is as the rule leaves it, what lies behind is untouched. */
  ghost predicate DoneUpTo(was: seq<Byte>, cur: seq<Byte>, rule: Rule, start: nat) {
    && |cur| == |was| && start <= |was|
    && (forall i :: start <= i < |was| ==> cur[i] == was[i])
    && (forall i :: 0 <= i < start ==> cur[i] == Elided(was, rule)[i])
    && Frontier(was, rule, start)
  }

  lemma DoneStep(was: seq<Byte>, cur: seq<Byte>, next: seq<Byte>, rule: Rule, start: nat, pos: nat)
    requires DoneUpTo(was, cur, rule, start) && FindSubslice(cur, rule.needle, start) == Some(pos) && |next| == |cur|
    requires var from := pos + |rule.needle|;
      forall i :: 0 <= i < |cur| ==>
        next[i] == if from <= i < TokenEnd(cur, from, rule.terminators) then X else cur[i]
    ensures DoneUpTo(was, next, rule, TokenEnd(cur, pos + |rule.needle|, rule.terminators))
  {
    SameTail(was, cur, rule, start);
    ElidedStep(was, rule, start, pos);
  }

  lemma DoneAll(was: seq<Byte>, cur: seq<Byte>, rule: Rule, start: nat)
    requires DoneUpTo(was, cur, rule, start) && FindSubslice(cur, rule.needle, start).None?
    ensures cur == Elided(was, rule)
  {
    SameTail(was, cur, rule, start);
    ElidedRest(was, rule, start);
  }

  method Elide(buf: array<Byte>, rule: Rule)
    modifies buf
    ensures buf[..] == Elided(old(buf[..]), rule)
  {
    ghost var was := buf[..];
    var start := 0;
    var next := FindSubslice(buf[..], rule.needle, start);
    while next.Some?
      invariant next == FindSubslice(buf[..], rule.needle, start)
      invariant DoneUpTo(was, buf[..], rule, start)
      decreases buf.Length - start
    {
      ghost var cur := buf[..];
      var pos := next.value;
      var tokenStart := pos + |rule.needle|;
      var tokenEnd := TokenEnd(buf[..], tokenStart, rule.terminators);
      Overwrite(buf, tokenStart, tokenEnd);
      DoneStep(was, cur, buf[..], rule, start, pos);
      start := if tokenEnd > tokenStart then tokenEnd else tokenStart;
      next := FindSubslice(buf[..], rule.needle, start);
    }
    DoneAll(was, buf[..], rule, start);
  }

  method Overwrite(buf: array<Byte>, from: nat, to: nat)
    requires from <= to <= buf.Length
    modifies buf
    ensures forall k :: 0 <= k < buf.Length ==> buf[k] == if from <= k < to then X else old(buf[k])
  {
    for i := from to to
      invariant forall k :: 0 <= k < buf.Length ==> buf[k] == if from <= k < i then X else old(buf[k])
    {
      buf[i] := X;
    }
  }

  // ---- What all rules do ----

  /** The buffer after the first `k` rules. */
  ghost function CensoredBy(buf: seq<Byte>, k: nat): (r: seq<Byte>)
    requires k <= |RULES|
    ensures |r| == |buf|
  {
    if k == 0 then buf else Elided(CensoredBy(buf, k - 1), RULES[k - 1])
  }

  ghost function Censored(buf: seq<Byte>): (r: seq<Byte>)
    ensures |r| == |buf|
  {
    CensoredBy(buf, |RULES|)
  }

  method Censor(buf: array<Byte>)
    modifies buf
    ensures buf[..] == Censored(old(buf[..]))
  {
    for k := 0 to |RULES|
      invariant buf[..] == CensoredBy(old(buf[..]), k)
    {
      Elide(buf, RULES[k]);
    }
  }

  // ---- Facts about the rule table ----

  ghost predicate WellFormed(rule: Rule) {
    && rule.needle != []
    && X !in rule.needle
    && X !in rule.terminators
    && forall k :: 0 < k < |rule.needle| ==> rule.needle[k] != rule.needle[0]
  }

  ghost predicate StopsAtLeastAt(r: Rule, s: Rule) {
    forall b :: b in s.terminators ==> b in r.terminators
  }

  lemma AsciiRule(needle: string, terminators: string)
    requires forall i :: 0 <= i < |needle| ==> needle[i] < 128 as char
    requires forall i :: 0 <= i < |terminators| ==> terminators[i] < 128 as char
    requires needle != "" && 'x' !in needle && 'x' !in terminators
    requires forall i :: 0 < i < |needle| ==> needle[i] != needle[0]
    ensures WellFormed(Rule(Ascii(needle), Ascii(terminators)))
  {
  }

  lemma KeyRules()
    ensures WellFormed(RULES[0]) && WellFormed(RULES[3]) && WellFormed(RULES[4])
  {
    AsciiRule("api_key=", "&\"' \t\r\n;<>");
    AsciiRule("ApiKey=", "&\"' \t\r\n;<>");
    AsciiRule("AccessToken=", "&\"' \t\r\n;<>");
  }

  lemma TokenRules()
    ensures WellFormed(RULES[1]) && WellFormed(RULES[2])
  {
    AsciiRule("X-MediaBrowser-Token%3D", "&\"' \t\r\n;<>");
    AsciiRule("X-MediaBrowser-Token=", "&\"' \t\r\n;<>");
  }

  lemma JsonRule()
    ensures WellFormed(RULES[5])
  {
    AsciiRule("AccessToken\":\"", "\"");
  }

  lemma RuleTable()
    ensures forall k :: 0 <= k < |RULES| ==> WellFormed(RULES[k])
    ensures forall j, k :: 0 <= j < k < |RULES| ==> StopsAtLeastAt(RULES[j], RULES[k])
  {
    KeyRules();
    TokenRules();
    JsonRule();
    assert URL_TERMINATORS[1] == JSON_TERMINATORS[0];
  }

  // ---- Occurrences never appear ----

  /** `r` is `buf` with some bytes overwritten. */
  ghost predicate OverwritesOf(buf: seq<Byte>, r: seq<Byte>) {
    |r| == |buf| && forall i :: 0 <= i < |buf| ==> r[i] == buf[i] || r[i] == X
  }

  lemma OccurrenceWasThere(buf: seq<Byte>, r: seq<Byte>, needle: seq<Byte>, p: nat)
    requires OverwritesOf(buf, r) && X !in needle && OccursAt(r, needle, p)
    ensures OccursAt(buf, needle, p)
  {
    forall i | 0 <= i < |needle|
      ensures buf[p + i] == needle[i]
    {
      assert r[p + i] == r[p..p + |needle|][i];
    }
  }

  lemma ByteOfOccurrence(buf: seq<Byte>, needle: seq<Byte>, p: nat, i: nat)
    requires OccursAt(buf, needle, p) && i < |needle|
    ensures buf[p + i] == needle[i]
  {
    assert buf[p + i] == buf[p..p + |needle|][i];
  }

  lemma TerminatorStays(buf: seq<Byte>, rule: Rule, i: nat)
    requires i < |buf| && buf[i] in rule.terminators
    ensures Elided(buf, rule)[i] == buf[i]
  {
  }

  // ---- One rule establishes its promise, and the others keep it ----

  /** Every occurrence of the needle is followed by overwritten bytes only, up to the rule's terminator. */
  ghost predicate Redacted(buf: seq<Byte>, rule: Rule) {
    forall p: nat, i: nat :: OccursAt(buf, rule.needle, p) && InToken(buf, rule, p, i) ==> buf[i] == X
  }

  /** The token behind a found occurrence is overwritten and ends where it ended. */
  lemma FoundTokenElided(buf: seq<Byte>, rule: Rule, p: nat)
    requires WellFormed(rule) && Found(buf, rule, p)
    ensures var end := TokenEnd(buf, p + |rule.needle|, rule.terminators);
      && TokenEnd(Elided(buf, rule), p + |rule.needle|, rule.terminators) == end
      && forall i :: p + |rule.needle| <= i < end ==> Elided(buf, rule)[i] == X
  {
    var r, from := Elided(buf, rule), p + |rule.needle|;
    var end := TokenEnd(buf, from, rule.terminators);
    forall i | from <= i < end
      ensures r[i] == X
    {
      assert InToken(buf, rule, p, i);
    }
    if end < |buf| {
      TerminatorStays(buf, rule, end);
    }
    TokenEndIs(r, from, end, rule.terminators);
  }

  /** An occurrence whose first byte survives was not passed over by the scan. */
  lemma NotPassedOver(buf: seq<Byte>, rule: Rule, q: nat, p: nat)
    requires WellFormed(rule) && Found(buf, rule, q) && q < p && OccursAt(buf, rule.needle, p)
    requires Elided(buf, rule)[p] != X
    ensures TokenEnd(buf, q + |rule.needle|, rule.terminators) <= p
  {
    FoundTokenElided(buf, rule, q);
    ByteOfOccurrence(buf, rule.needle, p, 0);
    if p < q + |rule.needle| {
      ByteOfOccurrence(buf, rule.needle, q, p - q);
    }
  }

  lemma SurvivorIsFound(buf: seq<Byte>, rule: Rule, p: nat)
    requires WellFormed(rule) && OccursAt(Elided(buf, rule), rule.needle, p)
    ensures Found(buf, rule, p)
  {
    var r := Elided(buf, rule);
    OccurrenceWasThere(buf, r, rule.needle, p);
    ByteOfOccurrence(r, rule.needle, p, 0);
    forall q: nat | q < p && Found(buf, rule, q)
      ensures TokenEnd(buf, q + |rule.needle|, rule.terminators) <= p
    {
      NotPassedOver(buf, rule, q, p);
    }
  }

  lemma ElideRedacts(buf: seq<Byte>, rule: Rule)
    requires WellFormed(rule)
    ensures Redacted(Elided(buf, rule), rule)
  {
    var r := Elided(buf, rule);
    forall p: nat, i: nat | OccursAt(r, rule.needle, p) && InToken(r, rule, p, i)
      ensures r[i] == X
    {
      SurvivorIsFound(buf, rule, p);
      FoundTokenElided(buf, rule, p);
    }
  }

  /** A later rule that stops only where `kept` stops too does not undo what `kept` established. */
  lemma ElideKeepsRedacted(buf: seq<Byte>, kept: Rule, rule: Rule)
    requires WellFormed(kept) && WellFormed(rule) && StopsAtLeastAt(kept, rule)
    requires Redacted(buf, kept)
    ensures Redacted(Elided(buf, rule), kept)
  {
    var r := Elided(buf, rule);
    forall p: nat, i: nat | OccursAt(r, kept.needle, p) && InToken(r, kept, p, i)
      ensures r[i] == X
    {
      var from := p + |kept.needle|;
      OccurrenceWasThere(buf, r, kept.needle, p);
      var end := TokenEnd(buf, from, kept.terminators);
      if i < end {
        assert InToken(buf, kept, p, i);
      } else {
        // The old terminator at `end` was itself overwritten, inside a token of `rule` that reaches past `i`.
        assert r[end] != buf[end];
        var q: nat :| Found(buf, rule, q) && InToken(buf, rule, q, end);
        FoundTokenElided(buf, rule, q);
        var stop := TokenEnd(buf, q + |rule.needle|, rule.terminators);
        if stop < |buf| {
          TerminatorStays(buf, rule, stop);
        }
      }
    }
  }

  lemma {:induction false} CensoredByRedacts(buf: seq<Byte>, k: nat)
    requires k <= |RULES|
    ensures forall j :: 0 <= j < k ==> Redacted(CensoredBy(buf, k), RULES[j])
  {
    RuleTable();
    if k > 0 {
      CensoredByRedacts(buf, k - 1);
      var before := CensoredBy(buf, k - 1);
      ElideRedacts(before, RULES[k - 1]);
      forall j | 0 <= j < k - 1
        ensures Redacted(CensoredBy(buf, k), RULES[j])
      {
        ElideKeepsRedacted(before, RULES[j], RULES[k - 1]);
      }
    }
  }

  /** After `censor`, whatever needle still stands in the buffer is followed by overwritten bytes only. */
  lemma CensorRedactsAll(buf: seq<Byte>)
    ensures forall j :: 0 <= j < |RULES| ==> Redacted(Censored(buf), RULES[j])
  {
    CensoredByRedacts(buf, |RULES|);
  }

  // ---- Nothing but token bytes is touched ----

  lemma OverwritesTransitive(a: seq<Byte>, b: seq<Byte>, c: seq<Byte>)
    requires OverwritesOf(a, b) && OverwritesOf(b, c)
    ensures OverwritesOf(a, c)
  {
  }

  lemma SameEnds(buf: seq<Byte>, r: seq<Byte>, terminators: seq<Byte>)
    requires OverwritesOf(buf, r) && X !in terminators
    requires forall i :: 0 <= i < |buf| && buf[i] in terminators ==> r[i] == buf[i]
    ensures forall from: nat :: from <= |buf| ==> TokenEnd(r, from, terminators) == TokenEnd(buf, from, terminators)
  {
    forall from: nat | from <= |buf|
      ensures TokenEnd(r, from, terminators) == TokenEnd(buf, from, terminators)
    {
      TokenEndIs(r, from, TokenEnd(buf, from, terminators), terminators);
    }
  }

  lemma TerminatorsStay(before: seq<Byte>, rule: Rule, later: Rule)
    requires StopsAtLeastAt(rule, later)
    ensures OverwritesOf(before, Elided(before, rule))
    ensures forall i :: 0 <= i < |before| && before[i] in later.terminators ==> Elided(before, rule)[i] == before[i]
  {
    forall i | 0 <= i < |before| && before[i] in later.terminators
      ensures Elided(before, rule)[i] == before[i]
    {
      TerminatorStays(before, rule, i);
    }
  }

  /** The first `k` rules keep the terminators of every rule from `m` on. */
  lemma {:induction false} TerminatorsSurvive(buf: seq<Byte>, k: nat, m: nat)
    requires k <= m < |RULES|
    ensures OverwritesOf(buf, CensoredBy(buf, k))
    ensures forall i :: 0 <= i < |buf| && buf[i] in RULES[m].terminators ==> CensoredBy(buf, k)[i] == buf[i]
    ensures forall from: nat :: from <= |buf| ==>
      TokenEnd(CensoredBy(buf, k), from, RULES[m].terminators) == TokenEnd(buf, from, RULES[m].terminators)
  {
    RuleTable();
    var r := CensoredBy(buf, k);
    if k > 0 {
      TerminatorsSurvive(buf, k - 1, m);
      TerminatorsStay(CensoredBy(buf, k - 1), RULES[k - 1], RULES[m]);
      OverwritesTransitive(buf, CensoredBy(buf, k - 1), r);
    }
    SameEnds(buf, r, RULES[m].terminators);
  }

  lemma {:induction false} CensoredOverwrites(buf: seq<Byte>, k: nat)
    requires k <= |RULES|
    ensures OverwritesOf(buf, CensoredBy(buf, k))
  {
    if k > 0 {
      CensoredOverwrites(buf, k - 1);
      OverwritesTransitive(buf, CensoredBy(buf, k - 1), CensoredBy(buf, k));
    }
  }

  /** Byte `i` lies in the token of an occurrence of a rule's needle. */
  ghost predicate InSomeToken(buf: seq<Byte>, rule: Rule, i: nat) {
    exists p: nat :: OccursAt(buf, rule.needle, p) && InToken(buf, rule, p, i)
  }

  /** What rule `k` covers when its turn comes is a token of the original buffer. */
  lemma CoveredWasToken(buf: seq<Byte>, k: nat, i: nat)
    requires k < |RULES| && i < |buf|
    requires Covered(CensoredBy(buf, k), RULES[k], i)
    ensures exists p: nat ::
      Found(CensoredBy(buf, k), RULES[k], p) && OccursAt(buf, RULES[k].needle, p) && InToken(buf, RULES[k], p, i)
  {
    RuleTable();
    TerminatorsSurvive(buf, k, k);
    var cur := CensoredBy(buf, k);
    var p: nat :| Found(cur, RULES[k], p) && InToken(cur, RULES[k], p, i);
    OccurrenceWasThere(buf, cur, RULES[k].needle, p);
    assert InToken(buf, RULES[k], p, i);
  }

  /** `censor` keeps the length, writes nothing but `x`, and writes only inside tokens of the original buffer. */
  lemma {:induction false} CensorTouchesTokensOnly(buf: seq<Byte>, k: nat)
    requires k <= |RULES|
    ensures OverwritesOf(buf, CensoredBy(buf, k))
    ensures forall i :: 0 <= i < |buf| && CensoredBy(buf, k)[i] != buf[i] ==>
      exists j :: 0 <= j < k && InSomeToken(buf, RULES[j], i)
  {
    CensoredOverwrites(buf, k);
    if k > 0 {
      CensorTouchesTokensOnly(buf, k - 1);
      var before, r := CensoredBy(buf, k - 1), CensoredBy(buf, k);
      forall i | 0 <= i < |buf| && r[i] != buf[i]
        ensures exists j :: 0 <= j < k && InSomeToken(buf, RULES[j], i)
      {
        if r[i] != before[i] {
          CoveredWasToken(buf, k - 1, i);
          assert InSomeToken(buf, RULES[k - 1], i);
        }
      }
    }
  }

  // ---- Censoring twice is censoring once ----

  lemma RedactedIsFixed(buf: seq<Byte>, rule: Rule)
    requires Redacted(buf, rule)
    ensures Elided(buf, rule) == buf
  {
  }

  ghost predicate AllRedacted(buf: seq<Byte>) {
    forall j :: 0 <= j < |RULES| ==> Redacted(buf, RULES[j])
  }

  lemma {:induction false} AllRedactedIsFixed(buf: seq<Byte>, k: nat)
    requires k <= |RULES| && AllRedacted(buf)
    ensures CensoredBy(buf, k) == buf
  {
    if k > 0 {
      AllRedactedIsFixed(buf, k - 1);
      RedactedIsFixed(buf, RULES[k - 1]);
    }
  }

  lemma CensorIdempotent(buf: seq<Byte>)
    ensures Censored(Censored(buf)) == Censored(buf)
  {
    CensorRedactsAll(buf);
    AllRedactedIsFixed(Censored(buf), |RULES|);
  }

  /** The buffers `censor` leaves alone are exactly those without an exposed token. */
  lemma FixedIffAllRedacted(buf: seq<Byte>)
    ensures Censored(buf) == buf <==> AllRedacted(buf)
  {
    if Censored(buf) == buf {
      CensorRedactsAll(buf);
    } else if AllRedacted(buf) {
      AllRedactedIsFixed(buf, |RULES|);
    }
  }

  // ---- The gate in front of censor ----

  /** The first occurrence of the needle is followed by a non-empty token. */
  predicate FirstTokenExposed(buf: seq<Byte>, rule: Rule) {
    var pos := FindSubslice(buf, rule.needle, 0);
    pos.Some? && pos.value + |rule.needle| < |buf| && buf[pos.value + |rule.needle|] !in rule.terminators
  }

  ghost predicate Gate(buf: seq<Byte>) {
    exists k :: 0 <= k < |RULES| && FirstTokenExposed(buf, RULES[k])
  }

  method RuleOpensGate(buf: seq<Byte>, rule: Rule) returns (opens: bool)
    ensures opens <==> FirstTokenExposed(buf, rule)
  {
    var pos := FindSubslice(buf, rule.needle, 0);
    if pos.None? {
      return false;
    }
    var tokenStart := pos.value + |rule.needle|;
    opens := tokenStart < |buf| && buf[tokenStart] !in rule.terminators;
  }

  method ContainsSecret(buf: seq<Byte>) returns (secret: bool)
    ensures secret <==> Gate(buf)
  {
    for k := 0 to |RULES|
      invariant forall j :: 0 <= j < k ==> !FirstTokenExposed(buf, RULES[j])
    {
      var opens := RuleOpensGate(buf, RULES[k]);
      if opens {
        return true;
      }
    }
    return false;
  }

  /** The first occurrence of every needle is followed by a terminator or the end of the buffer. */
  ghost predicate FirstTokensEmpty(buf: seq<Byte>) {
    forall k: nat, p: nat :: k < |RULES| && OccursAt(buf, RULES[k].needle, p)
      && (forall q: nat :: q < p ==> !OccursAt(buf, RULES[k].needle, q))
      ==> TokenEnd(buf, p + |RULES[k].needle|, RULES[k].terminators) == p + |RULES[k].needle|
  }

  lemma FirstOccurrenceIs(buf: seq<Byte>, needle: seq<Byte>, p: nat)
    requires needle != [] && OccursAt(buf, needle, p) && forall q: nat :: q < p ==> !OccursAt(buf, needle, q)
    ensures FindSubslice(buf, needle, 0) == Some(p)
  {
  }

  lemma TokenOpensGate(buf: seq<Byte>, k: nat, p: nat)
    requires k < |RULES| && RULES[k].needle != [] && OccursAt(buf, RULES[k].needle, p)
    requires forall q: nat :: q < p ==> !OccursAt(buf, RULES[k].needle, q)
    ensures FirstTokenExposed(buf, RULES[k]) <==>
      TokenEnd(buf, p + |RULES[k].needle|, RULES[k].terminators) != p + |RULES[k].needle|
  {
    FirstOccurrenceIs(buf, RULES[k].needle, p);
  }

  /** The guard opens exactly if the first occurrence of some needle has a token. */
  lemma GateOpensIff(buf: seq<Byte>)
    ensures Gate(buf) <==> !FirstTokensEmpty(buf)
  {
    RuleTable();
    if !FirstTokensEmpty(buf) {
      var k: nat, p: nat :| k < |RULES| && OccursAt(buf, RULES[k].needle, p)
        && (forall q: nat :: q < p ==> !OccursAt(buf, RULES[k].needle, q))
        && TokenEnd(buf, p + |RULES[k].needle|, RULES[k].terminators) != p + |RULES[k].needle|;
      TokenOpensGate(buf, k, p);
    }
    if Gate(buf) {
      var k :| 0 <= k < |RULES| && FirstTokenExposed(buf, RULES[k]);
      TokenOpensGate(buf, k, FindSubslice(buf, RULES[k].needle, 0).value);
    }
  }

  ghost function Guarded(buf: seq<Byte>): seq<Byte> {
    if Gate(buf) then Censored(buf) else buf
  }

  /** The log writer's guard: `censor` runs only behind `contains_secret`. */
  method GuardDrop(buf: array<Byte>)
    modifies buf
    ensures buf[..] == Guarded(old(buf[..]))
  {
    var secret := ContainsSecret(buf[..]);
    if secret {
      Censor(buf);
    }
  }

  /** The guard writes what `censor` would write exactly when the gate opens or nothing is exposed. */
  lemma GuardedIsCensoredIff(buf: seq<Byte>)
    ensures Guarded(buf) == Censored(buf) <==> Gate(buf) || AllRedacted(buf)
  {
    FixedIffAllRedacted(buf);
  }

  /** An occurrence of the needle behind another one has a byte other than `x` in its token. */
  ghost predicate LaterTokenExposed(buf: seq<Byte>, rule: Rule, p: nat) {
    && OccursAt(buf, rule.needle, p)
    && (exists q: nat :: q < p && OccursAt(buf, rule.needle, q))
    && exists i: nat :: InToken(buf, rule, p, i) && buf[i] != X
  }

  lemma ExposedBehindClosedGate(buf: seq<Byte>, rule: Rule, p: nat, i: nat)
    requires rule.needle != [] && !FirstTokenExposed(buf, rule)
    requires OccursAt(buf, rule.needle, p) && InToken(buf, rule, p, i) && buf[i] != X
    ensures LaterTokenExposed(buf, rule, p)
  {
    var first := FindSubslice(buf, rule.needle, 0);
    assert OccursAt(buf, rule.needle, first.value) && first.value <= p;
  }

  lemma ExposedByte(buf: seq<Byte>, rule: Rule) returns (p: nat, i: nat)
    requires !Redacted(buf, rule)
    ensures OccursAt(buf, rule.needle, p) && InToken(buf, rule, p, i) && buf[i] != X
  {
    p, i :| OccursAt(buf, rule.needle, p) && InToken(buf, rule, p, i) && buf[i] != X;
  }

  lemma SomeLaterTokenExposed(buf: seq<Byte>) returns (k: nat, p: nat)
    requires !Gate(buf) && !AllRedacted(buf)
    ensures k < |RULES| && LaterTokenExposed(buf, RULES[k], p)
  {
    RuleTable();
    k :| 0 <= k < |RULES| && !Redacted(buf, RULES[k]);
    var i: nat;
    p, i := ExposedByte(buf, RULES[k]);
    ExposedBehindClosedGate(buf, RULES[k], p, i);
  }

  /** The guard lets a token through that `censor` would overwrite exactly when the first occurrence of every
      needle has an empty token and some later occurrence has a byte other than `x` in its own. */
  lemma GuardMissesIff(buf: seq<Byte>)
    ensures Guarded(buf) != Censored(buf) <==>
            FirstTokensEmpty(buf) && exists k: nat, p: nat :: k < |RULES| && LaterTokenExposed(buf, RULES[k], p)
  {
    GateOpensIff(buf);
    FixedIffAllRedacted(buf);
    if !Gate(buf) && !AllRedacted(buf) {
      var k, p := SomeLaterTokenExposed(buf);
    }
  }

  lemma NotExposedWithoutFirstByte(buf: seq<Byte>, rule: Rule)
    requires rule.needle != [] && rule.needle[0] !in buf
    ensures !FirstTokenExposed(buf, rule)
  {
    var pos := FindSubslice(buf, rule.needle, 0);
    if pos.Some? {
      ByteOfOccurrence(buf, rule.needle, pos.value, 0);
    }
  }

  lemma FirstBytes()
    ensures forall k :: 0 < k < |RULES| ==> RULES[k].needle != [] && RULES[k].needle[0] in [65, 88]
  {
  }

  const TWO_TOKENS: seq<Byte> := Ascii("api_key=&api_key=k")

  lemma TwoTokensGateClosed()
    ensures !Gate(TWO_TOKENS)
  {
    var buf := TWO_TOKENS;
    FirstBytes();
    assert 65 !in buf && 88 !in buf;
    forall k | 0 <= k < |RULES|
      ensures !FirstTokenExposed(buf, RULES[k])
    {
      if k > 0 {
        NotExposedWithoutFirstByte(buf, RULES[k]);
      } else {
        assert buf[0..8] == Ascii("api_key=");
        assert OccursAt(buf, RULES[0].needle, 0);
        assert buf[8] == URL_TERMINATORS[0];
      }
    }
  }

  /** A buffer the gate lets through unchanged although a second token stands exposed: only the first
      occurrence of a needle is looked at. */
  lemma GateMissesLaterToken()
    ensures exists buf :: !Gate(buf) && !AllRedacted(buf)
  {
    TwoTokensGateClosed();
    var buf := TWO_TOKENS;
    assert buf[9..17] == Ascii("api_key=");
    assert OccursAt(buf, RULES[0].needle, 9);
    assert buf[17] as int == 'k' as int;
    assert InToken(buf, RULES[0], 9, 17);
    assert !Redacted(buf, RULES[0]);
  }
}
