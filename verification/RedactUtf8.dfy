/** Redaction keeps valid UTF-8 valid. */
module RedactUtf8 {
  import opened Bytes
  import opened Redact

  // ---- UTF-8 stays UTF-8 (section 4 of RFC 3629) ----

  predicate Continuation(b: Byte) { 0x80 <= b <= 0xBF }

  /** The length of the well-formed character the bytes begin with, or 0. */
  function CharLen(b: seq<Byte>): (len: nat)
    ensures len <= |b|
    ensures len > 1 ==> forall i :: 0 <= i < len ==> b[i] >= 0x80
    ensures b != [] && b[0] < 0x80 ==> len == 1
  {
    if |b| >= 1 && b[0] < 0x80 then 1
    else if |b| >= 2 && 0xC2 <= b[0] <= 0xDF && Continuation(b[1]) then 2
    else if |b| >= 3 && Continuation(b[1]) && Continuation(b[2])
      && ((b[0] == 0xE0 && b[1] >= 0xA0) || 0xE1 <= b[0] <= 0xEC || (b[0] == 0xED && b[1] <= 0x9F) || 0xEE <= b[0] <= 0xEF) then 3
    else if |b| >= 4 && Continuation(b[1]) && Continuation(b[2]) && Continuation(b[3])
      && ((b[0] == 0xF0 && b[1] >= 0x90) || 0xF1 <= b[0] <= 0xF3 || (b[0] == 0xF4 && b[1] <= 0x8F)) then 4
    else 0
  }

  predicate ValidUtf8(b: seq<Byte>)
    decreases |b|
  {
    b == [] || (CharLen(b) > 0 && ValidUtf8(b[CharLen(b)..]))
  }

  /** `r` is `b` with some bytes overwritten, no run of non-ASCII bytes broken. */
  ghost predicate OverwritesWholeRuns(b: seq<Byte>, r: seq<Byte>) {
    && OverwritesOf(b, r)
    && forall i :: 0 <= i < |b| - 1 && b[i] >= 0x80 && b[i + 1] >= 0x80 ==> (r[i] == X <==> r[i + 1] == X)
  }

  lemma {:induction false} ValidBehindXs(r: seq<Byte>, k: nat)
    requires k <= |r| && ValidUtf8(r[k..])
    requires forall i :: 0 <= i < k ==> r[i] == X
    ensures ValidUtf8(r)
  {
    if k > 0 {
      assert r[k - 1] == X && r[k - 1..][1..] == r[k..];
      ValidBehindAscii(r[k - 1..]);
      ValidBehindXs(r, k - 1);
    } else {
      assert r[0..] == r;
    }
  }

  lemma ValidBehindAscii(r: seq<Byte>)
    requires r != [] && r[0] < 0x80 && ValidUtf8(r[1..])
    ensures ValidUtf8(r)
  {
    assert CharLen(r) == 1;
  }

  lemma {:induction false} OverwritesKeepUtf8(b: seq<Byte>, r: seq<Byte>)
    requires ValidUtf8(b) && OverwritesWholeRuns(b, r)
    ensures ValidUtf8(r)
    decreases |b|
  {
    if b != [] {
      var len := CharLen(b);
      OverwritesKeepUtf8(b[len..], r[len..]);
      if r[0] == X {
        forall i: nat | i < len ensures r[i] == X {
          RunOverwritten(b, r, i);
        }
        ValidBehindXs(r, len);
      } else {
        forall i: nat | i < len ensures r[i] == b[i] {
          RunOverwritten(b, r, i);
        }
        assert r[..len] == b[..len];
        assert CharLen(r) == len;
      }
    }
  }

  lemma {:induction false} RunOverwritten(b: seq<Byte>, r: seq<Byte>, i: nat)
    requires OverwritesWholeRuns(b, r) && i < CharLen(b)
    ensures r[i] == X <==> r[0] == X
  {
    if i > 0 {
      RunOverwritten(b, r, i - 1);
    }
  }

  lemma CoveredOn(buf: seq<Byte>, rule: Rule, i: nat)
    requires i + 1 < |buf| && buf[i + 1] !in rule.terminators && Covered(buf, rule, i)
    ensures Covered(buf, rule, i + 1)
  {
    var p: nat :| Found(buf, rule, p) && InToken(buf, rule, p, i);
    assert InToken(buf, rule, p, i + 1);
  }

  lemma CoveredBack(buf: seq<Byte>, rule: Rule, i: nat)
    requires rule.needle != []
    requires i + 1 < |buf| && buf[i] != rule.needle[|rule.needle| - 1] && Covered(buf, rule, i + 1)
    ensures Covered(buf, rule, i)
  {
    var p: nat :| Found(buf, rule, p) && InToken(buf, rule, p, i + 1);
    ByteOfOccurrence(buf, rule.needle, p, |rule.needle| - 1);
    assert InToken(buf, rule, p, i);
  }

  /** Tokens begin behind an ASCII byte and end at one, so no run of non-ASCII bytes is cut. */
  lemma ElideOverwritesWholeRuns(buf: seq<Byte>, rule: Rule)
    requires rule.needle != [] && rule.needle[|rule.needle| - 1] < 0x80
    requires forall t :: t in rule.terminators ==> t < 0x80
    ensures OverwritesWholeRuns(buf, Elided(buf, rule))
  {
    var r := Elided(buf, rule);
    forall i | 0 <= i < |buf| - 1 && buf[i] >= 0x80 && buf[i + 1] >= 0x80
      ensures r[i] == X <==> r[i + 1] == X
    {
      if Covered(buf, rule, i) {
        CoveredOn(buf, rule, i);
      }
      if Covered(buf, rule, i + 1) {
        CoveredBack(buf, rule, i);
      }
    }
  }

  lemma {:induction false} CensorKeepsUtf8(buf: seq<Byte>, k: nat)
    requires k <= |RULES| && ValidUtf8(buf)
    ensures ValidUtf8(CensoredBy(buf, k))
  {
    if k > 0 {
      CensorKeepsUtf8(buf, k - 1);
      ElideOverwritesWholeRuns(CensoredBy(buf, k - 1), RULES[k - 1]);
      OverwritesKeepUtf8(CensoredBy(buf, k - 1), CensoredBy(buf, k));
    }
  }
}
