/** Normalisation of the device name. Names are ASCII: one char is one byte. */
module DeviceNames {
  const DEVICE_NAME_MAX: nat := 64

  predicate Blank(c: char) {
    c == ' ' || c == '\t' || c == '\r' || c == '\n' || c == 11 as char || c == 12 as char
  }

  // ---- Words ----

  predicate EndsInBlank(s: string) {
    s != "" && Blank(s[|s| - 1])
  }

  /** The words after one more character, behind a blank or not. */
  function Grown(words: seq<string>, behindBlank: bool, c: char): seq<string> {
    if Blank(c) then words
    else if words == [] || behindBlank then words + [[c]]
    else words[..|words| - 1] + [words[|words| - 1] + [c]]
  }

  /** The maximal runs of non-blanks. */
  function Words(s: string): seq<string> {
    if s == "" then [] else Grown(Words(s[..|s| - 1]), EndsInBlank(s[..|s| - 1]), s[|s| - 1])
  }

  function Spaced(words: seq<string>): string {
    if words == [] then ""
    else if |words| == 1 then words[0]
    else Spaced(words[..|words| - 1]) + " " + words[|words| - 1]
  }

  predicate Proper(word: string) {
    word != "" && forall k :: 0 <= k < |word| ==> !Blank(word[k])
  }

  predicate AllProper(words: seq<string>) {
    forall k :: 0 <= k < |words| ==> Proper(words[k])
  }

  lemma SpacedSnoc(words: seq<string>, word: string)
    ensures Spaced(words + [word]) == if words == [] then word else Spaced(words) + " " + word
  {
    assert (words + [word])[..|words|] == words;
  }

  lemma WordsSnoc(s: string, c: char)
    ensures Words(s + [c]) == Grown(Words(s), EndsInBlank(s), c)
  {
    assert (s + [c])[..|s|] == s;
  }

  lemma {:induction false} WordsAreProper(s: string)
    ensures AllProper(Words(s))
  {
    if s != "" {
      WordsAreProper(s[..|s| - 1]);
    }
  }

  /** A string has words exactly if it holds a non-blank, in particular if it does not end in a blank. */
  lemma {:induction false} SomeWord(s: string)
    ensures Words(s) == [] <==> forall k :: 0 <= k < |s| ==> Blank(s[k])
  {
    if s != "" {
      var before := s[..|s| - 1];
      SomeWord(before);
      assert forall k :: 0 <= k < |before| ==> before[k] == s[k];
    }
  }

  lemma WordGrows(s: string, word: string, c: char)
    requires Proper(word) && !Blank(c) && Words(s + word) == Words(s) + [word]
    ensures Words((s + word) + [c]) == Words(s) + [word + [c]]
  {
    WordsSnoc(s + word, c);
    LastOfSum(s, word);
    assert (Words(s) + [word])[..|Words(s)|] == Words(s);
  }

  lemma {:induction false} WordsOfLonger(s: string, word: string)
    requires Proper(word) && (s == "" || EndsInBlank(s))
    ensures Words(s + word) == Words(s) + [word]
  {
    var before, c := word[..|word| - 1], word[|word| - 1];
    assert s + word == (s + before) + [c];
    assert before + [c] == word;
    if before == "" {
      assert s + before == s;
      WordsSnoc(s, c);
    } else {
      WordsOfLonger(s, before);
      WordGrows(s, before, c);
    }
  }

  lemma LastOfSum(s: string, word: string)
    requires Proper(word)
    ensures !EndsInBlank(s + word)
  {
    assert (s + word)[|s + word| - 1] == word[|word| - 1];
  }

  /** Splitting words joined by single spaces gives the words back. */
  lemma {:induction false} WordsOfSpaced(words: seq<string>)
    requires AllProper(words)
    ensures Words(Spaced(words)) == words
  {
    if words != [] {
      var before, last := words[..|words| - 1], words[|words| - 1];
      assert before + [last] == words;
      if before == [] {
        WordsOfLonger("", last);
        assert "" + last == last;
      } else {
        WordsOfSpaced(before);
        WordsSnoc(Spaced(before), ' ');
        WordsOfLonger(Spaced(before) + " ", last);
      }
    }
  }

  lemma GrownBehind(first: seq<string>, words: seq<string>, behindBlank: bool, c: char)
    requires words == [] ==> behindBlank
    ensures Grown(first + words, behindBlank, c) == first + Grown(words, behindBlank, c)
  {
    if words != [] {
      assert (first + words)[..|first + words| - 1] == first + words[..|words| - 1];
    }
  }

  /** Any blank separates: what comes before it and behind it have their words each by themselves. */
  lemma {:induction false} WordsAtBlank(a: string, c: char, b: string)
    requires Blank(c)
    ensures Words(a + [c] + b) == Words(a) + Words(b)
  {
    if b == "" {
      assert a + [c] + b == a + [c];
      WordsSnoc(a, c);
    } else {
      var before, d := b[..|b| - 1], b[|b| - 1];
      var all := a + [c] + before;
      WordsAtBlank(a, c, before);
      assert a + [c] + b == all + [d];
      WordsSnoc(all, d);
      SomeWord(before);
      GrownBehind(Words(a), Words(before), before == "" || EndsInBlank(before), d);
      assert Words(b) == Grown(Words(before), before == "" || EndsInBlank(before), d);
    }
  }

  /** The non-blanks of a string, in order. */
  function NonBlanks(s: string): string {
    if s == "" then ""
    else NonBlanks(s[..|s| - 1]) + if Blank(s[|s| - 1]) then "" else [s[|s| - 1]]
  }

  function Flat(words: seq<string>): string {
    if words == [] then "" else Flat(words[..|words| - 1]) + words[|words| - 1]
  }

  /** The words hold all non-blanks of the string. */
  lemma {:induction false} WordsHoldAll(s: string)
    ensures Flat(Words(s)) == NonBlanks(s)
  {
    if s != "" {
      var before, c := s[..|s| - 1], s[|s| - 1];
      var words := Words(before);
      WordsHoldAll(before);
      if !Blank(c) {
        if words == [] || EndsInBlank(before) {
          assert (words + [[c]])[..|words|] == words;
        } else {
          var front, last := words[..|words| - 1], words[|words| - 1];
          assert (front + [last + [c]])[..|front|] == front;
          assert Flat(front) + (last + [c]) == (Flat(front) + last) + [c];
        }
      }
    }
  }

  // ---- Normalisation ----

  function Collapsed(raw: string): string {
    Spaced(Words(raw))
  }

  function Clamped(s: string): string {
    if |s| > DEVICE_NAME_MAX then s[..DEVICE_NAME_MAX] else s
  }

  function Normalized(raw: string, platformDefault: string): string {
    var name := Clamped(Collapsed(raw));
    if name == platformDefault then "" else name
  }

  lemma {:induction false} SpacedIsNoBlank(words: seq<string>)
    requires words != [] && AllProper(words)
    ensures Spaced(words) != "" && !EndsInBlank(Spaced(words))
  {
    var before, last := words[..|words| - 1], words[|words| - 1];
    assert before + [last] == words;
    SpacedSnoc(before, last);
    var s := Spaced(words);
    assert s[|s| - 1] == last[|last| - 1];
  }

  lemma SpacedAssociates(a: string, b: string, c: string)
    ensures a + " " + (b + c) == (a + " " + b) + c
  {
  }

  lemma ExtendedSpaced(front: seq<string>, last: string, c: char)
    ensures Spaced(front + [last + [c]]) == Spaced(front + [last]) + [c]
  {
    SpacedSnoc(front, last + [c]);
    SpacedSnoc(front, last);
    SpacedAssociates(Spaced(front), last, [c]);
  }

  /** What the loop has built after the prefix `s`: its collapsed form, with a space where a word may follow. */
  function Built(s: string): string {
    if EndsInBlank(s) && Words(s) != [] then Collapsed(s) + " " else Collapsed(s)
  }

  lemma BuiltSnoc(s: string, c: char)
    ensures Built(s + [c]) ==
            if !Blank(c) then Built(s) + [c]
            else if s == "" || EndsInBlank(s) then Built(s)
            else Built(s) + " "
  {
    WordsSnoc(s, c);
    SomeWord(s);
    assert EndsInBlank(s + [c]) <==> Blank(c);
    if !Blank(c) {
      GrownSpaced(Words(s), EndsInBlank(s), c);
    }
  }

  lemma GrownSpaced(words: seq<string>, behindBlank: bool, c: char)
    requires !Blank(c)
    ensures Spaced(Grown(words, behindBlank, c)) ==
      if words == [] then [c] else if behindBlank then Spaced(words) + " " + [c] else Spaced(words) + [c]
  {
    if words == [] || behindBlank {
      SpacedSnoc(words, [c]);
    } else {
      ExtendedSpaced(words[..|words| - 1], words[|words| - 1], c);
      assert words[..|words| - 1] + [words[|words| - 1]] == words;
    }
  }

  method NormalizeDeviceName(raw: string, platformDefault: string) returns (name: string)
    ensures name == Normalized(raw, platformDefault)
  {
    var trimmed := "";
    var inSpace := true;
    for i := 0 to |raw|
      invariant trimmed == Built(raw[..i])
      invariant inSpace <==> i == 0 || EndsInBlank(raw[..i])
    {
      var c := raw[i];
      BuiltSnoc(raw[..i], c);
      assert raw[..i + 1] == raw[..i] + [c];
      if Blank(c) {
        if !inSpace {
          trimmed := trimmed + " ";
        }
        inSpace := true;
      } else {
        trimmed := trimmed + [c];
        inSpace := false;
      }
    }
    assert raw[..|raw|] == raw;
    WordsAreProper(raw);
    if Words(raw) != [] {
      SpacedIsNoBlank(Words(raw));
    }
    if trimmed != "" && trimmed[|trimmed| - 1] == ' ' {
      trimmed := trimmed[..|trimmed| - 1];
    }
    if |trimmed| > DEVICE_NAME_MAX {
      trimmed := trimmed[..DEVICE_NAME_MAX];
    }
    if trimmed == platformDefault {
      trimmed := "";
    }
    name := trimmed;
  }

  /** Collapsing keeps the words, hence every non-blank in order, and joins them by single spaces. */
  lemma CollapsedKeepsWords(raw: string)
    ensures Words(Collapsed(raw)) == Words(raw)
    ensures Collapsed(Collapsed(raw)) == Collapsed(raw)
    ensures NonBlanks(Collapsed(raw)) == NonBlanks(raw)
  {
    WordsAreProper(raw);
    WordsOfSpaced(Words(raw));
    WordsHoldAll(raw);
    WordsHoldAll(Collapsed(raw));
  }

  // ---- Normalising twice ----

  /** No blank but the space, none at the start, no two together. */
  predicate Tidy(s: string) {
    && (forall k :: 0 <= k < |s| && Blank(s[k]) ==> s[k] == ' ' && k > 0)
    && (forall k :: 0 < k < |s| && Blank(s[k]) ==> !Blank(s[k - 1]))
  }

  lemma {:induction false} SpacedIsTidy(words: seq<string>)
    requires AllProper(words)
    ensures Tidy(Spaced(words))
  {
    if |words| == 1 {
      assert Proper(words[0]);
    } else if words != [] {
      var before, last := words[..|words| - 1], words[|words| - 1];
      SpacedIsTidy(before);
      SpacedIsNoBlank(before);
      TidyJoin(Spaced(before), last);
    }
  }

  lemma TidyJoin(s: string, word: string)
    requires Tidy(s) && s != "" && !EndsInBlank(s) && Proper(word)
    ensures Tidy(s + " " + word)
  {
    var all := s + " " + word;
    assert forall k :: 0 <= k < |s| ==> all[k] == s[k];
    assert forall k :: |s| < k < |all| ==> all[k] == word[k - |s| - 1];
  }

  /** A tidy string is as built; collapsing it drops the space it may end in. */
  lemma {:induction false} TidyIsBuilt(s: string)
    requires Tidy(s)
    ensures Built(s) == s
  {
    if s != "" {
      var before, c := s[..|s| - 1], s[|s| - 1];
      assert before + [c] == s;
      assert forall k :: 0 <= k < |before| ==> before[k] == s[k];
      TidyIsBuilt(before);
      BuiltSnoc(before, c);
    }
  }

  lemma CollapsedTidy(s: string)
    requires Tidy(s)
    ensures Collapsed(s) == if EndsInBlank(s) then s[..|s| - 1] else s
  {
    TidyIsBuilt(s);
    SomeWord(s);
    if EndsInBlank(s) {
      assert !Blank(s[|s| - 2]);
      assert Collapsed(s) + " " == s;
    }
  }

  /** The collapsed form is the only tidy string without a space at its end that has the words of the name. */
  lemma CollapsedIsUnique(raw: string, s: string)
    ensures s == Collapsed(raw) <==> Tidy(s) && !EndsInBlank(s) && Words(s) == Words(raw)
  {
    WordsAreProper(raw);
    SpacedIsTidy(Words(raw));
    if Words(raw) != [] {
      SpacedIsNoBlank(Words(raw));
    }
    CollapsedKeepsWords(raw);
    if Tidy(s) {
      CollapsedTidy(s);
    }
  }

  /** A name that fits and is not the platform's own keeps every word and every non-blank. */
  lemma FittingNameIsKept(raw: string, platformDefault: string)
    requires |Collapsed(raw)| <= DEVICE_NAME_MAX && Collapsed(raw) != platformDefault
    ensures var name := Normalized(raw, platformDefault);
      Words(name) == Words(raw) && NonBlanks(name) == NonBlanks(raw) && Tidy(name) && !EndsInBlank(name)
  {
    CollapsedKeepsWords(raw);
    CollapsedIsUnique(raw, Collapsed(raw));
  }

  /** Of a name too long its first 64 bytes are left, or nothing exactly if those are the platform's own name. */
  lemma LongNameIsCut(raw: string, platformDefault: string)
    requires |Collapsed(raw)| > DEVICE_NAME_MAX
    ensures var name, cut := Normalized(raw, platformDefault), Collapsed(raw)[..DEVICE_NAME_MAX];
      && (name == "" <==> cut == platformDefault)
      && (name != "" ==> name == cut)
  {
  }

  /** The result is empty exactly if the name has no word or is the platform's own, as far as it fits. */
  lemma EmptyIff(raw: string, platformDefault: string)
    ensures var name, whole := Normalized(raw, platformDefault), Collapsed(raw);
      name == "" <==> Words(raw) == [] || whole[..if |whole| <= DEVICE_NAME_MAX then |whole| else DEVICE_NAME_MAX] == platformDefault
  {
    WordsAreProper(raw);
    if Words(raw) != [] {
      SpacedIsNoBlank(Words(raw));
    }
  }

  /** The cut leaves a space at the end, and the result is not the platform's own name. */
  predicate CutAtSpace(raw: string, platformDefault: string) {
    var name := Collapsed(raw);
    |name| > DEVICE_NAME_MAX && name[DEVICE_NAME_MAX - 1] == ' ' && name[..DEVICE_NAME_MAX] != platformDefault
  }

  lemma ClampedIsTidy(raw: string)
    ensures Tidy(Clamped(Collapsed(raw)))
    ensures EndsInBlank(Clamped(Collapsed(raw))) <==>
            |Collapsed(raw)| > DEVICE_NAME_MAX && Collapsed(raw)[DEVICE_NAME_MAX - 1] == ' '
  {
    WordsAreProper(raw);
    SpacedIsTidy(Words(raw));
    if Words(raw) != [] {
      SpacedIsNoBlank(Words(raw));
    }
  }

  /** Normalising again changes a name exactly where the cut left a space at its end. */
  lemma IdempotentIff(raw: string, platformDefault: string)
    ensures Normalized(Normalized(raw, platformDefault), platformDefault) == Normalized(raw, platformDefault)
      <==> !CutAtSpace(raw, platformDefault)
  {
    var name := Clamped(Collapsed(raw));
    ClampedIsTidy(raw);
    CollapsedTidy(name);
    assert Words("") == [] && Collapsed("") == "";
  }

  /** Sixty-three letters, a space and one more: the cut leaves the space, and normalising again drops it. */
  lemma CutNameIsNotStable()
    ensures var raw := seq(63, _ => 'a') + " b";
      Normalized(Normalized(raw, ""), "") != Normalized(raw, "")
  {
    var raw := seq(63, _ => 'a') + " b";
    assert Tidy(raw) && !EndsInBlank(raw);
    CollapsedTidy(raw);
    assert CutAtSpace(raw, "");
    IdempotentIff(raw, "");
  }

  /** Three times is always the same as twice. */
  lemma SettlesAfterTwo(raw: string, platformDefault: string)
    ensures var twice := Normalized(Normalized(raw, platformDefault), platformDefault);
      Normalized(twice, platformDefault) == twice
  {
    var once := Normalized(raw, platformDefault);
    ClampedIsTidy(raw);
    CollapsedTidy(Clamped(Collapsed(raw)));
    assert Words("") == [] && Collapsed("") == "";
    IdempotentIff(once, platformDefault);
  }

  /** A stored name fits the server's column and is never the platform's own name. */
  lemma NormalizedFits(raw: string, platformDefault: string)
    ensures var name := Normalized(raw, platformDefault);
      |name| <= DEVICE_NAME_MAX && (name == platformDefault ==> name == "") && Tidy(name)
  {
    ClampedIsTidy(raw);
  }
}
