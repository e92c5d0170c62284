/** Expansion of codec and container names through the rename tables, and the transcode codec lists. */
module Renames {
  import opened Options
  import opened Sequences

  type Table = seq<(string, string)>

  const SUBTITLE_RENAMES: Table := [
    ("subrip", "srt"),
    ("ass", "ssa"),
    ("hdmv_pgs_subtitle", "PGSSUB"),
    ("dvd_subtitle", "DVDSUB"),
    ("dvb_subtitle", "DVBSUB"),
    ("dvb_teletext", "DVBTXT")]

  const CONTAINER_RENAMES: Table := [("matroska", "mkv"), ("mpegts", "ts"), ("mpegvideo", "mpeg")]

  const TRANSCODE_AUDIO_CODEC_MP4: seq<string> := ["opus", "aac", "eac3", "ac3", "flac", "mp3", "dts", "truehd"]

  const TRANSCODE_AUDIO_CODEC_TS: seq<string> := ["aac", "eac3", "ac3", "mp3"]

  /** The longest AudioCodec query parameter the server accepts. */
  const AUDIO_CODEC_MAX: nat := 40

  // ---- Comma-separated lists ----

  function Split(s: string): (pieces: seq<string>)
    ensures |pieces| >= 1
  {
    if s == "" then [""]
    else
      var rest := Split(s[1..]);
      if s[0] == ',' then [""] + rest else [[s[0]] + rest[0]] + rest[1..]
  }

  function Join(items: seq<string>): string {
    if items == [] then ""
    else if |items| == 1 then items[0]
    else items[0] + "," + Join(items[1..])
  }

  predicate CommaFree(items: seq<string>) {
    forall k :: 0 <= k < |items| ==> ',' !in items[k]
  }

  lemma {:induction false} SplitIsCommaFree(s: string)
    ensures CommaFree(Split(s))
  {
    if s != "" {
      SplitIsCommaFree(s[1..]);
      var rest := Split(s[1..]);
      if s[0] == ',' {
        assert Split(s) == [""] + rest;
      } else {
        assert Split(s) == [[s[0]] + rest[0]] + rest[1..];
      }
    }
  }

  lemma JoinOnto(prefix: string, items: seq<string>)
    requires items != []
    ensures Join([prefix + items[0]] + items[1..]) == prefix + Join(items)
  {
    var longer := [prefix + items[0]] + items[1..];
    assert longer[1..] == items[1..];
  }

  lemma {:induction false} JoinOfSplit(s: string)
    ensures Join(Split(s)) == s
  {
    if s != "" {
      JoinOfSplit(s[1..]);
      var rest := Split(s[1..]);
      assert [s[0]] + s[1..] == s;
      if s[0] == ',' {
        assert Split(s)[1..] == rest;
      } else {
        assert Split(s)[1..] == rest[1..];
        JoinOnto([s[0]], rest);
      }
    }
  }

  lemma {:induction false} SplitOfName(name: string)
    requires ',' !in name
    ensures Split(name) == [name]
  {
    if name != "" {
      SplitOfName(name[1..]);
      assert [name[0]] + name[1..] == name;
    }
  }

  lemma {:induction false} SplitAtComma(name: string, rest: string)
    requires ',' !in name
    ensures Split(name + "," + rest) == [name] + Split(rest)
  {
    var s := name + "," + rest;
    if name == "" {
      assert s[1..] == rest;
    } else {
      SplitAtComma(name[1..], rest);
      assert s[1..] == name[1..] + "," + rest;
      assert [name[0]] + name[1..] == name;
    }
  }

  /** The server, splitting on commas, reads back exactly the names joined. */
  lemma {:induction false} SplitOfJoin(items: seq<string>)
    requires items != [] && CommaFree(items)
    ensures Split(Join(items)) == items
  {
    if |items| == 1 {
      SplitOfName(items[0]);
    } else {
      SplitOfJoin(items[1..]);
      SplitAtComma(items[0], Join(items[1..]));
    }
  }

  // ---- Expansion ----

  /** The target of the first entry under `key`. */
  function Renamed(table: Table, key: string): Option<string> {
    if table == [] then None
    else if table[0].0 == key then Some(table[0].1)
    else Renamed(table[1..], key)
  }

  predicate FirstEntry(table: Table, key: string, k: nat) {
    k < |table| && table[k].0 == key && forall j :: 0 <= j < k ==> table[j].0 != key
  }

  lemma {:induction false} RenamedIsFirstEntry(table: Table, key: string)
    ensures Renamed(table, key).None? <==> forall k :: 0 <= k < |table| ==> table[k].0 != key
    ensures Renamed(table, key).Some? ==> exists k: nat :: FirstEntry(table, key, k) && table[k].1 == Renamed(table, key).value
  {
    if table != [] && table[0].0 != key {
      var rest := table[1..];
      RenamedIsFirstEntry(rest, key);
      assert forall k :: 1 <= k < |table| ==> table[k] == rest[k - 1];
      assert Renamed(rest, key) == Renamed(table, key);
      if Renamed(rest, key).Some? {
        var k: nat :| FirstEntry(rest, key, k) && rest[k].1 == Renamed(rest, key).value;
        assert table[k + 1] == rest[k];
        assert FirstEntry(table, key, k + 1);
      }
    }
  }

  method RenameLookup(table: Table, key: string) returns (target: Option<string>)
    ensures target == Renamed(table, key)
  {
    for i := 0 to |table|
      invariant Renamed(table[i..], key) == Renamed(table, key)
    {
      if table[i].0 == key {
        return Some(table[i].1);
      }
      assert table[i..][1..] == table[i + 1..];
    }
    target := None;
  }

  /** Every piece of every input, in order. */
  function AllPieces(inputs: seq<string>): seq<string> {
    if inputs == [] then [] else AllPieces(inputs[..|inputs| - 1]) + Split(inputs[|inputs| - 1])
  }

  /** A piece and, right after it, what it is renamed to. */
  function NamesOf(table: Table, piece: string): seq<string> {
    match Renamed(table, piece)
    case None => [piece]
    case Some(target) => [piece, target]
  }

  function Candidates(table: Table, pieces: seq<string>): seq<string> {
    if pieces == [] then []
    else Candidates(table, pieces[..|pieces| - 1]) + NamesOf(table, pieces[|pieces| - 1])
  }

  /** The non-empty names, each where it first occurs. */
  function FirstOccurrences(names: seq<string>): seq<string> {
    if names == [] then []
    else
      var before, last := names[..|names| - 1], names[|names| - 1];
      if last == "" || last in before then FirstOccurrences(before) else FirstOccurrences(before) + [last]
  }

  function Expanded(table: Table, inputs: seq<string>): seq<string> {
    FirstOccurrences(Candidates(table, AllPieces(inputs)))
  }

  lemma {:induction false} SameMembers(names: seq<string>)
    ensures forall x :: x in FirstOccurrences(names) <==> x in names && x != ""
  {
    if names != [] {
      var before, last := names[..|names| - 1], names[|names| - 1];
      SameMembers(before);
      assert names == before + [last];
    }
  }

  method Push(out: seq<string>, s: string, ghost names: seq<string>) returns (next: seq<string>)
    requires out == FirstOccurrences(names)
    ensures next == FirstOccurrences(names + [s])
  {
    SameMembers(names);
    assert (names + [s])[..|names|] == names;
    if s == "" || s in out {
      next := out;
    } else {
      next := out + [s];
    }
  }

  lemma CandidatesSnoc(table: Table, pieces: seq<string>, piece: string)
    ensures Candidates(table, pieces + [piece]) == Candidates(table, pieces) + NamesOf(table, piece)
  {
    assert (pieces + [piece])[..|pieces|] == pieces;
  }

  lemma AllPiecesSnoc(inputs: seq<string>, i: nat)
    requires i < |inputs|
    ensures AllPieces(inputs[..i + 1]) == AllPieces(inputs[..i]) + Split(inputs[i])
  {
    assert inputs[..i + 1][..i] == inputs[..i];
  }

  lemma NextPiece(table: Table, earlier: seq<string>, pieces: seq<string>, j: nat)
    requires j < |pieces|
    ensures Candidates(table, earlier + pieces[..j + 1]) ==
            match Renamed(table, pieces[j])
            case None => Candidates(table, earlier + pieces[..j]) + [pieces[j]]
            case Some(target) => Candidates(table, earlier + pieces[..j]) + [pieces[j]] + [target]
  {
    assert earlier + pieces[..j + 1] == (earlier + pieces[..j]) + [pieces[j]];
    CandidatesSnoc(table, earlier + pieces[..j], pieces[j]);
  }

  method ExpandWithRenames(inputs: seq<string>, renames: Table) returns (out: seq<string>)
    ensures out == Expanded(renames, inputs)
  {
    out := [];
    for i := 0 to |inputs|
      invariant out == Expanded(renames, inputs[..i])
    {
      var pieces := Split(inputs[i]);
      ghost var earlier := AllPieces(inputs[..i]);
      assert earlier + pieces[..0] == earlier;
      ghost var names := Candidates(renames, earlier);
      for j := 0 to |pieces|
        invariant names == Candidates(renames, earlier + pieces[..j]) && out == FirstOccurrences(names)
      {
        NextPiece(renames, earlier, pieces, j);
        out := Push(out, pieces[j], names);
        names := names + [pieces[j]];
        var renamed := RenameLookup(renames, pieces[j]);
        if renamed.Some? {
          out := Push(out, renamed.value, names);
          names := names + [renamed.value];
        }
      }
      AllPiecesSnoc(inputs, i);
      assert pieces[..|pieces|] == pieces;
    }
    assert inputs[..|inputs|] == inputs;
  }

  // ---- What an expansion holds ----

  /** Targets are proper names and are not renamed in turn. */
  predicate Settled(table: Table) {
    forall k :: 0 <= k < |table| ==>
      table[k].1 != "" && ',' !in table[k].1 && Renamed(table, table[k].1).None?
  }

  lemma {:induction false} OccurrencesAreDistinct(names: seq<string>)
    ensures Distinct(FirstOccurrences(names))
  {
    if names != [] {
      OccurrencesAreDistinct(names[..|names| - 1]);
      SameMembers(names[..|names| - 1]);
    }
  }

  // ---- The order of an expansion ----

  predicate BringsName(table: Table, piece: string, name: string) {
    name == piece || Renamed(table, piece) == Some(name)
  }

  /** The first piece that brings the name, itself or as its target, or the number of pieces if none does. */
  function BroughtAt(table: Table, pieces: seq<string>, name: string): (k: nat)
    ensures k <= |pieces| && (k < |pieces| ==> BringsName(table, pieces[k], name))
    ensures forall j :: 0 <= j < k ==> !BringsName(table, pieces[j], name)
  {
    if pieces == [] then 0
    else
      var k, last := BroughtAt(table, pieces[..|pieces| - 1], name), |pieces| - 1;
      if k < last || BringsName(table, pieces[last], name) then k else |pieces|
  }

  /** `a` comes with an earlier piece than `b`, or is the piece that `b` is the target of. */
  ghost predicate ComesBefore(table: Table, pieces: seq<string>, a: string, b: string) {
    var i, j := BroughtAt(table, pieces, a), BroughtAt(table, pieces, b);
    i < j < |pieces| || (i == j < |pieces| && a == pieces[i])
  }

  ghost predicate InOrder(table: Table, pieces: seq<string>, names: seq<string>) {
    && (forall i :: 0 <= i < |names| ==> BroughtAt(table, pieces, names[i]) < |pieces|)
    && forall i, j :: 0 <= i < j < |names| ==> ComesBefore(table, pieces, names[i], names[j])
  }

  lemma BroughtSnoc(table: Table, pieces: seq<string>, piece: string, name: string)
    ensures var k := BroughtAt(table, pieces, name);
      BroughtAt(table, pieces + [piece], name) ==
        if k < |pieces| || BringsName(table, piece, name) then k else |pieces| + 1
  {
    assert (pieces + [piece])[..|pieces|] == pieces;
  }

  lemma {:induction false} CandidatesAreBrought(table: Table, pieces: seq<string>, name: string)
    ensures name in Candidates(table, pieces) <==> BroughtAt(table, pieces, name) < |pieces|
  {
    if pieces != [] {
      CandidatesAreBrought(table, pieces[..|pieces| - 1], name);
    }
  }

  lemma MorePiecesKeepOrder(table: Table, pieces: seq<string>, piece: string, names: seq<string>)
    requires InOrder(table, pieces, names)
    ensures InOrder(table, pieces + [piece], names)
  {
    forall i | 0 <= i < |names|
      ensures BroughtAt(table, pieces + [piece], names[i]) == BroughtAt(table, pieces, names[i])
    {
      BroughtSnoc(table, pieces, piece, names[i]);
    }
  }

  lemma AppendKeepsOrder(table: Table, pieces: seq<string>, names: seq<string>, name: string)
    requires InOrder(table, pieces, names) && pieces != []
    requires BroughtAt(table, pieces, name) == |pieces| - 1
    requires forall i :: 0 <= i < |names| ==>
      BroughtAt(table, pieces, names[i]) < |pieces| - 1 || names[i] == pieces[|pieces| - 1]
    ensures InOrder(table, pieces, names + [name])
  {
  }

  /** One more candidate, that the last piece brings if nothing before did. */
  lemma CandidateKeepsOrder(table: Table, pieces: seq<string>, c: seq<string>, name: string)
    requires pieces != [] && InOrder(table, pieces, FirstOccurrences(c))
    requires forall x :: x in c ==> BroughtAt(table, pieces, x) < |pieces| - 1 || x == pieces[|pieces| - 1]
    requires name !in c ==> BroughtAt(table, pieces, name) == |pieces| - 1
    ensures InOrder(table, pieces, FirstOccurrences(c + [name]))
  {
    assert (c + [name])[..|c|] == c;
    if name != "" && name !in c {
      var names := FirstOccurrences(c);
      SameMembers(c);
      assert forall i :: 0 <= i < |names| ==> names[i] in names;
      AppendKeepsOrder(table, pieces, names, name);
    }
  }

  lemma BroughtNow(table: Table, pieces: seq<string>, piece: string, name: string)
    ensures name in Candidates(table, pieces) ==> BroughtAt(table, pieces + [piece], name) < |pieces|
    ensures name !in Candidates(table, pieces) && BringsName(table, piece, name) ==>
      BroughtAt(table, pieces + [piece], name) == |pieces|
  {
    CandidatesAreBrought(table, pieces, name);
    BroughtSnoc(table, pieces, piece, name);
  }

  /** The names of one more piece. */
  lemma PieceKeepsOrder(table: Table, pieces: seq<string>, piece: string)
    requires InOrder(table, pieces, FirstOccurrences(Candidates(table, pieces)))
    ensures InOrder(table, pieces + [piece], FirstOccurrences(Candidates(table, pieces + [piece])))
  {
    var c, all := Candidates(table, pieces), pieces + [piece];
    MorePiecesKeepOrder(table, pieces, piece, FirstOccurrences(c));
    CandidatesSnoc(table, pieces, piece);
    forall name | name in c
      ensures BroughtAt(table, all, name) < |pieces|
    {
      BroughtNow(table, pieces, piece, name);
    }
    BroughtNow(table, pieces, piece, piece);
    CandidateKeepsOrder(table, all, c, piece);
    if Renamed(table, piece).Some? {
      var target := Renamed(table, piece).value;
      BroughtNow(table, pieces, piece, target);
      CandidateKeepsOrder(table, all, c + [piece], target);
      assert c + [piece, target] == (c + [piece]) + [target];
    }
  }

  lemma {:induction false} CandidatesInOrder(table: Table, pieces: seq<string>)
    ensures InOrder(table, pieces, FirstOccurrences(Candidates(table, pieces)))
  {
    if pieces != [] {
      var before, last := pieces[..|pieces| - 1], pieces[|pieces| - 1];
      CandidatesInOrder(table, before);
      PieceKeepsOrder(table, before, last);
      assert before + [last] == pieces;
    }
  }

  lemma {:induction false} JoinConcat(a: seq<string>, b: seq<string>)
    requires a != [] && b != []
    ensures Join(a + b) == Join(a) + "," + Join(b)
  {
    assert (a + b)[1..] == a[1..] + b;
    if |a| > 1 {
      JoinConcat(a[1..], b);
      JoinsAssociate(a[0], Join(a[1..]), Join(b));
    } else {
      assert a[1..] + b == b;
    }
  }

  lemma JoinsAssociate(a: string, b: string, c: string)
    ensures a + "," + (b + "," + c) == (a + "," + b) + "," + c
  {
  }

  lemma SplitConcat(a: string, b: string)
    ensures Split(a + "," + b) == Split(a) + Split(b)
  {
    SplitIsCommaFree(a);
    SplitIsCommaFree(b);
    JoinConcat(Split(a), Split(b));
    JoinOfSplit(a);
    JoinOfSplit(b);
    SplitOfJoin(Split(a) + Split(b));
  }

  lemma {:induction false} PiecesCons(input: string, inputs: seq<string>)
    ensures AllPieces([input] + inputs) == Split(input) + AllPieces(inputs)
  {
    if inputs == [] {
      assert [input] + inputs == [input];
      assert [input][..0] == [];
    } else {
      var before, last := inputs[..|inputs| - 1], inputs[|inputs| - 1];
      PiecesCons(input, before);
      assert ([input] + inputs)[..|inputs|] == [input] + before;
      ConcatAssociates(Split(input), AllPieces(before), Split(last));
    }
  }

  /** The pieces of several inputs are those of the inputs joined. */
  lemma {:induction false} PiecesOfJoin(inputs: seq<string>)
    requires inputs != []
    ensures AllPieces(inputs) == Split(Join(inputs))
  {
    assert inputs == [inputs[0]] + inputs[1..];
    PiecesCons(inputs[0], inputs[1..]);
    if |inputs| > 1 {
      PiecesOfJoin(inputs[1..]);
      SplitConcat(inputs[0], Join(inputs[1..]));
    }
  }

  /** Names stand in the order of the first pieces that bring them, a piece before its own target. */
  lemma ExpansionIsInOrder(table: Table, inputs: seq<string>)
    ensures InOrder(table, Split(Join(inputs)), Expanded(table, inputs))
  {
    CandidatesInOrder(table, AllPieces(inputs));
    if inputs != [] {
      PiecesOfJoin(inputs);
    }
  }

  lemma {:induction false} PiecesAre(inputs: seq<string>, piece: string)
    ensures piece in AllPieces(inputs) <==> exists i :: 0 <= i < |inputs| && piece in Split(inputs[i])
  {
    if inputs != [] {
      var before := inputs[..|inputs| - 1];
      PiecesAre(before, piece);
      if i :| 0 <= i < |inputs| && piece in Split(inputs[i]) {
        assert i < |before| ==> piece in Split(before[i]);
      }
    }
  }

  lemma {:induction false} CandidatesAre(table: Table, pieces: seq<string>, name: string)
    ensures name in Candidates(table, pieces) <==> exists p :: p in pieces && name in NamesOf(table, p)
  {
    if pieces != [] {
      var before, last := pieces[..|pieces| - 1], pieces[|pieces| - 1];
      CandidatesAre(table, before, name);
      assert pieces == before + [last];
      assert last in pieces;
    }
  }

  /** `name` is a piece of `input`, or what such a piece is renamed to. */
  ghost predicate Gives(table: Table, input: string, name: string) {
    exists p :: p in Split(input) && name in NamesOf(table, p)
  }

  lemma PiecesGive(table: Table, inputs: seq<string>, piece: string, name: string)
    requires piece in AllPieces(inputs) && name in NamesOf(table, piece)
    ensures exists i :: 0 <= i < |inputs| && Gives(table, inputs[i], name)
  {
    PiecesAre(inputs, piece);
    var i :| 0 <= i < |inputs| && piece in Split(inputs[i]);
    assert Gives(table, inputs[i], name);
  }

  lemma GivenIsCandidate(table: Table, inputs: seq<string>, i: nat, name: string)
    requires i < |inputs| && Gives(table, inputs[i], name)
    ensures name in Candidates(table, AllPieces(inputs))
  {
    var p :| p in Split(inputs[i]) && name in NamesOf(table, p);
    PiecesAre(inputs, p);
    CandidatesAre(table, AllPieces(inputs), name);
  }

  /** The expansion holds exactly the non-empty names of the rename closure. */
  lemma ExpansionIsClosure(table: Table, inputs: seq<string>, name: string)
    ensures name in Expanded(table, inputs) <==>
            name != "" && exists i :: 0 <= i < |inputs| && Gives(table, inputs[i], name)
  {
    var pieces := AllPieces(inputs);
    SameMembers(Candidates(table, pieces));
    if name in Candidates(table, pieces) {
      CandidatesAre(table, pieces, name);
      var p :| p in pieces && name in NamesOf(table, p);
      PiecesGive(table, inputs, p, name);
    }
    if i :| 0 <= i < |inputs| && Gives(table, inputs[i], name) {
      GivenIsCandidate(table, inputs, i, name);
    }
  }

  lemma GivenIsCommaFree(table: Table, input: string, name: string)
    requires Settled(table) && Gives(table, input, name)
    ensures ',' !in name
  {
    var p :| p in Split(input) && name in NamesOf(table, p);
    SplitIsCommaFree(input);
    if Renamed(table, p).Some? {
      TargetIsSettled(table, p);
    }
  }

  /** Names are distinct, non-empty and free of commas. */
  lemma ExpansionIsClean(table: Table, inputs: seq<string>)
    requires Settled(table)
    ensures Distinct(Expanded(table, inputs)) && "" !in Expanded(table, inputs) && CommaFree(Expanded(table, inputs))
  {
    var names := Expanded(table, inputs);
    OccurrencesAreDistinct(Candidates(table, AllPieces(inputs)));
    ExpansionIsClosure(table, inputs, "");
    forall k | 0 <= k < |names| ensures ',' !in names[k] {
      ExpansionIsClosure(table, inputs, names[k]);
      var i :| 0 <= i < |inputs| && Gives(table, inputs[i], names[k]);
      GivenIsCommaFree(table, inputs[i], names[k]);
    }
  }

  // ---- Expanding twice ----

  /** If the k-th name is renamed, its target stands before it or right after it. */
  predicate FollowedAt(table: Table, names: seq<string>, k: nat)
    requires k < |names|
  {
    match Renamed(table, names[k])
    case None => true
    case Some(target) => target in names[..k] || (k + 1 < |names| && names[k + 1] == target)
  }

  predicate Followed(table: Table, names: seq<string>) {
    forall k :: 0 <= k < |names| ==> FollowedAt(table, names, k)
  }

  lemma TargetIsSettled(table: Table, key: string)
    requires Settled(table) && Renamed(table, key).Some?
    ensures var target := Renamed(table, key).value;
      target != "" && ',' !in target && Renamed(table, target).None?
  {
    RenamedIsFirstEntry(table, key);
    var k: nat :| FirstEntry(table, key, k) && table[k].1 == Renamed(table, key).value;
  }

  lemma FollowedLonger(table: Table, names: seq<string>, name: string, k: nat)
    requires k < |names| && FollowedAt(table, names, k)
    ensures FollowedAt(table, names + [name], k)
  {
    assert (names + [name])[..k] == names[..k];
  }

  /** A name not renamed, or whose target is there already, can be added. */
  lemma FollowedSnoc(table: Table, names: seq<string>, name: string)
    requires Followed(table, names)
    requires match Renamed(table, name) case None => true case Some(target) => target in names
    ensures Followed(table, names + [name])
  {
    var all := names + [name];
    forall k | 0 <= k < |all| ensures FollowedAt(table, all, k) {
      if k < |names| {
        FollowedLonger(table, names, name, k);
      } else {
        assert all[..k] == names;
      }
    }
  }

  lemma FollowedPair(table: Table, names: seq<string>, name: string, target: string)
    requires Followed(table, names)
    requires Renamed(table, name) == Some(target) && Renamed(table, target).None?
    ensures Followed(table, names + [name] + [target])
  {
    var one := names + [name];
    var two := one + [target];
    forall k | 0 <= k < |two| ensures FollowedAt(table, two, k) {
      if k < |names| {
        FollowedLonger(table, names, name, k);
        FollowedLonger(table, one, target, k);
      } else if k == |names| {
        assert two[k] == name && two[k + 1] == target;
      }
    }
  }

  lemma OccurrencesSnoc(names: seq<string>, name: string)
    ensures FirstOccurrences(names + [name]) ==
            if name == "" || name in names then FirstOccurrences(names) else FirstOccurrences(names) + [name]
  {
    assert (names + [name])[..|names|] == names;
  }

  /** Candidates hold the target of every renamed name they hold. */
  lemma TargetIsCandidate(table: Table, pieces: seq<string>, name: string)
    requires Settled(table) && name in Candidates(table, pieces) && Renamed(table, name).Some?
    ensures Renamed(table, name).value in Candidates(table, pieces)
  {
    var target := Renamed(table, name).value;
    CandidatesAre(table, pieces, name);
    CandidatesAre(table, pieces, target);
    var p :| p in pieces && name in NamesOf(table, p);
    if Renamed(table, p).Some? {
      TargetIsSettled(table, p);
    }
    assert target in NamesOf(table, name);
  }

  lemma PieceKeepsFollowed(table: Table, pieces: seq<string>, piece: string)
    requires Settled(table) && Followed(table, FirstOccurrences(Candidates(table, pieces)))
    ensures Followed(table, FirstOccurrences(Candidates(table, pieces) + NamesOf(table, piece)))
  {
    var names := Candidates(table, pieces);
    var kept := FirstOccurrences(names);
    SameMembers(names);
    OccurrencesSnoc(names, piece);
    match Renamed(table, piece)
    case None =>
      FollowedSnoc(table, kept, piece);
    case Some(target) =>
      assert names + NamesOf(table, piece) == (names + [piece]) + [target];
      OccurrencesSnoc(names + [piece], target);
      TargetIsSettled(table, piece);
      if piece in names {
        TargetIsCandidate(table, pieces, piece);
      } else if piece == "" {
        FollowedSnoc(table, kept, target);
      } else if target in names {
        FollowedSnoc(table, kept, piece);
      } else {
        FollowedPair(table, kept, piece, target);
      }
  }

  lemma {:induction false} ExpansionIsFollowed(table: Table, pieces: seq<string>)
    requires Settled(table)
    ensures Followed(table, FirstOccurrences(Candidates(table, pieces)))
  {
    if pieces != [] {
      ExpansionIsFollowed(table, pieces[..|pieces| - 1]);
      PieceKeepsFollowed(table, pieces[..|pieces| - 1], pieces[|pieces| - 1]);
    }
  }

  /** What re-expanding the first k names gives: those, or one more, that is the target of the last. */
  ghost predicate Reached(table: Table, names: seq<string>, k: nat, got: seq<string>)
    requires k <= |names|
  {
    || got == names[..k]
    || (0 < k < |names| && Renamed(table, names[k - 1]) == Some(names[k]) && got == names[..k + 1])
  }

  lemma OccurrencesPair(names: seq<string>, name: string, target: string)
    requires name !in names && name != "" && target != "" && target != name
    ensures FirstOccurrences(names + [name, target]) ==
            FirstOccurrences(names) + if target in names then [name] else [name, target]
  {
    assert names + [name, target] == (names + [name]) + [target];
    OccurrencesSnoc(names, name);
    OccurrencesSnoc(names + [name], target);
  }

  /** The k-th name is new. */
  lemma ReachesNew(table: Table, names: seq<string>, k: nat, c: seq<string>)
    requires Settled(table) && Followed(table, names) && Distinct(names) && "" !in names
    requires k < |names| && FirstOccurrences(c) == names[..k]
    ensures Reached(table, names, k + 1, FirstOccurrences(c + NamesOf(table, names[k])))
  {
    var name := names[k];
    SameMembers(c);
    assert name in names && name !in names[..k];
    assert names[..k + 1] == names[..k] + [name];
    assert FollowedAt(table, names, k);
    match Renamed(table, name)
    case None =>
      OccurrencesSnoc(c, name);
    case Some(target) =>
      TargetIsSettled(table, name);
      OccurrencesPair(c, name, target);
      if target !in c {
        assert names[..k + 2] == names[..k] + [name, target];
      }
  }

  /** The k-th name came early, as the target of the one before it. */
  lemma ReachesKnown(table: Table, names: seq<string>, k: nat, c: seq<string>)
    requires Settled(table) && "" !in names
    requires 0 < k < |names| && FirstOccurrences(c) == names[..k + 1] && Renamed(table, names[k - 1]) == Some(names[k])
    ensures Reached(table, names, k + 1, FirstOccurrences(c + NamesOf(table, names[k])))
  {
    SameMembers(c);
    TargetIsSettled(table, names[k - 1]);
    assert names[..k + 1][k] == names[k];
    OccurrencesSnoc(c, names[k]);
  }

  lemma {:induction false} ReachesAll(table: Table, names: seq<string>, k: nat)
    requires Settled(table) && Followed(table, names) && Distinct(names) && "" !in names
    requires k <= |names|
    ensures Reached(table, names, k, FirstOccurrences(Candidates(table, names[..k])))
  {
    if k > 0 {
      ReachesAll(table, names, k - 1);
      var c := Candidates(table, names[..k - 1]);
      if FirstOccurrences(c) == names[..k - 1] {
        ReachesNew(table, names, k - 1, c);
      } else {
        ReachesKnown(table, names, k - 1, c);
      }
      assert names[..k] == names[..k - 1] + [names[k - 1]];
      CandidatesSnoc(table, names[..k - 1], names[k - 1]);
    }
  }

  lemma {:induction false} PiecesOfNames(names: seq<string>)
    requires CommaFree(names)
    ensures AllPieces(names) == names
  {
    if names != [] {
      PiecesOfNames(names[..|names| - 1]);
      SplitOfName(names[|names| - 1]);
    }
  }

  /** Expanding an expansion gives it back, in the same order. */
  lemma ExpansionIsIdempotent(table: Table, inputs: seq<string>)
    requires Settled(table)
    ensures Expanded(table, Expanded(table, inputs)) == Expanded(table, inputs)
  {
    var names := Expanded(table, inputs);
    ExpansionIsClean(table, inputs);
    ExpansionIsFollowed(table, AllPieces(inputs));
    PiecesOfNames(names);
    ReachesAll(table, names, |names|);
    assert names[..|names|] == names;
  }

  lemma SubtitleTableIsSettled()
    ensures Settled(SUBTITLE_RENAMES)
  {
    assert Renamed(SUBTITLE_RENAMES, "srt").None? && ',' !in "srt";
    assert Renamed(SUBTITLE_RENAMES, "ssa").None? && ',' !in "ssa";
    assert Renamed(SUBTITLE_RENAMES, "PGSSUB").None? && ',' !in "PGSSUB";
    assert Renamed(SUBTITLE_RENAMES, "DVDSUB").None? && ',' !in "DVDSUB";
    assert Renamed(SUBTITLE_RENAMES, "DVBSUB").None? && ',' !in "DVBSUB";
    assert Renamed(SUBTITLE_RENAMES, "DVBTXT").None? && ',' !in "DVBTXT";
  }

  lemma ContainerTableIsSettled()
    ensures Settled(CONTAINER_RENAMES)
  {
    assert Renamed(CONTAINER_RENAMES, "mkv").None? && ',' !in "mkv";
    assert Renamed(CONTAINER_RENAMES, "ts").None? && ',' !in "ts";
    assert Renamed(CONTAINER_RENAMES, "mpeg").None? && ',' !in "mpeg";
  }

  lemma TablesAreSettled(table: Table)
    requires table == SUBTITLE_RENAMES || table == CONTAINER_RENAMES
    ensures Settled(table)
  {
    SubtitleTableIsSettled();
    ContainerTableIsSettled();
  }

  /** The server, splitting the joined names, sees the names; expanding the joined names changes nothing. */
  lemma JoinedExpansion(table: Table, inputs: seq<string>)
    requires Settled(table) && Expanded(table, inputs) != []
    ensures var names := Expanded(table, inputs);
      Split(Join(names)) == names && Expanded(table, [Join(names)]) == names
  {
    var names := Expanded(table, inputs);
    ExpansionIsClean(table, inputs);
    ExpansionIsIdempotent(table, inputs);
    SplitOfJoin(names);
    PiecesOfNames(names);
    assert AllPieces([Join(names)]) == AllPieces(names);
  }

  /** For both tables: clean names, the same when expanded again, and read back by the server as they are. */
  lemma ShippedTables(table: Table, inputs: seq<string>)
    requires table == SUBTITLE_RENAMES || table == CONTAINER_RENAMES
    ensures var names := Expanded(table, inputs);
      && Distinct(names) && "" !in names && CommaFree(names)
      && Expanded(table, names) == names
      && (names != [] ==> Split(Join(names)) == names && Expanded(table, [Join(names)]) == names)
  {
    TablesAreSettled(table);
    ExpansionIsClean(table, inputs);
    ExpansionIsIdempotent(table, inputs);
    if Expanded(table, inputs) != [] {
      JoinedExpansion(table, inputs);
    }
  }

  // ---- Transcode lists ----

  datatype MediaKind = Video | Audio | Subtitle

  datatype Codec = Codec(name: string, kind: MediaKind)

  function FilterInOrder(items: seq<string>, allowed: seq<string>): seq<string> {
    if items == [] then []
    else (if items[0] in allowed then [items[0]] else []) + FilterInOrder(items[1..], allowed)
  }

  /** `part` can be had from `whole` by leaving items out. */
  predicate OrderedSublist(part: seq<string>, whole: seq<string>) {
    if part == [] then true
    else if whole == [] then false
    else if part[0] == whole[0] then OrderedSublist(part[1..], whole[1..])
    else OrderedSublist(part, whole[1..])
  }

  lemma {:induction false} FilterKeepsOrder(items: seq<string>, allowed: seq<string>)
    ensures OrderedSublist(FilterInOrder(items, allowed), items)
    ensures forall x :: x in FilterInOrder(items, allowed) <==> x in items && x in allowed
  {
    if items != [] {
      var rest := FilterInOrder(items[1..], allowed);
      FilterKeepsOrder(items[1..], allowed);
      assert forall x :: x in items <==> x == items[0] || x in items[1..];
      if items[0] in allowed {
        assert ([items[0]] + rest)[1..] == rest;
      } else {
        assert [] + rest == rest;
        assert rest != [] ==> rest[0] in rest && rest[0] in allowed;
      }
    }
  }

  /** The length of the items with a comma after each. */
  function Width(items: seq<string>): nat {
    if items == [] then 0 else |items[0]| + 1 + Width(items[1..])
  }

  lemma {:induction false} JoinWidth(items: seq<string>)
    ensures |Join(items)| == if items == [] then 0 else Width(items) - 1
  {
    if |items| > 1 {
      JoinWidth(items[1..]);
    }
  }

  lemma {:induction false} FilterWidth(items: seq<string>, allowed: seq<string>)
    ensures Width(FilterInOrder(items, allowed)) <= Width(items)
  {
    if items != [] {
      var rest := FilterInOrder(items[1..], allowed);
      FilterWidth(items[1..], allowed);
      if items[0] in allowed {
        assert ([items[0]] + rest)[1..] == rest;
      } else {
        assert [] + rest == rest;
      }
    }
  }

  /** The characters of the server's AudioCodec pattern. */
  predicate QueryChar(c: char) {
    'a' <= c <= 'z' || 'A' <= c <= 'Z' || '0' <= c <= '9' || c in "-._,|"
  }

  predicate Queryable(s: string) {
    forall k :: 0 <= k < |s| ==> QueryChar(s[k])
  }

  lemma {:induction false} JoinIsQueryable(items: seq<string>)
    requires forall x :: x in items ==> Queryable(x)
    ensures Queryable(Join(items))
  {
    if items != [] {
      assert items[0] in items;
    }
    if |items| > 1 {
      JoinIsQueryable(items[1..]);
    }
  }

  lemma Mp4Width()
    ensures Width(TRANSCODE_AUDIO_CODEC_MP4) == 38
  {
    assert Width(["truehd"]) == 7;
    assert Width(["dts", "truehd"]) == 11;
    assert Width(["mp3", "dts", "truehd"]) == 15;
    assert Width(["flac", "mp3", "dts", "truehd"]) == 20;
    assert Width(["ac3", "flac", "mp3", "dts", "truehd"]) == 24;
    assert Width(["eac3", "ac3", "flac", "mp3", "dts", "truehd"]) == 29;
    assert Width(["aac", "eac3", "ac3", "flac", "mp3", "dts", "truehd"]) == 33;
    assert TRANSCODE_AUDIO_CODEC_MP4[1..] == ["aac", "eac3", "ac3", "flac", "mp3", "dts", "truehd"];
  }

  lemma Mp4Table()
    ensures Distinct(TRANSCODE_AUDIO_CODEC_MP4) && CommaFree(TRANSCODE_AUDIO_CODEC_MP4)
    ensures forall x :: x in TRANSCODE_AUDIO_CODEC_MP4 ==> Queryable(x)
  {
  }

  lemma TsTable()
    ensures Distinct(TRANSCODE_AUDIO_CODEC_TS) && CommaFree(TRANSCODE_AUDIO_CODEC_TS)
    ensures forall x :: x in TRANSCODE_AUDIO_CODEC_TS ==> Queryable(x)
    ensures Width(TRANSCODE_AUDIO_CODEC_TS) == 17
  {
    assert Width(["mp3"]) == 4;
    assert Width(["ac3", "mp3"]) == 8;
    assert Width(["eac3", "ac3", "mp3"]) == 13;
    assert TRANSCODE_AUDIO_CODEC_TS[1..] == ["eac3", "ac3", "mp3"];
  }

  /** A transcode list: an ordered sublist of its curated list, exactly what is decodable of it, accepted by the
      server's pattern and, unless empty, read back by the server as that list. */
  lemma TranscodeListFits(curated: seq<string>, decodable: seq<string>)
    requires curated == TRANSCODE_AUDIO_CODEC_MP4 || curated == TRANSCODE_AUDIO_CODEC_TS
    ensures var list := FilterInOrder(curated, decodable);
      && OrderedSublist(list, curated)
      && (forall x :: x in list <==> x in curated && x in decodable)
      && |Join(list)| <= AUDIO_CODEC_MAX && Queryable(Join(list))
      && (list != [] ==> Split(Join(list)) == list)
  {
    Mp4Width();
    Mp4Table();
    TsTable();
    var list := FilterInOrder(curated, decodable);
    FilterKeepsOrder(curated, decodable);
    JoinWidth(list);
    FilterWidth(curated, decodable);
    JoinIsQueryable(list);
    if list != [] {
      forall k | 0 <= k < |list| ensures ',' !in list[k] {
        assert list[k] in curated;
      }
      SplitOfJoin(list);
    }
  }

  function AudioNames(decoders: seq<Codec>): seq<string> {
    if decoders == [] then []
    else
      var last := decoders[|decoders| - 1];
      AudioNames(decoders[..|decoders| - 1]) + if last.kind.Audio? then [last.name] else []
  }

  /** The two transcode audio lists of a device profile. */
  method TranscodeAudioCsvs(decoders: seq<Codec>) returns (mp4: string, ts: string)
    ensures mp4 == Join(FilterInOrder(TRANSCODE_AUDIO_CODEC_MP4, AudioNames(decoders)))
    ensures ts == Join(FilterInOrder(TRANSCODE_AUDIO_CODEC_TS, AudioNames(decoders)))
    ensures |mp4| <= AUDIO_CODEC_MAX && |ts| <= AUDIO_CODEC_MAX && Queryable(mp4) && Queryable(ts)
  {
    var audioCodecs: seq<string> := [];
    for i := 0 to |decoders|
      invariant audioCodecs == AudioNames(decoders[..i])
    {
      if decoders[i].kind.Audio? {
        audioCodecs := audioCodecs + [decoders[i].name];
      }
      assert decoders[..i + 1][..i] == decoders[..i];
    }
    assert decoders[..|decoders|] == decoders;
    TranscodeListFits(TRANSCODE_AUDIO_CODEC_MP4, audioCodecs);
    TranscodeListFits(TRANSCODE_AUDIO_CODEC_TS, audioCodecs);
    mp4 := Join(FilterInOrder(TRANSCODE_AUDIO_CODEC_MP4, audioCodecs));
    ts := Join(FilterInOrder(TRANSCODE_AUDIO_CODEC_TS, audioCodecs));
  }
}
