/** Lists that travel as text: split, trimmed and filtered by the agent, joined
    into one argument, and split again on the other side. */
module Lists {
  import opened Text
  import opened Report

  function NonEmptyTrimmed(pieces: seq<string>): (entries: seq<string>)
    ensures |entries| <= |pieces|
  {
    if pieces == [] then []
    else
      var t := Trim(pieces[0]);
      (if t == [] then [] else [t]) + NonEmptyTrimmed(pieces[1..])
  }

  /** `split(sep).map(trim).filter(non-empty)`. */
  function ParseList(raw: string, sep: char): seq<string> {
    NonEmptyTrimmed(Split(raw, [sep]))
  }

  /** An entry as parsing leaves it. */
  predicate Clean(entry: string, sep: char) {
    entry != [] && sep !in entry && !IsSpace(entry[0]) && !IsSpace(entry[|entry| - 1])
  }

  lemma {:induction false} TrimmedAreClean(pieces: seq<string>, sep: char)
    requires forall p :: p in pieces ==> sep !in p
    ensures forall e :: e in NonEmptyTrimmed(pieces) ==> Clean(e, sep)
  {
    if pieces != [] {
      TrimmedAreClean(pieces[1..], sep);
      assert pieces[0] in pieces;
      TrimFacts(pieces[0]);
    }
  }

  lemma ParsedIsClean(raw: string, sep: char)
    ensures forall e :: e in ParseList(raw, sep) ==> Clean(e, sep)
  {
    SplitPieces(raw, sep);
    TrimmedAreClean(Split(raw, [sep]), sep);
  }

  lemma {:induction false} CleanStays(entries: seq<string>, sep: char)
    requires forall e :: e in entries ==> Clean(e, sep)
    ensures NonEmptyTrimmed(entries) == entries
  {
    if entries != [] {
      assert entries[0] in entries;
      TrimFixed(entries[0]);
      CleanStays(entries[1..], sep);
      assert entries == [entries[0]] + entries[1..];
    }
  }

  /** For every raw text that yields a list at all: what the far side splits out
      of the joined argument is that list, and parsing the argument again gives
      the list again. */
  lemma ListRoundTrip(raw: string, sep: char)
    requires ParseList(raw, sep) != []
    ensures Split(Join(ParseList(raw, sep), [sep]), [sep]) == ParseList(raw, sep)
    ensures ParseList(Join(ParseList(raw, sep), [sep]), sep) == ParseList(raw, sep)
  {
    var entries := ParseList(raw, sep);
    ParsedIsClean(raw, sep);
    forall e | e in entries ensures !Contains(e, [sep]) { CharFree(e, sep); }
    SplitJoin(entries, [sep]);
    CleanStays(entries, sep);
  }

  // ---------- what a parsed list is ----------

  /** The text between separators: what was joined to give the raw text. */
  ghost predicate Pieces(pieces: seq<string>, raw: string, sep: char) {
    pieces != [] && Join(pieces, [sep]) == raw && forall p :: p in pieces ==> sep !in p
  }

  /** The entry is the piece without the white space around it. */
  ghost predicate Stripped(piece: string, entry: string) {
    && entry != [] && !IsSpace(entry[0]) && !IsSpace(entry[|entry| - 1])
    && exists front, back :: Blank(front) && Blank(back) && piece == front + entry + back
  }

  /** Entry m comes from piece at[m], in order, and every piece that is not blank
      is picked. */
  ghost predicate Picks(entries: seq<string>, pieces: seq<string>, at: seq<nat>) {
    |at| == |entries| && Rising(at) && Covered(pieces, 0, at) && forall m :: 0 <= m < |at| ==> From(entries, pieces, at, m)
  }

  ghost predicate Rising(at: seq<nat>) { forall m, n :: 0 <= m < n < |at| ==> at[m] < at[n] }

  ghost predicate Covered(pieces: seq<string>, first: nat, at: seq<nat>) {
    forall i :: first <= i < |pieces| ==> Blank(pieces[i]) || i in at
  }

  ghost predicate From(entries: seq<string>, pieces: seq<string>, at: seq<nat>, m: nat)
    requires m < |at| == |entries|
  {
    at[m] < |pieces| && Stripped(pieces[at[m]], entries[m])
  }

  ghost predicate ListOf(entries: seq<string>, raw: string, sep: char) {
    exists pieces, at :: Pieces(pieces, raw, sep) && Picks(entries, pieces, at)
  }

  lemma BlankTrimsAway(s: string)
    ensures Trim(s) == [] <==> Blank(s)
  {
    var front, back := TrimCuts(s);
    if Trim(s) == [] {
      assert s == front + back;
    } else {
      TrimFacts(s);
      assert Trim(s)[0] in Trim(s);
    }
  }

  lemma TrimIsStripped(s: string)
    requires Trim(s) != []
    ensures Stripped(s, Trim(s))
  {
    TrimFacts(s);
    var front, back := TrimCuts(s);
    assert Blank(front) && Blank(back) && s == front + Trim(s) + back;
  }

  function Shifted(at: seq<nat>): (r: seq<nat>)
    ensures |r| == |at| && forall m :: 0 <= m < |at| ==> r[m] == at[m] + 1
  {
    seq(|at|, m requires 0 <= m < |at| => at[m] + 1)
  }

  lemma ShiftedCovers(piece: string, pieces: seq<string>, at: seq<nat>)
    requires Covered(pieces, 0, at)
    ensures Covered([piece] + pieces, 1, Shifted(at))
  {
    var all, later := [piece] + pieces, Shifted(at);
    forall i | 1 <= i < |all| ensures Blank(all[i]) || i in later {
      if !Blank(pieces[i - 1]) {
        var m :| 0 <= m < |at| && at[m] == i - 1;
        assert later[m] == i;
      }
    }
  }

  lemma ShiftedFrom(piece: string, entries: seq<string>, pieces: seq<string>, at: seq<nat>, m: nat)
    requires m < |at| == |entries| && From(entries, pieces, at, m)
    ensures From(entries, [piece] + pieces, Shifted(at), m)
  {
    assert ([piece] + pieces)[at[m] + 1] == pieces[at[m]];
  }

  /** One blank piece more in front. */
  lemma PicksPastBlank(piece: string, entries: seq<string>, pieces: seq<string>, at: seq<nat>)
    requires Picks(entries, pieces, at) && Blank(piece)
    ensures Picks(entries, [piece] + pieces, Shifted(at))
  {
    ShiftedCovers(piece, pieces, at);
    forall m | 0 <= m < |at| ensures From(entries, [piece] + pieces, Shifted(at), m) {
      ShiftedFrom(piece, entries, pieces, at, m);
    }
  }

  /** One piece more in front, with its entry. */
  lemma PicksOneMore(piece: string, entry: string, entries: seq<string>, pieces: seq<string>, at: seq<nat>)
    requires Picks(entries, pieces, at) && Stripped(piece, entry)
    ensures Picks([entry] + entries, [piece] + pieces, [0] + Shifted(at))
  {
    ShiftedCovers(piece, pieces, at);
    var picks := [0] + Shifted(at);
    CoveredMore([piece] + pieces, Shifted(at));
    forall m | 0 <= m < |picks| ensures From([entry] + entries, [piece] + pieces, picks, m) {
      if m > 0 {
        ShiftedFrom(piece, entries, pieces, at, m - 1);
        assert picks[m] == Shifted(at)[m - 1];
      }
    }
  }

  lemma CoveredMore(pieces: seq<string>, at: seq<nat>)
    requires Covered(pieces, 1, at)
    ensures Covered(pieces, 0, [0] + at)
  {
    assert ([0] + at)[0] == 0 && forall i :: i in at ==> i in [0] + at;
  }

  lemma {:induction false} ParsedPicks(pieces: seq<string>) returns (at: seq<nat>)
    ensures Picks(NonEmptyTrimmed(pieces), pieces, at)
  {
    if pieces == [] {
      at := [];
    } else {
      var rest := ParsedPicks(pieces[1..]);
      var entries := NonEmptyTrimmed(pieces[1..]);
      assert pieces == [pieces[0]] + pieces[1..];
      BlankTrimsAway(pieces[0]);
      if Trim(pieces[0]) == [] {
        PicksPastBlank(pieces[0], entries, pieces[1..], rest);
        at := Shifted(rest);
        assert [] + entries == entries;
      } else {
        TrimIsStripped(pieces[0]);
        PicksOneMore(pieces[0], Trim(pieces[0]), entries, pieces[1..], rest);
        at := [0] + Shifted(rest);
      }
    }
  }

  /** The parsed entries are, in order, the pieces with something in them, each
      without the white space around it; no piece is lost. */
  lemma ParsedList(raw: string, sep: char)
    ensures ListOf(ParseList(raw, sep), raw, sep)
  {
    var pieces := Split(raw, [sep]);
    SplitPieces(raw, sep);
    JoinSplit(raw, [sep]);
    var at := ParsedPicks(pieces);
    assert Pieces(pieces, raw, sep);
  }

  /** Leading and trailing white space is determined by the piece. */
  lemma StrippedIsTrim(piece: string, entry: string)
    requires Stripped(piece, entry)
    ensures Trim(piece) == entry
  {
    var front, back :| Blank(front) && Blank(back) && piece == front + entry + back;
    TrimEndPast(front + entry, back);
    TrimStartPast(front, entry);
  }

  lemma {:induction false} TrimEndPast(s: string, back: string)
    requires s != [] && !IsSpace(s[|s| - 1]) && Blank(back)
    ensures TrimEnd(s + back) == s
  {
    if back == [] {
      assert s + back == s;
    } else {
      var n := |back| - 1;
      assert back[n] in back;
      assert (s + back)[..|s + back| - 1] == s + back[..n];
      TrimEndPast(s, back[..n]);
    }
  }

  lemma {:induction false} TrimStartPast(front: string, s: string)
    requires s != [] && !IsSpace(s[0]) && Blank(front)
    ensures TrimStart(front + s) == s
  {
    if front == [] {
      assert front + s == s;
    } else {
      assert front[0] in front;
      assert (front + s)[1..] == front[1..] + s;
      TrimStartPast(front[1..], s);
    }
  }

  /** Looking past the first piece. */
  function Unshifted(at: seq<nat>): (r: seq<nat>)
    requires forall m :: 0 <= m < |at| ==> at[m] > 0
    ensures |r| == |at| && forall m :: 0 <= m < |at| ==> r[m] == at[m] - 1
  {
    seq(|at|, m requires 0 <= m < |at| => at[m] - 1)
  }

  lemma UnshiftedPicks(piece: string, entries: seq<string>, pieces: seq<string>, at: seq<nat>)
    requires |at| == |entries| && Rising(at) && forall m :: 0 <= m < |at| ==> at[m] > 0
    requires forall m :: 0 <= m < |at| ==> From(entries, [piece] + pieces, at, m)
    requires Covered([piece] + pieces, 1, at)
    ensures Picks(entries, pieces, Unshifted(at))
  {
    var all, earlier := [piece] + pieces, Unshifted(at);
    forall i | 0 <= i < |pieces| ensures Blank(pieces[i]) || i in earlier {
      assert all[i + 1] == pieces[i];
      if !Blank(pieces[i]) {
        var m :| 0 <= m < |at| && at[m] == i + 1;
        assert earlier[m] == i;
      }
    }
    forall m | 0 <= m < |earlier| ensures From(entries, pieces, earlier, m) {
      assert From(entries, all, at, m) && all[at[m]] == pieces[at[m] - 1];
    }
  }

  lemma {:induction false} PicksAreParsed(entries: seq<string>, pieces: seq<string>, at: seq<nat>)
    requires Picks(entries, pieces, at)
    ensures entries == NonEmptyTrimmed(pieces)
    decreases |pieces|
  {
    if pieces == [] {
      NothingPicked(entries, at);
    } else {
      var first, rest := pieces[0], pieces[1..];
      assert pieces == [first] + rest;
      ParseStep(first, rest);
      if |at| > 0 && at[0] == 0 {
        FirstPicked(first, entries, rest, at);
        PicksAreParsed(entries[1..], rest, Unshifted(at[1..]));
        assert entries == [entries[0]] + entries[1..];
      } else {
        FirstSkipped(first, entries, rest, at);
        PicksAreParsed(entries, rest, Unshifted(at));
        assert [] + entries == entries;
      }
    }
  }

  lemma NothingPicked(entries: seq<string>, at: seq<nat>)
    requires Picks(entries, [], at)
    ensures entries == []
  {
    assert |at| > 0 ==> From(entries, [], at, 0);
  }

  lemma ParseStep(first: string, rest: seq<string>)
    ensures NonEmptyTrimmed([first] + rest) == (if Trim(first) == [] then [] else [Trim(first)]) + NonEmptyTrimmed(rest)
  {
    assert ([first] + rest)[1..] == rest;
  }

  lemma FirstSkipped(piece: string, entries: seq<string>, pieces: seq<string>, at: seq<nat>)
    requires Picks(entries, [piece] + pieces, at) && (|at| > 0 ==> at[0] != 0)
    ensures Trim(piece) == [] && (forall m :: 0 <= m < |at| ==> at[m] > 0)
    ensures Picks(entries, pieces, Unshifted(at))
  {
    assert forall m :: 0 < m < |at| ==> at[0] < at[m];
    assert ([piece] + pieces)[0] == piece && 0 !in at;
    BlankTrimsAway(piece);
    UnshiftedPicks(piece, entries, pieces, at);
  }

  lemma CoveredLess(pieces: seq<string>, at: seq<nat>)
    requires Covered(pieces, 0, at) && at != [] && at[0] == 0
    ensures Covered(pieces, 1, at[1..])
  {
    forall i | 1 <= i < |pieces| ensures Blank(pieces[i]) || i in at[1..] {
      if !Blank(pieces[i]) {
        var m :| 0 <= m < |at| && at[m] == i;
        assert at[1..][m - 1] == i;
      }
    }
  }

  lemma FirstPicked(piece: string, entries: seq<string>, pieces: seq<string>, at: seq<nat>)
    requires Picks(entries, [piece] + pieces, at) && |at| > 0 && at[0] == 0
    ensures Trim(piece) == entries[0] != []
    ensures (forall m :: 0 <= m < |at[1..]| ==> at[1..][m] > 0)
    ensures Picks(entries[1..], pieces, Unshifted(at[1..]))
  {
    var all, rest := [piece] + pieces, at[1..];
    assert From(entries, all, at, 0) && all[0] == piece;
    StrippedIsTrim(piece, entries[0]);
    CoveredLess(all, at);
    forall m | 0 <= m < |rest| ensures From(entries[1..], all, rest, m) {
      assert From(entries, all, at, m + 1);
    }
    UnshiftedPicks(piece, entries[1..], pieces, rest);
  }

  /** And that describes the parsed list completely. */
  lemma ParsedExactlyWhen(entries: seq<string>, raw: string, sep: char)
    ensures entries == ParseList(raw, sep) <==> ListOf(entries, raw, sep)
  {
    ParsedList(raw, sep);
    if ListOf(entries, raw, sep) {
      var pieces, at :| Pieces(pieces, raw, sep) && Picks(entries, pieces, at);
      forall p | p in pieces ensures !Contains(p, [sep]) { CharFree(p, sep); }
      SplitJoin(pieces, [sep]);
      PicksAreParsed(entries, pieces, at);
    }
  }

  /** A list written with a space after the separator. */
  lemma SpacedList(a: string, b: string, sep: char)
    requires Clean(a, sep) && Clean(b, sep) && sep != ' '
    ensures ParseList(a + [sep] + (" " + b), sep) == [a, b]
  {
    var pieces := [a, " " + b];
    assert Join(pieces, [sep]) == a + [sep] + (" " + b) by { assert pieces[1..] == [" " + b]; }
    assert Pieces(pieces, a + [sep] + (" " + b), sep);
    assert Blank("") && Blank(" ");
    assert a == "" + a + "" && " " + b == " " + b + "";
    assert Stripped(a, a) && Stripped(" " + b, b);
    var at := [0, 1];
    assert at[0] == 0 && at[1] == 1;
    assert Picks([a, b], pieces, at);
    ParsedExactlyWhen([a, b], a + [sep] + (" " + b), sep);
  }

  // ---------- lists in results ----------

  function TextList(entries: seq<string>): Value {
    List(seq(|entries|, i requires 0 <= i < |entries| => Str(entries[i])))
  }

  /** The result names this list. */
  ghost predicate ReportsTexts(result: Value, name: string, texts: seq<string>) {
    && result.Obj? && name in result.fields && result.fields[name].List?
    && var items := result.fields[name].items;
       |items| == |texts| && forall i :: 0 <= i < |texts| ==> items[i] == Str(texts[i])
  }

  lemma TwoFields(k: string, u: Value, l: string, v: Value)
    requires k != l
    ensures var m := map[k := u, l := v]; k in m && m[k] == u && l in m && m[l] == v
  {
  }

  lemma ReportsTwo(k: string, a: seq<string>, l: string, b: seq<string>)
    requires k != l
    ensures var result := Obj(map[k := TextList(a), l := TextList(b)]);
            ReportsTexts(result, k, a) && ReportsTexts(result, l, b)
  {
    TwoFields(k, TextList(a), l, TextList(b));
  }

  lemma FirstOfThree(k: string, u: Value, l: string, v: Value, n: string, x: Value)
    requires k != l && k != n
    ensures var m := map[k := u, l := v, n := x]; k in m && m[k] == u
  {
  }

  lemma ReportsField(fields: map<string, Value>, name: string, texts: seq<string>)
    requires name in fields && fields[name] == TextList(texts)
    ensures ReportsTexts(Obj(fields), name, texts)
  {
  }
}
