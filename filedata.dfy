/** The kind of data source or destination named on the command line,
    decided by the text after the last `.` of the name. */
module Filedata {

  datatype FileData = CSV | Terminal | Nothing

  /** Whether `piece` is free of the separator `.`. */
  predicate DotFree(piece: string)
  {
    '.' !in piece
  }

  /** The pieces glued back together with `.` between neighbours. */
  function Join(pieces: seq<string>): string
    requires |pieces| >= 1
  {
    if |pieces| == 1 then pieces[0]
    else Join(pieces[..|pieces| - 1]) + "." + pieces[|pieces| - 1]
  }

  /** Joining one more piece puts a `.` and that piece at the end. */
  lemma JoinSnoc(pieces: seq<string>, piece: string)
    requires |pieces| >= 1
    ensures Join(pieces + [piece]) == Join(pieces) + "." + piece
  {
    assert (pieces + [piece])[..|pieces|] == pieces;
  }

  /** The pieces of `s` between its `.` separators, as `str::split('.')`
      yields them: never empty (so taking the last one cannot fail), and
      gluing them back gives `s`. */
  function Split(s: string): (pieces: seq<string>)
    ensures |pieces| >= 1
    ensures Join(pieces) == s
  {
    if |s| == 0 then [""]
    else
      var init := Split(s[..|s| - 1]);
      var c := s[|s| - 1];
      assert s == s[..|s| - 1] + [c];
      if c == '.' then
        JoinSnoc(init, "");
        init + [""]
      else
        var m := |init| - 1;
        var pieces := init[..m] + [init[m] + [c]];
        assert Join(pieces) == s by {
          if m > 0 {
            JoinSnoc(init[..m], init[m]);
            assert init[..m] + [init[m]] == init;
            JoinSnoc(init[..m], init[m] + [c]);
          }
        }
        pieces
  }

  /** The text after the last `.`, or the whole name when it has none. */
  function LastSegment(s: string): string
  {
    var pieces := Split(s);
    pieces[|pieces| - 1]
  }

  /** The match on the last segment: case-sensitive, exact. */
  function Classify(segment: string): FileData
  {
    if segment == "csv" then CSV
    else if segment == "terminal" || segment == "console" || segment == "tty" then Terminal
    else Nothing
  }

  /** `FileData::from_string`: classify the last `.`-separated segment. */
  function FromString(name: string): FileData
  {
    Classify(LastSegment(name))
  }

  /** No piece of a split contains the separator. */
  lemma {:induction false} SplitPiecesDotFree(s: string)
    ensures forall i :: 0 <= i < |Split(s)| ==> DotFree(Split(s)[i])
  {
    if |s| > 0 {
      var c := s[|s| - 1];
      var init := Split(s[..|s| - 1]);
      SplitPiecesDotFree(s[..|s| - 1]);
      if c != '.' {
        var m := |init| - 1;
        assert Split(s) == init[..m] + [init[m] + [c]];
        assert DotFree(init[m]);
      }
    }
  }

  /** Appending one character other than `.` extends the last piece. */
  lemma SplitSnoc(s: string, c: char)
    requires c != '.'
    ensures Split(s + [c]) == Split(s)[..|Split(s)| - 1] + [Split(s)[|Split(s)| - 1] + [c]]
  {
    assert (s + [c])[..|s|] == s;
  }

  /** A non-empty list of pieces is its pieces but the last, then the last. */
  lemma InitThenLast(pieces: seq<string>)
    requires |pieces| >= 1
    ensures pieces[..|pieces| - 1] + [pieces[|pieces| - 1]] == pieces
  {
  }

  /** Appending non-empty text is appending all of it but its last
      character, then that character. */
  lemma AppendLast(a: string, w: string)
    requires |w| > 0
    ensures a + w == (a + w[..|w| - 1]) + [w[|w| - 1]]
  {
    assert w == w[..|w| - 1] + [w[|w| - 1]];
  }

  /** Appending dot-free text extends the last piece and leaves the others alone. */
  lemma {:induction false} SplitExtend(s: string, w: string)
    requires DotFree(w)
    ensures |Split(s + w)| == |Split(s)|
    ensures Split(s + w) == Split(s)[..|Split(s)| - 1] + [Split(s)[|Split(s)| - 1] + w]
    decreases |w|
  {
    var p := Split(s);
    var n := |p| - 1;
    if |w| == 0 {
      assert s + w == s;
      assert p[n] + w == p[n];
      assert p[..n] + [p[n]] == p;
    } else {
      var w' := w[..|w| - 1];
      var c := w[|w| - 1];
      assert c in w;
      assert DotFree(w');
      SplitExtend(s, w');
      AppendLast(s, w);
      SplitSnoc(s + w', c);
      var q := Split(s + w');
      assert q == p[..n] + [p[n] + w'];
      assert q[..n] == p[..n];
      AppendLast(p[n], w);
    }
  }

  /** Splitting a name that ends with `.` then dot-free text `w` yields `w` as the new last piece. */
  lemma SplitAfterDot(s: string, w: string)
    requires DotFree(w)
    ensures Split(s + "." + w) == Split(s) + [w]
  {
    assert (s + ".")[..|s + "."| - 1] == s;
    assert Split(s + ".") == Split(s) + [""];
    SplitExtend(s + ".", w);
    var p := Split(s + ".");
    assert p[..|p| - 1] == Split(s);
    assert p[|p| - 1] + w == w;
  }

  /** A dot-free name splits into itself alone. */
  lemma SplitDotFree(w: string)
    requires DotFree(w)
    ensures Split(w) == [w]
  {
    SplitExtend("", w);
    assert "" + w == w;
  }

  /** Splitting undoes joining: dot-free pieces are recovered exactly. */
  lemma {:induction false} SplitJoin(pieces: seq<string>)
    requires |pieces| >= 1
    requires forall i :: 0 <= i < |pieces| ==> DotFree(pieces[i])
    ensures Split(Join(pieces)) == pieces
  {
    var n := |pieces|;
    if n == 1 {
      SplitDotFree(pieces[0]);
    } else {
      var init := pieces[..n - 1];
      SplitJoin(init);
      SplitAfterDot(Join(init), pieces[n - 1]);
      InitThenLast(pieces);
    }
  }

  /** The last segment is the text after the last `.`: if position `i`
      holds a `.` and no `.` follows it, the last segment is everything
      after position `i`. */
  lemma LastSegmentAfterLastDot(name: string, i: nat)
    requires i < |name| && name[i] == '.' && DotFree(name[i + 1..])
    ensures LastSegment(name) == name[i + 1..]
  {
    assert name == name[..i] + "." + name[i + 1..];
    SplitAfterDot(name[..i], name[i + 1..]);
  }

  /** A name without any `.` is its own last segment. */
  lemma LastSegmentWithoutDot(name: string)
    requires DotFree(name)
    ensures LastSegment(name) == name
  {
    SplitDotFree(name);
  }

  /** The kind is `CSV` exactly when the text after the last `.` is `csv`,
      `Terminal` exactly when it is `terminal`, `console` or `tty`, and
      `Nothing` for every other text, the empty one included. */
  lemma FromStringAfterLastDot(name: string, i: nat)
    requires i < |name| && name[i] == '.' && DotFree(name[i + 1..])
    ensures FromString(name) == CSV <==> name[i + 1..] == "csv"
    ensures FromString(name) == Terminal <==> name[i + 1..] in {"terminal", "console", "tty"}
    ensures FromString(name) == Nothing <==> name[i + 1..] !in {"csv", "terminal", "console", "tty"}
  {
    LastSegmentAfterLastDot(name, i);
  }

  /** A name without any `.` is classified whole, by the same table. */
  lemma FromStringWithoutDot(name: string)
    requires DotFree(name)
    ensures FromString(name) == CSV <==> name == "csv"
    ensures FromString(name) == Terminal <==> name in {"terminal", "console", "tty"}
    ensures FromString(name) == Nothing <==> name !in {"csv", "terminal", "console", "tty"}
  {
    LastSegmentWithoutDot(name);
  }

  /** `terminal` and `console` have no `.` and are classified whole. */
  lemma FromStringTerminalExamples()
    ensures FromString("terminal") == Terminal
    ensures FromString("console") == Terminal
  {
    LastSegmentWithoutDot("terminal");
    LastSegmentWithoutDot("console");
  }

  /** The empty name is its own (empty) last segment, which matches nothing. */
  lemma FromStringEmptyExample()
    ensures FromString("") == Nothing
  {
    FromStringWithoutDot("");
  }

  /** File names with a recognised extension. */
  lemma FromStringExamplesAccepted()
    ensures FromString("out.csv") == CSV
    ensures FromString("log.tty") == Terminal
  {
    FromStringAfterLastDot("out.csv", 3);
    FromStringAfterLastDot("log.tty", 3);
  }

  /** The match is exact and case-sensitive: an earlier `csv` segment, an
      upper-case extension and an empty last segment are all `Nothing`. */
  lemma FromStringExamplesRejected()
    ensures FromString("a.csv.txt") == Nothing
    ensures FromString("DATA.CSV") == Nothing
    ensures FromString("samples.") == Nothing
  {
    FromStringAfterLastDot("a.csv.txt", 5);
    FromStringAfterLastDot("DATA.CSV", 4);
    FromStringAfterLastDot("samples.", 7);
  }
}
