/**
 The ranked-list loader shared by both programs: the loop that reads
 `rank,name` lines with `getline` until end of file or `topN` entries.

 `getline(stream, s, delim)` is modelled as the C++ library behaves: when the
 stream already reached end of file its guard fails and `s` keeps its old
 value; otherwise `s` is cleared, characters are taken up to the delimiter
 (which is consumed and dropped) or up to the end of input, which sets the
 end-of-file flag. The loop tests that flag BEFORE its two reads, so it
 stops only after a read has run into the end of input.
 */
module Loader {
  import opened Wrappers

  /** The unread part of the file and the end-of-file flag. */
  datatype Stream = Stream(rest: seq<char>, eof: bool)

  /** Entries read when `-n` is absent or not positive. */
  const DefaultTopN: nat := 10

  /** The entry cap after defaulting a non-positive `topN` to 10. */
  function EffectiveTopN(topN: int): (n: nat)
    ensures n > 0
    ensures topN > 0 ==> n == topN
    ensures topN <= 0 ==> n == DefaultTopN
  {
    if topN <= 0 then DefaultTopN else topN
  }

  /**
   One `getline(stream, target, delim)`: the stream after it and the new value
   of `target`. Characters are taken one at a time until the delimiter, which
   is consumed, or the end of input, which sets the end-of-file flag.
   */
  function Getline(s: Stream, delim: char, target: string): (r: (Stream, string))
    decreases |s.rest|
  {
    if s.eof then (s, target)
    else if |s.rest| == 0 then (Stream([], true), [])
    else if s.rest[0] == delim then (Stream(s.rest[1..], false), [])
    else
      var (after, field) := Getline(Stream(s.rest[1..], false), delim, target);
      (after, [s.rest[0]] + field)
  }

  /**
   A `getline` at end of file changes nothing. Otherwise it splits the unread
   text into the extracted field, free of the delimiter, then the delimiter and
   what is left, or reaches end of file having taken everything.
   */
  lemma {:induction false} GetlineSplitsInput(s: Stream, delim: char, target: string)
    decreases |s.rest|
    ensures var r := Getline(s, delim, target);
      && (s.eof ==> r == (s, target))
      && (!s.eof ==> delim !in r.1)
      && (!s.eof && !r.0.eof ==> s.rest == r.1 + [delim] + r.0.rest)
      && (!s.eof && r.0.eof ==> s.rest == r.1 && r.0.rest == [])
  {
    if !s.eof && |s.rest| > 0 && s.rest[0] != delim {
      var next := Stream(s.rest[1..], false);
      GetlineSplitsInput(next, delim, target);
      var (after, field) := Getline(next, delim, target);
      if !after.eof {
        assert s.rest == [s.rest[0]] + next.rest;
        assert s.rest == ([s.rest[0]] + field) + [delim] + after.rest;
      } else {
        assert s.rest == [s.rest[0]] + field;
      }
    }
  }

  /** A field ended by its delimiter is read and the delimiter is consumed. */
  lemma {:induction false} GetlineField(field: seq<char>, delim: char, more: seq<char>, target: string)
    requires delim !in field
    ensures Getline(Stream(field + [delim] + more, false), delim, target) == (Stream(more, false), field)
  {
    var text := field + [delim] + more;
    if |field| == 0 {
      assert text == [delim] + more;
    } else {
      assert text[1..] == field[1..] + [delim] + more;
      GetlineField(field[1..], delim, more, target);
      assert [field[0]] + field[1..] == field;
    }
  }

  /** A last field with no delimiter is read whole and end of file is reached. */
  lemma {:induction false} GetlineLastField(field: seq<char>, delim: char, target: string)
    requires delim !in field
    ensures Getline(Stream(field, false), delim, target) == (Stream([], true), field)
  {
    if |field| > 0 {
      GetlineLastField(field[1..], delim, target);
      assert [field[0]] + field[1..] == field;
    }
  }

  /**
   The read loop: while the end-of-file flag is clear and fewer than `budget`
   entries were read, read the rank up to `','` and the name up to `'\n'`.
   A name whose read found the stream already at end of file is the fresh,
   empty array element.
   */
  function ReadEntries(s: Stream, budget: nat): (names: seq<string>)
    decreases budget
    ensures |names| <= budget
    ensures !s.eof && budget > 0 ==> |names| >= 1
    ensures s.eof ==> names == []
  {
    if s.eof || budget == 0 then []
    else
      var (next, name) := ReadEntry(s);
      [name] + ReadEntries(next, budget - 1)
  }

  /** One loop iteration: the rank read up to `','`, then the name up to `'\n'`. */
  function ReadEntry(s: Stream): (r: (Stream, string))
  {
    var afterRank := Getline(s, ',', "").0;
    Getline(afterRank, '\n', "")
  }

  /** Why a domain list could not be produced. */
  datatype LoadError = FileMissing | NoDomains

  /**
   Load up to `topN` domains from a file (`None` when it cannot be opened).
   `topN <= 0` stands for 10, and an empty result is an error.
   */
  function LoadDomains(file: Option<seq<char>>, topN: int): (r: Result<seq<string>, LoadError>)
    ensures file.None? <==> r == Failure(FileMissing)
    ensures r.Success? ==> 0 < |r.value| <= EffectiveTopN(topN)
  {
    match file
    case None => Failure(FileMissing)
    case Some(text) =>
      var names := ReadEntries(Stream(text, false), EffectiveTopN(topN));
      if |names| == 0 then Failure(NoDomains) else Success(names)
  }

  /** One line of a ranked list. */
  datatype Line = Line(rank: string, name: string)

  predicate WellFormedLine(l: Line) {
    ',' !in l.rank && '\n' !in l.name
  }

  /** One line of the file: rank, comma, name, newline. */
  function LineText(l: Line): (r: seq<char>) {
    l.rank + [','] + l.name + ['\n']
  }

  /** The ranked-list text with every line ended by a newline. */
  function Render(lines: seq<Line>): (r: seq<char>) {
    if |lines| == 0 then [] else LineText(lines[0]) + Render(lines[1..])
  }

  /** A line with its newline left off. */
  function LastLineText(l: Line): (r: seq<char>) {
    l.rank + [','] + l.name
  }

  /** The ranked-list text with the newline after the last line left off. */
  function RenderUnterminated(lines: seq<Line>): (r: seq<char>)
    requires |lines| > 0
  {
    Render(lines[..|lines| - 1]) + LastLineText(lines[|lines| - 1])
  }

  /** The name column of a list, in order. */
  function Names(lines: seq<Line>): (names: seq<string>)
    ensures |names| == |lines|
  {
    if |lines| == 0 then [] else [lines[0].name] + Names(lines[1..])
  }

  /** The line's rank and name are read, leaving the stream at the following line. */
  lemma ReadLine(l: Line, more: seq<char>)
    requires WellFormedLine(l)
    ensures ReadEntry(Stream(LineText(l) + more, false)) == (Stream(more, false), l.name)
  {
    assert LineText(l) + more == l.rank + [','] + (l.name + ['\n'] + more);
    GetlineField(l.rank, ',', l.name + ['\n'] + more, "");
    GetlineField(l.name, '\n', more, "");
  }

  /** A loop iteration over a whole line contributes its name and moves on. */
  lemma ReadLineStep(l: Line, more: seq<char>, budget: nat)
    requires WellFormedLine(l) && budget > 0
    ensures ReadEntries(Stream(LineText(l) + more, false), budget)
         == [l.name] + ReadEntries(Stream(more, false), budget - 1)
  {
    ReadLine(l, more);
  }

  /**
   Reading complete lines followed by any text: the lines' names come first, in
   order, and the loop goes on into the text only when the budget is not spent.
   */
  lemma {:induction false} ReadLines(lines: seq<Line>, more: seq<char>, budget: nat)
    requires forall i :: 0 <= i < |lines| ==> WellFormedLine(lines[i])
    ensures ReadEntries(Stream(Render(lines) + more, false), budget)
         == if budget <= |lines| then Names(lines)[..budget]
            else Names(lines) + ReadEntries(Stream(more, false), budget - |lines|)
  {
    if |lines| == 0 {
      assert Render(lines) + more == more;
    } else if budget == 0 {
    } else {
      var l, rest := lines[0], lines[1..];
      var tail := Render(rest) + more;
      assert Render(lines) + more == LineText(l) + tail;
      var got := ReadEntries(Stream(tail, false), budget - 1);
      assert ReadEntries(Stream(Render(lines) + more, false), budget) == [l.name] + got by {
        ReadLineStep(l, tail, budget);
      }
      assert Names(lines) == [l.name] + Names(rest);
      if budget <= |lines| {
        assert got == Names(rest)[..budget - 1] by {
          assert forall i :: 0 <= i < |rest| ==> WellFormedLine(rest[i]);
          ReadLines(rest, more, budget - 1);
        }
        assert Names(lines)[..budget] == [l.name] + Names(rest)[..budget - 1];
      } else {
        var after := ReadEntries(Stream(more, false), budget - |lines|);
        assert got == Names(rest) + after by {
          assert forall i :: 0 <= i < |rest| ==> WellFormedLine(rest[i]);
          assert budget - |lines| == (budget - 1) - |rest|;
          ReadLines(rest, more, budget - 1);
        }
        assert [l.name] + (Names(rest) + after) == Names(lines) + after;
      }
    }
  }

  /**
   Reading a newline-terminated list yields its names in file order, capped at
   the budget; when the list is shorter than the budget, the loop runs once
   more past the final newline and adds an empty entry.
   */
  lemma ReadTerminated(lines: seq<Line>, budget: nat)
    requires forall i :: 0 <= i < |lines| ==> WellFormedLine(lines[i])
    ensures ReadEntries(Stream(Render(lines), false), budget)
         == if budget <= |lines| then Names(lines)[..budget] else Names(lines) + [""]
  {
    ReadLines(lines, [], budget);
    assert Render(lines) + [] == Render(lines);
    if |lines| < budget {
      ReadPastEnd(budget - |lines|);
    }
  }

  /** Reading a list whose last line lacks the newline yields exactly its names, capped at the budget. */
  lemma ReadUnterminated(lines: seq<Line>, budget: nat)
    requires |lines| > 0
    requires forall i :: 0 <= i < |lines| ==> WellFormedLine(lines[i])
    ensures ReadEntries(Stream(RenderUnterminated(lines), false), budget)
         == if budget <= |lines| then Names(lines)[..budget] else Names(lines)
  {
    var init, last := lines[..|lines| - 1], lines[|lines| - 1];
    ReadLines(init, LastLineText(last), budget);
    if |init| < budget {
      ReadLastLine(last, budget - |init|);
      assert Names(lines) == Names(init) + [last.name] by {
        NamesSnoc(lines);
      }
    } else if budget <= |init| {
      assert Names(lines)[..budget] == Names(init)[..budget] by {
        NamesSnoc(lines);
      }
    }
  }

  /** A last line without its newline contributes its name and ends the loop. */
  lemma ReadLastLine(l: Line, budget: nat)
    requires WellFormedLine(l) && budget > 0
    ensures ReadEntries(Stream(LastLineText(l), false), budget) == [l.name]
  {
    GetlineField(l.rank, ',', l.name, "");
    GetlineLastField(l.name, '\n', "");
    assert ReadEntry(Stream(LastLineText(l), false)) == (Stream([], true), l.name);
    assert ReadEntries(Stream(LastLineText(l), false), budget)
        == [l.name] + ReadEntries(Stream([], true), budget - 1);
  }

  lemma {:induction false} NamesSnoc(lines: seq<Line>)
    requires |lines| > 0
    ensures Names(lines) == Names(lines[..|lines| - 1]) + [lines[|lines| - 1].name]
  {
    if |lines| > 1 {
      var init := lines[..|lines| - 1];
      NamesSnoc(lines[1..]);
      assert lines[1..][..|lines| - 2] == init[1..];
      assert Names(init) == [lines[0].name] + Names(init[1..]);
    }
  }

  /**
   An opened file always yields at least one entry (an empty file yields one
   empty name), so the "no domains" exit never fires.
   */
  lemma OpenedFileNeverEmpty(text: seq<char>, topN: int)
    ensures LoadDomains(Some(text), topN).Success?
  {
  }

  /** An empty file yields a single empty domain name. */
  lemma EmptyFileYieldsOneEmptyName(topN: int)
    ensures LoadDomains(Some([]), topN) == Success([""])
  {
    ReadPastEnd(EffectiveTopN(topN));
  }

  /** With input exhausted but end of file not yet seen, the loop reads one more, empty, entry. */
  lemma ReadPastEnd(budget: nat)
    requires budget > 0
    ensures ReadEntries(Stream([], false), budget) == [""]
  {
    assert ReadEntry(Stream([], false)) == (Stream([], true), "");
    assert ReadEntries(Stream([], false), budget) == [""] + ReadEntries(Stream([], true), budget - 1);
  }
}
