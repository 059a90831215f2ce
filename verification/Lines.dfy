/** The iterator over the lines of a string, ended by `\n` or `\r\n`. */
module Lines {
  import opened Wrappers

  // ------------------------------------------------------------------------------ specification

  /** The pieces between newlines; there is one more piece than there are newlines. */
  function Cut(s: string): (pieces: seq<string>)
    ensures |pieces| >= 1
  {
    if s == "" then [""] else Prepended(s[0], Cut(s[1..]))
  }

  /** A character goes to the front of the first piece, a newline makes a new one. */
  function Prepended(c: char, pieces: seq<string>): (r: seq<string>)
    requires |pieces| >= 1
    ensures |r| >= 1
  {
    if c == '\n' then [""] + pieces else [[c] + pieces[0]] + pieces[1..]
  }

  function Appended(pieces: seq<string>, c: char): (r: seq<string>)
    requires |pieces| >= 1
    ensures |r| >= 1
  {
    var n := |pieces| - 1;
    if c == '\n' then pieces + [""] else pieces[..n] + [pieces[n] + [c]]
  }

  function Stripped(piece: string): string {
    if piece != "" && piece[|piece| - 1] == '\r' then piece[..|piece| - 1] else piece
  }

  /** Every piece that a newline ended loses one final `\r`; a last piece without a newline is kept
      as it is, unless it is empty. */
  function Finished(pieces: seq<string>): seq<string>
    requires |pieces| >= 1
  {
    if |pieces| > 1 then [Stripped(pieces[0])] + Finished(pieces[1..])
    else if pieces[0] == "" then [] else pieces
  }

  function LinesOf(s: string): seq<string> { Finished(Cut(s)) }

  lemma {:induction false} CutWithoutNewline(s: string)
    requires '\n' !in s
    ensures Cut(s) == [s]
  {
    if s != "" {
      CutWithoutNewline(s[1..]);
      assert s == [s[0]] + s[1..];
    }
  }

  lemma {:induction false} CutAtNewline(s: string, pos: nat)
    requires pos < |s| && s[pos] == '\n' && '\n' !in s[..pos]
    ensures Cut(s) == [s[..pos]] + Cut(s[pos + 1..])
  {
    if pos > 0 {
      assert s[1..][..pos - 1] == s[..pos][1..];
      CutAtNewline(s[1..], pos - 1);
      assert s[1..][pos..] == s[pos + 1..];
      assert s[..pos] == [s[0]] + s[1..][..pos - 1];
    }
  }

  lemma LinesOfUnterminated(s: string)
    requires s != "" && '\n' !in s
    ensures LinesOf(s) == [s] && LinesOf("") == []
  {
    CutWithoutNewline(s);
  }

  lemma LinesOfTerminated(s: string, pos: nat)
    requires pos < |s| && s[pos] == '\n' && '\n' !in s[..pos]
    ensures LinesOf(s) == [Stripped(s[..pos])] + LinesOf(s[pos + 1..])
  {
    CutAtNewline(s, pos);
    assert Cut(s)[1..] == Cut(s[pos + 1..]);
  }

  // --------------------------------------------------------------------- lines and their endings

  function Unlines(lines: seq<string>, ending: string): string {
    if lines == [] then "" else lines[0] + ending + Unlines(lines[1..], ending)
  }

  lemma CutLine(line: string, rest: string)
    ensures '\n' !in line ==> LinesOf(line + "\n" + rest) == [Stripped(line)] + LinesOf(rest)
  {
    if '\n' !in line {
      var s := line + "\n" + rest;
      assert s[..|line|] == line && s[|line| + 1..] == rest;
      LinesOfTerminated(s, |line|);
    }
  }

  /** Lines written with `\n` are read back, if they contain no newline and do not end in `\r`. */
  lemma {:induction false} NewlineRoundTrip(lines: seq<string>)
    requires forall l :: l in lines ==> '\n' !in l && Stripped(l) == l
    ensures LinesOf(Unlines(lines, "\n")) == lines
  {
    if lines != [] {
      CutLine(lines[0], Unlines(lines[1..], "\n"));
      NewlineRoundTrip(lines[1..]);
    }
  }

  /** Lines written with `\r\n` are read back, if they contain no newline. */
  lemma {:induction false} CrLfRoundTrip(lines: seq<string>)
    requires forall l :: l in lines ==> '\n' !in l
    ensures LinesOf(Unlines(lines, "\r\n")) == lines
  {
    if lines != [] {
      var rest := Unlines(lines[1..], "\r\n");
      assert lines[0] + "\r\n" + rest == (lines[0] + "\r") + "\n" + rest;
      CutLine(lines[0] + "\r", rest);
      CrLfRoundTrip(lines[1..]);
    }
  }

  lemma PrependedAppended(x: char, pieces: seq<string>, c: char)
    requires |pieces| >= 1
    ensures Prepended(x, Appended(pieces, c)) == Appended(Prepended(x, pieces), c)
  {
    if c != '\n' && x != '\n' && |pieces| == 1 {
      assert ([x] + pieces[0]) + [c] == [x] + (pieces[0] + [c]);
    }
  }

  lemma CutOne(c: char)
    ensures Cut([c]) == Appended(Cut(""), c)
  {
    assert [c][1..] == "" && [c] + "" == [c] && "" + [c] == [c];
    assert Cut([c]) == Prepended(c, Cut(""));
  }

  /** Cutting can as well go from the back. */
  lemma {:induction false} CutAppend(s: string, c: char)
    ensures Cut(s + [c]) == Appended(Cut(s), c)
  {
    hide Prepended;
    hide Appended;
    if s == "" {
      assert s + [c] == [c];
      CutOne(c);
    } else {
      assert (s + [c])[0] == s[0] && (s + [c])[1..] == s[1..] + [c];
      CutAppend(s[1..], c);
      PrependedAppended(s[0], Cut(s[1..]), c);
    }
  }

  lemma {:induction false} FinishedAppend(pieces: seq<string>)
    requires |pieces| >= 1
    ensures |Finished(pieces + [""])| == |pieces|
    ensures var n := |pieces| - 1;
            if pieces[n] == "" then |Finished(pieces)| == n
            else Finished(pieces) == Finished(pieces + [""])[..n] + [pieces[n]]
                 && Finished(pieces + [""])[n] == Stripped(pieces[n])
  {
    assert (pieces + [""])[1..] == pieces[1..] + [""];
    if |pieces| > 1 {
      FinishedAppend(pieces[1..]);
    }
  }

  /** A final newline makes no difference, as the documentation of `lines` says, exactly when the
      string ends in an ordinary character: after a final `\r` the newline swallows the `\r`. */
  lemma FinalNewline(s: string)
    ensures LinesOf(s + "\n") == LinesOf(s) <==> s != "" && s[|s| - 1] !in "\r\n"
  {
    CutAppend(s, '\n');
    var n := |Cut(s)| - 1;
    assert Cut(s + "\n") == Cut(s) + [""];
    FinishedAppend(Cut(s));
    LastPiece(s);
    hide Cut;
    hide Finished;
    var q := Cut(s)[n];
    if q != "" {
      assert LinesOf(s)[n] == q && LinesOf(s + "\n")[n] == Stripped(q);
      assert LinesOf(s + "\n") == LinesOf(s + "\n")[..n] + [Stripped(q)];
    }
  }

  /** The last piece ends as the string does, unless that is a newline. */
  lemma LastPiece(s: string)
    ensures var q := Cut(s)[|Cut(s)| - 1];
            if s == "" || s[|s| - 1] == '\n' then q == "" else q != "" && q[|q| - 1] == s[|s| - 1]
  {
    if s != "" {
      CutAppend(s[..|s| - 1], s[|s| - 1]);
      assert s == s[..|s| - 1] + [s[|s| - 1]];
      hide Cut;
    }
  }

  // -------------------------------------------------------------------------------------- model

  /** `find_first_of("\r\n", from)`. */
  function FindTerminator(s: string, from: nat): (pos: Option<nat>)
    requires from <= |s|
    ensures pos.Some? ==> from <= pos.value < |s| && s[pos.value] in "\r\n"
    ensures forall i :: from <= i < (if pos.Some? then pos.value else |s|) ==> s[i] !in "\r\n"
    decreases |s| - from
  {
    if from == |s| then None
    else if s[from] in "\r\n" then Some(from)
    else FindTerminator(s, from + 1)
  }

  class Lines {
    var input: string

    constructor (s: string)
      ensures input == s
    {
      input := s;
    }

    method Next() returns (item: Option<string>)
      modifies this
      ensures old(input) == "" ==> item == None && input == ""
      ensures old(input) != "" ==> item.Some? && LinesOf(old(input)) == [item.value] + LinesOf(input)
      ensures old(input) != "" ==> |input| < |old(input)|
    {
      if input == "" {
        return None;
      }
      var line := NextLine();
      return Some(line);
    }

    method NextLine() returns (line: string)
      requires input != ""
      modifies this
      ensures LinesOf(old(input)) == [line] + LinesOf(input) && |input| < |old(input)|
    {
      hide LinesOf;
      var startOffset := 0;
      while true
        invariant input == old(input) && 0 <= startOffset < |input| && '\n' !in input[..startOffset]
        invariant startOffset > 0 ==> input[startOffset - 1] == '\r' && input[startOffset] != '\n'
        decreases |input| - startOffset
      {
        var pos := FindTerminator(input, startOffset);
        if pos == None {
          LinesOfUnterminated(input);
          line, input := input, "";
          return;
        }
        var p := pos.value;
        assert forall i :: 0 <= i < p ==>
          input[..p][i] == if i < startOffset then input[..startOffset][i] else input[i];
        if input[p] == '\n' {
          LinesOfTerminated(input, p);
          line, input := input[..p], input[p + 1..];
          return;
        }
        if p == |input| - 1 {
          LinesOfUnterminated(input);
          line, input := input, "";
          return;
        }
        if input[p + 1] == '\n' {
          LinesOfTerminated(input, p + 1);
          assert Stripped(input[..p + 1]) == input[..p];
          line, input := input[..p], input[p + 2..];
          return;
        }
        startOffset := p + 1;
      }
    }

    /** Draining yields exactly the lines. */
    method Collect() returns (cont: seq<string>)
      modifies this
      ensures cont == LinesOf(old(input)) && input == ""
    {
      cont := [];
      while input != ""
        invariant LinesOf(old(input)) == cont + LinesOf(input)
        decreases |input|
      {
        var item := Next();
        cont := cont + [item.value];
      }
    }
  }
}
