/** `ASCII_ART.split('\n')`: the art string cut into lines at every newline. */
module AsciiText {

  const Newline: char := '\n'

  /** The lines of `s`, as `String.prototype.split('\n')` returns them: there is
      always at least one line, and a trailing newline gives a last empty line. */
  function SplitLines(s: string): (lines: seq<string>)
    ensures |lines| >= 1
    decreases |s|
  {
    if |s| == 0 then [""]
    else
      var rest := SplitLines(s[1..]);
      if s[0] == Newline then [""] + rest
      else [[s[0]] + rest[0]] + rest[1..]
  }

  /** The inverse of `SplitLines`: `lines.join('\n')`. */
  function JoinLines(lines: seq<string>): (s: string)
    requires |lines| >= 1
    decreases |lines|
  {
    if |lines| == 1 then lines[0]
    else lines[0] + [Newline] + JoinLines(lines[1..])
  }

  predicate NoNewline(line: string) {
    forall k :: 0 <= k < |line| ==> line[k] != Newline
  }

  /** No line that `SplitLines` returns holds a newline. */
  lemma {:induction false} SplitLinesHaveNoNewline(s: string)
    ensures forall k :: 0 <= k < |SplitLines(s)| ==> NoNewline(SplitLines(s)[k])
    decreases |s|
  {
    if |s| > 0 {
      SplitLinesHaveNoNewline(s[1..]);
      var rest := SplitLines(s[1..]);
      if s[0] != Newline {
        var first := [s[0]] + rest[0];
        assert NoNewline(rest[0]);
        assert NoNewline(first) by {
          forall k | 0 <= k < |first| ensures first[k] != Newline {
            if k > 0 { assert first[k] == rest[0][k - 1]; }
          }
        }
      }
    }
  }

  /** Joining the split lines gives the art back. */
  lemma {:induction false} JoinSplit(s: string)
    ensures JoinLines(SplitLines(s)) == s
    decreases |s|
  {
    if |s| > 0 {
      JoinSplit(s[1..]);
      var rest := SplitLines(s[1..]);
      if s[0] == Newline {
        assert SplitLines(s) == [""] + rest;
        assert ([""] + rest)[1..] == rest;
      } else {
        var lines := SplitLines(s);
        assert lines == [[s[0]] + rest[0]] + rest[1..];
        if |rest| == 1 {
          assert JoinLines(lines) == [s[0]] + rest[0];
        } else {
          assert lines[1..] == rest[1..];
          assert JoinLines(rest) == rest[0] + [Newline] + JoinLines(rest[1..]);
          assert JoinLines(lines) == [s[0]] + rest[0] + [Newline] + JoinLines(rest[1..]);
        }
      }
    }
  }

  /** Joined lines whose first line is not empty start with that line's first
      character, followed by the join of the lines with it removed. */
  lemma JoinFirstChar(lines: seq<string>)
    requires |lines| >= 1 && |lines[0]| > 0
    ensures |JoinLines(lines)| > 0 && JoinLines(lines)[0] == lines[0][0]
    ensures JoinLines(lines)[1..] == JoinLines([lines[0][1..]] + lines[1..])
  {
    var head := lines[0];
    var shorter := [head[1..]] + lines[1..];
    if |lines| == 1 {
      assert JoinLines(lines) == head;
      assert shorter == [head[1..]];
    } else {
      var tail := JoinLines(lines[1..]);
      assert JoinLines(lines) == head + [Newline] + tail;
      calc {
        JoinLines(lines)[1..];
        (head + [Newline] + tail)[1..];
        head[1..] + [Newline] + tail;
        { assert shorter[0] == head[1..] && shorter[1..] == lines[1..]; }
        JoinLines(shorter);
      }
    }
  }

  /** Dropping the first character of the first line keeps every line free of newlines. */
  lemma DropFirstChar(lines: seq<string>)
    requires |lines| >= 1 && |lines[0]| > 0
    requires forall k :: 0 <= k < |lines| ==> NoNewline(lines[k])
    ensures forall k :: 0 <= k < |[lines[0][1..]] + lines[1..]| ==> NoNewline(([lines[0][1..]] + lines[1..])[k])
  {
    var head := lines[0];
    var shorter := [head[1..]] + lines[1..];
    assert NoNewline(head[1..]) by {
      forall k | 0 <= k < |head| - 1 ensures head[1..][k] != Newline {
        assert head[1..][k] == head[k + 1];
      }
    }
    forall k | 0 <= k < |shorter| ensures NoNewline(shorter[k]) {
      if k > 0 { assert shorter[k] == lines[k]; }
    }
  }

  /** Splitting joined lines that hold no newline gives the lines back. */
  lemma {:induction false} SplitJoin(lines: seq<string>)
    requires |lines| >= 1
    requires forall k :: 0 <= k < |lines| ==> NoNewline(lines[k])
    ensures SplitLines(JoinLines(lines)) == lines
    decreases |lines|, |lines[0]|
  {
    if |lines[0]| > 0 {
      var head := lines[0];
      var shorter := [head[1..]] + lines[1..];
      DropFirstChar(lines);
      SplitJoin(shorter);
      JoinFirstChar(lines);
      var s := JoinLines(lines);
      assert head[0] != Newline;
      assert SplitLines(s[1..]) == shorter;
      assert [head[0]] + head[1..] == head;
      assert shorter[1..] == lines[1..];
      assert [head] + lines[1..] == lines;
    } else if |lines| > 1 {
      var s := JoinLines(lines);
      assert s == [Newline] + JoinLines(lines[1..]);
      assert s[1..] == JoinLines(lines[1..]);
      SplitJoin(lines[1..]);
      assert [""] + lines[1..] == lines;
    }
  }
}
