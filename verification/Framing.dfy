/** How both ends of a stream cut it into lines. */
module Framing {
  import Text

  /** The `dropCR` of Go's line scanner. */
  function DropCR(line: string): string {
    if line != "" && line[|line| - 1] == '\r' then line[..|line| - 1] else line
  }

  predicate EndsInCR(s: string) {
    s != "" && s[|s| - 1] == '\r'
  }

  /** What a consumer that stops after `limit` items has taken. */
  function Taken<T>(items: seq<T>, limit: nat): seq<T> {
    if |items| <= limit then items else items[..limit]
  }

  function Each<T, U>(xs: seq<T>, f: T -> U): (r: seq<U>)
    ensures |r| == |xs|
    ensures forall i | 0 <= i < |xs| :: r[i] == f(xs[i])
  {
    seq(|xs|, i requires 0 <= i < |xs| => f(xs[i]))
  }

  lemma EachConcat<T, U>(a: seq<T>, b: seq<T>, f: T -> U)
    ensures Each(a + b, f) == Each(a, f) + Each(b, f)
  {
  }

  lemma EachLast<T, U>(xs: seq<T>, f: T -> U)
    requires xs != []
    ensures Each(xs, f) == Each(xs[..|xs| - 1], f) + [f(xs[|xs| - 1])]
  {
  }

  /** `bufio.ScanLines` over a whole body: the line after the last newline counts
      where it is not empty, and a carriage return before the end of a line
      belongs to the line ending. */
  function Lines(body: string): seq<string> {
    var parts := Text.Split(body, '\n');
    var last := parts[|parts| - 1];
    Each(if last == "" then parts[..|parts| - 1] else parts, DropCR)
  }

  /** Every line with its newline. */
  function Unlines(lines: seq<string>): string {
    if lines == [] then "" else Unlines(lines[..|lines| - 1]) + lines[|lines| - 1] + "\n"
  }

  lemma {:induction false} UnlinesConcat(a: seq<string>, b: seq<string>)
    ensures Unlines(a + b) == Unlines(a) + Unlines(b)
  {
    if b == [] {
      assert a + b == a;
    } else {
      var n := |b| - 1;
      UnlinesConcat(a, b[..n]);
      assert (a + b)[..|a + b| - 1] == a + b[..n];
    }
  }

  lemma {:induction false} UnlinesJoins(lines: seq<string>)
    ensures Unlines(lines) == Text.Join(lines + [""], '\n')
  {
    if lines != [] {
      var front, last := lines[..|lines| - 1], lines[|lines| - 1];
      UnlinesJoins(front);
      assert lines + [""] == front + [last, ""];
      JoinLast(front, last);
    }
  }

  lemma {:induction false} JoinLast(front: seq<string>, last: string)
    ensures Text.Join(front + [last, ""], '\n') == Text.Join(front + [""], '\n') + last + "\n"
  {
    if front == [] {
      assert front + [last, ""] == [last, ""] && front + [""] == [""];
      assert [last, ""][1..] == [""];
    } else {
      JoinLast(front[1..], last);
      assert (front + [last, ""])[1..] == front[1..] + [last, ""];
      assert (front + [""])[1..] == front[1..] + [""];
    }
  }

  /** Reading back lines that hold no newline gives them all, but for the
      carriage returns at their ends. */
  lemma LinesOfUnlines(lines: seq<string>)
    requires forall l | l in lines :: '\n' !in l
    ensures Lines(Unlines(lines)) == Each(lines, DropCR)
  {
    hide Text.Split, Text.Join, DropCR;
    UnlinesJoins(lines);
    Text.SplitJoin(lines + [""], '\n');
    assert (lines + [""])[..|lines|] == lines;
  }

  lemma LinesFree(body: string)
    ensures forall l | l in Lines(body) :: '\n' !in l
  {
    hide Text.Split, DropCR;
    Text.SplitFree(body, '\n');
    var parts := Text.Split(body, '\n');
    var kept := if parts[|parts| - 1] == "" then parts[..|parts| - 1] else parts;
    forall i | 0 <= i < |kept| ensures '\n' !in Each(kept, DropCR)[i] {
      assert kept[i] in parts;
      DropCRKeeps(kept[i], '\n');
    }
  }

  lemma DropCRKeeps(line: string, c: char)
    requires c !in line
    ensures c !in DropCR(line)
  {
  }

  // ------------------------------------------------------------ white space

  /** `len(bytes.TrimSpace(s)) == 0` */
  predicate Blank(s: string) {
    Text.TrimSpace(s) == ""
  }

  lemma {:induction false} TrimTail(s: string, c: char)
    requires Text.IsSpace(c)
    ensures Text.TrimSpace(s + [c]) == Text.TrimSpace(s)
    decreases |s|
  {
    var t := s + [c];
    assert t[..|s|] == s;
    if s == "" {
      assert t[1..] == "";
    } else {
      HeadSpaceSame(s, c);
      var n := Text.HeadSpace(s);
      if n > 0 {
        TrimTail(s[n..], c);
        assert t[n..] == s[n..] + [c];
      }
    }
  }

  lemma HeadSpaceSame(s: string, c: char)
    requires s != "" && Text.IsSpace(c)
    ensures Text.HeadSpace(s + [c]) == Text.HeadSpace(s)
  {
    var t := s + [c];
    if |s| >= 2 { assert t[..2] == s[..2]; } else { assert t[..2][1] == c; }
    if |s| >= 3 { assert t[..3] == s[..3]; } else if |s| == 2 { assert t[..3][2] == c; }
  }

  lemma BlankTail(s: string, c: char)
    requires Text.IsSpace(c)
    ensures Blank(s + [c]) <==> Blank(s)
  {
    TrimTail(s, c);
  }
}
