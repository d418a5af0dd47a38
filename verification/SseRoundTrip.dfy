/** What comes out of a parser for what went into a writer. */
module SseRoundTrip {
  import opened Options
  import opened Framing
  import opened Sse
  import Text

  // ------------------------------------------------ one stream, many frames

  /** An event the codec can encode. */
  type Sendable = ev: Outgoing | Payload(ev.data).Some? witness Outgoing("", "", 0, Nothing, "")

  function PayloadOf(ev: Sendable): string {
    Payload(ev.data).value
  }

  function Frame(ev: Sendable): string {
    Unlines(FrameLines(ev, PayloadOf(ev)))
  }

  function Stream(evs: seq<Sendable>): string {
    if evs == [] then "" else Stream(evs[..|evs| - 1]) + Frame(evs[|evs| - 1])
  }

  /** What is left of a field that went out line by line: the last line. */
  function Folded(value: string): string {
    DropCR(LastOf(Text.Split(value, '\n')))
  }

  function FoldedText(text: string): string {
    Text.TrimSuffix(Joined(Each(Text.Split(text, '\n'), DropCR)), "\n")
  }

  /** The event a parser makes of one frame. */
  function Received(ev: Sendable): Event {
    Event(Folded(ev.event), Folded(ev.id), if ev.retry > 0 then ev.retry else 0, FoldedText(Payload(ev.data).value))
  }

  // ----------------------------------------------------- lines of one frame

  /** The lines of a frame as a parser sees them, without the blank one. */
  function Group(ev: Outgoing, payload: string): seq<string> {
    Each(Optional(": ", ev.comment), DropCR) + Each(Optional("id: ", ev.id), DropCR) + Each(Optional("event: ",
        ev.event), DropCR)
    + (if ev.retry > 0 then ["retry: " + Text.Itoa(ev.retry)] else [])
    + Each(Prefixed("data: ", payload), DropCR)
  }

  lemma DropCRAfter(prefix: string, line: string)
    requires prefix != "" && prefix[|prefix| - 1] != '\r'
    ensures DropCR(prefix + line) == prefix + DropCR(line)
  {
    if line != "" && line[|line| - 1] == '\r' {
      assert (prefix + line)[..|prefix + line| - 1] == prefix + line[..|line| - 1];
    }
  }

  lemma PrefixedDropCR(prefix: string, value: string)
    requires prefix != "" && prefix[|prefix| - 1] != '\r'
    ensures Each(Prefixed(prefix, value), DropCR) == Each(Each(Text.Split(value, '\n'), DropCR), line => prefix + line)
  {
    hide DropCR, Text.Split;
    var parts := Text.Split(value, '\n');
    forall i | 0 <= i < |parts| ensures DropCR(prefix + parts[i]) == prefix + DropCR(parts[i]) {
      DropCRAfter(prefix, parts[i]);
    }
  }

  lemma ItoaLine(n: nat)
    ensures var line := "retry: " + Text.Itoa(n); DropCR(line) == line && '\n' !in line
  {
    var digits := Text.Itoa(n);
    assert digits[|digits| - 1] in digits && !Text.IsDigit('\r') && !Text.IsDigit('\n');
  }

  lemma GroupIsFrame(ev: Outgoing, payload: string)
    ensures Each(FrameLines(ev, payload), DropCR) == Group(ev, payload) + [""]
  {
    hide Optional, Prefixed, Text.Itoa, DropCR;
    var retry := if ev.retry > 0 then ["retry: " + Text.Itoa(ev.retry)] else [];
    if ev.retry > 0 { ItoaLine(ev.retry); }
    assert Each(retry, DropCR) == retry;
    assert Each([""], DropCR) == [""] by { EmptyLine(); }
    var a, b, c, d := Optional(": ", ev.comment), Optional("id: ", ev.id), Optional("event: ", ev.event),
        Prefixed("data: ", payload);
    EachConcat(a, b, DropCR);
    EachConcat(a + b, c, DropCR);
    EachConcat(a + b + c, retry, DropCR);
    EachConcat(a + b + c + retry, d, DropCR);
    EachConcat(a + b + c + retry + d, [""], DropCR);
  }

  lemma EmptyLine()
    ensures DropCR("") == ""
  {
  }

  /** The lines of a field, as values of that field and of no other. */
  lemma {:induction false} FieldValues(name: string, xs: seq<string>, other: string)
    requires name != "" && ':' !in name
    ensures Values(Each(xs, x => name + ": " + x), other) == if other == name then xs else []
    ensures forall line | line in Each(xs, x => name + ": " + x) :: !IsComment(line) && line != ""
  {
    hide Text.Before, Value, Text.HasPrefix;
    var f := x => name + ": " + x;
    var lines := Each(xs, f);
    FieldLines(name, xs);
    if xs != [] {
      var n := |xs| - 1;
      FieldValues(name, xs[..n], other);
      assert lines[..n] == Each(xs[..n], f) && lines[n] == name + ": " + xs[n];
      FieldLine(name, xs[n]);
      assert xs == xs[..n] + [xs[n]];
    }
  }

  lemma FieldLines(name: string, xs: seq<string>)
    requires name != "" && ':' !in name
    ensures forall line | line in Each(xs, x => name + ": " + x) :: !IsComment(line) && line != ""
  {
    hide Text.Before, Value, Text.HasPrefix;
    var lines := Each(xs, x => name + ": " + x);
    forall i | 0 <= i < |xs| ensures !IsComment(lines[i]) && lines[i] != "" {
      FieldLine(name, xs[i]);
    }
  }

  lemma FieldLine(name: string, x: string)
    requires name != "" && ':' !in name
    ensures var line := name + ": " + x;
            line != "" && !IsComment(line) && Text.Before(line, ':') == name && Value(line) == x
  {
    var line := name + ": " + x;
    Text.IndexOfAt(name, ':', " " + x);
    assert line == name + [':'] + (" " + x);
    assert line[|name| + 1..] == " " + x && line[..|name|] == name;
    assert line[0] == name[0];
    assert (" " + x)[..1] == " " && (" " + x)[1..] == x;
  }

  lemma {:induction false} CommentValues(xs: seq<string>, other: string)
    ensures Values(Each(xs, x => ": " + x), other) == []
    ensures forall line | line in Each(xs, x => ": " + x) :: IsComment(line) && line != ""
  {
    var f := x => ": " + x;
    var lines := Each(xs, f);
    forall i | 0 <= i < |xs| ensures IsComment(lines[i]) {
      assert lines[i][..1] == ":";
    }
    if xs != [] {
      var n := |xs| - 1;
      CommentValues(xs[..n], other);
      assert lines[..n] == Each(xs[..n], f);
    }
  }

  lemma {:induction false} ValuesConcat(a: seq<string>, b: seq<string>, name: string)
    ensures Values(a + b, name) == Values(a, name) + Values(b, name)
  {
    if b == [] {
      assert a + b == a;
    } else {
      var n := |b| - 1;
      ValuesConcat(a, b[..n], name);
      assert (a + b)[..|a + b| - 1] == a + b[..n];
    }
  }

  /** An optional field contributes its lines to its own name. */
  lemma OptionalValues(name: string, value: string, other: string)
    requires name != "" && ':' !in name
    ensures var lines := Each(Optional(name + ": ", value), DropCR);
            && Values(lines, other) == (if other == name && value != "" then
              Each(Text.Split(value, '\n'), DropCR) else [])
            && forall line | line in lines :: line != ""
  {
    var prefix := name + ": ";
    if value != "" {
      PrefixedDropCR(prefix, value);
      FieldValues(name, Each(Text.Split(value, '\n'), DropCR), other);
      assert Each(Each(Text.Split(value, '\n'), DropCR), line => prefix + line)
          == Each(Each(Text.Split(value, '\n'), DropCR), x => name + ": " + x);
    }
  }

  lemma DataValues(payload: string, other: string)
    ensures var lines := Each(Prefixed("data: ", payload), DropCR);
            && Values(lines, other) == (if other == "data" then Each(Text.Split(payload, '\n'), DropCR) else [])
            && lines != [] && forall line | line in lines :: line != "" && !IsComment(line)
  {
    PrefixedDropCR("data: ", payload);
    FieldValues("data", Each(Text.Split(payload, '\n'), DropCR), other);
    assert "data" + ": " == "data: ";
    assert Each(Each(Text.Split(payload, '\n'), DropCR), line => "data: " + line)
        == Each(Each(Text.Split(payload, '\n'), DropCR), x => "data" + ": " + x);
  }

  lemma CommentLines(comment: string, other: string)
    ensures var lines := Each(Optional(": ", comment), DropCR);
            Values(lines, other) == [] && forall line | line in lines :: line != ""
  {
    if comment != "" {
      PrefixedDropCR(": ", comment);
      CommentValues(Each(Text.Split(comment, '\n'), DropCR), other);
    } else {
      assert Each(Optional(": ", comment), DropCR) == [];
    }
  }

  lemma RetryValues(n: Text.Int64, other: string)
    requires n > 0
    ensures var lines := ["retry: " + Text.Itoa(n)];
            Values(lines, other) == if other == "retry" then [Text.Itoa(n)] else []
  {
    assert "retry" + ": " + Text.Itoa(n) == "retry: " + Text.Itoa(n);
    FieldLine("retry", Text.Itoa(n));
    assert ["retry: " + Text.Itoa(n)][..0] == [];
  }

  // --------------------------------------------------------- one frame parsed

  lemma GroupPlain(ev: Outgoing, payload: string)
    ensures "" !in Group(ev, payload) && exists line :: line in Group(ev, payload) && !IsComment(line)
  {
    hide Optional, Prefixed, Text.Itoa, DropCR, Values, Text.Split;
    CommentLines(ev.comment, "");
    OptionalValues("id", ev.id, "");
    OptionalValues("event", ev.event, "");
    assert "id" + ": " == "id: " && "event" + ": " == "event: ";
    DataValues(payload, "");
    var data := Each(Prefixed("data: ", payload), DropCR);
    assert data[0] in data && data[0] in Group(ev, payload);
  }

  function FieldLinesOf(ev: Outgoing, payload: string, name: string): seq<string> {
    if name == "id" then OptionalLines(ev.id)
    else if name == "event" then OptionalLines(ev.event)
    else if name == "retry" then if ev.retry > 0 then [Text.Itoa(ev.retry)] else []
    else if name == "data" then Each(Text.Split(payload, '\n'), DropCR)
    else []
  }

  function OptionalLines(value: string): seq<string> {
    if value == "" then [] else Each(Text.Split(value, '\n'), DropCR)
  }

  lemma GroupValues(ev: Outgoing, payload: string, name: string)
    ensures Values(Group(ev, payload), name) == FieldLinesOf(ev, payload, name)
  {
    hide Optional, Prefixed, Text.Itoa, DropCR, Values, Text.Split, Each;
    var retry := if ev.retry > 0 then ["retry: " + Text.Itoa(ev.retry)] else [];
    var a, b := Each(Optional(": ", ev.comment), DropCR), Each(Optional("id: ", ev.id), DropCR);
    var c, d := Each(Optional("event: ", ev.event), DropCR), Each(Prefixed("data: ", payload), DropCR);
    FiveValues(a, b, c, retry, d, name);
    CommentLines(ev.comment, name);
    OptionalValues("id", ev.id, name);
    OptionalValues("event", ev.event, name);
    assert "id" + ": " == "id: " && "event" + ": " == "event: ";
    if ev.retry > 0 { RetryValues(ev.retry, name); } else { NoValues(name); }
    DataValues(payload, name);
  }

  lemma FiveValues(a: seq<string>, b: seq<string>, c: seq<string>, d: seq<string>, e: seq<string>, name: string)
    ensures Values(a + b + c + d + e, name) ==
            Values(a, name) + Values(b, name) + Values(c, name) + Values(d, name) + Values(e, name)
  {
    hide Values;
    ValuesConcat(a, b, name);
    ValuesConcat(a + b, c, name);
    ValuesConcat(a + b + c, d, name);
    ValuesConcat(a + b + c + d, e, name);
  }

  lemma NoValues(name: string)
    ensures Values([], name) == []
  {
  }

  lemma LastDropped(value: string)
    ensures LastOf(OptionalLines(value)) == Folded(value)
  {
  }

  lemma OneNumber(n: Text.Int64)
    requires n > 0
    ensures LastNumber([Text.Itoa(n)]) == n
  {
    Text.AtoiOfItoa(n);
  }

  lemma FrameEvent(ev: Sendable)
    ensures EventOf(Group(ev, PayloadOf(ev))) == [Received(ev)]
  {
    hide Group, DropCR, Values, Text.Split, Text.Itoa, IsComment, Joined, Folded, LastNumber, OptionalLines;
    var payload := PayloadOf(ev);
    GroupPlain(ev, payload);
    GroupValues(ev, payload, "event");
    GroupValues(ev, payload, "id");
    GroupValues(ev, payload, "retry");
    GroupValues(ev, payload, "data");
    LastDropped(ev.event);
    LastDropped(ev.id);
    if ev.retry > 0 { OneNumber(ev.retry); } else { NoNumber(); }
  }

  lemma NoNumber()
    ensures LastNumber([]) == 0
  {
  }

  // -------------------------------------------------------- the whole stream

  function StreamLines(evs: seq<Sendable>): seq<string> {
    if evs == [] then []
    else StreamLines(evs[..|evs| - 1]) + FrameLines(evs[|evs| - 1], PayloadOf(evs[|evs| - 1]))
  }

  lemma {:induction false} StreamIsLines(evs: seq<Sendable>)
    ensures Stream(evs) == Unlines(StreamLines(evs))
    ensures forall line | line in StreamLines(evs) :: '\n' !in line
  {
    hide FrameLines;
    if evs != [] {
      var front, ev := evs[..|evs| - 1], evs[|evs| - 1];
      StreamIsLines(front);
      FrameFree(ev, PayloadOf(ev));
      UnlinesConcat(StreamLines(front), FrameLines(ev, PayloadOf(ev)));
    }
  }

  lemma FrameFree(ev: Outgoing, payload: string)
    ensures forall line | line in FrameLines(ev, payload) :: '\n' !in line
  {
    hide Text.Itoa, Text.Split, Prefixed;
    PrefixedFree(": ", ev.comment);
    PrefixedFree("id: ", ev.id);
    PrefixedFree("event: ", ev.event);
    if ev.retry > 0 { ItoaLine(ev.retry); }
    PrefixedFree("data: ", payload);
  }

  lemma PrefixedFree(prefix: string, value: string)
    requires '\n' !in prefix
    ensures forall line | line in Prefixed(prefix, value) :: '\n' !in line
  {
    hide Text.Split;
    Text.SplitFree(value, '\n');
    var parts := Text.Split(value, '\n');
    forall i | 0 <= i < |parts| ensures '\n' !in prefix + parts[i] {
      assert parts[i] in parts;
    }
  }

  lemma {:induction false} GroupsConcat(a: seq<string>, b: seq<string>)
    requires "" !in b && Groups(a)[|Groups(a)| - 1] == []
    ensures Groups(a + b) == Groups(a)[|Groups(a)| - 1 := b]
  {
    if b == [] {
      assert a + b == a;
    } else {
      var n := |b| - 1;
      assert b == b[..n] + [b[n]];
      GroupsConcat(a, b[..n]);
      assert (a + b)[..|a + b| - 1] == a + b[..n] && (a + b)[|a + b| - 1] == b[n];
    }
  }

  lemma BlankEnds(lines: seq<string>)
    ensures Groups(lines + [""]) == Groups(lines) + [[]]
  {
    assert (lines + [""])[..|lines|] == lines;
  }

  lemma NextGroups(was: seq<string>, group: seq<string>)
    requires "" !in group && Groups(was)[|Groups(was)| - 1] == []
    ensures Groups(was + (group + [""])) == Groups(was)[|Groups(was)| - 1 := group] + [[]]
  {
    hide Groups;
    GroupsConcat(was, group);
    BlankEnds(was + group);
    assert was + (group + [""]) == was + group + [""];
  }

  lemma FrameSeen(front: seq<Sendable>, ev: Sendable)
    ensures Each(StreamLines(front + [ev]), DropCR) == Each(StreamLines(front), DropCR) + (Group(ev,
            PayloadOf(ev)) + [""])
  {
    hide FrameLines, DropCR, Group;
    assert (front + [ev])[..|front|] == front;
    EachConcat(StreamLines(front), FrameLines(ev, PayloadOf(ev)), DropCR);
    GroupIsFrame(ev, PayloadOf(ev));
  }

  lemma {:induction false} StreamGroups(evs: seq<Sendable>)
    ensures var groups := Groups(Each(StreamLines(evs), DropCR));
            groups[|groups| - 1] == [] && EventsOf(groups[..|groups| - 1]) == Each(evs, Received)
  {
    hide FrameLines, EventOf, Received, DropCR, Group, Groups, StreamLines, EventsOf;
    if evs == [] {
      NoGroups();
    } else {
      var front, ev := evs[..|evs| - 1], evs[|evs| - 1];
      StreamGroups(front);
      assert evs == front + [ev];
      FrameSeen(front, ev);
      GroupPlain(ev, PayloadOf(ev));
      NextGroups(Each(StreamLines(front), DropCR), Group(ev, PayloadOf(ev)));
      FrameEvent(ev);
      OneGroupMore(Groups(Each(StreamLines(front), DropCR)), Group(ev, PayloadOf(ev)), [Received(ev)]);
      EachLast(evs, Received);
    }
  }

  lemma NoGroups()
    ensures var groups := Groups(Each(StreamLines([]), DropCR));
            groups[|groups| - 1] == [] && EventsOf(groups[..|groups| - 1]) == []
  {
    assert Each(StreamLines([]), DropCR) == [];
  }

  lemma OneGroupMore(groups: seq<seq<string>>, group: seq<string>, events: seq<Event>)
    requires groups != [] && EventOf(group) == events
    ensures var next := groups[|groups| - 1 := group] + [[]];
            next[|next| - 1] == [] && EventsOf(next[..|next| - 1]) == EventsOf(groups[..|groups| - 1]) + events
  {
    hide EventOf;
    var next := groups[|groups| - 1 := group];
    assert (next + [[]])[..|groups|] == next && next[..|next| - 1] == groups[..|groups| - 1];
  }

  /** One event for each Send, in order, whatever the strings hold: each comes
      back as `Received` says. */
  lemma OneEventPerSend(evs: seq<Sendable>)
    ensures Parse(Stream(evs)) == Each(evs, Received)
  {
    hide Lines, EventOf, Received, DropCR;
    StreamIsLines(evs);
    LinesOfUnlines(StreamLines(evs));
    ParseIsGrammar(Stream(evs));
    StreamGroups(evs);
    var groups := Groups(Lines(Stream(evs)));
    assert groups == groups[..|groups| - 1] + [[]];
    AllComment();
  }

  lemma AllComment()
    ensures EventOf([]) == []
  {
  }

  // ------------------------------------------------ what comes back unchanged

  /** Event and ID come back unchanged exactly when they hold no newline and do
      not end in a carriage return. */
  lemma FieldKeptExactly(value: string)
    ensures Folded(value) == value <==> '\n' !in value && !EndsInCR(value)
  {
    var parts := Text.Split(value, '\n');
    Text.SplitFree(value, '\n');
    assert parts[|parts| - 1] in parts;
    DropCRKeeps(parts[|parts| - 1], '\n');
    if '\n' !in value {
      Text.SplitNothing(value, '\n');
    }
  }

  /** Every carriage return is inside a line. */
  predicate NoCRAtLineEnd(s: string) {
    forall i | 0 <= i < |s| && s[i] == '\r' :: i + 1 < |s| && s[i + 1] != '\n'
  }

  lemma {:induction false} CRsInside(s: string)
    ensures NoCRAtLineEnd(s) <==> forall line | line in Text.Split(s, '\n') :: !EndsInCR(line)
  {
    if s != "" {
      var rest, parts := Text.Split(s[1..], '\n'), Text.Split(s, '\n');
      CRsInside(s[1..]);
      CRHead(s);
      FirstLine(s[1..]);
      if s[0] == '\n' {
        assert parts[0] == "" && parts[1..] == rest;
        assert (forall line | line in parts :: !EndsInCR(line)) <==> (forall line | line in rest ::
            !EndsInCR(line)) by {
          assert parts == [""] + rest;
        }
      } else {
        var first := [s[0]] + rest[0];
        assert parts == [first] + rest[1..] && rest == [rest[0]] + rest[1..];
        assert EndsInCR(first) <==> EndsInCR(rest[0]) || (rest[0] == "" && s[0] == '\r');
      }
    }
  }

  lemma CRHead(s: string)
    requires s != ""
    ensures NoCRAtLineEnd(s) <==> NoCRAtLineEnd(s[1..]) && (s[0] == '\r' ==> s[1..] != "" && s[1] != '\n')
  {
    var t := s[1..];
    if NoCRAtLineEnd(s) {
      forall i | 0 <= i < |t| && t[i] == '\r' ensures i + 1 < |t| && t[i + 1] != '\n' {
        assert s[i + 1] == '\r';
      }
    }
    if NoCRAtLineEnd(t) && (s[0] == '\r' ==> t != "" && s[1] != '\n') {
      forall i | 0 <= i < |s| && s[i] == '\r' ensures i + 1 < |s| && s[i + 1] != '\n' {
        if i > 0 { assert t[i - 1] == '\r'; }
      }
    }
  }

  lemma FirstLine(s: string)
    ensures Text.Split(s, '\n')[0] == "" <==> s == "" || s[0] == '\n'
  {
  }

  function Length(lines: seq<string>): nat {
    if lines == [] then 0 else Length(lines[..|lines| - 1]) + |lines[|lines| - 1]| + 1
  }

  lemma {:induction false} JoinLength(lines: seq<string>)
    ensures Length(lines) == if lines == [] then 0 else |Text.Join(lines, '\n')| + 1
  {
    if |lines| > 1 {
      var n := |lines| - 1;
      JoinLength(lines[..n]);
      Text.JoinConcat(lines[..n], [lines[n]], '\n');
      assert lines == lines[..n] + [lines[n]];
    } else if |lines| == 1 {
      assert lines[..0] == [];
    }
  }

  /** Joining drops the empty lines at the front, and only those. */
  lemma {:induction false} JoinedLength(lines: seq<string>)
    ensures lines != [] && lines[0] != "" ==> Joined(lines) == Text.Join(lines, '\n') != ""
    ensures |Joined(lines)| <= Length(lines)
    ensures lines != [] ==> |Joined(lines)| < Length(lines)
    ensures |lines| > 1 && lines[0] == "" ==> |Joined(lines)| + 1 < Length(lines)
  {
    if |lines| == 1 {
      assert lines[..0] == [];
    } else if lines != [] {
      var n := |lines| - 1;
      JoinedLength(lines[..n]);
      Text.JoinConcat(lines[..n], [lines[n]], '\n');
      assert lines == lines[..n] + [lines[n]];
      assert Text.Join([lines[n]], '\n') == lines[n];
    }
  }

  lemma {:induction false} DropLength(lines: seq<string>)
    ensures Length(Each(lines, DropCR)) <= Length(lines)
    ensures (exists line :: line in lines && EndsInCR(line)) ==> Length(Each(lines, DropCR)) < Length(lines)
  {
    if lines != [] {
      var n := |lines| - 1;
      DropLength(lines[..n]);
      EachLast(lines, DropCR);
      assert Each(lines, DropCR)[..n] == Each(lines[..n], DropCR);
      assert lines == lines[..n] + [lines[n]];
    }
  }

  /** Text comes back unchanged exactly when no newline stands at either end and
      no carriage return at the end of a line. */
  lemma TextKeptExactly(text: string)
    ensures FoldedText(text) == text <==>
              NoCRAtLineEnd(text) && (text == "" || (text[0] != '\n' && text[|text| - 1] != '\n'))
  {
    hide Text.Split, Text.Join, Joined, DropCR, NoCRAtLineEnd;
    var lines := Text.Split(text, '\n');
    var dropped := Each(lines, DropCR);
    Text.JoinSplit(text, '\n');
    CRsInside(text);
    FirstLine(text);
    JoinLength(lines);
    DropLength(lines);
    JoinedLength(dropped);
    if NoCRAtLineEnd(text) {
      NothingDropped(lines);
      if text == "" { JustEmpty(); }
    }
    if text != "" && text[0] == '\n' {
      LeadingNewline(text);
    }
    if text != "" && text[|text| - 1] == '\n' && FoldedText(text) == text {
      TrimmedOnce(Joined(dropped), text);
    }
  }

  lemma NothingDropped(lines: seq<string>)
    requires forall line | line in lines :: !EndsInCR(line)
    ensures Each(lines, DropCR) == lines
  {
    forall i | 0 <= i < |lines| ensures DropCR(lines[i]) == lines[i] {
      assert lines[i] in lines;
    }
  }

  lemma JustEmpty()
    ensures Text.Split("", '\n') == [""] && Joined([""]) == ""
  {
    assert [""][..0] == [];
  }

  lemma LeadingNewline(text: string)
    requires text != "" && text[0] == '\n'
    ensures var dropped := Each(Text.Split(text, '\n'), DropCR); |dropped| > 1 && dropped[0] == ""
  {
    assert Text.Split(text, '\n') == [""] + Text.Split(text[1..], '\n');
  }

  /** What still ends in a newline was longer before. */
  lemma TrimmedOnce(joined: string, text: string)
    requires Text.TrimSuffix(joined, "\n") == text && text != "" && text[|text| - 1] == '\n'
    ensures |joined| == |text| + 1
  {
    assert joined != "" && joined[|joined| - 1] == '\n' ==> joined[|joined| - 1..] == "\n";
  }

  /** An event comes back whole exactly when each of its fields does. */
  lemma ReceivedExactly(ev: Sendable)
    ensures Received(ev) == Event(ev.event, ev.id, ev.retry, PayloadOf(ev)) <==>
              && '\n' !in ev.event && !EndsInCR(ev.event) && '\n' !in ev.id && !EndsInCR(ev.id) && ev.retry >= 0
              && NoCRAtLineEnd(PayloadOf(ev))
              && (PayloadOf(ev) == "" || (PayloadOf(ev)[0] != '\n' && PayloadOf(ev)[|PayloadOf(ev)| - 1] != '\n'))
  {
    hide Folded, FoldedText;
    FieldKeptExactly(ev.event);
    FieldKeptExactly(ev.id);
    TextKeptExactly(PayloadOf(ev));
  }

  /** A comment alone is not silent: it reaches the consumer as an empty event. */
  lemma CommentsAreEvents(comment: string)
    ensures Parse(Stream([Outgoing("", "", 0, Nothing, comment)])) == [BLANK]
  {
    hide Received, Stream, Parse;
    var ev: Sendable := Outgoing("", "", 0, Nothing, comment);
    OneEventPerSend([ev]);
    ReceivedExactly(ev);
  }

  // ------------------------------------------------------------- the writer

  datatype Outcome = Ok | StreamClosed | Canceled | NotEncodable

  /** `SSEWriter`; `canceled` is the request's context. */
  class SSEWriter {
    var started: bool
    var closed: bool
    var canceled: bool
    var body: string
    ghost var sent: seq<Sendable>

    constructor ()
      ensures Valid() && sent == [] && !closed && !canceled && !started
    {
      started, closed, canceled, body, sent := false, false, false, "", [];
    }

    ghost predicate Valid()
      reads this
    {
      body == Stream(sent) && (sent != [] ==> started)
    }

    /** `Send` writes one frame, or nothing. */
    method Send(ev: Outgoing) returns (r: Outcome)
      requires Valid()
      modifies this
      ensures Valid() && closed == old(closed) && canceled == old(canceled)
      ensures r == if old(closed) then StreamClosed else if old(canceled) then Canceled
                   else if ev.data == Encoded(None) then NotEncodable else Ok
      ensures started == (old(started) || (!closed && !canceled))
      ensures sent == if r == Ok then old(sent) + [ev] else old(sent)
      ensures body == if r == Ok then old(body) + Frame(ev) else old(body)
    {
      hide FrameLines, Stream, Fields, Prefixed, Unlines;
      if closed {
        return StreamClosed;
      }
      if canceled {
        return Canceled;
      }
      started := true;
      var buf := WriteFields(ev);
      var payload := Payload(ev.data);
      if payload.None? {
        return NotEncodable;
      }
      buf := WriteField(buf, "data: ", payload.value);
      buf := buf + "\n";
      FrameIs(ev, payload.value);
      body := body + buf;
      StreamMore(sent, ev);
      sent := sent + [ev];
      return Ok;
    }

    method Close()
      requires Valid()
      modifies this
      ensures Valid() && closed && sent == old(sent) && body == old(body)
    {
      closed := true;
    }
  }

  /** `writeSSEField` and `writeSSEComment` */
  method WriteField(buf: string, prefix: string, value: string) returns (r: string)
    ensures r == buf + Unlines(Prefixed(prefix, value))
  {
    var lines := Text.Split(value, '\n');
    var all := Prefixed(prefix, value);
    r := buf;
    for i := 0 to |lines|
      invariant r == buf + Unlines(all[..i])
    {
      assert all[..i + 1][..i] == all[..i];
      r := r + (prefix + lines[i]) + "\n";
    }
    assert all[..|all|] == all;
  }

  /** What `Send` writes ahead of the data. */
  function Fields(ev: Outgoing): string {
    Unlines(Optional(": ", ev.comment)) + Unlines(Optional("id: ", ev.id)) + Unlines(Optional("event: ", ev.event))
    + (if ev.retry > 0 then "retry: " + Text.Itoa(ev.retry) + "\n" else "")
  }

  method WriteFields(ev: Outgoing) returns (buf: string)
    ensures buf == Fields(ev)
  {
    hide Prefixed, Unlines, Text.Itoa;
    UnlinesFew("");
    ghost var a, b := Unlines(Optional(": ", ev.comment)), Unlines(Optional("id: ", ev.id));
    ghost var c := Unlines(Optional("event: ", ev.event));
    buf := "";
    if ev.comment != "" {
      buf := WriteField(buf, ": ", ev.comment);
    }
    assert buf == a;
    if ev.id != "" {
      buf := WriteField(buf, "id: ", ev.id);
    }
    assert buf == a + b;
    if ev.event != "" {
      buf := WriteField(buf, "event: ", ev.event);
    }
    assert buf == a + b + c;
    if ev.retry > 0 {
      buf := buf + ("retry: " + Text.Itoa(ev.retry) + "\n");
    }
  }

  lemma FrameIs(ev: Outgoing, payload: string)
    ensures Unlines(FrameLines(ev, payload)) == Fields(ev) + Unlines(Prefixed("data: ", payload)) + "\n"
  {
    hide Prefixed, Text.Itoa, Unlines, Optional;
    var a, b, c := Optional(": ", ev.comment), Optional("id: ", ev.id), Optional("event: ", ev.event);
    var r := if ev.retry > 0 then ["retry: " + Text.Itoa(ev.retry)] else [];
    var d := Prefixed("data: ", payload);
    UnlinesConcat(a, b);
    UnlinesConcat(a + b, c);
    UnlinesConcat(a + b + c, r);
    UnlinesConcat(a + b + c + r, d);
    UnlinesConcat(a + b + c + r + d, [""]);
    UnlinesFew("");
    if ev.retry > 0 { UnlinesFew("retry: " + Text.Itoa(ev.retry)); }
  }

  lemma StreamMore(sent: seq<Sendable>, ev: Sendable)
    ensures Stream(sent + [ev]) == Stream(sent) + Frame(ev)
  {
    assert (sent + [ev])[..|sent|] == sent;
  }

  lemma UnlinesFew(line: string)
    ensures Unlines([]) == "" && Unlines([line]) == line + "\n"
  {
    assert [line][..0] == [];
  }
}
