/** Server-sent events: what a writer puts on the wire, and what either parser
    makes of any bytes at all. */
module Sse {
  import opened Options
  import opened Framing
  import Text

  /** The payload of an event: none, text, or what the codec made of a value;
      None where the codec failed. */
  datatype Data = Nothing | Verbatim(text: string) | Encoded(output: Option<string>)

  /** `SSEEvent` as sent. */
  datatype Outgoing = Outgoing(event: string, id: string, retry: Text.Int64, data: Data, comment: string)

  /** `SSEEvent` as parsed. */
  datatype Event = Event(event: string, id: string, retry: Text.Int64, data: string)

  const BLANK: Event := Event("", "", 0, "")

  // ----------------------------------------------------------------- writing

  /** `strings.TrimRight(s, "\n")` */
  function TrimNewlines(s: string): string {
    if s != "" && s[|s| - 1] == '\n' then TrimNewlines(s[..|s| - 1]) else s
  }

  /** The text that goes on data lines; None where the codec failed. */
  function Payload(d: Data): Option<string> {
    match d
    case Nothing => Some("")
    case Verbatim(text) => Some(text)
    case Encoded(output) => if output.None? then None else Some(TrimNewlines(output.value))
  }

  /** All newlines at the end go, and nothing else. */
  lemma {:induction false} TrimNewlinesIs(text: string, newlines: string)
    requires (text != "" ==> text[|text| - 1] != '\n') && forall c | c in newlines :: c == '\n'
    ensures TrimNewlines(text + newlines) == text
  {
    var s := text + newlines;
    if newlines == "" {
      assert s == text;
    } else {
      var n := |newlines| - 1;
      assert newlines[n] in newlines && s[..|s| - 1] == text + newlines[..n];
      assert forall c | c in newlines[..n] :: c in newlines;
      TrimNewlinesIs(text, newlines[..n]);
    }
  }

  /** Text goes out as it is, an encoded value without the codec's newline; only a
      value the codec refused does not go out. */
  lemma PayloadExactly(text: string, newlines: string)
    requires (text != "" ==> text[|text| - 1] != '\n') && forall c | c in newlines :: c == '\n'
    ensures Payload(Nothing) == Some("") && forall s :: Payload(Verbatim(s)) == Some(s)
    ensures Payload(Encoded(None)) == None && Payload(Encoded(Some(text + newlines))) == Some(text)
  {
    TrimNewlinesIs(text, newlines);
  }

  /** `splitNewlines`, each line after `prefix`. */
  function Prefixed(prefix: string, value: string): seq<string> {
    Each(Text.Split(value, '\n'), line => prefix + line)
  }

  function Optional(prefix: string, value: string): seq<string> {
    if value == "" then [] else Prefixed(prefix, value)
  }

  /** The lines of one event, the blank one that ends it included. */
  function FrameLines(ev: Outgoing, payload: string): seq<string> {
    Optional(": ", ev.comment) + Optional("id: ", ev.id) + Optional("event: ", ev.event)
    + (if ev.retry > 0 then ["retry: " + Text.Itoa(ev.retry)] else [])
    + Prefixed("data: ", payload) + [""]
  }

  // ----------------------------------------------------------------- parsing

  /** What a parser holds between lines. */
  datatype State = State(ev: Event, data: string, have: bool)

  const IDLE: State := State(BLANK, "", false)

  function Value(line: string): string {
    Text.TrimPrefix(Text.After(line, ':'), " ")
  }

  function WithField(s: State, name: string, value: string): State {
    var ev := s.ev;
    if name == "event" then s.(ev := ev.(event := value))
    else if name == "data" then s.(data := if s.data != "" then s.data + "\n" + value else value)
    else if name == "id" then s.(ev := ev.(id := value))
    else if name == "retry" && Text.Atoi(value).Some? then s.(ev := ev.(retry := Text.Atoi(value).value))
    else s
  }

  function IsComment(line: string): bool {
    Text.HasPrefix(line, ":")
  }

  /** The event a blank line, or the end of the stream, dispatches. */
  function Dispatched(s: State): seq<Event> {
    if !s.have then [] else var ev := s.ev; [ev.(data := Text.TrimSuffix(s.data, "\n"))]
  }

  function Next(s: State, line: string): State {
    if line == "" then IDLE
    else if IsComment(line) then s
    else WithField(s, Text.Before(line, ':'), Value(line)).(have := true)
  }

  function After(s: State, lines: seq<string>): State {
    if lines == [] then s else Next(After(s, lines[..|lines| - 1]), lines[|lines| - 1])
  }

  function Emitted(s: State, lines: seq<string>): seq<Event> {
    if lines == [] then []
    else
      var front, last := lines[..|lines| - 1], lines[|lines| - 1];
      Emitted(s, front) + if last == "" then Dispatched(After(s, front)) else []
  }

  /** All events of a body. */
  function Parse(body: string): seq<Event> {
    var lines := Lines(body);
    Emitted(IDLE, lines) + Dispatched(After(IDLE, lines))
  }

  lemma {:induction false} AfterConcat(s: State, a: seq<string>, b: seq<string>)
    ensures After(s, a + b) == After(After(s, a), b)
    ensures Emitted(s, a + b) == Emitted(s, a) + Emitted(After(s, a), b)
  {
    if b == [] {
      assert a + b == a;
    } else {
      var n := |b| - 1;
      AfterConcat(s, a, b[..n]);
      assert (a + b)[..|a + b| - 1] == a + b[..n];
      hide Next, Dispatched;
      var last := if b[n] == "" then Dispatched(After(s, a + b[..n])) else [];
      assert Emitted(s, a) + Emitted(After(s, a), b[..n]) + last == Emitted(s, a) + (Emitted(After(s, a),
          b[..n]) + last);
    }
  }

  // ------------------------------------------------- the grammar, line by line

  /** The values of the lines naming a field, in order. */
  function Values(group: seq<string>, name: string): seq<string> {
    if group == [] then []
    else
      var front, last := Values(group[..|group| - 1], name), group[|group| - 1];
      if IsComment(last) || Text.Before(last, ':') != name then front else front + [Value(last)]
  }

  function LastOf(values: seq<string>): string {
    if values == [] then "" else values[|values| - 1]
  }

  function LastNumber(values: seq<string>): Text.Int64 {
    if values == [] then 0
    else
      var n := Text.Atoi(values[|values| - 1]);
      if n.Some? then n.value else LastNumber(values[..|values| - 1])
  }

  /** The values from the first that is not empty, with newlines between. */
  function Joined(values: seq<string>): string {
    if values == [] then ""
    else
      var front, last := Joined(values[..|values| - 1]), values[|values| - 1];
      if front == "" then last else front + "\n" + last
  }

  /** The event a group of lines without a blank one stands for; none where all
      of it is comment. */
  function EventOf(group: seq<string>): seq<Event> {
    if forall line | line in group :: IsComment(line) then []
    else [Event(LastOf(Values(group, "event")), LastOf(Values(group, "id")), LastNumber(Values(group, "retry")),
                Text.TrimSuffix(Joined(Values(group, "data")), "\n"))]
  }

  /** The groups blank lines divide a stream into. */
  function Groups(lines: seq<string>): seq<seq<string>>
    ensures |Groups(lines)| > 0
  {
    if lines == [] then [[]]
    else
      var front, last := Groups(lines[..|lines| - 1]), lines[|lines| - 1];
      if last == "" then front + [[]] else front[|front| - 1 := front[|front| - 1] + [last]]
  }

  function EventsOf(groups: seq<seq<string>>): seq<Event> {
    if groups == [] then [] else EventsOf(groups[..|groups| - 1]) + EventOf(groups[|groups| - 1])
  }

  /** What a parser holds after a group. */
  function Holding(group: seq<string>): State {
    State(Event(LastOf(Values(group, "event")), LastOf(Values(group, "id")), LastNumber(Values(group, "retry")), ""),
          Joined(Values(group, "data")), exists line :: line in group && !IsComment(line))
  }

  lemma HoldingMore(group: seq<string>, line: string)
    requires line != ""
    ensures Holding(group + [line]) == Next(Holding(group), line)
  {
    hide Text.Before, Value, Text.Atoi, Text.HasPrefix;
    assert (group + [line])[..|group|] == group;
    ValuesMore(group, line, "event");
    ValuesMore(group, line, "id");
    ValuesMore(group, line, "retry");
    ValuesMore(group, line, "data");
    assert (exists l :: l in group + [line] && !IsComment(l)) <==>
           (exists l :: l in group && !IsComment(l)) || !IsComment(line);
  }

  lemma ValuesMore(group: seq<string>, line: string, name: string)
    ensures var was, now := Values(group, name), Values(group + [line], name);
            if IsComment(line) || Text.Before(line, ':') != name then now == was
            else && now == was + [Value(line)] && LastOf(now) == Value(line)
                 && LastNumber(now) == (if Text.Atoi(Value(line)).Some? then Text.Atoi(Value(line)).value
                   else LastNumber(was))
                 && Joined(now) == (if Joined(was) == "" then Value(line) else Joined(was) + "\n" + Value(line))
  {
    hide Text.Before, Value, Text.Atoi, Text.HasPrefix;
    assert (group + [line])[..|group|] == group;
    var was := Values(group, name);
    assert (was + [Value(line)])[..|was|] == was;
  }

  lemma DispatchedIs(group: seq<string>)
    ensures Dispatched(Holding(group)) == EventOf(group)
  {
    hide Text.HasPrefix;
  }

  lemma {:induction false} ParsedSoFar(lines: seq<string>)
    ensures var groups := Groups(lines);
            && After(IDLE, lines) == Holding(groups[|groups| - 1])
            && Emitted(IDLE, lines) == EventsOf(groups[..|groups| - 1])
  {
    hide Next, Dispatched, EventOf, Holding;
    if lines == [] {
      HoldingNothing();
    } else {
      var front, last := lines[..|lines| - 1], lines[|lines| - 1];
      ParsedSoFar(front);
      var groups := Groups(front);
      var n := |groups| - 1;
      if last == "" {
        NextBlank(After(IDLE, front));
        HoldingNothing();
        DispatchedIs(groups[n]);
        assert (groups + [[]])[..n + 1] == groups;
      } else {
        HoldingMore(groups[n], last);
        assert groups[n := groups[n] + [last]][..n] == groups[..n];
      }
    }
  }

  lemma NextBlank(s: State)
    ensures Next(s, "") == IDLE
  {
  }

  lemma HoldingNothing()
    ensures Holding([]) == IDLE
  {
  }

  /** The parser is the grammar: one event for each group of lines that is not
      all comment, an unfinished last group included. */
  lemma ParseIsGrammar(body: string)
    ensures Parse(body) == EventsOf(Groups(Lines(body)))
  {
    hide Lines, EventOf;
    var lines := Lines(body);
    ParsedSoFar(lines);
    var groups := Groups(lines);
    DispatchedIs(groups[|groups| - 1]);
  }

  // ------------------------------------------------------------- the parsers

  lemma NextIs(s: State, line: string)
    ensures Next(s, line) == if line == "" then IDLE else if Text.HasPrefix(line, ":") then s
                             else WithField(s, Text.Before(line, ':'), Value(line)).(have := true)
    ensures Dispatched(s) == if s.have then [Event(s.ev.event, s.ev.id, s.ev.retry, Text.TrimSuffix(s.data,
            "\n"))] else []
  {
    hide WithField, Value;
  }

  lemma StoppedEarly(lines: seq<string>, i: nat, limit: nat)
    requires i <= |lines| && |Emitted(IDLE, lines[..i])| == limit
    ensures Taken(Emitted(IDLE, lines) + Dispatched(After(IDLE, lines)), limit) == Emitted(IDLE, lines[..i])
  {
    hide Next, Dispatched;
    AfterConcat(IDLE, lines[..i], lines[i..]);
    assert lines == lines[..i] + lines[i..];
  }

  /** The parser of the server, `sseIterator`; the consumer stops after `limit`
      events. */
  method SseIterator(body: string, limit: nat) returns (events: seq<Event>)
    requires limit > 0
    ensures events == Taken(Parse(body), limit)
  {
    hide Next, Dispatched, Lines;
    var lines := Lines(body);
    var ev, data, haveEv := BLANK, "", false;
    events := [];
    for i := 0 to |lines|
      invariant State(ev, data, haveEv) == After(IDLE, lines[..i])
      invariant events == Emitted(IDLE, lines[..i]) && |events| < limit
    {
      assert lines[..i + 1][..i] == lines[..i];
      var line := lines[i];
      NextIs(State(ev, data, haveEv), line);
      if line == "" {
        if haveEv {
          events := events + [ev.(data := Text.TrimSuffix(data, "\n"))];
          if |events| == limit {
            StoppedEarly(lines, i + 1, limit);
            return;
          }
        }
        ev, data, haveEv := BLANK, "", false;
        continue;
      }
      if Text.HasPrefix(line, ":") {
        continue;
      }
      haveEv := true;
      var field, value := Text.Before(line, ':'), Text.TrimPrefix(Text.After(line, ':'), " ");
      match field {
        case "event" => ev := ev.(event := value);
        case "data" =>
          if |data| > 0 {
            data := data + "\n";
          }
          data := data + value;
        case "id" => ev := ev.(id := value);
        case "retry" =>
          var n := Text.Atoi(value);
          if n.Some? {
            ev := ev.(retry := n.value);
          }
        case _ =>
      }
    }
    assert lines[..|lines|] == lines;
    NextIs(State(ev, data, haveEv), "");
    if haveEv {
      events := events + [ev.(data := Text.TrimSuffix(data, "\n"))];
    }
  }

  /** The parser of the generated client, `sseSeq`. */
  method SseSeq(body: string, limit: nat) returns (events: seq<Event>)
    requires limit > 0
    ensures events == Taken(Parse(body), limit)
  {
    hide Next, Dispatched, Lines;
    var lines := Lines(body);
    var ev, data, haveEv := BLANK, "", false;
    events := [];
    for i := 0 to |lines|
      invariant State(ev, data, haveEv) == After(IDLE, lines[..i])
      invariant events == Emitted(IDLE, lines[..i]) && |events| < limit
    {
      assert lines[..i + 1][..i] == lines[..i];
      var line := lines[i];
      NextIs(State(ev, data, haveEv), line);
      if line == "" {
        if haveEv {
          events := events + [ev.(data := Text.TrimSuffix(data, "\n"))];
          if |events| == limit {
            StoppedEarly(lines, i + 1, limit);
            return;
          }
        }
        ev, data, haveEv := BLANK, "", false;
        continue;
      }
      if Text.HasPrefix(line, ":") {
        continue;
      }
      haveEv := true;
      var field, value := Text.Before(line, ':'), Text.TrimPrefix(Text.After(line, ':'), " ");
      match field {
        case "event" => ev := ev.(event := value);
        case "data" =>
          if |data| > 0 {
            data := data + "\n";
          }
          data := data + value;
        case "id" => ev := ev.(id := value);
        case "retry" =>
          var n := Text.Atoi(value);
          if n.Some? {
            ev := ev.(retry := n.value);
          }
        case _ =>
      }
    }
    assert lines[..|lines|] == lines;
    NextIs(State(ev, data, haveEv), "");
    if haveEv {
      events := events + [ev.(data := Text.TrimSuffix(data, "\n"))];
    }
  }
}
