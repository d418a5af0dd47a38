/** Sequential JSON: JSON text sequences (RFC 7464) and JSON lines, both ways. */
module JsonStreams {
  import opened Options
  import opened Framing
  import Text

  /** The record separator of section 2.2 of RFC 7464. */
  const RS: char := '\U{1E}'

  function NonBlank(xs: seq<string>): seq<string> {
    if xs == [] then []
    else NonBlank(xs[..|xs| - 1]) + if Blank(xs[|xs| - 1]) then [] else [xs[|xs| - 1]]
  }

  lemma {:induction false} NonBlankConcat(a: seq<string>, b: seq<string>)
    ensures NonBlank(a + b) == NonBlank(a) + NonBlank(b)
  {
    hide Blank;
    if b == [] {
      assert a + b == a;
    } else {
      NonBlankConcat(a, b[..|b| - 1]);
      assert (a + b)[..|a + b| - 1] == a + b[..|b| - 1];
    }
  }

  lemma {:induction false} NonBlankHas(xs: seq<string>)
    ensures forall x | x in NonBlank(xs) :: x in xs && !Blank(x)
  {
    hide Blank;
    if xs != [] {
      NonBlankHas(xs[..|xs| - 1]);
    }
  }

  lemma {:induction false} NonBlankAll(xs: seq<string>)
    requires forall x | x in xs :: !Blank(x)
    ensures NonBlank(xs) == xs
  {
    hide Blank;
    if xs != [] {
      NonBlankAll(xs[..|xs| - 1]);
      assert xs[|xs| - 1] in xs;
      assert xs == xs[..|xs| - 1] + [xs[|xs| - 1]];
    }
  }

  lemma NonBlankOne(x: string)
    ensures NonBlank([x]) == if Blank(x) then [] else [x]
  {
    hide Blank;
    assert [x][..0] == [];
  }

  // ------------------------------------------------------------------- reading

  /** The non-blank runs between separators; what comes before the first one is
      no record. */
  function Records(body: string): seq<string> {
    NonBlank(Text.Split(body, RS)[1..])
  }

  /** The non-blank lines. */
  function LineRecords(body: string): seq<string> {
    NonBlank(Lines(body))
  }

  /** Whatever follows a separator leaves the records before it alone. */
  lemma RecordsSplit(a: string, b: string)
    ensures Records(a + [RS] + b) == Records(a) + NonBlank(Text.Split(b, RS))
  {
    hide Text.Split, NonBlank;
    Text.SplitAt(a, RS, b);
    NonBlankConcat(Text.Split(a, RS)[1..], Text.Split(b, RS));
    assert (Text.Split(a, RS) + Text.Split(b, RS))[1..] == Text.Split(a, RS)[1..] + Text.Split(b, RS);
  }

  lemma NoRecords(a: string)
    requires RS !in a
    ensures Records(a) == []
  {
    Text.SplitNothing(a, RS);
  }

  lemma {:induction false} LastSeparator(s: string) returns (a: string, t: string)
    requires RS in s
    ensures s == a + [RS] + t && RS !in t
  {
    var n := |s| - 1;
    if s[n] == RS {
      a, t := s[..n], "";
    } else {
      assert s == s[..n] + [s[n]];
      a, t := LastSeparator(s[..n]);
      t := t + [s[n]];
    }
  }

  /** A body cut off anywhere yields the records of the whole, in order, but for
      the last one it yields, which may be cut off too. */
  lemma TruncationKeeps(body: string, n: nat)
    requires n <= |body|
    ensures var cut := Records(body[..n]); cut == [] || cut[..|cut| - 1] <= Records(body)
  {
    var cut := body[..n];
    if RS in cut {
      var a, t := LastSeparator(cut);
      assert body == a + [RS] + (t + body[n..]);
      RecordsSplit(a, t);
      RecordsSplit(a, t + body[n..]);
      Text.SplitNothing(t, RS);
      NonBlankOne(t);
      hide Records, NonBlank;
      var kept := Records(a);
      assert Records(cut) == kept || Records(cut)[..|Records(cut)| - 1] == kept;
      assert kept <= Records(body);
    } else {
      NoRecords(cut);
    }
  }

  lemma SkipByte(c: char, rest: string)
    requires c != RS
    ensures Records([c] + rest) == Records(rest)
  {
    var parts := Text.Split(rest, RS);
    assert ([c] + rest)[1..] == rest;
    assert ([[c] + parts[0]] + parts[1..])[1..] == parts[1..];
  }

  lemma OneRecord(record: string)
    requires RS !in record
    ensures Records([RS] + record) == if Blank(record) then [] else [record]
  {
    hide Blank, Records;
    RecordsSplit("", record);
    assert "" + [RS] + record == [RS] + record;
    Text.SplitNothing(record, RS);
    NonBlankOne(record);
    NoRecords("");
  }

  lemma TakeRecord(record: string, tail: string)
    requires RS !in record && (tail == "" || tail[0] == RS)
    ensures Records([RS] + record + tail) == (if Blank(record) then [] else [record]) + Records(tail)
  {
    hide Blank, Records, NonBlank, Text.Split;
    OneRecord(record);
    NoRecords("");
    if tail == "" {
      assert [RS] + record + tail == [RS] + record;
    } else {
      var rest := tail[1..];
      assert tail == "" + [RS] + rest;
      RecordsSplit("", rest);
      RecordsSplit([RS] + record, rest);
      assert [RS] + record + tail == ([RS] + record) + [RS] + rest;
    }
  }

  /** `bufio.Reader` over a body, as far as the readers use it. */
  class ByteReader {
    const data: string
    var pos: nat

    constructor (data: string)
      ensures this.data == data && pos == 0
    {
      this.data, pos := data, 0;
    }

    method ReadByte() returns (b: Option<char>)
      requires pos <= |data|
      modifies this
      ensures b == if old(pos) < |data| then Some(data[old(pos)]) else None
      ensures pos == if old(pos) < |data| then old(pos) + 1 else old(pos)
    {
      if pos == |data| {
        return None;
      }
      b := Some(data[pos]);
      pos := pos + 1;
    }

    method UnreadByte()
      requires pos > 0
      modifies this
      ensures pos == old(pos) - 1
    {
      pos := pos - 1;
    }
  }

  /** `readJSONSeqRecord`: up to the next separator, which stays unread. */
  method ReadJSONSeqRecord(br: ByteReader) returns (record: string)
    requires br.pos <= |br.data|
    modifies br
    ensures old(br.pos) <= br.pos <= |br.data| && record == br.data[old(br.pos)..br.pos]
    ensures RS !in record && (br.pos < |br.data| ==> br.data[br.pos] == RS)
  {
    record := "";
    while true
      invariant old(br.pos) <= br.pos <= |br.data| && record == br.data[old(br.pos)..br.pos] && RS !in record
      decreases |br.data| - br.pos
    {
      var b := br.ReadByte();
      if b.None? {
        return;
      }
      if b.value == RS {
        br.UnreadByte();
        return;
      }
      record := record + [b.value];
    }
  }

  lemma OneRecordMore<T>(records: seq<string>, record: string, rest: seq<string>, decode: string -> T)
    ensures records + ([record] + rest) == (records + [record]) + rest
    ensures Each(records + [record], decode) == Each(records, decode) + [decode(record)]
  {
    assert (records + [record])[..|records|] == records;
    EachLast(records + [record], decode);
  }

  lemma NoneMade<T>(decode: string -> T)
    ensures Each([], decode) == []
  {
  }

  /** `jsonSeqIterator`, and `jsonSeqSeq` of the generated client: each record as
      `decode` has it, to a consumer that stops after `limit`. */
  method JsonSeqIterator<T>(body: string, decode: string -> T, limit: nat) returns (items: seq<T>)
    requires limit > 0
    ensures items == Taken(Each(Records(body), decode), limit)
  {
    hide Records, Blank, Each;
    var br := new ByteReader(body);
    items := [];
    ghost var records: seq<string> := [];
    NoneMade(decode);
    while true
      invariant br.data == body && br.pos <= |body|
      invariant Records(body) == records + Records(body[br.pos..])
      invariant items == Each(records, decode) && |items| < limit
      decreases |body| - br.pos
    {
      ghost var at := br.pos;
      var b := br.ReadByte();
      if b.None? {
        assert body[at..] == "";
        NoRecords("");
        return;
      }
      if b.value != RS {
        assert body[at..] == [body[at]] + body[at + 1..];
        SkipByte(body[at], body[at + 1..]);
        continue;
      }
      var record := ReadJSONSeqRecord(br);
      assert body[at..] == [RS] + record + body[br.pos..];
      TakeRecord(record, body[br.pos..]);
      if Blank(record) {
        continue;
      }
      ghost var rest := Records(body[br.pos..]);
      OneRecordMore(records, record, rest, decode);
      items := items + [decode(record)];
      records := records + [record];
      if |items| == limit {
        EachConcat(records, rest, decode);
        return;
      }
    }
  }

  /** `jsonlIterator`, and `jsonLineSeq` of the generated client. */
  method JsonlIterator<T>(body: string, decode: string -> T, limit: nat) returns (items: seq<T>)
    requires limit > 0
    ensures items == Taken(Each(LineRecords(body), decode), limit)
  {
    hide Blank, Lines, NonBlank, Each;
    var lines := Lines(body);
    items := [];
    assert Each(NonBlank(lines[..0]), decode) == [] by { NoneYet(lines, decode); }
    for i := 0 to |lines|
      invariant items == Each(NonBlank(lines[..i]), decode) && |items| < limit
    {
      OneLineMore(lines, i, decode);
      if Blank(lines[i]) {
        continue;
      }
      items := items + [decode(lines[i])];
      if |items| == limit {
        StoppedEarly(lines, i + 1, decode);
        return;
      }
    }
    assert lines[..|lines|] == lines;
  }

  lemma NoneYet<T>(lines: seq<string>, decode: string -> T)
    ensures Each(NonBlank(lines[..0]), decode) == []
  {
  }

  lemma OneLineMore<T>(lines: seq<string>, i: nat, decode: string -> T)
    requires i < |lines|
    ensures Each(NonBlank(lines[..i + 1]), decode) ==
            Each(NonBlank(lines[..i]), decode) + if Blank(lines[i]) then [] else [decode(lines[i])]
  {
    hide Blank;
    assert lines[..i + 1][..i] == lines[..i];
  }

  lemma StoppedEarly<T>(lines: seq<string>, i: nat, decode: string -> T)
    requires i <= |lines|
    ensures Each(NonBlank(lines[..i]), decode) <= Each(NonBlank(lines), decode)
  {
    hide NonBlank;
    NonBlankConcat(lines[..i], lines[i..]);
    assert lines == lines[..i] + lines[i..];
    EachConcat(NonBlank(lines[..i]), NonBlank(lines[i..]), decode);
  }

  // ------------------------------------------------------------------- writing

  /** `output` with the newline both writers see to. */
  function WithNewline(output: string): string {
    if output == "" || output[|output| - 1] != '\n' then output + "\n" else output
  }

  /** One framed record: after a separator in a JSON text sequence. */
  function Framed(rs: bool, output: string): string {
    (if rs then [RS] else "") + WithNewline(output)
  }

  function Stream(rs: bool, outputs: seq<string>): string {
    if outputs == [] then "" else Stream(rs, outputs[..|outputs| - 1]) + Framed(rs, outputs[|outputs| - 1])
  }

  lemma WithNewlineBlank(output: string)
    ensures Blank(WithNewline(output)) <==> Blank(output)
    ensures RS in WithNewline(output) <==> RS in output
  {
    BlankTail(output, '\n');
  }

  lemma {:induction false} SeqRecordsBack(outputs: seq<string>)
    requires forall p | p in outputs :: RS !in p && !Blank(p)
    ensures Records(Stream(true, outputs)) == Each(outputs, WithNewline)
  {
    hide Blank, Records, NonBlank, Text.Split, Stream, WithNewline;
    if outputs == [] {
      NothingStreamed(true);
      NoRecords("");
    } else {
      var front, p := outputs[..|outputs| - 1], outputs[|outputs| - 1];
      SeqRecordsBack(front);
      assert p in outputs && outputs == front + [p];
      StreamMore(true, front, p);
      WithNewlineBlank(p);
      var framed := WithNewline(p);
      RecordsSplit(Stream(true, front), framed);
      assert Stream(true, outputs) == Stream(true, front) + [RS] + framed;
      Text.SplitNothing(framed, RS);
      NonBlankOne(framed);
      assert Each(outputs, WithNewline) == Each(front, WithNewline) + [framed];
    }
  }

  lemma NothingStreamed(rs: bool)
    ensures Stream(rs, []) == ""
  {
  }

  /** Reading inverts writing exactly on payloads that are not blank and hold no
      separator. */
  lemma SeqRoundTrip(outputs: seq<string>)
    ensures Records(Stream(true, outputs)) == Each(outputs, WithNewline) <==>
              forall p | p in outputs :: RS !in p && !Blank(p)
  {
    hide Blank, Stream;
    var body := Stream(true, outputs);
    if forall p | p in outputs :: RS !in p && !Blank(p) {
      SeqRecordsBack(outputs);
    } else {
      var p :| p in outputs && (RS in p || Blank(p));
      var i :| 0 <= i < |outputs| && outputs[i] == p;
      WithNewlineBlank(p);
      RecordsFree(body);
      assert Each(outputs, WithNewline)[i] in Each(outputs, WithNewline);
    }
  }

  lemma RecordsFree(body: string)
    ensures forall r | r in Records(body) :: RS !in r && !Blank(r)
  {
    hide Text.Split, Blank, NonBlank;
    Text.SplitFree(body, RS);
    NonBlankHas(Text.Split(body, RS)[1..]);
  }

  // -------------------------------------------------------------- JSON lines

  function Line(output: string): string {
    Text.TrimSuffix(output, "\n")
  }

  lemma LineNewline(output: string)
    ensures WithNewline(output) == Line(output) + "\n"
  {
    if output != "" && output[|output| - 1] == '\n' {
      assert output[|output| - 1..] == "\n";
    }
  }

  lemma {:induction false} LineStream(outputs: seq<string>)
    ensures Stream(false, outputs) == Unlines(Each(outputs, Line))
  {
    hide Line;
    if outputs != [] {
      var n := |outputs| - 1;
      LineStream(outputs[..n]);
      LineNewline(outputs[n]);
      assert Each(outputs, Line)[..n] == Each(outputs[..n], Line);
      var before := Unlines(Each(outputs[..n], Line));
      assert before + Line(outputs[n]) + "\n" == before + (Line(outputs[n]) + "\n");
    }
  }

  lemma DropCRBlank(line: string)
    ensures Blank(DropCR(line)) <==> Blank(line)
  {
    if EndsInCR(line) {
      assert line == line[..|line| - 1] + ['\r'];
      BlankTail(line[..|line| - 1], '\r');
    }
  }

  /** The same for lines: exactly on payloads of one line that is not blank and
      does not end in a carriage return. */
  lemma LineRoundTrip(outputs: seq<string>)
    ensures LineRecords(Stream(false, outputs)) == Each(outputs, Line) <==>
              forall p | p in outputs :: '\n' !in Line(p) && !Blank(Line(p)) && !EndsInCR(Line(p))
  {
    hide Blank, Line, Lines, NonBlank, DropCR;
    var body, lines := Stream(false, outputs), Each(outputs, Line);
    LineStream(outputs);
    LinesFree(body);
    NonBlankHas(Lines(body));
    if forall p | p in outputs :: '\n' !in Line(p) && !Blank(Line(p)) {
      var dropped := Each(lines, DropCR);
      LinesOfUnlines(lines);
      forall i | 0 <= i < |dropped| ensures !Blank(dropped[i]) && (dropped[i] == lines[i] <==> !EndsInCR(lines[i])) {
        assert outputs[i] in outputs;
        DropCRBlank(lines[i]);
        DropsExactly(lines[i]);
      }
      NonBlankAll(dropped);
      SameLines(outputs, lines, dropped);
    } else {
      var p :| p in outputs && ('\n' in Line(p) || Blank(Line(p)));
      var i :| 0 <= i < |outputs| && outputs[i] == p;
      assert lines[i] in lines;
    }
  }

  lemma DropsExactly(line: string)
    ensures DropCR(line) == line <==> !EndsInCR(line)
  {
  }

  lemma SameLines(outputs: seq<string>, lines: seq<string>, dropped: seq<string>)
    requires lines == Each(outputs, Line) && |dropped| == |lines|
    requires forall i | 0 <= i < |lines| :: dropped[i] == lines[i] <==> !EndsInCR(lines[i])
    ensures dropped == lines <==> forall p | p in outputs :: !EndsInCR(Line(p))
  {
    hide Line, EndsInCR;
    if dropped == lines {
      forall p | p in outputs ensures !EndsInCR(Line(p)) {
        var i :| 0 <= i < |outputs| && outputs[i] == p;
        assert lines[i] == Line(p);
      }
    }
    if forall p | p in outputs :: !EndsInCR(Line(p)) {
      forall i | 0 <= i < |lines| ensures dropped[i] == lines[i] {
        assert outputs[i] in outputs;
      }
    }
  }

  // ------------------------------------------------------------- the writers

  datatype Outcome = Ok | StreamClosed | Canceled | NotEncodable

  /** `StreamWriter`; `canceled` is the request's context. */
  class StreamWriter {
    const rs: bool
    var started: bool
    var closed: bool
    var canceled: bool
    var body: string
    ghost var sent: seq<string>

    constructor (rs: bool)
      ensures Valid() && this.rs == rs && sent == [] && !closed && !canceled && !started
    {
      this.rs, started, closed, canceled, body, sent := rs, false, false, false, "", [];
    }

    ghost predicate Valid()
      reads this
    {
      body == Stream(rs, sent) && (sent != [] ==> started)
    }

    /** `Send`, of a value the codec encodes as `output`. */
    method Send(output: Option<string>) returns (r: Outcome)
      requires Valid()
      modifies this
      ensures Valid() && closed == old(closed) && canceled == old(canceled)
      ensures r == if old(closed) then StreamClosed else if old(canceled) then Canceled
                   else if output.None? then NotEncodable else Ok
      ensures started == (old(started) || (!closed && !canceled))
      ensures sent == if r == Ok then old(sent) + [output.value] else old(sent)
      ensures body == if r == Ok then old(body) + Framed(rs, output.value) else old(body)
    {
      if closed {
        return StreamClosed;
      }
      if canceled {
        return Canceled;
      }
      started := true;
      var buf := "";
      if rs {
        buf := buf + [RS];
      }
      if output.None? {
        return NotEncodable;
      }
      buf := buf + output.value;
      if |buf| == 0 || buf[|buf| - 1] != '\n' {
        buf := buf + "\n";
      }
      assert buf == Framed(rs, output.value);
      body := body + buf;
      assert (sent + [output.value])[..|sent|] == sent;
      sent := sent + [output.value];
      return Ok;
    }

    method Close()
      requires Valid()
      modifies this
      ensures Valid() && closed && sent == old(sent) && body == old(body)
    {
      closed := true;
    }
  }

  /** What a sequence yields to the client's writer: a value with its encoding,
      a value that has none, or an error. */
  datatype Item = Value(output: string) | Unencodable | Failure

  /** The encodings before the first item that is not a value. */
  function Leading(items: seq<Item>): seq<string> {
    if items == [] || !items[0].Value? then [] else [items[0].output] + Leading(items[1..])
  }

  lemma {:induction false} LeadingMore(items: seq<Item>, n: nat)
    requires n < |items| && forall i | 0 <= i <= n :: items[i].Value?
    ensures Leading(items[..n + 1]) == Leading(items[..n]) + [items[n].output]
  {
    if n == 0 {
      assert items[..1][1..] == [] && items[..0] == [];
    } else {
      LeadingMore(items[1..], n - 1);
      assert items[..n + 1][1..] == items[1..][..n] && items[..n][1..] == items[1..][..n - 1];
    }
  }

  lemma {:induction false} LeadingStops(items: seq<Item>, n: nat)
    requires n <= |items| && forall i | 0 <= i < n :: items[i].Value?
    requires n < |items| ==> !items[n].Value?
    ensures Leading(items) == Leading(items[..n])
  {
    if n > 0 {
      LeadingStops(items[1..], n - 1);
      assert items[..n][1..] == items[1..][..n - 1];
    }
  }

  /** `jsonLinesBody`: the body up to the first error, which may leave a
      separator with nothing after it. `Encode` ends every value in a newline. */
  method JsonLinesBody(items: seq<Item>, rs: bool) returns (body: string, failed: bool)
    requires forall v | v in items && v.Value? :: v.output != "" && v.output[|v.output| - 1] == '\n'
    ensures failed <==> exists v :: v in items && !v.Value?
    ensures body == Stream(rs, Leading(items)) || (failed && rs && body == Stream(rs, Leading(items)) + [RS])
  {
    hide Leading;
    body := "";
    assert Leading(items[..0]) == [] by { LeadingNone(items); }
    for n := 0 to |items|
      invariant forall i | 0 <= i < n :: items[i].Value?
      invariant body == Stream(rs, Leading(items[..n]))
    {
      if items[n].Failure? {
        LeadingStops(items, n);
        return body, true;
      }
      ghost var before := body;
      if rs {
        body := body + [RS];
      }
      if items[n].Unencodable? {
        LeadingStops(items, n);
        return body, true;
      }
      body := body + items[n].output;
      LeadingMore(items, n);
      StreamMore(rs, Leading(items[..n]), items[n].output);
      assert body == before + Framed(rs, items[n].output);
    }
    LeadingStops(items, |items|);
    return body, false;
  }

  lemma LeadingNone(items: seq<Item>)
    ensures Leading(items[..0]) == []
  {
  }

  lemma StreamMore(rs: bool, outputs: seq<string>, output: string)
    ensures Stream(rs, outputs + [output]) == Stream(rs, outputs) + Framed(rs, output)
  {
    assert (outputs + [output])[..|outputs|] == outputs;
  }

  /** A separator left behind by an encoding that failed reads as nothing. */
  lemma DanglingSeparator(body: string)
    ensures Records(body + [RS]) == Records(body)
  {
    hide Records;
    RecordsSplit(body, "");
    assert body + [RS] + "" == body + [RS];
    NonBlankOne("");
  }
}
