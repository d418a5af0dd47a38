/** The compressing response writer: what the client sees of any run of calls,
    and what becomes of the pooled compressors. */
module Compress {
  import opened Options
  import Text

  type Byte = bv8

  // ------------------------------------------------------- the compressor

  datatype Op = Write(data: seq<Byte>) | Flush | Close

  /** What a compressor was given to encode. */
  function Content(ops: seq<Op>): seq<Byte> {
    if ops == [] then []
    else
      var op, front := ops[|ops| - 1], Content(ops[..|ops| - 1]);
      if op.Write? then front + op.data else front
  }

  predicate Open(ops: seq<Op>) {
    Close !in ops
  }

  /** A compressed format: what a compressor has emitted after a history of
      operations, how the client decodes a finished stream, and what it can
      already decode of an unfinished one. */
  datatype Codec = Codec(emit: seq<Op> -> seq<Byte>, decode: seq<Byte> -> Option<seq<Byte>>,
      partial: seq<Byte> -> seq<Byte>)

  ghost predicate Lawful(c: Codec) {
    && c.emit([]) == []
    && (forall ops, op | Open(ops) :: c.emit(ops) <= c.emit(ops + [op]))
    && (forall ops | Open(ops) :: c.decode(c.emit(ops + [Close])) == Some(Content(ops)))
    && (forall ops | Open(ops) :: c.partial(c.emit(ops + [Flush])) == Content(ops))
  }

  /** What one more operation makes the compressor write. */
  function Delta(c: Codec, ops: seq<Op>, op: Op): seq<Byte> {
    var before, after := c.emit(ops), c.emit(ops + [op]);
    if |before| <= |after| then after[|before|..] else []
  }

  lemma DeltaAppends(c: Codec, ops: seq<Op>, op: Op)
    requires Lawful(c) && Open(ops)
    ensures c.emit(ops) + Delta(c, ops, op) == c.emit(ops + [op])
  {
  }

  lemma ContentMore(ops: seq<Op>, op: Op)
    ensures Content(ops + [op]) == if op.Write? then Content(ops) + op.data else Content(ops)
  {
    assert (ops + [op])[..|ops|] == ops;
  }

  /** A format that satisfies the laws: nothing leaves the compressor before a
      flush, and only a final mark makes the stream complete. */
  function HeldBack(ops: seq<Op>): seq<Byte> {
    if ops == [] then []
    else
      var front := ops[..|ops| - 1];
      match ops[|ops| - 1]
      case Write(_) => HeldBack(front)
      case Flush => Content(ops)
      case Close => Content(front) + [0]
  }

  function Complete(b: seq<Byte>): Option<seq<Byte>> {
    if b == [] || b[|b| - 1] != 0 then None else Some(b[..|b| - 1])
  }

  lemma {:induction false} HeldBackBehind(ops: seq<Op>)
    requires Open(ops)
    ensures HeldBack(ops) <= Content(ops)
  {
    if ops != [] && ops[|ops| - 1].Write? {
      HeldBackBehind(ops[..|ops| - 1]);
    }
  }

  lemma LawfulCodecExists()
    ensures Lawful(Codec(HeldBack, Complete, b => b))
  {
    forall ops, op | Open(ops) ensures HeldBack(ops) <= HeldBack(ops + [op]) {
      assert (ops + [op])[..|ops|] == ops;
      HeldBackBehind(ops);
    }
    forall ops | Open(ops)
      ensures Complete(HeldBack(ops + [Close])) == Some(Content(ops)) && HeldBack(ops + [Flush]) == Content(ops)
    {
      assert (ops + [Close])[..|ops|] == ops && (ops + [Flush])[..|ops|] == ops;
    }
  }

  // ------------------------------------------------------- the inner writer

  datatype Headers = Headers(contentType: string, contentEncoding: string, contentRange: string,
                             contentLength: string, acceptRanges: string, vary: seq<string>)

  /** A header section sent: by `WriteHeader`, or by the server itself ahead of
      a body that came first. */
  datatype Sent = Header(status: int, headers: Headers) | Implicit(headers: Headers)

  datatype Wire = Wire(headers: Headers, sent: seq<Sent>, body: seq<Byte>)

  function SinkHeader(w: Wire, status: int): Wire {
    w.(sent := w.sent + [Header(status, w.headers)])
  }

  function SinkWrite(w: Wire, p: seq<Byte>): Wire {
    if w.sent == [] then w.(sent := [Implicit(w.headers)], body := w.body + p)
    else w.(body := w.body + p)
  }

  // ------------------------------------------------- one call after another

  datatype Setup = Setup(types: seq<string>, minSize: int, encoding: string, codec: Codec)

  /** The fields of `responseWriter`; `enc` is the history of its compressor. */
  datatype State = State(status: int, decided: bool, wroteHeader: bool, passthrough: bool,
                         buf: seq<Byte>, enc: Option<seq<Op>>, wire: Wire)

  /** What a handler does with its writer; `End` is the deferred close. */
  datatype Call = SetStatus(status: int) | Put(data: seq<Byte>) | Push | Hijack | End

  function Start(h: Headers): State {
    State(200, false, false, false, [], None, Wire(h, [], []))
  }

  /** `compressible` */
  predicate Compressible(contentType: string, types: seq<string>) {
    var media := Media(contentType);
    media != "" && exists t :: t in types && Matches(media, t)
  }

  function Media(contentType: string): string {
    Text.Lower(Text.TrimSpace(Text.Before(contentType, ';')))
  }

  predicate Matches(media: string, t: string) {
    if Text.HasPrefix(t, "+") then Text.HasSuffix(media, t) else Text.HasPrefix(media, t)
  }

  predicate Eligible(o: Setup, h: Headers, status: int) {
    && h.contentEncoding == "" && h.contentRange == ""
    && status != 206 && status != 204 && status != 304
    && Compressible(h.contentType, o.types)
  }

  function Varied(h: Headers): Headers {
    h.(vary := h.vary + ["Accept-Encoding"])
  }

  function Encoded(h: Headers, encoding: string): Headers {
    h.(contentEncoding := encoding, contentLength := "", acceptRanges := "")
  }

  function CommitPlain(s: State): State {
    var w := if s.wroteHeader then s.wire else SinkHeader(s.wire, s.status);
    s.(decided := true, passthrough := true, wroteHeader := true, buf := [],
       wire := if s.buf == [] then w else SinkWrite(w, s.buf))
  }

  function EncoderDoes(o: Setup, s: State, op: Op): State
    requires s.enc.Some?
  {
    s.(enc := Some(s.enc.value + [op]), wire := SinkWrite(s.wire, Delta(o.codec, s.enc.value, op)))
  }

  function CommitEncoded(o: Setup, s: State): State {
    var w := s.wire.(headers := Encoded(s.wire.headers, o.encoding));
    var started := s.(wroteHeader := true, enc := Some([]), wire := SinkHeader(w, s.status));
    if s.buf == [] then started else EncoderDoes(o, started, Write(s.buf)).(buf := [])
  }

  function DoWriteHeader(o: Setup, s: State, status: int): State {
    if s.decided then s
    else
      var t := s.(decided := true, status := status);
      if !Eligible(o, s.wire.headers, status) then CommitPlain(t)
      else
        var v := t.(wire := t.wire.(headers := Varied(t.wire.headers)));
        if o.encoding == "" then CommitPlain(v) else v
  }

  function DoWrite(o: Setup, s: State, p: seq<Byte>): State {
    var t := if s.decided then s else DoWriteHeader(o, s, s.status);
    if t.passthrough then t.(wire := SinkWrite(t.wire, p))
    else if t.enc.Some? then EncoderDoes(o, t, Write(p))
    else
      var held := t.(buf := t.buf + p);
      if |held.buf| >= o.minSize then CommitEncoded(o, held) else held
  }

  function DoFlush(o: Setup, s: State): State {
    var t := if !s.passthrough && s.enc.None? then CommitPlain(s) else s;
    var u := if t.enc.Some? then EncoderDoes(o, t, Flush) else t;
    u.(wire := SinkWrite(u.wire, []))
  }

  /** `Hijack` on a connection that can be hijacked; on any other it changes
      nothing. */
  function DoHijack(o: Setup, s: State): State {
    var t :=
      if s.enc.Some? then EncoderDoes(o, s, Close).(enc := None)
      else if s.buf != [] then CommitPlain(s)
      else s;
    t.(passthrough := true)
  }

  function DoClose(o: Setup, s: State): State {
    if s.enc.Some? then EncoderDoes(o, s, Close).(enc := None)
    else if !s.passthrough then CommitPlain(s)
    else s
  }

  function Step(o: Setup, s: State, c: Call): State {
    match c
    case SetStatus(status) => DoWriteHeader(o, s, status)
    case Put(data) => DoWrite(o, s, data)
    case Push => DoFlush(o, s)
    case Hijack => DoHijack(o, s)
    case End => DoClose(o, s)
  }

  function Run(o: Setup, h: Headers, calls: seq<Call>): State {
    if calls == [] then Start(h)
    else Step(o, Run(o, h, calls[..|calls| - 1]), calls[|calls| - 1])
  }

  // ------------------------------------------- what the client should see

  function Written(calls: seq<Call>): seq<Byte> {
    if calls == [] then []
    else
      var c, front := calls[|calls| - 1], Written(calls[..|calls| - 1]);
      if c.Put? then front + c.data else front
  }

  /** The status of the first call that settles one; 200 where a write or a
      flush comes first, or nothing at all. */
  function Status(calls: seq<Call>): int {
    if calls != [] && calls[0].SetStatus? then calls[0].status else 200
  }

  /** The handler keeps the connection, and has not returned yet. */
  predicate Running(calls: seq<Call>) {
    Hijack !in calls && End !in calls
  }

  /** The response could have been compressed when it was decided. */
  predicate Considered(o: Setup, h: Headers, calls: seq<Call>) {
    calls != [] && !calls[0].Push? && Eligible(o, h, Status(calls))
  }

  predicate Deferred(o: Setup, h: Headers, calls: seq<Call>) {
    Considered(o, h, calls) && o.encoding != ""
  }

  /** A write takes the body to `MinSize` before any flush. */
  predicate Reaches(minSize: int, calls: seq<Call>) {
    exists k :: 0 <= k < |calls| && ReachesAt(minSize, calls, k)
  }

  predicate ReachesAt(minSize: int, calls: seq<Call>, k: nat)
    requires k < |calls|
  {
    calls[k].Put? && |Written(calls[..k + 1])| >= minSize && Push !in calls[..k + 1]
  }

  predicate GoesEncoded(o: Setup, h: Headers, calls: seq<Call>) {
    Deferred(o, h, calls) && Reaches(o.minSize, calls)
  }

  function Announced(o: Setup, h: Headers, calls: seq<Call>): Headers {
    if Considered(o, h, calls) then Varied(h) else h
  }

  function Plain(o: Setup, h: Headers, calls: seq<Call>): Wire {
    var announced := Announced(o, h, calls);
    Wire(announced, [Header(Status(calls), announced)], Written(calls))
  }

  function Compressed(o: Setup, h: Headers, calls: seq<Call>, ops: seq<Op>): Wire {
    var announced := Encoded(Announced(o, h, calls), o.encoding);
    Wire(announced, [Header(Status(calls), announced)], o.codec.emit(ops))
  }

  ghost predicate Encodes(ops: seq<Op>, data: seq<Byte>) {
    Open(ops) && Content(ops) == data
  }

  /** All there is to know of the writer after `calls`. */
  ghost predicate After(o: Setup, h: Headers, calls: seq<Call>, s: State) {
    if calls == [] then s == Start(h)
    else if GoesEncoded(o, h, calls) then
      && s.enc.Some? && Encodes(s.enc.value, Written(calls))
      && s == State(Status(calls), true, true, false, [], s.enc, Compressed(o, h, calls, s.enc.value))
    else if Deferred(o, h, calls) && Push !in calls then
      && s == State(Status(calls), true, false, false, Written(calls), None, Wire(Announced(o, h, calls), [], []))
      && |s.buf| < (if o.minSize > 1 then o.minSize else 1)
    else
      s == State(Status(calls), true, true, true, [], None, Plain(o, h, calls))
  }

  lemma WrittenMore(calls: seq<Call>, c: Call)
    ensures Written(calls + [c]) == if c.Put? then Written(calls) + c.data else Written(calls)
  {
    assert (calls + [c])[..|calls|] == calls;
  }

  lemma ReachesMore(minSize: int, calls: seq<Call>, c: Call)
    ensures Reaches(minSize, calls + [c]) <==>
              Reaches(minSize, calls) || (c.Put? && Push !in calls && |Written(calls + [c])| >= minSize)
  {
    var more := calls + [c];
    forall k | 0 <= k < |calls| ensures ReachesAt(minSize, more, k) == ReachesAt(minSize, calls, k) {
      assert more[..k + 1] == calls[..k + 1];
    }
    assert more[..|calls| + 1] == more;
    assert ReachesAt(minSize, more, |calls|) == (c.Put? && Push !in calls && |Written(more)| >= minSize);
    if Reaches(minSize, calls) {
      var k :| 0 <= k < |calls| && ReachesAt(minSize, calls, k);
      assert ReachesAt(minSize, more, k);
    }
  }

  /** What the first call settles stays settled. */
  lemma Settled(o: Setup, h: Headers, calls: seq<Call>, c: Call)
    requires calls != []
    ensures Status(calls + [c]) == Status(calls) && Announced(o, h, calls + [c]) == Announced(o, h, calls)
    ensures Deferred(o, h, calls + [c]) == Deferred(o, h, calls)
  {
    hide Eligible;
    assert (calls + [c])[0] == calls[0];
  }

  lemma EncoderStep(o: Setup, s: State, op: Op)
    requires Lawful(o.codec) && s.enc.Some? && Open(s.enc.value) && s.wire.sent != []
    requires s.wire.body == o.codec.emit(s.enc.value)
    ensures EncoderDoes(o, s, op) ==
            s.(enc := Some(s.enc.value + [op]), wire := s.wire.(body := o.codec.emit(s.enc.value + [op])))
    ensures Content(s.enc.value + [op]) == if op.Write? then Content(s.enc.value) + op.data else Content(s.enc.value)
  {
    DeltaAppends(o.codec, s.enc.value, op);
    ContentMore(s.enc.value, op);
  }

  lemma CommitEncodedIs(o: Setup, s: State)
    requires Lawful(o.codec) && s.wire.sent == [] && s.wire.body == [] && s.enc.None?
    ensures var t := CommitEncoded(o, s);
            var headers := Encoded(s.wire.headers, o.encoding);
            && t.enc.Some? && Encodes(t.enc.value, s.buf)
            && t == s.(wroteHeader := true, buf := [], enc := t.enc,
                       wire := Wire(headers, [Header(s.status, headers)], o.codec.emit(t.enc.value)))
  {
    var headers := Encoded(s.wire.headers, o.encoding);
    var w := s.wire.(headers := headers);
    var started := s.(wroteHeader := true, enc := Some([]), wire := SinkHeader(w, s.status));
    if s.buf != [] {
      EncoderStep(o, started, Write(s.buf));
    }
  }

  lemma FirstCall(o: Setup, h: Headers, c: Call)
    requires Lawful(o.codec) && !c.Hijack? && !c.End?
    ensures After(o, h, [c], Step(o, Start(h), c))
  {
    hide Eligible, Lawful;
    WrittenMore([], c);
    ReachesMore(o.minSize, [], c);
    assert [] + [c] == [c];
    if c.Put? && Deferred(o, h, [c]) {
      var held := Start(h).(decided := true, wire := Wire(Varied(h), [], []), buf := c.data);
      assert [] + c.data == c.data;
      CommitEncodedIs(o, held);
    }
  }

  lemma NextCall(o: Setup, h: Headers, calls: seq<Call>, s: State, c: Call)
    requires Lawful(o.codec) && !c.Hijack? && !c.End? && calls != [] && After(o, h, calls, s)
    ensures After(o, h, calls + [c], Step(o, s, c))
  {
    hide Eligible, Lawful, Announced, Deferred, Status, Reaches, Content;
    WrittenMore(calls, c);
    ReachesMore(o.minSize, calls, c);
    Settled(o, h, calls, c);
    if s.enc.Some? {
      if c.Put? { EncoderStep(o, s, Write(c.data)); }
      if c.Push? { EncoderStep(o, s, Flush); }
    } else if Deferred(o, h, calls) && Push !in calls && c.Put? {
      CommitEncodedIs(o, s.(buf := s.buf + c.data));
    }
  }

  lemma {:induction false} RunIs(o: Setup, h: Headers, calls: seq<Call>)
    requires Lawful(o.codec) && Running(calls)
    ensures After(o, h, calls, Run(o, h, calls))
  {
    hide After, Step, Lawful;
    if calls == [] {
      NoCalls(o, h);
    } else {
      var front, c := calls[..|calls| - 1], calls[|calls| - 1];
      RunIs(o, h, front);
      assert calls == front + [c];
      if front == [] {
        FirstCall(o, h, c);
      } else {
        NextCall(o, h, front, Run(o, h, front), c);
      }
    }
  }

  lemma NoCalls(o: Setup, h: Headers)
    ensures After(o, h, [], Start(h))
  {
  }

  /** The client sees one header with the first status, and a body that decodes,
      by the encoding announced, to what the handler wrote. */
  ghost predicate Faithful(o: Setup, h: Headers, calls: seq<Call>, w: Wire) {
    if GoesEncoded(o, h, calls) then
      && w.sent == [Header(Status(calls), Encoded(Announced(o, h, calls), o.encoding))]
      && o.codec.decode(w.body) == Some(Written(calls))
    else
      && w.sent == [Header(Status(calls), Announced(o, h, calls))]
      && w.body == Written(calls)
  }

  lemma Invisible(o: Setup, h: Headers, calls: seq<Call>)
    requires Lawful(o.codec) && Running(calls)
    ensures Faithful(o, h, calls, Run(o, h, calls + [End]).wire)
  {
    hide Eligible, Reaches;
    RunIs(o, h, calls);
    var s := Run(o, h, calls);
    assert (calls + [End])[..|calls|] == calls;
    if s.enc.Some? {
      EncoderStep(o, s, Close);
    }
  }

  /** The header changes with the body: encoded, and stripped of the length of
      the plain one, exactly when compression was possible, was asked for, and
      paid before any flush; and never on top of the handler's own encoding. */
  lemma EncodedExactly(o: Setup, h: Headers, calls: seq<Call>)
    requires Lawful(o.codec) && Running(calls)
    ensures var w := Run(o, h, calls + [End]).wire;
            && |w.sent| == 1
            && w.sent[0].headers.contentEncoding == (if GoesEncoded(o, h, calls) then o.encoding else h.contentEncoding)
            && w.sent[0].headers.contentLength == (if GoesEncoded(o, h, calls) then "" else h.contentLength)
    ensures GoesEncoded(o, h, calls) ==> o.encoding != "" && h.contentEncoding == ""
  {
    hide Reaches, Run, Lawful, Compressible;
    Invisible(o, h, calls);
  }

  /** The buffer stays below the threshold, and holds what the client lacks. */
  lemma Buffered(o: Setup, h: Headers, calls: seq<Call>)
    requires Lawful(o.codec) && Running(calls)
    ensures var s := Run(o, h, calls);
            && |s.buf| < (if o.minSize > 1 then o.minSize else 1)
            && (s.buf != [] ==> s.wire.sent == [] && s.wire.body == [] && s.buf == Written(calls))
  {
    hide Eligible, Reaches, Run, Lawful;
    RunIs(o, h, calls);
  }

  /** After a flush the client can read all that was written so far. */
  lemma FlushDelivers(o: Setup, h: Headers, calls: seq<Call>)
    requires Lawful(o.codec) && Running(calls)
    ensures var s := Run(o, h, calls + [Push]);
            if GoesEncoded(o, h, calls) then o.codec.partial(s.wire.body) == Written(calls)
            else s.wire.body == Written(calls)
  {
    hide Eligible, Reaches;
    RunIs(o, h, calls);
    var s := Run(o, h, calls);
    assert (calls + [Push])[..|calls|] == calls;
    if s.enc.Some? {
      EncoderStep(o, s, Flush);
      var t := DoFlush(o, s);
      assert t.wire.body == o.codec.emit(s.enc.value + [Flush]);
    }
  }

  /** The promise is Vary: Accept-Encoding on every response that could have
      been compressed. It is kept, with one entry, exactly when a status or a
      write comes first; on any other response Vary is left alone. */
  lemma VaryExactly(o: Setup, h: Headers, calls: seq<Call>)
    requires Lawful(o.codec) && Running(calls)
    ensures var w := Run(o, h, calls + [End]).wire;
            && |w.sent| == 1
            && if Eligible(o, h, Status(calls)) then
                 && (w.sent[0].headers.vary == h.vary + ["Accept-Encoding"] <==> calls != [] && !calls[0].Push?)
                 && (w.sent[0].headers.vary == h.vary <==> calls == [] || calls[0].Push?)
               else w.sent[0].headers.vary == h.vary
  {
    hide Eligible, Reaches, Run, Lawful;
    Invisible(o, h, calls);
    assert |h.vary + ["Accept-Encoding"]| == |h.vary| + 1;
  }

  /** The same flush, before the status and after it. */
  lemma FlushFirstDropsVary(o: Setup, h: Headers)
    requires Lawful(o.codec) && Eligible(o, h, 200)
    ensures Run(o, h, [Push, End]).wire.sent == [Header(200, h)]
    ensures Run(o, h, [SetStatus(200), Push, End]).wire.sent == [Header(200, Varied(h))]
  {
    hide Eligible, Reaches, Run, Lawful;
    assert [Push] + [End] == [Push, End] && [SetStatus(200), Push] + [End] == [SetStatus(200), Push, End];
    Invisible(o, h, [Push]);
    Invisible(o, h, [SetStatus(200), Push]);
    NoWriteReaches(o.minSize, [SetStatus(200), Push]);
  }

  lemma NoWriteReaches(minSize: int, calls: seq<Call>)
    requires forall c | c in calls :: !c.Put?
    ensures !Reaches(minSize, calls)
  {
  }

  /** Everything accepted is on the wire before the connection changes hands,
      and closing adds nothing to a connection given away. */
  lemma HijackDelivers(o: Setup, h: Headers, calls: seq<Call>)
    requires Lawful(o.codec) && Running(calls)
    ensures var s := Run(o, h, calls + [Hijack]);
            && s.enc.None? && s.passthrough && s.buf == [] && Run(o, h, calls + [Hijack, End]) == s
            && (if GoesEncoded(o, h, calls) then o.codec.decode(s.wire.body) == Some(Written(calls))
                else s.wire.body == Written(calls))
  {
    hide Eligible, Reaches;
    RunIs(o, h, calls);
    var s := Run(o, h, calls);
    assert (calls + [Hijack])[..|calls|] == calls && (calls + [Hijack, End])[..|calls| + 1] == calls + [Hijack];
    if s.enc.Some? {
      EncoderStep(o, s, Close);
    }
  }

  /** However the handler used its writer, no compressor outlives the response. */
  lemma EndReleases(o: Setup, h: Headers, calls: seq<Call>)
    requires calls != [] && (calls[|calls| - 1].End? || calls[|calls| - 1].Hijack?)
    ensures Run(o, h, calls).enc.None?
  {
  }

  /** How often a compressor was taken from a pool, and how often given back. */
  function Takes(o: Setup, h: Headers, calls: seq<Call>): nat {
    if calls == [] then 0
    else
      var front := calls[..|calls| - 1];
      Takes(o, h, front) + if Run(o, h, front).enc.None? && Run(o, h, calls).enc.Some? then 1 else 0
  }

  function Gives(o: Setup, h: Headers, calls: seq<Call>): nat {
    if calls == [] then 0
    else
      var front := calls[..|calls| - 1];
      Gives(o, h, front) + if Run(o, h, front).enc.Some? && Run(o, h, calls).enc.None? then 1 else 0
  }

  /** A response takes at most one compressor and gives back what it took, once,
      also when the connection is hijacked before the writer is closed. */
  lemma {:induction false} TakenOnce(o: Setup, h: Headers, calls: seq<Call>)
    requires End !in calls
    ensures Takes(o, h, calls) <= 1
    ensures Takes(o, h, calls) == Gives(o, h, calls) + if Run(o, h, calls).enc.Some? then 1 else 0
    ensures Gives(o, h, calls) == 1 ==> Run(o, h, calls).passthrough
  {
    hide Eligible, EncoderDoes;
    if calls != [] {
      TakenOnce(o, h, calls[..|calls| - 1]);
      StepTakes(o, Run(o, h, calls[..|calls| - 1]), calls[|calls| - 1]);
    }
  }

  lemma StepTakes(o: Setup, s: State, c: Call)
    requires !c.End?
    ensures var t := Step(o, s, c);
            && (s.passthrough ==> t.passthrough && (t.enc.Some? ==> s.enc.Some?))
            && (s.enc.Some? && t.enc.None? ==> t.passthrough)
  {
    hide Eligible;
  }

  lemma AllGivenBack(o: Setup, h: Headers, calls: seq<Call>)
    requires End !in calls
    ensures Gives(o, h, calls + [End]) == Takes(o, h, calls + [End]) <= 1
  {
    assert (calls + [End])[..|calls|] == calls;
    TakenOnce(o, h, calls);
    EndReleases(o, h, calls + [End]);
  }

  // -------------------------------------------- which responses, spelled out

  /** Begins with an entry, or ends with one that has a plus sign in front. */
  ghost predicate IsListed(media: string, types: seq<string>) {
    exists t :: t in types && if t != "" && t[0] == '+' then Text.EndsWith(media, t) else Text.StartsWith(media, t)
  }

  /** Blanks around the media type, its case and its parameters do not matter. */
  lemma CompressibleExactly(lead: string, media: string, trail: string, params: string, types: seq<string>)
    requires Text.AllBlank(lead) && Text.Trimmed(media) && Text.AllBlank(trail)
    requires ';' !in lead + media + trail && (params == "" || params[0] == ';')
    ensures Compressible(lead + media + trail + params, types) <==>
              media != "" && IsListed(Text.Lower(media), types)
  {
    MediaIs(lead, media, trail, params);
    LowerNothing(media);
    forall t | t in types
      ensures Matches(Text.Lower(media), t) <==>
                if t != "" && t[0] == '+' then Text.EndsWith(Text.Lower(media), t)
                else Text.StartsWith(Text.Lower(media), t)
    {
      Text.Ends(Text.Lower(media), t);
      assert Text.HasPrefix(t, "+") <==> t != "" && t[0] == '+' by {
        if t != "" { assert t[..1] == [t[0]]; }
      }
    }
  }

  lemma MediaIs(lead: string, media: string, trail: string, params: string)
    requires Text.AllBlank(lead) && Text.Trimmed(media) && Text.AllBlank(trail)
    requires ';' !in lead + media + trail && (params == "" || params[0] == ';')
    ensures Media(lead + media + trail + params) == Text.Lower(media)
  {
    var whole := lead + media + trail;
    hide Text.Before, Text.TrimSpace, Text.Lower;
    if params == "" {
      Text.CutIs(whole, ';', "");
      assert whole + params == whole;
    } else {
      Text.CutIs(whole, ';', params[1..]);
      assert whole + params == whole + [';'] + params[1..];
    }
    Text.TrimSpaceIs(lead, media, trail);
  }

  lemma LowerNothing(s: string)
    ensures Text.Lower(s) == "" <==> s == ""
  {
    if s != "" {
      Text.LowerIs(s, 0);
    }
  }

  /** What keeps a response as it is. */
  predicate Untouchable(o: Setup, h: Headers, status: int) {
    || h.contentEncoding != "" || h.contentRange != ""
    || status == 204 || status == 206 || status == 304
    || !Compressible(h.contentType, o.types)
  }

  /** The status of a first `WriteHeader`; 200 without one. */
  function FirstStatus(calls: seq<Call>): int {
    if calls != [] && calls[0].SetStatus? then calls[0].status else 200
  }

  /** Encoded by its handler, partial, without a body, or of a type not listed, a
      response goes out exactly as it was written. */
  lemma SentUntouched(o: Setup, h: Headers, calls: seq<Call>)
    requires Lawful(o.codec) && Running(calls) && Untouchable(o, h, FirstStatus(calls))
    ensures Run(o, h, calls + [End]).wire == Wire(h, [Header(FirstStatus(calls), h)], Written(calls))
  {
    hide Compressible, Reaches, Lawful;
    RunIs(o, h, calls);
    assert (calls + [End])[..|calls|] == calls;
  }

  /** Some write takes what was written to `MinSize`, and no flush came before. */
  predicate LargeEnough(minSize: int, calls: seq<Call>) {
    exists k: nat :: k < |calls| && calls[k].Put? && |Written(calls[..k + 1])| >= minSize
                     && forall j | 0 <= j < k :: !calls[j].Push?
  }

  lemma LargeEnoughReaches(minSize: int, calls: seq<Call>)
    ensures LargeEnough(minSize, calls) <==> Reaches(minSize, calls)
  {
    forall k: nat | k < |calls| && calls[k].Put?
      ensures Push in calls[..k + 1] <==> exists j :: 0 <= j < k && calls[j].Push?
    {
      if j :| 0 <= j < k && calls[j].Push? {
        assert calls[..k + 1][j] == Push;
      }
    }
    if k: nat :| k < |calls| && calls[k].Put? && |Written(calls[..k + 1])| >= minSize
                 && forall j | 0 <= j < k :: !calls[j].Push? {
      assert ReachesAt(minSize, calls, k);
    }
  }

  /** Every other response that was decided by a status or a write is encoded, and
      says so, exactly if an encoding was negotiated and its body grew large
      enough; if not it goes out as it is, but for Vary. */
  lemma SentOtherwise(o: Setup, h: Headers, calls: seq<Call>)
    requires Lawful(o.codec) && Running(calls) && !Untouchable(o, h, FirstStatus(calls))
    requires calls != [] && !calls[0].Push?
    ensures var w := Run(o, h, calls + [End]).wire;
            var vary := h.vary + ["Accept-Encoding"];
            if o.encoding != "" && LargeEnough(o.minSize, calls) then
              && w.sent == [Header(FirstStatus(calls), h.(contentEncoding := o.encoding, contentLength := "",
                                                          acceptRanges := "", vary := vary))]
              && o.codec.decode(w.body) == Some(Written(calls))
            else w.sent == [Header(FirstStatus(calls), h.(vary := vary))] && w.body == Written(calls)
  {
    hide Compressible, Reaches, Lawful, LargeEnough, Run;
    LargeEnoughReaches(o.minSize, calls);
    Invisible(o, h, calls);
  }

  /** Nothing done, or flushed first, it goes out as it is. */
  lemma SentUndecided(o: Setup, h: Headers, calls: seq<Call>)
    requires Lawful(o.codec) && Running(calls) && (calls == [] || calls[0].Push?)
    ensures var w := Run(o, h, calls + [End]).wire;
            w.sent == [Header(200, h)] && w.body == Written(calls)
  {
    hide Eligible, Reaches, Lawful, Run;
    Invisible(o, h, calls);
  }
}
