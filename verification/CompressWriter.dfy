/** `responseWriter` and its pools as the program has them: objects that share
    compressors, and one response served among many. */
module CompressWriter {
  import opened Options
  import opened Compress

  /** The writer the middleware wraps. */
  class Sink {
    var headers: Headers
    var sent: seq<Sent>
    var body: seq<Byte>

    constructor (h: Headers)
      ensures View() == Wire(h, [], [])
    {
      headers, sent, body := h, [], [];
    }

    ghost function View(): Wire
      reads this
    {
      Wire(headers, sent, body)
    }

    method WriteHeader(status: int)
      modifies this
      ensures View() == SinkHeader(old(View()), status)
    {
      sent := sent + [Header(status, headers)];
    }

    method Write(p: seq<Byte>)
      modifies this
      ensures View() == SinkWrite(old(View()), p)
    {
      if sent == [] {
        sent := [Implicit(headers)];
      }
      body := body + p;
    }
  }

  datatype PoolKey = PoolKey(encoding: string, level: int)

  /** `encoder`: a compressor made for one encoding and level, writing to the
      response that holds it, or nowhere. */
  class Encoder {
    const key: PoolKey
    const codec: Codec
    var target: Sink?
    var ops: seq<Op>

    constructor (key: PoolKey, codec: Codec)
      ensures this.key == key && this.codec == codec && target == null && ops == []
    {
      this.key, this.codec, target, ops := key, codec, null, [];
    }

    method Reset(to: Sink?)
      modifies this
      ensures target == to && ops == []
    {
      target, ops := to, [];
    }

    /** `Write`, `Flush` and `Close`. */
    method Do(op: Op)
      requires target != null
      modifies this, target
      ensures target == old(target) && ops == old(ops) + [op]
      ensures target.View() == SinkWrite(old(target.View()), Delta(codec, old(ops), op))
    {
      target.Write(Delta(codec, ops, op));
      ops := ops + [op];
    }
  }

  /** Each compressor at rest is there once, in the pool it was made for. */
  ghost predicate Kept(free: map<PoolKey, seq<Encoder>>, codecs: PoolKey -> Codec) {
    forall k | k in free :: KeptUnder(free[k], k, codecs(k))
  }

  ghost predicate KeptUnder(resting: seq<Encoder>, k: PoolKey, codec: Codec) {
    && (forall e | e in resting :: e.key == k && e.codec == codec)
    && (forall i, j | 0 <= i < j < |resting| :: resting[i] != resting[j])
  }

  ghost function All(free: map<PoolKey, seq<Encoder>>): set<Encoder> {
    set k, e | k in free && e in free[k] :: e
  }

  lemma TakeLast(free: map<PoolKey, seq<Encoder>>, codecs: PoolKey -> Codec, key: PoolKey)
    requires Kept(free, codecs) && key in free && free[key] != []
    ensures var rest := free[key];
            var e, next := rest[|rest| - 1], free[key := rest[..|rest| - 1]];
            Kept(next, codecs) && e in All(free) && e.key == key && e.codec == codecs(key)
                && All(next) == All(free) - {e}
  {
    var rest := free[key];
    var e, next := rest[|rest| - 1], free[key := rest[..|rest| - 1]];
    assert KeptUnder(rest, key, codecs(key));
    assert e in free[key];
    forall x | x in All(next) ensures x in All(free) - {e} {
      var k :| k in next && x in next[k];
      assert KeptUnder(free[k], k, codecs(k));
      assert x in free[k];
    }
    forall x | x in All(free) && x != e ensures x in All(next) {
      var k :| k in free && x in free[k];
      assert x in next[k];
    }
  }

  lemma PutBack(free: map<PoolKey, seq<Encoder>>, codecs: PoolKey -> Codec, key: PoolKey, e: Encoder)
    requires Kept(free, codecs) && e !in All(free) && e.key == key && e.codec == codecs(key)
    ensures var next := free[key := (if key in free then free[key] else []) + [e]];
            Kept(next, codecs) && All(next) == All(free) + {e}
  {
    var before := if key in free then free[key] else [];
    var next := free[key := before + [e]];
    assert e in next[key];
    forall x | x in All(free) ensures x in All(next) {
      var k :| k in free && x in free[k];
      assert x in next[k];
    }
    forall x | x in All(next) ensures x in All(free) + {e} {
      var k :| k in next && x in next[k];
      assert x == e || (k in free && x in free[k]);
    }
    assert KeptUnder(before, key, codecs(key));
    assert forall x | x in before :: x in All(free);
  }

  /** `pools`: the compressors at rest, by encoding and level. */
  class Pools {
    const codecs: PoolKey -> Codec
    var free: map<PoolKey, seq<Encoder>>

    constructor (codecs: PoolKey -> Codec)
      ensures Valid() && Stock() == {} && this.codecs == codecs
    {
      this.codecs, free := codecs, map[];
    }

    /** What is at rest points at no response. */
    ghost predicate Valid()
      reads this, Stock()
    {
      Kept(free, codecs) && forall e | e in Stock() :: e.target == null
    }

    ghost function Stock(): set<Encoder>
      reads this
    {
      All(free)
    }

    /** `pool(…).Get()`: one at rest, or a new one. */
    method Get(key: PoolKey) returns (e: Encoder)
      requires Valid()
      modifies this
      ensures Valid() && e.key == key && e.codec == codecs(key) && e.target == null
      ensures e in old(Stock()) || fresh(e)
      ensures Stock() == old(Stock()) - {e}
    {
      if key in free && free[key] != [] {
        var rest := free[key];
        e := rest[|rest| - 1];
        TakeLast(free, codecs, key);
        free := free[key := rest[..|rest| - 1]];
      } else {
        e := new Encoder(key, codecs(key));
      }
    }

    /** `Put` */
    method Put(key: PoolKey, e: Encoder)
      requires Valid() && e !in Stock() && e.key == key && e.codec == codecs(key) && e.target == null
      modifies this
      ensures Valid() && Stock() == old(Stock()) + {e}
    {
      PutBack(free, codecs, key, e);
      free := free[key := (if key in free then free[key] else []) + [e]];
    }

    /** The garbage collector may empty a pool at any moment. */
    method Collect(key: PoolKey)
      requires Valid()
      modifies this
      ensures Valid() && Stock() <= old(Stock())
    {
      free := free - {key};
    }
  }

  /** `responseWriter` */
  class ResponseWriter {
    const sink: Sink
    const pools: Pools
    const types: seq<string>
    const minSize: int
    const level: int
    const encoding: string
    var status: int
    var decided: bool
    var wroteHeader: bool
    var passthrough: bool
    var buf: seq<Byte>
    var enc: Encoder?

    constructor (sink: Sink, pools: Pools, types: seq<string>, minSize: int, level: int, encoding: string)
      ensures this.sink == sink && this.pools == pools && enc == null
      ensures O() == Setup(types, minSize, encoding, pools.codecs(PoolKey(encoding, level)))
      ensures Abs() == State(200, false, false, false, [], None, sink.View())
    {
      this.sink, this.pools, this.types := sink, pools, types;
      this.minSize, this.level, this.encoding := minSize, level, encoding;
      status, decided, wroteHeader, passthrough, buf, enc := 200, false, false, false, [], null;
    }

    function Key(): PoolKey {
      PoolKey(encoding, level)
    }

    ghost function O(): Setup {
      Setup(types, minSize, encoding, pools.codecs(Key()))
    }

    ghost function Abs(): State
      reads this, sink, enc
    {
      State(status, decided, wroteHeader, passthrough, buf, if enc == null then None else Some(enc.ops), sink.View())
    }

    /** The compressor in use is at no one else's disposal. */
    ghost predicate Valid()
      reads this, enc, pools, pools.Stock()
    {
      && pools.Valid() && (!decided ==> enc == null)
      && (enc != null ==>
            enc.target == sink && enc.key == Key() && enc.codec == pools.codecs(Key()) && enc !in pools.Stock())
    }

    /** One call takes a compressor, or gives back the one it has, or neither. */
    twostate predicate Accounted()
      reads this, pools
    {
      if enc == old(enc) then pools.Stock() == old(pools.Stock())
      else if enc == null then pools.Stock() == old(pools.Stock()) + {old(enc)}
      else
        && old(enc) == null && (enc in old(pools.Stock()) || fresh(enc))
        && pools.Stock() == old(pools.Stock()) - {enc}
    }

    method CommitPlain()
      requires Valid() && enc == null
      modifies this, sink
      ensures Valid() && Accounted() && Abs() == Compress.CommitPlain(old(Abs()))
    {
      decided := true;
      passthrough := true;
      if !wroteHeader {
        wroteHeader := true;
        sink.WriteHeader(status);
      }
      if |buf| > 0 {
        sink.Write(buf);
        buf := [];
      }
    }

    method CommitEncoded()
      requires Valid() && enc == null && decided
      modifies this, sink, pools, pools.Stock()
      ensures Valid() && Accounted() && Abs() == Compress.CommitEncoded(O(), old(Abs()))
    {
      hide Kept;
      sink.headers := sink.headers.(contentEncoding := encoding, contentLength := "", acceptRanges := "");
      wroteHeader := true;
      sink.WriteHeader(status);
      enc := pools.Get(Key());
      enc.Reset(sink);
      if |buf| > 0 {
        enc.Do(Op.Write(buf));
        buf := [];
      }
    }

    method Release()
      requires Valid() && enc != null
      modifies this, enc, pools
      ensures Valid() && enc == null && pools.Stock() == old(pools.Stock()) + {old(enc)} && old(enc).target == null
      ensures Abs() == old(Abs()).(enc := None)
    {
      enc.Reset(null);
      pools.Put(Key(), enc);
      enc := null;
    }

    method WriteHeader(status: int)
      requires Valid()
      modifies this, sink
      ensures Valid() && Accounted() && Abs() == DoWriteHeader(O(), old(Abs()), status)
    {
      if decided {
        return;
      }
      decided := true;
      this.status := status;
      var compressible := CompressibleType(sink.headers.contentType);
      if sink.headers.contentEncoding != "" || sink.headers.contentRange != "" || status == 206 || status == 204
         || status == 304 || !compressible
      {
        CommitPlain();
        return;
      }
      sink.headers := sink.headers.(vary := sink.headers.vary + ["Accept-Encoding"]);
      if encoding == "" {
        CommitPlain();
      }
    }

    /** `compressible` */
    method CompressibleType(contentType: string) returns (yes: bool)
      ensures yes == Compressible(contentType, types)
    {
      var media := Media(contentType);
      if media == "" {
        return false;
      }
      for i := 0 to |types|
        invariant forall j | 0 <= j < i :: !Matches(media, types[j])
      {
        if Matches(media, types[i]) {
          return true;
        }
      }
      return false;
    }

    method Write(p: seq<Byte>) returns (n: nat)
      requires Valid()
      modifies this, sink, pools, pools.Stock(), enc
      ensures Valid() && Accounted() && Abs() == DoWrite(O(), old(Abs()), p) && n == |p|
    {
      if !decided {
        WriteHeader(status);
      }
      if passthrough {
        sink.Write(p);
      } else if enc != null {
        enc.Do(Op.Write(p));
      } else {
        buf := buf + p;
        if |buf| >= minSize {
          CommitEncoded();
        }
      }
      return |p|;
    }

    method Flush()
      requires Valid()
      modifies this, sink, enc
      ensures Valid() && Accounted() && Abs() == DoFlush(O(), old(Abs()))
    {
      if !passthrough && enc == null {
        CommitPlain();
      }
      if enc != null {
        enc.Do(Op.Flush);
      }
      sink.Write([]);
    }

    method Hijack()
      requires Valid()
      modifies this, sink, pools, enc
      ensures Valid() && Accounted() && Abs() == DoHijack(O(), old(Abs()))
    {
      if enc != null {
        enc.Do(Op.Close);
        Release();
      } else if |buf| > 0 {
        CommitPlain();
      }
      passthrough := true;
    }

    method Close()
      requires Valid()
      modifies this, sink, pools, enc
      ensures Valid() && Accounted() && Abs() == DoClose(O(), old(Abs()))
    {
      if enc != null {
        enc.Do(Op.Close);
        Release();
        return;
      }
      if !passthrough {
        CommitPlain();
      }
    }
  }

  // ------------------------------------------- many responses, one set of pools

  /** One step of a server: a handler uses its writer, or the collector runs. */
  datatype Event = Does(who: nat, call: Call) | Collects(key: PoolKey)

  function CallsOf(events: seq<Event>, who: nat): seq<Call> {
    if events == [] then []
    else
      var e, front := events[|events| - 1], CallsOf(events[..|events| - 1], who);
      if e.Does? && e.who == who then front + [e.call] else front
  }

  ghost predicate Distinct(writers: seq<ResponseWriter>) {
    forall i, j | 0 <= i < j < |writers| :: writers[i] != writers[j] && writers[i].sink != writers[j].sink
  }

  ghost function Objects(writers: seq<ResponseWriter>): set<object> {
    (set i | 0 <= i < |writers| :: writers[i] as object) + (set i | 0 <= i < |writers| :: writers[i].sink as object)
  }

  ghost function Compressors(writers: seq<ResponseWriter>): set<Encoder>
    reads writers
  {
    set i | 0 <= i < |writers| && writers[i].enc != null :: writers[i].enc
  }

  /** Every compressor is at rest in its own pool or in the hands of exactly one
      response. */
  ghost predicate Sound(pools: Pools, writers: seq<ResponseWriter>)
    reads pools, pools.Stock(), writers, Compressors(writers)
  {
    && pools.Valid() && Distinct(writers)
    && (forall i | 0 <= i < |writers| :: writers[i].pools == pools && writers[i].Valid())
    && (forall i, j | 0 <= i < j < |writers| && writers[i].enc != null :: writers[i].enc != writers[j].enc)
  }

  method Perform(w: ResponseWriter, call: Call)
    requires w.Valid()
    modifies w, w.sink, w.pools, w.pools.Stock(), w.enc
    ensures w.Valid() && w.Accounted() && w.Abs() == Step(w.O(), old(w.Abs()), call)
  {
    match call {
      case SetStatus(status) => w.WriteHeader(status);
      case Put(data) => var _ := w.Write(data);
      case Push => w.Flush();
      case Hijack => w.Hijack();
      case End => w.Close();
    }
  }

  /** One response's turn is no other's business. */
  method Turn(pools: Pools, writers: seq<ResponseWriter>, who: nat, call: Call)
    requires Sound(pools, writers) && who < |writers|
    modifies pools, pools.Stock(), writers[who], writers[who].sink, writers[who].enc
    ensures Sound(pools, writers)
    ensures writers[who].Abs() == Step(writers[who].O(), old(writers[who].Abs()), call)
    ensures forall i | 0 <= i < |writers| && i != who :: writers[i].Abs() == old(writers[i].Abs())
    ensures forall e | e in pools.Stock() + Compressors(writers) ::
            e in old(pools.Stock() + Compressors(writers)) || fresh(e)
  {
    hide Step, Kept, All, ResponseWriter.O;
    var w := writers[who];
    assert w.pools == pools;
    Perform(w, call);
    forall i | 0 <= i < |writers| && i != who
      ensures writers[i].Valid() && writers[i].Abs() == old(writers[i].Abs()) && writers[i].enc == old(writers[i].enc)
      ensures writers[i].enc != null ==> writers[i].enc != w.enc
    {
    }
  }

  method Happens(pools: Pools, writers: seq<ResponseWriter>, e: Event)
    requires Sound(pools, writers) && (e.Does? ==> e.who < |writers|)
    modifies pools, pools.Stock(), Objects(writers), Compressors(writers)
    ensures Sound(pools, writers)
    ensures forall i | 0 <= i < |writers| ::
              writers[i].Abs() == if e.Does? && e.who == i then Step(writers[i].O(), old(writers[i].Abs()), e.call)
                                  else old(writers[i].Abs())
    ensures forall e | e in pools.Stock() + Compressors(writers) ::
            e in old(pools.Stock() + Compressors(writers)) || fresh(e)
  {
    match e {
      case Collects(key) => pools.Collect(key);
      case Does(who, call) => Turn(pools, writers, who, call);
    }
  }

  lemma CallsMore(events: seq<Event>, n: nat, who: nat)
    requires n < |events|
    ensures CallsOf(events[..n + 1], who) ==
            if events[n].Does? && events[n].who == who then CallsOf(events[..n], who) + [events[n].call]
            else CallsOf(events[..n], who)
  {
    assert events[..n + 1][..n] == events[..n];
  }

  lemma RunMore(o: Setup, h: Headers, calls: seq<Call>, c: Call)
    ensures Run(o, h, calls + [c]) == Step(o, Run(o, h, calls), c)
  {
    assert (calls + [c])[..|calls|] == calls;
  }

  /** Whatever the interleaving, each response is served as if it were alone, and
      once ended is what its client should see. */
  method Serve(pools: Pools, writers: seq<ResponseWriter>, events: seq<Event>, ghost heads: seq<Headers>)
    requires Sound(pools, writers) && forall e | e in events && e.Does? :: e.who < |writers|
    requires |heads| == |writers| && forall i | 0 <= i < |writers| :: writers[i].Abs() == Start(heads[i])
    modifies pools, pools.Stock(), Objects(writers)
    ensures Sound(pools, writers)
    ensures forall i | 0 <= i < |writers| :: writers[i].Abs() == Run(writers[i].O(), heads[i], CallsOf(events, i))
    ensures forall i | 0 <= i < |writers| ::
              Delivered(writers[i].O(), heads[i], CallsOf(events, i), writers[i].sink.View())
  {
    hide Step, Sound, ResponseWriter.Abs, ResponseWriter.O, Delivered;
    assert Compressors(writers) == {} by { NoneYet(writers, heads); }
    for n := 0 to |events|
      invariant Sound(pools, writers)
      invariant forall e | e in pools.Stock() + Compressors(writers) :: e in old(pools.Stock()) || fresh(e)
      invariant forall i | 0 <= i < |writers| ::
                  writers[i].Abs() == Run(writers[i].O(), heads[i], CallsOf(events[..n], i))
    {
      ghost var e := events[n];
      Happens(pools, writers, events[n]);
      forall i | 0 <= i < |writers|
        ensures writers[i].Abs() == Run(writers[i].O(), heads[i], CallsOf(events[..n + 1], i))
      {
        CallsMore(events, n, i);
        if e.Does? && e.who == i {
          RunMore(writers[i].O(), heads[i], CallsOf(events[..n], i), e.call);
        }
      }
    }
    assert events[..|events|] == events;
    forall i | 0 <= i < |writers|
      ensures Delivered(writers[i].O(), heads[i], CallsOf(events, i), writers[i].sink.View())
    {
      RunDelivers(writers[i].O(), heads[i], CallsOf(events, i));
      AbsWire(writers[i]);
    }
  }

  lemma AbsWire(w: ResponseWriter)
    ensures w.Abs().wire == w.sink.View()
  {
  }

  lemma NoneYet(writers: seq<ResponseWriter>, heads: seq<Headers>)
    requires |heads| == |writers| && forall i | 0 <= i < |writers| :: writers[i].Abs() == Start(heads[i])
    ensures Compressors(writers) == {}
  {
    forall i | 0 <= i < |writers| ensures writers[i].enc == null {
      assert writers[i].Abs().enc == Start(heads[i]).enc;
    }
  }

  /** A response that has run its course is on the wire as its client should see
      it. */
  ghost predicate Delivered(o: Setup, h: Headers, calls: seq<Call>, wire: Wire) {
    Lawful(o.codec) && calls != [] && calls[|calls| - 1].End? && Running(calls[..|calls| - 1]) ==>
      Faithful(o, h, calls[..|calls| - 1], wire)
  }

  lemma RunDelivers(o: Setup, h: Headers, calls: seq<Call>)
    ensures Delivered(o, h, calls, Run(o, h, calls).wire)
  {
    hide Run, Faithful, Lawful;
    if calls != [] && Lawful(o.codec) && calls[|calls| - 1].End? && Running(calls[..|calls| - 1]) {
      Invisible(o, h, calls[..|calls| - 1]);
      assert calls == calls[..|calls| - 1] + [End];
    }
  }
}
