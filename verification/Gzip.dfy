/** Compressing a response on its way out (internal/proxy/gzip.go; section 12.5.3 of
    RFC 9110). A gzip stream is known by the bytes it decodes to. */
module Gzip {
  import opened Base

  const CompressMin := 1024

  /** The response's headers, as far as the writer looks at them or changes them:
      Content-Encoding, whether Cache-Control has no-transform, Content-Length when it is a
      number, Content-Type when set, Accept-Ranges, whether Vary names Accept-Encoding, ETag,
      and all the rest. */
  datatype Header = Header(
    encoding: string, noTransform: bool, length: Option<int>, mime: Option<seq<string>>,
    ranges: bool, varies: bool, etag: string, rest: string)

  /** What reaches the writer beneath: a 1xx status, the final status with its headers, bytes
      as they are, gzip bytes for some input, the end of the gzip stream, a flush. */
  datatype Event = Info(code: int) | Head(code: int, header: Header) | Raw(p: Bytes) | Zip(p: Bytes) | ZipEnd | Push

  /** What the writer takes from elsewhere: the types gzip shrinks, and the type of a sample. */
  datatype Types = Types(compressible: string -> bool, detect: Bytes -> string)

  datatype State = State(header: Header, code: int, buf: Bytes, started: bool, gz: bool, log: seq<Event>)

  function Fresh(h: Header): State {
    State(h, 0, [], false, false, [])
  }

  // ---- each operation ----------------------------------------------------------------------

  /** With no Content-Type set, the type is named from the sample. */
  function Named(t: Types, h: Header, sample: Bytes): Header {
    if h.mime.None? && sample != [] then h.(mime := Some([t.detect(sample)])) else h
  }

  predicate Plain(code: int, h: Header) {
    code == 204 || code == 206 || code == 304 || h.encoding != "" || h.noTransform
    || (h.length.Some? && h.length.value < CompressMin)
  }

  predicate Eligible(t: Types, code: int, h: Header, sample: Bytes) {
    !Plain(code, h) && (var m := Named(t, h, sample).mime; m.Some? && m.value != [] && t.compressible(m.value[0]))
  }

  /** The headers after asking: the type is named only once the rest allows gzip. */
  function Asked(t: Types, code: int, h: Header, sample: Bytes): Header {
    if Plain(code, h) then h else Named(t, h, sample)
  }

  function Weak(etag: string): string {
    if etag != "" && !("W/" <= etag) then "W/" + etag else etag
  }

  /** The headers of a compressed response. */
  function Compressed(h: Header): Header {
    h.(encoding := "gzip", length := None, ranges := false, varies := true, etag := Weak(h.etag))
  }

  function Started(st: State, compress: bool): State {
    var h := if compress then Compressed(st.header) else st.header;
    var body := if st.buf == [] then [] else if compress then [Zip(st.buf)] else [Raw(st.buf)];
    State(h, st.code, [], true, compress, st.log + [Head(st.code, h)] + body)
  }

  function Sent(st: State, p: Bytes): State {
    st.(log := st.log + [if st.gz then Zip(p) else Raw(p)])
  }

  function StatusSet(st: State, code: int): State {
    if code < 200 then st.(log := st.log + [Info(code)])
    else if st.code == 0 then st.(code := code)
    else st
  }

  function Opened(st: State): State {
    if st.code == 0 then st.(code := 200) else st
  }

  function Written(t: Types, st: State, p: Bytes): State {
    if st.started then Sent(st, p)
    else
      var o := Opened(st);
      var asked := o.(header := Asked(t, o.code, o.header, p));
      if !Eligible(t, o.code, o.header, p) then Sent(Started(asked, false), p)
      else
        var held := asked.(buf := asked.buf + p);
        if |held.buf| >= CompressMin then Started(held, true) else held
  }

  function Flushed(t: Types, st: State): State {
    var o := Opened(st);
    var up := if st.started then st
              else Started(o.(header := Asked(t, o.code, o.header, o.buf)), Eligible(t, o.code, o.header, o.buf));
    up.(log := up.log + [Push])
  }

  function Closed(st: State): State {
    var up := if !st.started && st.code != 0 then Started(st, false) else st;
    if up.gz then up.(gz := false, log := up.log + [ZipEnd]) else up
  }

  class GzipWriter {
    const types: Types
    /** The writer beneath: its headers, and what reached it. */
    var header: Header
    var log: seq<Event>
    var code: int
    var buf: Bytes
    var started: bool
    var gz: bool

    constructor (types: Types, header: Header)
      ensures this.types == types && Now() == Fresh(header)
    {
      this.types, this.header, log, code, buf, started, gz := types, header, [], 0, [], false, false;
    }

    function Now(): State reads this {
      State(header, code, buf, started, gz, log)
    }

    method WriteHeader(c: int)
      modifies this
      ensures Now() == StatusSet(old(Now()), c)
    {
      if c < 200 {
        log := log + [Info(c)];
        return;
      }
      if code == 0 {
        code := c;
      }
    }

    /** Names the type from the sample where there is none. */
    method AskEligible(sample: Bytes) returns (yes: bool)
      modifies `header
      ensures header == Asked(types, code, old(header), sample)
      ensures yes <==> Eligible(types, code, old(header), sample)
    {
      if code == 204 || code == 206 || code == 304 {
        return false;
      }
      if header.encoding != "" || header.noTransform {
        return false;
      }
      if header.length.Some? && header.length.value < CompressMin {
        return false;
      }
      if header.mime.None? {
        if |sample| == 0 {
          return false;
        }
        header := header.(mime := Some([types.detect(sample)]));
      } else if |header.mime.value| == 0 {
        return false;
      }
      return types.compressible(header.mime.value[0]);
    }

    method Start(compress: bool)
      requires !gz
      modifies this
      ensures Now() == Started(old(Now()), compress)
    {
      started := true;
      if compress {
        header := header.(length := None, ranges := false, encoding := "gzip");
        if !header.varies {
          header := header.(varies := true);
        }
        if header.etag != "" && !("W/" <= header.etag) {
          header := header.(etag := "W/" + header.etag);
        }
        gz := true;
      }
      log := log + [Head(code, header)];
      var held := buf;
      buf := [];
      if |held| == 0 {
        return;
      }
      if gz {
        log := log + [Zip(held)];
      } else {
        log := log + [Raw(held)];
      }
    }

    method Write(p: Bytes)
      requires gz ==> started
      modifies this
      ensures Now() == Written(types, old(Now()), p)
    {
      if started {
        if gz {
          log := log + [Zip(p)];
        } else {
          log := log + [Raw(p)];
        }
        return;
      }
      if code == 0 {
        code := 200;
      }
      var eligible := AskEligible(p);
      if !eligible {
        Start(false);
        log := log + [Raw(p)];
        return;
      }
      buf := buf + p;
      if |buf| >= CompressMin {
        Start(true);
      }
    }

    method Flush()
      requires gz ==> started
      modifies this
      ensures Now() == Flushed(types, old(Now()))
    {
      if !started {
        if code == 0 {
          code := 200;
        }
        var eligible := AskEligible(buf);
        Start(eligible);
      }
      log := log + [Push];
    }

    method Close()
      requires gz ==> started
      modifies this
      ensures Now() == Closed(old(Now()))
    {
      if !started && code != 0 {
        Start(false);
      }
      if gz {
        log := log + [ZipEnd];
        gz := false;
      }
    }
  }

  // ---- what the other end receives -----------------------------------------------------------

  datatype Coding = NoBody | AsIs | Zipping | Zipped

  /** A response as it is received: nothing yet, so much of it, or not a response at all. */
  datatype Response = Waiting | Sending(code: int, header: Header, coding: Coding, body: Bytes) | Garbled

  function Receive(r: Response, e: Event): Response {
    match (r, e)
    case (Garbled, _) => Garbled
    case (_, Info(_)) => r
    case (Waiting, Head(c, h)) => Sending(c, h, NoBody, [])
    case (Sending(c, h, coding, body), Push) => if coding == Zipped then Garbled else r
    case (Sending(c, h, coding, body), Raw(p)) =>
      if coding == NoBody || coding == AsIs then Sending(c, h, AsIs, body + p) else Garbled
    case (Sending(c, h, coding, body), Zip(p)) =>
      if coding == NoBody || coding == Zipping then Sending(c, h, Zipping, body + p) else Garbled
    case (Sending(c, h, coding, body), ZipEnd) =>
      if coding == NoBody || coding == Zipping then Sending(c, h, Zipped, body) else Garbled
    case _ => Garbled
  }

  function Received(log: seq<Event>): Response {
    if log == [] then Waiting else Receive(Received(log[..|log| - 1]), log[|log| - 1])
  }

  lemma ReceivedSnoc(log: seq<Event>, e: Event)
    ensures Received(log + [e]) == Receive(Received(log), e)
  {
    assert (log + [e])[..|log|] == log;
  }

  // ---- a handler's calls --------------------------------------------------------------------

  /** A handler changes the headers, gives a status, writes, flushes. */
  datatype Op = Headers(h: Header) | Status(code: int) | Data(p: Bytes) | Flush

  function Step(t: Types, st: State, op: Op): State {
    match op
    case Headers(h) => st.(header := h)
    case Status(c) => StatusSet(st, c)
    case Data(p) => Written(t, st, p)
    case Flush => Flushed(t, st)
  }

  function Run(t: Types, h: Header, ops: seq<Op>): State {
    if ops == [] then Fresh(h) else Step(t, Run(t, h, ops[..|ops| - 1]), ops[|ops| - 1])
  }

  lemma RunSnoc(t: Types, h: Header, ops: seq<Op>, op: Op)
    ensures Run(t, h, ops + [op]) == Step(t, Run(t, h, ops), op)
    ensures Body(ops + [op]) == if op.Data? then Body(ops) + op.p else Body(ops)
  {
    assert (ops + [op])[..|ops|] == ops;
  }

  /** Everything a handler wrote, in order. */
  function Body(ops: seq<Op>): Bytes {
    if ops == [] then []
    else
      var front, op := Body(ops[..|ops| - 1]), ops[|ops| - 1];
      if op.Data? then front + op.p else front
  }

  /** The first final status, or 200 by the first write or flush; 0 for neither. */
  function FinalStatus(ops: seq<Op>): int {
    if ops == [] then 0
    else
      var c, op := FinalStatus(ops[..|ops| - 1]), ops[|ops| - 1];
      if c != 0 || op.Headers? || (op.Status? && op.code < 200) then c
      else if op.Status? then op.code
      else 200
  }

  /** The headers the handler last asked for. */
  function Asking(h: Header, ops: seq<Op>): Header {
    if ops == [] then h
    else if ops[|ops| - 1].Headers? then ops[|ops| - 1].h
    else Asking(h, ops[..|ops| - 1])
  }

  predicate Flushes(ops: seq<Op>) {
    exists i :: 0 <= i < |ops| && ops[i].Flush?
  }

  /** The same headers, but for a type where b has none. */
  predicate SameButType(a: Header, b: Header) {
    a.(mime := None) == b.(mime := None) && (b.mime.Some? ==> a.mime == b.mime)
  }

  predicate Waits(t: Types, h: Header, ops: seq<Op>) {
    Received(Run(t, h, ops).log).Waiting?
  }

  /** The headers asked for when the response began: by the call that sent its status, or at
      close where none did. */
  function AskedAtStart(t: Types, h: Header, ops: seq<Op>): Header {
    if ops == [] || Waits(t, h, ops[..|ops| - 1]) then Asking(h, ops)
    else AskedAtStart(t, h, ops[..|ops| - 1])
  }

  /** The headers that went out are those asked for, compressed or not; only the type may have
      been filled in. */
  predicate SentFor(t: Types, h: Header, code: int, sent: Header, zipped: bool) {
    if zipped
    then SameButType(sent, Compressed(h)) && !Plain(code, h)
      && sent.mime.Some? && sent.mime.value != [] && t.compressible(sent.mime.value[0])
    else SameButType(sent, h)
  }

  /** What holds between any two calls: what was written is what was received and what is
      held, in that order; h is asked for, or was when the response began. */
  ghost predicate Inv(t: Types, h0: Header, ops: seq<Op>, st: State, h: Header) {
    var r := Received(st.log);
    && st.code == FinalStatus(ops)
    && if !st.started then
        r.Waiting? && !st.gz && st.buf == Body(ops) && |st.buf| < CompressMin && SameButType(st.header, h)
        && h == Asking(h0, ops) && (st.code == 0 ==> st.buf == []) && !Flushes(ops)
      else
        r.Sending? && st.buf == [] && r.code == st.code != 0 && r.body == Body(ops)
        && r.coding in (if st.gz then {NoBody, Zipping} else {NoBody, AsIs})
        && (st.gz ==> Flushes(ops) || |Body(ops)| >= CompressMin)
        && SentFor(t, h, st.code, r.header, st.gz)
  }

  lemma HeadReceived(log: seq<Event>, code: int, h: Header)
    requires Received(log).Waiting?
    ensures Received(log + [Head(code, h)]) == Sending(code, h, NoBody, [])
  {
    ReceivedSnoc(log, Head(code, h));
  }

  lemma FirstReceived(log: seq<Event>, code: int, h: Header, p: Bytes, compress: bool)
    requires Received(log) == Sending(code, h, NoBody, [])
    ensures Received(log + [if compress then Zip(p) else Raw(p)])
        == Sending(code, h, if compress then Zipping else AsIs, p)
  {
    ReceivedSnoc(log, if compress then Zip(p) else Raw(p));
  }

  lemma StartReceived(st: State, compress: bool)
    requires Received(st.log).Waiting? && !st.started
    ensures var r := Received(Started(st, compress).log);
      r == Sending(st.code, Started(st, compress).header,
                   if st.buf == [] then NoBody else if compress then Zipping else AsIs, st.buf)
  {
    var h := Started(st, compress).header;
    var sent := st.log + [Head(st.code, h)];
    HeadReceived(st.log, st.code, h);
    assert sent + [] == sent;
    FirstReceived(sent, st.code, h, st.buf, compress);
  }

  lemma FlushesSnoc(ops: seq<Op>, op: Op)
    ensures Flushes(ops + [op]) <==> Flushes(ops) || op.Flush?
  {
    assert (ops + [op])[|ops|] == op;
    if i :| 0 <= i < |ops| && ops[i].Flush? {
      assert (ops + [op])[i].Flush?;
    }
  }

  lemma StepKeepsInv(t: Types, h0: Header, ops: seq<Op>, st: State, h: Header, op: Op)
    requires Inv(t, h0, ops, st, h)
    ensures Inv(t, h0, ops + [op], Step(t, st, op), if st.started then h else Asking(h0, ops + [op]))
  {
    assert (ops + [op])[..|ops|] == ops;
    FlushesSnoc(ops, op);
    if st.started {
      StartedStep(t, h0, ops, st, h, op);
    } else {
      match op
      case Headers(_) =>
      case Status(c) => ReceivedSnoc(st.log, Info(c));
      case Data(p) => DataStep(t, h0, ops, st, h, p);
      case Flush => FlushStep(t, h0, ops, st, h);
    }
  }

  /** What an event adds to the body. */
  function Adds(e: Event): Bytes {
    match e
    case Raw(p) => p
    case Zip(p) => p
    case _ => []
  }

  lemma EventKeepsInv(t: Types, h0: Header, ops: seq<Op>, st: State, h: Header, op: Op, e: Event)
    requires Inv(t, h0, ops, st, h) && st.started && (e.Info? || e.Push? || (if st.gz then e.Zip? else e.Raw?))
    requires FinalStatus(ops + [op]) == st.code && Body(ops + [op]) == Body(ops) + Adds(e)
    ensures Inv(t, h0, ops + [op], st.(log := st.log + [e]), h)
  {
    FlushesSnoc(ops, op);
    ReceivedSnoc(st.log, e);
  }

  lemma StartedStep(t: Types, h0: Header, ops: seq<Op>, st: State, h: Header, op: Op)
    requires Inv(t, h0, ops, st, h) && st.started
    ensures Inv(t, h0, ops + [op], Step(t, st, op), h)
  {
    assert (ops + [op])[..|ops|] == ops;
    FlushesSnoc(ops, op);
    match op
    case Headers(_) =>
    case Status(c) =>
      if c < 200 {
        EventKeepsInv(t, h0, ops, st, h, op, Info(c));
      }
    case Data(p) => EventKeepsInv(t, h0, ops, st, h, op, if st.gz then Zip(p) else Raw(p));
    case Flush => EventKeepsInv(t, h0, ops, st, h, op, Push);
  }

  lemma DataStep(t: Types, h0: Header, ops: seq<Op>, st: State, h: Header, p: Bytes)
    requires Inv(t, h0, ops, st, h) && !st.started
    ensures Inv(t, h0, ops + [Data(p)], Written(t, st, p), h)
  {
    var all := ops + [Data(p)];
    assert all[..|ops|] == ops;
    FlushesSnoc(ops, Data(p));
    var o := Opened(st);
    var asked := o.(header := Asked(t, o.code, o.header, p));
    if !Eligible(t, o.code, o.header, p) {
      PlainStep(t, h0, ops, asked, h, p);
    } else {
      var held := asked.(buf := asked.buf + p);
      if |held.buf| >= CompressMin {
        StartInv(t, h0, all, held, h, true);
      }
    }
  }

  lemma PlainStep(t: Types, h0: Header, ops: seq<Op>, st: State, h: Header, p: Bytes)
    requires !st.started && !st.gz && Received(st.log).Waiting? && st.buf == Body(ops)
    requires st.code == FinalStatus(ops + [Data(p)]) != 0 && SameButType(st.header, h)
    ensures Inv(t, h0, ops + [Data(p)], Sent(Started(st, false), p), h)
  {
    assert (ops + [Data(p)])[..|ops|] == ops;
    StartReceived(st, false);
    ReceivedSnoc(Started(st, false).log, Raw(p));
  }

  lemma FlushStep(t: Types, h0: Header, ops: seq<Op>, st: State, h: Header)
    requires Inv(t, h0, ops, st, h) && !st.started
    ensures Inv(t, h0, ops + [Flush], Flushed(t, st), h)
  {
    var all := ops + [Flush];
    assert all[..|ops|] == ops;
    FlushesSnoc(ops, Flush);
    var o := Opened(st);
    var asked, compress := o.(header := Asked(t, o.code, o.header, o.buf)), Eligible(t, o.code, o.header, o.buf);
    StartInv(t, h0, all, asked, h, compress);
    PushKeepsInv(t, h0, all, Started(asked, compress), h);
  }

  lemma PushKeepsInv(t: Types, h0: Header, ops: seq<Op>, st: State, h: Header)
    requires Inv(t, h0, ops, st, h) && st.started
    ensures Inv(t, h0, ops, st.(log := st.log + [Push]), h)
  {
    ReceivedSnoc(st.log, Push);
  }

  /** The response begins with what is held. */
  lemma StartInv(t: Types, h0: Header, ops: seq<Op>, st: State, h: Header, compress: bool)
    requires !st.started && !st.gz && Received(st.log).Waiting? && st.code == FinalStatus(ops) != 0
    requires SentFor(t, h, st.code, Started(st, compress).header, compress) && st.buf == Body(ops)
    requires compress ==> Flushes(ops) || |st.buf| >= CompressMin
    ensures Inv(t, h0, ops, Started(st, compress), h)
  {
    StartReceived(st, compress);
  }

  lemma {:induction false} RunKeepsInv(t: Types, h0: Header, ops: seq<Op>)
    ensures Inv(t, h0, ops, Run(t, h0, ops), AskedAtStart(t, h0, ops))
    decreases |ops|
  {
    if ops != [] {
      var front := ops[..|ops| - 1];
      RunKeepsInv(t, h0, front);
      StepKeepsInv(t, h0, front, Run(t, h0, front), AskedAtStart(t, h0, front), ops[|ops| - 1]);
      assert ops == front + [ops[|ops| - 1]];
    }
  }

  /** For every sequence of calls ended by close: the response that is received has the final
      status once and before its body, the body decodes to everything written in order, and
      the headers are those asked for when the response began, rewritten for gzip exactly when
      the body is. A handler that gave no status and wrote nothing leaves the response to
      net/http. */
  lemma Transparent(t: Types, h0: Header, ops: seq<Op>)
    ensures var r := Received(Closed(Run(t, h0, ops)).log);
      if FinalStatus(ops) == 0 then r == Waiting && Body(ops) == []
      else r.Sending? && r.code == FinalStatus(ops) && r.body == Body(ops) && r.coding != Zipping
           && SentFor(t, AskedAtStart(t, h0, ops), r.code, r.header, r.coding == Zipped)
  {
    RunKeepsInv(t, h0, ops);
    CloseReceived(t, h0, ops, Run(t, h0, ops), AskedAtStart(t, h0, ops));
  }

  lemma CloseReceived(t: Types, h0: Header, ops: seq<Op>, st: State, h: Header)
    requires Inv(t, h0, ops, st, h)
    ensures var r := Received(Closed(st).log);
      if st.code == 0 then r == Waiting && Body(ops) == []
      else r.Sending? && r.code == st.code && r.body == Body(ops)
           && (if st.gz then r.coding == Zipped else r.coding in {NoBody, AsIs})
           && SentFor(t, h, r.code, r.header, st.gz)
  {
    if st.gz {
      ReceivedSnoc(st.log, ZipEnd);
    } else if !st.started && st.code != 0 {
      StartReceived(st, false);
    }
  }

  /** No headers the handler asked for name an encoding. */
  ghost predicate NamesNone(h0: Header, ops: seq<Op>) {
    h0.encoding == "" && forall op :: op in ops && op.Headers? ==> op.h.encoding == ""
  }

  lemma {:induction false} AskedNamesNone(t: Types, h0: Header, ops: seq<Op>)
    requires NamesNone(h0, ops)
    ensures Asking(h0, ops).encoding == "" && AskedAtStart(t, h0, ops).encoding == ""
    decreases |ops|
  {
    if ops != [] {
      AskedNamesNone(t, h0, ops[..|ops| - 1]);
      assert ops[|ops| - 1] in ops;
    }
  }

  /** The response says gzip where the handler did not exactly when its body is a gzip stream;
      a handler that names no encoding gets no other. */
  lemma SaysGzipIff(t: Types, h0: Header, ops: seq<Op>)
    requires FinalStatus(ops) != 0
    ensures var r, asked := Received(Closed(Run(t, h0, ops)).log), AskedAtStart(t, h0, ops);
      && r.Sending?
      && (r.coding == Zipped <==> r.header.encoding == "gzip" && asked.encoding == "")
      && (NamesNone(h0, ops) ==> r.header.encoding == if r.coding == Zipped then "gzip" else "")
  {
    Transparent(t, h0, ops);
    if NamesNone(h0, ops) {
      AskedNamesNone(t, h0, ops);
    }
  }

  /** The tag of a compressed response: weak, as it was if it was weak or none. */
  predicate WeakTag(sent: string, asked: string) {
    if asked == "" || "W/" <= asked then sent == asked else sent == "W/" + asked
  }

  /** What goes out in front of a gzip stream, header by header: no length and no ranges, which are
      the plain body's, a weak tag, and what a cache has to know; anything else as asked for. In
      front of any other body every header is as asked for, but for a type where none was. */
  lemma HeadersFit(t: Types, h0: Header, ops: seq<Op>)
    requires FinalStatus(ops) != 0
    ensures var r, asked := Received(Closed(Run(t, h0, ops)).log), AskedAtStart(t, h0, ops);
      && r.Sending?
      && r.header.rest == asked.rest && r.header.noTransform == asked.noTransform
      && (asked.mime.Some? ==> r.header.mime == asked.mime)
      && if r.coding == Zipped then
           && r.header.encoding == "gzip" && r.header.length.None? && !r.header.ranges && r.header.varies
           && WeakTag(r.header.etag, asked.etag)
         else
           && r.header.encoding == asked.encoding && r.header.length == asked.length
           && r.header.ranges == asked.ranges && r.header.varies == asked.varies && r.header.etag == asked.etag
  {
    Transparent(t, h0, ops);
  }

  /** No content, a part, not modified; an encoding already, or not to be transformed; less than
      1024 bytes by its own length; no type, or one that gzip does not shrink. */
  predicate StaysPlain(t: Types, code: int, asked: Header) {
    || code == 204 || code == 206 || code == 304 || asked.encoding != "" || asked.noTransform
    || (asked.length.Some? && asked.length.value < 1024)
    || (asked.mime.Some? && (asked.mime.value == [] || !t.compressible(asked.mime.value[0])))
  }

  lemma PlainIsSent(t: Types, asked: Header, code: int, sent: Header, zipped: bool)
    requires SentFor(t, asked, code, sent, zipped) && StaysPlain(t, code, asked)
    ensures !zipped
  {
  }

  /** Such a response is never compressed. */
  lemma NeverCompressed(t: Types, h0: Header, ops: seq<Op>)
    requires StaysPlain(t, FinalStatus(ops), AskedAtStart(t, h0, ops))
    ensures var r := Received(Closed(Run(t, h0, ops)).log);
      r.Sending? ==> r.coding == NoBody || r.coding == AsIs
  {
    var st, asked := Run(t, h0, ops), AskedAtStart(t, h0, ops);
    RunKeepsInv(t, h0, ops);
    CloseReceived(t, h0, ops, st, asked);
    if st.code != 0 {
      PlainIsSent(t, asked, st.code, Received(Closed(st).log).header, st.gz);
    }
  }

  /** A flush sends all that was written so far, and pushes it. */
  lemma FlushSendsAll(t: Types, h0: Header, ops: seq<Op>)
    ensures var st := Run(t, h0, ops + [Flush]);
      && st.started && st.buf == [] && st.log != [] && st.log[|st.log| - 1] == Push
      && Received(st.log).Sending? && Received(st.log).body == Body(ops)
  {
    RunSnoc(t, h0, ops, Flush);
    RunKeepsInv(t, h0, ops + [Flush]);
  }

  /** A body under the minimum that is never flushed is sent as it is. */
  lemma SmallIsSentAsIs(t: Types, h0: Header, ops: seq<Op>)
    requires |Body(ops)| < CompressMin && !Flushes(ops)
    ensures var r := Received(Closed(Run(t, h0, ops)).log);
      r.Waiting? || (r.Sending? && r.coding in {NoBody, AsIs})
  {
    RunKeepsInv(t, h0, ops);
    CloseReceived(t, h0, ops, Run(t, h0, ops), AskedAtStart(t, h0, ops));
  }

  /** A status, then writes, whatever their sizes. */
  function Writes(code: int, ps: seq<Bytes>): seq<Op> {
    if ps == [] then [Status(code)] else Writes(code, ps[..|ps| - 1]) + [Data(ps[|ps| - 1])]
  }

  /** A status and headers that allow gzip for what begins with first: of a type that shrinks, as
      given or, where none is, as told from the first piece. */
  predicate Allows(t: Types, code: int, h: Header, first: Bytes) {
    && code >= 200 && !Plain(code, h)
    && match h.mime
       case Some(m) => m != [] && t.compressible(m[0])
       case None => first != [] && t.compressible(t.detect(first))
  }

  /** Held until the minimum is there, compressed from then on; the type is named. */
  predicate Collecting(st: State, code: int, h: Header, all: Bytes) {
    var r := Received(st.log);
    if |all| < CompressMin then
      !st.started && st.code == code && st.header == h && st.buf == all && r.Waiting?
    else st.started && st.gz && r.Sending? && r.header.mime == h.mime && r.coding == Zipping
  }

  lemma FirstCollects(t: Types, h: Header, code: int, st: State, all: Bytes, p: Bytes)
    requires Allows(t, code, h, p) && Collecting(st, code, h, all) && |all| < CompressMin
    ensures Collecting(Written(t, st, p), code, Named(t, h, p), all + p)
  {
    StartReceived(st.(header := Named(t, h, p), buf := st.buf + p), true);
  }

  lemma LaterCollects(t: Types, h: Header, code: int, st: State, all: Bytes, p: Bytes)
    requires Collecting(st, code, h, all) && |all| >= CompressMin
    ensures Collecting(Written(t, st, p), code, h, all + p)
  {
    ReceivedSnoc(st.log, Zip(p));
  }

  lemma StatusCollects(t: Types, h: Header, code: int)
    requires code >= 200
    ensures Body(Writes(code, [])) == [] && Collecting(Run(t, h, Writes(code, [])), code, h, [])
  {
    RunSnoc(t, h, [], Status(code));
    assert [] + [Status(code)] == Writes(code, []);
  }

  lemma {:induction false} WritesCollect(t: Types, h: Header, code: int, ps: seq<Bytes>)
    requires ps != [] && Allows(t, code, h, ps[0])
    ensures var ops := Writes(code, ps); Collecting(Run(t, h, ops), code, Named(t, h, ps[0]), Body(ops))
    decreases |ps|
  {
    var front, p, named := ps[..|ps| - 1], ps[|ps| - 1], Named(t, h, ps[0]);
    var before := Writes(code, front);
    RunSnoc(t, h, before, Data(p));
    if front == [] {
      StatusCollects(t, h, code);
      FirstCollects(t, h, code, Run(t, h, before), [], p);
      assert [] + p == p;
    } else {
      WritesCollect(t, h, code, front);
      if |Body(before)| < CompressMin {
        FirstCollects(t, named, code, Run(t, h, before), Body(before), p);
      } else {
        LaterCollects(t, named, code, Run(t, h, before), Body(before), p);
      }
    }
  }

  /** A body of the minimum or more that may be compressed is, in whatever pieces it comes. */
  lemma LargeIsCompressed(t: Types, h: Header, code: int, ps: seq<Bytes>)
    requires ps != [] && Allows(t, code, h, ps[0]) && |Body(Writes(code, ps))| >= CompressMin
    ensures var r := Received(Closed(Run(t, h, Writes(code, ps))).log);
      r.Sending? && r.coding == Zipped && r.header.encoding == "gzip"
      && (h.mime.None? ==> r.header.mime == Some([t.detect(ps[0])]))
  {
    var ops := Writes(code, ps);
    WritesCollect(t, h, code, ps);
    RunKeepsInv(t, h, ops);
    CloseReceived(t, h, ops, Run(t, h, ops), AskedAtStart(t, h, ops));
    ReceivedSnoc(Run(t, h, ops).log, ZipEnd);
  }
}
