/**
 * What a handler does to net/http's ResponseWriter, as a trace of calls, and
 * the status, handler-set headers and body that such a trace sends. Headers
 * that net/http or middleware add on their own (a sniffed Content-Type,
 * Date, Content-Length, compression headers) are not part of it. Headers
 * changed after the status line is written are not sent; a body written
 * before any status line implies 200; a handler that writes nothing also
 * answers 200.
 */
module Http {
  import opened Wrappers
  import opened Models

  const StatusOK := 200
  const StatusNotFound := 404
  const StatusInternalServerError := 500
  const StatusServiceUnavailable := 503

  /** The pages a template renders; the markup itself is not modelled. */
  datatype View = MinistriesIndex(ministries: seq<Ministry>) | MinistryShow(ministry: Ministry)

  /** One piece of response body. */
  datatype Payload = Text(text: string) | Json(fields: map<string, string>) | Page(view: View)

  /** One call on the ResponseWriter: Header().Set, WriteHeader or Write. */
  datatype WriterOp = SetHeader(name: string, value: string) | WriteHeader(code: int) | Write(payload: Payload)

  /**
   * What the trace sends: the status, the headers the handler itself set
   * before the status line, and the body.
   */
  datatype Response = Response(status: int, headers: map<string, string>, body: seq<Payload>)

  /** The writer's state: `status` is set once the header has been sent. */
  datatype Writer = Writer(headers: map<string, string>, status: Option<int>, body: seq<Payload>)

  /** A fresh writer: no headers, nothing sent. */
  const Fresh := Writer(map[], None, [])

  function Step(w: Writer, op: WriterOp): Writer
  {
    match op
    case SetHeader(name, value) =>
      if w.status.Some? then w else w.(headers := w.headers[name := value])
    case WriteHeader(code) =>
      if w.status.Some? then w else w.(status := Some(code))
    case Write(p) =>
      w.(status := Some(w.status.GetOr(StatusOK)), body := w.body + [p])
  }

  function Run(w: Writer, ops: seq<WriterOp>): Writer
    decreases ops
  {
    if ops == [] then w else Run(Step(w, ops[0]), ops[1..])
  }

  /** The response a trace produces on a fresh writer. */
  function Replay(ops: seq<WriterOp>): Response
  {
    var w := Run(Fresh, ops);
    Response(w.status.GetOr(StatusOK), w.headers, w.body)
  }

  /** Running two traces one after the other is running their concatenation. */
  lemma {:induction false} RunAppend(w: Writer, a: seq<WriterOp>, b: seq<WriterOp>)
    ensures Run(w, a + b) == Run(Run(w, a), b)
    decreases a
  {
    if a == [] {
      assert a + b == b;
    } else {
      assert (a + b)[1..] == a[1..] + b;
      RunAppend(Step(w, a[0]), a[1..], b);
    }
  }

  /** Once the header is sent, neither the status nor the headers change again. */
  lemma {:induction false} SentHeaderIsFinal(w: Writer, ops: seq<WriterOp>)
    requires w.status.Some?
    ensures Run(w, ops).status == w.status
    ensures Run(w, ops).headers == w.headers
    decreases ops
  {
    if ops != [] {
      SentHeaderIsFinal(Step(w, ops[0]), ops[1..]);
    }
  }

  /** A header set after WriteHeader never reaches the client. */
  lemma HeaderAfterStatusIsLost(code: int, name: string, value: string)
    ensures name !in Replay([WriteHeader(code), SetHeader(name, value)]).headers
  {
    var ops := [WriteHeader(code), SetHeader(name, value)];
    assert ops[1..] == [SetHeader(name, value)];
    SentHeaderIsFinal(Step(Fresh, ops[0]), ops[1..]);
  }

  /** Headers, then the status, then a body: the trace sends all three. */
  lemma {:induction false} ReplayHeadersStatusBody(hs: seq<WriterOp>, code: int, p: Payload)
    requires forall op :: op in hs ==> op.SetHeader?
    ensures Replay(hs + [WriteHeader(code), Write(p)]) == Response(code, Run(Fresh, hs).headers, [p])
  {
    RunAppend(Fresh, hs, [WriteHeader(code), Write(p)]);
    HeadersOnlySendNothing(Fresh, hs);
    var w := Run(Fresh, hs);
    var tail := [WriteHeader(code), Write(p)];
    assert tail[1..] == [Write(p)] && [Write(p)][1..] == [];
    var sent := Step(w, WriteHeader(code));
    assert sent == w.(status := Some(code));
    assert Run(w, tail) == Run(sent, [Write(p)]);
    assert Run(sent, [Write(p)]) == Step(sent, Write(p));
    assert Step(sent, Write(p)) == Writer(w.headers, Some(code), [p]);
  }

  /** Setting headers alone sends nothing. */
  lemma {:induction false} HeadersOnlySendNothing(w: Writer, hs: seq<WriterOp>)
    requires forall op :: op in hs ==> op.SetHeader?
    requires w.status.None? && w.body == []
    ensures Run(w, hs).status.None? && Run(w, hs).body == []
    decreases hs
  {
    if hs != [] {
      assert hs[0] in hs;
      HeadersOnlySendNothing(Step(w, hs[0]), hs[1..]);
    }
  }

  /** net/http's Error(w, msg, code): plain-text headers, the status, the message and a newline. */
  function Error(msg: string, code: int): seq<WriterOp>
  {
    [SetHeader("Content-Type", "text/plain; charset=utf-8"),
     SetHeader("X-Content-Type-Options", "nosniff"),
     WriteHeader(code),
     Write(Text(msg + "\n"))]
  }

  const PlainTextHeaders := map["Content-Type" := "text/plain; charset=utf-8", "X-Content-Type-Options" := "nosniff"]

  lemma ErrorReply(msg: string, code: int)
    ensures Replay(Error(msg, code)) == Response(code, PlainTextHeaders, [Text(msg + "\n")])
  {
    var hs := [SetHeader("Content-Type", "text/plain; charset=utf-8"),
               SetHeader("X-Content-Type-Options", "nosniff")];
    assert Error(msg, code) == hs + [WriteHeader(code), Write(Text(msg + "\n"))];
    ReplayHeadersStatusBody(hs, code, Text(msg + "\n"));
    assert hs[1..] == [hs[1]];
    assert Run(Fresh, hs) == Run(Step(Fresh, hs[0]), [hs[1]]);
  }

  /**
   * A rendered page: on success the page is written; a failure writes
   * nothing. The handler sets no header of its own here.
   */
  function Render(view: View, ok: bool): seq<WriterOp>
  {
    if ok then [Write(Page(view))] else []
  }

  lemma RenderReply(view: View, ok: bool)
    ensures Replay(Render(view, ok)) == Response(StatusOK, map[], if ok then [Page(view)] else [])
  {
    if ok {
      var op := Write(Page(view));
      assert [op][1..] == [];
      assert Run(Fresh, [op]) == Step(Fresh, op);
    }
  }

  /** What a handler did: its writer calls and the lines it logged. */
  datatype Handled = Handled(ops: seq<WriterOp>, log: seq<string>)
}
