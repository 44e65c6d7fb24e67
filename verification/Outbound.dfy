/** The outbound side: the JSON-RPC `send` request built for each reply
    (`send_rpc`), and the byte stream the single writer task produces from
    the channel's replies, one newline-terminated request per reply. */
module Outbound {
  import opened Wrappers

  /** One entry of the reply channel: the `(recipient, message)` pair. */
  datatype Reply = Reply(recipient: string, message: string)

  datatype SendParams = SendParams(recipient: seq<string>, message: string)
  /** `methodName` is the JSON field `method` (a Dafny keyword). */
  datatype JsonRpcRequest = JsonRpcRequest(jsonrpc: string, methodName: string, params: SendParams, id: string)

  const JsonRpcVersion: string := "2.0"
  const SendMethod: string := "send"
  const RequestId: string := "100"

  /** The request `send_rpc` builds for one reply. */
  function SendRequest(reply: Reply): (r: JsonRpcRequest)
    ensures r.jsonrpc == JsonRpcVersion && r.methodName == SendMethod && r.id == RequestId
    ensures |r.params.recipient| == 1
  {
    JsonRpcRequest(JsonRpcVersion, SendMethod, SendParams([reply.recipient], reply.message), RequestId)
  }

  /** Reads a reply back out of a request, if it has the shape `send_rpc` builds. */
  function ReplyOf(req: JsonRpcRequest): Option<Reply> {
    if req.jsonrpc == JsonRpcVersion && req.methodName == SendMethod && req.id == RequestId
       && |req.params.recipient| == 1
    then Some(Reply(req.params.recipient[0], req.params.message))
    else None
  }

  /** Building a request loses nothing: the reply reads back unchanged, and
      the request is determined by it. */
  lemma SendRequestRoundTrip(reply: Reply, req: JsonRpcRequest)
    ensures ReplyOf(SendRequest(reply)) == Some(reply)
    ensures ReplyOf(req) == Some(reply) ==> req == SendRequest(reply)
  {
  }

  /** The text serde_json produces for a request. It is compact JSON, which
      escapes control characters inside strings, so it holds no newline. */
  ghost predicate SingleLine(serialize: JsonRpcRequest -> string) {
    forall req :: '\n' !in serialize(req)
  }

  /** The bytes one `send_rpc` call writes: the serialised request and one '\n'. */
  function WireLine(serialize: JsonRpcRequest -> string, reply: Reply): (w: string)
    ensures |w| > 0 && w[|w| - 1] == '\n'
    ensures SingleLine(serialize) ==> SplitLines(w) == [serialize(SendRequest(reply))]
  {
    OneLineSplits(serialize, serialize(SendRequest(reply)));
    serialize(SendRequest(reply)) + "\n"
  }

  lemma OneLineSplits(serialize: JsonRpcRequest -> string, line: string)
    requires SingleLine(serialize) ==> '\n' !in line
    ensures SingleLine(serialize) ==> SplitLines(line + "\n") == [line]
  {
    if SingleLine(serialize) {
      SplitFirstLine(line, "");
      assert line + "\n" + "" == line + "\n";
    }
  }

  /** Everything the writer task writes for the replies it drains, in order:
      nothing for no replies, otherwise a stream that ends in a newline. */
  function WriterOutput(serialize: JsonRpcRequest -> string, queue: seq<Reply>): (r: string)
    ensures r == [] <==> |queue| == 0
    ensures r != [] ==> r[|r| - 1] == '\n'
    decreases |queue|
  {
    if |queue| == 0 then "" else WireLine(serialize, queue[0]) + WriterOutput(serialize, queue[1..])
  }

  /** Index of the first '\n' in `s`, or `|s|`. */
  function LineEnd(s: string): (i: nat)
    ensures i <= |s| && '\n' !in s[..i]
    ensures i < |s| ==> s[i] == '\n'
  {
    if |s| == 0 || s[0] == '\n' then 0
    else
      var i := 1 + LineEnd(s[1..]);
      assert s[..i] == [s[0]] + s[1..][..i - 1];
      i
  }

  /** A reader's view of the stream: the '\n'-terminated lines it holds, and
      what follows the last newline if anything does. */
  function SplitLines(s: string): seq<string>
    decreases |s|
  {
    if |s| == 0 then []
    else
      var i := LineEnd(s);
      if i == |s| then [s] else [s[..i]] + SplitLines(s[i + 1..])
  }

  lemma SplitFirstLine(line: string, rest: string)
    requires '\n' !in line
    ensures SplitLines(line + "\n" + rest) == [line] + SplitLines(rest)
  {
    var s := line + "\n" + rest;
    var i := LineEnd(s);
    assert s[|line|] == '\n';
    assert i == |line|;
    assert s[..i] == line;
    assert s[i + 1..] == rest;
  }

  /** The writer's stream splits back into exactly one line per reply, each
      the serialised request for that reply: no write is lost, split or
      interleaved with another. */
  lemma {:induction false} WriterOutputFraming(serialize: JsonRpcRequest -> string, queue: seq<Reply>)
    requires SingleLine(serialize)
    ensures |SplitLines(WriterOutput(serialize, queue))| == |queue|
    ensures forall i :: 0 <= i < |queue| ==>
      SplitLines(WriterOutput(serialize, queue))[i] == serialize(SendRequest(queue[i]))
    decreases |queue|
  {
    if |queue| > 0 {
      var line := serialize(SendRequest(queue[0]));
      var rest := WriterOutput(serialize, queue[1..]);
      assert WriterOutput(serialize, queue) == line + "\n" + rest;
      SplitFirstLine(line, rest);
      WriterOutputFraming(serialize, queue[1..]);
    }
  }

  /** Every write ends with exactly one newline, the one `send_rpc` appends. */
  lemma WireLineEndsOnce(serialize: JsonRpcRequest -> string, reply: Reply)
    requires SingleLine(serialize)
    ensures var w := WireLine(serialize, reply);
      |w| > 0 && w[|w| - 1] == '\n' && '\n' !in w[..|w| - 1]
  {
    var w := WireLine(serialize, reply);
    assert w[..|w| - 1] == serialize(SendRequest(reply));
  }
}
