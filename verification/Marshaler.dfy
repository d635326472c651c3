/** Marshal of jaeger_marshaler_curer.go: one Kafka message per span, cured where needed. */
module Marshaler {
  import opened Sequences
  import opened Curer

  datatype Batch = Batch(process: string, spans: seq<SpanRef>)

  datatype SpanOf = SpanOf(process: string, span: SpanRef)

  /** The spans in sending order, each with its batch's process. */
  function FlatSpans(batches: seq<Batch>): seq<SpanOf> {
    if batches == [] then [] else
      var b := batches[|batches| - 1];
      FlatSpans(batches[..|batches| - 1])
      + seq(|b.spans|, j requires 0 <= j < |b.spans| => SpanOf(b.process, b.spans[j]))
  }

  function SpanSet(batches: seq<Batch>): set<SpanRef> {
    set x | x in FlatSpans(batches) :: x.span
  }

  function ValuesIn(batches: seq<Batch>): seq<Span>
    reads SpanSet(batches)
  {
    var flat := FlatSpans(batches);
    seq(|flat|, k requires 0 <= k < |flat| reads SpanSet(batches) => flat[k].span.Value())
  }

  /** The spans' values once their process is set. */
  function SpansIn(batches: seq<Batch>): seq<Span>
    reads SpanSet(batches)
  {
    var flat, values := FlatSpans(batches), ValuesIn(batches);
    seq(|flat|, k requires 0 <= k < |flat| => values[k].(process := flat[k].process))
  }

  lemma FlatNone(batches: seq<Batch>)
    ensures |FlatSpans(batches[..0])| == 0
  {}

  lemma {:induction false} FlatPrefix(batches: seq<Batch>, i: nat)
    requires i <= |batches|
    ensures FlatSpans(batches[..i]) <= FlatSpans(batches)
  {
    if i < |batches| {
      var init := batches[..|batches| - 1];
      FlatPrefix(init, i);
      assert init[..i] == batches[..i];
    } else {
      assert batches[..i] == batches;
    }
  }

  lemma FlatAt(batches: seq<Batch>, i: nat)
    requires i < |batches|
    ensures |FlatSpans(batches[..i + 1])| == |FlatSpans(batches[..i])| + |batches[i].spans| <= |FlatSpans(batches)|
    ensures forall j | 0 <= j < |batches[i].spans| ::
      FlatSpans(batches)[|FlatSpans(batches[..i])| + j] == SpanOf(batches[i].process, batches[i].spans[j])
  {
    assert batches[..i + 1][..i] == batches[..i];
    FlatPrefix(batches, i + 1);
  }

  /** Span j of batch i is marshalled at its place in sending order, with the process of its batch. */
  lemma SpanAt(batches: seq<Batch>, i: nat, j: nat)
    requires i < |batches| && j < |batches[i].spans|
    ensures var k := |FlatSpans(batches[..i])| + j;
      && k < |SpansIn(batches)| && FlatSpans(batches)[k].span == batches[i].spans[j]
      && SpansIn(batches)[k] == batches[i].spans[j].Value().(process := batches[i].process)
    ensures |FlatSpans(batches[..i + 1])| == |FlatSpans(batches[..i])| + |batches[i].spans|
  {
    FlatAt(batches, i);
  }

  /** What is sent for a span, if anything. */
  function Sent(c: Config, topic: string, s: Span): Option<Message> {
    if !Marshals(c, s) then None
    else if Fits(c, topic, s) then Some(MessageOf(s, topic, c.marshal(s).value))
    else match Cured(c, topic, s)
      case Ok(m) => Some(m)
      case Err(_) => if c.dropSpans then None else Some(MessageOf(s, topic, c.marshal(s).value))
  }

  /** The span object afterwards. */
  function Left(c: Config, topic: string, s: Span): Span {
    if Marshals(c, s) && !Fits(c, topic, s)
    then Candidate(s, c.maxAttributeValueSize, StopsAt(c, topic, s, 0)) else s
  }

  function ToSeq<T>(o: Option<T>): seq<T> {
    if o.Some? then [o.value] else []
  }

  function Messages(c: Config, topic: string, ss: seq<Span>): seq<Message> {
    if ss == [] then [] else Messages(c, topic, ss[..|ss| - 1]) + ToSeq(Sent(c, topic, ss[|ss| - 1]))
  }

  function MarshalError(c: Config, s: Span): Option<string> {
    if Marshals(c, s) then None else Some(c.marshal(s).error)
  }

  /** The errors of the first marshal of each span. */
  function Errors(c: Config, ss: seq<Span>): seq<string> {
    if ss == [] then [] else
      Errors(c, ss[..|ss| - 1]) + ToSeq(MarshalError(c, ss[|ss| - 1]))
  }

  method MarshalSpan(c: Config, topic: string, process: string, span: SpanRef)
    returns (message: Option<Message>, error: Option<string>)
    modifies span
    ensures message == Sent(c, topic, old(span.Value()).(process := process))
    ensures error == MarshalError(c, old(span.Value()).(process := process))
    ensures span.Value() == Left(c, topic, old(span.Value()).(process := process))
  {
    hide Cured, Candidate, StopsAt, MessageSize;
    span.process := process;
    ghost var s := span.Value();
    var bts := c.marshal(span.Value());
    if bts.Err? {
      return None, Some(bts.error);
    }
    var msg := MessageOf(span.Value(), topic, bts.value);
    var messageSize := ByteSize(c, msg);
    if messageSize > c.maxMessageBytes {
      var curedSpanMsg := CureSpan(c, span, topic);
      if curedSpanMsg.Err? {
        if c.dropSpans {
          return None, None;
        }
      } else {
        msg := curedSpanMsg.value;
      }
    }
    return Some(msg), None;
  }

  /** MarshalSpan on one of many distinct spans: the others keep their values. */
  method MarshalOneOf(ghost flat: seq<SpanOf>, ghost c: nat, ghost values: seq<Span>,
                      config: Config, topic: string, process: string, span: SpanRef)
    returns (message: Option<Message>, error: Option<string>)
    requires |values| == |flat| && forall k | 0 <= k < |flat| :: flat[k].span.Value() == values[k]
    requires c < |flat| && flat[c] == SpanOf(process, span)
    requires forall k, k' | 0 <= k < k' < |flat| :: flat[k].span != flat[k'].span
    modifies span
    ensures message == Sent(config, topic, values[c].(process := process))
    ensures error == MarshalError(config, values[c].(process := process))
    ensures span.Value() == Left(config, topic, values[c].(process := process))
    ensures forall k | 0 <= k < |flat| :: flat[k].span.Value() == values[c := span.Value()][k]
  {
    hide Sent, Left;
    message, error := MarshalSpan(config, topic, process, span);
  }

  ghost predicate MarshalState(c: Config, topic: string, ss: seq<Span>, was: seq<Span>, n: nat,
                               messages: seq<Message>, errs: seq<string>, values: seq<Span>) {
    && n <= |ss| == |was| == |values|
    && messages == Messages(c, topic, ss[..n]) && errs == Errors(c, ss[..n])
    && (forall k | 0 <= k < n :: values[k] == Left(c, topic, ss[k]))
    && (forall k | n <= k < |ss| :: values[k] == was[k])
  }

  lemma MarshalStep(c: Config, topic: string, ss: seq<Span>, was: seq<Span>, n: nat,
                    messages: seq<Message>, errs: seq<string>, values: seq<Span>)
    requires MarshalState(c, topic, ss, was, n, messages, errs, values) && n < |ss|
    ensures |was| == |values| == |ss| && values[n] == was[n]
    ensures MarshalState(c, topic, ss, was, n + 1, messages + ToSeq(Sent(c, topic, ss[n])),
                         errs + ToSeq(MarshalError(c, ss[n])), values[n := Left(c, topic, ss[n])])
  {
    hide Sent, Left;
    assert ss[..n + 1][..n] == ss[..n];
  }

  /** Marshals every span of every batch in order. */
  method Marshal(c: Config, batches: Result<seq<Batch>, string>, topic: string)
    returns (messages: seq<Message>, errs: seq<string>)
    requires batches.Ok? ==> forall k, k' | 0 <= k < k' < |FlatSpans(batches.value)| ::
      FlatSpans(batches.value)[k].span != FlatSpans(batches.value)[k'].span
    modifies if batches.Ok? then SpanSet(batches.value) else {}
    ensures batches.Err? ==> messages == [] && errs == [batches.error]
    ensures batches.Ok? ==>
      && messages == Messages(c, topic, old(SpansIn(batches.value)))
      && errs == Errors(c, old(SpansIn(batches.value)))
      && forall k | 0 <= k < |FlatSpans(batches.value)| ::
           FlatSpans(batches.value)[k].span.Value() == Left(c, topic, old(SpansIn(batches.value))[k])
  {
    hide FlatSpans, Messages, Errors, Left, Sent, MarshalState;
    messages, errs := [], [];
    if batches.Err? {
      return [], [batches.error];
    }
    var bs := batches.value;
    ghost var flat, ss := FlatSpans(bs), SpansIn(bs);
    ghost var was := ValuesIn(bs);
    ghost var n, values := 0, was;
    FlatNone(bs);
    MarshalStart(c, topic, ss, was);
    for i := 0 to |bs|
      invariant n == |FlatSpans(bs[..i])| && |values| == |flat|
      invariant MarshalState(c, topic, ss, was, n, messages, errs, values)
      invariant forall k | 0 <= k < |flat| :: flat[k].span.Value() == values[k]
    {
      var batch := bs[i];
      FlatAt(bs, i);
      for j := 0 to |batch.spans|
        invariant n == |FlatSpans(bs[..i])| + j && |values| == |flat|
        invariant MarshalState(c, topic, ss, was, n, messages, errs, values)
        invariant forall k | 0 <= k < |flat| :: flat[k].span.Value() == values[k]
      {
        assert flat[n] == SpanOf(batch.process, batch.spans[j]) && flat[n].span in SpanSet(bs);
        MarshalStep(c, topic, ss, was, n, messages, errs, values);
        ghost var messages0, errs0 := messages, errs;
        var message, error := MarshalOneOf(flat, n, values, c, topic, batch.process, batch.spans[j]);
        if error.Some? {
          errs := errs + [error.value];
        }
        if message.Some? {
          messages := messages + [message.value];
        }
        assert messages == messages0 + ToSeq(message) && errs == errs0 + ToSeq(error);
        n, values := n + 1, values[n := batch.spans[j].Value()];
      }
    }
    assert bs[..|bs|] == bs;
    MarshalEnd(c, topic, ss, was, messages, errs, values);
  }

  lemma MarshalEnd(c: Config, topic: string, ss: seq<Span>, was: seq<Span>,
                   messages: seq<Message>, errs: seq<string>, values: seq<Span>)
    requires MarshalState(c, topic, ss, was, |ss|, messages, errs, values)
    ensures messages == Messages(c, topic, ss) && errs == Errors(c, ss) && |values| == |ss|
    ensures forall k | 0 <= k < |ss| :: values[k] == Left(c, topic, ss[k])
  {
    assert ss[..|ss|] == ss;
  }

  lemma MarshalStart(c: Config, topic: string, ss: seq<Span>, was: seq<Span>)
    requires |ss| == |was|
    ensures MarshalState(c, topic, ss, was, 0, [], [], was)
  {}
}
