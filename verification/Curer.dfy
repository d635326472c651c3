/** jaeger_marshaler_curer.go: makes oversize spans fit by truncating attribute values, then thinning out logs. */
module Curer {
  import opened Sequences

  const MAX_TRUNCATION_TRIES: nat := 5
  const MIN_SPAN_LOGS: nat := 32
  const TRUNCATION_TAG_SUFFIX := ".htcollector.truncated"
  const SPAN_LOGS_TRUNCATION_TAG := "htcollector.spanlogstruncated"
  const MAX_VARINT_LEN32: nat := 5
  const MAX_VARINT_LEN64: nat := 10
  const MAXIMUM_RECORD_OVERHEAD: nat := 5 * MAX_VARINT_LEN32 + MAX_VARINT_LEN64 + 1
  const PRODUCER_MESSAGE_OVERHEAD: nat := 26

  datatype ValueType = STRING | BOOL | INT64 | FLOAT64 | BINARY

  datatype KeyValue =
    KeyValue(key: string, vType: ValueType, vStr: string, vBool: bool, vInt64: int, vFloat64: real, vBinary: string)

  datatype Log = Log(timestamp: int, fields: seq<KeyValue>)

  /** What marshal reads of a span. `body` stands for the fields the curer never touches. */
  datatype Span = Span(traceId: string, body: string, process: string, tags: seq<KeyValue>, logs: seq<Log>)

  /** A span object, cured in place. */
  class SpanRef {
    const traceId: string
    const body: string
    var process: string
    var tags: seq<KeyValue>
    var logs: seq<Log>

    constructor (s: Span)
      ensures Value() == s
    {
      traceId, body, process, tags, logs := s.traceId, s.body, s.process, s.tags, s.logs;
    }

    function Value(): Span
      reads this
    {
      Span(traceId, body, process, tags, logs)
    }
  }

  datatype Message = Message(topic: string, key: Option<string>, value: Option<string>, headers: seq<(string, string)>)

  /** `recordBatches` says that the Kafka version is at least 0.11.0.0. `marshal` is the span encoding. */
  datatype Config = Config(marshal: Span -> Result<string, string>, recordBatches: bool, maxMessageBytes: int,
                           maxAttributeValueSize: nat, dropSpans: bool)

  // ---------- byteSize ----------

  function HeaderBytes(headers: seq<(string, string)>): nat {
    if headers == [] then 0 else
      var h := headers[|headers| - 1];
      HeaderBytes(headers[..|headers| - 1]) + |h.0| + |h.1| + 2 * MAX_VARINT_LEN32
  }

  function LengthOf(o: Option<string>): nat {
    if o.Some? then |o.value| else 0
  }

  function MessageSize(c: Config, m: Message): nat {
    (if c.recordBatches then MAXIMUM_RECORD_OVERHEAD + HeaderBytes(m.headers) else PRODUCER_MESSAGE_OVERHEAD)
    + LengthOf(m.key) + LengthOf(m.value)
  }

  method ByteSize(c: Config, m: Message) returns (size: nat)
    ensures size == MessageSize(c, m)
  {
    if c.recordBatches {
      size := MAXIMUM_RECORD_OVERHEAD;
      for i := 0 to |m.headers|
        invariant size == MAXIMUM_RECORD_OVERHEAD + HeaderBytes(m.headers[..i])
      {
        assert m.headers[..i + 1][..i] == m.headers[..i];
        size := size + |m.headers[i].0| + |m.headers[i].1| + 2 * MAX_VARINT_LEN32;
      }
      assert m.headers[..|m.headers|] == m.headers;
    } else {
      size := PRODUCER_MESSAGE_OVERHEAD;
    }
    if m.key.Some? { size := size + |m.key.value|; }
    if m.value.Some? { size := size + |m.value.value|; }
  }

  // ---------- The ladder of candidates ----------

  /** The attribute limit of try t: the configured one, halved t times. */
  function Limit(l: nat, t: nat): nat {
    if t == 0 then l else Limit(l, t - 1) / 2
  }

  function ValueLength(kv: KeyValue): nat {
    match kv.vType
    case STRING => |kv.vStr|
    case BINARY => |kv.vBinary|
    case _ => 0
  }

  function Truncated(kv: KeyValue, limit: nat): KeyValue {
    if kv.vType.STRING? && |kv.vStr| > limit then kv.(vStr := kv.vStr[..limit])
    else if kv.vType.BINARY? && |kv.vBinary| > limit then kv.(vBinary := kv.vBinary[..limit])
    else kv
  }

  function TruncateAll(tags: seq<KeyValue>, limit: nat): seq<KeyValue> {
    seq(|tags|, i requires 0 <= i < |tags| => Truncated(tags[i], limit))
  }

  function NextMarkers(before: seq<string>, kv: KeyValue, limit: nat): seq<string> {
    var marker := kv.key + TRUNCATION_TAG_SUFFIX;
    if ValueLength(kv) > limit && marker !in before then before + [marker] else before
  }

  /** The markers present before a try, plus one for each key among the first n tags that has none yet and a value
      above the limit. */
  function MoreMarkers(seen: seq<string>, tags: seq<KeyValue>, limit: nat, n: nat): seq<string>
    requires n <= |tags|
  {
    if n == 0 then seen else
      NextMarkers(MoreMarkers(seen, tags, limit, n - 1), tags[n - 1], limit)
  }

  /** The marker keys after try t, in the order they are appended. */
  function Markers(tags: seq<KeyValue>, l: nat, t: nat): seq<string> {
    MoreMarkers(if t == 0 then [] else Markers(tags, l, t - 1), tags, Limit(l, t), |tags|)
  }

  function MarkerTag(key: string): KeyValue {
    KeyValue(key, BOOL, "", true, 0, 0.0, "")
  }

  function MarkerTags(keys: seq<string>): seq<KeyValue> {
    seq(|keys|, i requires 0 <= i < |keys| => MarkerTag(keys[i]))
  }

  /** The span after attribute try t. */
  function AttributeCandidate(s: Span, l: nat, t: nat): Span {
    s.(tags := TruncateAll(s.tags, Limit(l, t)) + MarkerTags(Markers(s.tags, l, t)))
  }

  /** Every other log, starting with the first. */
  function EverySecond(logs: seq<Log>): seq<Log> {
    seq((|logs| + 1) / 2, i requires 0 <= i < (|logs| + 1) / 2 => logs[2 * i])
  }

  function Thinned(logs: seq<Log>, passes: nat): seq<Log> {
    if passes == 0 then logs else EverySecond(Thinned(logs, passes - 1))
  }

  /** The span after log pass u, counted from 1. */
  function LogCandidate(s: Span, u: nat): Span {
    s.(tags := s.tags + [MarkerTag(SPAN_LOGS_TRUNCATION_TAG)], logs := Thinned(s.logs, u))
  }

  /** How many candidates there are: log thinning is tried only with at least 32 logs. */
  function LadderLength(s: Span): nat {
    if |s.logs| >= MIN_SPAN_LOGS then 2 * MAX_TRUNCATION_TRIES else MAX_TRUNCATION_TRIES
  }

  function Candidate(s: Span, l: nat, k: nat): Span {
    if k < MAX_TRUNCATION_TRIES then AttributeCandidate(s, l, k)
    else LogCandidate(AttributeCandidate(s, l, MAX_TRUNCATION_TRIES - 1), k + 1 - MAX_TRUNCATION_TRIES)
  }

  function MessageOf(s: Span, topic: string, bytes: string): Message {
    Message(topic, Some(s.traceId), Some(bytes), [])
  }

  predicate Marshals(c: Config, s: Span) { c.marshal(s).Ok? }

  predicate Fits(c: Config, topic: string, s: Span) {
    Marshals(c, s) && MessageSize(c, MessageOf(s, topic, c.marshal(s).value)) <= c.maxMessageBytes
  }

  datatype CureError = MarshalFailed(error: string) | SpanNotCured | LogsNotCured

  /** First fit over the candidates from k on: a marshal error ends the search, and so does the end of the ladder. */
  function FirstFit(c: Config, topic: string, s: Span, k: nat): Result<Message, CureError>
    requires k < LadderLength(s)
    decreases LadderLength(s) - k
  {
    var cand := Candidate(s, c.maxAttributeValueSize, k);
    if !Marshals(c, cand) then Err(MarshalFailed(c.marshal(cand).error))
    else if Fits(c, topic, cand) then Ok(MessageOf(cand, topic, c.marshal(cand).value))
    else if k + 1 < LadderLength(s) then FirstFit(c, topic, s, k + 1)
    else Err(if |s.logs| >= MIN_SPAN_LOGS then LogsNotCured else SpanNotCured)
  }

  /** The candidate at which that search stops. */
  function StopsAt(c: Config, topic: string, s: Span, k: nat): (j: nat)
    requires k < LadderLength(s)
    ensures k <= j < LadderLength(s)
    decreases LadderLength(s) - k
  {
    var cand := Candidate(s, c.maxAttributeValueSize, k);
    if !Marshals(c, cand) || Fits(c, topic, cand) || k + 1 == LadderLength(s) then k else StopsAt(c, topic, s, k + 1)
  }

  function Cured(c: Config, topic: string, s: Span): Result<Message, CureError> {
    FirstFit(c, topic, s, 0)
  }

  // ---------- cureSpan ----------

  lemma MoreMarkersSkip(seen: seq<string>, tags: seq<KeyValue>, limit: nat, a: nat, b: nat)
    requires a <= b <= |tags| && forall i | a <= i < b :: ValueLength(tags[i]) <= limit
    ensures MoreMarkers(seen, tags, limit, b) == MoreMarkers(seen, tags, limit, a)
  {
    if a < b { MoreMarkersSkip(seen, tags, limit, a, b - 1); }
  }

  lemma MoreMarkersStart(seen: seq<string>, tags: seq<KeyValue>, limit: nat)
    ensures MoreMarkers(seen, tags, limit, 0) == seen
  {}

  lemma MoreMarkersStep(seen: seq<string>, tags: seq<KeyValue>, limit: nat, i: nat)
    requires i < |tags| && ValueLength(tags[i]) > limit
    ensures var before, marker := MoreMarkers(seen, tags, limit, i), tags[i].key + TRUNCATION_TAG_SUFFIX;
      MoreMarkers(seen, tags, limit, i + 1) == if marker in before then before else before + [marker]
  {}

  /** The indices of the tags whose values exceed the limit. */
  method FindLongTags(span: SpanRef, limit: nat) returns (indices: seq<nat>)
    ensures forall k | 0 <= k < |indices| :: indices[k] < |span.tags| && ValueLength(span.tags[indices[k]]) > limit
    ensures forall k, l | 0 <= k < l < |indices| :: indices[k] < indices[l]
    ensures forall i | 0 <= i < |span.tags| && ValueLength(span.tags[i]) > limit :: i in indices
  {
    indices := [];
    for i := 0 to |span.tags|
      invariant forall k | 0 <= k < |indices| :: indices[k] < i && ValueLength(span.tags[indices[k]]) > limit
      invariant forall k, l | 0 <= k < l < |indices| :: indices[k] < indices[l]
      invariant forall j | 0 <= j < i && ValueLength(span.tags[j]) > limit :: j in indices
    {
      var kv := span.tags[i];
      if kv.vType == STRING {
        if |kv.vStr| > limit { indices := indices + [i]; }
      } else if kv.vType == BINARY {
        if |kv.vBinary| > limit { indices := indices + [i]; }
      }
    }
  }

  /** Truncates the long tags in place and collects the markers of keys not seen before. */
  method TruncateTags(span: SpanRef, limit: nat, seen: set<string>, ghost markers: seq<string>)
    returns (truncatedKeys: seq<string>, seen': set<string>)
    requires forall k :: k in seen <==> k in markers
    modifies span`tags
    ensures span.tags == TruncateAll(old(span.tags), limit)
    ensures markers + truncatedKeys == MoreMarkers(markers, old(span.tags), limit, |old(span.tags)|)
    ensures forall k :: k in seen' <==> k in markers + truncatedKeys
  {
    hide MoreMarkers, Truncated, ValueLength;
    var indices := FindLongTags(span, limit);
    MoreMarkersStart(markers, span.tags, limit);
    ghost var was, from := span.tags, 0;
    truncatedKeys, seen' := [], seen;
    for k := 0 to |indices|
      invariant from <= |was| == |span.tags|
      invariant from == if k == 0 then 0 else indices[k - 1] + 1
      invariant forall i | 0 <= i < |was| :: span.tags[i] == if i < from then Truncated(was[i], limit) else was[i]
      invariant markers + truncatedKeys == MoreMarkers(markers, was, limit, from)
      invariant forall m :: m in seen' <==> m in markers + truncatedKeys
    {
      var i := indices[k];
      assert from <= i;
      NoLongTagsBetween(was, limit, indices, k, from, i);
      MoreMarkersSkip(markers, was, limit, from, i);
      MoreMarkersStep(markers, was, limit, i);
      TruncatedLong(was[i], limit);
      var kv := span.tags[i];
      if kv.vType == STRING {
        kv := kv.(vStr := kv.vStr[..limit]);
      } else if kv.vType == BINARY {
        kv := kv.(vBinary := kv.vBinary[..limit]);
      }
      span.tags := span.tags[i := kv];
      var truncatedKey := kv.key + TRUNCATION_TAG_SUFFIX;
      if truncatedKey !in seen' {
        assert markers + (truncatedKeys + [truncatedKey]) == (markers + truncatedKeys) + [truncatedKey];
        truncatedKeys := truncatedKeys + [truncatedKey];
        seen' := seen' + {truncatedKey};
      }
      from := i + 1;
    }
    NoLongTagsBetween(was, limit, indices, |indices|, from, |was|);
    MoreMarkersSkip(markers, was, limit, from, |was|);
  }

  lemma TruncatedLong(kv: KeyValue, limit: nat)
    requires ValueLength(kv) > limit
    ensures kv.vType.STRING? ==> |kv.vStr| > limit && Truncated(kv, limit) == kv.(vStr := kv.vStr[..limit])
    ensures kv.vType.BINARY? ==> |kv.vBinary| > limit && Truncated(kv, limit) == kv.(vBinary := kv.vBinary[..limit])
    ensures kv.vType.STRING? || kv.vType.BINARY?
  {}

  lemma NoLongTagsBetween(tags: seq<KeyValue>, limit: nat, indices: seq<nat>, k: nat, from: nat, upto: nat)
    requires forall l, m | 0 <= l < m < |indices| :: indices[l] < indices[m]
    requires forall i | 0 <= i < |tags| && ValueLength(tags[i]) > limit :: i in indices
    requires k <= |indices| && from == (if k == 0 then 0 else indices[k - 1] + 1)
    requires upto <= |tags| && (k < |indices| ==> upto <= indices[k])
    ensures forall i | from <= i < upto :: ValueLength(tags[i]) <= limit && Truncated(tags[i], limit) == tags[i]
  {}

  /** The state at the start of try t. */
  function TagsBefore(tags: seq<KeyValue>, l: nat, t: nat): seq<KeyValue> {
    if t == 0 then tags else TruncateAll(tags, Limit(l, t - 1)) + MarkerTags(Markers(tags, l, t - 1))
  }

  function MarkersBefore(tags: seq<KeyValue>, l: nat, t: nat): seq<string> {
    if t == 0 then [] else Markers(tags, l, t - 1)
  }

  lemma {:induction false} MarkersContainLong(seen: seq<string>, tags: seq<KeyValue>, limit: nat, n: nat)
    requires n <= |tags|
    ensures forall k | k in seen :: k in MoreMarkers(seen, tags, limit, n)
    ensures forall i | 0 <= i < n && ValueLength(tags[i]) > limit ::
      tags[i].key + TRUNCATION_TAG_SUFFIX in MoreMarkers(seen, tags, limit, n)
  {
    if n > 0 { MarkersContainLong(seen, tags, limit, n - 1); }
  }

  /** Markers found on the tags as they stand are those of the original tags. */
  lemma {:induction false} MarkersFromCurrent(tags: seq<KeyValue>, l: nat, t: nat, n: nat)
    requires n <= |tags| <= |TagsBefore(tags, l, t)|
    ensures MoreMarkers(MarkersBefore(tags, l, t), TagsBefore(tags, l, t), Limit(l, t), n)
         == MoreMarkers(MarkersBefore(tags, l, t), tags, Limit(l, t), n)
  {
    hide Truncated, ValueLength, NextMarkers;
    if t > 0 && n > 0 {
      MarkersFromCurrent(tags, l, t, n - 1);
      TruncatedLength(tags[n - 1], Limit(l, t - 1));
      MarkersContainLong(MarkersBefore(tags, l, t - 1), tags, Limit(l, t - 1), |tags|);
      MarkersContainLong(MarkersBefore(tags, l, t), tags, Limit(l, t), n - 1);
      SameNextMarkers(MoreMarkers(MarkersBefore(tags, l, t), tags, Limit(l, t), n - 1), TagsBefore(tags, l, t)[n - 1],
                      tags[n - 1], Limit(l, t - 1), Limit(l, t));
    }
  }

  lemma SameNextMarkers(before: seq<string>, kv: KeyValue, original: KeyValue, was: nat, limit: nat)
    requires kv.key == original.key
    requires ValueLength(kv) == if ValueLength(original) > was then was else ValueLength(original)
    requires ValueLength(original) > was ==> original.key + TRUNCATION_TAG_SUFFIX in before
    ensures NextMarkers(before, kv, limit) == NextMarkers(before, original, limit)
  {}

  lemma TruncatedLength(kv: KeyValue, limit: nat)
    ensures Truncated(kv, limit).key == kv.key
    ensures ValueLength(Truncated(kv, limit)) == if ValueLength(kv) > limit then limit else ValueLength(kv)
  {}

  /** One try turns the tags before it into the candidate's. */
  lemma TryClosedForm(tags: seq<KeyValue>, l: nat, t: nat)
    ensures var now, seen := TagsBefore(tags, l, t), MarkersBefore(tags, l, t);
      && MoreMarkers(seen, now, Limit(l, t), |now|) == Markers(tags, l, t)
      && TruncateAll(now, Limit(l, t)) == TruncateAll(tags, Limit(l, t)) + MarkerTags(seen)
  {
    var now, seen, limit := TagsBefore(tags, l, t), MarkersBefore(tags, l, t), Limit(l, t);
    hide Truncated, ValueLength, MoreMarkers, Limit;
    forall m ensures ValueLength(MarkerTag(m)) == 0 && Truncated(MarkerTag(m), limit) == MarkerTag(m) {
      MarkersAreShort(m, limit);
    }
    MarkersFromCurrent(tags, l, t, |tags|);
    MoreMarkersSkip(seen, now, limit, |tags|, |now|);
    var p, q := TruncateAll(now, limit), TruncateAll(tags, limit) + MarkerTags(seen);
    forall i | 0 <= i < |now| ensures p[i] == q[i] {
      if t > 0 && i < |tags| {
        LimitHalves(l, t);
        TruncateTwice(tags[i], Limit(l, t - 1), limit);
      }
    }
  }

  lemma MarkersAreShort(m: string, limit: nat)
    ensures ValueLength(MarkerTag(m)) == 0 && Truncated(MarkerTag(m), limit) == MarkerTag(m)
  {}

  lemma LimitHalves(l: nat, t: nat)
    requires t > 0
    ensures Limit(l, t) <= Limit(l, t - 1)
  {}

  lemma TruncateTwice(kv: KeyValue, a: nat, b: nat)
    requires b <= a
    ensures Truncated(Truncated(kv, a), b) == Truncated(kv, b)
  {
    if |kv.vStr| > a { assert kv.vStr[..a][..b] == kv.vStr[..b]; }
    if |kv.vBinary| > a { assert kv.vBinary[..a][..b] == kv.vBinary[..b]; }
  }

  method AppendMarkers(span: SpanRef, keys: seq<string>)
    modifies span`tags
    ensures span.tags == old(span.tags) + MarkerTags(keys)
  {
    for i := 0 to |keys|
      invariant span.tags == old(span.tags) + MarkerTags(keys[..i])
    {
      assert MarkerTags(keys[..i + 1]) == MarkerTags(keys[..i]) + [MarkerTag(keys[i])];
      span.tags := span.tags + [MarkerTag(keys[i])];
    }
    assert keys[..|keys|] == keys;
  }

  /** Cures a span in place: the message of the first candidate that fits, else an error. */
  method CureSpan(c: Config, span: SpanRef, topic: string) returns (r: Result<Message, CureError>)
    modifies span`tags, span`logs
    ensures r == Cured(c, topic, old(span.Value()))
    ensures var s := old(span.Value()); span.Value() == Candidate(s, c.maxAttributeValueSize, StopsAt(c, topic, s, 0))
  {
    hide TruncateAll, MoreMarkers, Markers, MessageSize;
    ghost var s, l := span.Value(), c.maxAttributeValueSize;
    var attributeValueSize := c.maxAttributeValueSize;
    var truncatedKeysSoFar: set<string> := {};
    for truncationTry := 0 to MAX_TRUNCATION_TRIES
      invariant attributeValueSize == Limit(l, truncationTry)
      invariant forall k :: k in truncatedKeysSoFar <==> k in MarkersBefore(s.tags, l, truncationTry)
      invariant span.Value() == s.(tags := TagsBefore(s.tags, l, truncationTry))
      invariant truncationTry < LadderLength(s) ==>
        && FirstFit(c, topic, s, 0) == FirstFit(c, topic, s, truncationTry)
        && StopsAt(c, topic, s, 0) == StopsAt(c, topic, s, truncationTry)
      invariant truncationTry == LadderLength(s) ==>
        && FirstFit(c, topic, s, 0) == Err(SpanNotCured)
        && StopsAt(c, topic, s, 0) == truncationTry - 1
    {
      TryClosedForm(s.tags, l, truncationTry);
      ghost var seen := MarkersBefore(s.tags, l, truncationTry);
      var truncatedKeys;
      truncatedKeys, truncatedKeysSoFar := TruncateTags(span, attributeValueSize, truncatedKeysSoFar, seen);
      AppendMarkers(span, truncatedKeys);
      assert MarkerTags(seen) + MarkerTags(truncatedKeys) == MarkerTags(seen + truncatedKeys);
      assert span.Value() == Candidate(s, l, truncationTry);

      var bts := c.marshal(span.Value());
      if bts.Err? {
        return Err(MarshalFailed(bts.error));
      }
      var msg := MessageOf(span.Value(), topic, bts.value);
      var messageSize := ByteSize(c, msg);
      if messageSize <= c.maxMessageBytes {
        return Ok(msg);
      }
      attributeValueSize := attributeValueSize / 2;
    }
    if |span.logs| >= MIN_SPAN_LOGS {
      r := CureSpanLogs(c, span, topic, s);
      return;
    }
    return Err(SpanNotCured);
  }

  /** Drops every second log, pass by pass, until the message fits. */
  method CureSpanLogs(c: Config, span: SpanRef, topic: string, ghost s: Span) returns (r: Result<Message, CureError>)
    requires |s.logs| >= MIN_SPAN_LOGS
    requires span.Value() == AttributeCandidate(s, c.maxAttributeValueSize, MAX_TRUNCATION_TRIES - 1)
    modifies span`tags, span`logs
    ensures r == FirstFit(c, topic, s, MAX_TRUNCATION_TRIES)
    ensures span.Value() == Candidate(s, c.maxAttributeValueSize, StopsAt(c, topic, s, MAX_TRUNCATION_TRIES))
  {
    hide AttributeCandidate;
    ghost var cand := span.Value();
    var appendedTruncationTag := false;
    for truncationTry := 0 to MAX_TRUNCATION_TRIES
      invariant appendedTruncationTag == (truncationTry > 0)
      invariant span.Value() == if truncationTry == 0 then cand else LogCandidate(cand, truncationTry)
      invariant truncationTry < MAX_TRUNCATION_TRIES ==>
        && FirstFit(c, topic, s, MAX_TRUNCATION_TRIES) == FirstFit(c, topic, s, MAX_TRUNCATION_TRIES + truncationTry)
        && StopsAt(c, topic, s, MAX_TRUNCATION_TRIES) == StopsAt(c, topic, s, MAX_TRUNCATION_TRIES + truncationTry)
      invariant truncationTry == MAX_TRUNCATION_TRIES ==>
        && FirstFit(c, topic, s, MAX_TRUNCATION_TRIES) == Err(LogsNotCured)
        && StopsAt(c, topic, s, MAX_TRUNCATION_TRIES) == LadderLength(s) - 1
    {
      span.logs := CutSpanLogsByHalf(span.logs);
      if !appendedTruncationTag {
        span.tags := span.tags + [MarkerTag(SPAN_LOGS_TRUNCATION_TAG)];
        appendedTruncationTag := true;
      }
      assert Thinned(cand.logs, 0) == cand.logs;
      assert Thinned(cand.logs, truncationTry + 1) == EverySecond(Thinned(cand.logs, truncationTry));
      assert span.Value() == LogCandidate(cand, truncationTry + 1);
      assert span.Value() == Candidate(s, c.maxAttributeValueSize, MAX_TRUNCATION_TRIES + truncationTry);
      var bts := c.marshal(span.Value());
      if bts.Err? {
        return Err(MarshalFailed(bts.error));
      }
      var msg := MessageOf(span.Value(), topic, bts.value);
      var messageSize := ByteSize(c, msg);
      if messageSize <= c.maxMessageBytes {
        return Ok(msg);
      }
    }
    return Err(LogsNotCured);
  }

  /** The logs with an even index. */
  method CutSpanLogsByHalf(origArr: seq<Log>) returns (truncated: seq<Log>)
    ensures truncated == EverySecond(origArr)
  {
    var newSize := |origArr| / 2;
    if |origArr| % 2 != 0 {
      newSize := newSize + 1;
    }
    var truncatedSpanLogs := new Log[newSize];
    for i := 0 to newSize
      invariant forall j | 0 <= j < i :: truncatedSpanLogs[j] == origArr[2 * j]
    {
      truncatedSpanLogs[i] := origArr[i * 2];
    }
    truncated := truncatedSpanLogs[..];
  }
}
