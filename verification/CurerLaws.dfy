/** Laws of curing: first fit, the closed forms of truncation, markers and log thinning, and Marshal's accounting. */
module CurerLaws {
  import opened Sequences
  import opened Curer
  import opened Marshaler

  // ---------- Curing is a first-fit search ----------

  function CandidateOf(c: Config, s: Span, k: nat): Span {
    Candidate(s, c.maxAttributeValueSize, k)
  }

  /** Candidates 0 to k - 1 marshal but are too big. */
  predicate TooBigUpTo(c: Config, topic: string, s: Span, k: nat) {
    forall j | 0 <= j < k :: Marshals(c, CandidateOf(c, s, j)) && !Fits(c, topic, CandidateOf(c, s, j))
  }

  /** Candidate k is the first that fits. */
  predicate FitsFirst(c: Config, topic: string, s: Span, k: nat) {
    k < LadderLength(s) && TooBigUpTo(c, topic, s, k) && Fits(c, topic, CandidateOf(c, s, k))
  }

  /** Candidate k does not marshal, and all before it are too big. */
  predicate FailsFirst(c: Config, topic: string, s: Span, k: nat) {
    k < LadderLength(s) && TooBigUpTo(c, topic, s, k) && !Marshals(c, CandidateOf(c, s, k))
  }

  /** The candidate's bytes under the span's trace id. */
  function CandidateMessage(c: Config, topic: string, s: Span, k: nat): Message
    requires Marshals(c, CandidateOf(c, s, k))
  {
    Message(topic, Some(s.traceId), Some(c.marshal(CandidateOf(c, s, k)).value), [])
  }

  lemma CandidateKeepsIdentity(s: Span, l: nat, k: nat)
    ensures var q := Candidate(s, l, k); q.traceId == s.traceId && q.body == s.body && q.process == s.process
  {}

  lemma {:induction false} SearchStops(c: Config, topic: string, s: Span, k: nat)
    requires k < LadderLength(s) && TooBigUpTo(c, topic, s, k)
    ensures var j, r := StopsAt(c, topic, s, k), FirstFit(c, topic, s, k);
      if FitsFirst(c, topic, s, j) then r == Ok(CandidateMessage(c, topic, s, j))
      else if FailsFirst(c, topic, s, j) then r == Err(MarshalFailed(c.marshal(CandidateOf(c, s, j)).error))
      else
        && TooBigUpTo(c, topic, s, LadderLength(s)) && j + 1 == LadderLength(s)
        && r == Err(if |s.logs| >= MIN_SPAN_LOGS then LogsNotCured else SpanNotCured)
    decreases LadderLength(s) - k
  {
    hide Candidate, MessageSize;
    var cand := CandidateOf(c, s, k);
    CandidateKeepsIdentity(s, c.maxAttributeValueSize, k);
    if Marshals(c, cand) && !Fits(c, topic, cand) && k + 1 < LadderLength(s) {
      SearchStops(c, topic, s, k + 1);
    }
  }

  /** Curing returns the first candidate within the limit. It fails exactly when no candidate fits or a marshal error
      comes first. */
  lemma CuringIsFirstFit(c: Config, topic: string, s: Span, k: nat)
    ensures FitsFirst(c, topic, s, k) ==>
      Cured(c, topic, s) == Ok(CandidateMessage(c, topic, s, k))
    ensures FailsFirst(c, topic, s, k) ==>
      Cured(c, topic, s) == Err(MarshalFailed(c.marshal(CandidateOf(c, s, k)).error))
    ensures Cured(c, topic, s).Ok? <==> exists j :: FitsFirst(c, topic, s, j)
    ensures Cured(c, topic, s).Err? <==>
      TooBigUpTo(c, topic, s, LadderLength(s)) || exists j :: FailsFirst(c, topic, s, j)
    ensures LadderLength(s) == if |s.logs| >= 32 then 10 else 5
  {
    hide Candidate, MessageSize, FirstFit;
    SearchStops(c, topic, s, 0);
    var n := StopsAt(c, topic, s, 0);
    forall j | FitsFirst(c, topic, s, j) || FailsFirst(c, topic, s, j)
      ensures FitsFirst(c, topic, s, n) || FailsFirst(c, topic, s, n)
      ensures j == n
    {
      assert !TooBigUpTo(c, topic, s, LadderLength(s));
      assert j < n ==> !TooBigUpTo(c, topic, s, n);
      assert n < j ==> !TooBigUpTo(c, topic, s, j);
    }
  }

  lemma CuredFits(c: Config, topic: string, s: Span)
    ensures Cured(c, topic, s).Ok? ==> MessageSize(c, Cured(c, topic, s).value) <= c.maxMessageBytes
  {
    hide Candidate, MessageSize, FirstFit;
    SearchStops(c, topic, s, 0);
    CandidateKeepsIdentity(s, c.maxAttributeValueSize, StopsAt(c, topic, s, 0));
  }

  // ---------- Truncation ----------

  function Pow2(t: nat): (p: nat)
    ensures p >= 1
  {
    if t == 0 then 1 else 2 * Pow2(t - 1)
  }

  lemma Scale(a: int, b: int, p: int)
    requires a <= b && p >= 0
    ensures a * p <= b * p
  {}

  lemma Twice(h: int, p: int)
    ensures (2 * h) * p == h * (2 * p)
  {}

  lemma DivisionByBounds(n: nat, d: nat, q: nat)
    requires d > 0 && q * d <= n < (q + 1) * d
    ensures n / d == q
  {
    var r := n / d;
    assert r * d <= n < (r + 1) * d;
    if r < q { Scale(r + 1, q, d); }
    if q < r { Scale(q + 1, r, d); }
  }

  lemma {:induction false} LimitBounds(l: nat, t: nat)
    ensures Limit(l, t) * Pow2(t) <= l < (Limit(l, t) + 1) * Pow2(t)
  {
    if t > 0 {
      LimitBounds(l, t - 1);
      var q, h, p := Limit(l, t - 1), Limit(l, t), Pow2(t - 1);
      Scale(2 * h, q, p);
      Scale(q + 1, 2 * (h + 1), p);
      Twice(h, p);
      Twice(h + 1, p);
    }
  }

  function Quotient(n: nat, d: nat): nat
    requires d > 0
  {
    n / d
  }

  function HalvedLimit(l: nat, t: nat): nat {
    Quotient(l, Pow2(t))
  }

  /** The limit of try t is floor(l / 2^t). */
  lemma LimitIsQuotient(l: nat, t: nat)
    ensures Limit(l, t) == HalvedLimit(l, t)
  {
    LimitBounds(l, t);
    DivisionByBounds(l, Pow2(t), Limit(l, t));
  }

  function Text(kv: KeyValue): string {
    match kv.vType
    case STRING => kv.vStr
    case BINARY => kv.vBinary
    case _ => ""
  }

  function Min(a: nat, b: nat): nat { if a < b then a else b }

  /** After try t the original tags come first, in order; a string or binary value is its original prefix of length
      min(original, floor(l / 2^t)), and any other tag is unchanged. */
  lemma TruncationClosedForm(s: Span, l: nat, t: nat, i: nat)
    requires i < |s.tags|
    ensures t < 5 ==> Candidate(s, l, t) == AttributeCandidate(s, l, t)
    ensures var p, q := s.tags[i], AttributeCandidate(s, l, t).tags[i];
      && q.key == p.key && q.vType == p.vType
      && Text(q) == Text(p)[..Min(|Text(p)|, HalvedLimit(l, t))]
      && (!p.vType.STRING? && !p.vType.BINARY? ==> q == p)
  {
    LimitIsQuotient(l, t);
  }

  // ---------- Markers ----------

  /** Some tag keyed `key` has a value longer than the limit. */
  ghost predicate LongKey(tags: seq<KeyValue>, key: string, limit: nat) {
    exists i :: 0 <= i < |tags| && tags[i].key == key && ValueLength(tags[i]) > limit
  }

  lemma SuffixCancels(a: string, b: string)
    requires a + TRUNCATION_TAG_SUFFIX == b + TRUNCATION_TAG_SUFFIX
    ensures a == b
  {
    var l, r := a + TRUNCATION_TAG_SUFFIX, b + TRUNCATION_TAG_SUFFIX;
    assert |l| == |r|;
    assert l[..|a|] == a && r[..|b|] == b;
  }

  lemma {:induction false} MoreMarkersExact(seen: seq<string>, tags: seq<KeyValue>, limit: nat, n: nat, m: string)
    requires n <= |tags| && NoDuplicates(seen)
    ensures NoDuplicates(MoreMarkers(seen, tags, limit, n))
    ensures m in MoreMarkers(seen, tags, limit, n) <==>
      m in seen || exists i :: 0 <= i < n && ValueLength(tags[i]) > limit && m == tags[i].key + TRUNCATION_TAG_SUFFIX
  {
    if n > 0 { MoreMarkersExact(seen, tags, limit, n - 1, m); }
  }

  lemma {:induction false} MarkersSound(tags: seq<KeyValue>, l: nat, t: nat, m: string)
    ensures NoDuplicates(Markers(tags, l, t))
    ensures m in Markers(tags, l, t) <==>
      exists i :: 0 <= i < |tags| && ValueLength(tags[i]) > Limit(l, t) && m == tags[i].key + TRUNCATION_TAG_SUFFIX
  {
    if t > 0 {
      MarkersSound(tags, l, t - 1, m);
      assert Limit(l, t) <= Limit(l, t - 1);
    }
    MoreMarkersExact(if t == 0 then [] else Markers(tags, l, t - 1), tags, Limit(l, t), |tags|, m);
  }

  /** A boolean tag with this key and the value true. */
  predicate IsMarker(kv: KeyValue, key: string) {
    kv.key == key && kv.vType == BOOL && kv.vBool
  }

  /** The truncation marker of `key` stands behind the first n tags. */
  predicate HasMarker(tags: seq<KeyValue>, n: nat, key: string) {
    exists i :: n <= i < |tags| && IsMarker(tags[i], key + ".htcollector.truncated")
  }

  /** The tag is the truncation marker of some long key. */
  ghost predicate MarksLongKey(kv: KeyValue, tags: seq<KeyValue>, limit: nat) {
    exists k :: IsMarker(kv, k + ".htcollector.truncated") && LongKey(tags, k, limit)
  }

  lemma MarkerMarks(tags: seq<KeyValue>, l: nat, t: nat, m: string)
    requires m in Markers(tags, l, t)
    ensures MarksLongKey(MarkerTag(m), tags, Limit(l, t))
  {
    MarkersSound(tags, l, t, m);
    var j :| 0 <= j < |tags| && ValueLength(tags[j]) > Limit(l, t) && m == tags[j].key + TRUNCATION_TAG_SUFFIX;
    assert LongKey(tags, tags[j].key, Limit(l, t));
  }

  lemma MarkerOfLongKey(tags: seq<KeyValue>, l: nat, t: nat, key: string)
    ensures key + TRUNCATION_TAG_SUFFIX in Markers(tags, l, t) <==> LongKey(tags, key, Limit(l, t))
  {
    MarkersSound(tags, l, t, key + TRUNCATION_TAG_SUFFIX);
    if key + TRUNCATION_TAG_SUFFIX in Markers(tags, l, t) {
      var j :| 0 <= j < |tags| && ValueLength(tags[j]) > Limit(l, t)
        && key + TRUNCATION_TAG_SUFFIX == tags[j].key + TRUNCATION_TAG_SUFFIX;
      SuffixCancels(key, tags[j].key);
    }
  }

  /** After try t, behind the original tags, stands exactly one marker for each distinct key that has a value longer
      than floor(l / 2^t), and nothing else. */
  lemma MarkersExact(s: Span, l: nat, t: nat, key: string)
    requires t < 5
    ensures var q, n := Candidate(s, l, t).tags, |s.tags|;
      && |q| >= n
      && (forall i, j | n <= i < j < |q| :: q[i].key != q[j].key)
      && (HasMarker(q, n, key) <==> LongKey(s.tags, key, HalvedLimit(l, t)))
      && (forall i | n <= i < |q| :: MarksLongKey(q[i], s.tags, HalvedLimit(l, t)))
  {
    hide HalvedLimit, Markers, Truncated, LongKey, MarksLongKey;
    LimitIsQuotient(l, t);
    var ms, q, n := Markers(s.tags, l, t), Candidate(s, l, t).tags, |s.tags|;
    assert |q| == n + |ms| && forall i | 0 <= i < |ms| :: q[n + i] == MarkerTag(ms[i]);
    forall i | n <= i < |q| ensures q[i] == MarkerTag(ms[i - n]) && MarksLongKey(q[i], s.tags, HalvedLimit(l, t)) {
      assert q[n + (i - n)] == MarkerTag(ms[i - n]);
      MarkerMarks(s.tags, l, t, ms[i - n]);
    }
    MarkersSound(s.tags, l, t, "");
    MarkerOfLongKey(s.tags, l, t, key);
    if LongKey(s.tags, key, HalvedLimit(l, t)) {
      var i :| 0 <= i < |ms| && ms[i] == key + TRUNCATION_TAG_SUFFIX;
      assert IsMarker(q[n + i], key + TRUNCATION_TAG_SUFFIX);
    }
    if i :| n <= i < |q| && IsMarker(q[i], key + ".htcollector.truncated") {
      assert ms[i - n] in ms;
    }
  }

  // ---------- Log thinning ----------

  lemma {:induction false} ThinnedBounds(logs: seq<Log>, t: nat)
    requires logs != []
    ensures |Thinned(logs, t)| >= 1
    ensures (|Thinned(logs, t)| - 1) * Pow2(t) < |logs| <= |Thinned(logs, t)| * Pow2(t)
  {
    if t > 0 {
      ThinnedBounds(logs, t - 1);
      var m, h, p := |Thinned(logs, t - 1)|, |Thinned(logs, t)|, Pow2(t - 1);
      assert h == (m + 1) / 2;
      Scale(2 * (h - 1), m - 1, p);
      Scale(m, 2 * h, p);
      Twice(h - 1, p);
      Twice(h, p);
    }
  }

  lemma {:induction false} ThinnedAt(logs: seq<Log>, t: nat, i: nat)
    requires i < |Thinned(logs, t)|
    ensures i * Pow2(t) < |logs| && Thinned(logs, t)[i] == logs[i * Pow2(t)]
  {
    if t > 0 {
      ThinnedAt(logs, t - 1, 2 * i);
      Twice(i, Pow2(t - 1));
    }
  }

  function CeilQuotient(n: nat, d: nat): nat
    requires d > 0
  {
    (n + d - 1) / d
  }

  lemma CeilByBounds(n: nat, d: nat, m: nat)
    requires d > 0 && if n == 0 then m == 0 else m >= 1 && (m - 1) * d < n <= m * d
    ensures CeilQuotient(n, d) == m
  {
    assert (m - 1) * d == m * d - d && (m + 1) * d == m * d + d;
    DivisionByBounds(n + d - 1, d, m);
  }

  /** After t passes there are ceil(n / 2^t) logs, and log i is the original log i * 2^t. */
  lemma ThinnedClosedForm(logs: seq<Log>, t: nat, i: nat)
    ensures |Thinned(logs, t)| == CeilQuotient(|logs|, Pow2(t))
    ensures i < |Thinned(logs, t)| ==> i * Pow2(t) < |logs| && Thinned(logs, t)[i] == logs[i * Pow2(t)]
  {
    hide CeilQuotient;
    if logs == [] {
      ThinnedEmpty(logs, t);
    } else {
      ThinnedBounds(logs, t);
    }
    CeilByBounds(|logs|, Pow2(t), |Thinned(logs, t)|);
    if i < |Thinned(logs, t)| { ThinnedAt(logs, t, i); }
  }

  lemma {:induction false} ThinnedEmpty(logs: seq<Log>, t: nat)
    requires logs == []
    ensures Thinned(logs, t) == []
  {
    if t > 0 { ThinnedEmpty(logs, t - 1); }
  }

  /** With the 32 logs that thinning asks for, each of the five passes strictly shrinks the list and the first log
      survives them all. */
  lemma EachPassShrinks(logs: seq<Log>, t: nat)
    requires |logs| >= MIN_SPAN_LOGS && t < MAX_TRUNCATION_TRIES
    ensures 1 <= |Thinned(logs, t + 1)| < |Thinned(logs, t)| && Thinned(logs, t + 1)[0] == logs[0]
  {
    ThinnedBounds(logs, t);
    ThinnedBounds(logs, t + 1);
    ThinnedAt(logs, t + 1, 0);
    Pow2Small(t);
    var m, p := |Thinned(logs, t)|, Pow2(t);
    assert m > 1 by {
      if m <= 1 { Scale(m, 1, p); }
    }
  }

  /** Log i is the original log i * p. */
  predicate EveryNth(logs: seq<Log>, original: seq<Log>, p: nat) {
    forall i | 0 <= i < |logs| :: i * p < |original| && logs[i] == original[i * p]
  }

  lemma ThinnedEvery(logs: seq<Log>, t: nat)
    ensures EveryNth(Thinned(logs, t), logs, Pow2(t))
  {
    var p := Pow2(t);
    forall i | 0 <= i < |Thinned(logs, t)| ensures i * p < |logs| && Thinned(logs, t)[i] == logs[i * p] {
      ThinnedAt(logs, t, i);
    }
  }

  /** The candidates of the log passes: the tags of the last attribute try and exactly one more, the log marker, and
      ceil(n / 2^(u + 1)) logs; everything else is untouched. */
  lemma LogCandidateClosedForm(s: Span, l: nat, u: nat)
    requires u < 5
    ensures var q, before := Candidate(s, l, 5 + u), Candidate(s, l, 4);
      && |q.tags| == |before.tags| + 1 && q.tags[..|before.tags|] == before.tags
      && IsMarker(q.tags[|before.tags|], "htcollector.spanlogstruncated")
      && |q.logs| == CeilQuotient(|s.logs|, Pow2(u + 1))
      && EveryNth(q.logs, s.logs, Pow2(u + 1))
      && q.traceId == s.traceId && q.body == s.body && q.process == s.process
  {
    hide AttributeCandidate, CeilQuotient, Thinned;
    ThinnedClosedForm(s.logs, u + 1, 0);
    assert AttributeCandidate(s, l, 4).logs == s.logs by { CandidateKeepsLogs(s, l, 4); }
    CandidateKeepsIdentity(s, l, 5 + u);
    assert Candidate(s, l, 5 + u).logs == Thinned(s.logs, u + 1);
    ThinnedEvery(s.logs, u + 1);
  }

  lemma CandidateKeepsLogs(s: Span, l: nat, t: nat)
    ensures AttributeCandidate(s, l, t).logs == s.logs
  {}

  lemma Pow2Small(t: nat)
    requires t < MAX_TRUNCATION_TRIES
    ensures Pow2(t) <= 16
  {
    assert Pow2(0) == 1 && Pow2(1) == 2 && Pow2(2) == 4 && Pow2(3) == 8 && Pow2(4) == 16;
  }

  // ---------- The size of a message ----------

  /** The size of an empty message, and what each part adds to it: record batches count 36 bytes and 10 per header,
      older formats 26 bytes and no headers. */
  lemma SizeOfParts(c: Config, m: Message, text: string, name: string, value: string)
    ensures MessageSize(c, Message(m.topic, None, None, [])) == if c.recordBatches then 36 else 26
    ensures m.key.None? ==> MessageSize(c, m.(key := Some(text))) == MessageSize(c, m) + |text|
    ensures m.value.None? ==> MessageSize(c, m.(value := Some(text))) == MessageSize(c, m) + |text|
    ensures MessageSize(c, m.(headers := m.headers + [(name, value)])) ==
      MessageSize(c, m) + if c.recordBatches then |name| + |value| + 10 else 0
  {
    assert (m.headers + [(name, value)])[..|m.headers|] == m.headers;
  }

  /** A span fits if its trace id, its bytes and the overhead are within the limit together. */
  lemma FitsExactly(c: Config, topic: string, s: Span)
    ensures Fits(c, topic, s) <==>
      c.marshal(s).Ok?
      && |s.traceId| + |c.marshal(s).value| + (if c.recordBatches then 36 else 26) <= c.maxMessageBytes
  {}

  // ---------- Marshal keeps order and accounts for every span ----------

  /** Without dropSpans every span that marshals is sent; with it, those that cannot be cured are missing. */
  predicate Kept(c: Config, topic: string, s: Span) {
    Marshals(c, s) && (!c.dropSpans || Fits(c, topic, s) || Cured(c, topic, s).Ok?)
  }

  function KeptSpans(c: Config, topic: string, ss: seq<Span>): seq<Span> {
    if ss == [] then [] else
      KeptSpans(c, topic, ss[..|ss| - 1]) + if Kept(c, topic, ss[|ss| - 1]) then [ss[|ss| - 1]] else []
  }

  /** The message of a kept span: its own bytes, or those of its cured form; oversize only if curing failed, and then
      with the original bytes. */
  ghost predicate MessageFor(c: Config, topic: string, s: Span, m: Message) {
    && Marshals(c, s) && m.topic == topic && m.key == Some(s.traceId) && m.value.Some? && m.headers == []
    && (MessageSize(c, m) > c.maxMessageBytes ==>
          !c.dropSpans && Cured(c, topic, s).Err? && m.value == Some(c.marshal(s).value))
    && (Fits(c, topic, s) ==> m.value == Some(c.marshal(s).value))
    && (!Fits(c, topic, s) && Cured(c, topic, s).Ok? ==> m == Cured(c, topic, s).value)
  }

  lemma SentFor(c: Config, topic: string, s: Span)
    ensures Sent(c, topic, s).Some? <==> Kept(c, topic, s)
    ensures Sent(c, topic, s).Some? ==> MessageFor(c, topic, s, Sent(c, topic, s).value)
  {
    hide FirstFit, Candidate, HeaderBytes;
    SearchStops(c, topic, s, 0);
    CuredFits(c, topic, s);
    CandidateKeepsIdentity(s, c.maxAttributeValueSize, StopsAt(c, topic, s, 0));
  }

  /** Messages stand in one-to-one order with the kept spans. */
  lemma {:induction false} MessagesAccount(c: Config, topic: string, ss: seq<Span>)
    ensures |Messages(c, topic, ss)| == |KeptSpans(c, topic, ss)|
    ensures forall i | 0 <= i < |Messages(c, topic, ss)| ::
      MessageFor(c, topic, KeptSpans(c, topic, ss)[i], Messages(c, topic, ss)[i])
  {
    hide Sent, Kept, MessageFor;
    if ss != [] {
      MessagesAccount(c, topic, ss[..|ss| - 1]);
      SentFor(c, topic, ss[|ss| - 1]);
    }
  }

  /** With dropSpans every message respects the limit: key, value and overhead together. */
  lemma DroppingBoundsSize(c: Config, topic: string, ss: seq<Span>)
    requires c.dropSpans
    ensures forall m | m in Messages(c, topic, ss) ::
      && MessageSize(c, m) <= c.maxMessageBytes
      && m.key.Some? && m.value.Some?
      && |m.key.value| + |m.value.value| + (if c.recordBatches then 36 else 26) <= c.maxMessageBytes
  {
    hide Messages, KeptSpans, Cured, Fits;
    MessagesAccount(c, topic, ss);
    forall m | m in Messages(c, topic, ss)
      ensures MessageSize(c, m) <= c.maxMessageBytes && m.key.Some? && m.value.Some?
      ensures |m.key.value| + |m.value.value| + (if c.recordBatches then 36 else 26) <= c.maxMessageBytes
    {
      var i :| 0 <= i < |Messages(c, topic, ss)| && Messages(c, topic, ss)[i] == m;
      assert MessageFor(c, topic, KeptSpans(c, topic, ss)[i], m);
    }
  }

  /** Without dropSpans there is one message or one error per span. */
  lemma {:induction false} NothingLost(c: Config, topic: string, ss: seq<Span>)
    requires !c.dropSpans
    ensures |Messages(c, topic, ss)| + |Errors(c, ss)| == |ss|
  {
    hide Cured;
    if ss != [] { NothingLost(c, topic, ss[..|ss| - 1]); }
  }

  function Failing(c: Config, ss: seq<Span>): seq<Span> {
    if ss == [] then [] else
      Failing(c, ss[..|ss| - 1]) + if c.marshal(ss[|ss| - 1]).Err? then [ss[|ss| - 1]] else []
  }

  /** The errors are those of the spans that do not marshal, in order. */
  lemma {:induction false} ErrorsAccount(c: Config, ss: seq<Span>)
    ensures |Errors(c, ss)| == |Failing(c, ss)|
    ensures forall i | 0 <= i < |Errors(c, ss)| ::
      c.marshal(Failing(c, ss)[i]).Err? && Errors(c, ss)[i] == c.marshal(Failing(c, ss)[i]).error
  {
    if ss != [] { ErrorsAccount(c, ss[..|ss| - 1]); }
  }

  lemma FittingIsSent(c: Config, topic: string, s: Span)
    requires Fits(c, topic, s)
    ensures c.marshal(s).Ok? && MarshalError(c, s) == None
    ensures Sent(c, topic, s) == Some(Message(topic, Some(s.traceId), Some(c.marshal(s).value), []))
  {
    hide MessageSize, Cured;
  }

  /** If every span fits as it is, each is sent with its own bytes, in order and without errors. */
  lemma {:induction false} AllFit(c: Config, topic: string, ss: seq<Span>)
    requires forall s | s in ss :: Fits(c, topic, s)
    ensures |Messages(c, topic, ss)| == |ss| && Errors(c, ss) == []
    ensures forall i | 0 <= i < |ss| ::
      && c.marshal(ss[i]).Ok?
      && Messages(c, topic, ss)[i] == Message(topic, Some(ss[i].traceId), Some(c.marshal(ss[i]).value), [])
  {
    hide Fits, Sent, MarshalError;
    if ss != [] {
      AllFit(c, topic, ss[..|ss| - 1]);
      assert ss[|ss| - 1] in ss;
      FittingIsSent(c, topic, ss[|ss| - 1]);
    }
  }

  /** A span that fits or does not marshal is left alone. Any other is left as the candidate at which curing stops: the
      first that fits, the first that does not marshal, or the last; if it is cured, the message sent carries the bytes
      of the span as it is left. */
  lemma LeftIsSent(c: Config, topic: string, s: Span)
    ensures var q := Left(c, topic, s);
      && q == s.(tags := q.tags, logs := q.logs)
      && (Fits(c, topic, s) || c.marshal(s).Err? ==> q == s)
      && (!Fits(c, topic, s) && c.marshal(s).Ok? ==>
            exists j :: StopsThere(c, topic, s, j) && q == CandidateOf(c, s, j))
      && (!Fits(c, topic, s) && c.marshal(s).Ok? && Cured(c, topic, s).Ok? ==>
            && c.marshal(q).Ok?
            && Sent(c, topic, s) == Some(Message(topic, Some(s.traceId), Some(c.marshal(q).value), [])))
  {
    hide FirstFit, Candidate, MessageSize;
    SearchStops(c, topic, s, 0);
    CandidateKeepsIdentity(s, c.maxAttributeValueSize, StopsAt(c, topic, s, 0));
    assert StopsThere(c, topic, s, StopsAt(c, topic, s, 0));
  }

  /** Candidate j is where curing stops. */
  predicate StopsThere(c: Config, topic: string, s: Span, j: nat) {
    || FitsFirst(c, topic, s, j) || FailsFirst(c, topic, s, j)
    || (j + 1 == LadderLength(s) && TooBigUpTo(c, topic, s, LadderLength(s)))
  }
}
