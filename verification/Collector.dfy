/** collector.go: label lists of exported metrics and the target_info metrics. `norm` stands for NormalizeLabel. */
module Collector {
  import opened Sequences
  import opened Attributes
  import opened Resource

  // ---------- getMetricMetadata ----------

  function IdentityLabels(resource: Attrs): seq<(string, string)> {
    (if ExtractJob(resource).Some? then [(JOB_LABEL, ExtractJob(resource).value)] else [])
    + (if ExtractInstance(resource).Some? then [(INSTANCE_LABEL, ExtractInstance(resource).value)] else [])
  }

  /** The labels of an exported metric: the normalised attributes, then job and instance. */
  function LabelsOf(norm: string -> string, attrs: Attrs, resource: Attrs): seq<(string, string)> {
    seq(|attrs|, i requires 0 <= i < |attrs| => (norm(attrs[i].key), attrs[i].value.text)) + IdentityLabels(resource)
  }

  /** The service name, preceded by the namespace and a slash if there is one. */
  function JobText(resource: Attrs): string
    requires Has(resource, "service.name")
  {
    var name := Get(resource, "service.name").value.text;
    match Get(resource, "service.namespace")
    case Some(ns) => ns.text + "/" + name
    case None => name
  }

  method GetMetricMetadata(norm: string -> string, attrs: Attrs, resource: Attrs)
    returns (keys: seq<string>, values: seq<string>)
    ensures |keys| == |values| == |LabelsOf(norm, attrs, resource)|
    ensures forall i | 0 <= i < |keys| :: (keys[i], values[i]) == LabelsOf(norm, attrs, resource)[i]
    ensures |keys| == |attrs| + (if Has(resource, "service.name") then 1 else 0)
                              + (if Has(resource, "service.instance.id") then 1 else 0)
    ensures forall i | 0 <= i < |attrs| :: keys[i] == norm(attrs[i].key) && values[i] == attrs[i].value.text
    ensures Has(resource, "service.name") ==> keys[|attrs|] == "job" && values[|attrs|] == JobText(resource)
    ensures Has(resource, "service.instance.id") ==>
      keys[|keys| - 1] == "instance" && values[|keys| - 1] == Get(resource, "service.instance.id").value.text
  {
    keys, values := [], [];
    for i := 0 to |attrs|
      invariant |keys| == |values| == i
      invariant forall j | 0 <= j < i :: keys[j] == norm(attrs[j].key) && values[j] == attrs[j].value.text
    {
      keys := keys + [norm(attrs[i].key)];
      values := values + [attrs[i].value.text];
    }
    var job := ExtractJob(resource);
    if job.Some? {
      keys := keys + [JOB_LABEL];
      values := values + [job.value];
    }
    var inst := ExtractInstance(resource);
    if inst.Some? {
      keys := keys + [INSTANCE_LABEL];
      values := values + [inst.value];
    }
  }

  // ---------- createTargetInfoMetrics ----------

  /** Same job and instance. */
  predicate SameTarget(x: Attrs, y: Attrs) {
    ExtractJob(x) == ExtractJob(y) && ExtractInstance(x) == ExtractInstance(y)
  }

  predicate SeparatorFree(resources: seq<Attrs>) {
    forall i | 0 <= i < |resources| :: SEPARATOR !in OrEmpty(ExtractJob(resources[i]))
  }

  /** Resource n is the first of its target. */
  predicate IsNewTarget(resources: seq<Attrs>, n: nat)
    requires n < |resources|
  {
    Identified(resources[n]) && forall j | 0 <= j < n :: !SameTarget(resources[j], resources[n])
  }

  /** The first resource of every target that has both a job and an instance, in order, among the first n. */
  function Targets(resources: seq<Attrs>, n: nat): seq<Attrs>
    requires n <= |resources|
  {
    if n == 0 then []
    else Targets(resources, n - 1) + if IsNewTarget(resources, n - 1) then [resources[n - 1]] else []
  }

  predicate SignatureSeen(resources: seq<Attrs>, n: nat, sig: string)
    requires n <= |resources|
  {
    sig != "" && exists j :: 0 <= j < n && ResourceSignature(resources[j]) == sig
  }

  predicate IsNewSignature(resources: seq<Attrs>, n: nat)
    requires n < |resources|
  {
    var sig := ResourceSignature(resources[n]);
    sig != "" && !SignatureSeen(resources, n, sig)
  }

  /** The same by signature string, as the code does it. */
  function TargetsBySignature(resources: seq<Attrs>, n: nat): seq<Attrs>
    requires n <= |resources|
  {
    if n == 0 then []
    else TargetsBySignature(resources, n - 1) + if IsNewSignature(resources, n - 1) then [resources[n - 1]] else []
  }

  method DeduplicateTargets(resources: seq<Attrs>) returns (targets: seq<Attrs>)
    ensures targets == TargetsBySignature(resources, |resources|)
  {
    hide ResourceSignature;
    targets := [];
    var seen: set<string> := {};
    for i := 0 to |resources|
      invariant forall sig :: sig in seen <==> SignatureSeen(resources, i, sig)
      invariant targets == TargetsBySignature(resources, i)
    {
      var attrs := resources[i];
      var sig := ResourceSignature(attrs);
      if sig == "" {
        continue;
      }
      if sig !in seen {
        seen := seen + {sig};
        targets := targets + [attrs];
      }
    }
  }

  /** Different targets with the same signature string. */
  predicate ShareString(x: Attrs, y: Attrs) {
    Identified(x) && !SameTarget(x, y) && ResourceSignature(x) == ResourceSignature(y)
  }

  /** The job of x is that of y, a separator byte and some text, and the instance of y is that text, a separator byte
      and the instance of x. */
  predicate Shifts(x: Attrs, y: Attrs) {
    Identified(x) && Identified(y) &&
    var job, inst, job', inst' :=
      ExtractJob(x).value, ExtractInstance(x).value, ExtractJob(y).value, ExtractInstance(y).value;
    |job'| < |job| && job[..|job'|] == job' && job[|job'|] == SEPARATOR
    && inst' == job[|job'| + 1..] + [SEPARATOR] + inst
  }

  /** Two of the first n resources are different targets that only the place of a separator byte tells apart. */
  predicate Confused(resources: seq<Attrs>, n: nat)
    requires n <= |resources|
  {
    exists i, j :: 0 <= i < n && 0 <= j < n && Shifts(resources[i], resources[j])
  }

  lemma SplitLonger(a: string, b: string, c: string, d: string)
    requires |c| < |a|
    ensures a + [SEPARATOR] + b == c + [SEPARATOR] + d <==>
            a[..|c|] == c && a[|c|] == SEPARATOR && d == a[|c| + 1..] + [SEPARATOR] + b
  {
    var l, r := a + [SEPARATOR] + b, c + [SEPARATOR] + d;
    if l == r {
      assert a[..|c|] == l[..|c|] && r[..|c|] == c && r[|c|] == SEPARATOR == l[|c|];
      assert d == r[|c| + 1..] && l[|c| + 1..] == a[|c| + 1..] + [SEPARATOR] + b;
    }
    if a[..|c|] == c && a[|c|] == SEPARATOR && d == a[|c| + 1..] + [SEPARATOR] + b {
      assert a == c + [SEPARATOR] + a[|c| + 1..];
    }
  }

  lemma SplitEqual(a: string, b: string, c: string, d: string)
    requires |a| == |c| && a + [SEPARATOR] + b == c + [SEPARATOR] + d
    ensures a == c && b == d
  {
    var l, r := a + [SEPARATOR] + b, c + [SEPARATOR] + d;
    assert a == l[..|a|] && c == r[..|c|] && b == l[|a| + 1..] && d == r[|c| + 1..];
  }

  /** Different targets share a string exactly when one is the other with the separator shifted. */
  lemma ShareStringExactly(x: Attrs, y: Attrs)
    ensures ShareString(x, y) <==> Shifts(x, y) || Shifts(y, x)
  {
    hide ExtractJob, ExtractInstance;
    if Identified(x) && Identified(y) {
      var a, b, c, d := ExtractJob(x).value, ExtractInstance(x).value, ExtractJob(y).value, ExtractInstance(y).value;
      if |c| < |a| {
        SplitLonger(a, b, c, d);
      } else if |a| < |c| {
        SplitLonger(c, d, a, b);
      } else if ShareString(x, y) {
        SplitEqual(a, b, c, d);
      }
    }
  }

  lemma SignatureOfTarget(x: Attrs, y: Attrs)
    ensures ResourceSignature(x) == "" <==> !Identified(x)
    ensures SameTarget(x, y) ==> ResourceSignature(x) == ResourceSignature(y) && Identified(x) == Identified(y)
  {}

  lemma NewSignatureIsNewTarget(resources: seq<Attrs>, n: nat)
    requires n < |resources| && IsNewSignature(resources, n)
    ensures IsNewTarget(resources, n)
  {
    hide ResourceSignature, SameTarget, Identified;
    SignatureOfTarget(resources[n], resources[n]);
    forall j | 0 <= j < n ensures !SameTarget(resources[j], resources[n]) {
      SignatureOfTarget(resources[j], resources[n]);
    }
  }

  lemma {:induction false} FirstOfTarget(resources: seq<Attrs>, i: nat) returns (f: nat)
    requires i < |resources| && Identified(resources[i])
    ensures f <= i && IsNewTarget(resources, f) && SameTarget(resources[f], resources[i])
  {
    f := i;
    if j :| 0 <= j < i && SameTarget(resources[j], resources[i]) {
      f := FirstOfTarget(resources, j);
    }
  }

  /** Signatures miss a target at m. */
  predicate Missed(resources: seq<Attrs>, m: nat)
    requires m < |resources|
  {
    IsNewTarget(resources, m) && !IsNewSignature(resources, m)
  }

  lemma {:induction false} MissedShortens(resources: seq<Attrs>, n: nat)
    requires n <= |resources|
    ensures |TargetsBySignature(resources, n)| <= |Targets(resources, n)|
    ensures (exists m :: 0 <= m < n && Missed(resources, m)) <==>
            |TargetsBySignature(resources, n)| < |Targets(resources, n)|
    ensures !(exists m :: 0 <= m < n && Missed(resources, m)) ==>
            TargetsBySignature(resources, n) == Targets(resources, n)
  {
    hide IsNewSignature, IsNewTarget;
    if n > 0 {
      MissedShortens(resources, n - 1);
      assert Missed(resources, n - 1) || !Missed(resources, n - 1);
      if IsNewSignature(resources, n - 1) { NewSignatureIsNewTarget(resources, n - 1); }
    }
  }

  lemma ConfusedIffMissed(resources: seq<Attrs>, n: nat)
    requires n <= |resources|
    ensures Confused(resources, n) <==> exists m :: 0 <= m < n && Missed(resources, m)
  {
    hide ResourceSignature, SameTarget, Identified, Shifts;
    if i, j :| 0 <= i < n && 0 <= j < n && Shifts(resources[i], resources[j]) {
      ShareStringExactly(resources[i], resources[j]);
      SignatureOfTarget(resources[i], resources[i]);
      SignatureOfTarget(resources[j], resources[j]);
      var f := FirstOfTarget(resources, i);
      var g := FirstOfTarget(resources, j);
      SignatureOfTarget(resources[f], resources[i]);
      SignatureOfTarget(resources[g], resources[j]);
      SameTargetTransitive(resources[f], resources[i], resources[j]);
      assert Missed(resources, if f < g then g else f);
    }
    if m :| 0 <= m < n && Missed(resources, m) {
      SignatureOfTarget(resources[m], resources[m]);
      var j :| 0 <= j < m && ResourceSignature(resources[j]) == ResourceSignature(resources[m]);
      SignatureOfTarget(resources[j], resources[j]);
      ShareStringExactly(resources[j], resources[m]);
    }
  }

  lemma SameTargetTransitive(x: Attrs, y: Attrs, z: Attrs)
    ensures SameTarget(x, y) && SameTarget(x, z) ==> SameTarget(y, z)
  {}

  /** Deduplication by signature string finds the first resource of every target exactly when no two targets are told
      apart only by the place of a separator byte, and so whenever no job holds that byte. */
  lemma DeduplicationExact(resources: seq<Attrs>)
    ensures TargetsBySignature(resources, |resources|) == Targets(resources, |resources|) <==>
            !Confused(resources, |resources|)
    ensures SeparatorFree(resources) ==> !Confused(resources, |resources|)
  {
    MissedShortens(resources, |resources|);
    ConfusedIffMissed(resources, |resources|);
  }

  /** Such targets exist. */
  lemma ConfusedExample()
    ensures var x := [KV(SERVICE_NAME, Str(['a', SEPARATOR, 'b'])), KV(SERVICE_INSTANCE_ID, Str("c"))];
      var y := [KV(SERVICE_NAME, Str("a")), KV(SERVICE_INSTANCE_ID, Str(['b', SEPARATOR, 'c']))];
      Confused([x, y], 2) && !SameTarget(x, y) && ResourceSignature(x) == ResourceSignature(y)
  {
    var x := [KV(SERVICE_NAME, Str(['a', SEPARATOR, 'b'])), KV(SERVICE_INSTANCE_ID, Str("c"))];
    var y := [KV(SERVICE_NAME, Str("a")), KV(SERVICE_INSTANCE_ID, Str(['b', SEPARATOR, 'c']))];
    JobAndInstance(x);
    JobAndInstance(y);
    assert [x, y][0] == x && [x, y][1] == y && Shifts(x, y);
    ShareStringExactly(x, y);
  }

  lemma JobAndInstance(r: Attrs)
    requires |r| == 2 && r[0].key == SERVICE_NAME && r[1].key == SERVICE_INSTANCE_ID
    ensures ExtractJob(r) == Some(r[0].value.text) && ExtractInstance(r) == Some(r[1].value.text)
  {
    assert |SERVICE_NAME| == 12 && |SERVICE_INSTANCE_ID| == 19 && |SERVICE_NAMESPACE| == 17;
    GetAt(r, 0);
    GetAt(r, 1);
  }

  lemma {:induction false} TargetsAreResources(resources: seq<Attrs>, n: nat)
    requires n <= |resources|
    ensures forall i | 0 <= i < |Targets(resources, n)| ::
      Identified(Targets(resources, n)[i]) && exists j :: 0 <= j < n && resources[j] == Targets(resources, n)[i]
  {
    hide Identified, SameTarget;
    if n > 0 { TargetsAreResources(resources, n - 1); }
  }

  /** At most one target_info candidate per distinct (job, instance). */
  lemma {:induction false} TargetsAreDistinct(resources: seq<Attrs>, n: nat)
    requires n <= |resources|
    ensures forall i, j | 0 <= i < j < |Targets(resources, n)| ::
      !SameTarget(Targets(resources, n)[i], Targets(resources, n)[j])
  {
    hide Identified, SameTarget;
    if n > 0 {
      TargetsAreDistinct(resources, n - 1);
      TargetsAreResources(resources, n - 1);
    }
  }

  /** And one for every (job, instance) with both parts non-empty. */
  lemma {:induction false} TargetsCoverAll(resources: seq<Attrs>, n: nat, j: nat)
    requires j < n <= |resources| && Identified(resources[j])
    ensures exists t :: t in Targets(resources, n) && SameTarget(t, resources[j])
  {
    hide ExtractJob, ExtractInstance;
    if j < n - 1 {
      TargetsCoverAll(resources, n - 1, j);
      var t :| t in Targets(resources, n - 1) && SameTarget(t, resources[j]);
      assert t in Targets(resources, n);
    } else if IsNewTarget(resources, j) {
      assert resources[j] in Targets(resources, n) && SameTarget(resources[j], resources[j]);
    } else {
      var i :| 0 <= i < j && SameTarget(resources[i], resources[j]);
      SignatureOfTarget(resources[i], resources[j]);
      TargetsCoverAll(resources, n - 1, i);
      var t :| t in Targets(resources, n - 1) && SameTarget(t, resources[i]);
      assert t in Targets(resources, n) && SameTarget(t, resources[j]);
    }
  }

  predicate IdentityAttribute(key: string) {
    key == SERVICE_NAME || key == SERVICE_NAMESPACE || key == SERVICE_INSTANCE_ID
  }

  /** The values of the attributes that normalise to label q, joined by ';' in attribute order. */
  function JoinedValues(norm: string -> string, attrs: Attrs, q: string): Option<string> {
    if attrs == [] then None else
      var rest, kv := JoinedValues(norm, attrs[..|attrs| - 1], q), attrs[|attrs| - 1];
      if IdentityAttribute(kv.key) || norm(kv.key) != q then rest
      else Some(if rest.Some? then rest.value + ";" + kv.value.text else kv.value.text)
  }

  /** The attribute is shown under label q. */
  predicate ShownAs(norm: string -> string, kv: KV, q: string) {
    && norm(kv.key) == q
    && kv.key != "service.name" && kv.key != "service.namespace" && kv.key != "service.instance.id"
  }

  /** The texts of the attributes shown under label q, in order. */
  function TextsOf(norm: string -> string, attrs: Attrs, q: string): seq<string> {
    if attrs == [] then []
    else (if ShownAs(norm, attrs[0], q) then [attrs[0].value.text] else []) + TextsOf(norm, attrs[1..], q)
  }

  /** strings.Join with the separator ';'. */
  function JoinSemicolon(texts: seq<string>): string {
    if texts == [] then "" else if |texts| == 1 then texts[0] else texts[0] + ";" + JoinSemicolon(texts[1..])
  }

  lemma {:induction false} JoinSnoc(texts: seq<string>, text: string)
    requires texts != []
    ensures JoinSemicolon(texts + [text]) == JoinSemicolon(texts) + ";" + text
  {
    var all := texts + [text];
    if |texts| > 1 {
      assert all[1..] == texts[1..] + [text];
      JoinSnoc(texts[1..], text);
      assert texts[0] + ";" + (JoinSemicolon(texts[1..]) + ";" + text)
          == (texts[0] + ";" + JoinSemicolon(texts[1..])) + ";" + text;
    } else {
      assert all[1..] == [text];
    }
  }

  lemma {:induction false} TextsSnoc(norm: string -> string, attrs: Attrs, kv: KV, q: string)
    ensures TextsOf(norm, attrs + [kv], q)
         == TextsOf(norm, attrs, q) + if ShownAs(norm, kv, q) then [kv.value.text] else []
  {
    if attrs == [] {
      assert (attrs + [kv])[1..] == [];
    } else {
      assert (attrs + [kv])[1..] == attrs[1..] + [kv];
      TextsSnoc(norm, attrs[1..], kv, q);
    }
  }

  /** A label joins, by ';' and in order, the texts of all attributes that normalise to it, except the three that make
      up job and instance; it is absent if there is none. */
  lemma {:induction false} JoinedInOrder(norm: string -> string, attrs: Attrs, q: string)
    ensures var texts := TextsOf(norm, attrs, q);
      JoinedValues(norm, attrs, q) == if texts == [] then None else Some(JoinSemicolon(texts))
  {
    if attrs != [] {
      var init, kv := attrs[..|attrs| - 1], attrs[|attrs| - 1];
      assert attrs == init + [kv];
      var texts := TextsOf(norm, init, q);
      JoinedInOrder(norm, init, q);
      TextsSnoc(norm, init, kv, q);
      hide TextsOf;
      if ShownAs(norm, kv, q) {
        if texts == [] {
          assert texts + [kv.value.text] == [kv.value.text];
        } else {
          JoinSnoc(texts, kv.value.text);
        }
      } else {
        assert texts + [] == texts;
      }
    }
  }

  function TargetLabel(norm: string -> string, attrs: Attrs, q: string): Option<string> {
    if q == INSTANCE_LABEL && ExtractInstance(attrs).Some? then ExtractInstance(attrs)
    else if q == JOB_LABEL && ExtractJob(attrs).Some? then ExtractJob(attrs)
    else JoinedValues(norm, attrs, q)
  }

  /** The labels of one target_info metric. */
  method TargetLabels(norm: string -> string, attrs: Attrs) returns (labels: map<string, string>)
    ensures forall q :: (if q in labels then Some(labels[q]) else None) == TargetLabel(norm, attrs, q)
    ensures Has(attrs, "service.name") ==> "job" in labels && labels["job"] == JobText(attrs)
    ensures Has(attrs, "service.instance.id") ==>
      "instance" in labels && labels["instance"] == Get(attrs, "service.instance.id").value.text
    ensures forall q | (q == "job" ==> !Has(attrs, "service.name"))
                       && (q == "instance" ==> !Has(attrs, "service.instance.id")) ::
      var texts := TextsOf(norm, attrs, q);
      (if q in labels then Some(labels[q]) else None) == if texts == [] then None else Some(JoinSemicolon(texts))
  {
    labels := map[];
    for i := 0 to |attrs|
      invariant forall q :: (if q in labels then Some(labels[q]) else None) == JoinedValues(norm, attrs[..i], q)
    {
      var kv := attrs[i];
      assert attrs[..i + 1][..i] == attrs[..i];
      if !IdentityAttribute(kv.key) {
        var finalKey := norm(kv.key);
        if finalKey in labels {
          labels := labels[finalKey := labels[finalKey] + ";" + kv.value.text];
        } else {
          labels := labels[finalKey := kv.value.text];
        }
      }
    }
    assert attrs[..|attrs|] == attrs;
    var job := ExtractJob(attrs);
    if job.Some? {
      labels := labels[JOB_LABEL := job.value];
    }
    var inst := ExtractInstance(attrs);
    if inst.Some? {
      labels := labels[INSTANCE_LABEL := inst.value];
    }
    forall q ensures var texts := TextsOf(norm, attrs, q);
      JoinedValues(norm, attrs, q) == if texts == [] then None else Some(JoinSemicolon(texts))
    {
      JoinedInOrder(norm, attrs, q);
    }
  }

  /** One label set per candidate. */
  method CreateTargetInfo(norm: string -> string, resources: seq<Attrs>) returns (infos: seq<map<string, string>>)
    ensures var ts := TargetsBySignature(resources, |resources|);
      && |infos| == |ts|
      && forall i, q | 0 <= i < |infos| ::
           (if q in infos[i] then Some(infos[i][q]) else None) == TargetLabel(norm, ts[i], q)
  {
    var targets := DeduplicateTargets(resources);
    infos := [];
    for i := 0 to |targets|
      invariant |infos| == i
      invariant forall j, q | 0 <= j < i ::
        (if q in infos[j] then Some(infos[j][q]) else None) == TargetLabel(norm, targets[j], q)
    {
      var labels := TargetLabels(norm, targets[i]);
      infos := infos + [labels];
    }
  }
}
