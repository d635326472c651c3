/** Attribute maps: ordered key-value lists looked up by first match, as pcommon.Map stores them.
    A `string` is a sequence of bytes, one `char` per byte. */
module Attributes {
  import opened Sequences

  /** A string value, or a value of another type with its AsString rendering. */
  datatype Value = Str(text: string) | NonStr(text: string)

  datatype KV = KV(key: string, value: Value)

  type Attrs = seq<KV>

  /** Index of the first pair with key k, or -1. */
  function Find(a: Attrs, k: string): (i: int)
    ensures -1 <= i < |a|
    ensures i >= 0 ==> a[i].key == k && forall j | 0 <= j < i :: a[j].key != k
    ensures i == -1 ==> forall j | 0 <= j < |a| :: a[j].key != k
  {
    if a == [] then -1 else
      var i := Find(a[..|a| - 1], k);
      if i >= 0 then i else if a[|a| - 1].key == k then |a| - 1 else -1
  }

  predicate Has(a: Attrs, k: string) { Find(a, k) >= 0 }

  function Get(a: Attrs, k: string): Option<Value> {
    var i := Find(a, k);
    if i >= 0 then Some(a[i].value) else None
  }

  /** Overwrites the first pair with key k in place, or appends one. */
  function Put(a: Attrs, k: string, v: Value): Attrs {
    var i := Find(a, k);
    if i >= 0 then a[i := KV(k, v)] else a + [KV(k, v)]
  }

  /** Removes the first pair with key k; as in pcommon.Map, the last pair moves into the hole. */
  function Remove(a: Attrs, k: string): Attrs {
    var i := Find(a, k);
    if i >= 0 then a[i := a[|a| - 1]][..|a| - 1] else a
  }

  ghost predicate UniqueKeys(a: Attrs) {
    forall i, j | 0 <= i < j < |a| :: a[i].key != a[j].key
  }

  lemma GetAt(a: Attrs, i: nat)
    requires UniqueKeys(a) && i < |a|
    ensures Find(a, a[i].key) == i
  {}

  lemma GetAfterPut(a: Attrs, k: string, v: Value, q: string)
    ensures Get(Put(a, k, v), q) == if q == k then Some(v) else Get(a, q)
    ensures UniqueKeys(a) ==> UniqueKeys(Put(a, k, v))
  {
    var i, j, b := Find(a, k), Find(a, q), Put(a, k, v);
    if q == k {
      assert b[if i >= 0 then i else |a|].key == k;
    } else if j >= 0 {
      assert b[j] == a[j];
      assert b[Find(b, q)] == a[Find(b, q)];
    }
  }

  lemma GetAfterRemove(a: Attrs, k: string, q: string)
    requires UniqueKeys(a)
    ensures Get(Remove(a, k), q) == if q == k then None else Get(a, q)
    ensures UniqueKeys(Remove(a, k))
    ensures !Has(a, k) ==> Remove(a, k) == a
  {
    var i, j, b := Find(a, k), Find(a, q), Remove(a, k);
    if i >= 0 {
      forall m | 0 <= m < |b| ensures b[m] == a[if m == i then |a| - 1 else m] {}
      if q != k && j >= 0 {
        var m := if j == |a| - 1 then i else j;
        assert b[m] == a[j];
        GetAt(b, m);
      }
    }
  }
}

/** exporter/prometheusexporter/utils.go: the job and instance identity of a resource. */
module Resource {
  import opened Sequences
  import opened Attributes

  const SERVICE_NAME := "service.name"
  const SERVICE_NAMESPACE := "service.namespace"
  const SERVICE_INSTANCE_ID := "service.instance.id"
  const JOB_LABEL := "job"
  const INSTANCE_LABEL := "instance"
  const SEPARATOR: char := 255 as char

  function ExtractInstance(resource: Attrs): Option<string> {
    match Get(resource, SERVICE_INSTANCE_ID)
    case Some(v) => Some(v.text)
    case None => None
  }

  function ExtractJob(resource: Attrs): Option<string> {
    match Get(resource, SERVICE_NAME)
    case Some(name) =>
      (match Get(resource, SERVICE_NAMESPACE)
       case Some(ns) => Some(ns.text + "/" + name.text)
       case None => Some(name.text))
    case None => None
  }

  function OrEmpty(o: Option<string>): string {
    if o.Some? then o.value else ""
  }

  function ResourceSignature(resource: Attrs): string {
    var job, inst := OrEmpty(ExtractJob(resource)), OrEmpty(ExtractInstance(resource));
    if job == "" || inst == "" then "" else job + [SEPARATOR] + inst
  }

  /** Both parts of the identity are present and non-empty. */
  predicate Identified(resource: Attrs) {
    OrEmpty(ExtractJob(resource)) != "" && OrEmpty(ExtractInstance(resource)) != ""
  }

  lemma SplitAtSeparator(a: string, b: string, c: string, d: string)
    requires SEPARATOR !in a && SEPARATOR !in c
    requires a + [SEPARATOR] + b == c + [SEPARATOR] + d
    ensures a == c && b == d
  {
    var l, r := a + [SEPARATOR] + b, c + [SEPARATOR] + d;
    assert l[|a|] == SEPARATOR && forall i | 0 <= i < |a| :: l[i] == a[i];
    assert r[|c|] == SEPARATOR && forall i | 0 <= i < |c| :: r[i] == c[i];
    assert l[..|a|] == a && r[..|c|] == c;
    assert l[|a| + 1..] == b && r[|c| + 1..] == d;
  }

  /** Two resources share a signature exactly when both are unidentified or they agree on job and instance,
      provided no job contains the separator byte. */
  lemma ResourceSignatureInjective(x: Attrs, y: Attrs)
    requires SEPARATOR !in OrEmpty(ExtractJob(x)) && SEPARATOR !in OrEmpty(ExtractJob(y))
    ensures ResourceSignature(x) == "" <==> !Identified(x)
    ensures ResourceSignature(x) == ResourceSignature(y) <==>
            (!Identified(x) && !Identified(y)) ||
            (Identified(x) && Identified(y) &&
             ExtractJob(x) == ExtractJob(y) && ExtractInstance(x) == ExtractInstance(y))
  {
    if Identified(x) && Identified(y) && ResourceSignature(x) == ResourceSignature(y) {
      SplitAtSeparator(ExtractJob(x).value, ExtractInstance(x).value, ExtractJob(y).value, ExtractInstance(y).value);
    }
  }

  /** The signature string of an identified resource: job, byte 255 and instance, where the job of a service in a
      namespace is "namespace/name". */
  lemma ResourceSignatureText(name: string, ns: string, inst: string)
    requires name != "" && inst != ""
    ensures var r := [KV("service.name", Str(name)), KV("service.instance.id", Str(inst))];
      && ResourceSignature(r) == name + [255 as char] + inst
      && ResourceSignature(r + [KV("service.namespace", Str(ns))]) == ns + "/" + name + [255 as char] + inst
  {
    var r := [KV("service.name", Str(name)), KV("service.instance.id", Str(inst))];
    var s := r + [KV("service.namespace", Str(ns))];
    assert |"service.name"| == 12 && |"service.namespace"| == 17 && |"service.instance.id"| == 19;
    assert r[0].key == "service.name" && r[1].key == "service.instance.id";
    assert s[0] == r[0] && s[1] == r[1] && s[2].key == "service.namespace";
    GetAt(r, 0);
    GetAt(r, 1);
    GetAt(s, 0);
    GetAt(s, 1);
    GetAt(s, 2);
  }
}
