/** Laws of the resource-to-point copying: its closed form per key, idempotence and order independence. */
module ProcessorLaws {
  import opened Sequences
  import opened Attributes
  import opened Resource
  import opened Relabelling

  /** The resource lists "service_instance_id" before "service.instance.id". */
  predicate OcIdFirst(resource: Attrs) {
    0 <= Find(resource, OC_SERVICE_INSTANCE_ID) < Find(resource, SERVICE_INSTANCE_ID)
  }

  /** The value of key k once the first n resource attributes are copied. */
  function Copied(am: Attrs, resource: Attrs, n: nat, k: string): Option<Value>
    requires n <= |resource|
  {
    var i := Find(resource, k);
    if k == SERVICE_INSTANCE_ID then
      if 0 <= i < n && !Has(am, OC_SERVICE_INSTANCE_ID) && !OcIdFirst(resource)
      then Some(Str(resource[i].value.text)) else Get(am, k)
    else if Has(am, k) then Get(am, k)
    else if 0 <= i < n && !Skipped(resource, k) then Some(Str(resource[i].value.text))
    else None
  }

  lemma CopyOneGet(am: Attrs, kv: KV, k: string)
    ensures Get(CopyOne(am, kv), k) ==
      if k == kv.key && !Has(am, if k == SERVICE_INSTANCE_ID then OC_SERVICE_INSTANCE_ID else k)
      then Some(Str(kv.value.text)) else Get(am, k)
  {
    hide Find, Put;
    GetAfterPut(am, kv.key, Str(kv.value.text), k);
  }

  lemma OcIdIsNotId()
    ensures OC_SERVICE_INSTANCE_ID != SERVICE_INSTANCE_ID && OC_SERVICE_INSTANCE_ID != JOB_LABEL
    ensures OC_SERVICE_INSTANCE_ID != INSTANCE_LABEL && OC_SERVICE_INSTANCE_ID != OC_SERVICE_NAME
  {
    assert OC_SERVICE_INSTANCE_ID[7] != SERVICE_INSTANCE_ID[7];
    assert |OC_SERVICE_INSTANCE_ID| == 19 && |JOB_LABEL| == 3 && |INSTANCE_LABEL| == 8 && |OC_SERVICE_NAME| == 12;
  }

  lemma OcNameIsNotId()
    ensures OC_SERVICE_NAME != SERVICE_INSTANCE_ID && OC_SERVICE_NAME != JOB_LABEL && OC_SERVICE_NAME != INSTANCE_LABEL
    ensures JOB_LABEL != INSTANCE_LABEL
  {
    assert |OC_SERVICE_NAME| == 12 && |SERVICE_INSTANCE_ID| == 19 && |JOB_LABEL| == 3 && |INSTANCE_LABEL| == 8;
  }

  lemma {:induction false} CopiedIsClosedForm(am: Attrs, resource: Attrs, n: nat, k: string)
    requires UniqueKeys(resource) && n <= |resource|
    ensures Get(CopyFirst(am, resource, n), k) == Copied(am, resource, n, k)
  {
    hide Find, CopyOne, UniqueKeys;
    if n > 0 {
      var kv := resource[n - 1];
      GetAt(resource, n - 1);
      CopiedIsClosedForm(am, resource, n - 1, k);
      if !Skipped(resource, kv.key) {
        OcIdIsNotId();
        CopiedIsClosedForm(am, resource, n - 1, OC_SERVICE_INSTANCE_ID);
        CopyOneGet(CopyFirst(am, resource, n - 1), kv, k);
      }
    }
  }

  lemma {:induction false} CopyKeepsKeysUnique(am: Attrs, resource: Attrs, n: nat)
    requires UniqueKeys(am) && n <= |resource|
    ensures UniqueKeys(CopyFirst(am, resource, n))
  {
    if n > 0 {
      CopyKeepsKeysUnique(am, resource, n - 1);
      GetAfterPut(CopyFirst(am, resource, n - 1), resource[n - 1].key, Str(resource[n - 1].value.text), "");
    }
  }

  /** The value of key k after processing: point values win, except that the resource's "service.instance.id" is
      written unless "service_instance_id" is there first; identity labels the exporter adds are gone. */
  function ClosedForm(am: Attrs, resource: Attrs, k: string): Option<Value> {
    if Has(resource, SERVICE_NAME) && (k == JOB_LABEL || k == OC_SERVICE_NAME) then None
    else if Has(resource, SERVICE_INSTANCE_ID) && k == INSTANCE_LABEL then None
    else Copied(am, resource, |resource|, k)
  }

  lemma RemovedIsClosedForm(a: Attrs, resource: Attrs, k: string)
    requires UniqueKeys(a)
    ensures UniqueKeys(RemoveIdentity(a, resource))
    ensures Get(RemoveIdentity(a, resource), k) ==
      if (Has(resource, SERVICE_NAME) && (k == JOB_LABEL || k == OC_SERVICE_NAME))
         || (Has(resource, SERVICE_INSTANCE_ID) && k == INSTANCE_LABEL) then None else Get(a, k)
  {
    GetAfterRemove(a, JOB_LABEL, k);
    GetAfterRemove(Remove(a, JOB_LABEL), OC_SERVICE_NAME, k);
    var b := if Has(resource, SERVICE_NAME) then Remove(Remove(a, JOB_LABEL), OC_SERVICE_NAME) else a;
    GetAfterRemove(b, INSTANCE_LABEL, k);
  }

  /** The processor computes the closed form and keeps keys unique. */
  lemma RelabelledIsClosedForm(am: Attrs, resource: Attrs, k: string)
    requires UniqueKeys(am) && UniqueKeys(resource)
    ensures UniqueKeys(Relabelled(am, resource))
    ensures Get(Relabelled(am, resource), k) == ClosedForm(am, resource, k)
  {
    CopyKeepsKeysUnique(am, resource, |resource|);
    CopiedIsClosedForm(am, resource, |resource|, k);
    RemovedIsClosedForm(CopyFirst(am, resource, |resource|), resource, k);
  }

  /** The identity attributes, by their names: "job", "service_name" and "instance" go when the exporter adds them, and
      "service.instance.id" is taken from the resource unless "service_instance_id" is there first. */
  lemma IdentityRules(am: Attrs, resource: Attrs)
    requires UniqueKeys(am) && UniqueKeys(resource)
    ensures var x := Relabelled(am, resource);
      && (Has(resource, "service.name") ==> Get(x, "job") == None && Get(x, "service_name") == None)
      && (Has(resource, "service.instance.id") ==> Get(x, "instance") == None)
      && (!Has(resource, "service.name") && Has(am, "job") ==> Get(x, "job") == Get(am, "job"))
      && (!Has(resource, "service.instance.id") && Has(am, "instance") ==> Get(x, "instance") == Get(am, "instance"))
      && (Has(am, "service_instance_id") ==> Get(x, "service.instance.id") == Get(am, "service.instance.id"))
      && (Has(resource, "service.instance.id") && !Has(am, "service_instance_id")
          && !Has(resource, "service_instance_id") ==>
            Get(x, "service.instance.id") == Some(Str(Get(resource, "service.instance.id").value.text)))
  {
    hide Relabelled, UniqueKeys;
    OcIdIsNotId();
    OcNameIsNotId();
    RelabelledIsClosedForm(am, resource, "job");
    RelabelledIsClosedForm(am, resource, "service_name");
    RelabelledIsClosedForm(am, resource, "instance");
    RelabelledIsClosedForm(am, resource, "service.instance.id");
  }

  // ---------- Idempotence ----------

  /** Copying kv onto x changes nothing. */
  predicate Settled(x: Attrs, kv: KV) {
    if kv.key == SERVICE_INSTANCE_ID
    then Has(x, OC_SERVICE_INSTANCE_ID) || Get(x, SERVICE_INSTANCE_ID) == Some(Str(kv.value.text))
    else Has(x, kv.key)
  }

  lemma SettledStays(x: Attrs, kv: KV)
    requires Settled(x, kv)
    ensures CopyOne(x, kv) == x
  {}

  lemma GetAppended(x: Attrs, e: KV, k: string)
    requires !Has(x, e.key)
    ensures Get(x + [e], k) == if k == e.key then Some(e.value) else Get(x, k)
  {
    assert (x + [e])[..|x|] == x;
  }

  lemma SettledAppend(x: Attrs, e: KV, kv: KV)
    requires Settled(x, kv) && !Has(x, e.key)
    ensures Settled(x + [e], kv)
  {
    hide Find;
    GetAppended(x, e, kv.key);
    GetAppended(x, e, OC_SERVICE_INSTANCE_ID);
  }

  /** Added by the copying and removed again in the same pass. */
  predicate Transient(resource: Attrs, key: string) {
    Has(resource, SERVICE_NAME) && key == OC_SERVICE_NAME
  }

  lemma RelabelledSettled(am: Attrs, resource: Attrs, i: nat)
    requires UniqueKeys(am) && UniqueKeys(resource) && i < |resource|
    requires !Skipped(resource, resource[i].key) && !Transient(resource, resource[i].key)
    ensures Settled(Relabelled(am, resource), resource[i])
  {
    hide Find, Relabelled, UniqueKeys;
    GetAt(resource, i);
    OcIdIsNotId();
    RelabelledIsClosedForm(am, resource, resource[i].key);
    RelabelledIsClosedForm(am, resource, OC_SERVICE_INSTANCE_ID);
  }

  /** Copying again appends at most the "service_name" that is then removed again. */
  function Again(x: Attrs, resource: Attrs, n: nat): Attrs
    requires n <= |resource|
  {
    var i := Find(resource, OC_SERVICE_NAME);
    if Has(resource, SERVICE_NAME) && 0 <= i < n then x + [KV(OC_SERVICE_NAME, Str(resource[i].value.text))] else x
  }

  lemma {:induction false} CopyAgain(am: Attrs, resource: Attrs, n: nat)
    requires UniqueKeys(am) && UniqueKeys(resource) && n <= |resource|
    ensures CopyFirst(Relabelled(am, resource), resource, n) == Again(Relabelled(am, resource), resource, n)
  {
    hide Find, Relabelled, UniqueKeys, CopyOne, Settled, ClosedForm;
    if n > 0 {
      var x, kv := Relabelled(am, resource), resource[n - 1];
      CopyAgain(am, resource, n - 1);
      GetAt(resource, n - 1);
      if !Skipped(resource, kv.key) {
        AgainStep(am, resource, n);
      } else {
        OcNameIsNotId();
      }
    }
  }

  lemma AgainStep(am: Attrs, resource: Attrs, n: nat)
    requires UniqueKeys(am) && UniqueKeys(resource) && 0 < n <= |resource| && !Skipped(resource, resource[n - 1].key)
    ensures CopyOne(Again(Relabelled(am, resource), resource, n - 1), resource[n - 1])
         == Again(Relabelled(am, resource), resource, n)
  {
    hide Find, Relabelled, UniqueKeys, Settled;
    var x, kv := Relabelled(am, resource), resource[n - 1];
    GetAt(resource, n - 1);
    assert Has(resource, SERVICE_NAME) ==> !Has(x, OC_SERVICE_NAME) by {
      RelabelledIsClosedForm(am, resource, OC_SERVICE_NAME);
    }
    if Transient(resource, kv.key) {
      OcNameIsNotId();
      assert Again(x, resource, n - 1) == x;
    } else {
      RelabelledSettled(am, resource, n - 1);
      var prev := Again(x, resource, n - 1);
      if prev != x { SettledAppend(x, prev[|x|], kv); }
      SettledStays(prev, kv);
    }
  }

  lemma RemoveAbsent(a: Attrs, k: string)
    requires !Has(a, k)
    ensures Remove(a, k) == a
  {}

  lemma RemoveLast(x: Attrs, e: KV)
    requires !Has(x, e.key)
    ensures Remove(x + [e], e.key) == x
  {
    assert (x + [e])[..|x|] == x && (x + [e])[|x| := e] == x + [e];
  }

  lemma RemoveAgain(x: Attrs, resource: Attrs)
    requires Has(resource, SERVICE_NAME) ==> !Has(x, JOB_LABEL) && !Has(x, OC_SERVICE_NAME)
    requires Has(resource, SERVICE_INSTANCE_ID) ==> !Has(x, INSTANCE_LABEL)
    ensures RemoveIdentity(Again(x, resource, |resource|), resource) == x
  {
    hide Find, Has, Remove;
    var y := Again(x, resource, |resource|);
    OcNameIsNotId();
    if Has(resource, SERVICE_NAME) {
      if y != x {
        AbsentAfterAppend(x, y[|x|], JOB_LABEL);
        RemoveLast(x, y[|x|]);
      } else {
        RemoveAbsent(x, OC_SERVICE_NAME);
      }
      RemoveAbsent(y, JOB_LABEL);
    }
    if Has(resource, SERVICE_INSTANCE_ID) { RemoveAbsent(x, INSTANCE_LABEL); }
  }

  lemma AbsentAfterAppend(x: Attrs, e: KV, k: string)
    requires !Has(x, k) && k != e.key
    ensures !Has(x + [e], k)
  {
    assert (x + [e])[..|x|] == x;
  }

  /** Processing twice is processing once, attribute order included. */
  lemma Idempotent(am: Attrs, resource: Attrs)
    requires UniqueKeys(am) && UniqueKeys(resource)
    ensures Relabelled(Relabelled(am, resource), resource) == Relabelled(am, resource)
  {
    hide Find, RemoveIdentity, CopyFirst, Again;
    var x := Relabelled(am, resource);
    assert Relabelled(x, resource) == RemoveIdentity(CopyFirst(x, resource, |resource|), resource);
    CopyAgain(am, resource, |resource|);
    RelabelledIsClosedForm(am, resource, JOB_LABEL);
    RelabelledIsClosedForm(am, resource, OC_SERVICE_NAME);
    RelabelledIsClosedForm(am, resource, INSTANCE_LABEL);
    RemoveAgain(x, resource);
  }

  // ---------- Order of the resource attributes ----------

  lemma GetPermuted(a: Attrs, b: Attrs, k: string)
    requires UniqueKeys(a) && UniqueKeys(b) && multiset(a) == multiset(b)
    ensures Get(a, k) == Get(b, k)
  {
    var i, j := Find(a, k), Find(b, k);
    assert i >= 0 ==> a[i] in multiset(b);
    assert j >= 0 ==> b[j] in multiset(a);
  }

  /** Which of "service.instance.id" and "service_instance_id" the resource lists first decides the outcome. */
  predicate OrderSensitive(am: Attrs, resource: Attrs) {
    && Has(resource, SERVICE_INSTANCE_ID) && Has(resource, OC_SERVICE_INSTANCE_ID) && !Has(am, OC_SERVICE_INSTANCE_ID)
    && Get(am, SERVICE_INSTANCE_ID) != Some(Str(Get(resource, SERVICE_INSTANCE_ID).value.text))
  }

  lemma OrderIrrelevant(am: Attrs, resource: Attrs, permuted: Attrs, k: string)
    requires UniqueKeys(am) && UniqueKeys(resource) && UniqueKeys(permuted) && multiset(resource) == multiset(permuted)
    requires !OrderSensitive(am, resource)
    ensures Get(Relabelled(am, permuted), k) == Get(Relabelled(am, resource), k)
  {
    hide Find, Relabelled, UniqueKeys;
    RelabelledIsClosedForm(am, resource, k);
    RelabelledIsClosedForm(am, permuted, k);
    GetPermuted(resource, permuted, k);
    GetPermuted(resource, permuted, SERVICE_NAME);
    GetPermuted(resource, permuted, SERVICE_INSTANCE_ID);
    GetPermuted(resource, permuted, OC_SERVICE_INSTANCE_ID);
  }

  lemma SwapKeepsAttrs(a: Attrs, i: nat, j: nat)
    requires UniqueKeys(a) && i < |a| && j < |a| && i != j
    ensures multiset(a[i := a[j]][j := a[i]]) == multiset(a) && UniqueKeys(a[i := a[j]][j := a[i]])
  {}

  lemma OrderMatters(am: Attrs, resource: Attrs) returns (permuted: Attrs)
    requires UniqueKeys(am) && UniqueKeys(resource) && OrderSensitive(am, resource)
    ensures UniqueKeys(permuted) && multiset(permuted) == multiset(resource)
    ensures Get(Relabelled(am, permuted), SERVICE_INSTANCE_ID) != Get(Relabelled(am, resource), SERVICE_INSTANCE_ID)
  {
    var i, j := Find(resource, SERVICE_INSTANCE_ID), Find(resource, OC_SERVICE_INSTANCE_ID);
    permuted := resource[i := resource[j]][j := resource[i]];
    SwapKeepsAttrs(resource, i, j);
    GetAt(permuted, i);
    GetAt(permuted, j);
    hide Find, Relabelled, UniqueKeys;
    RelabelledIsClosedForm(am, resource, SERVICE_INSTANCE_ID);
    RelabelledIsClosedForm(am, permuted, SERVICE_INSTANCE_ID);
  }

  /** The order of the resource attributes matters exactly in the sensitive case. */
  lemma OrderMattersExactly(am: Attrs, resource: Attrs)
    requires UniqueKeys(am) && UniqueKeys(resource)
    ensures OrderSensitive(am, resource) <==>
      exists permuted, k :: UniqueKeys(permuted) && multiset(permuted) == multiset(resource)
        && Get(Relabelled(am, permuted), k) != Get(Relabelled(am, resource), k)
  {
    if OrderSensitive(am, resource) {
      var permuted := OrderMatters(am, resource);
    } else {
      forall permuted, k | UniqueKeys(permuted) && multiset(permuted) == multiset(resource)
        ensures Get(Relabelled(am, permuted), k) == Get(Relabelled(am, resource), k)
      {
        OrderIrrelevant(am, resource, permuted, k);
      }
    }
  }
}
