/** What the processor is for: the exporter downstream must not meet duplicate label names. */
module LabelUniqueness {
  import opened Sequences
  import opened Attributes
  import opened Resource
  import opened Relabelling
  import opened ProcessorLaws
  import opened Collector

  /** The label names in the list that getMetricMetadata builds. */
  function LabelNames(norm: string -> string, attrs: Attrs, resource: Attrs): seq<string> {
    var labels := LabelsOf(norm, attrs, resource);
    seq(|labels|, i requires 0 <= i < |labels| => labels[i].0)
  }

  function IdentityNames(resource: Attrs): seq<string> {
    (if Has(resource, SERVICE_NAME) then [JOB_LABEL] else [])
    + (if Has(resource, SERVICE_INSTANCE_ID) then [INSTANCE_LABEL] else [])
  }

  lemma LabelNamesAre(norm: string -> string, attrs: Attrs, resource: Attrs)
    ensures LabelNames(norm, attrs, resource)
         == seq(|attrs|, i requires 0 <= i < |attrs| => norm(attrs[i].key)) + IdentityNames(resource)
  {
    hide Find;
    var l, n := IdentityLabels(resource), IdentityNames(resource);
    assert |l| == |n| && forall i | 0 <= i < |n| :: l[i].0 == n[i];
  }

  /** Name n occurs at two places. */
  predicate Doubled(names: seq<string>, n: string) {
    exists i, j :: 0 <= i < j < |names| && names[i] == n && names[j] == n
  }

  /** Key k is among a point's attributes after the processor. */
  predicate Kept(am: Attrs, resource: Attrs, k: string) {
    ClosedForm(am, resource, k).Some?
  }

  /** Two kept keys become n, or one does and the exporter adds n for the resource's identity. */
  ghost predicate NameClash(norm: string -> string, am: Attrs, resource: Attrs, n: string) {
    || (exists k, q :: k != q && Kept(am, resource, k) && Kept(am, resource, q) && norm(k) == n && norm(q) == n)
    || (n in IdentityNames(resource) && exists k :: Kept(am, resource, k) && norm(k) == n)
  }

  /** After the processor the exporter's label list holds a name twice exactly if it clashes, whatever normalisation
      does. */
  lemma DoubledExactly(norm: string -> string, am: Attrs, resource: Attrs, n: string)
    requires UniqueKeys(am) && UniqueKeys(resource)
    ensures Doubled(LabelNames(norm, Relabelled(am, resource), resource), n) <==> NameClash(norm, am, resource, n)
  {
    hide Find, Relabelled, ClosedForm, LabelNames;
    var x := Relabelled(am, resource);
    var names := LabelNames(norm, x, resource);
    LabelNamesAre(norm, x, resource);
    RelabelledIsClosedForm(am, resource, "");
    if Doubled(names, n) {
      var i, j :| 0 <= i < j < |names| && names[i] == n && names[j] == n;
      KeyAt(norm, am, resource, i);
      KeyAt(norm, am, resource, j);
      OcNameIsNotId();
    }
    if NameClash(norm, am, resource, n) {
      if k, q :| k != q && Kept(am, resource, k) && Kept(am, resource, q) && norm(k) == n && norm(q) == n {
        var i := IndexOf(norm, am, resource, k);
        var j := IndexOf(norm, am, resource, q);
        assert names[if i < j then i else j] == n && names[if i < j then j else i] == n;
      } else {
        var k :| Kept(am, resource, k) && norm(k) == n;
        var i := IndexOf(norm, am, resource, k);
        var j :| 0 <= j < |IdentityNames(resource)| && IdentityNames(resource)[j] == n;
        assert names[i] == n && names[|x| + j] == n;
      }
    }
  }

  /** A name before the identity labels is that of a kept key. */
  lemma KeyAt(norm: string -> string, am: Attrs, resource: Attrs, i: nat)
    requires UniqueKeys(am) && UniqueKeys(resource)
    ensures i < |Relabelled(am, resource)| ==>
      Kept(am, resource, Relabelled(am, resource)[i].key)
      && LabelNames(norm, Relabelled(am, resource), resource)[i] == norm(Relabelled(am, resource)[i].key)
  {
    hide Find, Relabelled, UniqueKeys, ClosedForm, LabelNames;
    var x := Relabelled(am, resource);
    LabelNamesAre(norm, x, resource);
    if i < |x| {
      RelabelledIsClosedForm(am, resource, x[i].key);
      GetAt(x, i);
    }
  }

  lemma IndexOf(norm: string -> string, am: Attrs, resource: Attrs, k: string) returns (i: nat)
    requires UniqueKeys(am) && UniqueKeys(resource) && Kept(am, resource, k)
    ensures i < |Relabelled(am, resource)| && Relabelled(am, resource)[i].key == k
    ensures LabelNames(norm, Relabelled(am, resource), resource)[i] == norm(k)
  {
    hide Relabelled, UniqueKeys, ClosedForm, LabelNames;
    RelabelledIsClosedForm(am, resource, k);
    LabelNamesAre(norm, Relabelled(am, resource), resource);
    i := Find(Relabelled(am, resource), k);
  }

  /** The inputs on which a duplicate label name survives the processor. */
  ghost predicate LabelClash(norm: string -> string, am: Attrs, resource: Attrs) {
    || (exists k, q :: k != q && Kept(am, resource, k) && Kept(am, resource, q) && norm(k) == norm(q))
    || (Has(resource, SERVICE_NAME) && exists k :: Kept(am, resource, k) && norm(k) == JOB_LABEL)
    || (Has(resource, SERVICE_INSTANCE_ID) && exists k :: Kept(am, resource, k) && norm(k) == INSTANCE_LABEL)
  }

  /** After the processor the exporter's label list has a duplicate name exactly on a clash: two kept keys normalise
      alike, or one normalises to a label the exporter adds itself. */
  lemma DuplicateLabelsExactly(norm: string -> string, am: Attrs, resource: Attrs)
    requires UniqueKeys(am) && UniqueKeys(resource)
    ensures NoDuplicates(LabelNames(norm, Relabelled(am, resource), resource)) <==> !LabelClash(norm, am, resource)
  {
    hide LabelNames, Kept, Find;
    var names := LabelNames(norm, Relabelled(am, resource), resource);
    if !NoDuplicates(names) {
      var i, j :| 0 <= i < j < |names| && names[i] == names[j];
      DoubledExactly(norm, am, resource, names[i]);
    }
    if LabelClash(norm, am, resource) {
      var n := ClashingName(norm, am, resource);
      DoubledExactly(norm, am, resource, n);
    }
  }

  lemma ClashingName(norm: string -> string, am: Attrs, resource: Attrs) returns (n: string)
    requires LabelClash(norm, am, resource)
    ensures NameClash(norm, am, resource, n)
  {
    hide Kept, Find;
    if k, q :| k != q && Kept(am, resource, k) && Kept(am, resource, q) && norm(k) == norm(q) {
      n := norm(k);
    } else if Has(resource, SERVICE_NAME) && exists k :: Kept(am, resource, k) && norm(k) == JOB_LABEL {
      n := JOB_LABEL;
    } else {
      n := INSTANCE_LABEL;
    }
  }

  /** A key of the point or of its resource. */
  predicate InPlay(am: Attrs, resource: Attrs, k: string) { Has(am, k) || Has(resource, k) }

  lemma KeptInPlay(am: Attrs, resource: Attrs, k: string)
    requires Kept(am, resource, k)
    ensures InPlay(am, resource, k)
  {}

  /** "job" and "instance" occur at most once each, if only those keys normalise to those names. */
  lemma IdentityLabelsOnce(norm: string -> string, am: Attrs, resource: Attrs, n: string)
    requires UniqueKeys(am) && UniqueKeys(resource) && (n == JOB_LABEL || n == INSTANCE_LABEL)
    requires forall k | InPlay(am, resource, k) && norm(k) == n :: k == n
    ensures !Doubled(LabelNames(norm, Relabelled(am, resource), resource), n)
  {
    hide LabelNames, Find, Copied;
    DoubledExactly(norm, am, resource, n);
    OcNameIsNotId();
    forall k | Kept(am, resource, k) && norm(k) == n ensures k == n { KeptInPlay(am, resource, k); }
  }

  /** Both spellings of the service name never meet when the resource has "service.name". */
  lemma ServiceNameOnce(norm: string -> string, am: Attrs, resource: Attrs, n: string)
    requires UniqueKeys(am) && UniqueKeys(resource) && Has(resource, SERVICE_NAME) && n !in IdentityNames(resource)
    requires forall k | InPlay(am, resource, k) && norm(k) == n :: k == SERVICE_NAME || k == OC_SERVICE_NAME
    ensures !Doubled(LabelNames(norm, Relabelled(am, resource), resource), n)
  {
    hide LabelNames, Find, Copied;
    DoubledExactly(norm, am, resource, n);
    forall k | Kept(am, resource, k) && norm(k) == n ensures k == SERVICE_NAME {
      KeptInPlay(am, resource, k);
    }
  }

  // ---------- When nothing but the two spellings normalise alike ----------

  /** The two dotted OpenTelemetry keys and their OpenCensus spellings. */
  predicate Twins(k: string, q: string) {
    || (k == SERVICE_NAME && q == OC_SERVICE_NAME) || (k == OC_SERVICE_NAME && q == SERVICE_NAME)
    || (k == SERVICE_INSTANCE_ID && q == OC_SERVICE_INSTANCE_ID)
    || (k == OC_SERVICE_INSTANCE_ID && q == SERVICE_INSTANCE_ID)
  }

  /** Among the keys in play, normalisation identifies the twins and nothing else, and only "job" and "instance"
      become those names. */
  ghost predicate NormalisesTwinsOnly(norm: string -> string, am: Attrs, resource: Attrs) {
    && (forall k, q | InPlay(am, resource, k) && InPlay(am, resource, q) && k != q ::
          norm(k) == norm(q) <==> Twins(k, q))
    && (forall k | InPlay(am, resource, k) ::
          (norm(k) == JOB_LABEL ==> k == JOB_LABEL) && (norm(k) == INSTANCE_LABEL ==> k == INSTANCE_LABEL))
  }

  /** The inputs on which both spellings of a twin survive the processor. */
  predicate Clash(am: Attrs, resource: Attrs) {
    || (!Has(resource, SERVICE_NAME) && Has(am, SERVICE_NAME)
        && (Has(am, OC_SERVICE_NAME) || Has(resource, OC_SERVICE_NAME)))
    || ((Has(am, OC_SERVICE_INSTANCE_ID) || Has(resource, OC_SERVICE_INSTANCE_ID))
        && (Has(am, SERVICE_INSTANCE_ID)
            || (Has(resource, SERVICE_INSTANCE_ID) && !Has(am, OC_SERVICE_INSTANCE_ID) && !OcIdFirst(resource))))
  }

  /** Both spellings of a twin are present after the processor exactly on a clash. */
  lemma TwinsAfter(am: Attrs, resource: Attrs)
    ensures Clash(am, resource) <==>
      exists k, q :: Twins(k, q) && Kept(am, resource, k) && Kept(am, resource, q)
  {
    hide Find, Skipped;
    OcNameIsNotId();
    OcIdIsNotId();
    NamesDiffer();
    NotSkipped(resource);
    assert Twins(SERVICE_NAME, OC_SERVICE_NAME) && Twins(SERVICE_INSTANCE_ID, OC_SERVICE_INSTANCE_ID);
  }

  lemma NamesDiffer()
    ensures SERVICE_NAME != OC_SERVICE_NAME && SERVICE_NAME != SERVICE_INSTANCE_ID && SERVICE_NAME != JOB_LABEL
    ensures SERVICE_NAME != INSTANCE_LABEL && SERVICE_INSTANCE_ID != JOB_LABEL && SERVICE_INSTANCE_ID != INSTANCE_LABEL
  {
    assert SERVICE_NAME[7] != OC_SERVICE_NAME[7];
    assert |SERVICE_NAME| == 12 && |SERVICE_INSTANCE_ID| == 19 && |JOB_LABEL| == 3 && |INSTANCE_LABEL| == 8;
  }

  lemma NotSkipped(resource: Attrs)
    ensures !Skipped(resource, SERVICE_NAME) && !Skipped(resource, OC_SERVICE_NAME)
    ensures !Skipped(resource, SERVICE_INSTANCE_ID) && !Skipped(resource, OC_SERVICE_INSTANCE_ID)
  {
    hide Find;
    OcNameIsNotId();
    OcIdIsNotId();
    NamesDiffer();
  }

  /** Then the duplicates are those of the two spellings of the service name or of the instance id. */
  lemma TwinDuplicatesExactly(norm: string -> string, am: Attrs, resource: Attrs)
    requires UniqueKeys(am) && UniqueKeys(resource) && NormalisesTwinsOnly(norm, am, resource)
    ensures NoDuplicates(LabelNames(norm, Relabelled(am, resource), resource)) <==> !Clash(am, resource)
  {
    hide LabelNames, Clash, Find, ClosedForm, Twins, NoDuplicates;
    DuplicateLabelsExactly(norm, am, resource);
    TwinsAfter(am, resource);
    forall k | Kept(am, resource, k) ensures InPlay(am, resource, k) { KeptInPlay(am, resource, k); }
    IdentityKeysGone(am, resource);
    TwinsDiffer();
  }

  lemma TwinsDiffer()
    ensures forall k, q | Twins(k, q) :: k != q
  {
    NamesDiffer();
    OcIdIsNotId();
  }

  lemma IdentityKeysGone(am: Attrs, resource: Attrs)
    ensures Has(resource, SERVICE_NAME) ==> !Kept(am, resource, JOB_LABEL)
    ensures Has(resource, SERVICE_INSTANCE_ID) ==> !Kept(am, resource, INSTANCE_LABEL)
  {}

  /** Such inputs exist: when a resource lists "service.instance.id" before "service_instance_id", the label that both
      normalise to is doubled. */
  lemma ClashExample(norm: string -> string, a: string, b: string)
    requires norm(SERVICE_INSTANCE_ID) == norm(OC_SERVICE_INSTANCE_ID)
    ensures var r := [KV(SERVICE_INSTANCE_ID, Str(a)), KV(OC_SERVICE_INSTANCE_ID, Str(b))];
      Doubled(LabelNames(norm, Relabelled([], r), r), norm(OC_SERVICE_INSTANCE_ID))
  {
    var r := [KV(SERVICE_INSTANCE_ID, Str(a)), KV(OC_SERVICE_INSTANCE_ID, Str(b))];
    hide Relabelled, LabelNames;
    OcIdIsNotId();
    OcNameIsNotId();
    NamesDiffer();
    assert r[0].key == SERVICE_INSTANCE_ID && r[1].key == OC_SERVICE_INSTANCE_ID;
    GetAt(r, 0);
    GetAt(r, 1);
    assert Kept([], r, SERVICE_INSTANCE_ID) && Kept([], r, OC_SERVICE_INSTANCE_ID);
    DoubledExactly(norm, [], r, norm(OC_SERVICE_INSTANCE_ID));
  }
}
