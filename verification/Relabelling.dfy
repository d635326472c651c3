/** What metricresourcesattrstolabels.go makes of the attributes of one data point. */
module Relabelling {
  import opened Sequences
  import opened Attributes
  import opened Resource

  const OC_SERVICE_INSTANCE_ID := "service_instance_id"
  const OC_SERVICE_NAME := "service_name"

  /** The exporter adds these labels itself. */
  predicate Skipped(resource: Attrs, key: string) {
    (key == JOB_LABEL && Has(resource, SERVICE_NAME)) || (key == INSTANCE_LABEL && Has(resource, SERVICE_INSTANCE_ID))
  }

  /** The callback for one resource attribute. */
  function CopyOne(am: Attrs, kv: KV): Attrs {
    if kv.key == SERVICE_INSTANCE_ID then
      if Has(am, OC_SERVICE_INSTANCE_ID) then am else Put(am, kv.key, Str(kv.value.text))
    else if Has(am, kv.key) then am else Put(am, kv.key, Str(kv.value.text))
  }

  /** The first n resource attributes, copied in order. */
  function CopyFirst(am: Attrs, resource: Attrs, n: nat): Attrs
    requires n <= |resource|
  {
    if n == 0 then am
    else if Skipped(resource, resource[n - 1].key) then CopyFirst(am, resource, n - 1)
    else CopyOne(CopyFirst(am, resource, n - 1), resource[n - 1])
  }

  function RemoveIdentity(am: Attrs, resource: Attrs): Attrs {
    var a := if Has(resource, SERVICE_NAME) then Remove(Remove(am, JOB_LABEL), OC_SERVICE_NAME) else am;
    if Has(resource, SERVICE_INSTANCE_ID) then Remove(a, INSTANCE_LABEL) else a
  }

  /** What the processor makes of one point's attributes. */
  function Relabelled(am: Attrs, resource: Attrs): Attrs {
    RemoveIdentity(CopyFirst(am, resource, |resource|), resource)
  }
}
