/**
 * The Kubernetes core objects the Demo controller reads and writes, reduced to
 * the fields it touches. The pod spec is copied verbatim from the Demo's
 * template and never inspected, so its contents stay opaque.
 */
module CoreV1 {
  import opened Wrappers

  /** The runtime part of a pod; only ever copied, never read. */
  datatype PodSpec = PodSpec(containers: seq<string>)

  /** A pod template: the labels it would carry and the spec to run. */
  datatype PodTemplateSpec = PodTemplateSpec(labels: map<string, string>, spec: PodSpec)

  /** The namespace/name pair that identifies an object in the store. */
  datatype NamespacedName = NamespacedName(namespace: string, name: string)

  /** A controller owner reference: the kind and name of the owning object. */
  datatype OwnerRef = OwnerRef(kind: string, name: string)

  datatype Pod = Pod(
    name: string,
    namespace: string,
    labels: map<string, string>,
    owner: Option<OwnerRef>,
    spec: PodSpec)

  /** The store identity of a pod. */
  function Key(p: Pod): NamespacedName {
    NamespacedName(p.namespace, p.name)
  }
}
