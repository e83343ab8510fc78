/** The Demo custom resource: a desired replica count and a pod template. */
module DemoTypes {
  import opened CoreV1

  /** Go's int32, the type of the replica count. */
  newtype int32 = x: int | -0x8000_0000 <= x < 0x8000_0000

  datatype DemoSpec = DemoSpec(replicas: int32, template: PodTemplateSpec)

  /** A Demo object: its metadata (name, namespace, labels) and its spec. */
  datatype Demo = Demo(
    name: string,
    namespace: string,
    labels: map<string, string>,
    spec: DemoSpec)
}
