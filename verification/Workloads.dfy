/** The Deployments and StatefulSets the audit works with. */
module Workloads {
  import opened Outcomes
  import opened PodScan

  datatype Workload = Workload(kind: string, ns: string, name: string, replicas: int, images: seq<string>,
                               labels: Labels, template: Labels, controllerKind: Option<string>, ignore: string)

  /** One listed workload. Two listings of equal content are still two objects. */
  class WorkloadObject {
    const data: Workload

    constructor (data: Workload)
      ensures this.data == data
    {
      this.data := data;
    }
  }
}
