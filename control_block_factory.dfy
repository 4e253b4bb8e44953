/** ControlBlockFactory: the initial control block of each kind of entity. */
module ControlBlockFactory {
  import opened Base

  /** createCb: routers, clusters and gateways start Active, workers start
      Passive; every block is a root and carries the requested kind. A kind
      with no case yields no block (Java's null). */
  function CreateCb(kind: Kind, id: Uuid): (r: Option<ControlBlock>)
    ensures r.Some? <==> kind != Deamon
    ensures r.Some? ==> r.value.kind == kind && r.value.isRoot && r.value.id == id
    ensures r.Some? ==> (r.value.status == Passive <==> kind == Worker)
  {
    match kind
    case Router => Some(ControlBlock(id, Router, true, Active))
    case Cluster => Some(ControlBlock(id, Cluster, true, Active))
    case Gateway => Some(ControlBlock(id, Gateway, true, Active))
    case Worker => Some(ControlBlock(id, Worker, true, Passive))
    case Deamon => None
  }

  /** The block every actor is constructed with. */
  function WorkerCb(id: Uuid): (cb: ControlBlock)
    ensures CreateCb(Worker, id) == Some(cb)
    ensures cb.status == Passive && cb.isRoot && cb.kind == Worker && cb.id == id
  {
    ControlBlock(id, Worker, true, Passive)
  }
}
