/**
 * The network the simulator is configured with: five nodes, six links and
 * a generation rate per node.
 */
module FiveNode {
  import opened Topology
  import opened State
  import opened Simulation

  const Nodes: seq<NodeId> := ["A", "B", "C", "D", "E"]

  const Links: seq<LinkDef> := [
    LinkDef("A", "B", 100),
    LinkDef("A", "C", 80),
    LinkDef("B", "D", 70),
    LinkDef("C", "D", 90),
    LinkDef("C", "E", 100),
    LinkDef("D", "E", 60)
  ]

  const TrafficRates: map<NodeId, nat> := map["A" := 50, "B" := 30, "C" := 40, "D" := 20, "E" := 60]

  /** The configured topology is well formed, so the simulator can be built on it. */
  lemma ConfigurationWellFormed()
    ensures WellFormed(Nodes, Links)
  {
  }

  /** Builds the simulator on the configured network, with its state initialised. */
  method NewSimulator() returns (s: Simulator)
    ensures fresh(s) && s.Valid()
    ensures s.nodes == Nodes && s.linkDefs == Links && s.trafficRates == TrafficRates
    ensures s.queues == InitQueues(Nodes) && s.links == InitLinks(Links)
  {
    ConfigurationWellFormed();
    s := new Simulator(Nodes, Links, TrafficRates);
  }
}
