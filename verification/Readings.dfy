/** What a resource says about its process: its identifier and name, and the last value of each
    of two gauges among its metrics. */
module Readings {
  import opened ProcessTable
  import opened Wrappers

  datatype MetricEntry = MetricEntry(name: string, isGauge: bool, value: real)

  datatype ResourceMetrics = ResourceMetrics(pid: string, name: string, metrics: seq<MetricEntry>)

  const CPU_METRIC := "process.cpu.utilization"
  const MEMORY_METRIC := "process.memory.utilization"

  /** The last gauge of each kind among a resource's metrics, and whether there was any. */
  datatype Reading = Reading(cpu: real, memory: real, any: bool)

  function Read(metrics: seq<MetricEntry>): Reading {
    if metrics == [] then Reading(0.0, 0.0, false)
    else
      var r := Read(metrics[..|metrics| - 1]);
      var m := metrics[|metrics| - 1];
      if m.name == CPU_METRIC && m.isGauge then r.(cpu := m.value, any := true)
      else if m.name == MEMORY_METRIC && m.isGauge then r.(memory := m.value, any := true)
      else r
  }

  /** What a resource says about its process: nothing without an identifier, a name and a gauge. */
  function Extract(r: ResourceMetrics, at: int): Option<Observation> {
    var reading := Read(r.metrics);
    if r.pid == "" || r.name == "" || !reading.any then None
    else Some(Observation(r.pid, r.name, reading.cpu, reading.memory, at))
  }

  /** Reads a resource's metrics one after the other. */
  method ReadMetrics(metrics: seq<MetricEntry>) returns (cpu: real, memory: real, any: bool)
    ensures Reading(cpu, memory, any) == Read(metrics)
  {
    cpu, memory, any := 0.0, 0.0, false;
    for i := 0 to |metrics|
      invariant Reading(cpu, memory, any) == Read(metrics[..i])
    {
      assert metrics[..i + 1][..i] == metrics[..i];
      if metrics[i].name == CPU_METRIC {
        if metrics[i].isGauge {
          cpu, any := metrics[i].value, true;
        }
      } else if metrics[i].name == MEMORY_METRIC {
        if metrics[i].isGauge {
          memory, any := metrics[i].value, true;
        }
      }
    }
    assert metrics[..|metrics|] == metrics;
  }

  method ExtractUpdate(r: ResourceMetrics, at: int) returns (update: Option<Observation>)
    ensures update == Extract(r, at)
  {
    if r.pid == "" || r.name == "" {
      return None;
    }
    var cpu, memory, any := ReadMetrics(r.metrics);
    update := if any then Some(Observation(r.pid, r.name, cpu, memory, at)) else None;
  }

  // ----- the same by position -----

  predicate IsGauge(m: MetricEntry, name: string) {
    m.name == name && m.isGauge
  }

  ghost predicate HasGauge(metrics: seq<MetricEntry>, name: string) {
    exists i :: 0 <= i < |metrics| && IsGauge(metrics[i], name)
  }

  ghost predicate LastGauge(metrics: seq<MetricEntry>, name: string, i: nat) {
    i < |metrics| && IsGauge(metrics[i], name) && forall j :: i < j < |metrics| ==> !IsGauge(metrics[j], name)
  }

  /** The value of the last gauge of this name, or zero without one. */
  ghost predicate ValueIs(metrics: seq<MetricEntry>, name: string, value: real) {
    if HasGauge(metrics, name) then exists i: nat :: LastGauge(metrics, name, i) && metrics[i].value == value
    else value == 0.0
  }

  lemma ValueSnoc(metrics: seq<MetricEntry>, m: MetricEntry, name: string, value: real)
    requires ValueIs(metrics, name, value)
    ensures ValueIs(metrics + [m], name, if IsGauge(m, name) then m.value else value)
    ensures HasGauge(metrics + [m], name) <==> HasGauge(metrics, name) || IsGauge(m, name)
  {
    var all := metrics + [m];
    assert all[|metrics|] == m && forall i :: 0 <= i < |metrics| ==> all[i] == metrics[i];
    if IsGauge(m, name) {
      assert LastGauge(all, name, |metrics|);
    } else if HasGauge(metrics, name) {
      var i: nat :| LastGauge(metrics, name, i) && metrics[i].value == value;
      assert LastGauge(all, name, i);
    }
  }

  lemma {:induction false} ReadIs(metrics: seq<MetricEntry>)
    ensures ValueIs(metrics, "process.cpu.utilization", Read(metrics).cpu)
    ensures ValueIs(metrics, "process.memory.utilization", Read(metrics).memory)
    ensures Read(metrics).any
       <==> HasGauge(metrics, "process.cpu.utilization") || HasGauge(metrics, "process.memory.utilization")
  {
    if metrics == [] {
    } else {
      var before, m := metrics[..|metrics| - 1], metrics[|metrics| - 1];
      ReadIs(before);
      assert metrics == before + [m];
      ValueSnoc(before, m, "process.cpu.utilization", Read(before).cpu);
      ValueSnoc(before, m, "process.memory.utilization", Read(before).memory);
      assert "process.cpu.utilization"[8] != "process.memory.utilization"[8];
    }
  }

  /** The resource names its process and has a gauge of one of the two kinds. */
  ghost predicate HasReading(r: ResourceMetrics) {
    && r.pid != "" && r.name != ""
    && (HasGauge(r.metrics, "process.cpu.utilization") || HasGauge(r.metrics, "process.memory.utilization"))
  }

  /** A resource yields an observation exactly if it has a reading, and then of its own process
      with the last value of each gauge. */
  lemma ExtractIs(r: ResourceMetrics, at: int)
    ensures Extract(r, at).Some? <==> HasReading(r)
    ensures Extract(r, at).Some? ==>
      var o := Extract(r, at).value;
      && o.pid == r.pid && o.name == r.name && o.at == at
      && ValueIs(r.metrics, "process.cpu.utilization", o.cpu)
      && ValueIs(r.metrics, "process.memory.utilization", o.memory)
  {
    ReadIs(r.metrics);
  }
}
