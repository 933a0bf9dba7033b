/**
 The part of `/sys` and `/proc` the actuators use, as a store of typed nodes.

 A missing node reads as nothing, a best-effort write to a missing node changes
 nothing, and a node holds either a canonical decimal number or text that no
 number parser accepts.
 */
module Sysfs {
  import opened Prelude

  datatype Node =
    | CpuOnline(cpu: nat)
    | CpufreqDir(cpu: nat)
    | CpuinfoMin(cpu: nat)
    | CpuinfoMax(cpu: nat)
    | ScalingMin(cpu: nat)
    | ScalingMax(cpu: nat)
    | NoTurbo
    | Boost
    | GtRpn
    | GtRp0
    | GtMin
    | GtMax
    | ConstraintName(zone: nat, slot: nat)
    | ConstraintMax(zone: nat, slot: nat)
    | ConstraintMin(zone: nat, slot: nat)
    | ConstraintLimit(zone: nat, slot: nat)
    | PackageMin(zone: nat)
    | PackageMax(zone: nat)
    | BacklightMax(device: nat)
    | Brightness(device: nat)
  {
    /** Nodes the tool writes, and that firmware or other tools may write as well. */
    predicate Mutable() {
      CpuOnline? || ScalingMin? || ScalingMax? || NoTurbo? || Boost?
      || GtMin? || GtMax? || ConstraintLimit? || Brightness?
    }
  }

  datatype Content = Num(n: int) | Text(s: string)

  type Store = map<Node, Content>

  /** `read_i64`: nothing when the node is missing or does not parse. */
  function ReadI64(s: Store, node: Node): Option<int> {
    if node in s && s[node].Num? && -TWO_63 <= s[node].n < TWO_63 then Some(s[node].n) else None
  }

  /** `read_u64`. */
  function ReadU64(s: Store, node: Node): Option<nat> {
    if node in s && s[node].Num? && 0 <= s[node].n < TWO_64 then Some(s[node].n) else None
  }

  /** Content parsed as `u32`. */
  function ReadU32(s: Store, node: Node): Option<nat> {
    if node in s && s[node].Num? && 0 <= s[node].n < TWO_32 then Some(s[node].n) else None
  }

  /** A best-effort write of a number. */
  function Put(s: Store, node: Node, value: int): Store {
    if node in s then s[node := Num(value)] else s
  }

  /** The two stores expose the same discovery nodes with the same content. */
  ghost predicate SameHardware(s: Store, t: Store) {
    forall node: Node :: !node.Mutable() ==>
      (node in s <==> node in t) && (node in s ==> s[node] == t[node])
  }

  lemma SameHardwareIsTransitive(s: Store, t: Store, u: Store)
    requires SameHardware(s, t) && SameHardware(t, u)
    ensures SameHardware(s, u) && SameHardware(t, s)
  {
    forall node: Node | !node.Mutable()
      ensures (node in s <==> node in u) && (node in s ==> s[node] == u[node])
      ensures (node in t <==> node in s) && (node in t ==> t[node] == s[node])
    {
      assert node in s <==> node in t;
      assert node in t <==> node in u;
    }
  }

  /** The mounted tree: every read and write of the tool goes through it. */
  class SysfsRoot {
    var nodes: Store

    constructor (nodes: Store)
      ensures this.nodes == nodes
    {
      this.nodes := nodes;
    }

    method WriteBestEffort(node: Node, value: int)
      modifies this
      ensures nodes == Put(old(nodes), node, value)
    {
      if node in nodes {
        nodes := nodes[node := Num(value)];
      }
    }
  }
}
