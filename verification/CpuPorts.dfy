/** Which CPU port each user and DSA port of a tree uses. */
module CpuPorts {
  import opened Entities

  class Port {
    const kind: PortType
    /** The switch, by its position in the tree. */
    const ds: nat
    var cpuDp: Port?

    constructor (kind: PortType, ds: nat)
      ensures this.kind == kind && this.ds == ds && cpuDp == null
    {
      this.kind, this.ds, cpuDp := kind, ds, null;
    }

    /** dsa_port_is_user or dsa_port_is_dsa */
    predicate NeedsCpu() {
      kind == User || kind == Dsa
    }
  }

  class SwitchTree {
    const ports: seq<Port>
    /** What preferred_default_local_cpu_port returns for each switch that has the operation and does
        not return NULL. */
    const preference: map<nat, Port>

    constructor (ports: seq<Port>, preference: map<nat, Port>)
      ensures this.ports == ports && this.preference == preference
    {
      this.ports, this.preference := ports, preference;
    }

    /** dsa_switch_preferred_default_local_cpu_port: an answer that is not a CPU port of the switch is
        ignored. */
    function Preferred(ds: nat): Port? {
      if ds in preference && preference[ds].kind == Cpu && preference[ds].ds == ds then preference[ds] else null
    }

    /** A CPU port that its own switch may use. */
    predicate Usable(p: Port) {
      p.kind == Cpu && (Preferred(p.ds) == null || Preferred(p.ds) == p)
    }

    /** The first of the first n ports that is a usable CPU port of switch ds, if any. */
    ghost function LocalCpu(n: nat, ds: nat): Port?
      requires n <= |ports|
    {
      if n == 0 then null
      else if LocalCpu(n - 1, ds) != null then LocalCpu(n - 1, ds)
      else if Usable(ports[n - 1]) && ports[n - 1].ds == ds then ports[n - 1]
      else null
    }

    /** The first CPU port of the tree, if any. */
    ghost predicate IsFirstCpu(p: Port?) {
      if p == null then forall i {:trigger ports[i]} :: 0 <= i < |ports| ==> ports[i].kind != Cpu
      else exists i :: 0 <= i < |ports| && ports[i] == p && p.kind == Cpu
                       && forall j {:trigger ports[j]} :: 0 <= j < i ==> ports[j].kind != Cpu
    }

    /** The order of preference: what the port has, its switch's port, the tree's first one. */
    ghost function Choice(p: Port, was: Port?, first: Port): Port? {
      if was != null || !p.NeedsCpu() then was
      else if LocalCpu(|ports|, p.ds) != null then LocalCpu(|ports|, p.ds)
      else first
    }

    lemma {:induction false} LocalCpuSpec(n: nat, ds: nat)
      requires n <= |ports|
      ensures LocalCpu(n, ds) == null <==>
        forall i {:trigger ports[i]} :: 0 <= i < n ==> !(Usable(ports[i]) && ports[i].ds == ds)
      ensures LocalCpu(n, ds) != null ==>
        exists i :: 0 <= i < n && ports[i] == LocalCpu(n, ds) && Usable(ports[i]) && ports[i].ds == ds
                    && forall j {:trigger ports[j]} :: 0 <= j < i ==> !(Usable(ports[j]) && ports[j].ds == ds)
    {
      if n == 0 {
      } else {
        LocalCpuSpec(n - 1, ds);
      }
    }

    /** The switch prefers this port, a CPU port of its own. */
    ghost predicate Prefers(ds: nat, p: Port) {
      ds in preference && preference[ds] == p && p.kind == Cpu && p.ds == ds
    }

    /** A switch's port: its preferred CPU port if that is in the tree, and none if it is not; or else, having no
        preference for a CPU port of its own, its first CPU port in list order. */
    lemma LocalCpuPrefers(ds: nat)
      ensures forall p :: Prefers(ds, p) ==> LocalCpu(|ports|, ds) == if p in ports then p else null
      ensures (forall p :: !Prefers(ds, p)) ==>
        if LocalCpu(|ports|, ds) == null
        then forall i {:trigger ports[i]} :: 0 <= i < |ports| ==> !(ports[i].kind == Cpu && ports[i].ds == ds)
        else exists i :: 0 <= i < |ports| && ports[i] == LocalCpu(|ports|, ds) && ports[i].kind == Cpu && ports[i].ds == ds
                         && forall j {:trigger ports[j]} :: 0 <= j < i ==> !(ports[j].kind == Cpu && ports[j].ds == ds)
    {
      LocalCpuSpec(|ports|, ds);
      assert ds in preference ==> Prefers(ds, preference[ds]) || !Prefers(ds, preference[ds]);
    }

    /** In a tree with a CPU port every user and DSA port gets one, and one of another switch only if the CPU
        ports of its own switch, if there are any, are not the one that it prefers; that is then the first of
        the tree. */
    lemma ChoiceIsCpu(p: Port, first: Port)
      requires IsFirstCpu(first) && (p.kind == User || p.kind == Dsa)
      ensures var c := Choice(p, null, first);
        && c != null && c in ports && c.kind == Cpu
        && (c.ds != p.ds ==>
              c == first
              && forall q :: q in ports && q.kind == Cpu && q.ds == p.ds ==>
                   !Prefers(p.ds, q) && exists r :: Prefers(p.ds, r))
    {
      LocalCpuSpec(|ports|, p.ds);
      assert Preferred(p.ds) != null ==> Prefers(p.ds, Preferred(p.ds));
    }

    /** Ports that have a CPU port keep it, and so do those of other kinds, whether they have one or not. */
    lemma ChoiceKeeps(p: Port, was: Port?, first: Port)
      requires was != null || (p.kind != User && p.kind != Dsa)
      ensures Choice(p, was, first) == was
    {
    }

    /** dsa_tree_find_first_cpu */
    method FindFirstCpu() returns (p: Port?)
      ensures IsFirstCpu(p)
    {
      for i := 0 to |ports|
        invariant forall j {:trigger ports[j]} :: 0 <= j < i ==> ports[j].kind != Cpu
      {
        if ports[i].kind == Cpu {
          return ports[i];
        }
      }
      return null;
    }

    /** dsa_tree_setup_default_cpu */
    method SetupDefaultCpu() returns (ok: bool, ghost first: Port?)
      modifies ports`cpuDp
      ensures IsFirstCpu(first) && (ok <==> first != null)
      ensures forall p :: p in ports ==>
        p.cpuDp == if old(p.cpuDp) == null && p.NeedsCpu() then first else old(p.cpuDp)
    {
      var cpuDp := FindFirstCpu();
      first := cpuDp;
      if cpuDp == null {
        return false, first;
      }
      for i := 0 to |ports|
        invariant forall p :: p in ports ==>
          p.cpuDp == if old(p.cpuDp) == null && p.NeedsCpu() && p in ports[..i] then first else old(p.cpuDp)
      {
        assert ports[..i + 1] == ports[..i] + [ports[i]];
        if ports[i].cpuDp == null {
          if ports[i].NeedsCpu() {
            ports[i].cpuDp := cpuDp;
          }
        }
      }
      assert ports[..|ports|] == ports;
      return true, first;
    }

    /** The inner loop of dsa_tree_setup_cpu_ports: the ports of a CPU port's own switch that have none
        yet. */
    method OfferLocally(cpuDp: Port)
      modifies ports`cpuDp
      ensures forall p :: p in ports ==>
        p.cpuDp == if old(p.cpuDp) == null && p.ds == cpuDp.ds && p.NeedsCpu() then cpuDp else old(p.cpuDp)
    {
      for i := 0 to |ports|
        invariant forall p :: p in ports ==>
          p.cpuDp == if old(p.cpuDp) == null && p.ds == cpuDp.ds && p.NeedsCpu() && p in ports[..i]
                     then cpuDp else old(p.cpuDp)
      {
        assert ports[..i + 1] == ports[..i] + [ports[i]];
        if ports[i].ds == cpuDp.ds {
          if ports[i].cpuDp == null {
            if ports[i].NeedsCpu() {
              ports[i].cpuDp := cpuDp;
            }
          }
        }
      }
      assert ports[..|ports|] == ports;
    }

    /** dsa_tree_setup_cpu_ports: it fails exactly when the tree has no CPU port, and then changes
        nothing. */
    method SetupCpuPorts() returns (ok: bool, ghost first: Port?)
      modifies ports`cpuDp
      ensures IsFirstCpu(first) && (ok <==> first != null)
      ensures forall p :: p in ports ==>
        p.cpuDp == if first == null then old(p.cpuDp) else Choice(p, old(p.cpuDp), first)
    {
      for i := 0 to |ports|
        invariant forall p :: p in ports ==>
          p.cpuDp == if old(p.cpuDp) == null && p.NeedsCpu() then LocalCpu(i, p.ds) else old(p.cpuDp)
      {
        var cpuDp := ports[i];
        if cpuDp.kind == Cpu {
          var preferred := Preferred(cpuDp.ds);
          if preferred == null || preferred == cpuDp {
            OfferLocally(cpuDp);
          }
        }
      }
      ok, first := SetupDefaultCpu();
      if first == null {
        forall ds {
          LocalCpuSpec(|ports|, ds);
        }
      }
    }

    /** dsa_tree_teardown_cpu_ports */
    method TeardownCpuPorts()
      modifies ports`cpuDp
      ensures forall p :: p in ports ==> p.cpuDp == if p.NeedsCpu() then null else old(p.cpuDp)
    {
      for i := 0 to |ports|
        invariant forall p :: p in ports ==>
          p.cpuDp == if p.NeedsCpu() && p in ports[..i] then null else old(p.cpuDp)
      {
        assert ports[..i + 1] == ports[..i] + [ports[i]];
        if ports[i].NeedsCpu() {
          ports[i].cpuDp := null;
        }
      }
      assert ports[..|ports|] == ports;
    }
  }
}
