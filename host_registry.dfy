/**
 * The class-level `server_data` hash of a memory backend: node host name to
 * the dataset shared by every backend handle of a client.  The first handle
 * created for a client registers one fresh dataset under the host of each of
 * the client's nodes; later handles for any of those hosts reuse it.
 */
module HostRegistry {
  import opened Common

  /** `hosts` after `client.nodes.each { |node| server_data[node.host] = d }`. */
  function Assign<D>(hosts: map<string, D>, nodeHosts: seq<string>, d: D): (r: map<string, D>)
    ensures hosts.Keys <= r.Keys
    ensures forall h :: h in nodeHosts ==> h in r && r[h] == d
    decreases |nodeHosts|
  {
    if nodeHosts == [] then hosts
    else Assign(hosts, nodeHosts[..|nodeHosts| - 1], d)[nodeHosts[|nodeHosts| - 1] := d]
  }

  /** Registration maps every node host to `d`, keeps every other host, and adds nothing else. */
  lemma {:induction false} AssignMeaning<D>(hosts: map<string, D>, nodeHosts: seq<string>, d: D)
    ensures forall h :: h in Assign(hosts, nodeHosts, d) <==> h in hosts || h in nodeHosts
    ensures forall h :: h in nodeHosts ==> Assign(hosts, nodeHosts, d)[h] == d
    ensures forall h :: h in hosts && h !in nodeHosts ==> Assign(hosts, nodeHosts, d)[h] == hosts[h]
    decreases |nodeHosts|
  {
    if nodeHosts != [] {
      var init := nodeHosts[..|nodeHosts| - 1];
      AssignMeaning(hosts, init, d);
      assert nodeHosts == init + [nodeHosts[|nodeHosts| - 1]];
    }
  }

  class Registry<D> {
    var hosts: map<string, D>

    /** `@server_data = {}`. */
    constructor()
      ensures hosts == map[]
    {
      hosts := map[];
    }

    /** `server_data[host]`, nil for a host never registered. */
    function Find(host: string): Option<D>
      reads this
    {
      if host in hosts then Some(hosts[host]) else None
    }

    /** Registers `d` under each node host, in the order the client lists its nodes. */
    method Register(nodeHosts: seq<string>, d: D)
      modifies this
      ensures hosts == Assign(old(hosts), nodeHosts, d)
    {
      var i := 0;
      while i < |nodeHosts|
        invariant 0 <= i <= |nodeHosts|
        invariant hosts == Assign(old(hosts), nodeHosts[..i], d)
      {
        assert nodeHosts[..i + 1][..i] == nodeHosts[..i];
        hosts := hosts[nodeHosts[i] := d];
        i := i + 1;
      }
      assert nodeHosts[..i] == nodeHosts;
    }
  }
}
