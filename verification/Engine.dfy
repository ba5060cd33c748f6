/**
 The flow engine's deployment state and its `full` and `nodes` deploys.

 A running node is known by a handle (its identity in Go); handles are never
 reused, so "the same instance" is "the same handle".  `launched` lists the
 handles on which Start was called, in order; `launches` says whether that call
 succeeds, and `looping` holds the handles whose loop was started.
 */
module Engines {
  import opened JsonValues
  import opened Workspaces
  import opened Deployment

  datatype Running = Running(handle: nat, def: NodeDef, localWires: Wires, localTargets: map<string, nat>)

  datatype ConfigInstance = ConfigInstance(handle: nat, cfg: ConfigNode)

  function WiresOf(wires: map<string, Wires>, id: string): Wires {
    if id in wires then wires[id] else []
  }

  // The wires of `id` after the definitions `ps` were written over `wires`.
  function WiresGiven(ps: seq<Placed>, wires: map<string, Wires>, id: string): Wires {
    if id in Index(ps) then Index(ps)[id].node.wires else WiresOf(wires, id)
  }

  function Handles(nodes: map<string, Running>): map<string, nat> {
    map id | id in nodes :: nodes[id].handle
  }

  function Resolve(w: Wires, hs: map<string, nat>): map<string, nat> {
    map t | t in Mentioned(w) && t in hs :: hs[t]
  }

  function LinksOf(nodes: map<string, Running>): map<string, nat> {
    map id | id in nodes && IsLink(nodes[id].def.typ) :: nodes[id].handle
  }

  function SeenNodes(nodes: map<string, Running>): map<string, Seen> {
    map id | id in nodes :: Seen(nodes[id].def, nodes[id].localWires)
  }

  // What SeenNodes becomes once wireAllNodes has run.
  function Staged(nodes: map<string, Running>, wires: map<string, Wires>): map<string, Seen> {
    map id | id in nodes :: Seen(nodes[id].def, WiresOf(wires, id))
  }

  function Configs(insts: map<string, ConfigInstance>): map<string, ConfigNode> {
    map id | id in insts :: insts[id].cfg
  }

  ghost predicate NodeWired(nodes: map<string, Running>, wires: map<string, Wires>, id: string)
    requires id in nodes
  {
    nodes[id].localWires == WiresOf(wires, id) &&
    nodes[id].localTargets == Resolve(nodes[id].localWires, Handles(nodes))
  }

  ghost predicate Wired(nodes: map<string, Running>, wires: map<string, Wires>, links: map<string, nat>) {
    (forall id :: id in nodes ==> NodeWired(nodes, wires, id)) && links == LinksOf(nodes)
  }

  // Handles are distinct, and so are the started ones: one loop per node.
  ghost predicate Handled(nodes: map<string, Running>, next: nat, launched: seq<nat>) {
    (forall id :: id in nodes ==> nodes[id].handle < next) &&
    (forall a, b :: a in nodes && b in nodes && a != b ==> nodes[a].handle != nodes[b].handle) &&
    (forall i :: 0 <= i < |launched| ==> launched[i] < next) &&
    (forall i, j :: 0 <= i < j < |launched| ==> launched[i] != launched[j])
  }

  ghost predicate ConfigsBefore(insts: map<string, ConfigInstance>, next: nat) {
    forall id :: id in insts ==> insts[id].handle < next
  }

  // Every running instance was made at or after handle `lo`.
  ghost predicate AllSince(nodes: map<string, Running>, lo: nat) {
    forall id :: id in nodes ==> nodes[id].handle >= lo
  }

  ghost predicate AllBefore(launched: seq<nat>, next: nat) {
    forall h :: h in launched ==> h < next
  }

  ghost predicate NoneLaunched(nodes: map<string, Running>, ids: set<string>, launched: seq<nat>) {
    forall id :: id in ids && id in nodes ==> nodes[id].handle !in launched
  }

  ghost predicate TheseLaunched(nodes: map<string, Running>, ids: set<string>, launched: seq<nat>) {
    forall id :: id in ids && id in nodes ==> nodes[id].handle in launched
  }

  ghost predicate AllLaunched(nodes: map<string, Running>, launched: seq<nat>) {
    forall id :: id in nodes ==> nodes[id].handle in launched
  }

  // Same instances, whatever their wiring.
  ghost predicate SameInstances(a: map<string, Running>, b: map<string, Running>) {
    a.Keys == b.Keys && forall id :: id in a ==> a[id].handle == b[id].handle && a[id].def == b[id].def
  }

  // `now` is `was` plus those of `ids` that could be built from `ix`.
  ghost predicate BuiltFrom(creates: Creates, was: map<string, Running>, now: map<string, Running>,
                            ids: set<string>, ix: map<string, Placed>, lo: nat)
  {
    (forall id :: id in now <==> id in was || (id in ids && id in ix && Builds(creates, ix[id]))) &&
    (forall id :: id in was ==> id in now && now[id] == was[id]) &&
    (forall id :: id in now && id in ids ==> id in ix && now[id].def == DefOf(ix[id]) && now[id].handle >= lo)
  }

  function LoopsOf(launches: nat -> bool, launched: seq<nat>): set<nat> {
    set h | h in launched && launches(h)
  }

  function HandlesOf(nodes: map<string, Running>, ids: set<string>): set<nat> {
    set id | id in ids && id in nodes :: nodes[id].handle
  }

  class Engine {
    const creates: Creates
    const starts: Starts
    const launches: nat -> bool
    var flows: Option<seq<Flow>>
    var configs: seq<ConfigNode>
    var nodes: map<string, Running>
    var wires: map<string, Wires>
    var links: map<string, nat>
    var configInstances: map<string, ConfigInstance>
    var next: nat
    var launched: seq<nat>
    var looping: set<nat>

    ghost predicate Valid()
      reads this
    {
      Wired(nodes, wires, links) && Handled(nodes, next, launched) && AllLaunched(nodes, launched) &&
      looping == LoopsOf(launches, launched) &&
      ConfigsBefore(configInstances, next) &&
      (flows.Some? ==> nodes.Keys <= Index(AllNodes(flows.value)).Keys &&
                       configInstances.Keys <= ConfigIndex(configs).Keys)
    }

    lemma Unpack()
      requires Valid()
      ensures Wired(nodes, wires, links) && Handled(nodes, next, launched) && AllLaunched(nodes, launched)
      ensures ConfigsBefore(configInstances, next) && looping == LoopsOf(launches, launched)
      ensures flows.Some? ==> nodes.Keys <= Index(AllNodes(flows.value)).Keys && configInstances.Keys <= ConfigIndex(configs).Keys
    {
    }

    lemma Pack()
      requires Wired(nodes, wires, links) && Handled(nodes, next, launched) && AllLaunched(nodes, launched)
      requires ConfigsBefore(configInstances, next) && looping == LoopsOf(launches, launched)
      requires flows.Some? ==> nodes.Keys <= Index(AllNodes(flows.value)).Keys && configInstances.Keys <= ConfigIndex(configs).Keys
      ensures Valid()
    {
    }

    ghost function Current(): View
      reads this
    {
      View(SeenNodes(nodes), map id | id in nodes :: nodes[id].localTargets.Keys, links.Keys, Configs(configInstances))
    }

    lemma CurrentIsResolved()
      requires Wired(nodes, wires, links)
      ensures Current() == Resolved(SeenNodes(nodes), Configs(configInstances))
    {
      WiredIsResolved(nodes, wires, links, Configs(configInstances));
    }

    constructor (creates: Creates, starts: Starts, launches: nat -> bool)
      ensures Valid() && flows == None && nodes == map[]
      ensures this.creates == creates && this.starts == starts && this.launches == launches
    {
      this.creates, this.starts, this.launches := creates, starts, launches;
      flows, configs, nodes, wires, links, configInstances, next, launched, looping :=
        None, [], map[], map[], map[], map[], 0, [], {};
    }

    /******* Nodes *******/

    method InstantiateNode(p: Placed)
      requires Handled(nodes, next, launched)
      modifies this`nodes, this`wires, this`next
      ensures Handled(nodes, next, launched)
      ensures Builds(creates, p) ==>
                nodes == old(nodes)[p.node.id := Running(old(next), DefOf(p), [], map[])] &&
                wires == old(wires)[p.node.id := p.node.wires] && next == old(next) + 1
      ensures !Builds(creates, p) ==> nodes == old(nodes) && wires == old(wires) && next == old(next)
    {
      if p.node.disabled { return; }
      var nc := DefOf(p);
      if !creates(nc) { return; }
      nodes := nodes[p.node.id := Running(next, nc, [], map[])];
      wires := wires[p.node.id := p.node.wires];
      next := next + 1;
    }

    method ResolveTargets(w: Wires) returns (targets: map<string, nat>)
      ensures targets == Resolve(w, Handles(nodes))
    {
      hide Resolve, Handles;
      targets := map[];
      ghost var hs := Handles(nodes);
      HandlesAre(nodes);
      NothingResolved(hs);
      for p := 0 to |w|
        invariant targets == Resolve(w[..p], hs)
      {
        ResolveRow(w[..p], w[p], hs);
        for j := 0 to |w[p]|
          invariant targets == Resolve(w[..p] + [w[p][..j]], hs)
        {
          ResolveSnoc(w[..p], w[p], j, hs);
          var t := w[p][j];
          if t in nodes { targets := targets[t := nodes[t].handle]; }
        }
        assert w[..p] + [w[p]] == w[..p + 1];
      }
      assert w[..|w|] == w;
    }

    method RebuildLinks()
      modifies this`links
      ensures links == LinksOf(nodes)
    {
      links := map[];
      var todo := nodes.Keys;
      while todo != {}
        invariant todo <= nodes.Keys
        invariant links == map id | id in nodes && id !in todo && IsLink(nodes[id].def.typ) :: nodes[id].handle
        decreases todo
      {
        var id :| id in todo;
        if IsLink(nodes[id].def.typ) { links := links[id := nodes[id].handle]; }
        todo := todo - {id};
      }
      assert links == LinksOf(nodes);
    }

    method WireAllNodes()
      modifies this`nodes, this`links
      ensures Wired(nodes, wires, links)
      ensures SameInstances(nodes, old(nodes))
      ensures SeenNodes(nodes) == Staged(old(nodes), wires)
    {
      hide Resolve, Staged, SeenNodes, Wired;
      var todo := nodes.Keys;
      while todo != {}
        invariant todo <= nodes.Keys
        invariant SameInstances(nodes, old(nodes)) && Handles(nodes) == Handles(old(nodes))
        invariant forall id :: id in nodes && id !in todo ==> NodeWired(nodes, wires, id)
        decreases todo
      {
        var id :| id in todo;
        var w := WiresOf(wires, id);
        var targets := ResolveTargets(w);
        ghost var before := nodes;
        nodes := nodes[id := nodes[id].(localWires := w, localTargets := targets)];
        assert Handles(nodes) == Handles(before);
        todo := todo - {id};
      }
      RebuildLinks();
      NowWired(nodes, old(nodes), wires, links);
    }

    // Start is called once on each of `ids`, in any order; a failed call leaves
    // the node without a loop.
    method StartNodeLoops(ids: set<string>)
      requires Handled(nodes, next, launched) && looping == LoopsOf(launches, launched)
      requires NoneLaunched(nodes, ids, launched)
      modifies this`launched, this`looping
      ensures Handled(nodes, next, launched) && looping == LoopsOf(launches, launched)
      ensures TheseLaunched(nodes, ids, launched)
      ensures old(launched) <= launched && forall h :: h in launched ==> h in old(launched) || h in HandlesOf(nodes, ids)
    {
      hide LoopsOf;
      var todo := ids;
      while todo != {}
        invariant todo <= ids
        invariant Handled(nodes, next, launched) && looping == LoopsOf(launches, launched)
        invariant old(launched) <= launched && forall h :: h in launched ==> h in old(launched) || h in HandlesOf(nodes, ids)
        invariant forall id :: id in ids && id in nodes ==> (nodes[id].handle in launched <==> id !in todo)
        decreases todo
      {
        var id :| id in todo;
        todo := todo - {id};
        if id in nodes {
          var h := nodes[id].handle;
          OneMoreLoop(launches, launched, h);
          launched := launched + [h];
          if launches(h) { looping := looping + {h}; }
        }
      }
    }

    // Without nodes stopAllNodes returns early and leaves the config nodes running.
    method StopAllNodes()
      modifies this`nodes, this`wires, this`links, this`configInstances
      ensures nodes == map[]
      ensures old(nodes) != map[] ==> wires == map[] && links == map[] && configInstances == map[]
      ensures old(nodes) == map[] ==> wires == old(wires) && links == old(links) && configInstances == old(configInstances)
    {
      if nodes == map[] { return; }
      nodes, wires, links, configInstances := map[], map[], map[], map[];
    }

    method StopAndRemoveNodes(ids: set<string>)
      requires Wired(nodes, wires, links) && Handled(nodes, next, launched)
      modifies this`nodes, this`wires, this`links
      ensures Wired(nodes, wires, links) && Handled(nodes, next, launched)
      ensures SameInstances(nodes, old(nodes) - ids)
      ensures SeenNodes(nodes) == SeenNodes(old(nodes)) - ids
    {
      hide Handled, Wired, SameInstances, Staged, SeenNodes, Handles;
      if nodes.Keys * ids == {} {
        NoneRemoved(nodes, ids);
        return;
      }
      RemovedAreUnseen(nodes, wires, links, ids);
      RemovedUnhandled(nodes, ids, next, launched);
      nodes, wires, links := nodes - ids, wires - ids, links - ids;
      ghost var mid := nodes;
      WireAllNodes();
      SameHandled(nodes, mid, next, launched);
    }

    /******* Config nodes *******/

    method StartConfigNode(cfg: ConfigNode)
      modifies this`configInstances, this`next
      ensures starts(cfg) ==> configInstances == old(configInstances)[cfg.id := ConfigInstance(old(next), cfg)] && next == old(next) + 1
      ensures !starts(cfg) ==> configInstances == old(configInstances) && next == old(next)
    {
      if !starts(cfg) { return; }
      configInstances := configInstances[cfg.id := ConfigInstance(next, cfg)];
      next := next + 1;
    }

    method DeployConfigs(cs: seq<ConfigNode>)
      modifies this`configInstances, this`next
      ensures Configs(configInstances) == FullConfigs(starts, cs)
      ensures next >= old(next) && ConfigsBefore(configInstances, next)
    {
      configInstances := map[];
      for i := 0 to |cs|
        invariant Configs(configInstances) == FullConfigs(starts, cs[..i])
        invariant next >= old(next) && ConfigsBefore(configInstances, next)
      {
        assert cs[..i + 1][..i] == cs[..i];
        StartConfigNode(cs[i]);
      }
      assert cs[..|cs|] == cs;
    }

    // Builds `ids` again from their new definitions.
    method RestartConfigs(ids: set<string>, ix: map<string, ConfigNode>)
      requires forall id :: id in ix ==> ix[id].id == id
      requires ids !! configInstances.Keys
      modifies this`configInstances, this`next
      ensures forall id :: id in configInstances <==> id in old(configInstances) || (id in ids && id in ix && starts(ix[id]))
      ensures forall id :: id in old(configInstances) ==> configInstances[id] == old(configInstances)[id]
      ensures forall id :: id in configInstances && id in ids ==> configInstances[id].cfg == ix[id] && configInstances[id].handle < next
      ensures next >= old(next)
    {
      var todo := ids;
      while todo != {}
        invariant todo <= ids && next >= old(next)
        invariant forall id :: id in configInstances <==> id in old(configInstances) || (id in ids - todo && id in ix && starts(ix[id]))
        invariant forall id :: id in old(configInstances) ==> configInstances[id] == old(configInstances)[id]
        invariant forall id :: id in configInstances && id in ids ==> configInstances[id].cfg == ix[id] && configInstances[id].handle < next
        decreases todo
      {
        var id :| id in todo;
        if id in ix { StartConfigNode(ix[id]); }
        todo := todo - {id};
      }
    }

    method ApplyConfigDiff(ghost old_: Workspace, new_: Workspace, d: Diff)
      requires d == DiffOf(old_, new_)
      requires configInstances.Keys !! d.addedConfigs
      modifies this`configInstances, this`next
      ensures Configs(configInstances) == PatchConfigs(starts, Configs(old(configInstances)), old_, new_)
      ensures next >= old(next)
      ensures forall id :: id in configInstances && id !in d.modifiedConfigs + d.addedConfigs ==>
                id in old(configInstances) && configInstances[id] == old(configInstances)[id]
      ensures ConfigsBefore(old(configInstances), old(next)) ==> ConfigsBefore(configInstances, next)
    {
      var ix := IndexConfigs(new_.configs);
      ConfigIndexIsMember(new_.configs);
      configInstances := configInstances - d.removedConfigs;
      configInstances := configInstances - d.modifiedConfigs;
      RestartConfigs(d.modifiedConfigs, ix);
      RestartConfigs(d.addedConfigs, ix);
      PatchedConfigs(starts, old(configInstances), configInstances, old_, new_);
    }

    /******* Deploys *******/

    // Builds every node of every enabled flow.
    method InstantiateAll(fs: seq<Flow>)
      requires nodes == map[] && Handled(nodes, next, launched)
      modifies this`nodes, this`wires, this`next
      ensures Handled(nodes, next, launched) && next >= old(next)
      ensures AllSince(nodes, old(next))
      ensures Staged(nodes, wires) == FullNodes(creates, AllNodes(fs))
    {
      hide Handled, Place;
      for i := 0 to |fs|
        invariant Handled(nodes, next, launched) && next >= old(next)
        invariant AllSince(nodes, old(next))
        invariant Staged(nodes, wires) == FullNodes(creates, AllNodes(fs[..i]))
      {
        AllNodesSnoc(fs, i);
        ghost var before := AllNodes(fs[..i]);
        AllPlaced(before, fs[i]);
        if fs[i].disabled {
          DisabledFlowRunsNothing(creates, before, fs[i], |fs[i].nodes|);
        } else {
          InstantiateFlow(fs[i], before, old(next));
        }
      }
      assert fs[..|fs|] == fs;
    }

    method InstantiateFlow(f: Flow, ghost before: seq<Placed>, ghost lo: nat)
      requires !f.disabled && Handled(nodes, next, launched) && AllSince(nodes, lo) && lo <= next
      requires Staged(nodes, wires) == FullNodes(creates, before)
      modifies this`nodes, this`wires, this`next
      ensures Handled(nodes, next, launched) && next >= old(next) && AllSince(nodes, lo)
      ensures Staged(nodes, wires) == FullNodes(creates, before + Place(f, f.nodes))
    {
      hide Handled, AllSince, Staged, FullNodes, Place, Builds;
      AllPlaced(before, f);
      for j := 0 to |f.nodes|
        invariant Handled(nodes, next, launched) && next >= old(next) && AllSince(nodes, lo)
        invariant Staged(nodes, wires) == FullNodes(creates, before + Place(f, f.nodes[..j]))
      {
        var p := Placed(f.nodes[j], f.id, f.disabled);
        SnocNode(before, f, j);
        FullNodesSnoc(creates, before + Place(f, f.nodes[..j]), p);
        ghost var (ns, ws, at) := (nodes, wires, next);
        InstantiateNode(p);
        StagedAfterBuild(creates, ns, ws, p, nodes, wires, at, lo);
      }
    }

    method DeployFull(fs: seq<Flow>, cs: seq<ConfigNode>)
      requires Valid()
      modifies this
      ensures Valid() && flows == Some(fs) && configs == cs
      ensures Current() == FullView(creates, starts, Workspace(fs, cs))
      ensures AllSince(nodes, old(next))
    {
      hide *;
      Unpack();
      ghost var (nodes0, next0, launched0) := (nodes, next, launched);
      StopAllNodes();
      DeployConfigs(cs);
      nodes, wires := map[], map[];
      NoneHandled(nodes0, next0, launched0, next);
      ghost var lo := next;
      InstantiateAll(fs);
      ghost var staged := nodes;
      WireAllNodes();
      SameHandled(nodes, staged, next, launched);
      NotYetLaunched(nodes, staged, next0, lo, launched0);
      ConfigsStillBefore(configInstances, lo, next);
      StartNodeLoops(nodes.Keys);
      EveryoneLaunched(nodes, launched);
      flows, configs := Some(fs), cs;
      FullNodesAreIndexed(creates, AllNodes(fs));
      FullConfigsAreIndexed(starts, cs);
      KeysSeen(nodes, configInstances);
      Pack();
      CurrentIsResolved();
      FullViewParts(creates, starts, Workspace(fs, cs));
    }

    // Builds the restarted nodes from the new index.
    method InstantiateSome(ids: set<string>, ix: map<string, Placed>)
      requires forall id :: id in ix ==> ix[id].node.id == id
      requires Handled(nodes, next, launched) && ids !! nodes.Keys
      modifies this`nodes, this`wires, this`next
      ensures Handled(nodes, next, launched) && next >= old(next)
      ensures BuiltFrom(creates, old(nodes), nodes, ids, ix, old(next))
    {
      hide Handled, BuiltFrom, Builds;
      var todo := ids;
      NothingBuilt(creates, nodes, {}, ix, next);
      assert ids - todo == {};
      while todo != {}
        invariant todo <= ids && Handled(nodes, next, launched) && next >= old(next)
        invariant BuiltFrom(creates, old(nodes), nodes, ids - todo, ix, old(next))
        decreases todo
      {
        var id :| id in todo;
        ghost var (done, before, at) := (ids - todo, nodes, next);
        todo := todo - {id};
        assert ids - todo == done + {id};
        if id in ix { InstantiateNode(ix[id]); }
        OneMoreBuilt(creates, old(nodes), before, nodes, done, id, ix, old(next), at);
      }
      assert ids - todo == ids;
    }

    method UpdateWires(fs: seq<Flow>)
      modifies this`wires
      ensures forall id :: WiresOf(wires, id) == WiresGiven(AllNodes(fs), old(wires), id)
    {
      hide WiresGiven;
      NoWiresGiven(wires);
      for i := 0 to |fs|
        invariant forall id :: WiresOf(wires, id) == WiresGiven(AllNodes(fs[..i]), old(wires), id)
      {
        ghost var before := AllNodes(fs[..i]);
        var f := fs[i];
        AllPlaced(before, f);
        for j := 0 to |f.nodes|
          invariant forall id :: WiresOf(wires, id) == WiresGiven(before + Place(f, f.nodes[..j]), old(wires), id)
        {
          SnocNode(before, f, j);
          WiresGivenSnoc(before + Place(f, f.nodes[..j]), Placed(f.nodes[j], f.id, f.disabled), old(wires));
          wires := wires[f.nodes[j].id := f.nodes[j].wires];
        }
        AllNodesSnoc(fs, i);
      }
      assert fs[..|fs|] == fs;
    }

    // The node half of a nodes-mode deploy: stop, rebuild, rewire, start.
    method ReplaceNodes(ghost old_: Workspace, new_: Workspace, e: Diff)
      requires e == Expanded(DiffOf(old_, new_), new_)
      requires Wired(nodes, wires, links) && Handled(nodes, next, launched) && AllLaunched(nodes, launched)
      requires nodes.Keys <= Index(AllNodes(old_.flows)).Keys && looping == LoopsOf(launches, launched)
      modifies this`nodes, this`wires, this`links, this`next, this`launched, this`looping
      ensures Wired(nodes, wires, links) && Handled(nodes, next, launched) && AllLaunched(nodes, launched)
      ensures looping == LoopsOf(launches, launched)
      ensures nodes.Keys <= Index(AllNodes(new_.flows)).Keys && next >= old(next)
      ensures SeenNodes(nodes) == PatchNodes(creates, SeenNodes(old(nodes)), old_, new_)
      ensures Renewed(nodes, old(nodes), old(launched), old(next), Restarted(old_, new_))
    {
      hide *;
      ghost var (nodes0, next0, launched0) := (nodes, next, launched);
      NoneHandled(nodes0, next0, launched0, next);
      DiffParts(old_, new_);
      var restart := e.modifiedNodes + e.addedNodes;
      StopAndRemoveNodes(e.removedNodes + e.modifiedNodes);
      ghost var kept := nodes;
      SurvivorsKept(nodes0, kept, old_, new_);
      var ix := IndexNodes(new_.flows);
      IndexIsPlaced(AllNodes(new_.flows));
      InstantiateSome(restart, ix);
      UpdateWires(new_.flows);
      NewWiresGiven(AllNodes(new_.flows));
      PatchedNodes(creates, SeenNodes(nodes0), kept, nodes, wires, old_, new_, next0);
      InstancesOf(creates, nodes0, kept, nodes, launched0, next0, next0, old_, new_);
      ghost var staged := nodes;
      WireAllNodes();
      SameHandled(nodes, staged, next, launched);
      SameInstancesOf(nodes, staged, nodes0, launched0, next0, old_, new_);
      RestartNotLaunched(nodes, nodes0, launched0, next0, restart);
      StartNodeLoops(restart);
      NowLaunched(nodes, launched0, launched, restart);
    }

    method DeployModifiedNodes(fs: seq<Flow>, cs: seq<ConfigNode>)
      requires Valid()
      modifies this
      ensures Valid() && flows == Some(fs) && configs == cs
      ensures old(flows).None? ==> Current() == FullView(creates, starts, Workspace(fs, cs))
      ensures old(flows).Some? ==>
        var (old_, new_) := (Workspace(old(flows).value, old(configs)), Workspace(fs, cs));
        Current() == NodesView(creates, starts, old(Current()), old_, new_) &&
        Renewed(nodes, old(nodes), old(launched), old(next), Restarted(old_, new_)) &&
        ConfigsKept(configInstances, old(configInstances), DiffOf(old_, new_))
    {
      hide *;
      if flows.None? {
        DeployFull(fs, cs);
        return;
      }
      Unpack();
      var old_, new_ := Workspace(flows.value, configs), Workspace(fs, cs);
      var d := DiffWorkspaces(old_, new_);
      CurrentIsResolved();
      NodesViewParts(creates, starts, SeenNodes(nodes), Configs(configInstances), old_, new_);
      DiffParts(old_, new_);
      if d.IsEmpty() {
        EmptyDiffRestartsNothing(old_, new_);
        NobodyRenewed(nodes, launched, next, Restarted(old_, new_));
        AllConfigsKept(configInstances, d);
        flows, configs := Some(fs), cs;
        Pack();
        CurrentIsResolved();
        return;
      }
      ghost var (next0, launched0, configs0) := (next, launched, configInstances);
      ApplyConfigDiff(old_, new_, d);
      NoneHandled(nodes, next0, launched, next);
      SomeConfigsKept(configInstances, configs0, d);
      ghost var (nodes0, next1) := (nodes, next);
      var e := ExpandConfigDependents(d, new_);
      ReplaceNodes(old_, new_, e);
      RenewedSince(nodes, nodes0, launched0, next0, Restarted(old_, new_));
      ConfigsStillBefore(configInstances, next1, next);
      flows, configs := Some(fs), cs;
      KeysSeen(nodes, configInstances);
      PatchedConfigsAreIndexed(starts, configInstances, configs0, old_, new_);
      Pack();
      CurrentIsResolved();
    }
  }

  // Restarted nodes are new and not started yet; the others are the old, started instances.
  ghost predicate Renewed(nodes: map<string, Running>, was: map<string, Running>, launched: seq<nat>, lo: nat, restart: set<string>) {
    forall id :: id in nodes ==>
      if id in restart then nodes[id].handle >= lo && nodes[id].handle !in launched
      else id in was && nodes[id].handle == was[id].handle && nodes[id].handle in launched
  }

  // Config nodes whose properties did not change keep their instance.
  ghost predicate ConfigsKept(now: map<string, ConfigInstance>, was: map<string, ConfigInstance>, d: Diff) {
    forall id :: id in now && id !in d.modifiedConfigs + d.addedConfigs ==> id in was && now[id] == was[id]
  }

  // In an engine that is wired, the targets of a node are the very instances
  // that now run under the ids its wires name, and the links those of the link
  // nodes: nobody holds on to an instance that is gone.
  lemma TargetsAreRunning(nodes: map<string, Running>, wires: map<string, Wires>, links: map<string, nat>, id: string, t: string)
    requires Wired(nodes, wires, links) && id in nodes
    ensures t in nodes[id].localTargets <==>
            t in nodes && exists p, q :: 0 <= p < |nodes[id].localWires| && 0 <= q < |nodes[id].localWires[p]| && nodes[id].localWires[p][q] == t
    ensures t in nodes[id].localTargets ==> nodes[id].localTargets[t] == nodes[t].handle
    ensures id in links <==> nodes[id].def.typ == "link-in" || nodes[id].def.typ == "link-out" || nodes[id].def.typ == "link-call"
    ensures id in links ==> links[id] == nodes[id].handle
  {
    assert NodeWired(nodes, wires, id);
    HandlesAre(nodes);
  }

  lemma OneMoreLoop(launches: nat -> bool, launched: seq<nat>, h: nat)
    ensures LoopsOf(launches, launched + [h]) == LoopsOf(launches, launched) + if launches(h) then {h} else {}
  {
  }

  lemma FullViewParts(creates: Creates, starts: Starts, w: Workspace)
    ensures FullView(creates, starts, w) == Resolved(FullNodes(creates, AllNodes(w.flows)), FullConfigs(starts, w.configs))
  {
  }

  lemma NodesViewParts(creates: Creates, starts: Starts, nodes: map<string, Seen>, configs: map<string, ConfigNode>,
                       old_: Workspace, new_: Workspace)
    ensures NodesView(creates, starts, Resolved(nodes, configs), old_, new_) ==
            if DiffOf(old_, new_).IsEmpty() then Resolved(nodes, configs)
            else Resolved(PatchNodes(creates, nodes, old_, new_), PatchConfigs(starts, configs, old_, new_))
  {
  }

  lemma NobodyRenewed(nodes: map<string, Running>, launched: seq<nat>, next: nat, restart: set<string>)
    requires AllLaunched(nodes, launched) && restart == {}
    ensures Renewed(nodes, nodes, launched, next, restart)
  {
  }

  lemma AllConfigsKept(insts: map<string, ConfigInstance>, d: Diff)
    ensures ConfigsKept(insts, insts, d)
  {
  }

  lemma SomeConfigsKept(now: map<string, ConfigInstance>, was: map<string, ConfigInstance>, d: Diff)
    requires forall id :: id in now && id !in d.modifiedConfigs + d.addedConfigs ==> id in was && now[id] == was[id]
    ensures ConfigsKept(now, was, d)
  {
  }

  lemma RenewedSince(nodes: map<string, Running>, was: map<string, Running>, launched: seq<nat>, lo: nat, restart: set<string>)
    requires exists later :: lo <= later && Renewed(nodes, was, launched, later, restart)
    ensures Renewed(nodes, was, launched, lo, restart)
  {
  }

  lemma RestartNotLaunched(nodes: map<string, Running>, was: map<string, Running>, launched: seq<nat>, lo: nat, restart: set<string>)
    requires Renewed(nodes, was, launched, lo, restart)
    ensures NoneLaunched(nodes, restart, launched)
    ensures TheseLaunched(nodes, nodes.Keys - restart, launched)
  {
  }

  lemma NewWiresGiven(ps: seq<Placed>)
    ensures forall wires, id {:trigger WiresGiven(ps, wires, id)} :: id in Index(ps) ==> WiresGiven(ps, wires, id) == Index(ps)[id].node.wires
  {
  }

  lemma PatchedConfigsAreIndexed(starts: Starts, now: map<string, ConfigInstance>, was: map<string, ConfigInstance>,
                                 old_: Workspace, new_: Workspace)
    requires Configs(now) == PatchConfigs(starts, Configs(was), old_, new_)
    requires was.Keys <= ConfigIndex(old_.configs).Keys
    ensures now.Keys <= ConfigIndex(new_.configs).Keys
  {
    KeysSeen(map[], now);
    KeysSeen(map[], was);
    assert Configs(now).Keys <= ConfigIndex(new_.configs).Keys;
  }

  lemma DiffParts(old_: Workspace, new_: Workspace)
    ensures
      var (d, e) := (DiffOf(old_, new_), Expanded(DiffOf(old_, new_), new_));
      Restarted(old_, new_) == e.modifiedNodes + e.addedNodes &&
      e.removedNodes == Index(AllNodes(old_.flows)).Keys - Index(AllNodes(new_.flows)).Keys &&
      e.addedNodes == Index(AllNodes(new_.flows)).Keys - Index(AllNodes(old_.flows)).Keys &&
      d.addedConfigs == ConfigIndex(new_.configs).Keys - ConfigIndex(old_.configs).Keys &&
      d.removedConfigs == ConfigIndex(old_.configs).Keys - ConfigIndex(new_.configs).Keys
  {
  }

  lemma SurvivorsKept(was: map<string, Running>, kept: map<string, Running>, old_: Workspace, new_: Workspace)
    requires
      var e := Expanded(DiffOf(old_, new_), new_);
      SameInstances(kept, was - (e.removedNodes + e.modifiedNodes)) && was.Keys <= Index(AllNodes(old_.flows)).Keys
    ensures kept.Keys !! Restarted(old_, new_) && kept.Keys <= Index(AllNodes(new_.flows)).Keys
    ensures forall id :: id in kept ==> id in was && kept[id].handle == was[id].handle
  {
    DiffParts(old_, new_);
  }

  lemma InstancesOf(creates: Creates, was: map<string, Running>, kept: map<string, Running>, nodes: map<string, Running>,
                    launched: seq<nat>, next: nat, lo: nat, old_: Workspace, new_: Workspace)
    requires BuiltFrom(creates, kept, nodes, Restarted(old_, new_), Index(AllNodes(new_.flows)), lo)
    requires kept.Keys !! Restarted(old_, new_) && next <= lo && AllLaunched(was, launched)
    requires forall id :: id in kept ==> id in was && kept[id].handle == was[id].handle
    requires AllBefore(launched, next)
    requires kept.Keys <= Index(AllNodes(new_.flows)).Keys
    ensures Renewed(nodes, was, launched, next, Restarted(old_, new_))
    ensures nodes.Keys <= Index(AllNodes(new_.flows)).Keys
  {
  }

  lemma SameInstancesOf(nodes: map<string, Running>, staged: map<string, Running>, was: map<string, Running>,
                        launched: seq<nat>, next: nat, old_: Workspace, new_: Workspace)
    requires SameInstances(nodes, staged) && Renewed(staged, was, launched, next, Restarted(old_, new_))
    ensures Renewed(nodes, was, launched, next, Restarted(old_, new_))
  {
  }

  lemma NowLaunched(nodes: map<string, Running>, launched: seq<nat>, launched': seq<nat>, restart: set<string>)
    requires launched <= launched'
    requires TheseLaunched(nodes, nodes.Keys - restart, launched)
    requires TheseLaunched(nodes, restart, launched')
    ensures AllLaunched(nodes, launched')
  {
  }

  lemma NoneHandled(nodes: map<string, Running>, next: nat, launched: seq<nat>, later: nat)
    requires Handled(nodes, next, launched) && next <= later
    ensures Handled(nodes, later, launched) && Handled(map[], later, launched)
    ensures AllBefore(launched, next)
  {
  }

  lemma NowWired(nodes: map<string, Running>, was: map<string, Running>, wires: map<string, Wires>, links: map<string, nat>)
    requires SameInstances(nodes, was) && links == LinksOf(nodes)
    requires forall id :: id in nodes ==> NodeWired(nodes, wires, id)
    ensures Wired(nodes, wires, links) && SeenNodes(nodes) == Staged(was, wires)
  {
    forall id | id in nodes ensures nodes[id].localWires == WiresOf(wires, id) {
      assert NodeWired(nodes, wires, id);
    }
  }

  lemma NoneRemoved(nodes: map<string, Running>, ids: set<string>)
    requires nodes.Keys * ids == {}
    ensures SameInstances(nodes, nodes - ids) && SeenNodes(nodes) == SeenNodes(nodes) - ids
  {
    assert forall id :: id in nodes && id in ids ==> id in nodes.Keys * ids;
    assert nodes - ids == nodes;
    assert SeenNodes(nodes) - ids == SeenNodes(nodes);
  }

  lemma RemovedUnhandled(nodes: map<string, Running>, ids: set<string>, next: nat, launched: seq<nat>)
    requires Handled(nodes, next, launched)
    ensures Handled(nodes - ids, next, launched)
  {
  }

  lemma SameHandled(a: map<string, Running>, b: map<string, Running>, next: nat, launched: seq<nat>)
    requires SameInstances(a, b) && Handled(b, next, launched)
    ensures Handled(a, next, launched) && a.Keys == b.Keys
  {
  }

  lemma NotYetLaunched(a: map<string, Running>, b: map<string, Running>, next: nat, lo: nat, launched: seq<nat>)
    requires SameInstances(a, b) && AllSince(b, lo) && next <= lo
    requires AllBefore(launched, next)
    ensures AllSince(a, next) && NoneLaunched(a, a.Keys, launched)
  {
    forall id | id in a ensures a[id].handle >= lo { assert a[id].handle == b[id].handle; }
  }

  lemma ConfigsStillBefore(insts: map<string, ConfigInstance>, next: nat, later: nat)
    requires ConfigsBefore(insts, next) && next <= later
    ensures ConfigsBefore(insts, later)
  {
  }

  lemma EveryoneLaunched(nodes: map<string, Running>, launched: seq<nat>)
    requires TheseLaunched(nodes, nodes.Keys, launched)
    ensures AllLaunched(nodes, launched)
  {
  }

  lemma KeysSeen(nodes: map<string, Running>, insts: map<string, ConfigInstance>)
    ensures SeenNodes(nodes).Keys == nodes.Keys && Configs(insts).Keys == insts.Keys
  {
  }

  lemma NothingBuilt(creates: Creates, nodes: map<string, Running>, none: set<string>, ix: map<string, Placed>, lo: nat)
    requires none == {}
    ensures BuiltFrom(creates, nodes, nodes, none, ix, lo)
  {
  }

  lemma OneMoreBuilt(creates: Creates, was: map<string, Running>, before: map<string, Running>, now: map<string, Running>,
                     done: set<string>, id: string, ix: map<string, Placed>, lo: nat, at: nat)
    requires BuiltFrom(creates, was, before, done, ix, lo) && id !in was && lo <= at
    requires forall k :: k in ix ==> ix[k].node.id == k
    requires now == if id in ix && Builds(creates, ix[id]) then before[id := Running(at, DefOf(ix[id]), [], map[])] else before
    requires id !in done
    ensures BuiltFrom(creates, was, now, done + {id}, ix, lo)
  {
  }

  lemma NoWiresGiven(wires: map<string, Wires>)
    ensures forall id :: WiresGiven([], wires, id) == WiresOf(wires, id)
  {
  }

  lemma WiresGivenSnoc(ps: seq<Placed>, p: Placed, wires: map<string, Wires>)
    ensures forall id :: WiresGiven(ps + [p], wires, id) == if id == p.node.id then p.node.wires else WiresGiven(ps, wires, id)
  {
    IndexSnoc(ps, p);
  }

  lemma StagedAfterBuild(creates: Creates, nodes: map<string, Running>, wires: map<string, Wires>, p: Placed,
                         nodes': map<string, Running>, wires': map<string, Wires>, at: nat, lo: nat)
    requires if Builds(creates, p) then
               nodes' == nodes[p.node.id := Running(at, DefOf(p), [], map[])] && wires' == wires[p.node.id := p.node.wires]
             else nodes' == nodes && wires' == wires
    requires AllSince(nodes, lo) && lo <= at
    ensures AllSince(nodes', lo)
    ensures Staged(nodes', wires') ==
            if Runs(creates, p.(flowDisabled := false)) then Staged(nodes, wires)[p.node.id := SeenOf(p)] else Staged(nodes, wires)
  {
  }

  // Keeping the survivors and building the restarted nodes is PatchNodes.
  lemma PatchedNodes(creates: Creates, was: map<string, Seen>, kept: map<string, Running>, nodes: map<string, Running>,
                     wires: map<string, Wires>, old_: Workspace, new_: Workspace, lo: nat)
    requires
      var (d, ix) := (Expanded(DiffOf(old_, new_), new_), Index(AllNodes(new_.flows)));
      SeenNodes(kept) == was - (d.removedNodes + d.modifiedNodes) &&
      kept.Keys !! Restarted(old_, new_) && kept.Keys <= ix.Keys &&
      BuiltFrom(creates, kept, nodes, Restarted(old_, new_), ix, lo)
    requires forall id :: id in Index(AllNodes(new_.flows)) ==> WiresOf(wires, id) == Index(AllNodes(new_.flows))[id].node.wires
    ensures Staged(nodes, wires) == PatchNodes(creates, was, old_, new_)
  {
    hide DiffOf, Expanded, Index, AllNodes, Restarted;
    var patched := PatchNodes(creates, was, old_, new_);
    assert SeenNodes(kept).Keys == kept.Keys;
    assert nodes.Keys == patched.Keys;
    forall id | id in nodes ensures Seen(nodes[id].def, WiresOf(wires, id)) == patched[id] {
      if id in kept { assert SeenNodes(kept)[id] == was[id]; }
    }
  }

  lemma {:induction false} DisabledFlowRunsNothing(creates: Creates, before: seq<Placed>, f: Flow, j: nat)
    requires f.disabled && j <= |f.nodes|
    ensures FullNodes(creates, before + Place(f, f.nodes[..j])) == FullNodes(creates, before)
  {
    if j == 0 {
      AllPlaced(before, f);
    } else {
      DisabledFlowRunsNothing(creates, before, f, j - 1);
      SnocNode(before, f, j - 1);
      FullNodesSnoc(creates, before + Place(f, f.nodes[..j - 1]), Placed(f.nodes[j - 1], f.id, f.disabled));
    }
  }

  lemma FullNodesSnoc(creates: Creates, ps: seq<Placed>, p: Placed)
    ensures FullNodes(creates, ps + [p]) ==
            if Runs(creates, p) then FullNodes(creates, ps)[p.node.id := SeenOf(p)] else FullNodes(creates, ps)
  {
    assert (ps + [p])[..|ps|] == ps;
  }

  lemma {:induction false} FullNodesAreIndexed(creates: Creates, ps: seq<Placed>)
    ensures FullNodes(creates, ps).Keys <= Index(ps).Keys
  {
    if ps != [] { FullNodesAreIndexed(creates, ps[..|ps| - 1]); }
  }

  lemma {:induction false} FullConfigsAreIndexed(starts: Starts, cs: seq<ConfigNode>)
    ensures FullConfigs(starts, cs).Keys <= ConfigIndex(cs).Keys
  {
    if cs != [] { FullConfigsAreIndexed(starts, cs[..|cs| - 1]); }
  }

  lemma RemovedAreUnseen(nodes: map<string, Running>, wires: map<string, Wires>, links: map<string, nat>, ids: set<string>)
    requires Wired(nodes, wires, links)
    ensures Staged(nodes - ids, wires - ids) == SeenNodes(nodes) - ids
  {
    forall id | id in nodes - ids ensures WiresOf(wires - ids, id) == nodes[id].localWires {
      assert NodeWired(nodes, wires, id);
    }
  }

  lemma PatchedConfigs(starts: Starts, was: map<string, ConfigInstance>, now: map<string, ConfigInstance>,
                       old_: Workspace, new_: Workspace)
    requires was.Keys !! DiffOf(old_, new_).addedConfigs
    requires
      var (d, ix) := (DiffOf(old_, new_), ConfigIndex(new_.configs));
      (forall id :: id in now <==> (id in was && id !in d.removedConfigs && id !in d.modifiedConfigs) ||
                                   (id in d.modifiedConfigs + d.addedConfigs && id in ix && starts(ix[id]))) &&
      (forall id :: id in now ==> now[id].cfg == if id in d.modifiedConfigs + d.addedConfigs then ix[id] else was[id].cfg)
    ensures Configs(now) == PatchConfigs(starts, Configs(was), old_, new_)
  {
  }

  lemma WiredIsResolved(nodes: map<string, Running>, wires: map<string, Wires>, links: map<string, nat>,
                        configs: map<string, ConfigNode>)
    requires Wired(nodes, wires, links)
    ensures View(SeenNodes(nodes), map id | id in nodes :: nodes[id].localTargets.Keys, links.Keys, configs) ==
            Resolved(SeenNodes(nodes), configs)
  {
    var v := Resolved(SeenNodes(nodes), configs);
    KeysSeen(nodes, map[]);
    HandlesAre(nodes);
    assert Handles(nodes).Keys == nodes.Keys;
    forall id | id in nodes ensures nodes[id].localTargets.Keys == v.targets[id] {
      assert NodeWired(nodes, wires, id);
      assert Resolve(nodes[id].localWires, Handles(nodes)).Keys == Mentioned(nodes[id].localWires) * nodes.Keys;
    }
    assert (map id | id in nodes :: nodes[id].localTargets.Keys) == v.targets;
    assert links.Keys == v.links;
  }

  lemma HandlesAre(nodes: map<string, Running>)
    ensures forall t :: t in Handles(nodes) <==> t in nodes
    ensures forall t :: t in nodes ==> Handles(nodes)[t] == nodes[t].handle
  {
  }

  lemma NothingResolved(hs: map<string, nat>)
    ensures Resolve([], hs) == map[]
  {
    assert Mentioned([]) == {};
  }

  lemma ResolveRow(front: Wires, row: seq<string>, hs: map<string, nat>)
    ensures Resolve(front + [row[..0]], hs) == Resolve(front, hs)
    ensures row[..|row|] == row
  {
    MentionedRow(front, row, 0);
  }

  lemma ResolveSnoc(front: Wires, row: seq<string>, j: nat, hs: map<string, nat>)
    requires j < |row|
    ensures Resolve(front + [row[..j + 1]], hs) ==
            if row[j] in hs then Resolve(front + [row[..j]], hs)[row[j] := hs[row[j]]] else Resolve(front + [row[..j]], hs)
  {
    MentionedRow(front, row, j);
    MentionedRow(front, row, j + 1);
    assert (set k | 0 <= k < j + 1 :: row[k]) == (set k | 0 <= k < j :: row[k]) + {row[j]};
  }

  lemma MentionedRow(front: Wires, row: seq<string>, j: nat)
    requires j <= |row|
    ensures Mentioned(front + [row[..j]]) == Mentioned(front) + set k | 0 <= k < j :: row[k]
  {
    var w := front + [row[..j]];
    forall t | t in Mentioned(front) ensures t in Mentioned(w) {
      var p, k :| 0 <= p < |front| && 0 <= k < |front[p]| && front[p][k] == t;
      assert w[p][k] == t;
    }
    forall k | 0 <= k < j ensures row[k] in Mentioned(w) {
      assert w[|front|][k] == row[k];
    }
  }
}
