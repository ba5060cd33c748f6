/**
 What a deploy must leave running, as functions of the workspace, and the
 refinement theorem: a `nodes`-mode deploy on top of a full deploy of the old
 workspace leaves exactly what a full deploy of the new one would, if and only
 if `Faithful` holds.

 `creates` and `starts` stand for the registered factories: whether building
 (and initialising) an instance from a definition succeeds.
 */
module Deployment {
  import opened JsonValues
  import opened Workspaces

  // The NodeConfig an instance is built from.
  datatype NodeDef = NodeDef(id: string, typ: string, name: string, flowId: string, props: map<string, Json>)

  // A running node seen from outside: what it was built from and its wires.
  datatype Seen = Seen(def: NodeDef, wires: Wires)

  type Creates = NodeDef -> bool
  type Starts = ConfigNode -> bool

  // All of the runtime that a flow author can observe.  Wire targets are
  // resolved against the running nodes; links are the cross-flow registry.
  datatype View = View(nodes: map<string, Seen>, targets: map<string, set<string>>,
                       links: set<string>, configs: map<string, ConfigNode>)

  function DefOf(p: Placed): NodeDef {
    NodeDef(p.node.id, p.node.typ, p.node.name, p.flowId, p.node.config)
  }

  function SeenOf(p: Placed): Seen {
    Seen(DefOf(p), p.node.wires)
  }

  function Mentioned(w: Wires): set<string> {
    set p, j | 0 <= p < |w| && 0 <= j < |w[p]| :: w[p][j]
  }

  predicate IsLink(typ: string) {
    typ == "link-in" || typ == "link-out" || typ == "link-call"
  }

  function Resolved(nodes: map<string, Seen>, configs: map<string, ConfigNode>): View {
    View(nodes,
         map id | id in nodes :: Mentioned(nodes[id].wires) * nodes.Keys,
         (set id | id in nodes && IsLink(nodes[id].def.typ)),
         configs)
  }

  // instantiateNode does not look at the flow; only deployFull does.
  predicate Builds(creates: Creates, p: Placed) {
    !p.node.disabled && creates(DefOf(p))
  }

  predicate Runs(creates: Creates, p: Placed) {
    !p.flowDisabled && Builds(creates, p)
  }

  /******* Full deploy *******/

  function FullNodes(creates: Creates, ps: seq<Placed>): map<string, Seen> {
    if ps == [] then map[]
    else
      var (front, last) := (FullNodes(creates, ps[..|ps| - 1]), ps[|ps| - 1]);
      if Runs(creates, last) then front[last.node.id := SeenOf(last)] else front
  }

  function FullConfigs(starts: Starts, cs: seq<ConfigNode>): map<string, ConfigNode> {
    if cs == [] then map[]
    else
      var (front, last) := (FullConfigs(starts, cs[..|cs| - 1]), cs[|cs| - 1]);
      if starts(last) then front[last.id := last] else front
  }

  function FullView(creates: Creates, starts: Starts, w: Workspace): View {
    Resolved(FullNodes(creates, AllNodes(w.flows)), FullConfigs(starts, w.configs))
  }

  /******* nodes-mode deploy *******/

  // Nodes that a nodes-mode deploy builds again.
  function Restarted(old_: Workspace, new_: Workspace): set<string> {
    var d := Expanded(DiffOf(old_, new_), new_);
    d.modifiedNodes + d.addedNodes
  }

  function PatchNodes(creates: Creates, running: map<string, Seen>, old_: Workspace, new_: Workspace): map<string, Seen> {
    var d := Expanded(DiffOf(old_, new_), new_);
    var ix := Index(AllNodes(new_.flows));
    var kept := running.Keys - d.removedNodes - d.modifiedNodes;
    var built := set id | id in ix && id in Restarted(old_, new_) && Builds(creates, ix[id]);
    map id | id in kept + built ::
      if id in built then SeenOf(ix[id])
      else if id in ix then running[id].(wires := ix[id].node.wires)
      else running[id]
  }

  function PatchConfigs(starts: Starts, running: map<string, ConfigNode>, old_: Workspace, new_: Workspace): map<string, ConfigNode> {
    var d := DiffOf(old_, new_);
    var ix := ConfigIndex(new_.configs);
    var kept := running.Keys - d.removedConfigs - d.modifiedConfigs;
    var built := set id | id in ix && id in d.modifiedConfigs + d.addedConfigs && starts(ix[id]);
    map id | id in kept + built :: if id in built then ix[id] else running[id]
  }

  function NodesView(creates: Creates, starts: Starts, v: View, old_: Workspace, new_: Workspace): View {
    if DiffOf(old_, new_).IsEmpty() then v
    else Resolved(PatchNodes(creates, v.nodes, old_, new_), PatchConfigs(starts, v.configs, old_, new_))
  }

  /******* When the two agree *******/

  // A surviving node that is not rebuilt must run in both workspaces or in
  // neither, and if it runs it must keep its type and flow: nodeChanged does
  // not look at these, nor at the flow's disabled flag.
  predicate KeptFaithfully(creates: Creates, o: Placed, n: Placed) {
    (Runs(creates, o) <==> Runs(creates, n)) &&
    (Runs(creates, n) ==> o.node.typ == n.node.typ && o.flowId == n.flowId)
  }

  // configNodeChanged looks at the properties only.
  predicate ConfigKeptFaithfully(starts: Starts, o: ConfigNode, n: ConfigNode) {
    (starts(o) <==> starts(n)) &&
    (starts(n) ==> o.typ == n.typ && o.name == n.name)
  }

  predicate NodesFaithful(creates: Creates, old_: Workspace, new_: Workspace) {
    var (on, nn) := (Index(AllNodes(old_.flows)), Index(AllNodes(new_.flows)));
    forall id :: id in nn ==>
      if id in Restarted(old_, new_) then nn[id].flowDisabled ==> !Builds(creates, nn[id])
      else id in on && KeptFaithfully(creates, on[id], nn[id])
  }

  predicate ConfigsFaithful(starts: Starts, old_: Workspace, new_: Workspace) {
    var (oc, nc) := (ConfigIndex(old_.configs), ConfigIndex(new_.configs));
    forall id :: id in nc && id in oc && !ConfigNodeChanged(oc[id], nc[id]) ==>
      ConfigKeptFaithfully(starts, oc[id], nc[id])
  }

  predicate Faithful(creates: Creates, starts: Starts, old_: Workspace, new_: Workspace) {
    NodesFaithful(creates, old_, new_) && ConfigsFaithful(starts, old_, new_)
  }

  // The plain hypotheses under which an editor uses `nodes` mode: no flow is
  // disabled, and an id keeps its type and flow, a config id its type and name.
  predicate StableIdentity(old_: Workspace, new_: Workspace) {
    var (on, nn) := (Index(AllNodes(old_.flows)), Index(AllNodes(new_.flows)));
    var (oc, nc) := (ConfigIndex(old_.configs), ConfigIndex(new_.configs));
    (forall id :: id in on ==> !on[id].flowDisabled) &&
    (forall id :: id in nn ==> !nn[id].flowDisabled) &&
    (forall id :: id in on && id in nn ==> on[id].node.typ == nn[id].node.typ && on[id].flowId == nn[id].flowId) &&
    (forall id :: id in oc && id in nc ==> oc[id].typ == nc[id].typ && oc[id].name == nc[id].name)
  }

  /******* Lemmas *******/

  // With unique ids a full deploy runs exactly the runnable nodes of the index.
  lemma {:induction false} FullNodesByIndex(creates: Creates, ps: seq<Placed>)
    requires UniqueNodes(ps)
    ensures FullNodes(creates, ps) == map id | id in Index(ps) && Runs(creates, Index(ps)[id]) :: SeenOf(Index(ps)[id])
  {
    if ps != [] {
      FullNodesByIndex(creates, ps[..|ps| - 1]);
      IndexIsPlaced(ps[..|ps| - 1]);
      assert ps[|ps| - 1].node.id !in Index(ps[..|ps| - 1]);
    }
  }

  lemma {:induction false} FullConfigsByIndex(starts: Starts, cs: seq<ConfigNode>)
    requires UniqueConfigs(cs)
    ensures FullConfigs(starts, cs) == map id | id in ConfigIndex(cs) && starts(ConfigIndex(cs)[id]) :: ConfigIndex(cs)[id]
  {
    if cs != [] {
      var front, last := cs[..|cs| - 1], cs[|cs| - 1];
      FullConfigsByIndex(starts, front);
      ConfigIndexIsMember(front);
      assert last.id !in ConfigIndex(front);
    }
  }

  // What happens to one id: a removed one is gone, a restarted one runs if it
  // can be built, any other keeps what was running.
  lemma PatchNodesAt(creates: Creates, old_: Workspace, new_: Workspace, id: string)
    requires Unique(old_) && Unique(new_)
    ensures
      var (on, nn) := (Index(AllNodes(old_.flows)), Index(AllNodes(new_.flows)));
      var patched := PatchNodes(creates, FullNodes(creates, AllNodes(old_.flows)), old_, new_);
      if id !in nn then id !in patched
      else if id in Restarted(old_, new_) then
        (id in patched <==> Builds(creates, nn[id])) && (id in patched ==> patched[id] == SeenOf(nn[id]))
      else
        id in on && (id in patched <==> Runs(creates, on[id])) &&
        (id in patched ==> patched[id] == Seen(DefOf(on[id]), nn[id].node.wires)) &&
        !NodeChanged(on[id].node, nn[id].node)
  {
    FullNodesByIndex(creates, AllNodes(old_.flows));
  }

  lemma NodesAgreeAt(creates: Creates, old_: Workspace, new_: Workspace, id: string)
    requires Unique(old_) && Unique(new_)
    ensures
      var (on, nn) := (Index(AllNodes(old_.flows)), Index(AllNodes(new_.flows)));
      var (patched, full) := (PatchNodes(creates, FullNodes(creates, AllNodes(old_.flows)), old_, new_),
                              FullNodes(creates, AllNodes(new_.flows)));
      ((id in patched <==> id in full) && (id in full ==> patched[id] == full[id]))
      <==>
      (id in nn ==>
        if id in Restarted(old_, new_) then nn[id].flowDisabled ==> !Builds(creates, nn[id])
        else id in on && KeptFaithfully(creates, on[id], nn[id]))
  {
    PatchNodesAt(creates, old_, new_, id);
    FullNodesByIndex(creates, AllNodes(new_.flows));
    IndexIsPlaced(AllNodes(old_.flows));
    IndexIsPlaced(AllNodes(new_.flows));
  }

  lemma NodesAgree(creates: Creates, old_: Workspace, new_: Workspace)
    requires Unique(old_) && Unique(new_)
    ensures PatchNodes(creates, FullNodes(creates, AllNodes(old_.flows)), old_, new_) == FullNodes(creates, AllNodes(new_.flows))
            <==> NodesFaithful(creates, old_, new_)
  {
    var patched := PatchNodes(creates, FullNodes(creates, AllNodes(old_.flows)), old_, new_);
    var full := FullNodes(creates, AllNodes(new_.flows));
    forall id ensures id in Index(AllNodes(new_.flows)) || (id !in patched && id !in full) {
      PatchNodesAt(creates, old_, new_, id);
      FullNodesByIndex(creates, AllNodes(new_.flows));
    }
    if NodesFaithful(creates, old_, new_) {
      forall id ensures (id in patched <==> id in full) && (id in full ==> patched[id] == full[id]) {
        NodesAgreeAt(creates, old_, new_, id);
      }
      assert patched == full;
    } else if patched == full {
      forall id | id in Index(AllNodes(new_.flows)) { NodesAgreeAt(creates, old_, new_, id); }
    }
  }

  lemma ConfigsAgreeAt(starts: Starts, old_: Workspace, new_: Workspace, id: string)
    requires Unique(old_) && Unique(new_)
    ensures
      var (oc, nc) := (ConfigIndex(old_.configs), ConfigIndex(new_.configs));
      var (patched, full) := (PatchConfigs(starts, FullConfigs(starts, old_.configs), old_, new_),
                              FullConfigs(starts, new_.configs));
      ((id in patched <==> id in full) && (id in full ==> patched[id] == full[id]))
      <==>
      (id in nc && id in oc && !ConfigNodeChanged(oc[id], nc[id]) ==> ConfigKeptFaithfully(starts, oc[id], nc[id]))
  {
    FullConfigsByIndex(starts, old_.configs);
    FullConfigsByIndex(starts, new_.configs);
    ConfigIndexIsMember(old_.configs);
    ConfigIndexIsMember(new_.configs);
  }

  lemma ConfigsAgree(starts: Starts, old_: Workspace, new_: Workspace)
    requires Unique(old_) && Unique(new_)
    ensures PatchConfigs(starts, FullConfigs(starts, old_.configs), old_, new_) == FullConfigs(starts, new_.configs)
            <==> ConfigsFaithful(starts, old_, new_)
  {
    var patched := PatchConfigs(starts, FullConfigs(starts, old_.configs), old_, new_);
    var full := FullConfigs(starts, new_.configs);
    if ConfigsFaithful(starts, old_, new_) {
      forall id ensures (id in patched <==> id in full) && (id in full ==> patched[id] == full[id]) {
        ConfigsAgreeAt(starts, old_, new_, id);
      }
      assert patched == full;
    } else if patched == full {
      forall id | id in ConfigIndex(new_.configs) { ConfigsAgreeAt(starts, old_, new_, id); }
    }
  }

  // An empty difference hides nothing that a full deploy would show, beyond
  // what `Faithful` already demands.
  lemma EmptyDiffRestartsNothing(old_: Workspace, new_: Workspace)
    requires DiffOf(old_, new_).IsEmpty()
    ensures Restarted(old_, new_) == {}
    ensures Index(AllNodes(old_.flows)).Keys == Index(AllNodes(new_.flows)).Keys
    ensures ConfigIndex(old_.configs).Keys == ConfigIndex(new_.configs).Keys
  {
    var d := DiffOf(old_, new_);
    assert d.modifiedConfigs == {};
    assert Dependents(d, AllNodes(new_.flows)) == {};
    assert d.addedNodes == {} && d.removedNodes == {} && d.addedConfigs == {} && d.removedConfigs == {};
  }

  lemma EmptyDiffPatchesNothing(creates: Creates, starts: Starts, old_: Workspace, new_: Workspace)
    requires Unique(old_) && Unique(new_) && DiffOf(old_, new_).IsEmpty()
    ensures PatchNodes(creates, FullNodes(creates, AllNodes(old_.flows)), old_, new_) == FullNodes(creates, AllNodes(old_.flows))
    ensures PatchConfigs(starts, FullConfigs(starts, old_.configs), old_, new_) == FullConfigs(starts, old_.configs)
  {
    hide FullNodes, FullConfigs, Index, ConfigIndex, PatchNodes, Restarted, Expanded;
    var running := FullNodes(creates, AllNodes(old_.flows));
    var patched := PatchNodes(creates, running, old_, new_);
    FullConfigsByIndex(starts, old_.configs);
    EmptyDiffRestartsNothing(old_, new_);
    forall id ensures (id in patched <==> id in running) && (id in running ==> patched[id] == running[id]) {
      EmptyDiffKeeps(creates, old_, new_, id);
    }
    assert patched == running;
    assert PatchConfigs(starts, FullConfigs(starts, old_.configs), old_, new_) == FullConfigs(starts, old_.configs);
  }

  lemma EmptyDiffKeeps(creates: Creates, old_: Workspace, new_: Workspace, id: string)
    requires Unique(old_) && Unique(new_) && DiffOf(old_, new_).IsEmpty()
    ensures
      var running := FullNodes(creates, AllNodes(old_.flows));
      var patched := PatchNodes(creates, running, old_, new_);
      (id in patched <==> id in running) && (id in running ==> patched[id] == running[id])
  {
    hide FullNodes, Index, PatchNodes, Restarted, AllNodes;
    EmptyDiffRestartsNothing(old_, new_);
    FullNodesByIndex(creates, AllNodes(old_.flows));
    PatchNodesAt(creates, old_, new_, id);
  }

  // Incremental deploy refines full deploy, exactly when `Faithful` holds.
  lemma NodesDeployRefinesFullDeploy(creates: Creates, starts: Starts, old_: Workspace, new_: Workspace)
    requires Unique(old_) && Unique(new_)
    ensures NodesView(creates, starts, FullView(creates, starts, old_), old_, new_) == FullView(creates, starts, new_)
            <==> Faithful(creates, starts, old_, new_)
  {
    NodesAgree(creates, old_, new_);
    ConfigsAgree(starts, old_, new_);
    if DiffOf(old_, new_).IsEmpty() {
      EmptyDiffPatchesNothing(creates, starts, old_, new_);
    }
  }

  // Exactly which nodes are rebuilt: new ones, those whose disabled flag,
  // name, wires or properties changed, and those some property of which is
  // the id of a config node whose properties changed.
  lemma RestartedExactly(old_: Workspace, new_: Workspace, id: string)
    requires Unique(new_) && id in Index(AllNodes(new_.flows))
    ensures
      var (on, nn) := (Index(AllNodes(old_.flows)), Index(AllNodes(new_.flows)));
      var (oc, nc) := (ConfigIndex(old_.configs), ConfigIndex(new_.configs));
      id in Restarted(old_, new_) <==>
        id !in on ||
        (var (o, n) := (on[id].node, nn[id].node);
         o.disabled != n.disabled || o.name != n.name || o.wires != n.wires || o.config != n.config) ||
        exists k, c :: k in nn[id].node.config && c in oc && c in nc &&
                       nn[id].node.config[k] == Str(c) && oc[c].config != nc[c].config
  {
    var (d, ps) := (DiffOf(old_, new_), AllNodes(new_.flows));
    var n := Index(ps)[id];
    IndexIsPlaced(ps);
    DiffExactly(old_, new_, id);
    ExpandedExactly(d, new_, id);
    if p :| p in ps && p.node.id == id && Mentions(p.node, d.modifiedConfigs) {
      var i :| 0 <= i < |ps| && ps[i] == p;
      assert p == n;
      var k, c :| k in n.node.config && c in d.modifiedConfigs && n.node.config[k] == Str(c);
      DiffExactly(old_, new_, c);
    }
    var (oc, nc) := (ConfigIndex(old_.configs), ConfigIndex(new_.configs));
    if k, c :| k in n.node.config && c in oc && c in nc && n.node.config[k] == Str(c) && oc[c].config != nc[c].config {
      DiffExactly(old_, new_, c);
      assert Mentions(n.node, d.modifiedConfigs);
    }
  }

  // What a full deploy leaves of one node: it runs exactly if neither its flow
  // nor it is disabled and it can be built, from its own definition and with
  // its own wires, of which the running ones are its targets.
  lemma FullViewExactly(creates: Creates, starts: Starts, w: Workspace, i: nat, j: nat)
    requires Unique(w) && i < |w.flows| && j < |w.flows[i].nodes|
    ensures
      var (v, f, n) := (FullView(creates, starts, w), w.flows[i], w.flows[i].nodes[j]);
      var def := NodeDef(n.id, n.typ, n.name, f.id, n.config);
      (n.id in v.nodes <==> !f.disabled && !n.disabled && creates(def)) &&
      (n.id in v.links <==> n.id in v.nodes && (n.typ == "link-in" || n.typ == "link-out" || n.typ == "link-call")) &&
      (n.id in v.nodes ==>
        v.nodes[n.id] == Seen(def, n.wires) && n.id in v.targets &&
        forall t :: t in v.targets[n.id] <==> t in v.nodes && exists p, q :: 0 <= p < |n.wires| && 0 <= q < |n.wires[p]| && n.wires[p][q] == t)
  {
    var ps := AllNodes(w.flows);
    var p := Placed(w.flows[i].nodes[j], w.flows[i].id, w.flows[i].disabled);
    assert NodeOf(w.flows, i, j, p);
    AllNodesAre(w.flows, p);
    var k :| 0 <= k < |ps| && ps[k] == p;
    IndexIsPlaced(ps);
    FullNodesByIndex(creates, ps);
    hide AllNodes, Index, FullNodes;
  }

  // And nothing else runs.
  lemma FullViewOnly(creates: Creates, starts: Starts, w: Workspace, id: string)
    requires Unique(w)
    ensures
      var v := FullView(creates, starts, w);
      v.links <= v.nodes.Keys && v.targets.Keys == v.nodes.Keys &&
      (id in v.nodes ==> exists p :: p in AllNodes(w.flows) && p.node.id == id) &&
      (id in v.configs <==> exists c :: c in w.configs && c.id == id && starts(c)) &&
      (id in v.configs ==> v.configs[id] in w.configs && v.configs[id].id == id)
  {
    FullNodesByIndex(creates, AllNodes(w.flows));
    IndexIsPlaced(AllNodes(w.flows));
    FullConfigsByIndex(starts, w.configs);
    ConfigIndexIsMember(w.configs);
  }

  // After either deploy no running node is disabled in the new workspace, and
  // none is missing from it.
  lemma DisabledNodesDoNotRun(creates: Creates, starts: Starts, old_: Workspace, new_: Workspace, id: string)
    requires Unique(old_) && Unique(new_)
    requires id in FullView(creates, starts, new_).nodes ||
             id in NodesView(creates, starts, FullView(creates, starts, old_), old_, new_).nodes
    ensures id in Index(AllNodes(new_.flows)) && !Index(AllNodes(new_.flows))[id].node.disabled
  {
    FullNodesByIndex(creates, AllNodes(new_.flows));
    PatchNodesAt(creates, old_, new_, id);
    hide FullNodes, PatchNodes, Restarted, Index, AllNodes;
    if DiffOf(old_, new_).IsEmpty() { EmptyDiffPatchesNothing(creates, starts, old_, new_); }
  }

  // The view after a full deploy of the first workspace and a nodes-mode
  // deploy of each later one.
  function ViewAfter(creates: Creates, starts: Starts, ws: seq<Workspace>): View
    requires ws != []
  {
    if |ws| == 1 then FullView(creates, starts, ws[0])
    else NodesView(creates, starts, ViewAfter(creates, starts, ws[..|ws| - 1]), ws[|ws| - 2], ws[|ws| - 1])
  }

  // However many incremental deploys came before, the runtime is what one
  // full deploy of the latest workspace gives.
  lemma {:induction false} EveryRunOfDeploys(creates: Creates, starts: Starts, ws: seq<Workspace>)
    requires ws != [] && forall i :: 0 <= i < |ws| ==> Unique(ws[i])
    requires forall i :: 0 < i < |ws| ==> Faithful(creates, starts, ws[i - 1], ws[i])
    ensures ViewAfter(creates, starts, ws) == FullView(creates, starts, ws[|ws| - 1])
  {
    if |ws| > 1 {
      var front := ws[..|ws| - 1];
      forall i | 0 < i < |front| ensures Faithful(creates, starts, front[i - 1], front[i]) {
        assert Faithful(creates, starts, ws[i - 1], ws[i]);
      }
      EveryRunOfDeploys(creates, starts, front);
      NodesDeployRefinesFullDeploy(creates, starts, ws[|ws| - 2], ws[|ws| - 1]);
    }
  }

  lemma StableIdentityIsFaithful(creates: Creates, starts: Starts, old_: Workspace, new_: Workspace)
    requires Unique(old_) && Unique(new_) && StableIdentity(old_, new_)
    ensures Faithful(creates, starts, old_, new_)
  {
    var (on, nn) := (Index(AllNodes(old_.flows)), Index(AllNodes(new_.flows)));
    var (oc, nc) := (ConfigIndex(old_.configs), ConfigIndex(new_.configs));
    IndexIsPlaced(AllNodes(old_.flows));
    IndexIsPlaced(AllNodes(new_.flows));
    ConfigIndexIsMember(old_.configs);
    ConfigIndexIsMember(new_.configs);
    forall id | id in nn && id !in Restarted(old_, new_)
      ensures id in on && KeptFaithfully(creates, on[id], nn[id])
    {
      assert id in on && !NodeChanged(on[id].node, nn[id].node);
      assert DefOf(on[id]) == DefOf(nn[id]);
    }
    forall id | id in nc && id in oc && !ConfigNodeChanged(oc[id], nc[id])
      ensures ConfigKeptFaithfully(starts, oc[id], nc[id])
    {
      assert oc[id] == nc[id];
    }
  }

  /******* Where it fails *******/

  // In any two workspaces: a running node that got another type or moved to
  // another flow, and is not rebuilt for some other reason, is missed.
  lemma MovedNodeIsMissed(creates: Creates, starts: Starts, old_: Workspace, new_: Workspace, id: string)
    requires Unique(old_) && Unique(new_)
    requires id in Index(AllNodes(old_.flows)) && id in Index(AllNodes(new_.flows))
    requires
      var (o, n) := (Index(AllNodes(old_.flows))[id], Index(AllNodes(new_.flows))[id]);
      id !in Restarted(old_, new_) && Runs(creates, n) && (o.node.typ != n.node.typ || o.flowId != n.flowId)
    ensures NodesView(creates, starts, FullView(creates, starts, old_), old_, new_) != FullView(creates, starts, new_)
  {
    hide NodesView, FullView, Index, AllNodes, Restarted;
    NodesDeployRefinesFullDeploy(creates, starts, old_, new_);
    assert !KeptFaithfully(creates, Index(AllNodes(old_.flows))[id], Index(AllNodes(new_.flows))[id]);
  }

  // In any two workspaces: a node of a disabled flow that ran, or is rebuilt,
  // is running after the deploy.
  lemma DisabledFlowIsMissed(creates: Creates, starts: Starts, old_: Workspace, new_: Workspace, id: string)
    requires Unique(old_) && Unique(new_) && id in Index(AllNodes(new_.flows))
    requires
      var (on, n) := (Index(AllNodes(old_.flows)), Index(AllNodes(new_.flows))[id]);
      n.flowDisabled && if id in Restarted(old_, new_) then Builds(creates, n) else id in on && Runs(creates, on[id])
    ensures NodesView(creates, starts, FullView(creates, starts, old_), old_, new_) != FullView(creates, starts, new_)
  {
    hide NodesView, FullView, Index, AllNodes, Restarted;
    NodesDeployRefinesFullDeploy(creates, starts, old_, new_);
    var n := Index(AllNodes(new_.flows))[id];
    assert !Runs(creates, n);
  }

  // In any two workspaces: a config node that got another type or name and
  // kept its properties is missed.
  lemma RenamedConfigIsMissed(creates: Creates, starts: Starts, old_: Workspace, new_: Workspace, id: string)
    requires Unique(old_) && Unique(new_)
    requires id in ConfigIndex(old_.configs) && id in ConfigIndex(new_.configs)
    requires
      var (o, n) := (ConfigIndex(old_.configs)[id], ConfigIndex(new_.configs)[id]);
      !ConfigNodeChanged(o, n) && starts(n) && (o.typ != n.typ || o.name != n.name)
    ensures NodesView(creates, starts, FullView(creates, starts, old_), old_, new_) != FullView(creates, starts, new_)
  {
    hide NodesView, FullView;
    NodesDeployRefinesFullDeploy(creates, starts, old_, new_);
    var (oc, nc) := (ConfigIndex(old_.configs), ConfigIndex(new_.configs));
    assert id in nc && id in oc && !ConfigNodeChanged(oc[id], nc[id]) && !ConfigKeptFaithfully(starts, oc[id], nc[id]);
    assert !ConfigsFaithful(starts, old_, new_);
  }

  function Sole(n: Node, flowDisabled: bool): Workspace {
    Workspace([Flow("f", "", [n], flowDisabled, None)], [])
  }

  lemma SoleIndex(n: Node, flowDisabled: bool)
    ensures Unique(Sole(n, flowDisabled))
    ensures AllNodes(Sole(n, flowDisabled).flows) == [Placed(n, "f", flowDisabled)]
    ensures Index(AllNodes(Sole(n, flowDisabled).flows)) == map[n.id := Placed(n, "f", flowDisabled)]
  {
    var (f, p) := (Flow("f", "", [n], flowDisabled, None), Placed(n, "f", flowDisabled));
    OneFlow(f);
    assert Place(f, [n]) == [p];
    hide AllNodes, Index, Place;
    OnePlaced(p);
  }

  lemma OneFlow(f: Flow)
    ensures AllNodes([f]) == Place(f, f.nodes)
  {
    assert [f][..0] == [] && AllNodes([f][..0]) == [];
    assert [] + Place(f, f.nodes) == Place(f, f.nodes);
  }

  lemma OnePlaced(p: Placed)
    ensures Index([p]) == map[p.node.id := p] && UniqueNodes([p])
  {
    assert [p][..0] == [] && Index([p][..0]) == map[];
  }

  // Disabling a flow leaves its nodes running.
  lemma DisablingAFlowIsMissed(creates: Creates, starts: Starts, n: Node)
    requires !n.disabled && creates(NodeDef(n.id, n.typ, n.name, "f", n.config))
    ensures NodesView(creates, starts, FullView(creates, starts, Sole(n, false)), Sole(n, false), Sole(n, true))
            != FullView(creates, starts, Sole(n, true))
  {
    var o, w := Sole(n, false), Sole(n, true);
    SoleIndex(n, false);
    SoleIndex(n, true);
    var nn := Index(AllNodes(w.flows));
    assert n.id in nn && nn[n.id].flowDisabled && Builds(creates, nn[n.id]);
    NodesDeployRefinesFullDeploy(creates, starts, o, w);
  }

  // Changing nothing but a node's type leaves the old instance running.
  lemma ChangingATypeIsMissed(creates: Creates, starts: Starts, n: Node, typ: string)
    requires !n.disabled && typ != n.typ && creates(NodeDef(n.id, typ, n.name, "f", n.config))
    ensures NodesView(creates, starts, FullView(creates, starts, Sole(n, false)), Sole(n, false), Sole(n.(typ := typ), false))
            != FullView(creates, starts, Sole(n.(typ := typ), false))
  {
    var o, w := Sole(n, false), Sole(n.(typ := typ), false);
    SoleIndex(n, false);
    SoleIndex(n.(typ := typ), false);
    var (on, nn) := (Index(AllNodes(o.flows)), Index(AllNodes(w.flows)));
    assert n.id in nn && !KeptFaithfully(creates, on[n.id], nn[n.id]);
    assert n.id !in Restarted(o, w) by {
      assert DiffOf(o, w).modifiedConfigs == {};
      assert Dependents(DiffOf(o, w), AllNodes(w.flows)) == {};
      assert !NodeChanged(on[n.id].node, nn[n.id].node);
    }
    NodesDeployRefinesFullDeploy(creates, starts, o, w);
  }
}
