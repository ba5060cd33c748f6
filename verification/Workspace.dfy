/**
 Workspaces (flows, nodes, config nodes), their index, and the difference the
 deploy modes compute between two of them.

 Go maps and JSON objects are values here; `mapEqual` compares JSON encodings
 with sorted keys, which on JSON values is equality.  The lists of a
 `WorkspaceDiff` are filled by ranging over Go maps, so they have no order and
 are sets.
 */
module Workspaces {

  import opened JsonValues

  type Wires = seq<seq<string>>

  datatype Node = Node(id: string, typ: string, name: string, x: real, y: real,
                       wires: Wires, config: map<string, Json>, disabled: bool)

  // `env` is None for a nil Go map: reflect.DeepEqual tells nil from empty.
  datatype Flow = Flow(id: string, caption: string, nodes: seq<Node>, disabled: bool,
                       env: Option<map<string, string>>)

  datatype ConfigNode = ConfigNode(id: string, typ: string, name: string, config: map<string, Json>)

  datatype Workspace = Workspace(flows: seq<Flow>, configs: seq<ConfigNode>)

  // A node together with the flow that holds it.
  datatype Placed = Placed(node: Node, flowId: string, flowDisabled: bool)

  datatype Diff = Diff(
    addedFlows: set<string>, removedFlows: set<string>, modifiedFlows: set<string>,
    addedNodes: set<string>, removedNodes: set<string>, modifiedNodes: set<string>,
    addedConfigs: set<string>, removedConfigs: set<string>, modifiedConfigs: set<string>)
  {
    predicate IsEmpty() {
      addedFlows == {} && removedFlows == {} && modifiedFlows == {} &&
      addedNodes == {} && removedNodes == {} && modifiedNodes == {} &&
      addedConfigs == {} && removedConfigs == {} && modifiedConfigs == {}
    }
  }

  /******* Indexes *******/

  function Place(f: Flow, nodes: seq<Node>): (ps: seq<Placed>)
    ensures |ps| == |nodes|
    ensures forall i :: 0 <= i < |nodes| ==> ps[i] == Placed(nodes[i], f.id, f.disabled)
  {
    seq(|nodes|, i requires 0 <= i < |nodes| => Placed(nodes[i], f.id, f.disabled))
  }

  function AllNodes(flows: seq<Flow>): seq<Placed> {
    if flows == [] then []
    else AllNodes(flows[..|flows| - 1]) + Place(flows[|flows| - 1], flows[|flows| - 1].nodes)
  }

  function Index(ps: seq<Placed>): map<string, Placed> {
    if ps == [] then map[]
    else Index(ps[..|ps| - 1])[ps[|ps| - 1].node.id := ps[|ps| - 1]]
  }

  function FlowIndex(flows: seq<Flow>): map<string, Flow> {
    if flows == [] then map[]
    else FlowIndex(flows[..|flows| - 1])[flows[|flows| - 1].id := flows[|flows| - 1]]
  }

  function ConfigIndex(cs: seq<ConfigNode>): map<string, ConfigNode> {
    if cs == [] then map[]
    else ConfigIndex(cs[..|cs| - 1])[cs[|cs| - 1].id := cs[|cs| - 1]]
  }

  predicate UniqueNodes(ps: seq<Placed>) {
    forall i, j :: 0 <= i < j < |ps| ==> ps[i].node.id != ps[j].node.id
  }

  predicate UniqueConfigs(cs: seq<ConfigNode>) {
    forall i, j :: 0 <= i < j < |cs| ==> cs[i].id != cs[j].id
  }

  predicate Unique(w: Workspace) {
    UniqueNodes(AllNodes(w.flows)) && UniqueConfigs(w.configs)
  }

  lemma {:induction false} IndexIsPlaced(ps: seq<Placed>)
    ensures forall id :: id in Index(ps) <==> exists i :: 0 <= i < |ps| && ps[i].node.id == id
    ensures forall id :: id in Index(ps) ==> Index(ps)[id] in ps && Index(ps)[id].node.id == id
    ensures UniqueNodes(ps) ==> forall i :: 0 <= i < |ps| ==> ps[i].node.id in Index(ps) && Index(ps)[ps[i].node.id] == ps[i]
  {
    if ps != [] {
      var front, last := ps[..|ps| - 1], ps[|ps| - 1];
      IndexIsPlaced(front);
      assert ps == front + [last];
      forall id | exists i :: 0 <= i < |ps| && ps[i].node.id == id
        ensures id in Index(ps)
      {
        var i :| 0 <= i < |ps| && ps[i].node.id == id;
        if i < |front| { assert front[i].node.id == id; }
      }
      forall id | id in Index(ps)
        ensures exists i :: 0 <= i < |ps| && ps[i].node.id == id
      {
        if id == last.node.id {
          assert ps[|ps| - 1].node.id == id;
        } else {
          assert id in Index(front);
          var i :| 0 <= i < |front| && front[i].node.id == id;
          assert ps[i].node.id == id;
        }
      }
      if UniqueNodes(ps) {
        forall i | 0 <= i < |ps|
          ensures ps[i].node.id in Index(ps) && Index(ps)[ps[i].node.id] == ps[i]
        {
          if i < |front| { assert front[i] == ps[i]; }
        }
      }
    }
  }

  lemma {:induction false} AllNodesSnoc(flows: seq<Flow>, i: nat)
    requires i < |flows|
    ensures AllNodes(flows[..i + 1]) == AllNodes(flows[..i]) + Place(flows[i], flows[i].nodes)
  {
    assert flows[..i + 1][..i] == flows[..i];
  }

  lemma SnocNode(before: seq<Placed>, f: Flow, j: nat)
    requires j < |f.nodes|
    ensures before + Place(f, f.nodes[..j + 1]) ==
            before + Place(f, f.nodes[..j]) + [Placed(f.nodes[j], f.id, f.disabled)]
  {
  }

  lemma IndexSnoc(ps: seq<Placed>, p: Placed)
    ensures Index(ps + [p]) == Index(ps)[p.node.id := p]
  {
    assert (ps + [p])[..|ps|] == ps;
  }

  lemma AllPlaced(before: seq<Placed>, f: Flow)
    ensures before + Place(f, f.nodes[..0]) == before
    ensures Place(f, f.nodes[..|f.nodes|]) == Place(f, f.nodes)
  {
    assert f.nodes[..|f.nodes|] == f.nodes;
  }

  method IndexNodes(flows: seq<Flow>) returns (m: map<string, Placed>)
    ensures m == Index(AllNodes(flows))
  {
    m := map[];
    for i := 0 to |flows|
      invariant m == Index(AllNodes(flows[..i]))
    {
      ghost var before := AllNodes(flows[..i]);
      var f := flows[i];
      AllPlaced(before, f);
      for j := 0 to |f.nodes|
        invariant m == Index(before + Place(f, f.nodes[..j]))
      {
        var p := Placed(f.nodes[j], f.id, f.disabled);
        SnocNode(before, f, j);
        IndexSnoc(before + Place(f, f.nodes[..j]), p);
        m := m[p.node.id := p];
      }
      AllNodesSnoc(flows, i);
    }
    assert flows[..|flows|] == flows;
  }

  method IndexFlows(flows: seq<Flow>) returns (m: map<string, Flow>)
    ensures m == FlowIndex(flows)
  {
    m := map[];
    for i := 0 to |flows|
      invariant m == FlowIndex(flows[..i])
    {
      assert flows[..i + 1][..i] == flows[..i];
      m := m[flows[i].id := flows[i]];
    }
    assert flows[..|flows|] == flows;
  }

  method IndexConfigs(cs: seq<ConfigNode>) returns (m: map<string, ConfigNode>)
    ensures m == ConfigIndex(cs)
  {
    m := map[];
    for i := 0 to |cs|
      invariant m == ConfigIndex(cs[..i])
    {
      assert cs[..i + 1][..i] == cs[..i];
      m := m[cs[i].id := cs[i]];
    }
    assert cs[..|cs|] == cs;
  }

  lemma {:induction false} ConfigIndexIsMember(cs: seq<ConfigNode>)
    ensures forall id :: id in ConfigIndex(cs) ==> ConfigIndex(cs)[id] in cs && ConfigIndex(cs)[id].id == id
    ensures forall c :: c in cs ==> c.id in ConfigIndex(cs)
    ensures UniqueConfigs(cs) ==> forall c :: c in cs ==> ConfigIndex(cs)[c.id] == c
  {
    if cs != [] {
      var front, last := cs[..|cs| - 1], cs[|cs| - 1];
      ConfigIndexIsMember(front);
      assert cs == front + [last];
      if UniqueConfigs(cs) {
        forall c | c in front ensures c.id != last.id {
          var i :| 0 <= i < |front| && front[i] == c;
          assert cs[i].id != cs[|cs| - 1].id;
        }
      }
    }
  }

  /******* What counts as a change *******/

  predicate WiresEqual(a: Wires, b: Wires)
    ensures WiresEqual(a, b) <==> a == b
  {
    |a| == |b| && forall i :: 0 <= i < |a| ==> TargetsEqual(a[i], b[i])
  }

  predicate TargetsEqual(a: seq<string>, b: seq<string>)
    ensures TargetsEqual(a, b) <==> a == b
  {
    |a| == |b| && forall j :: 0 <= j < |a| ==> a[j] == b[j]
  }

  predicate NodeChanged(old_: Node, new_: Node) {
    old_.disabled != new_.disabled || old_.name != new_.name ||
    !WiresEqual(old_.wires, new_.wires) || old_.config != new_.config
  }

  predicate ConfigNodeChanged(old_: ConfigNode, new_: ConfigNode) {
    old_.config != new_.config
  }

  function NodeIds(f: Flow): set<string> {
    set n | n in f.nodes :: n.id
  }

  predicate FlowChanged(old_: Flow, new_: Flow, touched: set<string>) {
    old_.disabled != new_.disabled || old_.env != new_.env ||
    NodeIds(old_) != NodeIds(new_) || NodeIds(new_) * touched != {}
  }

  predicate References(n: Node, changed: set<string>) {
    exists k :: k in n.config && n.config[k].Str? && n.config[k].s in changed
  }

  /******* The difference, by definition *******/

  function ChangedNodes(o: map<string, Placed>, n: map<string, Placed>): set<string> {
    set id | id in n && id in o && NodeChanged(o[id].node, n[id].node)
  }

  function ChangedConfigs(o: map<string, ConfigNode>, n: map<string, ConfigNode>): set<string> {
    set id | id in n && id in o && ConfigNodeChanged(o[id], n[id])
  }

  function ChangedFlows(o: map<string, Flow>, n: map<string, Flow>, touched: set<string>): set<string> {
    set id | id in n && id in o && FlowChanged(o[id], n[id], touched)
  }

  function DiffOf(old_: Workspace, new_: Workspace): Diff {
    var (on, nn) := (Index(AllNodes(old_.flows)), Index(AllNodes(new_.flows)));
    var (of, nf) := (FlowIndex(old_.flows), FlowIndex(new_.flows));
    var (oc, nc) := (ConfigIndex(old_.configs), ConfigIndex(new_.configs));
    var (added, removed, modified) := (nn.Keys - on.Keys, on.Keys - nn.Keys, ChangedNodes(on, nn));
    Diff(nf.Keys - of.Keys, of.Keys - nf.Keys, ChangedFlows(of, nf, added + removed + modified),
         added, removed, modified,
         nc.Keys - oc.Keys, oc.Keys - nc.Keys, ChangedConfigs(oc, nc))
  }

  // Nodes restarted because a config node they reference was modified.
  function Dependents(d: Diff, ps: seq<Placed>): set<string> {
    set p | p in ps && p.node.id !in d.modifiedNodes + d.addedNodes && References(p.node, d.modifiedConfigs) :: p.node.id
  }

  function Expanded(d: Diff, ws: Workspace): Diff {
    d.(modifiedNodes := d.modifiedNodes + Dependents(d, AllNodes(ws.flows)))
  }

  /******* The difference, as computed *******/

  method OnlyIn<V, W>(xs: map<string, V>, ys: map<string, W>) returns (ids: set<string>)
    ensures ids == xs.Keys - ys.Keys
  {
    ids := {};
    var todo := xs.Keys;
    while todo != {}
      invariant todo <= xs.Keys
      invariant ids == (xs.Keys - todo) - ys.Keys
      decreases todo
    {
      var id :| id in todo;
      if id !in ys { ids := ids + {id}; }
      todo := todo - {id};
    }
  }

  method FindChangedNodes(o: map<string, Placed>, n: map<string, Placed>) returns (ids: set<string>)
    ensures ids == ChangedNodes(o, n)
  {
    ids := {};
    var todo := n.Keys;
    while todo != {}
      invariant todo <= n.Keys
      invariant ids == ChangedNodes(o, n) - todo
      decreases todo
    {
      var id :| id in todo;
      if id in o && NodeChanged(o[id].node, n[id].node) { ids := ids + {id}; }
      todo := todo - {id};
    }
  }

  method FindChangedConfigs(o: map<string, ConfigNode>, n: map<string, ConfigNode>) returns (ids: set<string>)
    ensures ids == ChangedConfigs(o, n)
  {
    ids := {};
    var todo := n.Keys;
    while todo != {}
      invariant todo <= n.Keys
      invariant ids == ChangedConfigs(o, n) - todo
      decreases todo
    {
      var id :| id in todo;
      if id in o && ConfigNodeChanged(o[id], n[id]) { ids := ids + {id}; }
      todo := todo - {id};
    }
  }

  method FindChangedFlows(o: map<string, Flow>, n: map<string, Flow>, touched: set<string>) returns (ids: set<string>)
    ensures ids == ChangedFlows(o, n, touched)
  {
    ids := {};
    var todo := n.Keys;
    while todo != {}
      invariant todo <= n.Keys
      invariant ids == ChangedFlows(o, n, touched) - todo
      decreases todo
    {
      var id :| id in todo;
      if id in o && FlowChanged(o[id], n[id], touched) { ids := ids + {id}; }
      todo := todo - {id};
    }
  }

  method DiffWorkspaces(old_: Workspace, new_: Workspace) returns (d: Diff)
    ensures d == DiffOf(old_, new_)
  {
    var oldFlows := IndexFlows(old_.flows);
    var newFlows := IndexFlows(new_.flows);
    var oldNodes := IndexNodes(old_.flows);
    var newNodes := IndexNodes(new_.flows);
    var addedNodes := OnlyIn(newNodes, oldNodes);
    var removedNodes := OnlyIn(oldNodes, newNodes);
    var modifiedNodes := FindChangedNodes(oldNodes, newNodes);
    var addedFlows := OnlyIn(newFlows, oldFlows);
    var removedFlows := OnlyIn(oldFlows, newFlows);
    var modifiedFlows := FindChangedFlows(oldFlows, newFlows, addedNodes + removedNodes + modifiedNodes);
    var oldConfigs := IndexConfigs(old_.configs);
    var newConfigs := IndexConfigs(new_.configs);
    var addedConfigs := OnlyIn(newConfigs, oldConfigs);
    var removedConfigs := OnlyIn(oldConfigs, newConfigs);
    var modifiedConfigs := FindChangedConfigs(oldConfigs, newConfigs);
    d := Diff(addedFlows, removedFlows, modifiedFlows, addedNodes, removedNodes, modifiedNodes,
              addedConfigs, removedConfigs, modifiedConfigs);
  }

  method ExpandConfigDependents(d: Diff, ws: Workspace) returns (r: Diff)
    ensures r == Expanded(d, ws)
  {
    if d.modifiedConfigs == {} {
      assert Dependents(d, AllNodes(ws.flows)) == {};
      return d;
    }
    var already := d.modifiedNodes + d.addedNodes;
    var extra := {};
    for i := 0 to |ws.flows|
      invariant extra == Dependents(d, AllNodes(ws.flows[..i]))
      invariant already == d.modifiedNodes + d.addedNodes + extra
    {
      ghost var before := AllNodes(ws.flows[..i]);
      var f := ws.flows[i];
      AllPlaced(before, f);
      for j := 0 to |f.nodes|
        invariant extra == Dependents(d, before + Place(f, f.nodes[..j]))
        invariant already == d.modifiedNodes + d.addedNodes + extra
      {
        var n := f.nodes[j];
        DependentsSnoc(d, before + Place(f, f.nodes[..j]), Placed(n, f.id, f.disabled));
        SnocNode(before, f, j);
        if n.id !in already && References(n, d.modifiedConfigs) {
          extra := extra + {n.id};
          already := already + {n.id};
        }
      }
      AllNodesSnoc(ws.flows, i);
    }
    assert ws.flows[..|ws.flows|] == ws.flows;
    r := d.(modifiedNodes := d.modifiedNodes + extra);
  }

  lemma DependentsSnoc(d: Diff, ps: seq<Placed>, p: Placed)
    ensures Dependents(d, ps + [p]) == Dependents(d, ps) +
            (if p.node.id !in d.modifiedNodes + d.addedNodes && References(p.node, d.modifiedConfigs)
             then {p.node.id} else {})
  {
    forall q | q in ps + [p] ensures q in ps || q == p {}
    assert forall q :: q in ps ==> q in ps + [p];
    assert p in ps + [p];
  }

  /******* The difference, field by field *******/

  // The last of several with one id counts.
  lemma {:induction false} IndexIsLast(ps: seq<Placed>, i: nat)
    requires i < |ps| && forall j :: i < j < |ps| ==> ps[j].node.id != ps[i].node.id
    ensures ps[i].node.id in Index(ps) && Index(ps)[ps[i].node.id] == ps[i]
  {
    if i < |ps| - 1 { IndexIsLast(ps[..|ps| - 1], i); }
  }

  lemma {:induction false} FlowIndexIsLast(flows: seq<Flow>, i: nat)
    requires i < |flows| && forall j :: i < j < |flows| ==> flows[j].id != flows[i].id
    ensures flows[i].id in FlowIndex(flows) && FlowIndex(flows)[flows[i].id] == flows[i]
  {
    if i < |flows| - 1 { FlowIndexIsLast(flows[..|flows| - 1], i); }
  }

  lemma {:induction false} ConfigIndexIsLast(cs: seq<ConfigNode>, i: nat)
    requires i < |cs| && forall j :: i < j < |cs| ==> cs[j].id != cs[i].id
    ensures cs[i].id in ConfigIndex(cs) && ConfigIndex(cs)[cs[i].id] == cs[i]
  {
    if i < |cs| - 1 { ConfigIndexIsLast(cs[..|cs| - 1], i); }
  }

  ghost predicate NodeOf(flows: seq<Flow>, i: int, j: int, p: Placed) {
    0 <= i < |flows| && 0 <= j < |flows[i].nodes| && p == Placed(flows[i].nodes[j], flows[i].id, flows[i].disabled)
  }

  // All nodes of all flows, and nothing else.
  lemma {:induction false} AllNodesAre(flows: seq<Flow>, p: Placed)
    ensures p in AllNodes(flows) <==> exists i, j :: NodeOf(flows, i, j, p)
  {
    if flows != [] {
      var (front, f) := (flows[..|flows| - 1], flows[|flows| - 1]);
      AllNodesAre(front, p);
      if p in AllNodes(front) {
        var i, j :| NodeOf(front, i, j, p);
        assert NodeOf(flows, i, j, p);
      } else if p in AllNodes(flows) {
        var j :| 0 <= j < |f.nodes| && Place(f, f.nodes)[j] == p;
        assert NodeOf(flows, |flows| - 1, j, p);
      }
      if i, j :| NodeOf(flows, i, j, p) {
        if i < |front| {
          assert NodeOf(front, i, j, p);
        } else {
          assert Place(f, f.nodes)[j] == p;
        }
      }
    }
  }

  // Some property of the node names one of `ids`, under whatever key.
  ghost predicate Mentions(n: Node, ids: set<string>) {
    exists k, c :: k in n.config && c in ids && n.config[k] == Str(c)
  }

  // Exactly the nodes some property of which is the id of a modified config.
  lemma ExpandedExactly(d: Diff, ws: Workspace, id: string)
    ensures
      id in Expanded(d, ws).modifiedNodes <==>
      id in d.modifiedNodes ||
      (id !in d.addedNodes && exists p :: p in AllNodes(ws.flows) && p.node.id == id && Mentions(p.node, d.modifiedConfigs))
    ensures Expanded(d, ws) == d.(modifiedNodes := Expanded(d, ws).modifiedNodes)
  {
    var ps := AllNodes(ws.flows);
    if id in Dependents(d, ps) {
      var p :| p in ps && p.node.id == id && References(p.node, d.modifiedConfigs);
      ReferencesMention(p.node, d.modifiedConfigs);
    }
    if p :| p in ps && p.node.id == id && Mentions(p.node, d.modifiedConfigs) {
      ReferencesMention(p.node, d.modifiedConfigs);
    }
  }

  lemma ReferencesMention(n: Node, ids: set<string>)
    ensures References(n, ids) <==> Mentions(n, ids)
  {
    if References(n, ids) {
      var k :| k in n.config && n.config[k].Str? && n.config[k].s in ids;
      assert n.config[k] == Str(n.config[k].s);
    }
  }

  // What each list of the difference holds, in terms of the two workspaces'
  // own fields.
  lemma DiffExactly(old_: Workspace, new_: Workspace, id: string)
    ensures
      var d := DiffOf(old_, new_);
      var (on, nn) := (Index(AllNodes(old_.flows)), Index(AllNodes(new_.flows)));
      var (of, nf) := (FlowIndex(old_.flows), FlowIndex(new_.flows));
      var (oc, nc) := (ConfigIndex(old_.configs), ConfigIndex(new_.configs));
      (id in d.addedNodes <==> id in nn && id !in on) && (id in d.removedNodes <==> id in on && id !in nn) &&
      (id in d.modifiedNodes <==>
        id in on && id in nn &&
        var (o, n) := (on[id].node, nn[id].node);
        (o.disabled != n.disabled || o.name != n.name || o.wires != n.wires || o.config != n.config)) &&
      (id in d.addedConfigs <==> id in nc && id !in oc) && (id in d.removedConfigs <==> id in oc && id !in nc) &&
      (id in d.modifiedConfigs <==> id in oc && id in nc && oc[id].config != nc[id].config) &&
      (id in d.addedFlows <==> id in nf && id !in of) && (id in d.removedFlows <==> id in of && id !in nf) &&
      (id in d.modifiedFlows <==>
        id in of && id in nf &&
        (of[id].disabled != nf[id].disabled || of[id].env != nf[id].env || NodeIds(of[id]) != NodeIds(nf[id]) ||
         exists n :: n in nf[id].nodes && (n.id in d.addedNodes || n.id in d.removedNodes || n.id in d.modifiedNodes)))
  {
    var d := DiffOf(old_, new_);
    var (of, nf) := (FlowIndex(old_.flows), FlowIndex(new_.flows));
    if id in of && id in nf { TouchedNode(nf[id], d.addedNodes + d.removedNodes + d.modifiedNodes); }
  }

  lemma TouchedNode(f: Flow, touched: set<string>)
    ensures NodeIds(f) * touched != {} <==> exists n :: n in f.nodes && n.id in touched
  {
    if n :| n in f.nodes && n.id in touched {
      assert n.id in NodeIds(f) * touched;
    }
    if id :| id in NodeIds(f) * touched {
      assert exists n :: n in f.nodes && n.id == id;
    }
  }
}
