/**
 * Moving one hash slot from a source node to a target node while clients keep using
 * it.  The operator sets IMPORTING on the target, MIGRATING on the source, moves every
 * key by restoring it on the target and then deleting it on the source, and finally
 * sets NODE on the target and on the source.  Clients start at either node and follow
 * MOVED and ASK; all of this interleaves step by step.
 *
 * Main results: `AtMostTwoRedirects` and `MoveIsInvisible`.
 */
module SlotMigration {
  import opened Options
  import opened Topology
  import opened Redirect

  type Value = string
  type Store = map<string, Value>

  datatype Plan = Plan(slot: int, slotOf: SlotOf, nodes: seq<Node>, source: nat, target: nat)

  datatype Side = Src | Dst

  datatype Phase = Settled | TargetImports | SourceMigrates | TargetOwns | Finished

  datatype Action = Get | Put(value: Value) | Del

  datatype Client =
    | Waiting(key: string, action: Action, at: Side, asking: bool, hops: nat)
    | Served(node: Side, hops: nat)
    | Failed

  // A served command and what it found under its key.
  datatype Event = Event(key: string, action: Action, found: Option<Value>)

  datatype World = World(
    src: Topo,
    dst: Topo,
    srcKeys: Store,
    dstKeys: Store,
    phase: Phase,
    transit: set<string>,
    clients: map<nat, Client>,
    log: seq<Event>)

  datatype Step =
    | ImportOnTarget
    | MigrateOnSource
    | Restore(key: string, replace: bool)
    | Delete(key: string)
    | NodeOnTarget
    | NodeOnSource
    | Connect(client: nat, key: string, action: Action, at: Side)
    | Visit(client: nat)

  // ---------------------------------------------------------------- clients

  function Look(s: Store, key: string): Option<Value> {
    if key in s then Some(s[key]) else None
  }

  function Act(s: Store, key: string, action: Action): Store {
    match action
    case Get => s
    case Put(v) => s[key := v]
    case Del => s - {key}
  }

  function CommandName(action: Action): string {
    match action case Get => "GET" case Put(_) => "SET" case Del => "DEL"
  }

  predicate HasNodes(p: Plan) {
    && p.source < |p.nodes| && p.target < |p.nodes| && p.source != p.target && ValidSlot(p.slot)
    && (forall i, j | 0 <= i < j < |p.nodes| :: p.nodes[i].id != p.nodes[j].id)
    && p.nodes[p.source].addr != p.nodes[p.target].addr
    && p.nodes[p.source].addr != "" && p.nodes[p.target].addr != ""
  }

  predicate Tables(p: Plan, w: World) {
    && Shaped(w.src) && Shaped(w.dst) && w.src.nodes == p.nodes && w.dst.nodes == p.nodes
    && w.src.self == p.source && w.dst.self == p.target
  }

  // The client at `at` sends its command, after ASKING when `asking`.
  function VerdictFor(p: Plan, w: World, key: string, action: Action, at: Side, asking: bool): Verdict
    requires Tables(p, w)
  {
    match at
    case Src => Route(w.src, p.slot, CommandName(action), key in w.srcKeys, asking)
    case Dst => Route(w.dst, p.slot, CommandName(action), key in w.dstKeys, asking)
  }

  function SideOf(p: Plan, addr: string): Option<Side>
    requires HasNodes(p)
  {
    if addr == p.nodes[p.source].addr then Some(Src)
    else if addr == p.nodes[p.target].addr then Some(Dst)
    else None
  }

  function Redirected(p: Plan, c: Client, addr: string, asking: bool): Client
    requires HasNodes(p) && c.Waiting?
  {
    match SideOf(p, addr)
    case Some(side) => c.(at := side, asking := asking, hops := c.hops + 1)
    case None => Failed
  }

  function ServedAt(w: World, id: nat): World
    requires id in w.clients && w.clients[id].Waiting?
  {
    var c := w.clients[id];
    var found := Look(if c.at == Src then w.srcKeys else w.dstKeys, c.key);
    w.(srcKeys := if c.at == Src then Act(w.srcKeys, c.key, c.action) else w.srcKeys,
    dstKeys := if c.at == Dst then Act(w.dstKeys, c.key, c.action) else w.dstKeys,
    clients := w.clients[id := Served(c.at, c.hops)],
    log := w.log + [Event(c.key, c.action, found)])
  }

  function Visited(p: Plan, w: World, id: nat): World
    requires HasNodes(p) && Tables(p, w) && id in w.clients && w.clients[id].Waiting?
  {
    var c := w.clients[id];
    match VerdictFor(p, w, c.key, c.action, c.at, c.asking)
    case Serve => ServedAt(w, id)
    case Moved(_, addr) => w.(clients := w.clients[id := Redirected(p, c, addr, false)])
    case Ask(_, addr) => w.(clients := w.clients[id := Redirected(p, c, addr, true)])
    case _ => w.(clients := w.clients[id := Failed])
  }

  // ---------------------------------------------------------------- steps

  predicate Enabled(p: Plan, w: World, step: Step)
    requires HasNodes(p) && Tables(p, w)
  {
    match step
    case ImportOnTarget => w.phase == Settled
    case MigrateOnSource => w.phase == TargetImports
    case Restore(key, replace) =>
      w.phase == SourceMigrates && p.slotOf(key) == p.slot && key in w.srcKeys
    case Delete(key) => key in w.transit
    case NodeOnTarget => w.phase == SourceMigrates && forall k <- w.srcKeys :: p.slotOf(k) != p.slot
    case NodeOnSource => w.phase == TargetOwns
    case Connect(id, key, action, at) => id !in w.clients && p.slotOf(key) == p.slot
    case Visit(id) =>
      id in w.clients && w.clients[id].Waiting? && (w.clients[id].action.Get? || w.clients[id].key !in w.transit)
  }

  // One step; a step that is not enabled, or that a node refuses, changes nothing.
  function Next(p: Plan, w: World, step: Step): World
    requires HasNodes(p) && Tables(p, w)
  {
    if !Enabled(p, w, step) then w else
    match step
    case ImportOnTarget =>
      (match Importing(w.dst, p.slot, p.nodes[p.source].id)
       case Some(t) => w.(dst := t, phase := TargetImports)
       case None => w)
    case MigrateOnSource =>
      (match Migrating(w.src, p.slot, p.nodes[p.target].id)
       case Some(t) => w.(src := t, phase := SourceMigrates)
       case None => w)
    case Restore(key, replace) =>
      if Route(w.dst, p.slot, "RESTORE", key in w.dstKeys, true) != Serve || (key in w.dstKeys && !replace) then w
      else w.(dstKeys := w.dstKeys[key := w.srcKeys[key]], transit := w.transit + {key})
    case Delete(key) => w.(srcKeys := w.srcKeys - {key}, transit := w.transit - {key})
    case NodeOnTarget =>
      (match Assigned(w.dst, p.slot, p.nodes[p.target].id)
       case Some(t) => w.(dst := t, phase := TargetOwns)
       case None => w)
    case NodeOnSource =>
      (match Assigned(w.src, p.slot, p.nodes[p.target].id)
       case Some(t) => w.(src := t, phase := Finished)
       case None => w)
    case Connect(id, key, action, at) =>
      w.(clients := w.clients[id := Waiting(key, action, at, false, 0)])
    case Visit(id) => Visited(p, w, id)
  }

  // ---------------------------------------------------------------- invariant

  ghost predicate TablesFollow(p: Plan, w: World)
    requires HasNodes(p)
  {
    && Tables(p, w)
    && w.src.owner[p.slot] == (if w.phase == Finished then p.target else p.source) && w.src.owned[p.slot]
    && p.slot !in w.src.importing
    && (p.slot in w.src.migrating <==> w.phase in {SourceMigrates, TargetOwns})
    && (p.slot in w.src.migrating ==> w.src.migrating[p.slot] == p.nodes[p.target].id)
    && w.dst.owner[p.slot] == (if w.phase in {TargetOwns, Finished} then p.target else p.source) && w.dst.owned[p.slot]
    && p.slot !in w.dst.migrating
    && (p.slot in w.dst.importing <==> w.phase in {TargetImports, SourceMigrates})
  }

  // A key of the slot is on both nodes only while in transit, with one value.
  ghost predicate KeyOk(p: Plan, w: World, k: string) {
    && (k in w.transit ==> w.phase == SourceMigrates && p.slotOf(k) == p.slot
                           && k in w.srcKeys && k in w.dstKeys && w.srcKeys[k] == w.dstKeys[k])
    && (p.slotOf(k) == p.slot && k in w.srcKeys && k in w.dstKeys ==> k in w.transit)
    && (p.slotOf(k) == p.slot && k in w.dstKeys ==> w.phase !in {Settled, TargetImports})
    && (p.slotOf(k) == p.slot && k in w.srcKeys ==> w.phase !in {TargetOwns, Finished})
  }

  // The target will serve whoever was sent there.
  ghost predicate Expected(w: World, key: string, asking: bool) {
    || w.phase in {TargetOwns, Finished}
    || (asking && w.phase == SourceMigrates && key !in w.srcKeys)
  }

  ghost predicate ClientOk(p: Plan, w: World, c: Client) {
    match c
    case Failed => false
    case Served(_, hops) => hops <= 2
    case Waiting(key, action, at, asking, hops) =>
      && p.slotOf(key) == p.slot && hops <= 2
      && (asking ==> at == Dst && Expected(w, key, asking))
      && (hops == 1 && at == Dst ==> Expected(w, key, asking))
      && (hops == 2 ==> at == Dst && Expected(w, key, asking))
  }

  ghost predicate Invariant(p: Plan, w: World) {
    && HasNodes(p) && TablesFollow(p, w)
    && (forall k {:trigger KeyOk(p, w, k)} :: KeyOk(p, w, k))
    && (forall id {:trigger ClientOk(p, w, w.clients[id])} | id in w.clients :: ClientOk(p, w, w.clients[id]))
  }

  // The content of the slot, wherever its keys are.
  function Held(p: Plan, w: World): Store {
    map k | k in w.srcKeys.Keys + w.dstKeys.Keys && p.slotOf(k) == p.slot ::
      if k in w.srcKeys then w.srcKeys[k] else w.dstKeys[k]
  }

  // A world before the move: the source owns the slot and has all its keys.
  ghost predicate Start(p: Plan, w: World) {
    && HasNodes(p) && TablesFollow(p, w) && w.phase == Settled && w.transit == {} && w.clients == map[] && w.log == []
    && forall k <- w.dstKeys :: p.slotOf(k) != p.slot
  }

  // ---------------------------------------------------------------- preservation

  // Where the gate sends a client, read off the phase.
  lemma {:induction false} GateFollowsPhase(p: Plan, w: World, key: string, action: Action, at: Side, asking: bool)
    requires HasNodes(p) && TablesFollow(p, w) && (asking ==> at == Dst && Expected(w, key, asking))
    ensures var v := VerdictFor(p, w, key, action, at, asking);
            match at
            case Dst =>
              if Expected(w, key, asking) then v == Serve
              else v == Moved(p.slot, p.nodes[p.source].addr)
            case Src =>
              if w.phase in {SourceMigrates, TargetOwns} then
                v == if key in w.srcKeys then Serve else Ask(p.slot, p.nodes[p.target].addr)
              else if w.phase == Finished then v == Moved(p.slot, p.nodes[p.target].addr)
              else v == Serve
  {
    assert IndexOf(p.nodes, p.nodes[p.target].id) == p.target;
  }

  lemma {:induction false} ClientsKept(p: Plan, w: World, w': World)
    requires Invariant(p, w) && w'.clients == w.clients
    requires forall key, asking | p.slotOf(key) == p.slot && Expected(w, key, asking) :: Expected(w', key, asking)
    ensures forall id | id in w'.clients :: ClientOk(p, w', w'.clients[id])
  {
    forall id | id in w'.clients ensures ClientOk(p, w', w'.clients[id]) {
      assert ClientOk(p, w, w.clients[id]);
    }
  }

  // The four table changes and the two halves of a key's move: the slot's content
  // stays what it was.
  lemma {:induction false} OperatorKeeps(p: Plan, w: World, step: Step)
    requires Invariant(p, w) && Enabled(p, w, step) && !step.Connect? && !step.Visit?
    ensures Invariant(p, Next(p, w, step))
    ensures Held(p, Next(p, w, step)) == Held(p, w) && Next(p, w, step).log == w.log
  {
    var w' := Next(p, w, step);
    assert IndexOf(p.nodes, p.nodes[p.target].id) == p.target;
    forall k ensures KeyOk(p, w', k) { assert KeyOk(p, w, k); }
    ClientsKept(p, w, w');
    forall k ensures At(p, w', k) == Look(Held(p, w), k) { assert KeyOk(p, w, k) && KeyOk(p, w', k); }
    HeldIs(p, w', Held(p, w));
  }

  // The content of the slot at one key.
  function At(p: Plan, w: World, k: string): Option<Value> {
    if p.slotOf(k) != p.slot then None
    else if k in w.srcKeys then Some(w.srcKeys[k])
    else Look(w.dstKeys, k)
  }

  lemma {:induction false} SameContent(a: Store, b: Store)
    requires forall k :: Look(a, k) == Look(b, k)
    ensures a == b
  {
    forall k ensures k in a <==> k in b { assert Look(a, k) == Look(b, k); }
    forall k | k in a ensures a[k] == b[k] { assert Look(a, k) == Look(b, k); }
  }

  lemma {:induction false} HeldIs(p: Plan, w: World, s: Store)
    requires forall k :: At(p, w, k) == Look(s, k)
    ensures Held(p, w) == s
  {
    forall k ensures Look(Held(p, w), k) == Look(s, k) { assert At(p, w, k) == Look(s, k); }
    SameContent(Held(p, w), s);
  }

  // The store that serves a command has the slot's content for its key.
  lemma {:induction false} ServedWhereHeld(p: Plan, w: World, id: nat)
    requires Invariant(p, w) && Enabled(p, w, Visit(id))
    requires var c := w.clients[id]; VerdictFor(p, w, c.key, c.action, c.at, c.asking) == Serve
    ensures var c := w.clients[id];
            && Look(if c.at == Src then w.srcKeys else w.dstKeys, c.key) == At(p, w, c.key)
            && (c.at == Dst && !c.action.Get? ==> c.key !in w.srcKeys)
            && (c.at == Src && !c.action.Get? ==> c.key !in w.dstKeys)
            && (c.at == Dst ==> w.phase !in {Settled, TargetImports})
            && (c.at == Src ==> w.phase in {Settled, TargetImports} || c.key in w.srcKeys)
  {
    var c := w.clients[id];
    assert ClientOk(p, w, c);
    GateFollowsPhase(p, w, c.key, c.action, c.at, c.asking);
    assert KeyOk(p, w, c.key);
  }

  lemma {:induction false} ServedKeeps(p: Plan, w: World, id: nat)
    requires Invariant(p, w) && Enabled(p, w, Visit(id))
    requires var c := w.clients[id]; VerdictFor(p, w, c.key, c.action, c.at, c.asking) == Serve
    ensures Invariant(p, ServedAt(w, id))
  {
    var c, w' := w.clients[id], ServedAt(w, id);
    ServedWhereHeld(p, w, id);
    assert ClientOk(p, w, c);
    forall k ensures KeyOk(p, w', k) { assert KeyOk(p, w, k); }
    forall i | i in w'.clients ensures ClientOk(p, w', w'.clients[i]) {
      assert i != id ==> ClientOk(p, w, w.clients[i]);
    }
  }

  // A served command acts on the content of the slot as on a single store.
  lemma {:induction false} ServedActsOnHeld(p: Plan, w: World, id: nat)
    requires Invariant(p, w) && Enabled(p, w, Visit(id))
    requires var c := w.clients[id]; VerdictFor(p, w, c.key, c.action, c.at, c.asking) == Serve
    ensures var c, w' := w.clients[id], ServedAt(w, id);
            && Held(p, w') == Act(Held(p, w), c.key, c.action)
            && w'.log == w.log + [Event(c.key, c.action, Look(Held(p, w), c.key))]
  {
    var c, w' := w.clients[id], ServedAt(w, id);
    assert ClientOk(p, w, c);
    ServedWhereHeld(p, w, id);
    var s := Act(Held(p, w), c.key, c.action);
    forall k ensures At(p, w', k) == Look(s, k) {
      assert Look(Held(p, w), k) == At(p, w, k);
      if k == c.key { assert p.slotOf(k) == p.slot; }
    }
    HeldIs(p, w', s);
  }

  // A redirected client changes nothing but itself.
  lemma {:induction false} RedirectKeeps(p: Plan, w: World, id: nat)
    requires Invariant(p, w) && Enabled(p, w, Visit(id))
    requires var c := w.clients[id]; VerdictFor(p, w, c.key, c.action, c.at, c.asking) != Serve
    ensures var w' := Next(p, w, Visit(id)); Invariant(p, w') && w'.log == w.log && Held(p, w') == Held(p, w)
  {
    var c, w' := w.clients[id], Next(p, w, Visit(id));
    assert ClientOk(p, w, c);
    GateFollowsPhase(p, w, c.key, c.action, c.at, c.asking);
    forall k ensures KeyOk(p, w', k) { assert KeyOk(p, w, k); }
    assert ClientOk(p, w', w'.clients[id]);
    forall i | i in w'.clients ensures ClientOk(p, w', w'.clients[i]) {
      assert i != id ==> ClientOk(p, w, w.clients[i]);
    }
    assert Held(p, w') == Held(p, w);
  }

  lemma {:induction false} VisitKeeps(p: Plan, w: World, id: nat)
    requires Invariant(p, w) && Enabled(p, w, Visit(id))
    ensures Invariant(p, Next(p, w, Visit(id)))
    ensures var w' := Next(p, w, Visit(id));
            || (w'.log == w.log && Held(p, w') == Held(p, w))
            || (var c := w.clients[id];
                && w'.log == w.log + [Event(c.key, c.action, Look(Held(p, w), c.key))]
                && Held(p, w') == Act(Held(p, w), c.key, c.action))
  {
    var c := w.clients[id];
    if VerdictFor(p, w, c.key, c.action, c.at, c.asking) == Serve {
      ServedKeeps(p, w, id);
      ServedActsOnHeld(p, w, id);
    } else {
      RedirectKeeps(p, w, id);
    }
  }

  lemma {:induction false} StepKeeps(p: Plan, w: World, step: Step)
    requires Invariant(p, w)
    ensures Invariant(p, Next(p, w, step))
  {
    if Enabled(p, w, step) {
      match step
      case Visit(id) => VisitKeeps(p, w, id);
      case Connect(id, key, action, at) =>
        var w' := Next(p, w, step);
        forall k ensures KeyOk(p, w', k) { assert KeyOk(p, w, k); }
        forall i | i in w'.clients ensures ClientOk(p, w', w'.clients[i]) {
          assert i != id ==> ClientOk(p, w, w.clients[i]);
        }
      case _ => OperatorKeeps(p, w, step);
    }
  }

  // ---------------------------------------------------------------- every run

  function Run(p: Plan, w: World, steps: seq<Step>): World
    requires Invariant(p, w)
    decreases |steps|
  {
    if steps == [] then w else StepKeeps(p, w, steps[0]); Run(p, Next(p, w, steps[0]), steps[1..])
  }

  lemma {:induction false} RunKeeps(p: Plan, w: World, steps: seq<Step>)
    requires Invariant(p, w)
    ensures Invariant(p, Run(p, w, steps))
    decreases |steps|
  {
    if steps != [] {
      StepKeeps(p, w, steps[0]);
      RunKeeps(p, Next(p, w, steps[0]), steps[1..]);
    }
  }

  lemma {:induction false} StartOk(p: Plan, w: World)
    requires Start(p, w)
    ensures Invariant(p, w)
  {
    forall k ensures KeyOk(p, w, k) {}
  }

  // In every interleaving, every client is served after at most two redirects and is
  // never turned away.
  lemma {:induction false} AtMostTwoRedirects(p: Plan, w: World, steps: seq<Step>, id: nat)
    requires Start(p, w)
    ensures Invariant(p, w)
    ensures id in Run(p, w, steps).clients ==>
              var c := Run(p, w, steps).clients[id];
              !c.Failed? && c.hops <= 2
  {
    StartOk(p, w);
    RunKeeps(p, w, steps);
    var end := Run(p, w, steps);
    assert id in end.clients ==> ClientOk(p, end, end.clients[id]);
  }

  // ---------------------------------------------------------------- one store

  // What a single store would hold after the logged commands.
  function Replay(s: Store, log: seq<Event>): Store {
    if log == [] then s
    else Act(Replay(s, log[..|log| - 1]), log[|log| - 1].key, log[|log| - 1].action)
  }

  // Every logged command found what a single store would have shown it.
  predicate Truthful(s: Store, log: seq<Event>) {
    forall i | 0 <= i < |log| :: log[i].found == Look(Replay(s, log[..i]), log[i].key)
  }

  ghost predicate Explained(p: Plan, s: Store, w: World) {
    Held(p, w) == Replay(s, w.log) && Truthful(s, w.log)
  }

  lemma {:induction false} LogExtends(s: Store, log: seq<Event>, e: Event)
    requires Truthful(s, log) && e.found == Look(Replay(s, log), e.key)
    ensures Truthful(s, log + [e]) && Replay(s, log + [e]) == Act(Replay(s, log), e.key, e.action)
  {
    var all := log + [e];
    assert all[..|all| - 1] == log;
    forall i | 0 <= i < |all| ensures all[i].found == Look(Replay(s, all[..i]), all[i].key) {
      if i < |log| { assert all[..i] == log[..i]; }
    }
  }

  lemma {:induction false} StepExplained(p: Plan, s: Store, w: World, step: Step)
    requires Invariant(p, w) && Explained(p, s, w)
    ensures Explained(p, s, Next(p, w, step))
  {
    if Enabled(p, w, step) {
      match step
      case Visit(id) =>
        VisitKeeps(p, w, id);
        var c := w.clients[id];
        LogExtends(s, w.log, Event(c.key, c.action, Look(Held(p, w), c.key)));
      case Connect(_, _, _, _) =>
        assert Held(p, Next(p, w, step)) == Held(p, w);
      case _ => OperatorKeeps(p, w, step);
    }
  }

  lemma {:induction false} RunExplained(p: Plan, s: Store, w: World, steps: seq<Step>)
    requires Invariant(p, w) && Explained(p, s, w)
    ensures Explained(p, s, Run(p, w, steps))
    decreases |steps|
  {
    if steps != [] {
      StepKeeps(p, w, steps[0]);
      StepExplained(p, s, w, steps[0]);
      RunExplained(p, s, Next(p, w, steps[0]), steps[1..]);
    }
  }

  // In every interleaving, what clients see and what the two nodes hold together is
  // what one store holding the slot's initial content would have given: no key is
  // lost, duplicated or resurrected by the move.
  lemma {:induction false} MoveIsInvisible(p: Plan, w: World, steps: seq<Step>)
    requires Start(p, w)
    ensures Invariant(p, w)
    ensures var end := Run(p, w, steps);
            && Held(p, end) == Replay(Held(p, w), end.log)
            && Truthful(Held(p, w), end.log)
  {
    StartOk(p, w);
    RunExplained(p, Held(p, w), w, steps);
  }

  // Once the move is over the target alone holds the slot.
  lemma {:induction false} FinishedMeansMoved(p: Plan, w: World, steps: seq<Step>)
    requires Start(p, w)
    ensures Invariant(p, w)
    ensures var end := Run(p, w, steps);
            end.phase == Finished ==>
              forall k | p.slotOf(k) == p.slot :: k !in end.srcKeys && Look(Held(p, end), k) == Look(end.dstKeys, k)
  {
    StartOk(p, w);
    RunKeeps(p, w, steps);
    var end := Run(p, w, steps);
    if end.phase == Finished {
      forall k | p.slotOf(k) == p.slot ensures k !in end.srcKeys { assert KeyOk(p, end, k); }
    }
  }

  function Attempts(id: nat, n: nat): seq<Step> { seq(n, _ => Visit(id)) }

  predicate Progressed(c: Client, c': Client) {
    || c'.Served?
    || (c.Waiting? && c'.Waiting? && c'.hops == c.hops + 1 && c'.key == c.key && c'.action == c.action)
  }

  lemma {:induction false} VisitedMoves(p: Plan, w: World, id: nat)
    requires HasNodes(p) && Tables(p, w) && id in w.clients && w.clients[id].Waiting?
    ensures var w' := Visited(p, w, id);
            w'.transit == w.transit && id in w'.clients
                && (w'.clients[id].Failed? || Progressed(w.clients[id], w'.clients[id]))
  {
  }

  lemma {:induction false} OneAttempt(p: Plan, w: World, id: nat)
    requires Invariant(p, w) && Enabled(p, w, Visit(id))
    ensures var w' := Next(p, w, Visit(id));
            Invariant(p, w') && w'.transit == w.transit && id in w'.clients && Progressed(w.clients[id], w'.clients[id])
  {
    VisitedMoves(p, w, id);
    StepKeeps(p, w, Visit(id));
    var w' := Next(p, w, Visit(id));
    assert ClientOk(p, w', w'.clients[id]);
  }

  // A client that keeps following redirects is served at its third attempt at the
  // latest, in every state in which its command may run at all.
  lemma {:induction false} ServedInThree(p: Plan, w: World, id: nat, n: nat)
    requires Invariant(p, w) && id in w.clients
    requires w.clients[id].Served? || (Enabled(p, w, Visit(id)) && w.clients[id].hops + n >= 3)
    ensures var end := Run(p, w, Attempts(id, n)); id in end.clients && end.clients[id].Served?
    decreases n
  {
    assert ClientOk(p, w, w.clients[id]);
    if n > 0 {
      if w.clients[id].Waiting? { OneAttempt(p, w, id); }
      assert Attempts(id, n)[1..] == Attempts(id, n - 1);
      StepKeeps(p, w, Visit(id));
      ServedInThree(p, Next(p, w, Visit(id)), id, n - 1);
    }
  }

  // ---------------------------------------------------------------- the move can end

  function Remaining(ph: Phase): nat {
    match ph case Settled => 4 case TargetImports => 3 case SourceMigrates => 2 case TargetOwns => 1 case Finished => 0
  }

  // The keys that are still to be moved.
  function Behind(p: Plan, w: World): set<string> { set k | k in w.srcKeys && p.slotOf(k) == p.slot }

  ghost predicate Closer(p: Plan, w: World, w': World) {
    || Remaining(w'.phase) < Remaining(w.phase)
    || (w'.phase == w.phase && |Behind(p, w')| < |Behind(p, w)|)
    || (w'.phase == w.phase && |Behind(p, w')| == |Behind(p, w)|
        && |Behind(p, w') - w'.transit| < |Behind(p, w) - w.transit|)
  }

  // The table changes, which no node refuses.
  lemma {:induction false} TableStep(p: Plan, w: World) returns (step: Step)
    requires HasNodes(p) && TablesFollow(p, w) && w.phase != Finished
    requires w.phase == SourceMigrates ==> forall k <- w.srcKeys :: p.slotOf(k) != p.slot
    ensures Remaining(Next(p, w, step).phase) < Remaining(w.phase)
  {
    assert IndexOf(p.nodes, p.nodes[p.target].id) == p.target;
    match w.phase
    case Settled => step := ImportOnTarget; assert Importing(w.dst, p.slot, p.nodes[p.source].id).Some?;
    case TargetImports => step := MigrateOnSource; assert Migrating(w.src, p.slot, p.nodes[p.target].id).Some?;
    case SourceMigrates => step := NodeOnTarget; assert Assigned(w.dst, p.slot, p.nodes[p.target].id).Some?;
    case TargetOwns => step := NodeOnSource; assert Assigned(w.src, p.slot, p.nodes[p.target].id).Some?;
  }

  // The operator's next step: move a key, or change a table once none is left.
  lemma {:induction false} NextOperatorStep(p: Plan, w: World) returns (step: Step)
    requires Invariant(p, w) && w.phase != Finished
    ensures Closer(p, w, Next(p, w, step))
  {
    if w.phase == SourceMigrates && Behind(p, w) != {} {
      var k :| k in Behind(p, w);
      step := KeyStep(p, w, k);
    } else {
      assert forall k <- w.srcKeys | p.slotOf(k) == p.slot :: k in Behind(p, w);
      step := TableStep(p, w);
    }
  }

  lemma {:induction false} KeyStep(p: Plan, w: World, k: string) returns (step: Step)
    requires Invariant(p, w) && w.phase == SourceMigrates && k in Behind(p, w)
    ensures Closer(p, w, Next(p, w, step))
  {
    if k in w.transit {
      step := Delete(k);
      assert Behind(p, Next(p, w, step)) == Behind(p, w) - {k};
    } else {
      step := Restore(k, true);
      var w' := Next(p, w, step);
      assert Behind(p, w') == Behind(p, w) && Behind(p, w') - w'.transit == (Behind(p, w) - w.transit) - {k};
    }
  }

  // From every state that can be reached, steps of the operator alone end the move.
  lemma {:induction false} MoveCanEnd(p: Plan, w: World) returns (steps: seq<Step>)
    requires Invariant(p, w)
    ensures Run(p, w, steps).phase == Finished
    decreases Remaining(w.phase), |Behind(p, w)|, |Behind(p, w) - w.transit|
  {
    if w.phase == Finished {
      steps := [];
    } else {
      var step := NextOperatorStep(p, w);
      StepKeeps(p, w, step);
      var rest := MoveCanEnd(p, Next(p, w, step));
      steps := [step] + rest;
      assert steps[1..] == rest;
    }
  }

  // The restriction on writes is exact: the source serves every command on a key in
  // transit, and what a write did is still there once the transit is over exactly when it
  // was a SET of the value already restored.  A DEL is always undone.
  lemma {:induction false} WriteInTransitIsLost(p: Plan, w: World, id: nat)
    requires Invariant(p, w) && id in w.clients && w.clients[id].Waiting?
    requires !w.clients[id].action.Get? && w.clients[id].at == Src && w.clients[id].key in w.transit
    ensures var c := w.clients[id];
            var end := Next(p, ServedAt(w, id), Delete(c.key));
            && Visited(p, w, id) == ServedAt(w, id)
            && (Look(Held(p, end), c.key) == Look(Act(Held(p, w), c.key, c.action), c.key)
                <==> c.action.Put? && Look(w.dstKeys, c.key) == Some(c.action.value))
            && Look(Held(p, end), c.key) == Look(w.dstKeys, c.key)
  {
    var c := w.clients[id];
    assert ClientOk(p, w, c) && KeyOk(p, w, c.key);
    GateFollowsPhase(p, w, c.key, c.action, c.at, c.asking);
  }
}
