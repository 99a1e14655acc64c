/** The listen-to-one consensus (pure-listenToOne.hpp): a fixed primary executes, rewrites and passes on commands; subs
    that cannot be reached are dropped; newcomers replay the history. */
module Solo {
  import opened Mempool
  import opened Executors
  import opened Options

  type Endpoint = string

  /** An executor: what a command does and how it is rewritten, what must agree across replicas, which states are proper
      and which commands do not fail half way. */
  datatype Machine<!S, !O> = Machine(run: (S, string) -> (S, string), see: S -> O, ok: S -> bool,
                                     fine: (S, string) -> bool)

  /** A replica that is seen to be like the primary stays so when it runs the rewritten command. */
  ghost predicate Replicates<S(!new), O>(m: Machine<S, O>) {
    && (forall s, cmd :: m.ok(s) ==> m.ok(m.run(s, cmd).0))
    && (forall s, t, cmd :: m.ok(s) && m.ok(t) && m.fine(s, cmd) && m.see(s) == m.see(t) ==>
          m.see(m.run(t, m.run(s, cmd).1).0) == m.see(m.run(s, cmd).0))
  }

  /** What a newcomer does with the history it is sent. */
  function Replayed<S, O>(m: Machine<S, O>, start: S, history: seq<string>): S {
    if history == [] then start else m.run(Replayed(m, start, history[..|history| - 1]), history[|history| - 1]).0
  }

  /** The known subs that could be reached. */
  function Reached(subs: seq<Endpoint>, up: set<Endpoint>): (r: seq<Endpoint>)
    ensures forall e :: e in r <==> e in subs && e in up
  {
    if subs == [] then []
    else
      var before, e := Reached(subs[..|subs| - 1], up), subs[|subs| - 1];
      assert subs == subs[..|subs| - 1] + [e];
      if e in up then before + [e] else before
  }

  /** `ask_primary_for_entry`. */
  method Replay<S, O>(m: Machine<S, O>, start: S, cmds: seq<string>) returns (s: S)
    ensures s == Replayed(m, start, cmds)
  {
    s := start;
    for i := 0 to |cmds|
      invariant s == Replayed(m, start, cmds[..i])
    {
      assert cmds[..i + 1][..i] == cmds[..i];
      s := m.run(s, cmds[i]).0;
    }
    assert cmds[..|cmds|] == cmds;
  }

  class SoloPrimary<S(!new), O> {
    const m: Machine<S, O>
    var state: S
    var knownSubs: seq<Endpoint>
    var commandHistory: seq<string>

    constructor (m: Machine<S, O>, start: S)
      ensures this.m == m && state == start && knownSubs == [] && commandHistory == []
    {
      this.m, state, knownSubs, commandHistory := m, start, [], [];
    }

    /** `handle_add_new_node`: the ticket is the history so far. */
    method HandleAddNewNode(e: Endpoint, ghost nodes: map<Endpoint, S>, ghost start: S) returns (ticket: seq<string>)
      modifies this`knownSubs
      ensures knownSubs == old(knownSubs) + [e] && ticket == commandHistory
      ensures Apply(m, Group(state, commandHistory, old(knownSubs), nodes), Join(e, start))
              == Group(state, commandHistory, knownSubs, nodes[e := Replayed(m, start, ticket)])
    {
      knownSubs := knownSubs + [e];
      ticket := commandHistory;
    }

    /** `handle_execute_for_primary`, when the nodes in `up` answer: the command as sent to the subs. */
    method HandleExecute(data: string, up: set<Endpoint>, ghost nodes: map<Endpoint, S>) returns (sent: string)
      modifies this
      ensures (state, sent) == m.run(old(state), data)
      ensures commandHistory == old(commandHistory) + [sent] && knownSubs == Reached(old(knownSubs), up)
      ensures var g := Apply(m, Group(old(state), old(commandHistory), old(knownSubs), nodes), Execute(data, up));
              && g.primary == state && g.history == commandHistory && g.subs == knownSubs && g.nodes.Keys == nodes.Keys
              && forall e :: e in nodes ==> g.nodes[e] == if e in knownSubs then m.run(nodes[e], sent).0 else nodes[e]
    {
      var r := m.run(state, data);
      state, sent := r.0, r.1;
      commandHistory := commandHistory + [sent];
      var i := 0;
      ghost var seen, all := 0, knownSubs;
      while i < |knownSubs|
        invariant (state, sent) == m.run(old(state), data) && commandHistory == old(commandHistory) + [sent]
        invariant i <= |knownSubs| && seen <= |all|
        invariant knownSubs[i..] == all[seen..] && knownSubs[..i] == Reached(all[..seen], up)
        decreases |knownSubs| - i
      {
        assert all[..seen + 1][..seen] == all[..seen];
        assert knownSubs[i] == all[seen] by { assert knownSubs[i] == knownSubs[i..][0] && all[seen] == all[seen..][0]; }
        assert knownSubs[i + 1..] == all[seen + 1..] by {
          assert knownSubs[i + 1..] == knownSubs[i..][1..] && all[seen + 1..] == all[seen..][1..];
        }
        if knownSubs[i] !in up {
          knownSubs := knownSubs[..i] + knownSubs[i + 1..];
        } else {
          i := i + 1;
        }
        seen := seen + 1;
      }
      assert knownSubs[..i] == knownSubs && all[..seen] == all;
    }
  }

  class SoloSub<S, O> {
    const m: Machine<S, O>
    const primary: Endpoint
    var state: S

    /** `ask_primary_for_entry`, with the ticket the primary has sent. */
    constructor (m: Machine<S, O>, primary: Endpoint, start: S, ticket: seq<string>)
      ensures this.m == m && this.primary == primary && state == Replayed(m, start, ticket)
    {
      this.m, this.primary := m, primary;
      var replayed := Replay(m, start, ticket);
      state := replayed;
    }

    /** `handle_execute_for_sub`: what the primary sends is executed, everything else is passed on to the primary. */
    method HandleExecute(from: Endpoint, data: string) returns (forwarded: bool)
      modifies this
      ensures forwarded <==> from != primary
      ensures state == if from == primary then m.run(old(state), data).0 else old(state)
    {
      forwarded := from != primary;
      if !forwarded {
        state := m.run(state, data).0;
      }
    }
  }

  // ----- The whole group -----

  /** The primary, the history it keeps, the subs it knows, and the state of every node that has joined. */
  datatype Group<S> = Group(primary: S, history: seq<string>, subs: seq<Endpoint>, nodes: map<Endpoint, S>)

  /** A client's command reaches the primary while the nodes in `up` answer, or a node joins. */
  datatype Event<S> = Execute(data: string, up: set<Endpoint>) | Join(e: Endpoint, start: S)

  ghost function Apply<S(!new), O>(m: Machine<S, O>, g: Group<S>, e: Event<S>): Group<S> {
    match e
    case Execute(data, up) =>
      var (primary, sent) := m.run(g.primary, data);
      Group(primary, g.history + [sent], Reached(g.subs, up),
            map e | e in g.nodes :: if e in g.subs && e in up then m.run(g.nodes[e], sent).0 else g.nodes[e])
    case Join(e, start) =>
      g.(subs := g.subs + [e], nodes := g.nodes[e := Replayed(m, start, g.history)])
  }

  /** A node joins with the state the primary once started from, under a name not in use; a command runs to its end. */
  ghost predicate Enabled<S(!new), O>(m: Machine<S, O>, origin: S, g: Group<S>, e: Event<S>) {
    match e
    case Execute(data, _) => m.fine(g.primary, data)
    case Join(e, start) => e !in g.subs && m.ok(start) && m.see(start) == m.see(origin)
  }

  ghost predicate Possible<S(!new), O>(m: Machine<S, O>, origin: S, events: seq<Event<S>>) {
    events == [] ||
    var before := events[..|events| - 1];
    Possible(m, origin, before) && Enabled(m, origin, After(m, origin, before), events[|events| - 1])
  }

  ghost function After<S(!new), O>(m: Machine<S, O>, origin: S, events: seq<Event<S>>): Group<S> {
    if events == [] then Group(origin, [], [], map[])
    else Apply(m, After(m, origin, events[..|events| - 1]), events[|events| - 1])
  }

  /** A node that replays the history looks like the primary. */
  ghost predicate ReplayOk<S(!new), O>(m: Machine<S, O>, origin: S, g: Group<S>) {
    forall start :: m.ok(start) && m.see(start) == m.see(origin) ==>
      m.ok(Replayed(m, start, g.history)) && m.see(Replayed(m, start, g.history)) == m.see(g.primary)
  }

  ghost predicate Inv<S(!new), O>(m: Machine<S, O>, origin: S, g: Group<S>) {
    && m.ok(g.primary) && ReplayOk(m, origin, g)
    && forall e :: e in g.subs ==> e in g.nodes && m.ok(g.nodes[e]) && m.see(g.nodes[e]) == m.see(g.primary)
  }

  lemma ExecuteReplay<S(!new), O>(m: Machine<S, O>, origin: S, g: Group<S>, data: string, up: set<Endpoint>)
    requires Replicates(m) && Inv(m, origin, g) && m.fine(g.primary, data)
    ensures ReplayOk(m, origin, Apply(m, g, Execute(data, up)))
  {
    hide Reached;
    var sent := m.run(g.primary, data).1;
    forall start | m.ok(start) && m.see(start) == m.see(origin)
      ensures var h := g.history + [sent];
              m.ok(Replayed(m, start, h)) && m.see(Replayed(m, start, h)) == m.see(m.run(g.primary, data).0)
    {
      var h := g.history + [sent];
      assert h[..|h| - 1] == g.history;
    }
  }

  lemma StepKeeps<S(!new), O>(m: Machine<S, O>, origin: S, g: Group<S>, e: Event<S>)
    requires Replicates(m) && Inv(m, origin, g) && Enabled(m, origin, g, e)
    ensures Inv(m, origin, Apply(m, g, e))
  {
    hide Replayed;
    match e
    case Execute(data, up) =>
      ExecuteReplay(m, origin, g, data, up);
    case Join(x, start) =>
  }

  /** Replica equality: after any run, every sub the primary knows, whenever it joined, looks like the primary. */
  lemma {:induction false} ReplicasEqual<S(!new), O>(m: Machine<S, O>, origin: S, events: seq<Event<S>>)
    requires Replicates(m) && m.ok(origin) && Possible(m, origin, events)
    ensures Inv(m, origin, After(m, origin, events))
    decreases |events|
  {
    hide Apply, Enabled, Replicates;
    if events == [] {
      assert ReplayOk(m, origin, After(m, origin, []));
    } else {
      ReplicasEqual(m, origin, events[..|events| - 1]);
      StepKeeps(m, origin, After(m, origin, events[..|events| - 1]), events[|events| - 1]);
    }
  }

  // ----- What the group does -----

  /** The state of the primary after the commands of a run, and the commands as it has rewritten them. */
  function PrimaryRun<S, O>(m: Machine<S, O>, origin: S, events: seq<Event<S>>): (S, seq<string>) {
    if events == [] then (origin, [])
    else
      var (s, sent) := PrimaryRun(m, origin, events[..|events| - 1]);
      match events[|events| - 1]
      case Execute(data, _) => (m.run(s, data).0, sent + [m.run(s, data).1])
      case Join(_, _) => (s, sent)
  }

  /** The state with which node `e` has joined, if it has and has answered ever since. */
  function JoinedWith<S>(events: seq<Event<S>>, e: Endpoint): Option<S> {
    if events == [] then None
    else
      match events[|events| - 1]
      case Join(x, start) => if x == e then Some(start) else JoinedWith(events[..|events| - 1], e)
      case Execute(_, up) => if e in up then JoinedWith(events[..|events| - 1], e) else None
  }

  /** The primary runs the commands it is given and remembers them as rewritten. The subs it knows are those that have
      joined and answered ever since, and each of them has run the whole history, in order, from the state it joined
      with. */
  lemma {:induction false} GroupRuns<S(!new), O>(m: Machine<S, O>, origin: S, events: seq<Event<S>>, e: Endpoint)
    ensures var g := After(m, origin, events);
            && (g.primary, g.history) == PrimaryRun(m, origin, events)
            && (e in g.subs <==> JoinedWith(events, e).Some?)
            && (e in g.subs ==> e in g.nodes && g.nodes[e] == Replayed(m, JoinedWith(events, e).value, g.history))
    decreases |events|
  {
    if events != [] {
      GroupRuns(m, origin, events[..|events| - 1], e);
      var g := After(m, origin, events[..|events| - 1]);
      match events[|events| - 1]
      case Execute(data, up) =>
        var sent := m.run(g.primary, data).1;
        assert (g.history + [sent])[..|g.history|] == g.history;
      case Join(x, start) =>
    }
  }

  // ----- The two executors -----

  ghost function Plain(env: Env): Machine<State, State> {
    Machine((s: State, cmd) => Executed(env, s, cmd), (s: State) => s, (s: State) => Valid(env.hash, s.pool),
            (s: State, cmd) => !Loses(env, s, cmd))
  }

  lemma PlainReplicates(env: Env)
    requires Faithful(env)
    ensures Replicates(Plain(env))
  {
    hide Executed, Valid, Faithful, Loses;
    var m := Plain(env);
    forall s, cmd | m.ok(s)
      ensures m.ok(m.run(s, cmd).0)
    {
      ExecutedValid(env, s, cmd);
    }
    forall s, cmd | m.ok(s) && m.fine(s, cmd)
      ensures m.run(s, m.run(s, cmd).1).0 == m.run(s, cmd).0
    {
      RewritingPreserves(env, s, cmd);
    }
  }

  ghost function Lightweight(env: Env, level: int): Machine<Light, (set<Hash>, seq<Blk>)> {
    Machine((s, cmd) => LightExecuted(env, level, s, cmd), (s: Light) => (s.hs, s.chain), (s: Light) => true,
            (s, cmd) => !LightLoses(env, level, s, cmd))
  }

  lemma LightReplicates(env: Env, level: int)
    requires Faithful(env)
    ensures Replicates(Lightweight(env, level))
  {
    hide LightExecuted, Faithful, LightLoses;
    var m := Lightweight(env, level);
    forall s, t, cmd | m.fine(s, cmd) && m.see(s) == m.see(t)
      ensures m.see(m.run(t, m.run(s, cmd).1).0) == m.see(m.run(s, cmd).0)
    {
      SealingLosesIff(env, level, s, t, cmd);
    }
  }

  /** With the plain executor, every known sub has the pool, hash history and chain of the primary. */
  lemma PlainReplicasEqual(env: Env, origin: State, events: seq<Event<State>>, e: Endpoint)
    requires Faithful(env) && Valid(env.hash, origin.pool) && Possible(Plain(env), origin, events)
    ensures var g := After(Plain(env), origin, events);
            e in g.subs ==> e in g.nodes && g.nodes[e] == g.primary
  {
    hide Replicates, After, Possible, Valid, Faithful;
    PlainReplicates(env);
    ReplicasEqual(Plain(env), origin, events);
  }

  /** With the light executor, every known sub has the hash history and the chain of the primary. */
  lemma LightReplicasEqual(env: Env, level: int, origin: Light, events: seq<Event<Light>>, e: Endpoint)
    requires Faithful(env) && Possible(Lightweight(env, level), origin, events)
    ensures var g := After(Lightweight(env, level), origin, events);
            e in g.subs ==> e in g.nodes && g.nodes[e].hs == g.primary.hs && g.nodes[e].chain == g.primary.chain
  {
    hide Replicates, After, Possible, Faithful;
    LightReplicates(env, level);
    ReplicasEqual(Lightweight(env, level), origin, events);
  }
}
