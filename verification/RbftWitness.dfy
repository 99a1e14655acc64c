/** RBFT in one view with at most f Byzantine members, the primary possibly among them, and a network that may repeat,
    lose and reorder messages but not forge their sender: what an honest sub executes was heard from the primary itself
    by at least N - 1 - 2f honest subs. */
module RbftWitness {
  import opened Rbft

  /** The cluster and its faulty members. */
  datatype Setting = Setting(c: Cluster, faulty: set<Endpoint>)

  ghost predicate Tolerable(s: Setting) {
    Proper(s.c) && |s.faulty| <= Faults(s.c)
  }

  /** The honest members, and what they have sent so far. */
  datatype World = World(nodes: map<Endpoint, Node>, sent: multiset<Message>)

  ghost function Initial(s: Setting): World {
    World(map e | e in s.c.endpoints && e !in s.faulty :: FRESH, multiset{})
  }

  /** The network can deliver `m`: to an honest member, from a faulty member or a client with any content, from an
      honest member only what it sent. Only members vote. */
  ghost predicate Deliverable(s: Setting, w: World, m: Message) {
    && m.to in w.nodes
    && (m.from in w.nodes ==> m in w.sent)
    && (m.kind != Execute ==> m.from in s.c.endpoints)
  }

  ghost function Deliver(s: Setting, w: World, m: Message): World
    requires |s.c.endpoints| >= 2 && m.to in w.nodes
  {
    var n := w.nodes[m.to];
    var r := if m.to == Primary(s.c) then HandleAsPrimary(s.c, m.to, n, m) else HandleAsSub(s.c, m.to, n, m);
    World(w.nodes[m.to := r.0], w.sent + r.1)
  }

  /** Every delivery of the run can happen when its turn comes. */
  ghost predicate Possible(s: Setting, run: seq<Message>)
    requires |s.c.endpoints| >= 2
    decreases |run|, 0
  {
    run == [] ||
    var before := run[..|run| - 1];
    Possible(s, before) && Deliverable(s, After(s, before), run[|run| - 1])
  }

  ghost function After(s: Setting, run: seq<Message>): World
    requires |s.c.endpoints| >= 2 && Possible(s, run)
    decreases |run|, 1
  {
    if run == [] then Initial(s) else Deliver(s, After(s, run[..|run| - 1]), run[|run| - 1])
  }

  /** The honest subs that got `cmd` from the primary itself. */
  ghost function Witnesses(s: Setting, run: seq<Message>, cmd: Cmd): set<Endpoint>
    requires |s.c.endpoints| >= 2
  {
    set j | j in Subs(s.c) && j !in s.faulty && Message(Execute, Primary(s.c), j, cmd) in run
  }

  ghost predicate Witnessed(s: Setting, run: seq<Message>, cmd: Cmd)
    requires |s.c.endpoints| >= 2
  {
    |Witnesses(s, run, cmd)| >= |s.c.endpoints| - 1 - 2 * Faults(s.c)
  }

  // ----- The invariant -----

  /** A confirm of an honest member is that of a witness. */
  ghost predicate ConfirmOk(s: Setting, run: seq<Message>, from: Endpoint, cmd: Cmd)
    requires |s.c.endpoints| >= 2
  {
    from in s.faulty || from in Witnesses(s, run, cmd)
  }

  /** A commit of an honest member needs enough witnesses. */
  ghost predicate CommitOk(s: Setting, run: seq<Message>, from: Endpoint, cmd: Cmd)
    requires |s.c.endpoints| >= 2
  {
    from in s.faulty || Witnessed(s, run, cmd)
  }

  ghost predicate NodeOk(s: Setting, run: seq<Message>, n: Node)
    requires |s.c.endpoints| >= 2
  {
    && (forall cmd, v :: v in Votes(n.confirming, cmd) ==> ConfirmOk(s, run, v, cmd))
    && (forall cmd, v :: v in Votes(n.committing, cmd) ==> CommitOk(s, run, v, cmd))
    && (forall cmd :: cmd in n.history ==> Witnessed(s, run, cmd))
  }

  ghost predicate SentOk(s: Setting, run: seq<Message>, m: Message)
    requires |s.c.endpoints| >= 2
  {
    match m.kind
    case Execute => true
    case Confirm => ConfirmOk(s, run, m.from, m.cmd)
    case Commit => CommitOk(s, run, m.from, m.cmd)
  }

  ghost predicate Inv(s: Setting, run: seq<Message>, w: World)
    requires |s.c.endpoints| >= 2
  {
    && (forall e :: e in w.nodes <==> e in s.c.endpoints && e !in s.faulty)
    && (forall e :: e in w.nodes && e != Primary(s.c) ==> NodeOk(s, run, w.nodes[e]))
    && (forall m :: m in w.sent ==> SentOk(s, run, m))
  }

  lemma Without(votes: set<Endpoint>, faulty: set<Endpoint>)
    ensures |votes - faulty| + |faulty| >= |votes|
  {
    assert votes == (votes - faulty) + (votes * faulty);
    assert faulty == (faulty - votes) + (votes * faulty);
  }

  /** A quorum of confirms holds enough witnesses. */
  lemma ConfirmQuorum(s: Setting, run: seq<Message>, votes: set<Endpoint>, cmd: Cmd)
    requires Tolerable(s) && |votes| >= Quorum(s.c)
    requires forall v :: v in votes ==> ConfirmOk(s, run, v, cmd)
    ensures Witnessed(s, run, cmd)
  {
    hide Witnesses;
    Without(votes, s.faulty);
    SubsetSize(votes - s.faulty, Witnesses(s, run, cmd));
  }

  /** A quorum of commits holds an honest one. */
  lemma CommitQuorum(s: Setting, run: seq<Message>, votes: set<Endpoint>, cmd: Cmd)
    requires Tolerable(s) && |votes| >= Quorum(s.c)
    requires forall v :: v in votes ==> CommitOk(s, run, v, cmd)
    ensures Witnessed(s, run, cmd)
  {
    hide Witnessed;
    Without(votes, s.faulty);
    var v :| v in votes - s.faulty;
    assert CommitOk(s, run, v, cmd);
  }

  // ----- Every delivery keeps it -----

  /** Witnesses stay. */
  lemma Grows(s: Setting, run: seq<Message>, m: Message, cmd: Cmd)
    requires |s.c.endpoints| >= 2
    ensures Witnesses(s, run, cmd) <= Witnesses(s, run + [m], cmd)
    ensures Witnessed(s, run, cmd) ==> Witnessed(s, run + [m], cmd)
  {
    SubsetSize(Witnesses(s, run, cmd), Witnesses(s, run + [m], cmd));
  }

  lemma InvGrows(s: Setting, run: seq<Message>, w: World, m: Message)
    requires |s.c.endpoints| >= 2 && Inv(s, run, w)
    ensures Inv(s, run + [m], w)
  {
    hide Witnesses, Witnessed, Primary;
    forall cmd
      ensures Witnesses(s, run, cmd) <= Witnesses(s, run + [m], cmd)
      ensures Witnessed(s, run, cmd) ==> Witnessed(s, run + [m], cmd)
    {
      Grows(s, run, m, cmd);
    }
  }

  lemma CommitKeeps(s: Setting, run: seq<Message>, n: Node, from: Endpoint, cmd: Cmd)
    requires Tolerable(s) && NodeOk(s, run, n) && CommitOk(s, run, from, cmd)
    ensures NodeOk(s, run, CountCommit(s.c, n, from, cmd))
  {
    hide Witnessed, Witnesses, ConfirmOk, Faults;
    var votes := Votes(n.committing, cmd) + {from};
    if |votes| >= Quorum(s.c) {
      CommitQuorum(s, run, votes, cmd);
    }
  }

  lemma ConfirmKeeps(s: Setting, run: seq<Message>, me: Endpoint, n: Node, from: Endpoint, cmd: Cmd)
    requires Tolerable(s) && NodeOk(s, run, n) && ConfirmOk(s, run, from, cmd)
    ensures var r := CountConfirm(s.c, me, n, from, cmd);
            NodeOk(s, run, r.0) && forall m :: m in r.1 ==> SentOk(s, run, m)
  {
    hide Witnessed, Witnesses, Faults, ConfirmOk, CountCommit, Primary, Subs;
    var votes := Votes(n.confirming, cmd) + {from};
    if |votes| >= Quorum(s.c) {
      ConfirmQuorum(s, run, votes, cmd);
      CommitKeeps(s, run, n.(confirming := n.confirming - {cmd}), me, cmd);
    }
  }

  lemma HandleKeeps(s: Setting, run: seq<Message>, n: Node, m: Message)
    requires Tolerable(s) && NodeOk(s, run, n) && m in run
    requires m.to in s.c.endpoints && m.to !in s.faulty && m.to != Primary(s.c)
    requires SentOk(s, run, m)
    ensures var r := HandleAsSub(s.c, m.to, n, m);
            NodeOk(s, run, r.0) && forall k :: k in r.1 ==> SentOk(s, run, k)
  {
    hide Witnessed, Faults, CountCommit, CountConfirm, NodeOk, Primary;
    match m.kind
    case Execute =>
      if m.from == Primary(s.c) {
        assert m == Message(Execute, Primary(s.c), m.to, m.cmd);
        assert ConfirmOk(s, run, m.to, m.cmd);
        ConfirmKeeps(s, run, m.to, n, m.to, m.cmd);
      }
    case Confirm => ConfirmKeeps(s, run, m.to, n, m.from, m.cmd);
    case Commit => CommitKeeps(s, run, n, m.from, m.cmd);
  }

  lemma DeliverKeeps(s: Setting, run: seq<Message>, w: World, m: Message)
    requires Tolerable(s) && Inv(s, run, w) && Deliverable(s, w, m)
    ensures Inv(s, run + [m], Deliver(s, w, m))
  {
    hide Witnessed, Witnesses, Faults, HandleAsSub, NodeOk, Primary, Subs;
    InvGrows(s, run, w, m);
    assert SentOk(s, run + [m], m);
    if m.to != Primary(s.c) {
      HandleKeeps(s, run + [m], w.nodes[m.to], m);
    }
  }

  lemma {:induction false} RunKeeps(s: Setting, run: seq<Message>)
    requires Tolerable(s) && Possible(s, run)
    ensures Inv(s, run, After(s, run))
    decreases |run|
  {
    hide Deliver, Deliverable, NodeOk, SentOk, Primary, Faults;
    if run != [] {
      var before := run[..|run| - 1];
      RunKeeps(s, before);
      DeliverKeeps(s, before, After(s, before), run[|run| - 1]);
      assert run == before + [run[|run| - 1]];
    } else {
      InitialOk(s);
    }
  }

  lemma InitialOk(s: Setting)
    requires |s.c.endpoints| >= 2
    ensures Inv(s, [], Initial(s))
  {
  }

  /** In every run, a command an honest sub has executed was heard from the primary by at least N - 1 - 2f >= 1 honest
      subs. */
  lemma ExecutedIsWitnessed(s: Setting, run: seq<Message>, i: Endpoint, cmd: Cmd)
    requires Tolerable(s) && Possible(s, run)
    ensures var nodes := After(s, run).nodes;
            i in Subs(s.c) && i in nodes && cmd in nodes[i].history ==>
              |Witnesses(s, run, cmd)| >= |s.c.endpoints| - 1 - 2 * Faults(s.c) >= 1
  {
    hide Witnesses, Possible, After;
    RunKeeps(s, run);
    var nodes := After(s, run).nodes;
    if i in Subs(s.c) && i in nodes {
      assert NodeOk(s, run, nodes[i]);
    }
  }

  // ----- With an honest primary -----

  /** What was sent or delivered in the primary's name, the primary has executed. */
  ghost predicate PrimaryOk(s: Setting, run: seq<Message>, w: World)
    requires |s.c.endpoints| >= 2
  {
    var p := Primary(s.c);
    && p in w.nodes
    && (forall m :: (m in w.sent || m in run) && m.kind == Execute && m.from == p ==> m.cmd in w.nodes[p].history)
  }

  /** A sub sends in its own name and does not touch the primary. */
  lemma SubSendsOwn(c: Cluster, me: Endpoint, n: Node, m: Message)
    requires |c.endpoints| >= 2
    ensures forall k :: k in HandleAsSub(c, me, n, m).1 ==> k.from == me
  {
    hide CountCommit, Subs, Primary;
  }

  lemma PrimarySends(c: Cluster, n: Node, m: Message)
    requires |c.endpoints| >= 2
    ensures var r := HandleAsPrimary(c, Primary(c), n, m);
            && (forall k :: k in r.1 ==> k.cmd in r.0.history)
            && (forall cmd :: cmd in n.history ==> cmd in r.0.history)
  {
  }

  lemma DeliverKeepsPrimary(s: Setting, run: seq<Message>, w: World, m: Message)
    requires |s.c.endpoints| >= 2 && PrimaryOk(s, run, w) && Deliverable(s, w, m)
    ensures PrimaryOk(s, run + [m], Deliver(s, w, m))
  {
    hide HandleAsSub, HandleAsPrimary, Primary;
    SubSendsOwn(s.c, m.to, w.nodes[m.to], m);
    PrimarySends(s.c, w.nodes[m.to], m);
  }

  lemma {:induction false} RunKeepsPrimary(s: Setting, run: seq<Message>)
    requires Tolerable(s) && Possible(s, run) && Primary(s.c) !in s.faulty
    ensures PrimaryOk(s, run, After(s, run))
    decreases |run|
  {
    hide Deliver, Deliverable, Faults;
    if run != [] {
      var before := run[..|run| - 1];
      RunKeepsPrimary(s, before);
      DeliverKeepsPrimary(s, before, After(s, before), run[|run| - 1]);
      assert run == before + [run[|run| - 1]];
    }
  }

  /** With an honest primary, the honest subs execute only what the primary has executed. */
  lemma ExecutedByPrimary(s: Setting, run: seq<Message>, i: Endpoint, cmd: Cmd)
    requires Tolerable(s) && Possible(s, run) && Primary(s.c) !in s.faulty
    requires i in Subs(s.c) && i in After(s, run).nodes && cmd in After(s, run).nodes[i].history
    ensures Primary(s.c) in After(s, run).nodes && cmd in After(s, run).nodes[Primary(s.c)].history
  {
    hide Possible, After, Primary, Subs;
    ExecutedIsWitnessed(s, run, i, cmd);
    RunKeepsPrimary(s, run);
    var j :| j in Witnesses(s, run, cmd);
    assert Message(Execute, Primary(s.c), j, cmd) in run;
  }

  // ----- Commands asked for more than once -----

  /** How often the primary has been asked to execute `cmd`. */
  function Asked(c: Cluster, run: seq<Message>, cmd: Cmd): nat
    requires |c.endpoints| > 0
  {
    if run == [] then 0
    else
      var m := run[|run| - 1];
      Asked(c, run[..|run| - 1], cmd) + if m.kind == Execute && m.to == Primary(c) && m.cmd == cmd then 1 else 0
  }

  /** An honest primary filters nothing: it has executed a command exactly as often as it was asked to. */
  lemma {:induction false} PrimaryExecutesAsAsked(s: Setting, run: seq<Message>, cmd: Cmd)
    requires Tolerable(s) && Possible(s, run) && Primary(s.c) !in s.faulty
    ensures Primary(s.c) in After(s, run).nodes
    ensures multiset(After(s, run).nodes[Primary(s.c)].history)[cmd] == Asked(s.c, run, cmd)
    decreases |run|
  {
    hide HandleAsSub, Faults;
    assert Primary(s.c) in s.c.endpoints;
    if run != [] {
      PrimaryExecutesAsAsked(s, run[..|run| - 1], cmd);
    }
  }

  /** So it executes a command at most once if and only if it is asked at most once. */
  lemma AtMostOnceIff(s: Setting, run: seq<Message>, cmd: Cmd)
    requires Tolerable(s) && Possible(s, run) && Primary(s.c) !in s.faulty
    ensures Primary(s.c) in After(s, run).nodes
    ensures multiset(After(s, run).nodes[Primary(s.c)].history)[cmd] <= 1 <==> Asked(s.c, run, cmd) <= 1
  {
    hide After, Possible, Asked;
    PrimaryExecutesAsAsked(s, run, cmd);
  }

  /** A client that asks twice: the primary of a cluster of two executes the command twice. */
  lemma AskedTwice()
    ensures var s := Setting(Cluster(["a", "b"], 0), {});
            var m := Message(Execute, "client", "a", "cmd");
            && Tolerable(s) && Possible(s, [m, m]) && "a" in After(s, [m, m]).nodes
            && After(s, [m, m]).nodes["a"].history == ["cmd", "cmd"]
  {
    hide After, Possible, ToOthers, Deliver, Faults;
    var s, m := Setting(Cluster(["a", "b"], 0), {}), Message(Execute, "client", "a", "cmd");
    SampleCluster();
    NoRun(s);
    PrimaryExecutes(s, Initial(s), m);
    assert [m, m] == [m] + [m] && [m] == [] + [m];
    Extend(s, [], m);
    PrimaryExecutes(s, After(s, [m]), m);
    Extend(s, [m], m);
    assert [] + ["cmd"] + ["cmd"] == ["cmd", "cmd"];
  }

  lemma SampleCluster()
    ensures var s := Setting(Cluster(["a", "b"], 0), {});
            Tolerable(s) && Primary(s.c) == "a" && "client" !in s.c.endpoints && "a" in Initial(s).nodes
    ensures forall e :: e in Initial(Setting(Cluster(["a", "b"], 0), {})).nodes ==> e in ["a", "b"]
  {
  }

  lemma NoRun(s: Setting)
    requires |s.c.endpoints| >= 2
    ensures Possible(s, []) && After(s, []) == Initial(s)
  {
  }

  lemma Extend(s: Setting, run: seq<Message>, m: Message)
    requires |s.c.endpoints| >= 2 && Possible(s, run) && Deliverable(s, After(s, run), m)
    ensures Possible(s, run + [m]) && After(s, run + [m]) == Deliver(s, After(s, run), m)
  {
    hide Deliver, Deliverable;
    assert (run + [m])[..|run|] == run;
  }

  lemma PrimaryExecutes(s: Setting, w: World, m: Message)
    requires |s.c.endpoints| >= 2 && m.to == Primary(s.c) && m.to in w.nodes && m.kind == Execute
    ensures var w' := Deliver(s, w, m);
            w'.nodes.Keys == w.nodes.Keys && w'.nodes[m.to].history == w.nodes[m.to].history + [m.cmd]
  {
    hide HandleAsSub, ToOthers;
  }

  /** With less than a third of the members faulty, whoever they are, a command an honest sub has executed was heard
      from the primary by at least one honest sub, and by at least a third of as many as there are subs. */
  lemma FaultyThird(s: Setting, run: seq<Message>, i: Endpoint, cmd: Cmd)
    requires Proper(s.c) && 3 * |s.faulty| < |s.c.endpoints| && Possible(s, run)
    ensures var nodes := After(s, run).nodes;
            i in Subs(s.c) && i in nodes && cmd in nodes[i].history ==>
              |Witnesses(s, run, cmd)| >= 1 && 3 * |Witnesses(s, run, cmd)| >= |s.c.endpoints| - 1
  {
    hide Witnesses, After, Possible, Subs;
    ExecutedIsWitnessed(s, run, i, cmd);
  }
}
