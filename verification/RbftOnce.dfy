/** RBFT in one view with an honest primary, at most f silent subs and a network that delivers each message at most
    once, in any order: every live node executes every command at most once, and exactly once when nothing is in
    flight. */
module RbftOnce {
  import opened Rbft

  /** The cluster, its live subs, and the address clients send from. */
  datatype Setting = Setting(c: Cluster, live: set<Endpoint>, client: Endpoint)

  /** All but at most f subs are live. */
  ghost predicate Fair(s: Setting) {
    && Proper(s.c)
    && s.live <= Subs(s.c) && |s.live| >= Quorum(s.c)
    && s.client !in s.c.endpoints
  }

  /** The live nodes and the messages in flight. */
  datatype System = System(nodes: map<Endpoint, Node>, bag: multiset<Message>)

  ghost function Initial(s: Setting): System
    requires |s.c.endpoints| > 0
  {
    System(map e | e in s.live + {Primary(s.c)} :: FRESH, multiset{})
  }

  /** A client submits a command to a live node, or the network delivers a message to one. */
  datatype Event = Submit(cmd: Cmd, to: Endpoint) | Deliver(m: Message)

  ghost predicate Enabled(s: Setting, y: System, submitted: set<Cmd>, e: Event)
  {
    match e
    case Submit(cmd, to) => cmd !in submitted && to in y.nodes
    case Deliver(m) => m in y.bag && m.to in y.nodes
  }

  ghost function Handle(s: Setting, n: Node, m: Message): (Node, multiset<Message>)
    requires |s.c.endpoints| >= 2
  {
    if m.to == Primary(s.c) then HandleAsPrimary(s.c, m.to, n, m) else HandleAsSub(s.c, m.to, n, m)
  }

  ghost function Apply(s: Setting, y: System, submitted: set<Cmd>, e: Event): (System, set<Cmd>)
    requires |s.c.endpoints| >= 2 && Enabled(s, y, submitted, e)
  {
    match e
    case Submit(cmd, to) =>
      (y.(bag := y.bag + multiset{Message(Execute, s.client, to, cmd)}), submitted + {cmd})
    case Deliver(m) =>
      var r := Handle(s, y.nodes[m.to], m);
      (System(y.nodes[m.to := r.0], y.bag - multiset{m} + r.1), submitted)
  }

  // ----- The history behind a state -----

  /** Per sub and command, the votes that fired a counter. */
  type Firings = map<(Endpoint, Cmd), set<Endpoint>>

  /** What has happened: where each command was submitted, the messages delivered, the commands the primary has ordered,
      and, per sub and command, the votes that fired its confirm and its commit counter. */
  datatype Log = Log(submitted: map<Cmd, Endpoint>, delivered: set<Message>, ordered: set<Cmd>,
                     fired: Firings, executed: Firings)

  /** Which messages have been sent. */
  ghost predicate Sent(s: Setting, g: Log, m: Message)
    requires |s.c.endpoints| > 0
  {
    var p := Primary(s.c);
    match m.kind
    case Execute =>
      if m.from == s.client then m.cmd in g.submitted && g.submitted[m.cmd] == m.to
      else if m.from == p then m.cmd in g.ordered && m.to in Subs(s.c)
      else m.to == p && m.cmd in g.submitted && g.submitted[m.cmd] == m.from
           && Message(Execute, s.client, m.from, m.cmd) in g.delivered
    case Confirm =>
      m.from in s.live && m.to in Subs(s.c) && m.to != m.from && Message(Execute, p, m.from, m.cmd) in g.delivered
    case Commit =>
      m.from in s.live && m.to in Subs(s.c) && m.to != m.from && (m.from, m.cmd) in g.fired
  }

  /** Who has confirmed `cmd` to sub `i`, itself included. */
  ghost function Confirmers(s: Setting, g: Log, i: Endpoint, cmd: Cmd): set<Endpoint>
    requires |s.c.endpoints| > 0
  {
    set j | j in Subs(s.c) && (if j == i then Message(Execute, Primary(s.c), i, cmd) in g.delivered
                               else Message(Confirm, j, i, cmd) in g.delivered)
  }

  /** Who has committed `cmd` to sub `i`, itself included. */
  ghost function Committers(s: Setting, g: Log, i: Endpoint, cmd: Cmd): set<Endpoint>
    requires |s.c.endpoints| > 0
  {
    set j | j in Subs(s.c) && (if j == i then (i, cmd) in g.fired else Message(Commit, j, i, cmd) in g.delivered)
  }

  /** A counter holds the votes cast since it fired, or all of them, too few to fire. */
  ghost predicate Counts(x: nat, votes: set<Endpoint>, cast: set<Endpoint>, log: Firings,
                         key: (Endpoint, Cmd)) {
    if key in log then log[key] <= cast && |log[key]| >= x && votes == cast - log[key]
    else votes == cast && |votes| < x
  }

  /** The state of one live sub with respect to one command. */
  ghost predicate SubOk(s: Setting, n: Node, g: Log, i: Endpoint, cmd: Cmd)
    requires |s.c.endpoints| >= 2
  {
    var x := Quorum(s.c);
    && Counts(x, Votes(n.confirming, cmd), Confirmers(s, g, i, cmd), g.fired, (i, cmd))
    && Counts(x, Votes(n.committing, cmd), Committers(s, g, i, cmd), g.executed, (i, cmd))
    && multiset(n.history)[cmd] == if (i, cmd) in g.executed then 1 else 0
  }

  /** The command has reached the primary, or is on its way there exactly once. */
  ghost predicate OrderOk(s: Setting, g: Log, cmd: Cmd)
    requires |s.c.endpoints| > 0
  {
    var p := Primary(s.c);
    && (cmd in g.ordered <==>
          && cmd in g.submitted
          && Message(Execute, s.client, g.submitted[cmd], cmd) in g.delivered
          && (g.submitted[cmd] == p || Message(Execute, g.submitted[cmd], p, cmd) in g.delivered))
    && (cmd in g.submitted ==> g.submitted[cmd] == p || g.submitted[cmd] in s.live)
  }

  ghost predicate Inv(s: Setting, y: System, g: Log) {
    && Fair(s)
    && var p := Primary(s.c);
       && y.nodes.Keys == s.live + {p}
       && BagOk(s, y.bag, g)
       && (forall cmd :: OrderOk(s, g, cmd))
       && (forall cmd :: multiset(y.nodes[p].history)[cmd] == if cmd in g.ordered then 1 else 0)
       && (forall i, cmd :: i in s.live ==> SubOk(s, y.nodes[i], g, i, cmd))
  }

  lemma InitialInv(s: Setting)
    requires Fair(s)
    ensures Inv(s, Initial(s), Log(map[], {}, {}, map[], map[]))
  {
    var g := Log(map[], {}, {}, map[], map[]);
    forall i, cmd | i in s.live
      ensures SubOk(s, FRESH, g, i, cmd)
    {
      assert Confirmers(s, g, i, cmd) == {} && Committers(s, g, i, cmd) == {};
    }
  }

  // ----- Counting -----

  lemma {:induction false} DistinctSize(all: seq<Endpoint>)
    requires forall i, j :: 0 <= i < j < |all| ==> all[i] != all[j]
    ensures |set e | e in all| == |all|
  {
    if all != [] {
      var rest, last := all[..|all| - 1], all[|all| - 1];
      DistinctSize(rest);
      assert (set e | e in all) == (set e | e in rest) + {last};
    }
  }

  lemma SubsSize(c: Cluster)
    requires Proper(c)
    ensures |Subs(c)| == |c.endpoints| - 1
  {
    DistinctSize(c.endpoints);
    assert Primary(c) in c.endpoints;
  }

  /** One more vote fires a counter at most once: what is cast after it fired is too little to fire it again, because
      two quorums do not fit among the subs. */
  lemma CountOne(x: nat, subs: set<Endpoint>, votes: set<Endpoint>, cast: set<Endpoint>, v: Endpoint,
                 log: Firings, key: (Endpoint, Cmd))
    requires |subs| < 2 * x && Counts(x, votes, cast, log, key)
    requires v !in cast && cast + {v} <= subs
    ensures |votes + {v}| >= x ==> key !in log && Counts(x, {}, cast + {v}, log[key := votes + {v}], key)
    ensures |votes + {v}| < x ==> Counts(x, votes + {v}, cast + {v}, log, key)
  {
    SubsetSize(cast + {v}, subs);
    if key in log {
      SubsetSize(log[key], cast + {v});
      assert cast + {v} - log[key] == votes + {v};
    }
  }

  /** `log'` differs from `log` at most by a first entry for `key`. */
  ghost predicate AddsAt(log: Firings, log': Firings, key: (Endpoint, Cmd)) {
    log' == log || (key !in log && key in log' && log' == log[key := log'[key]])
  }

  /** The node treats the commands other than `cmd` as before. */
  ghost predicate SameElsewhere(n: Node, n': Node, cmd: Cmd) {
    && (forall d :: d != cmd ==> Votes(n'.confirming, d) == Votes(n.confirming, d))
    && (forall d :: d != cmd ==> Votes(n'.committing, d) == Votes(n.committing, d))
    && (n'.history == n.history || n'.history == n.history + [cmd])
  }

  lemma CommitElsewhere(c: Cluster, n: Node, v: Endpoint, cmd: Cmd)
    requires |c.endpoints| >= 2
    ensures SameElsewhere(n, CountCommit(c, n, v, cmd), cmd)
  {
  }

  lemma ConfirmElsewhere(c: Cluster, me: Endpoint, n: Node, v: Endpoint, cmd: Cmd)
    requires |c.endpoints| >= 2
    ensures SameElsewhere(n, CountConfirm(c, me, n, v, cmd).0, cmd)
  {
    hide CountCommit, ToOtherSubs;
    CommitElsewhere(c, n.(confirming := n.confirming - {cmd}), me, cmd);
  }

  /** A commit from a new committer is counted, and executes the command at most once. */
  lemma NodeCommit(c: Cluster, n: Node, cast: set<Endpoint>, v: Endpoint, log: Firings,
                   key: (Endpoint, Cmd)) returns (log': Firings)
    requires Proper(c) && Counts(Quorum(c), Votes(n.committing, key.1), cast, log, key)
    requires multiset(n.history)[key.1] == if key in log then 1 else 0
    requires v !in cast && cast + {v} <= Subs(c)
    ensures AddsAt(log, log', key)
    ensures var n' := CountCommit(c, n, v, key.1);
            && Counts(Quorum(c), Votes(n'.committing, key.1), cast + {v}, log', key)
            && multiset(n'.history)[key.1] == (if key in log' then 1 else 0)
            && n'.confirming == n.confirming
  {
    hide Subs, Counts, Faults;
    SubsSize(c);
    var votes := Votes(n.committing, key.1) + {v};
    CountOne(Quorum(c), Subs(c), Votes(n.committing, key.1), cast, v, log, key);
    log' := if |votes| >= Quorum(c) then log[key := votes] else log;
  }

  /** The two ways counting a confirm can go. */
  lemma ConfirmCases(c: Cluster, me: Endpoint, n: Node, v: Endpoint, cmd: Cmd)
    requires |c.endpoints| >= 2
    ensures var votes, erased := Votes(n.confirming, cmd) + {v}, n.(confirming := n.confirming - {cmd});
            if |votes| >= Quorum(c) then
              && CountConfirm(c, me, n, v, cmd) == (CountCommit(c, erased, me, cmd), ToOtherSubs(c, me, Commit, cmd))
              && Votes(erased.confirming, cmd) == {}
            else
              && CountConfirm(c, me, n, v, cmd) == (n.(confirming := n.confirming[cmd := votes]), multiset{})
              && Votes(n.confirming[cmd := votes], cmd) == votes
  {
    hide CountCommit, ToOtherSubs, Quorum;
  }

  /** A confirm from a new confirmer is counted, and makes the sub commit at most once. */
  lemma NodeConfirm(c: Cluster, n: Node, confirmed: set<Endpoint>, committed: set<Endpoint>, v: Endpoint,
                    fired: Firings, executed: Firings, key: (Endpoint, Cmd))
    returns (fired': Firings, executed': Firings)
    requires Proper(c) && Counts(Quorum(c), Votes(n.confirming, key.1), confirmed, fired, key)
    requires Counts(Quorum(c), Votes(n.committing, key.1), committed, executed, key)
    requires multiset(n.history)[key.1] == if key in executed then 1 else 0
    requires v !in confirmed && confirmed + {v} <= Subs(c)
    requires committed + {key.0} <= Subs(c) && (key.0 in committed <==> key in fired)
    ensures AddsAt(fired, fired', key) && AddsAt(executed, executed', key)
    ensures var r := CountConfirm(c, key.0, n, v, key.1);
            && Counts(Quorum(c), Votes(r.0.confirming, key.1), confirmed + {v}, fired', key)
            && Counts(Quorum(c), Votes(r.0.committing, key.1), if key in fired' then committed + {key.0} else committed,
                      executed', key)
            && multiset(r.0.history)[key.1] == (if key in executed' then 1 else 0)
            && r.1 == if key in fired' && key !in fired then ToOtherSubs(c, key.0, Commit, key.1) else multiset{}
  {
    hide Subs, Counts, Faults, Quorum, Votes, ToOtherSubs, CountCommit, CountConfirm;
    SubsSize(c);
    QuorumSize(c);
    ConfirmCases(c, key.0, n, v, key.1);
    var votes := Votes(n.confirming, key.1) + {v};
    CountOne(Quorum(c), Subs(c), Votes(n.confirming, key.1), confirmed, v, fired, key);
    fired', executed' := fired, executed;
    if |votes| >= Quorum(c) {
      fired' := fired[key := votes];
      executed' := NodeCommit(c, n.(confirming := n.confirming - {key.1}), committed, key.0, executed, key);
    } else if key in fired {
      assert committed + {key.0} == committed;
    }
  }

  lemma QuorumSize(c: Cluster)
    requires |c.endpoints| >= 2
    ensures |c.endpoints| - 1 < 2 * Quorum(c)
  {
  }

  // ----- Messages in flight -----

  ghost predicate BagOk(s: Setting, bag: multiset<Message>, g: Log)
    requires |s.c.endpoints| > 0
  {
    && (forall m :: m in g.delivered ==> Sent(s, g, m))
    && (forall m :: bag[m] == if Sent(s, g, m) && m !in g.delivered then 1 else 0)
  }

  /** `msgs` are the messages sent between `g` and `g'`, each once and for the first time. */
  ghost predicate NewlySent(s: Setting, g: Log, g': Log, msgs: multiset<Message>)
    requires |s.c.endpoints| > 0
  {
    && (forall m :: Sent(s, g', m) <==> Sent(s, g, m) || m in msgs)
    && (forall m :: m in msgs ==> msgs[m] == 1 && !Sent(s, g, m))
  }

  lemma BagStep(s: Setting, bag: multiset<Message>, g: Log, g': Log, m: Message, msgs: multiset<Message>)
    requires |s.c.endpoints| > 0 && BagOk(s, bag, g) && m in bag
    requires g'.delivered == g.delivered + {m} && NewlySent(s, g, g', msgs)
    ensures BagOk(s, bag - multiset{m} + msgs, g')
  {
    hide Sent;
  }

  lemma BroadcastContents(c: Cluster, me: Endpoint, kind: Kind, cmd: Cmd)
    requires |c.endpoints| > 0
    ensures forall m :: ToOtherSubs(c, me, kind, cmd)[m] ==
              if m.kind == kind && m.from == me && m.cmd == cmd && m.to in Subs(c) && m.to != me then 1 else 0
  {
    var msgs := set e | e in Subs(c) && e != me :: Message(kind, me, e, cmd);
    forall m: Message
      ensures m in msgs <==> m.kind == kind && m.from == me && m.cmd == cmd && m.to in Subs(c) && m.to != me
    {
      assert m == Message(m.kind, m.from, m.to, m.cmd);
    }
  }

  // ----- One delivery -----

  /** The log after message `m` has been delivered to the sub it is for. */
  ghost function LogAt(g: Log, m: Message, fired: Firings, executed: Firings): Log {
    g.(delivered := g.delivered + {m}, fired := fired, executed := executed)
  }

  /** What a delivery to a sub adds to the messages sent. */
  lemma SubSends(s: Setting, g: Log, m: Message, fired: Firings,
                 executed: Firings, msgs: multiset<Message>)
    requires Fair(s) && m.to in s.live && Sent(s, g, m) && m !in g.delivered && m.from != s.client
    requires AddsAt(g.fired, fired, (m.to, m.cmd))
    requires var commits := if (m.to, m.cmd) in fired && (m.to, m.cmd) !in g.fired
                            then ToOtherSubs(s.c, m.to, Commit, m.cmd) else multiset{};
             msgs == if m.kind == Execute then commits + ToOtherSubs(s.c, m.to, Confirm, m.cmd) else commits
    ensures NewlySent(s, g, LogAt(g, m, fired, executed), msgs)
  {
    hide ToOtherSubs, Subs, Faults, Quorum, Primary, Sent, AddsAt;
    BroadcastContents(s.c, m.to, Commit, m.cmd);
    BroadcastContents(s.c, m.to, Confirm, m.cmd);
    SenderIs(s, g, m);
    var g' := LogAt(g, m, fired, executed);
    forall k
      ensures Sent(s, g', k) <==> Sent(s, g, k) || k in msgs
      ensures k in msgs ==> msgs[k] == 1 && !Sent(s, g, k)
    {
      SentByKind(s, g, m, fired, executed, k);
    }
  }

  /** Which messages a delivery to a sub adds, by their kind. */
  lemma SentByKind(s: Setting, g: Log, m: Message, fired: Firings, executed: Firings, k: Message)
    requires Fair(s) && m.to in s.live && Sent(s, g, m) && m !in g.delivered && m.from != s.client
    requires AddsAt(g.fired, fired, (m.to, m.cmd))
    ensures var own := k.from == m.to && k.cmd == m.cmd && k.to in Subs(s.c) && k.to != m.to;
            var added := match k.kind
                       case Execute => false
                       case Confirm => m.kind == Execute && own
                       case Commit => (m.to, m.cmd) in fired && (m.to, m.cmd) !in g.fired && own;
            (Sent(s, LogAt(g, m, fired, executed), k) <==> Sent(s, g, k) || added) && !(Sent(s, g, k) && added)
  {
    hide Subs, Faults, Quorum, Primary, Proper;
    SenderIs(s, g, m);
    NotSub(s.c);
  }

  lemma NotSub(c: Cluster)
    requires |c.endpoints| > 0
    ensures Primary(c) !in Subs(c)
  {
  }

  /** Nothing changes for another sub or another command. */
  lemma KeepSub(s: Setting, n: Node, n': Node, g: Log, g': Log, m: Message, j: Endpoint, d: Cmd)
    requires Fair(s) && SubOk(s, n, g, j, d) && (j, d) != (m.to, m.cmd)
    requires g'.delivered == g.delivered + {m}
    requires AddsAt(g.fired, g'.fired, (m.to, m.cmd)) && AddsAt(g.executed, g'.executed, (m.to, m.cmd))
    requires n' == n || (d != m.cmd && SameElsewhere(n, n', m.cmd))
    ensures SubOk(s, n', g', j, d)
  {
    hide Subs, Faults, Quorum, Votes;
    assert Confirmers(s, g', j, d) == Confirmers(s, g, j, d);
    assert Committers(s, g', j, d) == Committers(s, g, j, d);
  }

  lemma OrderKept(s: Setting, g: Log, g': Log, m: Message)
    requires Fair(s) && (forall cmd :: OrderOk(s, g, cmd))
    requires g'.delivered == g.delivered + {m} && g'.submitted == g.submitted && g'.ordered == g.ordered
    requires m.kind == Execute ==> m.from == Primary(s.c) && m.to in Subs(s.c)
    ensures forall cmd :: OrderOk(s, g', cmd)
  {
    hide Faults, Quorum;
    forall cmd
      ensures OrderOk(s, g', cmd)
    {
      assert OrderOk(s, g, cmd);
    }
  }

  lemma AddsNothing(log: Firings, key: (Endpoint, Cmd))
    ensures AddsAt(log, log, key)
  {
  }

  lemma SenderIs(s: Setting, g: Log, m: Message)
    requires Fair(s) && m.to in s.live && Sent(s, g, m) && m.from != s.client
    ensures m.to in Subs(s.c) && m.to != Primary(s.c)
    ensures m.kind == Execute ==> m.from == Primary(s.c)
    ensures m.kind != Execute ==> m.from in Subs(s.c) && m.from != m.to
  {
    hide Faults, Quorum, Subs;
    NotSub(s.c);
  }

  /** The new votes of sub `m.to` on `m.cmd`. */
  lemma NewVotes(s: Setting, g: Log, g': Log, m: Message)
    requires Fair(s) && m.to in s.live && Sent(s, g, m) && m.from != s.client && m !in g.delivered
    requires g'.delivered == g.delivered + {m} && AddsAt(g.fired, g'.fired, (m.to, m.cmd))
    ensures var i, cmd, v := m.to, m.cmd, if m.kind == Execute then m.to else m.from;
            var confirmed, committed := Confirmers(s, g, i, cmd), Committers(s, g, i, cmd);
            && v in Subs(s.c) && i in Subs(s.c)
            && confirmed <= Subs(s.c) && committed <= Subs(s.c)
            && (m.kind != Commit ==>
                  && v !in confirmed && Confirmers(s, g', i, cmd) == confirmed + {v}
                  && (i in committed <==> (i, cmd) in g.fired)
                  && Committers(s, g', i, cmd) == if (i, cmd) in g'.fired then committed + {i} else committed)
            && (m.kind == Commit && g'.fired == g.fired ==>
                  && v !in committed && Confirmers(s, g', i, cmd) == confirmed
                  && Committers(s, g', i, cmd) == committed + {v})
  {
    hide Subs, Faults, Quorum;
    SenderIs(s, g, m);
  }

  /** A vote is delivered to a live sub: the sub's own state. */
  lemma SubVote(s: Setting, n: Node, g: Log, m: Message) returns (g': Log)
    requires Fair(s) && m.to in s.live && Sent(s, g, m) && m.from != s.client && m !in g.delivered
    requires SubOk(s, n, g, m.to, m.cmd)
    ensures g' == LogAt(g, m, g'.fired, g'.executed)
    ensures AddsAt(g.fired, g'.fired, (m.to, m.cmd)) && AddsAt(g.executed, g'.executed, (m.to, m.cmd))
    ensures var r := HandleAsSub(s.c, m.to, n, m);
            && SubOk(s, r.0, g', m.to, m.cmd) && SameElsewhere(n, r.0, m.cmd)
            && NewlySent(s, g, g', r.1)
  {
    hide Subs, Faults, Quorum, Counts, Confirmers, Committers, ToOtherSubs, CountConfirm, CountCommit, Primary;
    hide AddsAt, SameElsewhere, NewlySent, Votes, Sent;
    AddsNothing(g.fired, (m.to, m.cmd));
    NewVotes(s, g, LogAt(g, m, g.fired, g.executed), m);
    var i, cmd, v := m.to, m.cmd, if m.kind == Execute then m.to else m.from;
    var fired, executed := g.fired, g.executed;
    SenderIs(s, g, m);
    if m.kind == Commit {
      executed := NodeCommit(s.c, n, Committers(s, g, i, cmd), v, g.executed, (i, cmd));
      CommitElsewhere(s.c, n, v, cmd);
    } else {
      fired, executed := NodeConfirm(s.c, n, Confirmers(s, g, i, cmd), Committers(s, g, i, cmd), v, g.fired, g.executed,
                                     (i, cmd));
      ConfirmElsewhere(s.c, i, n, v, cmd);
    }
    g' := LogAt(g, m, fired, executed);
    NewVotes(s, g, g', m);
    SubSends(s, g, m, fired, executed, HandleAsSub(s.c, i, n, m).1);
  }

  // ----- One step -----

  /** A message is delivered to a node: what remains to check beside the node itself. */
  lemma Delivered(s: Setting, y: System, g: Log, g': Log, m: Message, n': Node, msgs: multiset<Message>)
    requires Inv(s, y, g) && m in y.bag && m.to in y.nodes
    requires g'.delivered == g.delivered + {m} && NewlySent(s, g, g', msgs)
    requires AddsAt(g.fired, g'.fired, (m.to, m.cmd)) && AddsAt(g.executed, g'.executed, (m.to, m.cmd))
    requires forall cmd :: OrderOk(s, g', cmd)
    requires if m.to == Primary(s.c) then forall cmd :: multiset(n'.history)[cmd] == if cmd in g'.ordered then 1 else 0
             else g'.ordered == g.ordered
                  && (n' == y.nodes[m.to] || SameElsewhere(y.nodes[m.to], n', m.cmd)) && SubOk(s, n', g', m.to, m.cmd)
    ensures Inv(s, System(y.nodes[m.to := n'], y.bag - multiset{m} + msgs), g')
  {
    hide Subs, Faults, Quorum, NewlySent, AddsAt, SameElsewhere, SubOk, OrderOk, Sent, BagOk, Primary, Proper;
    BagStep(s, y.bag, g, g', m, msgs) by { InBag(s, y.bag, g, m); }
    PrimaryNotLive(s);
    var nodes := y.nodes[m.to := n'];
    forall j, d | j in s.live
      ensures SubOk(s, nodes[j], g', j, d)
    {
      if (j, d) != (m.to, m.cmd) {
        assert SubOk(s, y.nodes[j], g, j, d);
        KeepSub(s, y.nodes[j], nodes[j], g, g', m, j, d);
      }
    }
  }

  lemma PrimaryNotLive(s: Setting)
    requires Fair(s)
    ensures Primary(s.c) !in s.live && s.client != Primary(s.c) && s.client !in s.live
  {
    hide Faults, Quorum;
  }

  lemma InBag(s: Setting, bag: multiset<Message>, g: Log, m: Message)
    requires |s.c.endpoints| > 0 && BagOk(s, bag, g) && m in bag
    ensures Sent(s, g, m) && m !in g.delivered
  {
    hide Sent;
  }

  /** A vote reaches a live sub. */
  lemma DeliverVote(s: Setting, y: System, g: Log, m: Message) returns (g': Log)
    requires Inv(s, y, g) && m in y.bag && m.to in s.live && m.from != s.client
    ensures Inv(s, Apply(s, y, g.submitted.Keys, Deliver(m)).0, g')
    ensures g'.submitted == g.submitted && g'.delivered == g.delivered + {m}
  {
    hide Subs, Faults, Quorum, NewlySent, AddsAt, SameElsewhere, SubOk, OrderOk, Sent, BagOk, Primary, Proper;
    hide HandleAsSub;
    InBag(s, y.bag, g, m);
    SenderIs(s, g, m);
    PrimaryNotLive(s);
    assert SubOk(s, y.nodes[m.to], g, m.to, m.cmd);
    g' := SubVote(s, y.nodes[m.to], g, m);
    var r := HandleAsSub(s.c, m.to, y.nodes[m.to], m);
    OrderKept(s, g, g', m);
    Delivered(s, y, g, g', m, r.0, r.1);
  }

  /** A client's command reaches a live sub, which forwards it. */
  lemma Forwarded(s: Setting, y: System, g: Log, m: Message, g': Log)
    requires Inv(s, y, g) && m.to in s.live && m.from == s.client && Sent(s, g, m) && m !in g.delivered
    requires g' == g.(delivered := g.delivered + {m})
    ensures m.kind == Execute
    ensures NewlySent(s, g, g', multiset{Message(Execute, m.to, Primary(s.c), m.cmd)})
    ensures forall cmd :: OrderOk(s, g', cmd)
  {
    hide Subs, Faults, Quorum, SubOk, Primary, Proper;
    PrimaryNotLive(s);
    var sent := Message(Execute, m.to, Primary(s.c), m.cmd);
    assert !Sent(s, g, sent) && Sent(s, g', sent);
    forall cmd
      ensures OrderOk(s, g', cmd)
    {
      assert OrderOk(s, g, cmd);
    }
  }

  lemma SameVotes(s: Setting, n: Node, g: Log, g': Log, m: Message)
    requires Fair(s) && SubOk(s, n, g, m.to, m.cmd) && m.kind == Execute && m.from != Primary(s.c)
    requires g' == g.(delivered := g.delivered + {m})
    ensures SubOk(s, n, g', m.to, m.cmd)
  {
    hide Subs, Faults, Quorum, Votes;
    assert Confirmers(s, g', m.to, m.cmd) == Confirmers(s, g, m.to, m.cmd);
    assert Committers(s, g', m.to, m.cmd) == Committers(s, g, m.to, m.cmd);
  }

  lemma DeliverToSub(s: Setting, y: System, g: Log, m: Message) returns (g': Log)
    requires Inv(s, y, g) && m in y.bag && m.to in s.live && m.from == s.client
    ensures Inv(s, Apply(s, y, g.submitted.Keys, Deliver(m)).0, g')
    ensures g'.submitted == g.submitted && g'.delivered == g.delivered + {m}
  {
    hide Subs, Faults, Quorum, NewlySent, AddsAt, SameElsewhere, SubOk, OrderOk, Sent, BagOk, Primary, Proper;
    InBag(s, y.bag, g, m);
    PrimaryNotLive(s);
    g' := g.(delivered := g.delivered + {m});
    Forwarded(s, y, g, m, g');
    SameVotes(s, y.nodes[m.to], g, g', m);
    AddsNothing(g.fired, (m.to, m.cmd));
    AddsNothing(g.executed, (m.to, m.cmd));
    Delivered(s, y, g, g', m, y.nodes[m.to], multiset{Message(Execute, m.to, Primary(s.c), m.cmd)});
  }

  /** A command reaches the primary, which executes it and sends it to every sub. */
  lemma Ordered(s: Setting, y: System, g: Log, m: Message, g': Log)
    requires Inv(s, y, g) && m.to == Primary(s.c) && Sent(s, g, m) && m !in g.delivered
    requires g' == g.(delivered := g.delivered + {m}, ordered := g.ordered + {m.cmd})
    ensures m.kind == Execute && m.cmd !in g.ordered
    ensures NewlySent(s, g, g', ToOtherSubs(s.c, m.to, Execute, m.cmd))
    ensures forall cmd :: OrderOk(s, g', cmd)
  {
    hide Subs, Faults, Quorum, SubOk, Primary, Proper, ToOtherSubs;
    PrimaryNotLive(s);
    NotSub(s.c);
    BroadcastContents(s.c, m.to, Execute, m.cmd);
    assert OrderOk(s, g, m.cmd);
    forall cmd
      ensures OrderOk(s, g', cmd)
    {
      assert OrderOk(s, g, cmd);
    }
  }

  lemma PrimaryBroadcast(c: Cluster, cmd: Cmd)
    requires |c.endpoints| > 0
    ensures ToOthers(c, Primary(c), Execute, cmd) == ToOtherSubs(c, Primary(c), Execute, cmd)
  {
    assert (set e | e in c.endpoints && e != Primary(c) :: Message(Execute, Primary(c), e, cmd))
        == (set e | e in Subs(c) && e != Primary(c) :: Message(Execute, Primary(c), e, cmd));
  }

  lemma DeliverToPrimary(s: Setting, y: System, g: Log, m: Message) returns (g': Log)
    requires Inv(s, y, g) && m in y.bag && m.to == Primary(s.c)
    ensures Inv(s, Apply(s, y, g.submitted.Keys, Deliver(m)).0, g')
    ensures g'.submitted == g.submitted && g'.delivered == g.delivered + {m}
  {
    hide Subs, Faults, Quorum, NewlySent, AddsAt, SameElsewhere, SubOk, OrderOk, Sent, BagOk, Primary, Proper, ToOthers;
    hide ToOtherSubs;
    InBag(s, y.bag, g, m);
    g' := g.(delivered := g.delivered + {m}, ordered := g.ordered + {m.cmd});
    Ordered(s, y, g, m, g');
    AddsNothing(g.fired, (m.to, m.cmd));
    AddsNothing(g.executed, (m.to, m.cmd));
    PrimaryBroadcast(s.c, m.cmd);
    var n := y.nodes[m.to];
    Delivered(s, y, g, g', m, n.(history := n.history + [m.cmd]), ToOtherSubs(s.c, m.to, Execute, m.cmd));
  }

  lemma Submitted(s: Setting, y: System, g: Log, cmd: Cmd, to: Endpoint) returns (g': Log)
    requires Inv(s, y, g) && cmd !in g.submitted && to in y.nodes
    ensures Inv(s, Apply(s, y, g.submitted.Keys, Submit(cmd, to)).0, g')
    ensures g'.submitted.Keys == g.submitted.Keys + {cmd} && g'.delivered == g.delivered
  {
    hide Subs, Faults, Quorum, SubOk, Primary, Proper;
    g' := g.(submitted := g.submitted[cmd := to]);
    var m := Message(Execute, s.client, to, cmd);
    PrimaryNotLive(s);
    assert forall k :: Sent(s, g', k) <==> Sent(s, g, k) || k == m;
    assert !Sent(s, g, m);
    forall d
      ensures OrderOk(s, g', d)
    {
      assert OrderOk(s, g, d);
    }
    forall j, d | j in s.live
      ensures SubOk(s, y.nodes[j], g', j, d)
    {
      assert SubOk(s, y.nodes[j], g, j, d);
      SubOkOf(s, y.nodes[j], g, g', j, d);
    }
  }

  lemma SubOkOf(s: Setting, n: Node, g: Log, g': Log, j: Endpoint, d: Cmd)
    requires |s.c.endpoints| >= 2 && SubOk(s, n, g, j, d)
    requires g'.delivered == g.delivered && g'.fired == g.fired && g'.executed == g.executed
    ensures SubOk(s, n, g', j, d)
  {
    hide Subs, Faults, Quorum, Votes;
    assert Confirmers(s, g', j, d) == Confirmers(s, g, j, d);
    assert Committers(s, g', j, d) == Committers(s, g, j, d);
  }

  /** Every step keeps the invariant. */
  lemma StepKeeps(s: Setting, y: System, g: Log, e: Event) returns (g': Log)
    requires Inv(s, y, g) && Enabled(s, y, g.submitted.Keys, e)
    ensures var r := Apply(s, y, g.submitted.Keys, e); Inv(s, r.0, g') && r.1 == g'.submitted.Keys
    ensures e.Submit? ==> g'.delivered == g.delivered
    ensures e.Deliver? ==> e.m !in g.delivered && g'.delivered == g.delivered + {e.m}
  {
    hide Inv, Subs, Faults, Quorum, Handle;
    Members(s, y, g);
    if e.Deliver? {
      StillOut(s, y, g, e.m);
    }
    match e
    case Submit(cmd, to) => g' := Submitted(s, y, g, cmd, to);
    case Deliver(m) =>
      if m.to == Primary(s.c) {
        g' := DeliverToPrimary(s, y, g, m);
      } else if m.from == s.client {
        g' := DeliverToSub(s, y, g, m);
      } else {
        g' := DeliverVote(s, y, g, m);
      }
  }

  lemma StillOut(s: Setting, y: System, g: Log, m: Message)
    requires Inv(s, y, g) && m in y.bag
    ensures m !in g.delivered
  {
    hide Subs, Faults, Quorum, SubOk, OrderOk, Sent;
  }

  lemma Members(s: Setting, y: System, g: Log)
    requires Inv(s, y, g)
    ensures |s.c.endpoints| >= 2 && y.nodes.Keys == s.live + {Primary(s.c)}
  {
  }

  // ----- Whole runs -----

  /** Every event of the run can happen when its turn comes. */
  ghost predicate Possible(s: Setting, events: seq<Event>)
    requires |s.c.endpoints| >= 2
    decreases |events|, 0
  {
    events == [] ||
    var before := events[..|events| - 1];
    Possible(s, before) && var r := After(s, before); Enabled(s, r.0, r.1, events[|events| - 1])
  }

  /** The system and the commands submitted after a run. */
  ghost function After(s: Setting, events: seq<Event>): (System, set<Cmd>)
    requires |s.c.endpoints| >= 2 && Possible(s, events)
    decreases |events|, 1
  {
    if events == [] then (Initial(s), {})
    else
      var r := After(s, events[..|events| - 1]);
      Apply(s, r.0, r.1, events[|events| - 1])
  }

  /** The number of deliveries in a run. */
  function Deliveries(events: seq<Event>): nat {
    if events == [] then 0
    else Deliveries(events[..|events| - 1]) + if events[|events| - 1].Deliver? then 1 else 0
  }

  lemma {:induction false} RunKeeps(s: Setting, events: seq<Event>) returns (g: Log)
    requires Fair(s) && Possible(s, events)
    ensures Inv(s, After(s, events).0, g) && After(s, events).1 == g.submitted.Keys
    ensures |g.delivered| == Deliveries(events)
    decreases |events|
  {
    hide Inv, Subs, Faults, Quorum, Apply, Enabled;
    if events == [] {
      g := Log(map[], {}, {}, map[], map[]);
      InitialInv(s);
    } else {
      var r := After(s, events[..|events| - 1]);
      g := RunKeeps(s, events[..|events| - 1]);
      g := StepKeeps(s, r.0, g, events[|events| - 1]);
    }
  }

  /** How often a node has executed `cmd` at the end of a run. */
  ghost function Times(s: Setting, events: seq<Event>, e: Endpoint, cmd: Cmd): nat
    requires |s.c.endpoints| >= 2 && Possible(s, events)
  {
    var nodes := After(s, events).0.nodes;
    if e in nodes then multiset(nodes[e].history)[cmd] else 0
  }

  lemma SomeVote(x: nat, votes: set<Endpoint>, cast: set<Endpoint>, log: Firings, key: (Endpoint, Cmd))
    returns (v: Endpoint)
    requires Counts(x, votes, cast, log, key) && key in log && x > 0
    ensures v in cast
  {
    v :| v in log[key];
  }

  /** What a sub has committed was ordered by the primary. */
  lemma FiredOrdered(s: Setting, y: System, g: Log, j: Endpoint, cmd: Cmd)
    requires Inv(s, y, g) && j in s.live && (j, cmd) in g.fired
    ensures cmd in g.ordered
  {
    hide Subs, Faults, OrderOk, Counts, Votes, Proper;
    assert SubOk(s, y.nodes[j], g, j, cmd);
    var k := SomeVote(Quorum(s.c), Votes(y.nodes[j].confirming, cmd), Confirmers(s, g, j, cmd), g.fired, (j, cmd));
    var m := Message(Execute, Primary(s.c), k, cmd);
    assert m in g.delivered by {
      assert k != j ==> Sent(s, g, Message(Confirm, k, j, cmd));
    }
    PrimaryNotLive(s);
    assert Sent(s, g, m);
  }

  /** What a sub has executed was ordered by the primary. */
  lemma ExecutedOrdered(s: Setting, y: System, g: Log, i: Endpoint, cmd: Cmd)
    requires Inv(s, y, g) && i in s.live && (i, cmd) in g.executed
    ensures cmd in g.ordered
  {
    hide Subs, Faults, OrderOk, Counts, Votes, Proper;
    assert SubOk(s, y.nodes[i], g, i, cmd);
    var j := SomeVote(Quorum(s.c), Votes(y.nodes[i].committing, cmd), Committers(s, g, i, cmd), g.executed, (i, cmd));
    assert j in s.live && (j, cmd) in g.fired by {
      assert j != i ==> Sent(s, g, Message(Commit, j, i, cmd));
    }
    FiredOrdered(s, y, g, j, cmd);
  }

  /** Exactly-once, safety half: at all times no node has executed a command twice, and none has executed a command
      nobody submitted. */
  lemma AtMostOnce(s: Setting, events: seq<Event>, e: Endpoint, cmd: Cmd)
    requires Fair(s) && Possible(s, events)
    ensures Times(s, events, e, cmd) <= if cmd in After(s, events).1 then 1 else 0
  {
    hide Subs, Faults, Quorum, After, Possible, Counts, Confirmers, Committers, Proper;
    var g := RunKeeps(s, events);
    var y := After(s, events).0;
    assert OrderOk(s, g, cmd);
    if e in s.live {
      assert SubOk(s, y.nodes[e], g, e, cmd);
      if (e, cmd) in g.executed {
        ExecutedOrdered(s, y, g, e, cmd);
      }
    }
  }

  /** No message is in flight to a node that is there to receive it. */
  ghost predicate Quiet(y: System) {
    forall m :: m in y.bag ==> m.to !in y.nodes
  }

  lemma QuietDelivered(s: Setting, y: System, g: Log, m: Message)
    requires Inv(s, y, g) && Quiet(y) && Sent(s, g, m) && m.to in y.nodes
    ensures m in g.delivered
  {
    hide Subs, Faults, Quorum, SubOk, OrderOk, Proper, Sent;
  }

  lemma QuietOrdered(s: Setting, y: System, g: Log, cmd: Cmd)
    requires Inv(s, y, g) && Quiet(y) && cmd in g.submitted
    ensures cmd in g.ordered
  {
    hide Subs, Faults, Quorum, SubOk, Proper, Primary, BagOk, Quiet;
    PrimaryNotLive(s);
    assert OrderOk(s, g, cmd);
    var to := g.submitted[cmd];
    QuietDelivered(s, y, g, Message(Execute, s.client, to, cmd));
    if to != Primary(s.c) {
      QuietDelivered(s, y, g, Message(Execute, to, Primary(s.c), cmd));
    }
  }

  /** A counter that has heard from every live sub has fired. */
  lemma Fires(s: Setting, votes: set<Endpoint>, cast: set<Endpoint>, log: Firings, key: (Endpoint, Cmd))
    requires Fair(s) && Counts(Quorum(s.c), votes, cast, log, key) && s.live <= cast
    ensures key in log
  {
    SubsetSize(s.live, cast);
  }

  lemma LiveAreSubs(s: Setting, i: Endpoint)
    requires Fair(s) && i in s.live
    ensures i in Subs(s.c)
  {
  }

  lemma QuietFired(s: Setting, y: System, g: Log, i: Endpoint, cmd: Cmd)
    requires Inv(s, y, g) && Quiet(y) && cmd in g.ordered && i in s.live
    ensures (i, cmd) in g.fired
  {
    hide Subs, Faults, Quorum, Counts, OrderOk, Proper, Primary, BagOk, Quiet, Votes;
    PrimaryNotLive(s);
    forall j | j in s.live
      ensures j in Confirmers(s, g, i, cmd)
    {
      LiveAreSubs(s, i);
      LiveAreSubs(s, j);
      QuietDelivered(s, y, g, Message(Execute, Primary(s.c), j, cmd));
      if j != i {
        QuietDelivered(s, y, g, Message(Confirm, j, i, cmd));
      }
    }
    assert SubOk(s, y.nodes[i], g, i, cmd);
    Fires(s, Votes(y.nodes[i].confirming, cmd), Confirmers(s, g, i, cmd), g.fired, (i, cmd));
  }

  lemma QuietExecuted(s: Setting, y: System, g: Log, i: Endpoint, cmd: Cmd)
    requires Inv(s, y, g) && Quiet(y) && cmd in g.ordered && i in s.live
    ensures (i, cmd) in g.executed
  {
    hide Subs, Faults, Quorum, Counts, OrderOk, Proper, Primary, BagOk, Quiet, Votes;
    forall j | j in s.live
      ensures j in Committers(s, g, i, cmd)
    {
      LiveAreSubs(s, i);
      LiveAreSubs(s, j);
      QuietFired(s, y, g, j, cmd);
      if j != i {
        QuietDelivered(s, y, g, Message(Commit, j, i, cmd));
      }
    }
    assert SubOk(s, y.nodes[i], g, i, cmd);
    Fires(s, Votes(y.nodes[i].committing, cmd), Committers(s, g, i, cmd), g.executed, (i, cmd));
  }

  /** Exactly-once, liveness half: when nothing is in flight, every live sub and the primary have executed every command
      submitted, once. */
  lemma ExactlyOnce(s: Setting, events: seq<Event>, e: Endpoint, cmd: Cmd)
    requires Fair(s) && Possible(s, events)
    ensures var (y, submitted) := After(s, events);
            Quiet(y) && cmd in submitted && e in s.live + {Primary(s.c)} ==> Times(s, events, e, cmd) == 1
  {
    hide Subs, Faults, Quorum, After, Possible, Counts, Confirmers, Committers, Proper, OrderOk, BagOk, Quiet;
    var g := RunKeeps(s, events);
    var y := After(s, events).0;
    if Quiet(y) && cmd in g.submitted {
      QuietOrdered(s, y, g, cmd);
      if e in s.live {
        QuietExecuted(s, y, g, e, cmd);
        assert SubOk(s, y.nodes[e], g, e, cmd);
      }
    }
  }

  // ----- Every run settles -----

  /** The messages that can be sent about a set of commands. */
  ghost function AllMessages(s: Setting, cmds: set<Cmd>): set<Message> {
    var all := (set e | e in s.c.endpoints) + {s.client};
    set kind, from, to, cmd | kind in {Execute, Confirm, Commit} && from in all && to in all && cmd in cmds ::
      Message(kind, from, to, cmd)
  }

  lemma SubIsMember(c: Cluster, e: Endpoint)
    requires |c.endpoints| > 0 && (e in Subs(c) || e == Primary(c))
    ensures e in c.endpoints
  {
  }

  lemma SentWithin(s: Setting, y: System, g: Log, m: Message)
    requires Inv(s, y, g) && Sent(s, g, m)
    ensures m in AllMessages(s, g.submitted.Keys)
  {
    hide Subs, Faults, Quorum, SubOk, Primary, Proper, BagOk;
    assert OrderOk(s, g, m.cmd);
    SubIsMember(s.c, Primary(s.c));
    if m.from in s.live {
      SubIsMember(s.c, m.from);
    }
    if m.to in Subs(s.c) {
      SubIsMember(s.c, m.to);
    }
    if m.to in s.live {
      SubIsMember(s.c, m.to);
    }
    if m.kind == Confirm {
      ConfirmOrdered(s, y, g, m);
    } else if m.kind == Commit {
      FiredOrdered(s, y, g, m.from, m.cmd);
    }
    assert m == Message(m.kind, m.from, m.to, m.cmd);
  }

  lemma ConfirmOrdered(s: Setting, y: System, g: Log, m: Message)
    requires Inv(s, y, g) && Sent(s, g, m) && m.kind == Confirm
    ensures m.cmd in g.ordered
  {
    hide Subs, Faults, Quorum, SubOk, OrderOk, Proper;
    PrimaryNotLive(s);
    assert Sent(s, g, Message(Execute, Primary(s.c), m.from, m.cmd));
  }

  /** The number of deliveries is bounded by what was submitted, whatever the order: no run goes on for ever without new
      commands. */
  lemma RunsAreBounded(s: Setting, events: seq<Event>)
    requires Fair(s) && Possible(s, events)
    ensures Deliveries(events) <= |AllMessages(s, After(s, events).1)|
  {
    hide Subs, Faults, Quorum, After, Possible, AllMessages, SubOk, OrderOk, Sent;
    var g := RunKeeps(s, events);
    var y := After(s, events).0;
    forall m | m in g.delivered
      ensures m in AllMessages(s, g.submitted.Keys)
    {
      SentWithin(s, y, g, m);
    }
    SubsetSize(g.delivered, AllMessages(s, g.submitted.Keys));
  }

  lemma Extend(s: Setting, events: seq<Event>, e: Event)
    requires |s.c.endpoints| >= 2 && Possible(s, events) && Enabled(s, After(s, events).0, After(s, events).1, e)
    ensures Possible(s, events + [e])
    ensures After(s, events + [e]) == Apply(s, After(s, events).0, After(s, events).1, e)
    ensures Deliveries(events + [e]) == Deliveries(events) + if e.Deliver? then 1 else 0
  {
    hide Apply, Enabled;
    assert (events + [e])[..|events|] == events;
  }

  lemma DeliverySubmitsNothing(s: Setting, y: System, submitted: set<Cmd>, m: Message)
    requires |s.c.endpoints| >= 2 && Enabled(s, y, submitted, Deliver(m))
    ensures Apply(s, y, submitted, Deliver(m)).1 == submitted
  {
  }

  lemma SomeDelivery(y: System) returns (m: Message)
    requires !Quiet(y)
    ensures m in y.bag && m.to in y.nodes
  {
    m :| m in y.bag && m.to in y.nodes;
  }

  /** From every reachable state, delivering what is in flight leads to a quiet state, where by `ExactlyOnce` every
      command has been executed once by every live node. */
  lemma {:induction false} Settles(s: Setting, events: seq<Event>) returns (all: seq<Event>)
    requires Fair(s) && Possible(s, events)
    ensures |events| <= |all| && all[..|events|] == events && Possible(s, all)
    ensures forall i :: |events| <= i < |all| ==> all[i].Deliver?
    ensures After(s, all).1 == After(s, events).1 && Quiet(After(s, all).0)
    decreases |AllMessages(s, After(s, events).1)| - Deliveries(events)
  {
    hide Subs, Faults, Quorum, After, Possible, AllMessages, Apply, Quiet;
    RunsAreBounded(s, events);
    var (y, submitted) := After(s, events);
    all := events;
    if !Quiet(y) {
      var m := SomeDelivery(y);
      Extend(s, events, Deliver(m));
      DeliverySubmitsNothing(s, y, submitted, m);
      RunsAreBounded(s, events + [Deliver(m)]);
      all := Settles(s, events + [Deliver(m)]);
      assert all[..|events|] == all[..|events| + 1][..|events|];
      assert all[|events|] == all[..|events| + 1][|events|];
    }
  }

  // ----- Any silent third -----

  /** The cluster with some of its subs silent. */
  ghost function WithSilent(c: Cluster, silent: set<Endpoint>, client: Endpoint): Setting
    requires |c.endpoints| > 0
  {
    Setting(c, Subs(c) - silent, client)
  }

  lemma SilentIsFair(c: Cluster, silent: set<Endpoint>, client: Endpoint)
    requires Proper(c) && silent <= Subs(c) && 3 * |silent| < |c.endpoints| && client !in c.endpoints
    ensures Fair(WithSilent(c, silent, client))
  {
    hide Subs;
    SubsSize(c);
    SubsetSize(silent, Subs(c));
  }

  /** In a cluster in which less than a third of the members, none of them the primary, are silent: no member has ever
      executed a command twice or one that nobody submitted; when nothing is in flight every other member has executed
      every command once; and from every state deliveries lead there. */
  lemma SilentThird(c: Cluster, silent: set<Endpoint>, client: Endpoint, events: seq<Event>, e: Endpoint, cmd: Cmd)
    returns (all: seq<Event>)
    requires Proper(c) && silent <= Subs(c) && 3 * |silent| < |c.endpoints| && client !in c.endpoints
    requires Possible(WithSilent(c, silent, client), events)
    ensures var s := WithSilent(c, silent, client);
            var (y, submitted) := After(s, events);
            && Times(s, events, e, cmd) <= (if cmd in submitted then 1 else 0)
            && (Quiet(y) && cmd in submitted && e in c.endpoints && e !in silent ==> Times(s, events, e, cmd) == 1)
    ensures var s := WithSilent(c, silent, client);
            && |events| <= |all| && all[..|events|] == events && Possible(s, all)
            && (forall i :: |events| <= i < |all| ==> all[i].Deliver?) && Quiet(After(s, all).0)
  {
    hide After, Possible, Times, Quiet, Fair;
    var s := WithSilent(c, silent, client);
    SilentIsFair(c, silent, client);
    AtMostOnce(s, events, e, cmd);
    ExactlyOnce(s, events, e, cmd);
    all := Settles(s, events);
  }
}
