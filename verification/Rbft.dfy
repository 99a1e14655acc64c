/** The RBFT handlers of one node in one view (pure-rbft.hpp): execute, confirm and commit counting. */
module Rbft {

  type Endpoint = string
  type Cmd = string

  datatype Kind = Execute | Confirm | Commit

  /** A network message: `/pleaseExecuteThis`, `/pleaseConfirmThis` or `/pleaseCommitThis`. */
  datatype Message = Message(kind: Kind, from: Endpoint, to: Endpoint, cmd: Cmd)

  /** `all_endpoints` and `epoch`. */
  datatype Cluster = Cluster(endpoints: seq<Endpoint>, epoch: nat)

  /** At least two distinct nodes. */
  ghost predicate Proper(c: Cluster) {
    |c.endpoints| >= 2 && forall i, j :: 0 <= i < j < |c.endpoints| ==> c.endpoints[i] != c.endpoints[j]
  }

  function Primary(c: Cluster): Endpoint
    requires |c.endpoints| > 0
  {
    c.endpoints[c.epoch % |c.endpoints|]
  }

  /** `f`: the number of faulty nodes the cluster tolerates, the largest that is less than a third of it. */
  function Faults(c: Cluster): (f: nat)
    requires |c.endpoints| > 0
    ensures 3 * f < |c.endpoints| <= 3 * f + 3
  {
    (|c.endpoints| - 1) / 3
  }

  /** Confirms or commits to collect before a command goes on: N - 1 - f. */
  function Quorum(c: Cluster): (x: nat)
    requires |c.endpoints| >= 2
    ensures x + Faults(c) == |c.endpoints| - 1
    ensures 2 * x > |c.endpoints| - 1
  {
    |c.endpoints| - 1 - Faults(c)
  }

  /** Quorums of small clusters: one of the only sub, both subs of three nodes, two of the three subs of four. */
  lemma SmallQuorums(c: Cluster)
    ensures |c.endpoints| == 2 ==> Quorum(c) == 1
    ensures |c.endpoints| == 3 ==> Quorum(c) == 2
    ensures |c.endpoints| == 4 ==> Quorum(c) == 2 && |c.endpoints| - Faults(c) == 3
    ensures |c.endpoints| == 7 ==> Quorum(c) == 4 && |c.endpoints| - Faults(c) == 5
  {
  }

  /** The counters of a node, and the commands it has executed. */
  datatype Node = Node(confirming: map<Cmd, set<Endpoint>>, committing: map<Cmd, set<Endpoint>>, history: seq<Cmd>)

  const FRESH := Node(map[], map[], [])

  /** Who is counted for `cmd` so far. */
  function Votes(counter: map<Cmd, set<Endpoint>>, cmd: Cmd): set<Endpoint> {
    if cmd in counter then counter[cmd] else {}
  }

  /** The members other than the primary. */
  ghost function Subs(c: Cluster): (s: set<Endpoint>)
    requires |c.endpoints| > 0
  {
    (set e | e in c.endpoints) - {Primary(c)}
  }

  /** One message to every sub but `me`. */
  ghost function ToOtherSubs(c: Cluster, me: Endpoint, kind: Kind, cmd: Cmd): multiset<Message>
    requires |c.endpoints| > 0
  {
    multiset(set e | e in Subs(c) && e != me :: Message(kind, me, e, cmd))
  }

  /** One message to every member but `me`. */
  ghost function ToOthers(c: Cluster, me: Endpoint, kind: Kind, cmd: Cmd): multiset<Message>
    requires |c.endpoints| > 0
  {
    multiset(set e | e in c.endpoints && e != me :: Message(kind, me, e, cmd))
  }

  lemma SubsetSize<T>(a: set<T>, b: set<T>)
    requires a <= b
    ensures |a| <= |b| && |b - a| == |b| - |a|
  {
    assert b == a + (b - a);
  }

  // ----- What the handlers do -----

  /** `add_to_to_be_committed_commands`. */
  function CountCommit(c: Cluster, n: Node, from: Endpoint, cmd: Cmd): Node
    requires |c.endpoints| >= 2
  {
    var votes := Votes(n.committing, cmd) + {from};
    if |votes| >= Quorum(c) then n.(committing := n.committing - {cmd}, history := n.history + [cmd])
    else n.(committing := n.committing[cmd := votes])
  }

  /** `add_to_to_be_confirmed_commands`, with the commits it broadcasts. */
  ghost function CountConfirm(c: Cluster, me: Endpoint, n: Node, from: Endpoint, cmd: Cmd): (Node, multiset<Message>)
    requires |c.endpoints| >= 2
  {
    var votes := Votes(n.confirming, cmd) + {from};
    if |votes| >= Quorum(c) then
      (CountCommit(c, n.(confirming := n.confirming - {cmd}), me, cmd), ToOtherSubs(c, me, Commit, cmd))
    else (n.(confirming := n.confirming[cmd := votes]), multiset{})
  }

  /** `handle_execute_for_sub1`, `handle_confirm_for_sub`, `handle_commit_for_sub`. */
  ghost function HandleAsSub(c: Cluster, me: Endpoint, n: Node, m: Message): (Node, multiset<Message>)
    requires |c.endpoints| >= 2
  {
    match m.kind
    case Execute =>
      if m.from == Primary(c) then
        var r := CountConfirm(c, me, n, me, m.cmd);
        (r.0, r.1 + ToOtherSubs(c, me, Confirm, m.cmd))
      else (n, multiset{Message(Execute, me, Primary(c), m.cmd)})
    case Confirm => CountConfirm(c, me, n, m.from, m.cmd)
    case Commit => (CountCommit(c, n, m.from, m.cmd), multiset{})
  }

  /** `handle_execute_for_primary1`: `received_commands` is never filled, so nothing is filtered. The primary listens to
      no other message. */
  ghost function HandleAsPrimary(c: Cluster, me: Endpoint, n: Node, m: Message): (Node, multiset<Message>)
    requires |c.endpoints| >= 2
  {
    if m.kind == Execute then (n.(history := n.history + [m.cmd]), ToOthers(c, me, Execute, m.cmd)) else (n, multiset{})
  }

  /** The messages of a broadcast that has reached index `i` of the endpoint list and skips `skip`. */
  ghost function SentSoFar(c: Cluster, me: Endpoint, skip: set<Endpoint>, kind: Kind, cmd: Cmd, i: nat): set<Message>
    requires i <= |c.endpoints|
  {
    set e | e in c.endpoints[..i] && e !in skip :: Message(kind, me, e, cmd)
  }

  lemma SendOneMore(c: Cluster, me: Endpoint, skip: set<Endpoint>, kind: Kind, cmd: Cmd, i: nat)
    requires Proper(c) && i < |c.endpoints|
    ensures var e, before := c.endpoints[i], SentSoFar(c, me, skip, kind, cmd, i);
            multiset(SentSoFar(c, me, skip, kind, cmd, i + 1)) ==
              if e !in skip then multiset(before) + multiset{Message(kind, me, e, cmd)} else multiset(before)
  {
    var e := c.endpoints[i];
    var before, after := SentSoFar(c, me, skip, kind, cmd, i), SentSoFar(c, me, skip, kind, cmd, i + 1);
    assert c.endpoints[..i + 1] == c.endpoints[..i] + [e] && e !in c.endpoints[..i];
    var m := Message(kind, me, e, cmd);
    if e !in skip {
      assert after == before + {m} && m !in before;
    } else {
      assert after == before;
    }
  }

  lemma AllSent(c: Cluster, me: Endpoint, kind: Kind, cmd: Cmd)
    requires Proper(c)
    ensures multiset(SentSoFar(c, me, {me, Primary(c)}, kind, cmd, |c.endpoints|)) == ToOtherSubs(c, me, kind, cmd)
    ensures multiset(SentSoFar(c, me, {me}, kind, cmd, |c.endpoints|)) == ToOthers(c, me, kind, cmd)
  {
    var n := |c.endpoints|;
    assert c.endpoints[..n] == c.endpoints;
    assert SentSoFar(c, me, {me, Primary(c)}, kind, cmd, n)
        == set e | e in Subs(c) && e != me :: Message(kind, me, e, cmd);
    assert SentSoFar(c, me, {me}, kind, cmd, n) == set e | e in c.endpoints && e != me :: Message(kind, me, e, cmd);
  }

  // ----- The handlers -----

  /** How an executor rewrites a command, given the commands it has executed before. */
  type Rewriting = (seq<Cmd>, Cmd) -> Cmd

  /** The commands executed, each as the executor left it. */
  function Recorded(rewrite: Rewriting, executed: seq<Cmd>): seq<Cmd> {
    if executed == [] then []
    else
      var before := executed[..|executed| - 1];
      Recorded(rewrite, before) + [rewrite(before, executed[|executed| - 1])]
  }

  lemma RecordedNext(rewrite: Rewriting, executed: seq<Cmd>, cmd: Cmd)
    ensures Recorded(rewrite, executed + [cmd]) == Recorded(rewrite, executed) + [rewrite(executed, cmd)]
  {
    assert (executed + [cmd])[..|executed|] == executed;
  }

  /** A node: the fields its handlers update, what it has executed, and the messages it has sent. */
  class RbftNode {
    const cluster: Cluster
    const me: Endpoint
    const rewrite: Rewriting
    var toBeConfirmed: map<Cmd, set<Endpoint>>
    var toBeCommitted: map<Cmd, set<Endpoint>>
    var executed: seq<Cmd>
    var commandHistory: seq<Cmd>
    var sent: multiset<Message>

    ghost function View(): Node
      reads this
    {
      Node(toBeConfirmed, toBeCommitted, executed)
    }

    /** The history holds what was executed, as rewritten. */
    ghost predicate Kept()
      reads this
    {
      Proper(cluster) && commandHistory == Recorded(rewrite, executed)
    }

    constructor (cluster: Cluster, me: Endpoint, rewrite: Rewriting)
      requires Proper(cluster)
      ensures this.cluster == cluster && this.me == me && this.rewrite == rewrite
      ensures Kept() && View() == FRESH && sent == multiset{}
    {
      this.cluster, this.me, this.rewrite := cluster, me, rewrite;
      toBeConfirmed, toBeCommitted, executed, commandHistory, sent := map[], map[], [], [], multiset{};
    }

    /** `boardcast_to_other_subs`: one message to each member that is neither this node nor the primary. */
    method BroadcastToOtherSubs(kind: Kind, cmd: Cmd)
      requires Proper(cluster)
      modifies this`sent
      ensures sent == old(sent) + ToOtherSubs(cluster, me, kind, cmd)
    {
      ghost var skip := {me, Primary(cluster)};
      for i := 0 to |cluster.endpoints|
        invariant sent == old(sent) + multiset(SentSoFar(cluster, me, skip, kind, cmd, i))
      {
        var sub := cluster.endpoints[i];
        SendOneMore(cluster, me, skip, kind, cmd, i);
        if sub != me && sub != Primary(cluster) {
          sent := sent + multiset{Message(kind, me, sub, cmd)};
        }
      }
      AllSent(cluster, me, kind, cmd);
    }

    /** `boardcast_to_others`: one message to each other member. */
    method BroadcastToOthers(kind: Kind, cmd: Cmd)
      requires Proper(cluster)
      modifies this`sent
      ensures sent == old(sent) + ToOthers(cluster, me, kind, cmd)
    {
      for i := 0 to |cluster.endpoints|
        invariant sent == old(sent) + multiset(SentSoFar(cluster, me, {me}, kind, cmd, i))
      {
        var node := cluster.endpoints[i];
        SendOneMore(cluster, me, {me}, kind, cmd, i);
        if node != me {
          sent := sent + multiset{Message(kind, me, node, cmd)};
        }
      }
      AllSent(cluster, me, kind, cmd);
    }

    /** `finally_execute_it`: the executor may rewrite the command before it is recorded. */
    method FinallyExecute(cmd: Cmd)
      requires Kept()
      modifies this`executed, this`commandHistory
      ensures Kept() && executed == old(executed) + [cmd]
    {
      RecordedNext(rewrite, executed, cmd);
      var rewritten := rewrite(executed, cmd);
      executed := executed + [cmd];
      commandHistory := commandHistory + [rewritten];
    }

    method AddToBeCommitted(endpoint: Endpoint, cmd: Cmd)
      requires Kept()
      modifies this`toBeCommitted, this`executed, this`commandHistory
      ensures Kept() && View() == CountCommit(cluster, old(View()), endpoint, cmd)
    {
      if cmd !in toBeCommitted {
        toBeCommitted := toBeCommitted[cmd := {}];
      }
      var votes := toBeCommitted[cmd] + {endpoint};
      toBeCommitted := toBeCommitted[cmd := votes];
      if |votes| >= Quorum(cluster) {
        FinallyExecute(cmd);
        toBeCommitted := toBeCommitted - {cmd};
      }
    }

    method AddToBeConfirmed(endpoint: Endpoint, cmd: Cmd)
      requires Kept()
      modifies this
      ensures Kept()
      ensures var r := CountConfirm(cluster, me, old(View()), endpoint, cmd);
              View() == r.0 && sent == old(sent) + r.1
    {
      hide ToOtherSubs, Primary, Recorded;
      if cmd !in toBeConfirmed {
        toBeConfirmed := toBeConfirmed[cmd := {}];
      }
      var votes := toBeConfirmed[cmd] + {endpoint};
      toBeConfirmed := toBeConfirmed[cmd := votes];
      if |votes| >= Quorum(cluster) {
        BroadcastToOtherSubs(Commit, cmd);
        AddToBeCommitted(me, cmd);
        toBeConfirmed := toBeConfirmed - {cmd};
        assert toBeConfirmed == old(toBeConfirmed) - {cmd};
      }
    }

    /** The handler of the primary, which executes at once. */
    method HandleExecute(m: Message)
      requires Kept()
      modifies this
      ensures Kept()
      ensures var r := HandleAsPrimary(cluster, me, old(View()), m);
              View() == r.0 && sent == old(sent) + r.1
    {
      hide ToOthers, Recorded;
      if m.kind == Execute {
        FinallyExecute(m.cmd);
        BroadcastToOthers(Execute, m.cmd);
      }
    }

    /** The three message handlers of a sub. */
    method Handle(m: Message)
      requires Kept()
      modifies this
      ensures Kept()
      ensures var r := HandleAsSub(cluster, me, old(View()), m);
              View() == r.0 && sent == old(sent) + r.1
    {
      match m.kind
      case Execute =>
        if m.from == Primary(cluster) {
          BroadcastToOtherSubs(Confirm, m.cmd);
          AddToBeConfirmed(me, m.cmd);
        } else {
          sent := sent + multiset{Message(Execute, me, Primary(cluster), m.cmd)};
        }
      case Confirm => AddToBeConfirmed(m.from, m.cmd);
      case Commit => AddToBeCommitted(m.from, m.cmd);
    }
  }
}
