/** The view-change handlers of an RBFT node (pure-rbft.hpp). */
module RbftViewChange {
  import opened Options
  import opened Rbft
  import opened RbftMembership

  datatype Role = Newcomer | Sub | Leader

  /** The laid-down messages collected, by epoch and state. */
  type LaidDownHistory = map<nat, map<string, seq<string>>>

  function Collected(h: LaidDownHistory, msg: LaidDown): seq<string> {
    if msg.epoch in h && msg.state in h[msg.epoch] then h[msg.epoch][msg.state] else []
  }

  /** Every message is filed under what it says, once. */
  ghost predicate HistoryOk(codec: Codec, h: LaidDownHistory) {
    forall msg :: ListOk(codec, Collected(h, msg), msg)
  }

  ghost predicate ListOk(codec: Codec, l: seq<string>, msg: LaidDown) {
    && (forall i :: 0 <= i < |l| ==> Read(codec, l[i]).Some? && Read(codec, l[i]).value.1 == msg)
    && (forall i, j :: 0 <= i < j < |l| ==> l[i] != l[j])
  }

  /** The list for `msg` becomes `l`. */
  function Filed(h: LaidDownHistory, msg: LaidDown, l: seq<string>): (r: LaidDownHistory)
    ensures Collected(r, msg) == l && forall other :: other != msg ==> Collected(r, other) == Collected(h, other)
  {
    h[msg.epoch := (if msg.epoch in h then h[msg.epoch] else map[])[msg.state := l]]
  }

  /** A collected list is accepted by the subs as soon as enough different nodes signed it. */
  lemma CollectedIsCertificate(codec: Codec, endpoints: seq<Endpoint>, l: seq<string>, msg: LaidDown)
    requires |endpoints| > 0 && l != [] && ListOk(codec, l, msg) && msg.state == STATE
    ensures CertOk(codec, endpoints, l, msg.epoch, false) <==>
              |Signers(codec, l)| >= |endpoints| - Faults(Cluster(endpoints, 0))
  {
    hide Signers, Faults;
  }

  /** The join requests a certificate carries: none when none of them verifies. */
  function Requests(codec: Codec, sigs: seq<string>): (r: seq<string>)
    ensures Newcomers(codec, r) == Newcomers(codec, sigs)
  {
    if Newcomers(codec, sigs) == [] then [] else sigs
  }

  /** What the newcomers of a certificate get: the same with the commands executed so far. */
  function Welcome(codec: Codec, c: Certificate, cmds: seq<Cmd>): Option<Certificate> {
    if Newcomers(codec, c.sigs) == [] then None else Some(c.(cmds := cmds))
  }

  class ViewNode {
    const codec: Codec
    const me: Endpoint
    const rewrite: Rewriting
    var endpoints: seq<Endpoint>
    var epoch: nat
    var laidDown: LaidDownHistory
    var toBeAdded: seq<string>
    var history: seq<Cmd>
    var role: Role
    var viewChange: bool

    ghost predicate Valid()
      reads this
    {
      |endpoints| > 0 && Ascending(toBeAdded) && HistoryOk(codec, laidDown)
    }

    ghost function Now(): View
      reads this
    {
      View(endpoints, epoch)
    }

    constructor (codec: Codec, me: Endpoint, rewrite: Rewriting, endpoints: seq<Endpoint>)
      requires |endpoints| > 0
      ensures Valid() && Now() == View(endpoints, 0)
      ensures this.codec == codec && this.me == me && this.rewrite == rewrite
    {
      this.codec, this.me, this.rewrite, this.endpoints := codec, me, rewrite, endpoints;
      epoch, laidDown, toBeAdded, history, viewChange := 0, map[], [], [], false;
      role := if me !in endpoints then Newcomer else if endpoints[0] == me then Leader else Sub;
    }

    /** `handle_add_new_node_no_boardcast`. */
    method HandleAddNewNode(data: string)
      requires Valid()
      modifies this`toBeAdded
      ensures Valid() && forall x :: x in toBeAdded <==> x in old(toBeAdded) || x == data
    {
      InsertAscending(toBeAdded, data);
      InsertContents(toBeAdded, data);
      toBeAdded := Insert(toBeAdded, data);
    }

    /** Adds the newcomers to the list, after re-basing the epoch on the list before. */
    method Grow(e: nat, sigs: seq<string>)
      requires |endpoints| > 0
      modifies this`epoch, this`endpoints
      ensures Now() == Grown(codec, old(Now()), Certificate(e, [], sigs, []))
    {
      var newcomers := GetNewcomers(codec, sigs);
      NewcomersCanonical(codec, sigs, newcomers);
      epoch := Rebased(e, |endpoints|, |newcomers|);
      for i := 0 to |newcomers|
        invariant endpoints == old(endpoints) + newcomers[..i] && epoch == Rebased(e, |old(endpoints)|, |newcomers|)
      {
        endpoints := endpoints + [newcomers[i]];
      }
    }

    /** `try_to_be_primary`, for a node whose turn it is: the certificate for the members and, if there are newcomers,
        the one for them, which also holds the commands so far. None if its state differs. */
    method TryToBePrimary(e: nat, state: string, list: seq<string>)
      returns (c: Option<Certificate>, welcome: Option<Certificate>)
      requires Valid() && endpoints[e % |endpoints|] == me
      modifies this
      ensures Valid() && laidDown == old(laidDown) && history == old(history)
      ensures c.Some? <==> state == STATE
      ensures c.None? ==> unchanged(this) && welcome == None
      ensures c.Some? ==>
                && c.value == Certificate(e, list, Requests(codec, old(toBeAdded)), [])
                && welcome == Welcome(codec, c.value, history) && Now() == Grown(codec, old(Now()), c.value)
                && toBeAdded == [] && role == Leader && !viewChange && Primary(Cluster(endpoints, epoch)) == me
    {
      c, welcome := None, None;
      if state != STATE {
        return;
      }
      var sigs := toBeAdded;
      toBeAdded := [];
      var newcomers := GetNewcomers(codec, sigs);
      NewcomersCanonical(codec, sigs, newcomers);
      var m := Certificate(e, list, if newcomers == [] then [] else sigs, []);
      Grow(e, m.sigs);
      c := Some(m);
      if newcomers != [] {
        welcome := Some(m.(cmds := history));
      }
      role, viewChange := Leader, false;
      GrownPrimary(codec, old(Now()), m);
    }

    /** `remember_this_laiddown_and_be_primary_maybe`. */
    method RememberLaidDown(msg: LaidDown, data: string) returns (c: Option<Certificate>, welcome: Option<Certificate>)
      requires Valid() && Read(codec, data).Some? && Read(codec, data).value.1 == msg
      requires endpoints[msg.epoch % |endpoints|] == me
      modifies this
      ensures Valid() && history == old(history)
      ensures var list := Collected(old(laidDown), msg);
              var enough := |list| + 1 >= |old(endpoints)| - Faults(Cluster(old(endpoints), 0));
              && (c.Some? <==> data !in list && enough && msg.state == STATE)
              && Collected(laidDown, msg) == (if data in list then list else list + [data])
              && (forall other :: other != msg ==> Collected(laidDown, other) == Collected(old(laidDown), other))
      ensures c.None? ==> Now() == old(Now()) && toBeAdded == old(toBeAdded) && role == old(role) && welcome == None
                          && viewChange == old(viewChange)
      ensures c.Some? ==>
                && !viewChange
                && c.value == Certificate(msg.epoch, Collected(laidDown, msg), Requests(codec, old(toBeAdded)), [])
                && welcome == Welcome(codec, c.value, history)
                && Now() == Grown(codec, old(Now()), c.value) && role == Leader
                && (CertOk(codec, old(endpoints), c.value.laidDown, msg.epoch, false) <==>
                      |Signers(codec, c.value.laidDown)| >= |old(endpoints)| - Faults(Cluster(old(endpoints), 0)))
    {
      hide Signers, Faults, CertOk, Primary, Grown, Requests, Welcome;
      var list := Collected(laidDown, msg);
      assert ListOk(codec, list, msg);
      c, welcome := None, None;
      if data in list {
        return;
      }
      list := list + [data];
      laidDown := Filed(laidDown, msg, list);
      assert ListOk(codec, list, msg);
      if |list| >= |endpoints| - Faults(Cluster(endpoints, 0)) {
        c, welcome := TryToBePrimary(msg.epoch, msg.state, list);
        if c.Some? {
          CollectedIsCertificate(codec, old(endpoints), list, msg);
        }
      }
    }

    /** `trigger_view_change`: the node asks for the next view, `data` being its signed request. It sends that to the
        node whose turn it is, or files it itself when its own turn has come. */
    method TriggerViewChange(data: string)
      returns (sent: Option<Endpoint>, c: Option<Certificate>, welcome: Option<Certificate>)
      requires Valid() && Read(codec, data) == Some((me, LaidDown(epoch + 1, STATE)))
      modifies this
      ensures Valid() && history == old(history)
      ensures var next := old(endpoints)[(old(epoch) + 1) % |old(endpoints)|];
              && sent == (if next == me then None else Some(next))
              && (next != me ==> c.None? && laidDown == old(laidDown))
              && (next == me ==>
                    var msg := LaidDown(old(epoch) + 1, STATE);
                    var list := Collected(old(laidDown), msg);
                    && Collected(laidDown, msg) == (if data in list then list else list + [data])
                    && (c.Some? <==> data !in list
                                     && |list| + 1 >= |old(endpoints)| - Faults(Cluster(old(endpoints), 0))))
      ensures c.None? ==> Now() == Apply(codec, old(Now()), Timeout) && viewChange && role == old(role)
                          && toBeAdded == old(toBeAdded) && welcome == None
      ensures c.Some? ==> Now() == Apply(codec, old(Now()), Lead(c.value)) && c.value.epoch == old(epoch) + 1
                          && role == Leader && !viewChange && welcome == Welcome(codec, c.value, history)
    {
      hide Faults, CertOk, Requests, Welcome, Newcomers, Rebased;
      epoch, viewChange := epoch + 1, true;
      var next := endpoints[epoch % |endpoints|];
      sent, c, welcome := None, None, None;
      if next == me {
        c, welcome := RememberLaidDown(LaidDown(epoch, STATE), data);
      } else {
        sent := Some(next);
      }
    }

    /** `handle_laid_down`: what does not verify, is too old or is for another node is ignored. */
    method HandleLaidDown(data: string) returns (c: Option<Certificate>, welcome: Option<Certificate>)
      requires Valid()
      modifies this
      ensures Valid() && history == old(history)
      ensures var r := Read(codec, data);
              r.None? || r.value.1.epoch < old(epoch) || old(endpoints)[r.value.1.epoch % |old(endpoints)|] != me
              ==> c.None? && unchanged(this)
      ensures var r := Read(codec, data);
              r.Some? && r.value.1.epoch >= old(epoch) && old(endpoints)[r.value.1.epoch % |old(endpoints)|] == me ==>
                var msg, list := r.value.1, Collected(old(laidDown), r.value.1);
                && Collected(laidDown, msg) == (if data in list then list else list + [data])
                && (c.Some? <==> data !in list && msg.state == STATE
                                 && |list| + 1 >= |old(endpoints)| - Faults(Cluster(old(endpoints), 0)))
      ensures c.Some? ==> Now() == Grown(codec, old(Now()), c.value) && c.value.epoch >= old(epoch)
                          && welcome == Welcome(codec, c.value, history)
      ensures c.None? ==> Now() == old(Now()) && toBeAdded == old(toBeAdded) && role == old(role) && welcome == None
    {
      hide Faults, CertOk, Grown, Requests, Welcome;
      var r := Read(codec, data);
      if r.None? || r.value.1.epoch < epoch || endpoints[r.value.1.epoch % |endpoints|] != me {
        return None, None;
      }
      c, welcome := RememberLaidDown(r.value.1, data);
    }

    /** Whether some newcomer is a member already. */
    method HasOld(newcomers: seq<Endpoint>) returns (b: bool)
      ensures b <==> exists x :: x in newcomers && x in endpoints
    {
      for i := 0 to |newcomers|
        invariant forall k :: 0 <= k < i ==> newcomers[k] !in endpoints
      {
        if newcomers[i] in endpoints {
          return true;
        }
      }
      return false;
    }

    /** `handle_new_primary`. */
    method HandleNewPrimary(c: Certificate)
      requires Valid()
      modifies this
      ensures Valid() && Now() == AsSub(codec, old(Now()), c) && history == old(history)
      ensures if && old(Fresh(codec, Now(), c)) && old(epoch) <= c.epoch
                 && CertOk(codec, old(endpoints), c.laidDown, c.epoch, false)
              then laidDown == map[] && toBeAdded == [] && role == Sub && !viewChange
              else unchanged(this)
    {
      hide CertOk;
      var newcomers := GetNewcomers(codec, c.sigs);
      NewcomersCanonical(codec, c.sigs, newcomers);
      var known := HasOld(newcomers);
      if known || epoch > c.epoch {
        return;
      }
      var ok := CheckCert(codec, endpoints, c.laidDown, c.epoch, false);
      if ok {
        Grow(c.epoch, c.sigs);
        laidDown, toBeAdded, role, viewChange := map[], [], Sub, false;
      }
    }

    /** The loop of a newcomer over the commands it is sent, each of which the executor may rewrite. */
    method ExecuteAll(cmds: seq<Cmd>) returns (left: seq<Cmd>)
      ensures left == Recorded(rewrite, cmds)
    {
      left := [];
      for i := 0 to |cmds|
        invariant left == Recorded(rewrite, cmds[..i])
      {
        RecordedNext(rewrite, cmds[..i], cmds[i]);
        assert cmds[..i + 1] == cmds[..i] + [cmds[i]];
        left := left + [rewrite(cmds[..i], cmds[i])];
      }
      assert cmds[..|cmds|] == cmds;
    }

    /** `handle_new_primary_for_newcomer`: fails, after the update, when the certificate is for other nodes. */
    method HandleNewPrimaryForNewcomer(c: Certificate) returns (ok: bool)
      requires Valid()
      modifies this
      ensures Valid() && Now() == AsNewcomer(codec, old(Now()), c)
      ensures ok <==> CertOk(codec, old(endpoints), c.laidDown, c.epoch, true)
                      && (me in old(endpoints) || me in Newcomers(codec, c.sigs))
      ensures if ok then history == Recorded(rewrite, c.cmds) && role == Sub && !viewChange
              else history == old(history) && role == old(role)
    {
      hide CertOk;
      ok := CheckCert(codec, endpoints, c.laidDown, c.epoch, true);
      if ok {
        Grow(c.epoch, c.sigs);
        ok := me in endpoints;
        if ok {
          var cmds := ExecuteAll(c.cmds);
          history, role, viewChange := cmds, Sub, false;
        }
      }
    }
  }
}
