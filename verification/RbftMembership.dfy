/** RBFT view changes (pure-rbft.hpp): collecting laid-down messages, checking new-view certificates, adding newcomers
    and re-basing the epoch. */
module RbftMembership {
  import opened Rbft
  import opened Options

  /** A laid-down message: the view its sender asks for and the state it is in. */
  datatype LaidDown = LaidDown(epoch: nat, state: string)

  datatype Signed = Signed(from: Endpoint, text: string)

  /** Signature checking (`tear_msg_open`) and message parsing. */
  datatype Codec = Codec(open: string -> Option<Signed>, parse: string -> Option<LaidDown>)

  /** `NewViewCertificate`. */
  datatype Certificate = Certificate(epoch: nat, laidDown: seq<string>, sigs: seq<string>, cmds: seq<Cmd>)

  /** `cmds_to_state` does not depend on the commands. */
  const STATE := "<mocked-state>"

  // ----- Sorted sets of strings -----

  /** The order of `std::string`. */
  predicate Less(a: string, b: string) {
    b != [] && (a == [] || a[0] < b[0] || (a[0] == b[0] && Less(a[1..], b[1..])))
  }

  lemma {:induction false} LessTotal(a: string, b: string)
    ensures a == b || Less(a, b) || Less(b, a)
    ensures !(Less(a, b) && Less(b, a)) && !Less(a, a)
  {
    if a != [] {
      LessTotal(a[1..], if b != [] then b[1..] else []);
      LessTotal(a[1..], a[1..]);
      assert b != [] ==> (a == b <==> a[0] == b[0] && a[1..] == b[1..]) by {
        assert a == [a[0]] + a[1..] && (b != [] ==> b == [b[0]] + b[1..]);
      }
    }
  }

  /** `a` and `b` agree up to `k`, where `a` has ended or has the smaller character. */
  ghost predicate SmallerAt(a: string, b: string, k: int) {
    0 <= k <= |a| && k < |b| && a[..k] == b[..k] && (k == |a| || a[k] < b[k])
  }

  /** The order is that of the dictionary. */
  lemma {:induction false} LessIs(a: string, b: string)
    ensures Less(a, b) <==> exists k :: SmallerAt(a, b, k)
  {
    if a == [] {
      assert b != [] ==> SmallerAt(a, b, 0);
    } else if b != [] {
      var x, y := a[1..], b[1..];
      LessIs(x, y);
      if a[0] < b[0] {
        assert SmallerAt(a, b, 0);
      } else if Less(a, b) {
        var k :| SmallerAt(x, y, k);
        assert a[..k + 1] == [a[0]] + x[..k] && b[..k + 1] == [b[0]] + y[..k];
        assert SmallerAt(a, b, k + 1);
      }
      if k :| SmallerAt(a, b, k) && k > 0 {
        assert a[0] == a[..k][0] == b[..k][0] == b[0];
        assert x[..k - 1] == a[..k][1..] && y[..k - 1] == b[..k][1..];
        assert SmallerAt(x, y, k - 1);
      }
    }
  }

  lemma {:induction false} LessTransitive(a: string, b: string, c: string)
    requires Less(a, b) && Less(b, c)
    ensures Less(a, c)
  {
    if a != [] && a[0] == b[0] && b[0] == c[0] {
      LessTransitive(a[1..], b[1..], c[1..]);
    }
  }

  /** The elements of a `std::set<string>` in iteration order. */
  ghost predicate Ascending(s: seq<string>) {
    forall i, j :: 0 <= i < j < |s| ==> Less(s[i], s[j])
  }

  /** `std::set::insert`. */
  function Insert(s: seq<string>, x: string): (r: seq<string>) {
    if s == [] then [x]
    else if s[0] == x then s
    else if Less(x, s[0]) then [x] + s
    else [s[0]] + Insert(s[1..], x)
  }

  lemma {:induction false} InsertContents(s: seq<string>, x: string)
    ensures forall y :: y in Insert(s, x) <==> y in s || y == x
  {
    if s != [] {
      InsertContents(s[1..], x);
      assert s == [s[0]] + s[1..];
    }
  }

  lemma {:induction false} InsertAscending(s: seq<string>, x: string)
    requires Ascending(s)
    ensures Ascending(Insert(s, x))
  {
    if s != [] {
      var r := Insert(s, x);
      LessTotal(x, s[0]);
      if Less(x, s[0]) {
        forall j | 0 <= j < |s|
          ensures Less(x, s[j])
        {
          if j > 0 {
            LessTransitive(x, s[0], s[j]);
          }
        }
      } else if s[0] != x {
        InsertAscending(s[1..], x);
        InsertContents(s[1..], x);
        forall j | 1 <= j < |r|
          ensures Less(r[0], r[j])
        {
          assert r[j] in Insert(s[1..], x);
        }
      }
    }
  }

  lemma HeadOnce(s: seq<string>, x: string)
    requires Ascending(s) && s != []
    ensures x in s[1..] <==> x in s && x != s[0]
  {
    LessTotal(s[0], s[0]);
    assert s == [s[0]] + s[1..];
  }

  /** A set has one ascending listing. */
  lemma {:induction false} AscendingUnique(s: seq<string>, t: seq<string>)
    requires Ascending(s) && Ascending(t) && (forall x :: x in s <==> x in t)
    ensures s == t
  {
    assert s != [] ==> s[0] in t;
    assert t != [] ==> t[0] in s;
    if s != [] {
      if s[0] != t[0] {
        LessTotal(s[0], t[0]);
        assert false;
      }
      forall x
        ensures x in s[1..] <==> x in t[1..]
      {
        HeadOnce(s, x);
        HeadOnce(t, x);
      }
      AscendingUnique(s[1..], t[1..]);
      assert s == [s[0]] + s[1..] && t == [t[0]] + t[1..];
    }
  }

  // ----- Newcomers -----

  /** The signers of the join requests that verify. */
  ghost predicate Verified(codec: Codec, sigs: seq<string>, x: Endpoint) {
    exists sig :: sig in sigs && codec.open(sig).Some? && codec.open(sig).value.from == x
  }

  /** `get_newcommers`: exactly the verified signers, each once, in ascending order. */
  method GetNewcomers(codec: Codec, sigs: seq<string>) returns (r: seq<Endpoint>)
    ensures Ascending(r) && forall x :: x in r <==> Verified(codec, sigs, x)
  {
    r := [];
    for i := 0 to |sigs|
      invariant Ascending(r)
      invariant forall x :: x in r <==> Verified(codec, sigs[..i], x)
    {
      assert sigs[..i + 1] == sigs[..i] + [sigs[i]];
      var torn := codec.open(sigs[i]);
      if torn.Some? {
        InsertAscending(r, torn.value.from);
        InsertContents(r, torn.value.from);
        r := Insert(r, torn.value.from);
        assert Verified(codec, sigs[..i + 1], torn.value.from);
      }
    }
    assert sigs[..|sigs|] == sigs;
  }

  /** The newcomers of a certificate. */
  function Newcomers(codec: Codec, sigs: seq<string>): (r: seq<Endpoint>) {
    if sigs == [] then []
    else
      var before, torn := Newcomers(codec, sigs[..|sigs| - 1]), codec.open(sigs[|sigs| - 1]);
      if torn.Some? then Insert(before, torn.value.from) else before
  }

  lemma {:induction false} NewcomersAre(codec: Codec, sigs: seq<string>)
    ensures Ascending(Newcomers(codec, sigs)) && forall x :: x in Newcomers(codec, sigs) <==> Verified(codec, sigs, x)
  {
    if sigs != [] {
      var before, last := sigs[..|sigs| - 1], sigs[|sigs| - 1];
      NewcomersAre(codec, before);
      assert sigs == before + [last];
      if codec.open(last).Some? {
        InsertAscending(Newcomers(codec, before), codec.open(last).value.from);
        InsertContents(Newcomers(codec, before), codec.open(last).value.from);
        assert Verified(codec, sigs, codec.open(last).value.from);
      }
    }
  }

  /** Newcomers do not depend on the order or the repetition of the join requests. */
  lemma NewcomersCanonical(codec: Codec, sigs: seq<string>, r: seq<Endpoint>)
    requires Ascending(r) && forall x :: x in r <==> Verified(codec, sigs, x)
    ensures r == Newcomers(codec, sigs)
  {
    NewcomersAre(codec, sigs);
    AscendingUnique(r, Newcomers(codec, sigs));
  }

  lemma {:induction false} AscendingDistinct(s: seq<string>, i: nat, j: nat)
    requires Ascending(s) && i < j < |s|
    ensures s[i] != s[j]
  {
    LessTotal(s[i], s[i]);
  }

  // ----- Certificates -----

  /** A signed laid-down message that verifies and parses. */
  function Read(codec: Codec, data: string): Option<(Endpoint, LaidDown)> {
    var torn := codec.open(data);
    if torn.None? then None
    else
      var msg := codec.parse(torn.value.text);
      if msg.None? then None else Some((torn.value.from, msg.value))
  }

  ghost function Signers(codec: Codec, l: seq<string>): set<Endpoint> {
    set data | data in l && Read(codec, data).Some? :: Read(codec, data).value.0
  }

  /** A signer is who signed a message that verifies and whose text parses. */
  lemma SignersAre(codec: Codec, l: seq<string>, x: Endpoint)
    ensures x in Signers(codec, l) <==>
              exists data :: && data in l && codec.open(data).Some? && codec.open(data).value.from == x
                             && codec.parse(codec.open(data).value.text).Some?
  {
    assert forall data :: codec.open(data).Some? && codec.parse(codec.open(data).value.text).Some? ==>
             Read(codec, data) == Some((codec.open(data).value.from, codec.parse(codec.open(data).value.text).value));
  }

  lemma SignersAppend(codec: Codec, l: seq<string>, data: string)
    requires Read(codec, data).Some?
    ensures Signers(codec, l + [data]) == Signers(codec, l) + {Read(codec, data).value.0}
  {
    hide Read;
    assert forall x :: x in l + [data] <==> x in l || x == data;
  }

  lemma NoSigners(codec: Codec)
    ensures Signers(codec, []) == {}
  {
  }

  /** What `check_cert` accepts. The epoch of the first message is not looked at. */
  ghost predicate CertOk(codec: Codec, endpoints: seq<Endpoint>, l: seq<string>, e: nat, forNewcomer: bool) {
    && |endpoints| > 0 && l != [] && Read(codec, l[0]).Some?
    && (forall i :: 0 <= i < |l| ==> Read(codec, l[i]).Some?)
    && (forall i :: 0 <= i < |l| ==>
          Read(codec, l[i]).value.1.state == if forNewcomer then Read(codec, l[0]).value.1.state else STATE)
    && (forall i :: 1 <= i < |l| ==> Read(codec, l[i]).value.1.epoch == e)
    && |Signers(codec, l)| >= |endpoints| - Faults(Cluster(endpoints, 0))
  }

  /** A certificate the subs accept is one the newcomers accept. */
  lemma SubsAreStricter(codec: Codec, endpoints: seq<Endpoint>, l: seq<string>, e: nat)
    requires CertOk(codec, endpoints, l, e, false)
    ensures CertOk(codec, endpoints, l, e, true)
  {
  }

  /** What `check_cert` is documented to accept: the epochs of all messages equal the certificate's. */
  ghost predicate DocumentedOk(codec: Codec, endpoints: seq<Endpoint>, l: seq<string>, e: nat, forNewcomer: bool) {
    CertOk(codec, endpoints, l, e, forNewcomer) && forall i :: 0 <= i < |l| ==> Read(codec, l[i]).value.1.epoch == e
  }

  /** The check does what it is documented to do exactly for certificates whose first epoch is right. */
  lemma DocumentedIff(codec: Codec, endpoints: seq<Endpoint>, l: seq<string>, e: nat, forNewcomer: bool)
    ensures DocumentedOk(codec, endpoints, l, e, forNewcomer) <==>
              CertOk(codec, endpoints, l, e, forNewcomer) && Read(codec, l[0]).value.1.epoch == e
  {
    hide Signers, Faults;
  }

  /** A codec in which every string is signed by the node of that name, and holds that name and an exclamation mark;
      node "a" asks for epoch 7, the others for epoch 1. */
  function Sample(): Codec {
    Codec((data: string) => Some(Signed(data, data + "!")),
          (text: string) => Some(LaidDown(if text == "a!" then 7 else 1, "<mocked-state>")))
  }

  lemma SampleSigners()
    ensures Signers(Sample(), ["a", "b"]) == {"a", "b"}
  {
    hide Signers;
    assert ["a", "b"] == ["a"] + ["b"] && ["a"] == [] + ["a"];
    NoSigners(Sample());
    SignersAppend(Sample(), [], "a");
    SignersAppend(Sample(), ["a"], "b");
  }

  lemma SampleAccepted()
    ensures CertOk(Sample(), ["a", "b"], ["a", "b"], 1, false)
  {
    hide Signers;
    SampleSigners();
    Pair("a", "b");
    assert "b" + "!" == "b!" && "b!"[0] != "a!"[0];
  }

  lemma Pair(x: Endpoint, y: Endpoint)
    requires x != y
    ensures |{x, y}| == 2
  {
  }

  /** A certificate for epoch 1 that is accepted although its first message is for epoch 7. */
  lemma FirstEpochIgnored()
    ensures CertOk(Sample(), ["a", "b"], ["a", "b"], 1, false)
    ensures Read(Sample(), "a").Some? && Read(Sample(), "a").value.1.epoch == 7
    ensures !DocumentedOk(Sample(), ["a", "b"], ["a", "b"], 1, false)
  {
    hide Signers, Faults, CertOk;
    SampleAccepted();
    assert ["a", "b"][0] == "a";
  }

  /** `check_cert`. */
  method CheckCert(codec: Codec, endpoints: seq<Endpoint>, l: seq<string>, e: nat, forNewcomer: bool) returns (ok: bool)
    requires |endpoints| > 0
    ensures ok == CertOk(codec, endpoints, l, e, forNewcomer)
  {
    hide Signers, Faults;
    if |l| == 0 || Read(codec, l[0]).None? {
      return false;
    }
    var first := Read(codec, l[0]).value;
    var hosts := {first.0};
    if !forNewcomer && first.1.state != STATE {
      return false;
    }
    var state := if forNewcomer then first.1.state else STATE;
    assert l[..1] == [] + [l[0]];
    SignersAppend(codec, [], l[0]);
    NoSigners(codec);
    for i := 1 to |l|
      invariant hosts == Signers(codec, l[..i])
      invariant forall k :: 0 <= k < i ==> Read(codec, l[k]).Some? && Read(codec, l[k]).value.1.state == state
      invariant forall k :: 1 <= k < i ==> Read(codec, l[k]).value.1.epoch == e
    {
      var msg := Read(codec, l[i]);
      if msg.None? || msg.value.1.state != state || msg.value.1.epoch != e {
        return false;
      }
      assert l[..i + 1] == l[..i] + [l[i]];
      SignersAppend(codec, l[..i], l[i]);
      hosts := hosts + {msg.value.0};
    }
    assert l[..|l|] == l;
    return |hosts| >= |endpoints| - Faults(Cluster(endpoints, 0));
  }

  // ----- What a certificate does to a node -----

  /** The membership and the view a node believes in. */
  datatype View = View(endpoints: seq<Endpoint>, epoch: nat)

  /** `epoch_considering_newcomers`. */
  function Rebased(e: nat, n: nat, k: nat): nat
    requires n > 0
  {
    e + e / n * k
  }

  /** Re-basing keeps the primary: the new epoch selects the same index in the longer list. */
  lemma RebasedSelects(e: nat, n: nat, k: nat)
    requires n > 0
    ensures Rebased(e, n, k) % (n + k) == e % n
  {
    var q, r := e / n, e % n;
    assert Rebased(e, n, k) == q * (n + k) + r by { assert q * (n + k) == q * n + q * k; }
    ModUnique(q, n + k, r);
  }

  lemma ModUnique(q: nat, m: nat, r: nat)
    requires r < m
    ensures (q * m + r) % m == r
  {
    var x := q * m + r;
    var q', r' := x / m, x % m;
    SmallMultiple(q - q', m) by {
      assert (q - q') * m == q * m - q' * m;
      assert x == q' * m + r';
    }
  }

  lemma SmallMultiple(d: int, m: nat)
    requires 0 - m < d * m < m
    ensures d == 0
  {
    if d > 0 {
      AtLeast(d, m);
    } else if d < 0 {
      AtLeast(-d, m);
    }
  }

  lemma AtLeast(d: int, m: nat)
    requires d > 0
    ensures d * m >= m
  {
  }

  /** Everyone follows the certificate: its newcomers join and the epoch is re-based on the list before. */
  function Grown(codec: Codec, v: View, c: Certificate): View
    requires |v.endpoints| > 0
  {
    var newcomers := Newcomers(codec, c.sigs);
    View(v.endpoints + newcomers, Rebased(c.epoch, |v.endpoints|, |newcomers|))
  }

  /** No newcomer is a member yet. */
  ghost predicate Fresh(codec: Codec, v: View, c: Certificate) {
    forall x :: x in Newcomers(codec, c.sigs) ==> x !in v.endpoints
  }

  /** `handle_new_primary`. */
  ghost function AsSub(codec: Codec, v: View, c: Certificate): View
    requires |v.endpoints| > 0
  {
    if Fresh(codec, v, c) && v.epoch <= c.epoch && CertOk(codec, v.endpoints, c.laidDown, c.epoch, false)
    then Grown(codec, v, c) else v
  }

  /** `handle_new_primary_for_newcomer`. */
  ghost function AsNewcomer(codec: Codec, v: View, c: Certificate): View
    requires |v.endpoints| > 0
  {
    if CertOk(codec, v.endpoints, c.laidDown, c.epoch, true) then Grown(codec, v, c) else v
  }

  /** The primary of the new view is the node the old list names for the certificate's epoch. */
  lemma GrownPrimary(codec: Codec, v: View, c: Certificate)
    requires |v.endpoints| > 0
    ensures var w := Grown(codec, v, c);
            Primary(Cluster(w.endpoints, w.epoch)) == v.endpoints[c.epoch % |v.endpoints|]
  {
    RebasedSelects(c.epoch, |v.endpoints|, |Newcomers(codec, c.sigs)|);
  }

  /** Fresh newcomers keep the members distinct. */
  lemma GrownProper(codec: Codec, v: View, c: Certificate)
    requires Proper(Cluster(v.endpoints, v.epoch)) && Fresh(codec, v, c)
    ensures var w := Grown(codec, v, c); Proper(Cluster(w.endpoints, w.epoch))
  {
    NewcomersAre(codec, c.sigs);
    var w, n := Grown(codec, v, c), |v.endpoints|;
    forall i, j | 0 <= i < j < |w.endpoints|
      ensures w.endpoints[i] != w.endpoints[j]
    {
      if i >= n {
        AscendingDistinct(Newcomers(codec, c.sigs), i - n, j - n);
      } else if j >= n {
        assert w.endpoints[j] in Newcomers(codec, c.sigs);
      }
    }
  }

  /** A new primary and a sub that gets its certificate in time end with the same list exactly when the newcomers are
      fresh: the sub refuses others, the primary does not check. */
  lemma AgreeIffFresh(codec: Codec, v: View, w: View, c: Certificate)
    requires |v.endpoints| > 0 && v.endpoints == w.endpoints && w.epoch <= c.epoch
    requires CertOk(codec, v.endpoints, c.laidDown, c.epoch, false)
    ensures Grown(codec, v, c).endpoints == AsSub(codec, w, c).endpoints <==> Fresh(codec, v, c)
  {
    if !Fresh(codec, v, c) {
      assert Newcomers(codec, c.sigs) != [];
      assert |Grown(codec, v, c).endpoints| > |w.endpoints|;
    }
  }

  /** A stale newcomer: node "a" asks to join a cluster it is a member of. The certificate is valid, the new primary
      adds "a" again, and the sub refuses. */
  lemma StaleNewcomer()
    ensures var v, c := View(["a", "b"], 0), Certificate(1, ["a", "b"], ["a"], []);
            && CertOk(Sample(), v.endpoints, c.laidDown, c.epoch, false) && !Fresh(Sample(), v, c)
            && Grown(Sample(), v, c).endpoints == ["a", "b", "a"] && AsSub(Sample(), v, c).endpoints == ["a", "b"]
  {
    hide CertOk, Rebased;
    SampleAccepted();
    assert ["a"][..0] == [];
    assert Newcomers(Sample(), ["a"]) == ["a"];
    assert "a" in ["a"] && "a" in ["a", "b"];
  }

  // ----- Whole runs -----

  /** A node's timer runs out, or it takes part in a view change in one of the three roles. */
  datatype Event = Timeout | Lead(c: Certificate) | Follow(c: Certificate) | Join(c: Certificate)

  ghost function Apply(codec: Codec, v: View, e: Event): View
    requires |v.endpoints| > 0
  {
    match e
    case Timeout => v.(epoch := v.epoch + 1)
    case Lead(c) => Grown(codec, v, c)
    case Follow(c) => AsSub(codec, v, c)
    case Join(c) => AsNewcomer(codec, v, c)
  }

  ghost function After(codec: Codec, v: View, events: seq<Event>): (w: View)
    requires |v.endpoints| > 0
    ensures |w.endpoints| > 0
  {
    if events == [] then v else Apply(codec, After(codec, v, events[..|events| - 1]), events[|events| - 1])
  }

  /** The certificates a node has processed. */
  function Certificates(events: seq<Event>): seq<Certificate> {
    if events == [] then []
    else
      var before, last := Certificates(events[..|events| - 1]), events[|events| - 1];
      if last.Timeout? then before else before + [last.c]
  }

  /** The endpoint list once every certificate has been followed. */
  function Members(codec: Codec, endpoints: seq<Endpoint>, certs: seq<Certificate>): (r: seq<Endpoint>)
    ensures |r| >= |endpoints|
  {
    if certs == [] then endpoints
    else Members(codec, endpoints, certs[..|certs| - 1]) + Newcomers(codec, certs[|certs| - 1].sigs)
  }

  /** Each certificate is valid and its newcomers are fresh when its turn comes. */
  ghost predicate Sound(codec: Codec, endpoints: seq<Endpoint>, certs: seq<Certificate>) {
    forall i :: 0 <= i < |certs| ==>
      var members := Members(codec, endpoints, certs[..i]);
      Fresh(codec, View(members, 0), certs[i]) && CertOk(codec, members, certs[i].laidDown, certs[i].epoch, false)
  }

  /** No sub has moved past the view of a certificate it gets. */
  ghost predicate InTime(codec: Codec, v: View, events: seq<Event>)
    requires |v.endpoints| > 0
  {
    forall i :: 0 <= i < |events| && events[i].Follow? ==> After(codec, v, events[..i]).epoch <= events[i].c.epoch
  }

  lemma PrefixSound(codec: Codec, endpoints: seq<Endpoint>, certs: seq<Certificate>, c: Certificate)
    requires Sound(codec, endpoints, certs + [c])
    ensures Sound(codec, endpoints, certs)
    ensures var members := Members(codec, endpoints, certs);
            Fresh(codec, View(members, 0), c) && CertOk(codec, members, c.laidDown, c.epoch, false)
  {
    hide Members, Fresh, CertOk;
    assert (certs + [c])[..|certs|] == certs;
    assert (certs + [c])[|certs|] == c;
    forall i | 0 <= i < |certs|
      ensures var members := Members(codec, endpoints, certs[..i]);
              && Fresh(codec, View(members, 0), certs[i])
              && CertOk(codec, members, certs[i].laidDown, certs[i].epoch, false)
    {
      assert (certs + [c])[..i] == certs[..i] && (certs + [c])[i] == certs[i];
    }
  }

  lemma PrefixInTime(codec: Codec, v: View, events: seq<Event>)
    requires |v.endpoints| > 0 && events != [] && InTime(codec, v, events)
    ensures InTime(codec, v, events[..|events| - 1])
  {
    hide After;
    var before := events[..|events| - 1];
    forall i | 0 <= i < |before| && before[i].Follow?
      ensures After(codec, v, before[..i]).epoch <= before[i].c.epoch
    {
      assert before[..i] == events[..i];
    }
  }

  /** The view once the last certificate has been followed. */
  function Settled(codec: Codec, endpoints: seq<Endpoint>, certs: seq<Certificate>): View
    requires |endpoints| > 0 && certs != []
  {
    var last := |certs| - 1;
    Grown(codec, View(Members(codec, endpoints, certs[..last]), 0), certs[last])
  }

  /** Whatever its roles and its timeouts, a node that gets the certificates in time ends with the same list, and a
      certificate also settles the epoch. */
  lemma {:induction false} RunFollows(codec: Codec, v: View, events: seq<Event>)
    requires |v.endpoints| > 0 && Sound(codec, v.endpoints, Certificates(events)) && InTime(codec, v, events)
    ensures After(codec, v, events).endpoints == Members(codec, v.endpoints, Certificates(events))
    ensures events != [] && !events[|events| - 1].Timeout? ==>
              Certificates(events) != [] && After(codec, v, events) == Settled(codec, v.endpoints, Certificates(events))
    decreases |events|
  {
    hide CertOk, Newcomers, Sound, InTime, Rebased, Primary, Fresh;
    if events != [] {
      var before, last := events[..|events| - 1], events[|events| - 1];
      var w := After(codec, v, before);
      PrefixInTime(codec, v, events);
      if last.Timeout? {
        RunFollows(codec, v, before);
      } else {
        var c := last.c;
        PrefixSound(codec, v.endpoints, Certificates(before), c);
        RunFollows(codec, v, before);
        SubsAreStricter(codec, w.endpoints, c.laidDown, c.epoch);
        AppendMembers(codec, v.endpoints, Certificates(before), c);
        SameFresh(codec, w, c);
        if last.Follow? {
          LastInTime(codec, v, events);
        }
        assert Apply(codec, w, last) == Grown(codec, w, c);
        assert (Certificates(before) + [c])[..|Certificates(before)|] == Certificates(before);
      }
    }
  }

  lemma AppendMembers(codec: Codec, endpoints: seq<Endpoint>, certs: seq<Certificate>, c: Certificate)
    ensures Members(codec, endpoints, certs + [c]) == Members(codec, endpoints, certs) + Newcomers(codec, c.sigs)
  {
    assert (certs + [c])[..|certs|] == certs;
  }

  lemma SameFresh(codec: Codec, v: View, c: Certificate)
    ensures Fresh(codec, v, c) <==> Fresh(codec, View(v.endpoints, 0), c)
  {
  }

  lemma LastInTime(codec: Codec, v: View, events: seq<Event>)
    requires |v.endpoints| > 0 && events != [] && InTime(codec, v, events) && events[|events| - 1].Follow?
    ensures After(codec, v, events[..|events| - 1]).epoch <= events[|events| - 1].c.epoch
  {
  }

  /** The list has the same history whether it is followed from the start or from a later moment. */
  lemma {:induction false} MembersSplit(codec: Codec, endpoints: seq<Endpoint>, earlier: seq<Certificate>,
                                        later: seq<Certificate>)
    ensures Members(codec, endpoints, earlier + later) == Members(codec, Members(codec, endpoints, earlier), later)
    decreases |later|
  {
    if later != [] {
      MembersSplit(codec, endpoints, earlier, later[..|later| - 1]);
      assert (earlier + later)[..|earlier + later| - 1] == earlier + later[..|later| - 1];
    } else {
      assert earlier + later == earlier;
    }
  }

  lemma SoundSplit(codec: Codec, endpoints: seq<Endpoint>, earlier: seq<Certificate>, later: seq<Certificate>)
    requires Sound(codec, endpoints, earlier + later)
    ensures Sound(codec, Members(codec, endpoints, earlier), later)
  {
    hide Members, Fresh, CertOk;
    forall i | 0 <= i < |later|
      ensures var members := Members(codec, Members(codec, endpoints, earlier), later[..i]);
              && Fresh(codec, View(members, 0), later[i])
              && CertOk(codec, members, later[i].laidDown, later[i].epoch, false)
    {
      MembersSplit(codec, endpoints, earlier, later[..i]);
      var k := |earlier| + i;
      assert (earlier + later)[..k] == earlier + later[..i] && (earlier + later)[k] == later[i];
    }
  }

  /** Replicas agree on the members: two nodes, the second of which may have started later from the list as it was then,
      that get the same certificates in time. When the last thing each did was to follow the last certificate, they also
      agree on the epoch and on the primary, which is the node the list before names for the certificate's epoch. */
  lemma ReplicasAgree(codec: Codec, v: View, w: View, es: seq<Event>, fs: seq<Event>, earlier: seq<Certificate>)
    requires |v.endpoints| > 0 && w.endpoints == Members(codec, v.endpoints, earlier)
    requires Certificates(es) == earlier + Certificates(fs) && Sound(codec, v.endpoints, Certificates(es))
    requires InTime(codec, v, es) && InTime(codec, w, fs)
    ensures After(codec, v, es).endpoints == After(codec, w, fs).endpoints
    ensures es != [] && fs != [] && !es[|es| - 1].Timeout? && !fs[|fs| - 1].Timeout? ==>
              var certs, a := Certificates(es), After(codec, v, es);
              && certs != [] && a == After(codec, w, fs)
              && var c, members := certs[|certs| - 1], Members(codec, v.endpoints, certs[..|certs| - 1]);
                 |members| > 0 && Primary(Cluster(a.endpoints, a.epoch)) == members[c.epoch % |members|]
  {
    hide Sound, InTime, Primary, Newcomers, After, Certificates, Members, Settled;
    var certs := Certificates(fs);
    RunFollows(codec, v, es);
    SoundSplit(codec, v.endpoints, earlier, certs);
    RunFollows(codec, w, fs);
    MembersSplit(codec, v.endpoints, earlier, certs);
    if es != [] && fs != [] && !es[|es| - 1].Timeout? && !fs[|fs| - 1].Timeout? {
      SettledSplit(codec, v.endpoints, earlier, certs);
    }
  }

  /** A later start settles in the same view, whose primary the list before names. */
  lemma SettledSplit(codec: Codec, endpoints: seq<Endpoint>, earlier: seq<Certificate>, certs: seq<Certificate>)
    requires |endpoints| > 0 && certs != []
    ensures var all := earlier + certs;
            var a, members := Settled(codec, endpoints, all), Members(codec, endpoints, all[..|all| - 1]);
            && a == Settled(codec, Members(codec, endpoints, earlier), certs)
            && |members| > 0 && Primary(Cluster(a.endpoints, a.epoch)) == members[all[|all| - 1].epoch % |members|]
  {
    hide Members, Primary, Newcomers, Rebased;
    var all, last := earlier + certs, |certs| - 1;
    assert all[..|all| - 1] == earlier + certs[..last] && all[|all| - 1] == certs[last];
    MembersSplit(codec, endpoints, earlier, certs[..last]);
    GrownPrimary(codec, View(Members(codec, endpoints, all[..|all| - 1]), 0), certs[last]);
  }
}
