/** Pool membership and node selection (tunnel/autoscale/pool.go). */
module Pool {
  import opened Basics

  type Id = string

  datatype Node = Node(id: Id, region: string, provider: string, address: string, healthUrl: string)

  datatype Member = Member(node: Node, healthy: bool, draining: bool, load: real, lastProbe: int)

  /** The text routines the pool calls; every result holds whatever they answer. */
  datatype TextOps = TextOps(blank: string -> bool, tidy: string -> string, equalFold: (string, string) -> bool)

  type Members = map<Id, Member>

  predicate Routable(m: Member) {
    m.healthy && !m.draining
  }

  /** Members are filed under their own ids. */
  ghost predicate Filed(ms: Members) {
    forall k :: k in ms ==> ms[k].node.id == k
  }

  // ------------------------------------------------------------------- order on ids

  /** Byte-wise order on strings. */
  predicate Before(a: string, b: string) {
    |b| > 0 && (|a| == 0 || a[0] < b[0] || (a[0] == b[0] && Before(a[1..], b[1..])))
  }

  lemma {:induction false} BeforeTotal(a: string, b: string)
    ensures a == b || Before(a, b) || Before(b, a)
    ensures !(Before(a, b) && (a == b || Before(b, a)))
  {
    if |a| > 0 && |b| > 0 {
      BeforeTotal(a[1..], b[1..]);
      assert a == [a[0]] + a[1..] && b == [b[0]] + b[1..];
    }
  }

  lemma {:induction false} BeforeTransitive(a: string, b: string, c: string)
    requires Before(a, b) && Before(b, c)
    ensures Before(a, c)
  {
    if |a| > 0 && a[0] == b[0] == c[0] {
      BeforeTransitive(a[1..], b[1..], c[1..]);
    }
  }

  /** Lower load first, then the id. */
  predicate Lighter(a: Member, b: Member) {
    a.load < b.load || (a.load == b.load && Before(a.node.id, b.node.id))
  }

  lemma LighterOrder(a: Member, b: Member, c: Member)
    ensures a.node.id != b.node.id ==> Lighter(a, b) || Lighter(b, a)
    ensures !(Lighter(a, b) && Lighter(b, a))
    ensures Lighter(a, b) && Lighter(b, c) ==> Lighter(a, c)
  {
    BeforeTotal(a.node.id, b.node.id);
    if Before(a.node.id, b.node.id) && Before(b.node.id, c.node.id) {
      BeforeTransitive(a.node.id, b.node.id, c.node.id);
    }
    hide Before;
  }

  // ----------------------------------------------------------------- choosing a node

  /** A ranking: first class preferred, then the lighter member. */
  predicate Ahead(firstA: bool, a: Member, firstB: bool, b: Member) {
    if firstA != firstB then firstA else Lighter(a, b)
  }

  lemma AheadOrder(p: bool, a: Member, q: bool, b: Member, r: bool, c: Member)
    ensures a.node.id != b.node.id ==> Ahead(p, a, q, b) || Ahead(q, b, p, a)
    ensures !(Ahead(p, a, q, b) && Ahead(q, b, p, a))
    ensures Ahead(p, a, q, b) && Ahead(q, b, r, c) ==> Ahead(p, a, r, c)
  {
    LighterOrder(a, b, c);
    hide Lighter;
  }

  predicate InRegion(ops: TextOps, region: string, m: Member) {
    region != "" && ops.equalFold(m.node.region, region)
  }

  /** The member to send a client to: routable, and ahead of every other routable one. */
  ghost predicate IsNearest(ops: TextOps, ms: Members, region: string, id: Id) {
    var wanted := ops.tidy(region);
    && id in ms && Routable(ms[id])
    && (forall k :: k in ms && k != id && Routable(ms[k]) ==>
                      Ahead(InRegion(ops, wanted, ms[id]), ms[id], InRegion(ops, wanted, ms[k]), ms[k]))
  }

  /** The member to drain: not self, and ahead of every other but self, unroutable ones first. */
  ghost predicate IsDrainChoice(ms: Members, self: Id, id: Id) {
    && id in ms && id != self
    && (forall k :: k in ms && k != id && k != self ==> Ahead(!Routable(ms[id]), ms[id], !Routable(ms[k]), ms[k]))
  }

  /** The byte-wise order in full: at the first place they differ the one is smaller, or it ends there. */
  lemma {:induction false} BeforeMeans(a: string, b: string)
    ensures Before(a, b) <==>
              exists i :: 0 <= i <= |a| && i < |b| && a[..i] == b[..i] && (i == |a| || a[i] < b[i])
  {
    if |a| > 0 && |b| > 0 && a[0] == b[0] {
      BeforeMeans(a[1..], b[1..]);
      if Before(a, b) {
        var i :| 0 <= i <= |a| - 1 && i < |b| - 1 && a[1..][..i] == b[1..][..i] && (i == |a| - 1 || a[1..][i] < b[1..][i]);
        assert a[..i + 1] == [a[0]] + a[1..][..i] && b[..i + 1] == [b[0]] + b[1..][..i];
        assert a[..i + 1] == b[..i + 1];
      }
      if i :| 0 <= i <= |a| && i < |b| && a[..i] == b[..i] && (i == |a| || a[i] < b[i]) {
        assert i > 0;
        assert a[1..][..i - 1] == a[..i][1..] && b[1..][..i - 1] == b[..i][1..];
      }
    } else if |b| > 0 {
      assert a[..0] == b[..0];
      if i :| 0 <= i <= |a| && i < |b| && a[..i] == b[..i] && (i == |a| || a[i] < b[i]) {
        if i > 0 {
          assert a[..i][0] == b[..i][0];
        }
      }
    }
  }

  /**
   The nearest member is healthy and not draining; any other such that is in the region too,
   or not either, has a higher load, or the same and a later id; and none is in it alone.
   */
  lemma NearestMeans(ops: TextOps, ms: Members, region: string, id: Id)
    ensures IsNearest(ops, ms, region, id) <==>
              var wanted := ops.tidy(region);
              && id in ms && ms[id].healthy && !ms[id].draining
              && forall k :: k in ms && k != id && ms[k].healthy && !ms[k].draining ==>
                   var here := wanted != "" && ops.equalFold(ms[id].node.region, wanted);
                   var there := wanted != "" && ops.equalFold(ms[k].node.region, wanted);
                   if here != there then here
                   else ms[id].load < ms[k].load || (ms[id].load == ms[k].load && Before(ms[id].node.id, ms[k].node.id))
  {
    hide Before;
  }

  /** The member to drain is another than self; those not healthy or draining come first, then by load and id. */
  lemma DrainMeans(ms: Members, self: Id, id: Id)
    ensures IsDrainChoice(ms, self, id) <==>
              && id in ms && id != self
              && forall k :: k in ms && k != id && k != self ==>
                   var sound := ms[id].healthy && !ms[id].draining;
                   var other := ms[k].healthy && !ms[k].draining;
                   if sound != other then !sound
                   else ms[id].load < ms[k].load || (ms[id].load == ms[k].load && Before(ms[id].node.id, ms[k].node.id))
  {
    hide Before;
  }

  /** Whatever order the members are visited in, the answers are the same. */
  lemma ChoicesAreUnique(ops: TextOps, ms: Members, region: string, self: Id, id: Id, id': Id)
    ensures IsNearest(ops, ms, region, id) && IsNearest(ops, ms, region, id') ==> id == id'
    ensures IsDrainChoice(ms, self, id) && IsDrainChoice(ms, self, id') ==> id == id'
  {
    hide Ahead, InRegion, Routable;
    var wanted := ops.tidy(region);
    if id in ms && id' in ms && id != id' {
      var a, b := ms[id], ms[id'];
      var p, q := InRegion(ops, wanted, a), InRegion(ops, wanted, b);
      assert IsNearest(ops, ms, region, id) && Routable(b) ==> Ahead(p, a, q, b);
      assert IsNearest(ops, ms, region, id') && Routable(a) ==> Ahead(q, b, p, a);
      AheadOrder(p, a, q, b, true, a);
      assert IsDrainChoice(ms, self, id) && id' != self ==> Ahead(!Routable(a), a, !Routable(b), b);
      assert IsDrainChoice(ms, self, id') && id != self ==> Ahead(!Routable(b), b, !Routable(a), a);
      AheadOrder(!Routable(a), a, !Routable(b), b, true, a);
    }
  }

  /** Among any members there is one ahead of all the others. */
  lemma {:induction false} FrontRunner(ms: Members, ks: set<Id>) returns (id: Id)
    requires Filed(ms) && ks != {} && ks <= ms.Keys
    ensures id in ks
    ensures forall k :: k in ks && k != id ==> Ahead(!Routable(ms[id]), ms[id], !Routable(ms[k]), ms[k])
    decreases ks
  {
    hide Ahead;
    var one :| one in ks;
    var rest := ks - {one};
    id := one;
    if rest == {} {
      assert forall k :: k in ks ==> k == one by {
        assert forall k :: k in ks && k != one ==> k in rest;
      }
      return;
    }
    var best := FrontRunner(ms, rest);
    var a, b := ms[one], ms[best];
    AheadOrder(!Routable(a), a, !Routable(b), b, true, a);
    if Ahead(!Routable(b), b, !Routable(a), a) {
      id := best;
    }
    forall k | k in ks && k != id
      ensures Ahead(!Routable(ms[id]), ms[id], !Routable(ms[k]), ms[k])
    {
      if k != one && k != best {
        assert k in rest;
        AheadOrder(!Routable(a), a, !Routable(b), b, !Routable(ms[k]), ms[k]);
      }
    }
  }

  /** With anybody but self in the pool there is a member to drain. */
  lemma ChoiceExists(ms: Members, self: Id) returns (id: Id)
    requires Filed(ms) && exists k :: k in ms && k != self
    ensures IsDrainChoice(ms, self, id)
  {
    hide Ahead;
    var k :| k in ms && k != self;
    assert k in ms.Keys - {self};
    id := FrontRunner(ms, ms.Keys - {self});
  }

  class NodePool {
    const ops: TextOps
    var members: Members

    ghost predicate Valid()
      reads this
    {
      Filed(members)
    }

    constructor (ops: TextOps)
      ensures Valid() && members == map[] && this.ops == ops
    {
      this.ops, members := ops, map[];
    }

    /** A known id is re-announced: its node is refreshed, its live state kept. A blank id is ignored. */
    method Add(n: Node, now: int)
      requires Valid()
      modifies this
      ensures Valid()
      ensures members == Added(ops, old(members), n, now)
      ensures forall k :: k != n.id || ops.blank(n.id) ==> (k in members <==> k in old(members))
      ensures forall k :: k in old(members) && (k != n.id || ops.blank(n.id)) ==> members[k] == old(members)[k]
      ensures !ops.blank(n.id) ==> n.id in members && members[n.id].node == n
      ensures !ops.blank(n.id) && n.id in old(members) ==>
                var m, was := members[n.id], old(members)[n.id];
                m.healthy == was.healthy && m.draining == was.draining && m.load == was.load && m.lastProbe == was.lastProbe
      ensures !ops.blank(n.id) && n.id !in old(members) ==>
                var m := members[n.id]; m.healthy && !m.draining && m.load == 0.0 && m.lastProbe == now
    {
      if ops.blank(n.id) {
        return;
      }
      if n.id in members {
        members := members[n.id := members[n.id].(node := n)];
        return;
      }
      members := members[n.id := Member(n, true, false, 0.0, now)];
    }

    method Remove(id: Id)
      requires Valid()
      modifies this
      ensures Valid() && members == old(members) - {id}
    {
      members := members - {id};
    }

    function Size(): nat
      reads this
    {
      |members|
    }

    method Drain(id: Id)
      requires Valid()
      modifies this
      ensures Valid() && members == Marked(old(members), id, true)
      ensures members.Keys == old(members).Keys
      ensures forall k :: k in members ==> members[k] == if k == id then old(members)[k].(draining := true) else old(members)[k]
    {
      if id in members {
        members := members[id := members[id].(draining := true)];
      }
    }

    method Undrain(id: Id)
      requires Valid()
      modifies this
      ensures Valid() && members == Marked(old(members), id, false)
      ensures members.Keys == old(members).Keys
      ensures forall k :: k in members ==> members[k] == if k == id then old(members)[k].(draining := false) else old(members)[k]
    {
      if id in members {
        members := members[id := members[id].(draining := false)];
      }
    }

    method MarkHealth(id: Id, healthy: bool, now: int)
      requires Valid()
      modifies this
      ensures Valid() && members.Keys == old(members).Keys
      ensures forall k :: k in members ==>
                            members[k] == if k == id then old(members)[k].(healthy := healthy, lastProbe := now) else old(members)[k]
    {
      if id in members {
        members := members[id := members[id].(healthy := healthy, lastProbe := now)];
      }
    }

    method UpdateLoad(id: Id, ratio: real)
      requires Valid()
      modifies this
      ensures Valid() && members == Loaded(old(members), id, ratio)
      ensures members.Keys == old(members).Keys
      ensures forall k :: k in members ==> members[k] == if k == id then old(members)[k].(load := ratio) else old(members)[k]
    {
      if id in members {
        members := members[id := members[id].(load := ratio)];
      }
    }

    method Nearest(region: string) returns (best: Option<Node>)
      requires Valid()
      ensures best.Some? <==> exists k :: k in members && Routable(members[k])
      ensures best.Some? ==>
                best.value.id in members && members[best.value.id].node == best.value &&
                IsNearest(ops, members, region, best.value.id)
      ensures best.Some? ==> members[best.value.id].healthy && !members[best.value.id].draining
      ensures best.None? ==> forall k :: k in members ==> !members[k].healthy || members[k].draining
    {
      hide Ahead;
      var wanted := ops.tidy(region);
      var chosen: Option<Member> := None;
      var chosenIn := false;
      var todo := members.Keys;
      while todo != {}
        invariant todo <= members.Keys
        invariant chosen.None? ==> forall k :: k in members && k !in todo ==> !Routable(members[k])
        invariant chosen.Some? ==>
                    var id := chosen.value.node.id;
                    && id in members && id !in todo && members[id] == chosen.value
                    && Routable(chosen.value) && chosenIn == InRegion(ops, wanted, chosen.value)
        invariant chosen.Some? ==>
                    forall k :: k in members && k !in todo && k != chosen.value.node.id && Routable(members[k]) ==>
                                  Ahead(chosenIn, chosen.value, InRegion(ops, wanted, members[k]), members[k])
        decreases |todo|
      {
        var key :| key in todo;
        todo := todo - {key};
        var m := members[key];
        if !Routable(m) {
          continue;
        }
        var inRegion := InRegion(ops, wanted, m);
        if chosen.None? {
          chosen, chosenIn := Some(m), inRegion;
          continue;
        }
        ghost var was, wasIn := chosen.value, chosenIn;
        AheadStep(ops, members, wanted, todo, key, was);
        if inRegion != chosenIn {
          AheadClass(inRegion, m, chosenIn, chosen.value);
          if inRegion {
            chosen, chosenIn := Some(m), true;
          }
          continue;
        }
        AheadPeer(inRegion, m, chosen.value);
        if m.load < chosen.value.load || (m.load == chosen.value.load && Before(m.node.id, chosen.value.node.id)) {
          chosen := Some(m);
        }
      }
      best := if chosen.None? then None else Some(chosen.value.node);
    }

    method DrainCandidate(self: Id) returns (best: Option<Id>)
      requires Valid()
      ensures best.Some? <==> exists k :: k in members && k != self
      ensures best.Some? ==> IsDrainChoice(members, self, best.value)
    {
      hide Ahead;
      var chosen: Option<Member> := None;
      var todo := members.Keys;
      while todo != {}
        invariant todo <= members.Keys
        invariant chosen.None? ==> forall k :: k in members && k !in todo ==> k == self
        invariant chosen.Some? ==>
                    var id := chosen.value.node.id;
                    id in members && id !in todo && id != self && members[id] == chosen.value
        invariant chosen.Some? ==>
                    forall k :: k in members && k !in todo && k != chosen.value.node.id && k != self ==>
                                  Ahead(!Routable(chosen.value), chosen.value, !Routable(members[k]), members[k])
        decreases |todo|
      {
        var key :| key in todo;
        todo := todo - {key};
        var m := members[key];
        if m.node.id == self {
          continue;
        }
        if chosen.None? {
          chosen := Some(m);
          continue;
        }
        DrainStep(members, self, todo, key, chosen.value);
        AheadClass(!Routable(m), m, !Routable(chosen.value), chosen.value);
        AheadPeer(!Routable(m), m, chosen.value);
        var better :=
          if Routable(m) != Routable(chosen.value) then !Routable(m)
          else if m.load != chosen.value.load then m.load < chosen.value.load
          else Before(m.node.id, chosen.value.node.id);
        if better {
          chosen := Some(m);
        }
      }
      best := if chosen.None? then None else Some(chosen.value.node.id);
    }
  }

  lemma AheadClass(p: bool, a: Member, q: bool, b: Member)
    ensures p != q ==> (Ahead(p, a, q, b) <==> p) && (Ahead(q, b, p, a) <==> q)
    ensures p == q ==> (Ahead(p, a, q, b) <==> Lighter(a, b)) && (Ahead(q, b, p, a) <==> Lighter(b, a))
  {
  }

  lemma AheadPeer(p: bool, a: Member, b: Member)
    requires a.node.id != b.node.id
    ensures Ahead(p, a, p, b) <==> Lighter(a, b)
    ensures Ahead(p, b, p, a) <==> !Lighter(a, b)
  {
    LighterOrder(a, b, a);
  }

  /** If the next member is ahead of the one chosen so far, it is ahead of all seen so far. */
  lemma AheadStep(ops: TextOps, ms: Members, wanted: string, todo: set<Id>, key: Id, was: Member)
    requires Filed(ms) && key in ms
    requires forall k :: k in ms && k !in todo && k != key && k != was.node.id && Routable(ms[k]) ==>
                           Ahead(InRegion(ops, wanted, was), was, InRegion(ops, wanted, ms[k]), ms[k])
    ensures Ahead(InRegion(ops, wanted, ms[key]), ms[key], InRegion(ops, wanted, was), was) ==>
              forall k :: k in ms && k !in todo && k != key && k != was.node.id && Routable(ms[k]) ==>
                            Ahead(InRegion(ops, wanted, ms[key]), ms[key], InRegion(ops, wanted, ms[k]), ms[k])
  {
    hide Ahead;
    forall k | k in ms
      ensures Ahead(InRegion(ops, wanted, ms[key]), ms[key], InRegion(ops, wanted, was), was) &&
              Ahead(InRegion(ops, wanted, was), was, InRegion(ops, wanted, ms[k]), ms[k]) ==>
                Ahead(InRegion(ops, wanted, ms[key]), ms[key], InRegion(ops, wanted, ms[k]), ms[k])
    {
      AheadOrder(InRegion(ops, wanted, ms[key]), ms[key], InRegion(ops, wanted, was), was, InRegion(ops, wanted, ms[k]), ms[k]);
    }
  }

  lemma DrainStep(ms: Members, self: Id, todo: set<Id>, key: Id, was: Member)
    requires Filed(ms) && key in ms
    requires forall k :: k in ms && k !in todo && k != key && k != was.node.id && k != self ==>
                           Ahead(!Routable(was), was, !Routable(ms[k]), ms[k])
    ensures Ahead(!Routable(ms[key]), ms[key], !Routable(was), was) ==>
              forall k :: k in ms && k !in todo && k != key && k != was.node.id && k != self ==>
                            Ahead(!Routable(ms[key]), ms[key], !Routable(ms[k]), ms[k])
  {
    hide Ahead;
    forall k | k in ms
      ensures Ahead(!Routable(ms[key]), ms[key], !Routable(was), was) &&
              Ahead(!Routable(was), was, !Routable(ms[k]), ms[k]) ==>
                Ahead(!Routable(ms[key]), ms[key], !Routable(ms[k]), ms[k])
    {
      AheadOrder(!Routable(ms[key]), ms[key], !Routable(was), was, !Routable(ms[k]), ms[k]);
    }
  }

  // ---------------------------------------------------------------- pool as a value

  function Added(ops: TextOps, ms: Members, n: Node, now: int): Members {
    if ops.blank(n.id) then ms
    else if n.id in ms then ms[n.id := ms[n.id].(node := n)]
    else ms[n.id := Member(n, true, false, 0.0, now)]
  }

  function Marked(ms: Members, id: Id, draining: bool): Members {
    if id in ms then ms[id := ms[id].(draining := draining)] else ms
  }

  function Loaded(ms: Members, id: Id, ratio: real): Members {
    if id in ms then ms[id := ms[id].(load := ratio)] else ms
  }
}
