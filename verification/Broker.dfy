/** The broker of pkg/pubsub/pubsub.go as objects: subscriptions and registry updated in place, each call run without
    interruption. Every call is a calm run of the machine in PubSub, which the ghost `history` records. */
module Broker {
  import opened Wrappers
  import opened PubSub

  class Subscriber {
    const id: nat
    const topic: string
    const size: nat
    const policy: Policy
    var ch: seq<Message>
    var closed: bool
    ghost var ledger: Sub

    ghost predicate Valid()
      reads this
    {
      ledger.topic == topic && ledger.size == size && ledger.policy == policy && ledger.buffer == ch
      && ledger.open == !closed
    }

    constructor (id: nat, topic: string, size: nat, policy: Policy)
      ensures Valid() && this.id == id && this.topic == topic && this.size == size && this.policy == policy
      ensures ledger == Sub(topic, size, policy, [], true, [], 0, 0, 0, 0, 0)
    {
      this.id, this.topic, this.size, this.policy := id, topic, size, policy;
      ch, closed := [], false;
      ledger := Sub(topic, size, policy, [], true, [], 0, 0, 0, 0, 0);
    }

    /** A send that does not wait. */
    method TrySend(m: Message) returns (ok: bool)
      modifies `ch
      ensures ok <==> |old(ch)| < size
      ensures ch == if ok then old(ch) + [m] else old(ch)
    {
      ok := |ch| < size;
      if ok {
        ch := ch + [m];
      }
    }

    /** A receive that does not wait. */
    method TryReceive()
      modifies `ch
      ensures ch == if old(ch) == [] then [] else old(ch)[1..]
    {
      if ch != [] {
        ch := ch[1..];
      }
    }

    /** Makes room by receiving, and sends. */
    method Replace(m: Message) returns (ok: bool)
      requires 0 < size && |ch| <= size
      modifies `ch
      ensures ok && ch == (if old(ch) == [] then [] else old(ch)[1..]) + [m]
    {
      TryReceive();
      ok := TrySend(m);
    }
  }

  /** What an undisturbed delivery does to a subscription; one that may wait gives up only if there is no room. */
  function Given(sub: Sub, m: Message): Sub {
    if !sub.open then sub
    else if sub.HasRoom() then sub.Put(m)
    else
      match sub.policy
      case DropNewest => sub.Refuse()
      case BlockWithTimeout => sub.Refuse()
      case CloseSubscriber => sub.Refuse().(open := false)
      case _ => sub.(buffer := (if sub.buffer == [] then [] else sub.buffer[1..]) + [m], evicted := sub.evicted + 1,
                     offered := sub.offered + 1)
  }

  /** And to the counters of its topic. */
  function Charged(c: Tally, sub: Sub): Tally {
    if sub.HasRoom() then c.(delivered := c.delivered + 1)
    else
      match sub.policy
      case DropNewest => c.(newest := c.newest + 1)
      case BlockWithTimeout => c.(timeouts := c.timeouts + 1)
      case CloseSubscriber => c.(closes := c.closes + 1, gauge := c.gauge - 1)
      case _ => c.(delivered := c.delivered + 1, oldest := c.oldest + 1)
  }

  /** An open channel was sent the message: a full one loses its oldest message, refuses the new one, or is closed. */
  predicate Took(size: nat, policy: Policy, ch: seq<Message>, m: Message, ch': seq<Message>, closed: bool) {
    if |ch| < size then ch' == ch + [m] && !closed
    else if policy.DropOldest? then ch != [] && ch' == ch[1..] + [m] && !closed
    else ch' == ch && closed == policy.CloseSubscriber?
  }

  ghost function Ledgers(subs: seq<Subscriber>): (r: seq<Sub>)
    reads subs`ledger
    ensures |r| == |subs| && forall i :: 0 <= i < |subs| ==> r[i] == subs[i].ledger
  {
    if subs == [] then [] else Ledgers(subs[..|subs| - 1]) + [subs[|subs| - 1].ledger]
  }

  type Registry = map<string, map<nat, Subscriber>>

  ghost function KeysOf(topics: Registry): map<string, set<nat>> {
    map t | t in topics :: topics[t].Keys
  }

  function Put(topics: Registry, topic: string, id: nat, s: Subscriber): Registry {
    var subs: map<nat, Subscriber> := if topic in topics then topics[topic] else map[];
    topics[topic := subs[id := s]]
  }

  lemma PutKeys(topics: Registry, topic: string, id: nat, s: Subscriber)
    ensures var ids := if topic in KeysOf(topics) then KeysOf(topics)[topic] else {};
            KeysOf(Put(topics, topic, id, s)) == KeysOf(topics)[topic := ids + {id}]
  {
    var subs: map<nat, Subscriber> := if topic in topics then topics[topic] else map[];
    assert subs[id := s].Keys == subs.Keys + {id};
    var ids := if topic in topics then KeysOf(topics)[topic] else {};
    assert ids == subs.Keys;
    var keys, keys' := KeysOf(Put(topics, topic, id, s)), KeysOf(topics)[topic := ids + {id}];
    assert keys.Keys == keys'.Keys;
    forall t | t in keys
      ensures keys[t] == keys'[t]
    {
    }
  }

  ghost predicate PointInto(subs: map<nat, Subscriber>, all: seq<Subscriber>) {
    forall i :: i in subs ==> i < |all| && subs[i] == all[i]
  }

  /** The registry leads to the subscriptions themselves. */
  ghost predicate Points(topics: Registry, all: seq<Subscriber>) {
    forall t :: t in topics ==> PointInto(topics[t], all)
  }

  lemma PutPoints(topics: Registry, topic: string, all: seq<Subscriber>, s: Subscriber)
    requires Points(topics, all)
    ensures Points(Put(topics, topic, |all|, s), all + [s])
  {
    var topics' := Put(topics, topic, |all|, s);
    var subs: map<nat, Subscriber> := if topic in topics then topics[topic] else map[];
    assert PointInto(subs, all);
    assert PointInto(subs[|all| := s], all + [s]);
    forall t | t in topics'
      ensures PointInto(topics'[t], all + [s])
    {
      if t != topic {
        assert PointInto(topics[t], all);
      }
    }
  }

  function Dropped(c: Tally, policy: Policy): Tally {
    match policy
    case DropOldest => c.(oldest := c.oldest + 1)
    case DropNewest => c.(newest := c.newest + 1)
    case BlockWithTimeout => c.(timeouts := c.timeouts + 1)
    case CloseSubscriber => c.(closes := c.closes + 1)
    case Unknown(_) => c
  }

  /** Deletes a subscription, and its topic with the last one. */
  function Drop(topics: Registry, topic: string, id: nat): Registry
    requires topic in topics
  {
    var subs := topics[topic] - {id};
    if |subs| == 0 then topics - {topic} else topics[topic := subs]
  }

  lemma KeysTell(topics: Registry, topic: string, id: nat)
    ensures Lists(KeysOf(topics), topic, id) <==> topic in topics && id in topics[topic]
    ensures topic !in topics ==> Remove(KeysOf(topics), topic, id) == KeysOf(topics)
  {
  }

  lemma DropKeys(topics: Registry, topic: string, id: nat)
    requires topic in topics
    ensures KeysOf(Drop(topics, topic, id)) == Remove(KeysOf(topics), topic, id)
  {
    var subs := topics[topic] - {id};
    assert subs.Keys == topics[topic].Keys - {id};
    assert |subs| == 0 <==> subs.Keys == {};
  }

  lemma DropPoints(topics: Registry, topic: string, id: nat, all: seq<Subscriber>)
    requires topic in topics && Points(topics, all)
    ensures Points(Drop(topics, topic, id), all)
  {
    assert PointInto(topics[topic], all);
    assert PointInto(topics[topic] - {id}, all);
    var topics' := Drop(topics, topic, id);
    forall t | t in topics'
      ensures PointInto(topics'[t], all)
    {
      assert PointInto(topics[t], all);
    }
  }

  class InProcPubSub {
    var topics: map<string, map<nat, Subscriber>>
    var metrics: map<string, Tally>
    var closed: bool
    ghost var all: seq<Subscriber>
    ghost var agents: seq<Agent>
    ghost var history: seq<Step>
    var nextId: nat

    ghost function Subs(): seq<Sub>
      reads `all, all`ledger
    {
      Ledgers(all)
    }

    ghost function Keys(): map<string, set<nat>>
      reads `topics
    {
      KeysOf(topics)
    }

    ghost function View(): State
      reads this, all
    {
      State(Subs(), Keys(), metrics, agents, closed)
    }

    /** The objects fit together. */
    ghost predicate Linked()
      reads `all, all, `topics, `metrics, `nextId
    {
      && nextId == |all|
      && (forall i :: 0 <= i < |all| ==> all[i].id == i && all[i].Valid() && all[i].topic in metrics)
      && Points(topics, all)
    }

    ghost predicate Reached()
      reads this, all
    {
      Reaches(history, View())
    }

    ghost predicate AllIdle()
      reads `agents
    {
      forall q :: 0 <= q < |agents| ==> agents[q].job.Idle?
    }

    ghost predicate Valid()
      reads this, all
    {
      Linked() && Reached() && AllIdle()
    }

    constructor (publishers: nat)
      ensures Valid() && View() == Start(publishers)
    {
      topics, metrics, closed, nextId := map[], map[], false, 0;
      all, agents, history := [], Start(publishers).agents, [];
    }

    /** Makes a subscription and enters it in the registry. */
    method Enroll(topic: string, size: nat, policy: Policy) returns (s: Subscriber)
      requires Linked()
      modifies `topics, `metrics, `all, `nextId
      ensures Linked() && fresh(s) && all == old(all) + [s]
      ensures s.topic == topic && s.size == size && s.policy == policy && s.ch == [] && !s.closed
      ensures s.id == |old(all)|
      ensures Subs() == old(Subs()) + [Sub(topic, size, policy, [], true, [], 0, 0, 0, 0, 0)]
      ensures var ids := if topic in old(Keys()) then old(Keys())[topic] else {};
              Keys() == old(Keys())[topic := ids + {|old(all)|}]
      ensures var c := Shown(old(metrics), topic); metrics == old(metrics)[topic := c.(gauge := c.gauge + 1)]
    {
      hide KeysOf, Put, Points, PointInto;
      s := new Subscriber(nextId, topic, size, policy);
      PutKeys(topics, topic, nextId, s);
      PutPoints(topics, topic, all, s);
      topics := Put(topics, topic, s.id, s);
      var c := Shown(metrics, topic);
      metrics := metrics[topic := c.(gauge := c.gauge + 1)];
      nextId := nextId + 1;
      all := all + [s];
      assert all[..|all| - 1] == old(all);
    }

    method Subscribe(topic: string, options: Options) returns (sub: Option<Subscriber>)
      requires Valid()
      modifies this
      ensures Valid() && View() == Next(old(View()), Step.Subscribe(topic, options)) && old(history) <= history
      ensures sub.Some? <==> !old(closed) && topic != ""
      ensures sub.Some? ==>
        var s := sub.value;
        && s.topic == topic && s.size == (if options.bufferSize > 0 then options.bufferSize else 16)
        && s.policy == (if options.policy.Unknown? then DropOldest else options.policy)
        && s.ch == [] && !s.closed && topic in Keys() && s.id in Keys()[topic]
      ensures all == if sub.Some? then old(all) + [sub.value] else old(all)
      ensures sub.Some? ==> fresh(sub.value)
    {
      hide Reaches, Next, Enabled, Calm, Linked, KeysOf, Shown;
      ghost var before, step := View(), Step.Subscribe(topic, options);
      SubscribeIs(before, topic, options);
      GoesOn(history, before, step);
      if closed || topic == "" {
        Settle(before, [step]);
        return None;
      }
      var o := Normalize(options);
      var s := Enroll(topic, o.bufferSize, o.policy);
      Settle(Next(before, step), [step]);
      sub := Some(s);
    }

    method IncDelivered(topic: string)
      modifies `metrics
      ensures var c := Shown(old(metrics), topic);
              metrics == old(metrics)[topic := c.(delivered := c.delivered + 1)]
    {
      var c := Shown(metrics, topic);
      metrics := metrics[topic := c.(delivered := c.delivered + 1)];
    }

    method IncDropped(topic: string, policy: Policy)
      modifies `metrics
      ensures metrics == old(metrics)[topic := Dropped(Shown(old(metrics), topic), policy)]
    {
      metrics := metrics[topic := Dropped(Shown(metrics, topic), policy)];
    }

    /** Takes a subscription out of the registry; after `Close` there is none to take out. */
    method RemoveSubscriber(topic: string, id: nat)
      requires Points(topics, all)
      modifies `topics, `metrics
      ensures Points(topics, all) && Keys() == Remove(old(Keys()), topic, id)
      ensures var c := Shown(old(metrics), topic);
              metrics == if Lists(old(Keys()), topic, id) then old(metrics)[topic := c.(gauge := c.gauge - 1)]
                         else old(metrics)
    {
      KeysTell(topics, topic, id);
      hide KeysOf, Remove, Points, PointInto, Lists, Drop;
      if topic !in topics {
        return;
      }
      if id in topics[topic] {
        var c := Shown(metrics, topic);
        metrics := metrics[topic := c.(gauge := c.gauge - 1)];
      }
      DropKeys(topics, topic, id);
      DropPoints(topics, topic, id, all);
      topics := Drop(topics, topic, id);
    }

    /** Ends a subscription, once. */
    method Shut(s: Subscriber)
      requires Linked() && s.id < |all| && all[s.id] == s && !s.closed && Lists(Keys(), s.topic, s.id)
      modifies s, `topics, `metrics
      ensures Linked() && s.ledger == old(s.ledger).(open := false) && s.closed && s.ch == old(s.ch)
      ensures Keys() == Remove(old(Keys()), s.topic, s.id)
      ensures var c := Shown(old(metrics), s.topic); metrics == old(metrics)[s.topic := c.(gauge := c.gauge - 1)]
    {
      hide Points, Lists, Remove, KeysOf;
      assert s.Valid();
      s.closed := true;
      s.ledger := s.ledger.(open := false);
      RemoveSubscriber(s.topic, s.id);
    }

    /** One delivery that nobody disturbs: one that may wait gives up when there is no room. */
    method Deliver(s: Subscriber, m: Message)
      requires Linked() && s.id < |all| && all[s.id] == s && |s.ch| <= s.size && 0 < s.size
      requires !s.closed ==> Lists(Keys(), s.topic, s.id)
      modifies s, `topics, `metrics
      ensures Linked() && s.ledger == Given(old(s.ledger), m)
      ensures metrics == if old(s.closed) then old(metrics)
                         else old(metrics)[s.topic := Charged(Shown(old(metrics), s.topic), old(s.ledger))]
      ensures Keys() == if old(s.closed) || !s.closed then old(Keys()) else Remove(old(Keys()), s.topic, s.id)
      ensures old(s.closed) ==> s.closed && s.ch == old(s.ch) && metrics == old(metrics)
      ensures !old(s.closed) && |old(s.ch)| < s.size ==> !s.closed && s.ch == old(s.ch) + [m]
      ensures !old(s.closed) && |old(s.ch)| == s.size ==>
        && s.ch == (if s.policy.DropOldest? || s.policy.Unknown? then old(s.ch)[1..] + [m] else old(s.ch))
        && s.closed == s.policy.CloseSubscriber?
      ensures !old(s.closed) ==>
        var full, c, c' := |old(s.ch)| == s.size, Shown(old(metrics), s.topic), Shown(metrics, s.topic);
        var oldest := full && (s.policy.DropOldest? || s.policy.Unknown?);
        && c'.delivered == c.delivered + (if full && !oldest then 0 else 1)
        && c'.oldest == c.oldest + (if oldest then 1 else 0)
        && c'.newest == c.newest + (if full && s.policy.DropNewest? then 1 else 0)
        && c'.timeouts == c.timeouts + (if full && s.policy.BlockWithTimeout? then 1 else 0)
        && c'.closes == c.closes + (if full && s.policy.CloseSubscriber? then 1 else 0)
        && c'.gauge == c.gauge - (if full && s.policy.CloseSubscriber? then 1 else 0)
    {
      hide Points, Lists, Remove, KeysOf;
      assert s.Valid();
      if s.closed {
        return;
      }
      match s.policy {
        case DropNewest =>
          var ok := s.TrySend(m);
          s.ledger := Given(s.ledger, m);
          if ok {
            IncDelivered(s.topic);
          } else {
            IncDropped(s.topic, DropNewest);
          }
        case BlockWithTimeout =>
          var ok := s.TrySend(m);
          s.ledger := Given(s.ledger, m);
          if ok {
            IncDelivered(s.topic);
          } else {
            IncDropped(s.topic, BlockWithTimeout);
          }
        case CloseSubscriber =>
          var ok := s.TrySend(m);
          if ok {
            s.ledger := Given(s.ledger, m);
            IncDelivered(s.topic);
          } else {
            s.ledger := s.ledger.Refuse();
            IncDropped(s.topic, CloseSubscriber);
            Shut(s);
          }
        case _ =>
          DeliverOldest(s, m);
      }
    }

    method DeliverOldest(s: Subscriber, m: Message)
      requires Linked() && s.id < |all| && all[s.id] == s && |s.ch| <= s.size && 0 < s.size && !s.closed
      requires s.policy.DropOldest? || s.policy.Unknown?
      modifies s, `metrics
      ensures Linked() && s.ledger == Given(old(s.ledger), m)
      ensures metrics == old(metrics)[s.topic := Charged(Shown(old(metrics), s.topic), old(s.ledger))]
      ensures s.closed == old(s.closed)
    {
      hide Points;
      assert s.Valid();
      ghost var full := Given(s.ledger, m);
      var ok := s.TrySend(m);
      if ok {
        s.ledger := full;
        IncDelivered(s.topic);
        return;
      }
      ok := s.Replace(m);
      s.ledger := full;
      if ok {
        IncDelivered(s.topic);
      } else {
        // Only another publisher could have filled the channel again; PubSub has that case.
        assert false;
      }
      IncDropped(s.topic, DropOldest);
    }

    /** A delivery by publisher `p`, with the steps of the machine that it amounts to. */
    method Hand(s: Subscriber, m: Message, ghost p: nat)
      requires Linked() && Reached() && s.id < |all| && all[s.id] == s && About(View(), s.id, m, p)
      modifies s, `topics, `metrics, `agents, `history
      ensures Linked() && Reached() && View() == AfterDelivery(old(View()), s.id, m, p) && old(history) <= history
    {
      hide Inv, Reaches, Given, Charged, KeysOf, Remove, Lists, Shown, Points;
      ghost var before := View();
      ReachesInv(history, before);
      ghost var steps := DeliveryRuns(history, before, s.id, m, p);
      HandIs(before, s.id, m, p);
      assert s.Valid() && s.ledger == before.subs[s.id] && s.topic in metrics;
      ghost var after := AfterDelivery(before, s.id, m, p);
      Deliver(s, m);
      Settle(after, steps);
    }

    method Publish(topic: string, m: Message, ghost p: nat) returns (ok: bool, ghost order: seq<nat>)
      requires Valid() && p < |agents| && m == Message(topic, p, agents[p].number + 1)
      modifies this, all
      ensures Valid() && all == old(all) && (ok <==> !old(closed) && topic != "") && old(history) <= history
      ensures !ok ==> View() == old(View())
      ensures ok ==> Enumerates(order, if topic in old(Keys()) then old(Keys())[topic] else {})
      ensures ok ==> Metered(metrics, old(metrics), old(Subs()), order, |order|, topic)
      ensures ok ==> agents == old(agents)[p := Agent(m.number, Idle)]
      ensures ok ==> forall i :: 0 <= i < |all| ==>
        Subs()[i] == if Lists(old(Keys()), topic, i) then Given(old(Subs())[i], m) else old(Subs())[i]
      ensures ok ==> forall i :: 0 <= i < |all| ==>
        if Lists(old(Keys()), topic, i)
        then Took(all[i].size, all[i].policy, old(all[i].ch), m, all[i].ch, all[i].closed)
        else all[i].ch == old(all[i].ch) && all[i].closed == old(all[i].closed)
    {
      hide Took, Given, Linked, Reached, KeysOf, Lists, Enumerates, Metered, Ledgers;
      Channels(topic, m);
      ok, order := Send(topic, m, p);
      LedgersTell();
    }

    /** `Publish`, told by the ledgers. */
    method Send(topic: string, m: Message, ghost p: nat) returns (ok: bool, ghost order: seq<nat>)
      requires Valid() && p < |agents| && m == Message(topic, p, agents[p].number + 1)
      modifies this, all
      ensures Valid() && all == old(all) && (ok <==> !old(closed) && topic != "") && old(history) <= history
      ensures !ok ==> View() == old(View())
      ensures ok ==> Enumerates(order, if topic in old(Keys()) then old(Keys())[topic] else {})
      ensures ok ==> Metered(metrics, old(metrics), old(Subs()), order, |order|, topic)
      ensures ok ==> agents == old(agents)[p := Agent(m.number, Idle)]
      ensures ok ==> forall i :: 0 <= i < |all| ==>
        Subs()[i] == if Lists(old(Keys()), topic, i) then Given(old(Subs())[i], m) else old(Subs())[i]
    {
      hide Reached, Given, Linked, KeysOf, Lists, JobAt, Fit, Enumerates, Metered;
      order := [];
      if closed || topic == "" {
        return false, order;
      }
      var ids, subs := Snapshot(topic);
      order := ids;
      Begin(ids, topic, m, p);
      assert |ids| == |subs| by {
        FitAt(ids, subs, all, 0);
      }
      HandAll(ids, subs, m, p);
      ok := true;
    }

    /** What one delivery makes of the channels, whoever is registered for the topic. */
    lemma Channels(topic: string, m: Message)
      requires Valid()
      ensures forall i :: 0 <= i < |all| ==> all[i].ch == Subs()[i].buffer && all[i].closed == !Subs()[i].open
      ensures forall i :: 0 <= i < |all| && Lists(Keys(), topic, i) ==>
        Took(all[i].size, all[i].policy, all[i].ch, m, Given(Subs()[i], m).buffer, !Given(Subs()[i], m).open)
    {
      hide Reaches, KeysOf, Points;
      ReachesInv(history, View());
      forall i | 0 <= i < |all| && Lists(Keys(), topic, i)
        ensures SubOk(Subs()[i]) && Subs()[i].open && all[i].Valid()
      {
        assert SubOk(View().subs[i]);
      }
    }

    /** Records that `p` starts to deliver `m` in this order. */
    ghost method Begin(order: seq<nat>, topic: string, m: Message, p: nat)
      requires Valid() && Accepts(View(), topic) && p < |agents| && m == Message(topic, p, agents[p].number + 1)
      requires Enumerates(order, if topic in Keys() then Keys()[topic] else {})
      modifies `agents, `history
      ensures Linked() && Reached() && agents == old(agents)[p := Agent(m.number, JobAt(m, order, 0))]
      ensures old(history) <= history && OnTopic(order, Subs(), topic)
      ensures forall i :: i in order <==> Lists(Keys(), topic, i)
      ensures forall j, k :: 0 <= j < k < |order| ==> order[j] != order[k]
    {
      hide Reaches, Linked, KeysOf, Next, Lists, JobAt, Enumerates;
      var before := View();
      PublishIs(history, before, m, p, topic, order);
      OrderIsOnTopic(history, before, topic, order);
      Settle(Next(before, Step.Publish(p, topic, order)), [Step.Publish(p, topic, order)]);
    }

    /** The loop of `Publish`. */
    method HandAll(order: seq<nat>, subs: seq<Subscriber>, m: Message, ghost p: nat)
      requires Linked() && Reached() && |order| == |subs| && p < |agents| && agents[p].job == JobAt(m, order, 0)
      requires forall q :: 0 <= q < |agents| && q != p ==> agents[q].job.Idle?
      requires forall j, k :: 0 <= j < k < |order| ==> order[j] != order[k]
      requires Fit(order, subs, all) && OnTopic(order, Subs(), m.topic)
      modifies `topics, `metrics, `agents, `history, all
      ensures Linked() && Reached() && old(history) <= history
      ensures Metered(metrics, old(metrics), old(Subs()), order, |order|, m.topic)
      ensures agents == old(agents)[p := Agent(old(agents)[p].number, Idle)]
      ensures forall i :: 0 <= i < |all| ==>
        Subs()[i] == if i in order then Given(old(Subs())[i], m) else old(Subs())[i]
    {
      hide Reached, Given, Linked, GiveAll, JobAt, Fit, Ledgers, Metered, OnTopic;
      ghost var subs0, metrics0, agent := Subs(), metrics, agents[p];
      NothingMetered(metrics, subs0, order, m.topic);
      FitAt(order, subs, all, 0);
      GiveNext(subs0, order, 0, m);
      var k := 0;
      while k < |order|
        invariant 0 <= k <= |order| && Linked() && Reached()
        invariant agents == old(agents)[p := Agent(agent.number, JobAt(m, order, k))]
        invariant Subs() == GiveAll(subs0, order, k, m)
        invariant Metered(metrics, metrics0, subs0, order, k, m.topic) && old(history) <= history
      {
        FitAt(order, subs, all, k);
        GiveNext(subs0, order, k, m);
        NotYetGiven(subs0, order, k, m);
        MeteredOn(metrics, metrics0, subs0, order, k, m.topic);
        HandNext(subs[k], order, k, m, p);
        k := k + 1;
      }
      GiveAllIs(subs0, order, k, m);
      JobEnds(m, order);
      assert order[..k] == order;
    }

    method HandNext(s: Subscriber, order: seq<nat>, k: nat, m: Message, ghost p: nat)
      requires Linked() && Reached() && k < |order| && s.id < |all| && all[s.id] == s && s.id == order[k]
      requires p < |agents| && agents[p].job == JobAt(m, order, k)
      requires forall q :: 0 <= q < |agents| && q != p ==> agents[q].job.Idle?
      modifies s, `topics, `metrics, `agents, `history
      ensures Linked() && Reached() && old(history) <= history
      ensures metrics == Account(old(metrics), old(Subs())[order[k]])
      ensures agents == old(agents)[p := Agent(old(agents)[p].number, JobAt(m, order, k + 1))]
      ensures Subs() == old(Subs())[order[k] := Given(old(Subs())[order[k]], m)]
    {
      hide Reaches, Given, AfterDelivery, Linked, About, KeysOf, JobAt, Account;
      ghost var now := View();
      Prepare(now, order, k, m, p);
      AfterHand(now, order, k, m, p);
      Hand(s, m, p);
    }

    /** What a reader of the channel does. */
    method Receive(s: Subscriber) returns (m: Message)
      requires Valid() && s.id < |all| && all[s.id] == s && s.ch != []
      modifies s`ch, s`ledger, `agents, `history
      ensures Valid() && View() == Next(old(View()), Step.Receive(s.id))
      ensures m == old(s.ch)[0] && s.ch == old(s.ch)[1..]
      ensures history == old(history) + [Step.Receive(s.id)]
    {
      hide Reaches, Next, Enabled, Calm;
      ghost var before, step := View(), Step.Receive(s.id);
      assert s.Valid();
      ReceiveIs(before, s.id);
      GoesOn(history, before, step);
      m := s.ch[0];
      s.ch := s.ch[1..];
      s.ledger := s.ledger.Receive();
      Settle(Next(before, step), [step]);
    }

    /** Ends a subscription if it has not ended. */
    method Stop(s: Subscriber)
      requires Linked() && s.id < |all| && all[s.id] == s && (!s.closed ==> Lists(Keys(), s.topic, s.id))
      modifies s, `topics, `metrics
      ensures Linked() && s.ledger == old(s.ledger).(open := false) && s.closed && s.ch == old(s.ch)
      ensures old(s.closed) ==> s.ledger == old(s.ledger) && metrics == old(metrics) && Keys() == old(Keys())
      ensures !old(s.closed) ==> Keys() == Remove(old(Keys()), s.topic, s.id)
      ensures !old(s.closed) ==>
        var c := Shown(old(metrics), s.topic); metrics == old(metrics)[s.topic := c.(gauge := c.gauge - 1)]
    {
      hide Points, Lists, Remove, KeysOf;
      assert s.Valid();
      if !s.closed {
        Shut(s);
      }
    }

    method Cancel(s: Subscriber)
      requires Valid() && s.id < |all| && all[s.id] == s
      modifies s, `topics, `metrics, `agents, `history
      ensures Valid() && View() == Next(old(View()), Step.Cancel(s.id))
      ensures s.closed && s.ch == old(s.ch) && (s.topic !in Keys() || s.id !in Keys()[s.topic])
      ensures old(s.closed) ==> metrics == old(metrics) && Keys() == old(Keys())
      ensures Shown(metrics, s.topic).gauge == Shown(old(metrics), s.topic).gauge - if old(s.closed) then 0 else 1
      ensures history == old(history) + [Step.Cancel(s.id)]
    {
      hide Reaches, Next, Enabled, Calm, KeysOf, Remove, Lists, Shown;
      ghost var before, step := View(), Step.Cancel(s.id);
      assert s.Valid();
      ReachesInv(history, before);
      CancelIs(before, s.id);
      GoesOn(history, before, step);
      Stop(s);
      Settle(Next(before, step), [step]);
    }

    /** Every registered subscription. */
    method Everyone() returns (live: seq<Subscriber>)
      requires Linked()
      ensures forall s :: s in live ==> s.id < |all| && all[s.id] == s
      ensures forall t: string, i: nat :: Lists(Keys(), t, i) ==> i < |all| && all[i] in live
    {
      hide Points, PointInto;
      live := [];
      var left := topics.Keys;
      while left != {}
        invariant left <= topics.Keys
        invariant forall s :: s in live ==> s.id < |all| && all[s.id] == s
        invariant forall t: string, i: nat :: Lists(Keys(), t, i) && t !in left ==> i < |all| && all[i] in live
        decreases |left|
      {
        var t :| t in left;
        left := left - {t};
        var order, subs := Snapshot(t);
        forall i: nat | Lists(Keys(), t, i)
          ensures i < |all| && all[i] in subs
        {
          assert i in order;
        }
        live := live + subs;
      }
    }

    method ClearRegistry()
      requires Linked()
      modifies `topics
      ensures Linked() && topics == map[] && Keys() == map[]
    {
      topics := map[];
    }

    method CancelOne(s: Subscriber)
      requires Linked() && topics == map[] && s.id < |all| && all[s.id] == s
      modifies `topics, `metrics, s
      ensures Linked() && topics == map[] && metrics == old(metrics) && s.ledger == old(s.ledger).(open := false)
    {
      hide Points;
      assert s.Valid();
      if !s.closed {
        s.closed := true;
        s.ledger := s.ledger.(open := false);
        RemoveSubscriber(s.topic, s.id);
      }
    }

    /** Ends the subscriptions of a closed broker, whose registry is empty. */
    method CancelAll(live: seq<Subscriber>)
      requires Linked() && topics == map[] && forall s :: s in live ==> s.id < |all| && all[s.id] == s
      modifies `topics, `metrics, all
      ensures Linked() && topics == map[] && Keys() == map[] && metrics == old(metrics)
      ensures forall i :: 0 <= i < |all| ==>
        Subs()[i] == if all[i] in live then old(Subs())[i].(open := false) else old(Subs())[i]
    {
      hide Linked;
      ghost var before := Subs();
      var k := 0;
      while k < |live|
        invariant 0 <= k <= |live| && Linked() && topics == map[] && metrics == old(metrics)
        invariant forall i :: 0 <= i < |all| ==>
          all[i].ledger == if all[i] in live[..k] then before[i].(open := false) else before[i]
      {
        assert live[k] in live;
        CancelOne(live[k]);
        assert live[..k + 1] == live[..k] + [live[k]];
        k := k + 1;
      }
      assert live[..k] == live;
    }

    /** A subscription's channel is that of its ledger. */
    lemma LedgersTell()
      requires Linked()
      ensures forall i :: 0 <= i < |all| ==> all[i].ch == Subs()[i].buffer && all[i].closed == !Subs()[i].open
    {
      hide Points;
    }

    method Close()
      requires Valid()
      modifies this, all
      ensures Valid() && all == old(all) && old(history) <= history
      ensures View() == if old(closed) then old(View()) else Next(old(View()), Step.Close)
      ensures closed && metrics == old(metrics)
      ensures !old(closed) ==> topics == map[] && forall i :: 0 <= i < |all| ==> all[i].closed
    {
      hide Reaches, Next, Enabled, Calm, Linked, Lists, KeysOf, PubSub.Shut, Ledgers, Inv;
      if closed {
        return;
      }
      ghost var before, step := View(), Step.Close;
      ReachesInv(history, before);
      CloseIs(before);
      GoesOn(history, before, step);
      closed := true;
      var live := Everyone();
      forall i | 0 <= i < |all| && before.subs[i].open
        ensures all[i] in live
      {
        assert Keys() == before.topics && Lists(Keys(), before.subs[i].topic, i);
      }
      ClearRegistry();
      CancelAll(live);
      LedgersTell();
      Settle(Next(before, step), [step]);
    }

    /** Between calls the counters tell exactly what was kept and what was offered. */
    lemma CountersTell(topic: string)
      requires Valid()
      ensures var c := Shown(metrics, topic);
              && c.delivered - c.oldest == Held(Subs(), topic)
              && Offered(Subs(), topic) == c.delivered + c.newest + c.timeouts + c.closes
    {
      CalmCountersAreExact(|agents|, history, topic);
      ReachesInv(history, View());
      hide CalmRun, Run, End;
      assert Quiet(View(), topic);
    }

    /** The subscriptions to a topic in some order. */
    method Snapshot(topic: string) returns (order: seq<nat>, subs: seq<Subscriber>)
      requires Linked()
      ensures |order| == |subs| && Enumerates(order, if topic in Keys() then Keys()[topic] else {})
      ensures Fit(order, subs, all)
    {
      order, subs := [], [];
      if topic !in topics {
        return;
      }
      var live := topics[topic];
      assert PointInto(live, all);
      var ids := live.Keys;
      while ids != {}
        invariant ids <= live.Keys && |order| == |subs| && Enumerates(order, live.Keys - ids)
        invariant forall k :: 0 <= k < |order| ==> order[k] < |all| && subs[k] == all[order[k]]
        decreases |ids|
      {
        var id :| id in ids;
        ids := ids - {id};
        order, subs := order + [id], subs + [live[id]];
      }
      assert live.Keys - ids == live.Keys;
    }

    /** Records what has just been carried out. */
    ghost method Settle(after: State, steps: seq<Step>)
      requires Linked() && Reaches(history + steps, after)
      requires Subs() == after.subs && Keys() == after.topics && metrics == after.metrics && closed == after.closed
      modifies `agents, `history
      ensures Linked() && Reached() && View() == after && agents == after.agents && history == old(history) + steps
    {
      hide Reaches, Linked, KeysOf;
      agents := after.agents;
      history := history + steps;
    }
  }

  lemma SubscribeIs(s: State, topic: string, options: Options)
    ensures var step, o, c := Step.Subscribe(topic, options), Normalize(options), Shown(s.metrics, topic);
            && Enabled(s, step) && Calm(s, step)
            && (!Accepts(s, topic) ==> Next(s, step) == s)
            && (Accepts(s, topic) ==>
                  Next(s, step) == State(s.subs + [Sub(topic, o.bufferSize, o.policy, [], true, [], 0, 0, 0, 0, 0)],
                    s.topics[topic := (if topic in s.topics then s.topics[topic] else {}) + {|s.subs|}],
                    s.metrics[topic := c.(gauge := c.gauge + 1)], s.agents, s.closed))
  {
  }

  ghost predicate Reaches(history: seq<Step>, s: State) {
    CalmRun(Start(|s.agents|), history) && Run(Start(|s.agents|), history) && End(Start(|s.agents|), history) == s
  }

  lemma GoesOn(history: seq<Step>, s: State, step: Step)
    requires Reaches(history, s) && Enabled(s, step) && Calm(s, step)
    ensures Reaches(history + [step], Next(s, step))
  {
    SameCrew(s, step);
    hide CalmRun, Run, End, Enabled, Calm, Next;
    CalmRunGoesOn(Start(|s.agents|), history, step);
  }

  // ---------- deliveries as runs of the machine ----------

  lemma ReachesInv(history: seq<Step>, s: State)
    requires Reaches(history, s)
    ensures Inv(s)
  {
    StartIsOk(|s.agents|);
    RunKeepsInv(Start(|s.agents|), history);
  }

  /** Publisher `p` is about to deliver to subscription `i`, and nobody else is delivering. */
  ghost predicate About(s: State, i: nat, m: Message, p: nat) {
    && i < |s.subs| && p < |s.agents| && s.agents[p].job.At(i) && s.agents[p].job.msg == m
    && s.agents[p].job.stage == Ready && forall q :: 0 <= q < |s.agents| && q != p ==> s.agents[q].job.Idle?
  }

  /** The state with subscription `i` and its publisher's job as given. */
  function With(s: State, i: nat, sub: Sub, c: Tally, p: nat, job: Job): State
    requires i < |s.subs| && p < |s.agents|
  {
    State(s.subs[i := sub], if s.subs[i].open && !sub.open then Remove(s.topics, sub.topic, i) else s.topics,
          s.metrics[sub.topic := c], s.agents[p := s.agents[p].(job := job)], s.closed)
  }

  lemma AdvanceIs(s: State, i: nat, p: nat, timeout: bool)
    requires i < |s.subs| && p < |s.agents| && s.agents[p].job.At(i)
    requires forall q :: 0 <= q < |s.agents| && q != p ==> s.agents[q].job.Idle?
    requires s.agents[p].job.stage.Waiting? && !timeout ==> s.subs[i].HasRoom()
    ensures Enabled(s, Advance(p, timeout)) && Calm(s, Advance(p, timeout))
    ensures var job := s.agents[p].job;
            var c0 := Shown(s.metrics, s.subs[i].topic);
            var (sub, c, next) := PubSub.Deliver(s.subs[i], c0, job.msg, job.stage, timeout);
            sub.topic == s.subs[i].topic &&
            Next(s, Advance(p, timeout)) == With(s, i, sub, c, p, JobAfter(job, next))
  {
    hide Remove, JobAfter;
  }

  lemma WithTwice(s: State, i: nat, sub: Sub, c: Tally, p: nat, job: Job, sub': Sub, c': Tally, job': Job)
    requires i < |s.subs| && p < |s.agents| && sub.open == s.subs[i].open
    requires sub.topic == sub'.topic == s.subs[i].topic
    ensures With(With(s, i, sub, c, p, job), i, sub', c', p, job') == With(s, i, sub', c', p, job')
    ensures Shown(With(s, i, sub, c, p, job).metrics, sub.topic) == c
  {
    hide Remove;
    var t := With(s, i, sub, c, p, job);
    assert t.subs[i := sub'] == s.subs[i := sub'];
    assert t.metrics[sub'.topic := c'] == s.metrics[sub'.topic := c'];
    assert t.agents[p := t.agents[p].(job := job')] == s.agents[p := s.agents[p].(job := job')];
  }

  /** One recorded stage. */
  lemma Stage(history: seq<Step>, s: State, i: nat, p: nat, timeout: bool)
    requires Reaches(history, s) && i < |s.subs| && p < |s.agents| && s.agents[p].job.At(i)
    requires forall q :: 0 <= q < |s.agents| && q != p ==> s.agents[q].job.Idle?
    requires s.agents[p].job.stage.Waiting? && !timeout ==> s.subs[i].HasRoom()
    ensures var job := s.agents[p].job;
            var c0 := Shown(s.metrics, s.subs[i].topic);
            var (sub, c, next) := PubSub.Deliver(s.subs[i], c0, job.msg, job.stage, timeout);
            sub.topic == s.subs[i].topic &&
            Reaches(history + [Advance(p, timeout)], With(s, i, sub, c, p, JobAfter(job, next)))
  {
    AdvanceIs(s, i, p, timeout);
    hide Reaches, Enabled, Calm, Next, PubSub.Deliver, With, JobAfter;
    GoesOn(history, s, Advance(p, timeout));
  }

  /** The state after an undisturbed delivery. */
  function AfterDelivery(s: State, i: nat, m: Message, p: nat): State
    requires i < |s.subs| && p < |s.agents| && s.agents[p].job.At(i)
  {
    var sub := s.subs[i];
    var c := Shown(s.metrics, sub.topic);
    With(s, i, Given(sub, m), if sub.open then Charged(c, sub) else c, p, JobAfter(s.agents[p].job, None))
  }

  /** One more recorded stage. */
  lemma Follow(history: seq<Step>, steps: seq<Step>, s: State, i: nat, p: nat, timeout: bool, sub: Sub, c: Tally,
               job: Job, sub': Sub, c': Tally, next: Option<Stage>)
    requires i < |s.subs| && p < |s.agents| && job.At(i)
    requires sub.open == s.subs[i].open && sub.topic == s.subs[i].topic
    requires forall q :: 0 <= q < |s.agents| && q != p ==> s.agents[q].job.Idle?
    requires Reaches(history + steps, With(s, i, sub, c, p, job))
    requires job.stage.Waiting? && !timeout ==> sub.HasRoom()
    requires PubSub.Deliver(sub, c, job.msg, job.stage, timeout) == (sub', c', next)
    ensures Reaches(history + (steps + [Advance(p, timeout)]), With(s, i, sub', c', p, JobAfter(job, next)))
  {
    hide Reaches, JobAfter, PubSub.Deliver, Remove;
    var t := With(s, i, sub, c, p, job);
    Stage(history + steps, t, i, p, timeout);
    WithTwice(s, i, sub, c, p, job, sub', c', JobAfter(job, next));
    assert history + steps + [Advance(p, timeout)] == history + (steps + [Advance(p, timeout)]);
  }

  /** The counters that an undisturbed delivery increments. */
  function Columns(sub: Sub): seq<Column> {
    if sub.HasRoom() then [Delivered]
    else
      match sub.policy
      case DropNewest => [Newest]
      case BlockWithTimeout => [Timeouts]
      case CloseSubscriber => [Closes]
      case _ => [Delivered, Oldest]
  }

  /** The job once the message is sent, or refused. */
  function Sent(job: Job, sub: Sub): Job
    requires job.Busy?
  {
    job.(stage := Counting(Columns(sub), sub.policy.CloseSubscriber? && !sub.HasRoom()))
  }

  lemma SendRuns(history: seq<Step>, s: State, i: nat, m: Message, p: nat) returns (steps: seq<Step>)
    requires Reaches(history, s) && About(s, i, m, p) && SubOk(s.subs[i]) && s.subs[i].open
    ensures var sub := s.subs[i];
            Reaches(history + steps,
              With(s, i, Given(sub, m).(open := true), Shown(s.metrics, sub.topic), p, Sent(s.agents[p].job, sub)))
  {
    var sub, job, step := s.subs[i], s.agents[p].job, Advance(p, false);
    var c, given := Shown(s.metrics, sub.topic), Given(sub, m).(open := true);
    Stage(history, s, i, p, false);
    steps := [step];
    hide Reaches, With;
    if sub.policy.BlockWithTimeout? {
      var late := !sub.HasRoom();
      Follow(history, steps, s, i, p, late, sub, c, job.(stage := Waiting), given, c, Some(Sent(job, sub).stage));
      steps := steps + [Advance(p, late)];
    } else if sub.policy.DropOldest? && !sub.HasRoom() {
      Follow(history, steps, s, i, p, false, sub, c, job.(stage := Evicting), sub.Evict(), c, Some(Resending));
      steps := steps + [step];
      assert sub.Evict().Resend(m) == given;
      Follow(history, steps, s, i, p, false, sub.Evict(), c, job.(stage := Resending), given, c,
        Some(Sent(job, sub).stage));
      steps := steps + [step];
    }
  }

  /** What remains once the message is sent, or refused: the counters, and the end of a slow subscription. */
  lemma CountRuns(history: seq<Step>, steps: seq<Step>, s: State, i: nat, m: Message, p: nat)
    returns (steps': seq<Step>)
    requires About(s, i, m, p) && SubOk(s.subs[i]) && s.subs[i].open
    requires var sub := s.subs[i];
             Reaches(history + steps,
               With(s, i, Given(sub, m).(open := true), Shown(s.metrics, sub.topic), p, Sent(s.agents[p].job, sub)))
    ensures Reaches(history + steps', AfterDelivery(s, i, m, p))
  {
    hide Reaches, With;
    var sub, job, step := s.subs[i], s.agents[p].job, Advance(p, false);
    var c, given, sent := Shown(s.metrics, sub.topic), Given(sub, m).(open := true), Sent(job, sub);
    var last := Charged(c, sub).(gauge := c.gauge);
    if |Columns(sub)| == 2 {
      assert Columns(sub)[1..] == [Oldest];
      var c' := Bump(c, Delivered);
      Follow(history, steps, s, i, p, false, given, c, sent, given, c', Some(Counting([Oldest], false)));
      var oldest := job.(stage := Counting([Oldest], false));
      Follow(history, steps + [step], s, i, p, false, given, c', oldest, given, last, None);
      steps' := steps + [step] + [step];
    } else if sent.stage.close {
      Follow(history, steps, s, i, p, false, given, c, sent, given, last, Some(Closing));
      var closing := job.(stage := Closing);
      Follow(history, steps + [step], s, i, p, false, given, last, closing, Given(sub, m), Charged(c, sub), None);
      steps' := steps + [step] + [step];
    } else {
      Follow(history, steps, s, i, p, false, given, c, sent, given, last, None);
      steps' := steps + [step];
    }
  }

  /** An undisturbed delivery is a run of the machine. */
  lemma DeliveryRuns(history: seq<Step>, s: State, i: nat, m: Message, p: nat) returns (steps: seq<Step>)
    requires Reaches(history, s) && About(s, i, m, p)
    ensures Reaches(history + steps, AfterDelivery(s, i, m, p))
  {
    hide Reaches, With;
    ReachesInv(history, s);
    assert SubOk(s.subs[i]);
    if s.subs[i].open {
      var sends := SendRuns(history, s, i, m, p);
      steps := CountRuns(history, sends, s, i, m, p);
    } else {
      Stage(history, s, i, p, false);
      steps := [Advance(p, false)];
    }
  }

  lemma HandIs(s: State, i: nat, m: Message, p: nat)
    requires Inv(s) && About(s, i, m, p)
    ensures var sub, t := s.subs[i], AfterDelivery(s, i, m, p);
            var given, c := Given(sub, m), Shown(s.metrics, sub.topic);
            && |sub.buffer| <= sub.size && 0 < sub.size && (sub.open ==> Lists(s.topics, sub.topic, i))
            && t.subs == s.subs[i := given] && t.closed == s.closed && |t.agents| == |s.agents|
            && (sub.topic in s.metrics ==>
                  t.metrics == if sub.open then s.metrics[sub.topic := Charged(c, sub)] else s.metrics)
            && t.topics == if !sub.open || given.open then s.topics else Remove(s.topics, sub.topic, i)
  {
    hide Remove;
    assert SubOk(s.subs[i]);
  }

  // ---------- publishing as a run of the machine ----------

  /** The job of delivering `m` to what is left of `order`. */
  function JobAt(m: Message, order: seq<nat>, k: nat): Job {
    if k < |order| then Busy(m, order[k..], Ready) else Idle
  }

  lemma PublishIs(history: seq<Step>, s: State, m: Message, p: nat, topic: string, order: seq<nat>)
    requires Reaches(history, s) && Accepts(s, topic) && p < |s.agents|
    requires forall q :: 0 <= q < |s.agents| ==> s.agents[q].job.Idle?
    requires m == Message(topic, p, s.agents[p].number + 1)
    requires Enumerates(order, if topic in s.topics then s.topics[topic] else {})
    ensures var step := Publish(p, topic, order);
            && (forall i :: i in order <==> Lists(s.topics, topic, i))
            && (forall j, k :: 0 <= j < k < |order| ==> order[j] != order[k])
            && Enabled(s, step) && Calm(s, step) && Reaches(history + [step], Next(s, step))
            && Next(s, step) ==
                 State(s.subs, s.topics, s.metrics, s.agents[p := Agent(m.number, JobAt(m, order, 0))], s.closed)
  {
    var step := Publish(p, topic, order);
    assert order[0..] == order;
    assert topic !in s.topics ==> order == [] by {
      assert order != [] ==> order[0] in order;
    }
    GoesOn(history, s, step);
  }

  /** The subscriptions after the first `k` deliveries. */
  function GiveAll(subs: seq<Sub>, order: seq<nat>, k: nat, m: Message): (r: seq<Sub>)
    requires k <= |order| && forall j :: 0 <= j < |order| ==> order[j] < |subs|
    ensures |r| == |subs|
  {
    if k == 0 then subs
    else
      var before := GiveAll(subs, order, k - 1, m);
      before[order[k - 1] := Given(before[order[k - 1]], m)]
  }

  /** The subscriptions in this order. */
  ghost predicate Fit(order: seq<nat>, subs: seq<Subscriber>, all: seq<Subscriber>) {
    |order| == |subs| &&
    forall k :: 0 <= k < |order| ==> order[k] < |all| && subs[k] == all[order[k]] && subs[k].id == order[k]
  }

  lemma FitAt(order: seq<nat>, subs: seq<Subscriber>, all: seq<Subscriber>, k: nat)
    requires Fit(order, subs, all)
    ensures |order| == |subs| && forall j :: 0 <= j < |order| ==> order[j] < |all|
    ensures k < |order| ==> order[k] < |all| && subs[k] == all[order[k]] && subs[k].id == order[k]
  {
  }

  lemma GiveNext(subs: seq<Sub>, order: seq<nat>, k: nat, m: Message)
    requires k <= |order| && forall j :: 0 <= j < |order| ==> order[j] < |subs|
    ensures var r := GiveAll(subs, order, k, m);
            && |r| == |subs| && (k == 0 ==> r == subs)
            && (k < |order| ==> GiveAll(subs, order, k + 1, m) == r[order[k] := Given(r[order[k]], m)])
  {
    hide Given;
  }

  lemma {:induction false} GiveAllIs(subs: seq<Sub>, order: seq<nat>, k: nat, m: Message)
    requires k <= |order| && forall j :: 0 <= j < |order| ==> order[j] < |subs|
    requires forall i, j :: 0 <= i < j < |order| ==> order[i] != order[j]
    ensures forall i :: 0 <= i < |subs| ==>
      GiveAll(subs, order, k, m)[i] == if i in order[..k] then Given(subs[i], m) else subs[i]
    decreases k
  {
    hide Given;
    if k == 0 {
    } else {
      GiveAllIs(subs, order, k - 1, m);
      assert order[k - 1] !in order[..k - 1] && order[..k] == order[..k - 1] + [order[k - 1]];
    }
  }

  /** The counters after a delivery to a subscription. */
  function Account(metrics: map<string, Tally>, sub: Sub): map<string, Tally> {
    var c := Shown(metrics, sub.topic);
    metrics[sub.topic := if sub.open then Charged(c, sub) else c]
  }

  /** The counters of a topic after the first `k` deliveries. */
  function ChargeAll(c: Tally, subs: seq<Sub>, order: seq<nat>, k: nat): Tally
    requires k <= |order| && forall j :: 0 <= j < |order| ==> order[j] < |subs|
  {
    if k == 0 then c
    else
      var c', sub := ChargeAll(c, subs, order, k - 1), subs[order[k - 1]];
      if sub.open then Charged(c', sub) else c'
  }

  ghost predicate OnTopic(order: seq<nat>, subs: seq<Sub>, topic: string) {
    forall j :: 0 <= j < |order| ==> order[j] < |subs| && subs[order[j]].topic == topic
  }

  /** The first `k` deliveries have been counted for this topic, and nothing for any other. */
  ghost predicate Metered(metrics: map<string, Tally>, metrics0: map<string, Tally>, subs: seq<Sub>, order: seq<nat>,
                          k: nat, topic: string)
  {
    && k <= |order| && (forall j :: 0 <= j < |order| ==> order[j] < |subs|)
    && (forall t: string :: t != topic ==> Shown(metrics, t) == Shown(metrics0, t))
    && Shown(metrics, topic) == ChargeAll(Shown(metrics0, topic), subs, order, k)
  }

  lemma NothingMetered(metrics: map<string, Tally>, subs: seq<Sub>, order: seq<nat>, topic: string)
    requires OnTopic(order, subs, topic)
    ensures Metered(metrics, metrics, subs, order, 0, topic)
  {
  }

  lemma MeteredOn(metrics: map<string, Tally>, metrics0: map<string, Tally>, subs: seq<Sub>, order: seq<nat>, k: nat,
                  topic: string)
    requires k < |order| && OnTopic(order, subs, topic) && Metered(metrics, metrics0, subs, order, k, topic)
    ensures order[k] < |subs| && Metered(Account(metrics, subs[order[k]]), metrics0, subs, order, k + 1, topic)
  {
    hide Charged;
  }

  /** The next subscription is still as it was before all deliveries. */
  lemma NotYetGiven(subs: seq<Sub>, order: seq<nat>, k: nat, m: Message)
    requires k < |order| && forall j :: 0 <= j < |order| ==> order[j] < |subs|
    requires forall i, j :: 0 <= i < j < |order| ==> order[i] != order[j]
    ensures GiveAll(subs, order, k, m)[order[k]] == subs[order[k]]
  {
    hide Given, GiveAll;
    GiveAllIs(subs, order, k, m);
  }

  lemma OrderIsOnTopic(history: seq<Step>, s: State, topic: string, order: seq<nat>)
    requires Reaches(history, s) && forall i :: i in order <==> Lists(s.topics, topic, i)
    ensures OnTopic(order, s.subs, topic)
  {
    hide Reaches, Lists;
    ReachesInv(history, s);
    assert Registered(s.topics, s.subs);
    forall j | 0 <= j < |order|
      ensures order[j] < |s.subs| && s.subs[order[j]].topic == topic
    {
      assert order[j] in order && Lists(s.topics, topic, order[j]);
    }
  }

  lemma JobEnds(m: Message, order: seq<nat>)
    ensures JobAt(m, order, |order|) == Idle
  {
  }

  lemma Prepare(s: State, order: seq<nat>, k: nat, m: Message, p: nat)
    requires k < |order| && p < |s.agents| && s.agents[p].job == JobAt(m, order, k)
    requires order[k] < |s.subs| && forall q :: 0 <= q < |s.agents| && q != p ==> s.agents[q].job.Idle?
    ensures About(s, order[k], m, p)
  {
  }

  lemma AfterHand(s: State, order: seq<nat>, k: nat, m: Message, p: nat)
    requires k < |order| && About(s, order[k], m, p) && s.agents[p].job == JobAt(m, order, k)
    ensures var t := AfterDelivery(s, order[k], m, p);
            && t.agents == s.agents[p := Agent(s.agents[p].number, JobAt(m, order, k + 1))]
            && t.subs == s.subs[order[k] := Given(s.subs[order[k]], m)]
            && t.metrics == Account(s.metrics, s.subs[order[k]])
  {
    assert order[k..][1..] == order[k + 1..];
  }

  // ---------- receiving and cancelling as steps of the machine ----------

  lemma ReceiveIs(s: State, i: nat)
    requires i < |s.subs| && s.subs[i].buffer != []
    requires forall q :: 0 <= q < |s.agents| ==> s.agents[q].job.Idle?
    ensures var step := Step.Receive(i);
            && Enabled(s, step) && Calm(s, step)
            && Next(s, step) == State(s.subs[i := s.subs[i].Receive()], s.topics, s.metrics, s.agents, s.closed)
  {
  }

  lemma CancelIs(s: State, i: nat)
    requires i < |s.subs| && Inv(s)
    requires forall q :: 0 <= q < |s.agents| ==> s.agents[q].job.Idle?
    ensures var step, sub := Step.Cancel(i), s.subs[i];
            var c := Shown(s.metrics, sub.topic);
            && Enabled(s, step) && Calm(s, step)
            && (sub.topic !in Next(s, step).topics || i !in Next(s, step).topics[sub.topic])
            && Shown(Next(s, step).metrics, sub.topic).gauge == c.gauge - (if sub.open then 1 else 0)
            && (!sub.open ==> Next(s, step) == s)
            && (sub.open ==> Lists(s.topics, sub.topic, i))
            && (sub.open ==>
                  Next(s, step) == State(s.subs[i := sub.(open := false)], Remove(s.topics, sub.topic, i),
                                         s.metrics[sub.topic := c.(gauge := c.gauge - 1)], s.agents, s.closed))
  {
    NotListed(s.topics, s.subs[i].topic, i);
    assert Lists(s.topics, s.subs[i].topic, i) <==> s.subs[i].open;
    hide Remove;
  }

  lemma NotListed(topics: map<string, set<nat>>, topic: string, i: nat)
    ensures var topics' := Remove(topics, topic, i); topic !in topics' || i !in topics'[topic]
  {
  }

  lemma CloseIs(s: State)
    requires Inv(s)
    requires forall q :: 0 <= q < |s.agents| ==> s.agents[q].job.Idle?
    ensures Enabled(s, Step.Close) && Calm(s, Step.Close)
    ensures Next(s, Step.Close) == State(PubSub.Shut(s.subs), map[], s.metrics, s.agents, true)
    ensures forall i :: 0 <= i < |s.subs| && s.subs[i].open ==> Lists(s.topics, s.subs[i].topic, i)
  {
  }
}
