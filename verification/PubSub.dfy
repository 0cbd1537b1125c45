/** In-process publish/subscribe (pkg/pubsub) with publishers and receivers interleaved: every operation on a channel is
    one step, and every increment of a counter another; what happens under the broker's lock is one step. Cancelling is
    one step, although `Cancel` (pubsub.go:25-33) marks the subscription closed before it takes the lock: the moment in
    which a closed subscription is still registered is not seen. A subscription is not cancelled between the first look
    at it and the last channel operation of a delivery to it, where `deliver` (pubsub.go:169-254) would send on a closed
    channel. */
module PubSub {
  import opened Wrappers

  datatype Policy = DropOldest | DropNewest | BlockWithTimeout | CloseSubscriber | Unknown(code: int)

  datatype Options = Options(bufferSize: int, policy: Policy)

  /** `normalizeSubOptions`. */
  function Normalize(o: Options): (r: Options)
    ensures r.bufferSize > 0 && !r.policy.Unknown?
  {
    Options(if o.bufferSize <= 0 then 16 else o.bufferSize, if o.policy.Unknown? then DropOldest else o.policy)
  }

  /** The publisher and the running number of its call of `Publish` identify the message. */
  datatype Message = Message(topic: string, from: nat, number: nat)

  /** A subscription: its channel, and a ledger of what happened to it that the program does not keep. `evicted`
      messages were taken out to make room, `hollow` counts evictions that found the channel empty, `failed` sends
      after an eviction that found it full again, `refused` messages dropped by the other policies, `offered`
      deliveries decided while it was open. */
  datatype Sub = Sub(topic: string, size: nat, policy: Policy, buffer: seq<Message>, open: bool,
                     received: seq<Message>, evicted: nat, hollow: nat, failed: nat, refused: nat, offered: nat) {
    predicate HasRoom() {
      |buffer| < size
    }

    function Put(m: Message): Sub {
      this.(buffer := buffer + [m], offered := offered + 1)
    }

    function Refuse(): Sub {
      this.(refused := refused + 1, offered := offered + 1)
    }

    function Evict(): Sub {
      if buffer == [] then this.(hollow := hollow + 1)
      else this.(buffer := buffer[1..], evicted := evicted + 1)
    }

    function Resend(m: Message): Sub {
      if HasRoom() then Put(m) else this.(failed := failed + 1, offered := offered + 1)
    }

    function Receive(): Sub
      requires buffer != []
    {
      this.(buffer := buffer[1..], received := received + [buffer[0]])
    }

    /** What came through, and what is still to come. */
    function Line(): seq<Message> {
      received + buffer
    }
  }

  /** The counters of a topic. */
  datatype Tally = Tally(delivered: int, oldest: int, newest: int, timeouts: int, closes: int, gauge: int)

  const ZERO := Tally(0, 0, 0, 0, 0, 0)

  datatype Column = Delivered | Oldest | Newest | Timeouts | Closes | Gauge

  function Get(c: Tally, col: Column): int {
    match col
    case Delivered => c.delivered
    case Oldest => c.oldest
    case Newest => c.newest
    case Timeouts => c.timeouts
    case Closes => c.closes
    case Gauge => c.gauge
  }

  function Bump(c: Tally, col: Column): Tally {
    match col
    case Delivered => c.(delivered := c.delivered + 1)
    case Oldest => c.(oldest := c.oldest + 1)
    case Newest => c.(newest := c.newest + 1)
    case Timeouts => c.(timeouts := c.timeouts + 1)
    case Closes => c.(closes := c.closes + 1)
    case Gauge => c.(gauge := c.gauge + 1)
  }

  /** Where a delivery stands; `Counting` has the counters still to be incremented, after which the subscription may
      have to be cancelled. */
  datatype Stage = Ready | Waiting | Evicting | Resending | Counting(columns: seq<Column>, close: bool) | Closing {
    /** The channel has yet to be sent to. */
    predicate Sending() {
      !Counting? && !Closing?
    }
  }

  datatype Job = Idle | Busy(msg: Message, todo: seq<nat>, stage: Stage) {
    predicate At(i: nat) {
      Busy? && todo != [] && todo[0] == i
    }

    /** Between the first look at subscription `i` and the last operation on its channel. */
    predicate Engaged(i: nat) {
      At(i) && stage.Sending() && stage != Ready
    }

    /** The message has yet to be sent to subscription `i`. */
    predicate Due(i: nat) {
      Busy? && todo != [] && ((At(i) && stage.Sending()) || i in todo[1..])
    }
  }

  datatype Agent = Agent(number: nat, job: Job)

  datatype State = State(subs: seq<Sub>, topics: map<string, set<nat>>, metrics: map<string, Tally>,
                         agents: seq<Agent>, closed: bool)

  datatype Step =
    | Subscribe(topic: string, options: Options)
    | Publish(p: nat, topic: string, order: seq<nat>)
    | Advance(p: nat, timeout: bool)
    | Receive(i: nat)
    | Cancel(i: nat)
    | Close

  function Shown(metrics: map<string, Tally>, topic: string): Tally {
    if topic in metrics then metrics[topic] else ZERO
  }

  /** What one stage of `deliver` does to the subscription and the counters of its topic, and the stage that follows,
      if the delivery is not over. */
  function Deliver(sub: Sub, c: Tally, m: Message, stage: Stage, timeout: bool): (Sub, Tally, Option<Stage>) {
    match stage
    case Ready =>
      if !sub.open then (sub, c, None)
      else if sub.policy.BlockWithTimeout? then (sub, c, Some(Waiting))
      else if sub.HasRoom() then (sub.Put(m), c, Some(Counting([Delivered], false)))
      else if sub.policy.DropNewest? then (sub.Refuse(), c, Some(Counting([Newest], false)))
      else if sub.policy.CloseSubscriber? then (sub.Refuse(), c, Some(Counting([Closes], true)))
      else (sub, c, Some(Evicting))
    case Waiting =>
      if timeout then (sub.Refuse(), c, Some(Counting([Timeouts], false)))
      else (sub.Put(m), c, Some(Counting([Delivered], false)))
    case Evicting => (sub.Evict(), c, Some(Resending))
    case Resending =>
      (sub.Resend(m), c, Some(Counting(if sub.HasRoom() then [Delivered, Oldest] else [Oldest, Oldest], false)))
    case Counting(columns, close) =>
      if columns == [] then (sub, c, None)
      else
        (sub, Bump(c, columns[0]),
         if |columns| > 1 then Some(Counting(columns[1..], close)) else if close then Some(Closing) else None)
    case Closing =>
      if sub.open then (sub.(open := false), c.(gauge := c.gauge - 1), None) else (sub, c, None)
  }

  function Remove(topics: map<string, set<nat>>, topic: string, i: nat): map<string, set<nat>> {
    if topic !in topics then topics
    else if topics[topic] - {i} == {} then topics - {topic}
    else topics[topic := topics[topic] - {i}]
  }

  function JobAfter(job: Job, next: Option<Stage>): Job
    requires job.Busy? && job.todo != []
  {
    if next.Some? then job.(stage := next.value)
    else if |job.todo| == 1 then Idle
    else Busy(job.msg, job.todo[1..], Ready)
  }

  predicate Enumerates(order: seq<nat>, ids: set<nat>) {
    && (forall j, k :: 0 <= j < k < |order| ==> order[j] != order[k])
    && (forall i :: i in order ==> i in ids) && (forall i :: i in ids ==> i in order)
  }

  predicate Accepts(s: State, topic: string) {
    !s.closed && topic != ""
  }

  predicate Enabled(s: State, step: Step) {
    match step
    case Subscribe(_, _) => true
    case Publish(p, topic, order) =>
      && p < |s.agents| && s.agents[p].job.Idle?
      && (Accepts(s, topic) && topic in s.topics ==> Enumerates(order, s.topics[topic]))
    case Advance(p, timeout) =>
      && p < |s.agents| && s.agents[p].job.Busy? && s.agents[p].job.todo != []
      && s.agents[p].job.todo[0] < |s.subs|
      && (s.agents[p].job.stage.Waiting? && !timeout ==> s.subs[s.agents[p].job.todo[0]].HasRoom())
    case Receive(i) => i < |s.subs| && s.subs[i].buffer != []
    case Cancel(i) => i < |s.subs| && forall p :: 0 <= p < |s.agents| ==> !s.agents[p].job.Engaged(i)
    case Close => forall p, i :: 0 <= p < |s.agents| && 0 <= i < |s.subs| ==> !s.agents[p].job.Engaged(i)
  }

  function Shut(subs: seq<Sub>): (r: seq<Sub>)
    ensures |r| == |subs| && forall i :: 0 <= i < |subs| ==> r[i] == subs[i].(open := false)
  {
    if subs == [] then [] else Shut(subs[..|subs| - 1]) + [subs[|subs| - 1].(open := false)]
  }

  function Next(s: State, step: Step): State
    requires Enabled(s, step)
  {
    match step
    case Subscribe(topic, options) =>
      if !Accepts(s, topic) then s
      else
        var o, id, c := Normalize(options), |s.subs|, Shown(s.metrics, topic);
        s.(subs := s.subs + [Sub(topic, o.bufferSize, o.policy, [], true, [], 0, 0, 0, 0, 0)],
           topics := s.topics[topic := (if topic in s.topics then s.topics[topic] else {}) + {id}],
           metrics := s.metrics[topic := c.(gauge := c.gauge + 1)])
    case Publish(p, topic, order) =>
      if !Accepts(s, topic) then s
      else
        var number := s.agents[p].number + 1;
        var job :=
          if topic in s.topics && order != [] then Busy(Message(topic, p, number), order, Ready) else Idle;
        s.(agents := s.agents[p := Agent(number, job)])
    case Advance(p, timeout) =>
      var agent := s.agents[p];
      var i := agent.job.todo[0];
      var sub := s.subs[i];
      var (sub', c, next) := Deliver(sub, Shown(s.metrics, sub.topic), agent.job.msg, agent.job.stage, timeout);
      s.(subs := s.subs[i := sub'],
         topics := if sub.open && !sub'.open then Remove(s.topics, sub.topic, i) else s.topics,
         metrics := s.metrics[sub.topic := c],
         agents := s.agents[p := agent.(job := JobAfter(agent.job, next))])
    case Receive(i) => s.(subs := s.subs[i := s.subs[i].Receive()])
    case Cancel(i) =>
      var sub := s.subs[i];
      if !sub.open then s
      else
        var c := Shown(s.metrics, sub.topic);
        s.(subs := s.subs[i := sub.(open := false)],
           topics := Remove(s.topics, sub.topic, i),
           metrics := s.metrics[sub.topic := c.(gauge := c.gauge - 1)])
    case Close => s.(subs := Shut(s.subs), topics := map[], closed := true)
  }

  /** A new broker and `n` idle publishers. */
  function Start(n: nat): State {
    State([], map[], map[], seq(n, _ => Agent(0, Idle)), false)
  }

  ghost predicate Run(s: State, steps: seq<Step>)
    decreases |steps|
  {
    steps == [] || (Enabled(s, steps[0]) && Run(Next(s, steps[0]), steps[1..]))
  }

  function End(s: State, steps: seq<Step>): State
    requires Run(s, steps)
    decreases |steps|
  {
    if steps == [] then s else End(Next(s, steps[0]), steps[1..])
  }

  // ---------- the books of one subscription ----------

  /** What a subscription has to show up in a column of its topic. */
  function Share(sub: Sub, col: Column): int {
    match col
    case Delivered => |sub.received| + |sub.buffer| + sub.evicted
    case Oldest => sub.evicted + sub.hollow + sub.failed
    case Newest => if sub.policy.DropNewest? then sub.refused else 0
    case Timeouts => if sub.policy.BlockWithTimeout? then sub.refused else 0
    case Closes => if sub.policy.CloseSubscriber? then sub.refused else 0
    case Gauge => if sub.open then 1 else 0
  }

  predicate SubOk(sub: Sub) {
    && 0 < sub.size && |sub.buffer| <= sub.size && !sub.policy.Unknown?
    && sub.offered == |sub.received| + |sub.buffer| + sub.evicted + sub.failed + sub.refused
    && (sub.policy.DropOldest? ==> sub.refused == 0)
    && (!sub.policy.DropOldest? ==> sub.evicted + sub.hollow + sub.failed == 0)
  }

  /** The stage fits the subscription that is being served. */
  predicate StageOk(sub: Sub, stage: Stage) {
    && (stage.Waiting? ==> sub.open && sub.policy.BlockWithTimeout?)
    && (stage.Evicting? || stage.Resending? ==> sub.open && sub.policy.DropOldest?)
    && (stage.Counting? ==> stage.columns != [] && Gauge !in stage.columns)
    && (stage.Closing? || (stage.Counting? && stage.close) ==> sub.policy.CloseSubscriber?)
  }

  function Occurs(columns: seq<Column>, col: Column): nat {
    if columns == [] then 0 else (if columns[0] == col then 1 else 0) + Occurs(columns[1..], col)
  }

  /** What the publisher has yet to count: an eviction before the second send, then all of its counting. */
  function Owes(stage: Stage, col: Column): nat {
    match stage
    case Resending => if col == Oldest then 1 else 0
    case Counting(columns, _) => Occurs(columns, col)
    case _ => 0
  }

  function OwesNext(next: Option<Stage>, col: Column): nat {
    if next.Some? then Owes(next.value, col) else 0
  }

  lemma OccursInShort(a: Column, b: Column, col: Column)
    ensures Occurs([a], col) == (if a == col then 1 else 0)
    ensures Occurs([a, b], col) == (if a == col then 1 else 0) + (if b == col then 1 else 0)
  {
    assert [a][1..] == [] && [b][1..] == [] && [a, b][1..] == [b];
    assert Occurs([b], col) == if b == col then 1 else 0;
  }

  lemma DeliverKeepsOk(sub: Sub, c: Tally, m: Message, stage: Stage, timeout: bool)
    requires SubOk(sub) && StageOk(sub, stage) && (stage.Waiting? && !timeout ==> sub.HasRoom())
    ensures SubOk(Deliver(sub, c, m, stage, timeout).0)
  {
  }

  /** One stage of a delivery keeps the books: counters and what is owed to them change together as the subscription's
      share does. */
  lemma DeliverBalances(sub: Sub, c: Tally, m: Message, stage: Stage, timeout: bool, col: Column)
    requires SubOk(sub) && StageOk(sub, stage) && (stage.Waiting? && !timeout ==> sub.HasRoom())
    ensures var (sub', c', next) := Deliver(sub, c, m, stage, timeout);
            Get(c', col) - Get(c, col) + OwesNext(next, col) - Owes(stage, col) == Share(sub', col) - Share(sub, col)
  {
    if stage.Counting? {
      hide Occurs, Share;
      OccursRest(stage.columns, col);
    } else if !stage.Sending() || stage.Evicting? || stage.Resending? {
      RestBalances(sub, c, m, stage, timeout, col);
    }
  }

  lemma RestBalances(sub: Sub, c: Tally, m: Message, stage: Stage, timeout: bool, col: Column)
    requires StageOk(sub, stage) && (stage.Evicting? || stage.Resending? || stage.Closing?)
    ensures var (sub', c', next) := Deliver(sub, c, m, stage, timeout);
            Get(c', col) - Get(c, col) + OwesNext(next, col) - Owes(stage, col) == Share(sub', col) - Share(sub, col)
  {
    hide Occurs;
    OccursInShort(Delivered, Oldest, col);
    OccursInShort(Oldest, Oldest, col);
  }

  lemma OccursRest(columns: seq<Column>, col: Column)
    requires columns != []
    ensures Occurs(columns, col) == (if columns[0] == col then 1 else 0) + Occurs(columns[1..], col)
    ensures |columns| == 1 ==> Occurs(columns[1..], col) == 0
  {
  }

  /** What else a stage keeps, and where it leads. */
  lemma DeliverLeads(sub: Sub, c: Tally, m: Message, stage: Stage, timeout: bool)
    requires SubOk(sub) && StageOk(sub, stage)
    ensures var (sub', c', next) := Deliver(sub, c, m, stage, timeout);
            && sub'.topic == sub.topic && sub'.policy == sub.policy && sub'.size == sub.size
            && StageOk(sub', if next.Some? then next.value else Ready) && next != Some(Ready)
            && (sub'.open <==> sub.open && !stage.Closing?) && (stage.Closing? ==> sub.policy.CloseSubscriber?)
  {
  }

  // ---------- the books of a topic ----------

  function Sum(subs: seq<Sub>, topic: string, col: Column): int {
    if subs == [] then 0
    else
      var last := subs[|subs| - 1];
      Sum(subs[..|subs| - 1], topic, col) + (if last.topic == topic then Share(last, col) else 0)
  }

  lemma {:induction false} SumUpdate(subs: seq<Sub>, i: nat, sub: Sub, topic: string, col: Column)
    requires i < |subs| && sub.topic == subs[i].topic
    ensures Sum(subs[i := sub], topic, col) == Sum(subs, topic, col)
         + (if sub.topic == topic then Share(sub, col) - Share(subs[i], col) else 0)
    decreases |subs|
  {
    hide Share;
    var n := |subs| - 1;
    if i == n {
      assert subs[i := sub][..n] == subs[..n];
    } else {
      SumUpdate(subs[..n], i, sub, topic, col);
      assert subs[i := sub][..n] == subs[..n][i := sub];
    }
  }

  lemma SumAppend(subs: seq<Sub>, sub: Sub, topic: string, col: Column)
    ensures Sum(subs + [sub], topic, col)
         == Sum(subs, topic, col) + (if sub.topic == topic then Share(sub, col) else 0)
  {
    hide Share;
    assert (subs + [sub])[..|subs|] == subs;
  }

  lemma {:induction false} SumShut(subs: seq<Sub>, topic: string, col: Column)
    requires col != Gauge
    ensures Sum(Shut(subs), topic, col) == Sum(subs, topic, col)
    decreases |subs|
  {
    if subs == [] {
    } else {
      SumShut(subs[..|subs| - 1], topic, col);
      assert Shut(subs)[..|subs| - 1] == Shut(subs[..|subs| - 1]);
    }
  }

  function JobOwes(job: Job, topic: string, col: Column): nat {
    if job.Busy? && job.msg.topic == topic then Owes(job.stage, col) else 0
  }

  /** What all publishers together have yet to count. */
  function Owed(agents: seq<Agent>, topic: string, col: Column): nat {
    if agents == [] then 0
    else Owed(agents[..|agents| - 1], topic, col) + JobOwes(agents[|agents| - 1].job, topic, col)
  }

  lemma {:induction false} OwedUpdate(agents: seq<Agent>, p: nat, agent: Agent, topic: string, col: Column)
    requires p < |agents|
    ensures Owed(agents[p := agent], topic, col)
         == Owed(agents, topic, col) - JobOwes(agents[p].job, topic, col) + JobOwes(agent.job, topic, col)
    ensures Owed(agents, topic, col) >= JobOwes(agents[p].job, topic, col)
    decreases |agents|
  {
    hide JobOwes;
    var n := |agents| - 1;
    if p == n {
      assert agents[p := agent][..n] == agents[..n];
    } else {
      OwedUpdate(agents[..n], p, agent, topic, col);
      assert agents[p := agent][..n] == agents[..n][p := agent];
    }
  }

  lemma {:induction false} NothingOwed(agents: seq<Agent>, topic: string, col: Column)
    requires forall p :: 0 <= p < |agents| ==> JobOwes(agents[p].job, topic, col) == 0
    ensures Owed(agents, topic, col) == 0
    decreases |agents|
  {
    if agents == [] {
    } else {
      NothingOwed(agents[..|agents| - 1], topic, col);
    }
  }

  /** The counters, with what is owed to them, agree with the subscriptions; the gauge only until `Close`. */
  ghost predicate Balanced(metrics: map<string, Tally>, agents: seq<Agent>, subs: seq<Sub>, closed: bool) {
    forall t, col :: (col == Gauge ==> !closed) ==>
      Get(Shown(metrics, t), col) + Owed(agents, t, col) == Sum(subs, t, col)
  }

  // ---------- who is doing what ----------

  ghost predicate SubsOk(subs: seq<Sub>) {
    forall i :: 0 <= i < |subs| ==> SubOk(subs[i])
  }

  predicate Lists(topics: map<string, set<nat>>, topic: string, i: nat) {
    topic in topics && i in topics[topic]
  }

  /** The registry holds exactly the open subscriptions. */
  ghost predicate Registered(topics: map<string, set<nat>>, subs: seq<Sub>) {
    forall t: string, i: nat :: Lists(topics, t, i) <==> i < |subs| && subs[i].open && subs[i].topic == t
  }

  predicate JobOk(job: Job, p: nat, number: nat, subs: seq<Sub>) {
    job.Busy? ==>
      && job.todo != [] && job.msg.from == p && job.msg.number == number
      && (forall j, k :: 0 <= j < k < |job.todo| ==> job.todo[j] != job.todo[k])
      && (forall k :: 0 <= k < |job.todo| ==> job.todo[k] < |subs| && subs[job.todo[k]].topic == job.msg.topic)
      && StageOk(subs[job.todo[0]], job.stage)
  }

  ghost predicate JobsOk(agents: seq<Agent>, subs: seq<Sub>) {
    forall p :: 0 <= p < |agents| ==> JobOk(agents[p].job, p, agents[p].number, subs)
  }

  // ---------- order ----------

  /** The messages of a line carry its topic, and each publisher's come in the order it published them, none twice. */
  ghost predicate InOrder(line: seq<Message>, topic: string) {
    && (forall k :: 0 <= k < |line| ==> line[k].topic == topic)
    && (forall j, k :: 0 <= j < k < |line| && line[j].from == line[k].from ==> line[j].number < line[k].number)
  }

  /** Published, and not the message that the publisher still has to deliver here. */
  predicate PastOne(m: Message, agents: seq<Agent>, i: nat) {
    && m.from < |agents| && m.number <= agents[m.from].number
    && (agents[m.from].job.Due(i) ==> m.number < agents[m.from].number)
  }

  ghost predicate Past(line: seq<Message>, agents: seq<Agent>, i: nat) {
    forall k :: 0 <= k < |line| ==> PastOne(line[k], agents, i)
  }

  ghost predicate Lines(agents: seq<Agent>, subs: seq<Sub>) {
    forall i :: 0 <= i < |subs| ==> InOrder(subs[i].Line(), subs[i].topic) && Past(subs[i].Line(), agents, i)
  }

  ghost predicate Inv(s: State) {
    && SubsOk(s.subs) && Balanced(s.metrics, s.agents, s.subs, s.closed) && Registered(s.topics, s.subs)
    && JobsOk(s.agents, s.subs) && Lines(s.agents, s.subs)
  }

  // ---------- every step keeps the books ----------

  /** One publisher serves one subscription. */
  lemma BooksAfterAdvance(metrics: map<string, Tally>, agents: seq<Agent>, subs: seq<Sub>, closed: bool, p: nat, i: nat,
                          sub: Sub, c: Tally, job: Job)
    requires Balanced(metrics, agents, subs, closed) && i < |subs| && p < |agents| && sub.topic == subs[i].topic
    requires forall t, col :: t != sub.topic ==> JobOwes(agents[p].job, t, col) == JobOwes(job, t, col) == 0
    requires forall col ::
      Get(c, col) - Get(Shown(metrics, sub.topic), col) + JobOwes(job, sub.topic, col)
        - JobOwes(agents[p].job, sub.topic, col) == Share(sub, col) - Share(subs[i], col)
    ensures Balanced(metrics[sub.topic := c], agents[p := agents[p].(job := job)], subs[i := sub], closed)
  {
    hide Share, Sum, Get, Owed, JobOwes;
    var metrics', agents', subs' := metrics[sub.topic := c], agents[p := agents[p].(job := job)], subs[i := sub];
    forall t, col | col == Gauge ==> !closed
      ensures Get(Shown(metrics', t), col) + Owed(agents', t, col) == Sum(subs', t, col)
    {
      SumUpdate(subs, i, sub, t, col);
      OwedUpdate(agents, p, agents[p].(job := job), t, col);
      assert Get(Shown(metrics, t), col) + Owed(agents, t, col) == Sum(subs, t, col);
    }
  }

  /** One subscription changes, and the counters of its topic as its share does. */
  lemma BooksAfterUpdate(metrics: map<string, Tally>, agents: seq<Agent>, subs: seq<Sub>, closed: bool, i: nat,
                         sub: Sub, c: Tally)
    requires Balanced(metrics, agents, subs, closed) && i < |subs| && sub.topic == subs[i].topic
    requires forall col ::
      Get(c, col) - Get(Shown(metrics, sub.topic), col) == Share(sub, col) - Share(subs[i], col)
    ensures Balanced(metrics[sub.topic := c], agents, subs[i := sub], closed)
  {
    hide Share, Sum, Get, Owed;
    var metrics', subs' := metrics[sub.topic := c], subs[i := sub];
    forall t, col | col == Gauge ==> !closed
      ensures Get(Shown(metrics', t), col) + Owed(agents, t, col) == Sum(subs', t, col)
    {
      SumUpdate(subs, i, sub, t, col);
      assert Get(Shown(metrics, t), col) + Owed(agents, t, col) == Sum(subs, t, col);
    }
  }

  lemma ReceiveIsOk(sub: Sub)
    requires SubOk(sub) && sub.buffer != []
    ensures SubOk(sub.Receive()) && forall col :: Share(sub.Receive(), col) == Share(sub, col)
  {
  }

  lemma ReceiveKeepsBooks(metrics: map<string, Tally>, agents: seq<Agent>, subs: seq<Sub>, closed: bool, i: nat)
    requires Balanced(metrics, agents, subs, closed) && i < |subs| && subs[i].buffer != [] && SubOk(subs[i])
    ensures Balanced(metrics, agents, subs[i := subs[i].Receive()], closed)
  {
    hide Share, Sum, Get, Owed;
    ReceiveIsOk(subs[i]);
    forall t, col | col == Gauge ==> !closed
      ensures Get(Shown(metrics, t), col) + Owed(agents, t, col) == Sum(subs[i := subs[i].Receive()], t, col)
    {
      SumUpdate(subs, i, subs[i].Receive(), t, col);
      assert Get(Shown(metrics, t), col) + Owed(agents, t, col) == Sum(subs, t, col);
    }
  }

  lemma SubscribeKeepsBooks(metrics: map<string, Tally>, agents: seq<Agent>, subs: seq<Sub>, sub: Sub)
    requires Balanced(metrics, agents, subs, false) && sub.open
    requires forall col :: col != Gauge ==> Share(sub, col) == 0
    ensures var c := Shown(metrics, sub.topic);
            Balanced(metrics[sub.topic := c.(gauge := c.gauge + 1)], agents, subs + [sub], false)
  {
    hide Sum, Owed;
    var c := Shown(metrics, sub.topic);
    var metrics' := metrics[sub.topic := c.(gauge := c.gauge + 1)];
    forall t, col
      ensures Get(Shown(metrics', t), col) + Owed(agents, t, col) == Sum(subs + [sub], t, col)
    {
      SumAppend(subs, sub, t, col);
      assert Get(Shown(metrics, t), col) + Owed(agents, t, col) == Sum(subs, t, col);
    }
  }

  lemma CloseKeepsBooks(metrics: map<string, Tally>, agents: seq<Agent>, subs: seq<Sub>, closed: bool)
    requires Balanced(metrics, agents, subs, closed)
    ensures Balanced(metrics, agents, Shut(subs), true)
  {
    hide Share, Sum, Get, Shut, Owed;
    forall t, col: Column | col != Gauge
      ensures Get(Shown(metrics, t), col) + Owed(agents, t, col) == Sum(Shut(subs), t, col)
    {
      SumShut(subs, t, col);
      assert Get(Shown(metrics, t), col) + Owed(agents, t, col) == Sum(subs, t, col);
    }
  }

  lemma PublishKeepsBooks(metrics: map<string, Tally>, agents: seq<Agent>, subs: seq<Sub>, closed: bool, p: nat,
                          agent: Agent)
    requires Balanced(metrics, agents, subs, closed) && p < |agents| && agents[p].job.Idle?
    requires agent.job.Idle? || agent.job.stage == Ready
    ensures Balanced(metrics, agents[p := agent], subs, closed)
  {
    hide Sum, Get, Owed;
    forall t, col | col == Gauge ==> !closed
      ensures Get(Shown(metrics, t), col) + Owed(agents[p := agent], t, col) == Sum(subs, t, col)
    {
      OwedUpdate(agents, p, agent, t, col);
      assert Get(Shown(metrics, t), col) + Owed(agents, t, col) == Sum(subs, t, col);
    }
  }

  /** The subscription that a publisher serves, and the stage it is at. */
  lemma Served(s: State, p: nat, timeout: bool)
    requires Inv(s) && Enabled(s, Advance(p, timeout))
    ensures var job := s.agents[p].job;
            && JobOk(job, p, s.agents[p].number, s.subs)
            && SubOk(s.subs[job.todo[0]]) && StageOk(s.subs[job.todo[0]], job.stage)
            && job.msg.topic == s.subs[job.todo[0]].topic
            && (job.stage.Waiting? && !timeout ==> s.subs[job.todo[0]].HasRoom())
  {
    hide Balanced, Registered, Lines;
    assert JobOk(s.agents[p].job, p, s.agents[p].number, s.subs);
  }

  /** A job owes to its own topic only, before a stage and after it. */
  lemma JobOwesNext(job: Job, next: Option<Stage>, topic: string, col: Column)
    requires job.Busy? && job.todo != []
    ensures JobOwes(job, topic, col) == if topic == job.msg.topic then Owes(job.stage, col) else 0
    ensures JobOwes(JobAfter(job, next), topic, col) == if topic == job.msg.topic then OwesNext(next, col) else 0
  {
  }

  lemma AdvanceKeepsBooks(s: State, p: nat, timeout: bool)
    requires Inv(s) && Enabled(s, Advance(p, timeout))
    ensures var s' := Next(s, Advance(p, timeout)); Balanced(s'.metrics, s'.agents, s'.subs, s'.closed)
  {
    hide Balanced, Deliver, SubOk, StageOk, Registered, JobsOk, Lines, Remove, JobAfter, Share, Get, Owes, OwesNext,
      JobOwes;
    Served(s, p, timeout);
    var job := s.agents[p].job;
    var i := job.todo[0];
    var sub := s.subs[i];
    var c := Shown(s.metrics, sub.topic);
    var (sub', c', next) := Deliver(sub, c, job.msg, job.stage, timeout);
    DeliverLeads(sub, c, job.msg, job.stage, timeout);
    forall t, col
      ensures t != sub.topic ==> JobOwes(job, t, col) == JobOwes(JobAfter(job, next), t, col) == 0
      ensures Get(c', col) - Get(c, col) + JobOwes(JobAfter(job, next), sub.topic, col) - JobOwes(job, sub.topic, col)
           == Share(sub', col) - Share(sub, col)
    {
      JobOwesNext(job, next, t, col);
      JobOwesNext(job, next, sub.topic, col);
      DeliverBalances(sub, c, job.msg, job.stage, timeout, col);
    }
    BooksAfterAdvance(s.metrics, s.agents, s.subs, s.closed, p, i, sub', c', JobAfter(job, next));
  }

  lemma StepKeepsBooks(s: State, step: Step)
    requires Inv(s) && Enabled(s, step)
    ensures var s' := Next(s, step); Balanced(s'.metrics, s'.agents, s'.subs, s'.closed)
  {
    hide Balanced, Deliver, SubOk, StageOk, Registered, JobsOk, Lines, Remove, JobAfter;
    match step
    case Subscribe(topic, options) =>
      var s' := Next(s, step);
      if s' != s {
        SubscribeKeepsBooks(s.metrics, s.agents, s.subs, s'.subs[|s.subs|]);
      }
    case Publish(p, topic, order) =>
      var s' := Next(s, step);
      if s' != s {
        PublishKeepsBooks(s.metrics, s.agents, s.subs, s.closed, p, s'.agents[p]);
      }
    case Advance(p, timeout) => AdvanceKeepsBooks(s, p, timeout);
    case Receive(i) => ReceiveKeepsBooks(s.metrics, s.agents, s.subs, s.closed, i);
    case Cancel(i) =>
      var sub := s.subs[i];
      if sub.open {
        var c := Shown(s.metrics, sub.topic);
        BooksAfterUpdate(s.metrics, s.agents, s.subs, s.closed, i, sub.(open := false), c.(gauge := c.gauge - 1));
      }
    case Close => CloseKeepsBooks(s.metrics, s.agents, s.subs, s.closed);
  }

  // ---------- every step keeps the registry ----------

  lemma RemoveExactly(topics: map<string, set<nat>>, topic: string, i: nat, t: string, j: nat)
    ensures Lists(Remove(topics, topic, i), t, j) <==> Lists(topics, t, j) && (t != topic || j != i)
  {
    if topic in topics && topics[topic] - {i} == {} && t == topic && j in topics[t] {
      assert j !in topics[topic] - {i};
    }
  }

  lemma ShutKeepsRegistry(topics: map<string, set<nat>>, subs: seq<Sub>, i: nat, sub: Sub)
    requires Registered(topics, subs) && i < |subs| && sub.topic == subs[i].topic && !sub.open
    ensures Registered(Remove(topics, sub.topic, i), subs[i := sub])
  {
    hide Remove, Lists;
    forall t: string, j: nat
      ensures Lists(Remove(topics, sub.topic, i), t, j) <==>
              j < |subs| && subs[i := sub][j].open && subs[i := sub][j].topic == t
    {
      RemoveExactly(topics, sub.topic, i, t, j);
      assert Lists(topics, t, j) <==> j < |subs| && subs[j].open && subs[j].topic == t;
    }
  }

  lemma SubscribeKeepsRegistry(topics: map<string, set<nat>>, subs: seq<Sub>, sub: Sub)
    requires Registered(topics, subs) && sub.open
    ensures var ids := (if sub.topic in topics then topics[sub.topic] else {}) + {|subs|};
            Registered(topics[sub.topic := ids], subs + [sub])
  {
    var topics' := topics[sub.topic := (if sub.topic in topics then topics[sub.topic] else {}) + {|subs|}];
    forall t: string, j: nat
      ensures Lists(topics', t, j) <==> j < |subs| + 1 && (subs + [sub])[j].open && (subs + [sub])[j].topic == t
    {
      assert Lists(topics', t, j) <==> Lists(topics, t, j) || (t == sub.topic && j == |subs|);
      assert Lists(topics, t, j) <==> j < |subs| && subs[j].open && subs[j].topic == t;
    }
  }

  lemma StepKeepsRegistry(s: State, step: Step)
    requires Inv(s) && Enabled(s, step)
    ensures Registered(Next(s, step).topics, Next(s, step).subs)
  {
    hide Balanced, Deliver, SubOk, StageOk, SubsOk, JobsOk, Lines, Remove, JobAfter;
    match step
    case Subscribe(topic, options) =>
      var s' := Next(s, step);
      if s' != s {
        SubscribeKeepsRegistry(s.topics, s.subs, s'.subs[|s.subs|]);
      }
    case Publish(p, topic, order) =>
    case Advance(p, timeout) =>
      hide Registered;
      Served(s, p, timeout);
      var job := s.agents[p].job;
      var sub := s.subs[job.todo[0]];
      var c := Shown(s.metrics, sub.topic);
      DeliverLeads(sub, c, job.msg, job.stage, timeout);
      var (sub', c', next) := Deliver(sub, c, job.msg, job.stage, timeout);
      if sub.open && !sub'.open {
        ShutKeepsRegistry(s.topics, s.subs, job.todo[0], sub');
      } else {
      }
    case Receive(i) =>
      hide Registered;
    case Cancel(i) =>
      hide Registered;
      if s.subs[i].open {
        ShutKeepsRegistry(s.topics, s.subs, i, s.subs[i].(open := false));
      }
    case Close =>
  }

  // ---------- every step keeps the jobs ----------

  /** One publisher serves one subscription. */
  lemma JobsAfterAdvance(agents: seq<Agent>, subs: seq<Sub>, p: nat, sub: Sub, next: Option<Stage>)
    requires JobsOk(agents, subs) && p < |agents| && agents[p].job.Busy? && agents[p].job.todo != []
    requires agents[p].job.todo[0] < |subs| && next != Some(Ready)
    requires var was := subs[agents[p].job.todo[0]];
             && sub.topic == was.topic && sub.policy == was.policy
             && (was.open && !sub.open ==> sub.policy.CloseSubscriber?) && (sub.open ==> was.open)
    requires StageOk(sub, if next.Some? then next.value else Ready)
    ensures var i, job := agents[p].job.todo[0], JobAfter(agents[p].job, next);
            JobsOk(agents[p := agents[p].(job := job)], subs[i := sub])
  {
    var i, job := agents[p].job.todo[0], JobAfter(agents[p].job, next);
    var agents', subs' := agents[p := agents[p].(job := job)], subs[i := sub];
    assert JobOk(agents[p].job, p, agents[p].number, subs);
    forall q | 0 <= q < |agents'|
      ensures JobOk(agents'[q].job, q, agents'[q].number, subs')
    {
      assert JobOk(agents[q].job, q, agents[q].number, subs);
    }
  }

  lemma JobsAfterPublish(agents: seq<Agent>, subs: seq<Sub>, p: nat, topic: string, order: seq<nat>)
    requires JobsOk(agents, subs) && p < |agents| && agents[p].job.Idle? && order != []
    requires forall j, k :: 0 <= j < k < |order| ==> order[j] != order[k]
    requires forall k :: 0 <= k < |order| ==> order[k] < |subs| && subs[order[k]].topic == topic
    ensures var number := agents[p].number + 1;
            JobsOk(agents[p := Agent(number, Busy(Message(topic, p, number), order, Ready))], subs)
  {
    var number := agents[p].number + 1;
    var agents' := agents[p := Agent(number, Busy(Message(topic, p, number), order, Ready))];
    forall q | 0 <= q < |agents'|
      ensures JobOk(agents'[q].job, q, agents'[q].number, subs)
    {
      assert JobOk(agents[q].job, q, agents[q].number, subs);
    }
  }

  /** Subscriptions no publisher is engaged with may close, and new ones appear. */
  lemma JobsAfterChange(agents: seq<Agent>, subs: seq<Sub>, subs': seq<Sub>)
    requires JobsOk(agents, subs) && |subs| <= |subs'|
    requires forall i :: 0 <= i < |subs| ==>
      subs'[i].topic == subs[i].topic && subs'[i].policy == subs[i].policy
    requires forall i, p :: 0 <= i < |subs| && 0 <= p < |agents| && agents[p].job.Engaged(i) ==>
      subs'[i].open == subs[i].open
    ensures JobsOk(agents, subs')
  {
    forall q | 0 <= q < |agents|
      ensures JobOk(agents[q].job, q, agents[q].number, subs')
    {
      assert JobOk(agents[q].job, q, agents[q].number, subs);
      if agents[q].job.Busy? && agents[q].job.stage.Sending() && agents[q].job.stage != Ready {
        assert agents[q].job.Engaged(agents[q].job.todo[0]);
      }
    }
  }

  lemma StepKeepsSubs(s: State, step: Step)
    requires Inv(s) && Enabled(s, step)
    ensures SubsOk(Next(s, step).subs)
  {
    hide Balanced, Deliver, StageOk, Registered, JobsOk, Lines, Remove, JobAfter;
    match step
    case Subscribe(topic, options) =>
    case Publish(p, topic, order) =>
    case Advance(p, timeout) =>
      Served(s, p, timeout);
      var job := s.agents[p].job;
      var sub := s.subs[job.todo[0]];
      DeliverKeepsOk(sub, Shown(s.metrics, sub.topic), job.msg, job.stage, timeout);
    case Receive(i) =>
      ReceiveIsOk(s.subs[i]);
    case Cancel(i) =>
    case Close =>
  }

  lemma StepKeepsJobs(s: State, step: Step)
    requires Inv(s) && Enabled(s, step)
    ensures JobsOk(Next(s, step).agents, Next(s, step).subs)
  {
    hide Balanced, Deliver, SubOk, StageOk, JobsOk, Lines, Remove, JobAfter;
    match step
    case Subscribe(topic, options) =>
      JobsAfterChange(s.agents, s.subs, Next(s, step).subs);
    case Publish(p, topic, order) =>
      var s' := Next(s, step);
      if s' != s && topic in s.topics && order != [] {
        forall k | 0 <= k < |order|
          ensures order[k] < |s.subs| && s.subs[order[k]].topic == topic
        {
          assert order[k] in order;
          assert Lists(s.topics, topic, order[k]);
        }
        JobsAfterPublish(s.agents, s.subs, p, topic, order);
      } else if s' != s {
        JobsAfterIdle(s.agents, s.subs, p);
      }
    case Advance(p, timeout) =>
      hide Registered;
      Served(s, p, timeout);
      var job := s.agents[p].job;
      var sub := s.subs[job.todo[0]];
      var c := Shown(s.metrics, sub.topic);
      DeliverLeads(sub, c, job.msg, job.stage, timeout);
      var (sub', c', next) := Deliver(sub, c, job.msg, job.stage, timeout);
      JobsAfterAdvance(s.agents, s.subs, p, sub', next);
    case Receive(i) =>
      hide Registered;
      JobsAfterChange(s.agents, s.subs, Next(s, step).subs);
    case Cancel(i) =>
      hide Registered;
      JobsAfterChange(s.agents, s.subs, Next(s, step).subs);
    case Close =>
      hide Registered;
      JobsAfterChange(s.agents, s.subs, Next(s, step).subs);
  }

  lemma JobsAfterIdle(agents: seq<Agent>, subs: seq<Sub>, p: nat)
    requires JobsOk(agents, subs) && p < |agents| && agents[p].job.Idle?
    ensures JobsOk(agents[p := Agent(agents[p].number + 1, Idle)], subs)
  {
    var agents' := agents[p := Agent(agents[p].number + 1, Idle)];
    forall q | 0 <= q < |agents'|
      ensures JobOk(agents'[q].job, q, agents'[q].number, subs)
    {
      assert JobOk(agents[q].job, q, agents[q].number, subs);
    }
  }

  // ---------- every step keeps the order ----------

  /** A stage leaves the line alone, appends the message and goes on to count it, or takes one message out. */
  lemma DeliverLine(sub: Sub, c: Tally, m: Message, stage: Stage, timeout: bool)
    ensures var (sub', c', next) := Deliver(sub, c, m, stage, timeout);
            || sub'.Line() == sub.Line()
            || (sub'.Line() == sub.Line() + [m] && stage.Sending() && next.Some? && next.value.Counting?)
            || (sub.buffer != [] && sub'.Line() == sub.received + sub.buffer[1..])
    ensures var next := Deliver(sub, c, m, stage, timeout).2;
            next.Some? && next.value.Sending() ==> stage.Sending()
  {
  }

  lemma WithoutOne(a: seq<Message>, b: seq<Message>, topic: string, agents: seq<Agent>, i: nat)
    requires b != [] && InOrder(a + b, topic) && Past(a + b, agents, i)
    ensures InOrder(a + b[1..], topic) && Past(a + b[1..], agents, i)
  {
    var line, line' := a + b, a + b[1..];
    forall k | 0 <= k < |line'|
      ensures PastOne(line'[k], agents, i) && line'[k].topic == topic
    {
      var k' := if k < |a| then k else k + 1;
      assert line'[k] == line[k'];
    }
    forall j, k | 0 <= j < k < |line'| && line'[j].from == line'[k].from
      ensures line'[j].number < line'[k].number
    {
      var j', k' := if j < |a| then j else j + 1, if k < |a| then k else k + 1;
      assert line'[j] == line[j'] && line'[k] == line[k'];
    }
  }

  /** A publisher's next message comes after all of its messages that are already there. */
  lemma WithOneMore(line: seq<Message>, m: Message, agents: seq<Agent>, i: nat)
    requires InOrder(line, m.topic) && Past(line, agents, i)
    requires m.from < |agents| && agents[m.from].job.Due(i)
    requires m.number == agents[m.from].number
    ensures InOrder(line + [m], m.topic)
  {
    forall k | 0 <= k < |line|
      ensures line[k].from == m.from ==> line[k].number < m.number
    {
      assert PastOne(line[k], agents, i);
    }
  }

  /** Publishers that go on to the next subscription or to the next message. */
  ghost predicate Forward(agents: seq<Agent>, agents': seq<Agent>, i: nat) {
    && |agents'| == |agents|
    && forall p :: 0 <= p < |agents| ==>
         || agents'[p] == agents[p] || agents'[p].number > agents[p].number
         || (agents'[p].number == agents[p].number && (agents'[p].job.Due(i) ==> agents[p].job.Due(i)))
  }

  lemma PastLater(line: seq<Message>, agents: seq<Agent>, agents': seq<Agent>, i: nat)
    requires Past(line, agents, i) && Forward(agents, agents', i)
    ensures Past(line, agents', i)
  {
    forall k | 0 <= k < |line|
      ensures PastOne(line[k], agents', i)
    {
      assert PastOne(line[k], agents, i);
    }
  }

  lemma AfterIsForward(agents: seq<Agent>, p: nat, next: Option<Stage>, i: nat)
    requires p < |agents| && agents[p].job.Busy? && agents[p].job.todo != []
    requires next.Some? && next.value.Sending() ==> agents[p].job.stage.Sending()
    ensures Forward(agents, agents[p := agents[p].(job := JobAfter(agents[p].job, next))], i)
  {
    var todo := agents[p].job.todo;
    if |todo| > 1 {
      assert todo[1..][0] in todo[1..];
      assert i in todo[1..][1..] ==> i in todo[1..];
    }
  }

  lemma LinesAfterAdvance(agents: seq<Agent>, subs: seq<Sub>, p: nat, sub: Sub, next: Option<Stage>)
    requires Lines(agents, subs) && JobsOk(agents, subs) && p < |agents| && agents[p].job.Busy?
    requires agents[p].job.todo != [] && agents[p].job.todo[0] < |subs|
    requires sub.topic == subs[agents[p].job.todo[0]].topic
    requires next.Some? && next.value.Sending() ==> agents[p].job.stage.Sending()
    requires var was := subs[agents[p].job.todo[0]];
             || sub.Line() == was.Line()
             || (sub.Line() == was.Line() + [agents[p].job.msg] && agents[p].job.stage.Sending()
                 && next.Some? && next.value.Counting?)
             || (was.buffer != [] && sub.Line() == was.received + was.buffer[1..])
    ensures Lines(agents[p := agents[p].(job := JobAfter(agents[p].job, next))], subs[agents[p].job.todo[0] := sub])
  {
    var job := agents[p].job;
    var i, m := job.todo[0], job.msg;
    var agents' := agents[p := agents[p].(job := JobAfter(job, next))];
    var was := subs[i];
    assert JobOk(job, p, agents[p].number, subs);
    assert was.topic == m.topic;
    hide JobsOk, StageOk;
    forall j | 0 <= j < |subs|
      ensures InOrder(subs[j].Line(), subs[j].topic) && Past(subs[j].Line(), agents', j)
    {
      AfterIsForward(agents, p, next, j);
      PastLater(subs[j].Line(), agents, agents', j);
    }
    if was.buffer != [] && sub.Line() == was.received + was.buffer[1..] {
      WithoutOne(was.received, was.buffer, was.topic, agents', i);
    } else if sub.Line() != was.Line() {
      WithOneMore(was.Line(), m, agents, i);
      assert i !in job.todo[1..];
      assert !agents'[p].job.Due(i) && PastOne(m, agents', i);
    }
  }

  lemma StepKeepsLines(s: State, step: Step)
    requires Inv(s) && Enabled(s, step)
    ensures Lines(Next(s, step).agents, Next(s, step).subs)
  {
    hide Balanced, Deliver, SubOk, StageOk, JobOk, Remove, JobAfter, InOrder, Past;
    var s' := Next(s, step);
    match step
    case Subscribe(topic, options) =>
      if s' != s {
        EmptyLine(s'.subs[|s.subs|].Line(), topic, s.agents, |s.subs|);
      }
    case Publish(p, topic, order) =>
      forall i | 0 <= i < |s.subs|
        ensures Past(s.subs[i].Line(), s'.agents, i)
      {
        PastLater(s.subs[i].Line(), s.agents, s'.agents, i);
      }
    case Advance(p, timeout) =>
      hide Registered, Lines;
      Served(s, p, timeout);
      var job := s.agents[p].job;
      var sub := s.subs[job.todo[0]];
      var c := Shown(s.metrics, sub.topic);
      DeliverLeads(sub, c, job.msg, job.stage, timeout);
      DeliverLine(sub, c, job.msg, job.stage, timeout);
      var (sub', c', next) := Deliver(sub, c, job.msg, job.stage, timeout);
      LinesAfterAdvance(s.agents, s.subs, p, sub', next);
    case Receive(i) =>
      var sub := s.subs[i];
      assert sub.Receive().Line() == sub.Line();
    case Cancel(i) =>
      assert s'.subs[i].Line() == s.subs[i].Line();
    case Close =>
      forall i | 0 <= i < |s.subs|
        ensures s'.subs[i].Line() == s.subs[i].Line()
      {
      }
  }

  lemma EmptyLine(line: seq<Message>, topic: string, agents: seq<Agent>, i: nat)
    requires line == []
    ensures InOrder(line, topic) && Past(line, agents, i)
  {
  }

  lemma StepKeepsInv(s: State, step: Step)
    requires Inv(s) && Enabled(s, step)
    ensures Inv(Next(s, step))
  {
    StepKeepsSubs(s, step);
    StepKeepsBooks(s, step);
    StepKeepsRegistry(s, step);
    StepKeepsJobs(s, step);
    StepKeepsLines(s, step);
    hide Next, SubsOk, Balanced, Registered, JobsOk, Lines;
  }

  lemma {:induction false} RunKeepsInv(s: State, steps: seq<Step>)
    requires Inv(s) && Run(s, steps)
    ensures Inv(End(s, steps))
    decreases |steps|
  {
    hide Inv, Next, Enabled;
    if steps == [] {
    } else {
      StepKeepsInv(s, steps[0]);
      RunKeepsInv(Next(s, steps[0]), steps[1..]);
    }
  }

  lemma StartIsOk(n: nat)
    ensures Inv(Start(n))
  {
    var s := Start(n);
    forall t, col
      ensures Get(Shown(s.metrics, t), col) + Owed(s.agents, t, col) == Sum(s.subs, t, col)
    {
      NothingOwed(s.agents, t, col);
    }
  }

  // ---------- what the counters tell ----------

  /** Messages received from a topic's subscriptions, or still in their buffers. */
  function Held(subs: seq<Sub>, topic: string): nat {
    if subs == [] then 0
    else
      var last := subs[|subs| - 1];
      Held(subs[..|subs| - 1], topic) + (if last.topic == topic then |last.received| + |last.buffer| else 0)
  }

  /** Deliveries that were decided while the subscription was open. */
  function Offered(subs: seq<Sub>, topic: string): nat {
    if subs == [] then 0
    else
      var last := subs[|subs| - 1];
      Offered(subs[..|subs| - 1], topic) + (if last.topic == topic then last.offered else 0)
  }

  function Failures(subs: seq<Sub>, topic: string): nat {
    if subs == [] then 0
    else
      var last := subs[|subs| - 1];
      Failures(subs[..|subs| - 1], topic) + (if last.topic == topic then last.failed else 0)
  }

  function Hollows(subs: seq<Sub>, topic: string): nat {
    if subs == [] then 0
    else
      var last := subs[|subs| - 1];
      Hollows(subs[..|subs| - 1], topic) + (if last.topic == topic then last.hollow else 0)
  }

  function OpenOnes(subs: seq<Sub>, topic: string): (ids: set<nat>) {
    set i | 0 <= i < |subs| && subs[i].open && subs[i].topic == topic
  }

  lemma {:induction false} SumsAddUp(subs: seq<Sub>, topic: string)
    requires SubsOk(subs)
    ensures Sum(subs, topic, Delivered) - Sum(subs, topic, Oldest)
         == Held(subs, topic) - Hollows(subs, topic) - Failures(subs, topic)
    ensures Offered(subs, topic) == Failures(subs, topic) + Sum(subs, topic, Delivered) + Sum(subs, topic, Newest)
                                    + Sum(subs, topic, Timeouts) + Sum(subs, topic, Closes)
    decreases |subs|
  {
    if subs == [] {
    } else {
      assert SubOk(subs[|subs| - 1]);
      SumsAddUp(subs[..|subs| - 1], topic);
    }
  }

  lemma {:induction false} GaugeCounts(subs: seq<Sub>, topic: string)
    ensures Sum(subs, topic, Gauge) == |OpenOnes(subs, topic)|
    decreases |subs|
  {
    if subs == [] {
    } else {
      var n := |subs| - 1;
      GaugeCounts(subs[..n], topic);
      var fewer := OpenOnes(subs[..n], topic);
      if subs[n].open && subs[n].topic == topic {
        assert OpenOnes(subs, topic) == fewer + {n};
      } else {
        assert OpenOnes(subs, topic) == fewer;
      }
    }
  }

  /** No publisher has anything to count on this topic: none is between an eviction and its second send, and none
      between a decision and its counters. */
  ghost predicate Quiet(s: State, topic: string) {
    forall p :: 0 <= p < |s.agents| && s.agents[p].job.Busy? && s.agents[p].job.msg.topic == topic ==>
      !s.agents[p].job.stage.Resending? && !s.agents[p].job.stage.Counting?
  }

  lemma QuietOwesNothing(s: State, topic: string, col: Column)
    requires Quiet(s, topic)
    ensures Owed(s.agents, topic, col) == 0
  {
    NothingOwed(s.agents, topic, col);
  }

  /** In every reachable state the counters of a topic with what its publishers have yet to count are what its
      subscriptions have to show. When nothing is left to count they account for every delivery, and the two plain
      balances hold exactly as far as no eviction found the channel empty and no second send found it full. */
  lemma CountersAccount(n: nat, steps: seq<Step>, topic: string)
    requires Run(Start(n), steps)
    ensures var s := End(Start(n), steps);
            forall col: Column :: col != Gauge ==>
              Get(Shown(s.metrics, topic), col) + Owed(s.agents, topic, col) == Sum(s.subs, topic, col)
    ensures var s := End(Start(n), steps);
            var c, hollow, failed := Shown(s.metrics, topic), Hollows(s.subs, topic), Failures(s.subs, topic);
            Quiet(s, topic) ==>
            && c.delivered - c.oldest == Held(s.subs, topic) - hollow - failed
            && Offered(s.subs, topic) == failed + c.delivered + c.newest + c.timeouts + c.closes
            && (c.delivered - c.oldest == Held(s.subs, topic) <==> hollow == 0 && failed == 0)
            && (Offered(s.subs, topic) == c.delivered + c.newest + c.timeouts + c.closes <==> failed == 0)
  {
    StartIsOk(n);
    RunKeepsInv(Start(n), steps);
    hide Run, End, Next, Registered, JobsOk, Lines, Owed, Sum, Quiet, SubOk, Held, Hollows, Failures, Offered;
    var s := End(Start(n), steps);
    SumsAddUp(s.subs, topic);
    forall col: Column | col != Gauge
      ensures Get(Shown(s.metrics, topic), col) + Owed(s.agents, topic, col) == Sum(s.subs, topic, col)
      ensures Quiet(s, topic) ==> Owed(s.agents, topic, col) == 0
    {
      if Quiet(s, topic) {
        QuietOwesNothing(s, topic, col);
      }
    }
    assert Get(Shown(s.metrics, topic), Delivered) == Shown(s.metrics, topic).delivered;
    assert Get(Shown(s.metrics, topic), Oldest) == Shown(s.metrics, topic).oldest;
    assert Get(Shown(s.metrics, topic), Newest) == Shown(s.metrics, topic).newest;
    assert Get(Shown(s.metrics, topic), Timeouts) == Shown(s.metrics, topic).timeouts;
    assert Get(Shown(s.metrics, topic), Closes) == Shown(s.metrics, topic).closes;
  }

  lemma {:induction false} OccursNot(columns: seq<Column>, col: Column)
    requires col !in columns
    ensures Occurs(columns, col) == 0
  {
    if columns == [] {
    } else {
      OccursNot(columns[1..], col);
    }
  }

  /** The gauge changes with the subscription, and is never owed. */
  lemma NobodyOwesGauge(agents: seq<Agent>, subs: seq<Sub>, topic: string)
    requires JobsOk(agents, subs)
    ensures Owed(agents, topic, Gauge) == 0
  {
    forall p | 0 <= p < |agents|
      ensures JobOwes(agents[p].job, topic, Gauge) == 0
    {
      var job := agents[p].job;
      assert JobOk(job, p, agents[p].number, subs);
      if job.Busy? && job.stage.Counting? {
        OccursNot(job.stage.columns, Gauge);
      }
    }
    NothingOwed(agents, topic, Gauge);
  }

  /** Until `Close`, the subscriber gauge is the number of open subscriptions, which are those in the registry. */
  lemma GaugeIsRegistry(n: nat, steps: seq<Step>, topic: string)
    requires Run(Start(n), steps) && !End(Start(n), steps).closed
    ensures var s := End(Start(n), steps);
            && Shown(s.metrics, topic).gauge == |OpenOnes(s.subs, topic)|
            && OpenOnes(s.subs, topic) == if topic in s.topics then s.topics[topic] else {}
  {
    StartIsOk(n);
    RunKeepsInv(Start(n), steps);
    var s := End(Start(n), steps);
    hide Run, Next, JobsOk, Lines, SubsOk;
    GaugeCounts(s.subs, topic);
    NobodyOwesGauge(s.agents, s.subs, topic);
    assert Get(Shown(s.metrics, topic), Gauge) == Shown(s.metrics, topic).gauge;
    forall i: nat
      ensures i in OpenOnes(s.subs, topic) <==> Lists(s.topics, topic, i)
    {
    }
  }

  /** `Close` ends every subscription but leaves the gauges as they are: they are right only where they were 0. */
  lemma CloseLeavesGauges(n: nat, steps: seq<Step>, topic: string)
    requires Run(Start(n), steps) && !End(Start(n), steps).closed && Enabled(End(Start(n), steps), Close)
    ensures var s := End(Start(n), steps);
            var s' := Next(s, Close);
            && OpenOnes(s'.subs, topic) == {}
            && (Shown(s'.metrics, topic).gauge == 0 <==> OpenOnes(s.subs, topic) == {})
  {
    GaugeIsRegistry(n, steps, topic);
    hide Run, Shut;
    assert |OpenOnes(End(Start(n), steps).subs, topic)| == 0 <==> OpenOnes(End(Start(n), steps).subs, topic) == {};
  }

  /** Whatever the interleaving, what a subscription received followed by its buffer holds only messages of its topic,
      each publisher's in the order of publication and none twice, and never more are buffered than fit. */
  lemma LinesStayInOrder(n: nat, steps: seq<Step>, i: nat)
    requires Run(Start(n), steps) && i < |End(Start(n), steps).subs|
    ensures var sub := End(Start(n), steps).subs[i];
            InOrder(sub.received + sub.buffer, sub.topic) && |sub.buffer| <= sub.size
  {
    StartIsOk(n);
    RunKeepsInv(Start(n), steps);
    hide Run, End, InOrder;
    var sub := End(Start(n), steps).subs[i];
    assert InOrder(sub.Line(), sub.topic) && SubOk(sub);
  }

  // ---------- when deliveries are not disturbed ----------

  /** The step takes from, or sends to, this subscription. */
  predicate Touches(s: State, step: Step, i: nat) {
    match step
    case Receive(j) => i == j
    case Advance(p, _) => p < |s.agents| && s.agents[p].job.At(i) && s.agents[p].job.stage.Sending()
    case _ => false
  }

  /** Nobody else touches the channel between a publisher's first and second send. */
  ghost predicate Calm(s: State, step: Step) {
    forall q, i :: 0 <= q < |s.agents| && s.agents[q].job.Engaged(i) && Touches(s, step, i) ==>
      s.agents[q].job.stage.Waiting? || (step.Advance? && step.p == q)
  }

  ghost predicate CalmRun(s: State, steps: seq<Step>)
    decreases |steps|
  {
    steps == [] || (Enabled(s, steps[0]) && Calm(s, steps[0]) && CalmRun(Next(s, steps[0]), steps[1..]))
  }

  predicate StageCalm(sub: Sub, stage: Stage) {
    (stage.Evicting? ==> |sub.buffer| == sub.size) && (stage.Resending? ==> sub.HasRoom())
  }

  ghost predicate Undisturbed(s: State) {
    && (forall i :: 0 <= i < |s.subs| ==> s.subs[i].hollow == 0 && s.subs[i].failed == 0)
    && (forall q, i :: 0 <= q < |s.agents| && 0 <= i < |s.subs| && s.agents[q].job.At(i) ==>
          StageCalm(s.subs[i], s.agents[q].job.stage))
  }

  lemma DeliverCalm(sub: Sub, c: Tally, m: Message, stage: Stage, timeout: bool)
    requires SubOk(sub) && StageCalm(sub, stage) && sub.hollow == 0 && sub.failed == 0
    ensures var (sub', c', next) := Deliver(sub, c, m, stage, timeout);
            && sub'.hollow == 0 && sub'.failed == 0 && sub'.size == sub.size
            && StageCalm(sub', if next.Some? then next.value else Ready)
            && (!stage.Sending() ==> sub'.buffer == sub.buffer)
  {
  }

  lemma AdvanceStaysCalm(s: State, p: nat, timeout: bool)
    requires Inv(s) && Enabled(s, Advance(p, timeout)) && Calm(s, Advance(p, timeout)) && Undisturbed(s)
    ensures Undisturbed(Next(s, Advance(p, timeout)))
  {
    Served(s, p, timeout);
    var job := s.agents[p].job;
    var sub := s.subs[job.todo[0]];
    var c := Shown(s.metrics, sub.topic);
    DeliverCalm(sub, c, job.msg, job.stage, timeout);
    hide Inv, Deliver, SubOk, StageOk, JobOk, Remove;
    var s' := Next(s, Advance(p, timeout));
    forall q, i | 0 <= q < |s'.agents| && 0 <= i < |s'.subs| && s'.agents[q].job.At(i)
      ensures StageCalm(s'.subs[i], s'.agents[q].job.stage)
    {
      if q != p && i == job.todo[0] {
        assert s.agents[q].job.At(i) && (job.stage.Sending() ==> Touches(s, Advance(p, timeout), i));
      }
    }
  }

  lemma StepStaysCalm(s: State, step: Step)
    requires Inv(s) && Enabled(s, step) && Calm(s, step) && Undisturbed(s)
    ensures Undisturbed(Next(s, step))
  {
    hide Inv, Deliver, Remove;
    match step
    case Subscribe(topic, options) =>
      NobodyAtNew(s);
    case Publish(p, topic, order) =>
    case Advance(p, timeout) => AdvanceStaysCalm(s, p, timeout);
    case Receive(i) =>
      forall q | 0 <= q < |s.agents| && s.agents[q].job.At(i)
        ensures StageCalm(s.subs[i].Receive(), s.agents[q].job.stage)
      {
        assert Touches(s, step, i);
      }
    case Cancel(i) =>
    case Close =>
  }

  lemma NobodyAtNew(s: State)
    requires Inv(s)
    ensures forall q :: 0 <= q < |s.agents| ==> !s.agents[q].job.At(|s.subs|)
  {
    forall q | 0 <= q < |s.agents|
      ensures !s.agents[q].job.At(|s.subs|)
    {
      assert JobOk(s.agents[q].job, q, s.agents[q].number, s.subs);
    }
  }

  lemma {:induction false} CalmRunStaysCalm(s: State, steps: seq<Step>)
    requires Inv(s) && Undisturbed(s) && CalmRun(s, steps)
    ensures Run(s, steps) && Undisturbed(End(s, steps))
    decreases |steps|
  {
    hide Inv, Undisturbed, Next, Enabled, Calm;
    if steps == [] {
    } else {
      StepKeepsInv(s, steps[0]);
      StepStaysCalm(s, steps[0]);
      CalmRunStaysCalm(Next(s, steps[0]), steps[1..]);
    }
  }

  lemma {:induction false} NothingAstray(subs: seq<Sub>, topic: string)
    requires forall i :: 0 <= i < |subs| ==> subs[i].hollow == 0 && subs[i].failed == 0
    ensures Hollows(subs, topic) == 0 && Failures(subs, topic) == 0
    decreases |subs|
  {
    if subs == [] {
    } else {
      NothingAstray(subs[..|subs| - 1], topic);
    }
  }

  /** If no delivery is disturbed, the counters tell exactly what was kept and what was offered. */
  lemma CalmCountersAreExact(n: nat, steps: seq<Step>, topic: string)
    requires CalmRun(Start(n), steps)
    ensures Run(Start(n), steps)
    ensures var s := End(Start(n), steps);
            var c := Shown(s.metrics, topic);
            Quiet(s, topic) ==>
              && c.delivered - c.oldest == Held(s.subs, topic)
              && Offered(s.subs, topic) == c.delivered + c.newest + c.timeouts + c.closes
  {
    StartIsOk(n);
    assert Undisturbed(Start(n));
    CalmRunStaysCalm(Start(n), steps);
    var s := End(Start(n), steps);
    hide Run, CalmRun, End;
    NothingAstray(s.subs, topic);
    if Quiet(s, topic) {
      CountersAccount(n, steps, topic);
    }
  }

  /** One subscription of size 1 that drops the oldest, and one publisher. */
  function Scene(buffer: seq<Message>, received: seq<Message>, hollow: nat, offered: nat, delivered: nat, oldest: nat,
                 agent: Agent): State
  {
    State([Sub("t", 1, DropOldest, buffer, true, received, 0, hollow, 0, 0, offered)],
          map["t" := {0}], map["t" := Tally(delivered, oldest, 0, 0, 0, 1)], [agent], false)
  }

  const FIRST := Message("t", 0, 1)
  const SECOND := Message("t", 0, 2)

  lemma SameScene(a: State, b: State)
    requires |a.subs| == 1 == |b.subs| && a.subs[0] == b.subs[0] && a.topics == b.topics && a.metrics == b.metrics
    requires |a.agents| == 1 == |b.agents| && a.agents[0] == b.agents[0] && a.closed == b.closed
    ensures a == b
  {
  }

  /** One stage of the only publisher. */
  lemma SceneAdvances(s: State, sub: Sub, c: Tally, job: Job)
    requires |s.subs| == 1 == |s.agents| && s.agents[0].job.At(0)
    requires s.subs[0].topic == "t" && s.subs[0].open && sub.open
    requires !s.agents[0].job.stage.Waiting? && "t" in s.metrics
    requires var job0 := s.agents[0].job;
             var (sub', c', next) := Deliver(s.subs[0], s.metrics["t"], job0.msg, job0.stage, false);
             sub' == sub && c' == c && JobAfter(s.agents[0].job, next) == job
    ensures Enabled(s, Advance(0, false))
    ensures Next(s, Advance(0, false)) ==
              s.(subs := [sub], metrics := s.metrics["t" := c], agents := [s.agents[0].(job := job)])
  {
    hide Deliver, JobAfter;
    assert s.subs[0 := sub] == [sub];
    assert s.agents[0 := s.agents[0].(job := job)] == [s.agents[0].(job := job)];
  }

  /** The first message goes into the channel and is counted. */
  lemma SceneFills() returns (steps: seq<Step>)
    ensures Run(Start(1), steps)
    ensures End(Start(1), steps) == Scene([FIRST], [], 0, 1, 1, 0, Agent(2, Busy(SECOND, [0], Ready)))
  {
    var s0 := Start(1);
    var s1 := Scene([], [], 0, 0, 0, 0, Agent(0, Idle));
    var s2 := Scene([], [], 0, 0, 0, 0, Agent(1, Busy(FIRST, [0], Ready)));
    var s3 := Scene([FIRST], [], 0, 1, 0, 0, Agent(1, Busy(FIRST, [0], Counting([Delivered], false))));
    var s4 := Scene([FIRST], [], 0, 1, 1, 0, Agent(1, Idle));
    var s5 := Scene([FIRST], [], 0, 1, 1, 0, Agent(2, Busy(SECOND, [0], Ready)));
    assert Next(s0, Subscribe("t", Options(1, DropOldest))) == s1 by {
      assert {} + {0} == {0};
      SameScene(Next(s0, Subscribe("t", Options(1, DropOldest))), s1);
    }
    assert Enabled(s1, Publish(0, "t", [0])) && Next(s1, Publish(0, "t", [0])) == s2;
    assert s2.subs[0].Put(FIRST).buffer == [FIRST];
    SceneAdvances(s2, s3.subs[0], s3.metrics["t"], s3.agents[0].job);
    SameScene(Next(s2, Advance(0, false)), s3);
    SceneAdvances(s3, s4.subs[0], s4.metrics["t"], Idle);
    SameScene(Next(s3, Advance(0, false)), s4);
    assert Enabled(s4, Publish(0, "t", [0])) && Next(s4, Publish(0, "t", [0])) == s5;
    assert Run(s5, []) && End(s5, []) == s5;
    hide Next, Enabled, Run, End, Scene;
    steps := Prepend(s4, Publish(0, "t", [0]), []);
    steps := Prepend(s3, Advance(0, false), steps);
    steps := Prepend(s2, Advance(0, false), steps);
    steps := Prepend(s1, Publish(0, "t", [0]), steps);
    steps := Prepend(s0, Subscribe("t", Options(1, DropOldest)), steps);
  }

  /** The publisher finds the channel full, and then the receiver empties it. */
  lemma SceneIsDisturbed() returns (steps: seq<Step>)
    ensures var s := Scene([FIRST], [], 0, 1, 1, 0, Agent(2, Busy(SECOND, [0], Ready)));
            Run(s, steps) && End(s, steps) == Scene([], [FIRST], 1, 1, 1, 0, Agent(2, Busy(SECOND, [0], Resending)))
  {
    var s5 := Scene([FIRST], [], 0, 1, 1, 0, Agent(2, Busy(SECOND, [0], Ready)));
    var s6 := Scene([FIRST], [], 0, 1, 1, 0, Agent(2, Busy(SECOND, [0], Evicting)));
    var s7 := Scene([], [FIRST], 0, 1, 1, 0, Agent(2, Busy(SECOND, [0], Evicting)));
    var s8 := Scene([], [FIRST], 1, 1, 1, 0, Agent(2, Busy(SECOND, [0], Resending)));
    SceneAdvances(s5, s6.subs[0], s6.metrics["t"], s6.agents[0].job);
    SameScene(Next(s5, Advance(0, false)), s6);
    assert s6.subs[0].Receive().buffer == [] && s6.subs[0].Receive().received == [FIRST];
    assert Enabled(s6, Receive(0));
    SameScene(Next(s6, Receive(0)), s7);
    SceneAdvances(s7, s8.subs[0], s8.metrics["t"], s8.agents[0].job);
    SameScene(Next(s7, Advance(0, false)), s8);
    assert Run(s8, []) && End(s8, []) == s8;
    hide Next, Enabled, Run, End, Scene;
    steps := Prepend(s7, Advance(0, false), []);
    steps := Prepend(s6, Receive(0), steps);
    steps := Prepend(s5, Advance(0, false), steps);
  }

  /** The second message goes in, and a delivery and a drop are counted. */
  lemma SceneEnds() returns (steps: seq<Step>)
    ensures var s := Scene([], [FIRST], 1, 1, 1, 0, Agent(2, Busy(SECOND, [0], Resending)));
            Run(s, steps) && End(s, steps) == Scene([SECOND], [FIRST], 1, 2, 2, 1, Agent(2, Idle))
  {
    var s8 := Scene([], [FIRST], 1, 1, 1, 0, Agent(2, Busy(SECOND, [0], Resending)));
    var s9 := Scene([SECOND], [FIRST], 1, 2, 1, 0, Agent(2, Busy(SECOND, [0], Counting([Delivered, Oldest], false))));
    var s10 := Scene([SECOND], [FIRST], 1, 2, 2, 0, Agent(2, Busy(SECOND, [0], Counting([Oldest], false))));
    var s11 := Scene([SECOND], [FIRST], 1, 2, 2, 1, Agent(2, Idle));
    assert s8.subs[0].Put(SECOND).buffer == [SECOND];
    SceneAdvances(s8, s9.subs[0], s9.metrics["t"], s9.agents[0].job);
    SameScene(Next(s8, Advance(0, false)), s9);
    assert [Delivered, Oldest][1..] == [Oldest];
    SceneAdvances(s9, s10.subs[0], s10.metrics["t"], s10.agents[0].job);
    SameScene(Next(s9, Advance(0, false)), s10);
    SceneAdvances(s10, s11.subs[0], s11.metrics["t"], Idle);
    SameScene(Next(s10, Advance(0, false)), s11);
    assert Run(s11, []) && End(s11, []) == s11;
    hide Next, Enabled, Run, End, Scene;
    steps := Prepend(s10, Advance(0, false), []);
    steps := Prepend(s9, Advance(0, false), steps);
    steps := Prepend(s8, Advance(0, false), steps);
  }

  lemma {:induction false} RunsConcat(s: State, a: seq<Step>, b: seq<Step>)
    requires Run(s, a) && Run(End(s, a), b)
    ensures Run(s, a + b) && End(s, a + b) == End(End(s, a), b)
    decreases |a|
  {
    hide Next, Enabled;
    if a == [] {
      assert a + b == b;
    } else {
      assert (a + b)[0] == a[0] && (a + b)[1..] == a[1..] + b;
      RunsConcat(Next(s, a[0]), a[1..], b);
    }
  }

  /** A disturbed run: the receiver empties the channel just before the eviction. The counters show a dropped message,
      and all messages are there. */
  lemma DropThatWasNone() returns (steps: seq<Step>)
    ensures Run(Start(1), steps)
    ensures End(Start(1), steps) == Scene([SECOND], [FIRST], 1, 2, 2, 1, Agent(2, Idle))
  {
    hide Run, End, Scene;
    var a := SceneFills();
    var b := SceneIsDisturbed();
    var c := SceneEnds();
    RunsConcat(Start(1), a, b);
    RunsConcat(Start(1), a + b, c);
    steps := a + b + c;
  }

  lemma Prepend(s: State, step: Step, rest: seq<Step>) returns (steps: seq<Step>)
    requires Enabled(s, step) && Run(Next(s, step), rest)
    ensures Run(s, steps) && End(s, steps) == End(Next(s, step), rest)
  {
    steps := [step] + rest;
    assert steps[1..] == rest;
  }

  // ---------- longer runs ----------

  lemma SameCrew(s: State, step: Step)
    requires Enabled(s, step)
    ensures |Next(s, step).agents| == |s.agents|
  {
    hide Deliver, Remove, Shut;
  }

  lemma {:induction false} CalmRunGoesOn(s: State, steps: seq<Step>, step: Step)
    requires CalmRun(s, steps) && Run(s, steps) && Enabled(End(s, steps), step) && Calm(End(s, steps), step)
    ensures CalmRun(s, steps + [step]) && Run(s, steps + [step])
    ensures End(s, steps + [step]) == Next(End(s, steps), step)
    decreases |steps|
  {
    hide Next, Enabled, Calm;
    if steps == [] {
      assert ([] + [step])[0] == step && ([] + [step])[1..] == [];
      assert CalmRun(Next(s, step), []) && Run(Next(s, step), []);
    } else {
      assert (steps + [step])[0] == steps[0] && (steps + [step])[1..] == steps[1..] + [step];
      CalmRunGoesOn(Next(s, steps[0]), steps[1..], step);
    }
  }
}
