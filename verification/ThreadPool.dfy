/**
 * The dispatching pool over one ring per worker: submitters run `try_push` steps on the ring they
 * are routed to, each worker runs its loop on its own ring, and `stop` raises the workers' stop
 * requests one by one. Every atomic step of every thread is one action.
 */
module ThreadPool {
  import opened Wrappers
  import opened MpmcQueue
  import opened MpscQueue
  import opened Sequences
  import Bits

  /** A task on its way, with who submitted it under which key and where it was routed. */
  datatype Item<K, V> = Item(submitter: nat, worker: nat, key: K, task: V)

  datatype Group = Group(begin: nat, count: nat)

  datatype Mode = ByKey | ToGroup(group: nat) | ToWorker(index: nat) | Any

  /** Fixed at spawn time: the hash, the groups and the handler that updates a worker's context. */
  datatype Config<!K, !V, !C> = Config(hash: K -> nat, groups: seq<Group>, handler: (C, V) -> C)

  datatype Worker<K, V> =
    | Testing(draining: bool)
    | TryingPop(draining: bool)
    | Handling(item: Item<K, V>, draining: bool)
    | Exited

  datatype Pool<K, V, C> = Pool(
    queues: seq<Mpsc<Item<K, V>>>,
    workers: seq<Worker<K, V>>,
    calls: seq<Option<Item<K, V>>>,
    stopping: bool,
    stopRequested: seq<bool>,
    roundRobin: nat,
    contexts: seq<C>,
    handled: seq<seq<Item<K, V>>>,
    accepted: seq<seq<Item<K, V>>>)

  datatype Action<K, V> =
    | Submit(submitter: nat, mode: Mode, key: K, task: V)
    | SubmitStep(submitter: nat, spurious: bool)
    | Stop
    | RequestStop(worker: nat)
    | WorkerStep(worker: nat)

  function WorkerForKey<K>(hash: K -> nat, workers: nat, key: K): (w: nat)
    requires workers > 0
    ensures w < workers
  {
    hash(key) % workers
  }

  ghost predicate GroupsFit(groups: seq<Group>, workers: nat) {
    forall g | 0 <= g < |groups| :: groups[g].count > 0 && groups[g].begin + groups[g].count <= workers
  }

  ghost predicate ModeFits<K, V, C>(cfg: Config<K, V, C>, workers: nat, mode: Mode) {
    && (mode.ToGroup? ==> mode.group < |cfg.groups|)
    && (mode.ToWorker? ==> mode.index < workers)
  }

  /** Which worker a submission lands on. */
  ghost function Target<K, V, C>(cfg: Config<K, V, C>, workers: nat, roundRobin: nat, mode: Mode, key: K): (w: nat)
    requires workers > 0 && GroupsFit(cfg.groups, workers) && ModeFits(cfg, workers, mode)
    ensures w < workers
  {
    match mode
    case ByKey => WorkerForKey(cfg.hash, workers, key)
    case ToGroup(g) => cfg.groups[g].begin + cfg.hash(key) % cfg.groups[g].count
    case ToWorker(i) => i
    case Any => roundRobin % workers
  }

  /**
   * The worker each mode reaches, as the caller sees it: the one the key's hash leaves over among all
   * workers, or within the group's own block, the one named, or the next in turn; and no other.
   */
  lemma TargetIs<K, V, C>(cfg: Config<K, V, C>, workers: nat, roundRobin: nat, mode: Mode, key: K, w: nat)
    requires workers > 0 && GroupsFit(cfg.groups, workers) && ModeFits(cfg, workers, mode)
    ensures w == Target(cfg, workers, roundRobin, mode, key) <==>
      match mode
      case ByKey => w < workers && (cfg.hash(key) - w) % workers == 0
      case ToGroup(g) =>
        var group := cfg.groups[g];
        group.begin <= w < group.begin + group.count && (cfg.hash(key) - (w - group.begin)) % group.count == 0
      case ToWorker(i) => w == i
      case Any => w < workers && (roundRobin - w) % workers == 0
  {
    match mode
    case ByKey => Leftover(cfg.hash(key), workers, w);
    case ToGroup(g) => Leftover(cfg.hash(key), cfg.groups[g].count, w - cfg.groups[g].begin);
    case ToWorker(i) =>
    case Any => Leftover(roundRobin, workers, w);
  }

  /** The remainder is the one number below n that differs from x by a multiple of n. */
  lemma Leftover(x: nat, n: nat, r: int)
    requires n > 0
    ensures r == x % n <==> 0 <= r < n && (x - r) % n == 0
  {
    var q, q' := x / n, (x - r) / n;
    assert x == n * q + x % n;
    if 0 <= r < n && (x - r) % n == 0 {
      assert x == n * q' + r;
      Bits.ModUnique(x, n, q', r);
    }
    if r == x % n { Bits.ModUnique(x - r, n, q, 0); }
  }

  ghost predicate PoolShape<K, V, C>(p: Pool<K, V, C>) {
    && |p.queues| > 0
    && |p.workers| == |p.stopRequested| == |p.contexts| == |p.handled| == |p.queues|
    && |p.accepted| == |p.calls|
    && (forall w | 0 <= w < |p.queues| :: QueueShape(p.queues[w]) && |p.queues[w].producers| == |p.calls|)
    && (forall t | 0 <= t < |p.calls| && p.calls[t].Some? :: p.calls[t].value.worker < |p.queues|)
  }

  /** When an action may happen; submitters are done before `stop`, and none starts after it. */
  ghost predicate Enabled<K, V, C>(cfg: Config<K, V, C>, p: Pool<K, V, C>, a: Action<K, V>)
    requires PoolShape(p)
  {
    match a
    case Submit(t, mode, key, task) =>
      && t < |p.calls| && p.calls[t] == None && !p.stopping
      && GroupsFit(cfg.groups, |p.queues|) && ModeFits(cfg, |p.queues|, mode)
    case SubmitStep(t, _) => t < |p.calls| && p.calls[t].Some?
    case Stop => forall t | 0 <= t < |p.calls| :: p.calls[t] == None
    case RequestStop(w) => w < |p.queues| && p.stopping
    case WorkerStep(w) => w < |p.queues|
  }

  ghost function PoolStep<K, V, C>(cfg: Config<K, V, C>, p: Pool<K, V, C>, a: Action<K, V>): Pool<K, V, C>
    requires PoolShape(p) && Enabled(cfg, p, a)
  {
    match a
    case Submit(t, mode, key, task) => BeginSubmit(cfg, p, t, mode, key, task)
    case SubmitStep(t, spurious) => RunSubmit(p, t, spurious)
    case Stop => p.(stopping := true)
    case RequestStop(w) => p.(stopRequested := p.stopRequested[w := true])
    case WorkerStep(w) => RunWorker(cfg, p, w)
  }

  ghost function BeginSubmit<K, V, C>(cfg: Config<K, V, C>, p: Pool<K, V, C>, t: nat, mode: Mode, key: K, task: V): Pool<K, V, C>
    requires PoolShape(p) && Enabled(cfg, p, Submit(t, mode, key, task))
  {
    var w := Target(cfg, |p.queues|, p.roundRobin, mode, key);
    var item := Item(t, w, key, task);
    p.(calls := p.calls[t := Some(item)],
       roundRobin := if mode.Any? then p.roundRobin + 1 else p.roundRobin,
       queues := p.queues[w := ProducerStep(p.queues[w], t, CallPush(item))])
  }

  /** One step inside `try_push`; when it returns, the submission was accepted or refused. */
  ghost function RunSubmit<K, V, C>(p: Pool<K, V, C>, t: nat, spurious: bool): Pool<K, V, C>
    requires PoolShape(p) && t < |p.calls| && p.calls[t].Some?
  {
    var item := p.calls[t].value;
    var q := ProducerStep(p.queues[item.worker], t, if spurious then SpuriousFail else Proceed);
    var p1 := p.(queues := p.queues[item.worker := q]);
    if !q.producers[t].Ready? then p1
    else p1.(calls := p.calls[t := None],
             accepted := if q.producers[t].last.Pushed? then p.accepted[t := p.accepted[t] + [item]] else p.accepted)
  }

  /** One step of `worker_loop`. */
  ghost function RunWorker<K, V, C>(cfg: Config<K, V, C>, p: Pool<K, V, C>, w: nat): Pool<K, V, C>
    requires PoolShape(p) && w < |p.queues|
  {
    match p.workers[w]
    case Testing(draining) =>
      p.(queues := p.queues[w := ConsumerStep(p.queues[w])],
         workers := p.workers[w := TryingPop(draining || p.stopRequested[w])])
    case TryingPop(draining) =>
      var q := ConsumerStep(p.queues[w]);
      p.(queues := p.queues[w := q],
         workers := p.workers[w :=
           match q.consumer
           case Resting(Some(item)) => Handling(item, draining)
           case Resting(None) => if draining then Exited else Testing(false)
           case _ => TryingPop(draining)])
    case Handling(item, draining) =>
      p.(workers := p.workers[w := Testing(draining)],
         handled := p.handled[w := p.handled[w] + [item]],
         contexts := p.contexts[w := cfg.handler(p.contexts[w], item.task)])
    case Exited => p
  }

  ghost function InitPool<K, V, C>(capacity: nat, submitters: nat, contexts: seq<C>): Pool<K, V, C>
    requires capacity >= 2
  {
    Pool(seq(|contexts|, i => InitQueue(capacity, submitters)), seq(|contexts|, i => Testing(false)),
         seq(submitters, i => None), false, seq(|contexts|, i => false), 0, contexts,
         seq(|contexts|, i => []), seq(submitters, i => []))
  }

  // ---------------------------------------------------------------- invariant

  ghost function By<K, V>(t: nat): Item<K, V> -> bool { (x: Item<K, V>) => x.submitter == t }

  ghost function To<K, V>(w: nat): Item<K, V> -> bool { (x: Item<K, V>) => x.worker == w }

  ghost function TaskOf<K, V>(items: seq<Item<K, V>>): (r: seq<V>)
    ensures |r| == |items|
  {
    seq(|items|, i requires 0 <= i < |items| => items[i].task)
  }

  /** Popped from the ring but not yet through the handler. */
  ghost function Pending<K, V>(worker: Worker<K, V>, consumer: Consumer<Item<K, V>>): seq<Item<K, V>> {
    match worker
    case TryingPop(_) => InHand(consumer)
    case Handling(item, _) => [item]
    case _ => []
  }

  ghost predicate WorkerFine<K, V, C>(p: Pool<K, V, C>, w: nat)
    requires PoolShape(p) && w < |p.queues|
  {
    var q := p.queues[w];
    && p.handled[w] + Pending(p.workers[w], q.consumer) == q.taken
    && (p.stopRequested[w] ==> p.stopping)
    && match p.workers[w]
       case Testing(d) => q.consumer.Resting? && (d ==> p.stopRequested[w])
       case TryingPop(d) => !q.consumer.Resting? && (d ==> p.stopRequested[w])
       case Handling(item, d) => q.consumer == Resting(Some(item)) && (d ==> p.stopRequested[w])
       case Exited => q.consumer.Resting? && p.stopRequested[w] && q.taken == q.claims
  }

  /** Submitter t is inside `try_push` on ring w exactly when its call was routed there. */
  ghost predicate CallFine<K, V, C>(p: Pool<K, V, C>, t: nat, w: nat)
    requires PoolShape(p) && t < |p.calls| && w < |p.queues|
  {
    var pc := p.queues[w].producers[t];
    match p.calls[t]
    case None => pc.Ready?
    case Some(item) =>
      && item.submitter == t
      && if item.worker == w then
           Carries(pc, item)
         else pc.Ready?
  }

  ghost predicate Claimed<T>(pc: Pc<T>) { pc.PushConstruct? || pc.PushPublish? }

  /** The claim of submitter t on ring w that its call has not reported yet. */
  ghost function Unreported<K, V, C>(p: Pool<K, V, C>, t: nat, w: nat): seq<Item<K, V>>
    requires PoolShape(p) && t < |p.calls| && w < |p.queues|
  {
    if p.calls[t].Some? && p.calls[t].value.worker == w && Claimed(p.queues[w].producers[t]) then [p.calls[t].value] else []
  }

  /** Ring w holds, of submitter t, the accepted submissions routed to w, in submission order. */
  ghost predicate LogFine<K, V, C>(p: Pool<K, V, C>, t: nat, w: nat)
    requires PoolShape(p) && t < |p.calls| && w < |p.queues|
  {
    Filter(p.queues[w].claims, By(t)) == Filter(p.accepted[t], To(w)) + Unreported(p, t, w)
  }

  /** Everything about ring w and its worker. */
  ghost predicate RingFine<K, V, C>(cfg: Config<K, V, C>, start: seq<C>, p: Pool<K, V, C>, w: nat)
    requires PoolShape(p) && w < |p.queues| == |start|
  {
    && QueueInv(p.queues[w])
    && WorkerFine(p, w)
    && (forall x | x in p.queues[w].claims :: x.worker == w && x.submitter < |p.calls|)
    && p.contexts[w] == Fold(cfg.handler, start[w], TaskOf(p.handled[w]))
  }

  ghost predicate PairFine<K, V, C>(p: Pool<K, V, C>, t: nat, w: nat)
    requires PoolShape(p) && t < |p.calls| && w < |p.queues|
  {
    CallFine(p, t, w) && LogFine(p, t, w)
  }

  ghost predicate AcceptedFine<K, V, C>(p: Pool<K, V, C>, t: nat)
    requires PoolShape(p) && t < |p.calls|
  {
    && (forall x | x in p.accepted[t] :: x.worker < |p.queues| && x.submitter == t)
    && (p.stopping ==> p.calls[t] == None)
  }

  ghost predicate PoolInv<K, V, C>(cfg: Config<K, V, C>, start: seq<C>, p: Pool<K, V, C>) {
    && PoolShape(p)
    && |start| == |p.queues|
    && (forall w: nat | w < |p.queues| :: RingFine(cfg, start, p, w))
    && (forall t: nat | t < |p.calls| :: AcceptedFine(p, t))
    && (forall t: nat, w: nat | t < |p.calls| && w < |p.queues| :: PairFine(p, t, w))
  }

  lemma InitPoolInv<K, V, C>(cfg: Config<K, V, C>, capacity: nat, submitters: nat, contexts: seq<C>)
    requires capacity >= 2 && |contexts| > 0
    ensures PoolInv(cfg, contexts, InitPool<K, V, C>(capacity, submitters, contexts))
  {
    InitQueueInv<Item<K, V>>(capacity, submitters);
  }

  // ---------------------------------------------------------------- what the rings' steps do

  /** A producer step appends at most its own value to the claims, and only by a winning CAS. */
  lemma ProducerEffect<T>(s: Mpsc<T>, t: nat, c: Choice<T>)
    requires QueueInv(s) && t < |s.producers|
    ensures var s' := ProducerStep(s, t, c);
      && |s'.producers| == |s.producers| && (forall u | 0 <= u < |s.producers| && u != t :: s'.producers[u] == s.producers[u])
      && s'.consumer == s.consumer && s'.taken == s.taken
      && s.claims <= s'.claims
  {
    assert ProducerFine(s, t);
  }

  /** The four ways a call in progress can step: claim, publish and return, be refused by a full ring, or go on. */
  lemma CallStepEffect<T>(s: Mpsc<T>, t: nat, c: Choice<T>, v: T)
    requires QueueInv(s) && t < |s.producers| && Carries(s.producers[t], v)
    ensures var s' := ProducerStep(s, t, c);
      var pc, pc' := s.producers[t], s'.producers[t];
      || (s'.claims == s.claims + [v] && !Claimed(pc) && Claimed(pc') && Carries(pc', v))
      || (s'.claims == s.claims && pc.PushPublish? && pc' == Ready(Pushed(pc.pos, v)))
      || (s'.claims == s.claims && OfferBlocked(s, pc) && pc' == Ready(PushFull))
      || (s'.claims == s.claims && Claimed(pc) == Claimed(pc') && Carries(pc', v) && !OfferBlocked(s, pc) && !pc.PushPublish?)
  {
    assert ProducerFine(s, t);
    OfferStep(s, t, c, v);
  }

  /** A consumer step touches neither claims nor producers. */
  lemma ConsumerEffect<T>(s: Mpsc<T>)
    requires QueueInv(s)
    ensures var s' := ConsumerStep(s);
      && s'.claims == s.claims && s'.producers == s.producers
      && (s'.consumer.Resting? && s'.consumer.last.Some? ==> InHand(s.consumer) == [s'.consumer.last.value])
      && (s'.consumer == Resting(None) ==> InHand(s.consumer) == [] && s.consumer.TakeCheck?)
      && (s.consumer.Resting? ==> s'.consumer == TakeLoad)
      && (InHand(s'.consumer) == InHand(s.consumer) || s'.consumer.Resting? || s.consumer.TakeMove?)
      && (s.consumer.TakeMove? ==> s'.taken == s.taken + InHand(s'.consumer) && !s'.consumer.Resting? && InHand(s.consumer) == [])
      && (!s.consumer.TakeMove? ==> s'.taken == s.taken)
  {}

  /** With no call under way, a refused pop means the ring is empty for good. */
  lemma RefusedWhileQuiet<T>(s: Mpsc<T>)
    requires QueueInv(s) && s.consumer.TakeCheck? && ConsumerStep(s).consumer == Resting(None)
    requires forall t: nat | t < |s.producers| :: s.producers[t].Ready?
    ensures s.taken == s.claims
  {
    TakeRefusedIff(s);
  }

  // ---------------------------------------------------------------- preservation

  /** What a step leaves alone stays fine. */
  lemma RingFrame<K, V, C>(cfg: Config<K, V, C>, start: seq<C>, p: Pool<K, V, C>, p': Pool<K, V, C>, w: nat)
    requires PoolShape(p) && PoolShape(p') && w < |p.queues| == |p'.queues| == |start| && |p.calls| == |p'.calls|
    requires RingFine(cfg, start, p, w)
    requires p'.queues[w] == p.queues[w] && p'.workers[w] == p.workers[w] && p'.handled[w] == p.handled[w]
    requires p'.contexts[w] == p.contexts[w] && p'.stopRequested[w] == p.stopRequested[w] && (p.stopping ==> p'.stopping)
    ensures RingFine(cfg, start, p', w)
  {}

  lemma PairFrame<K, V, C>(p: Pool<K, V, C>, p': Pool<K, V, C>, t: nat, w: nat)
    requires PoolShape(p) && PoolShape(p') && w < |p.queues| == |p'.queues| && t < |p.calls| == |p'.calls|
    requires PairFine(p, t, w)
    requires p'.queues[w].claims == p.queues[w].claims && p'.queues[w].producers[t] == p.queues[w].producers[t]
    requires p'.calls[t] == p.calls[t] && p'.accepted[t] == p.accepted[t]
    ensures PairFine(p', t, w)
  {}

  lemma BeginPairs<K, V, C>(cfg: Config<K, V, C>, start: seq<C>, p: Pool<K, V, C>, t: nat, mode: Mode, key: K, task: V, u: nat, w: nat)
    requires PoolInv(cfg, start, p) && Enabled(cfg, p, Submit(t, mode, key, task)) && u < |p.calls| && w < |p.queues|
    ensures var p' := BeginSubmit(cfg, p, t, mode, key, task); PoolShape(p') && PairFine(p', u, w)
  {
    var p' := BeginSubmit(cfg, p, t, mode, key, task);
    var w0 := Target(cfg, |p.queues|, p.roundRobin, mode, key);
    assert PairFine(p, t, w0) && PairFine(p, u, w) && PairFine(p, t, w);
    assert p.queues[w0].producers[t].Ready?;
    assert p'.queues[w0] == MpscQueue.MoveTo(p.queues[w0], t, PushLoad(Item(t, w0, key, task)));
    assert PoolShape(p');
    if u != t {
      PairFrame(p, p', u, w);
    }
  }

  lemma BeginSubmitKeepsInv<K, V, C>(cfg: Config<K, V, C>, start: seq<C>, p: Pool<K, V, C>, t: nat, mode: Mode, key: K, task: V)
    requires PoolInv(cfg, start, p) && Enabled(cfg, p, Submit(t, mode, key, task))
    ensures PoolInv(cfg, start, BeginSubmit(cfg, p, t, mode, key, task))
  {
    var p' := BeginSubmit(cfg, p, t, mode, key, task);
    var w0 := Target(cfg, |p.queues|, p.roundRobin, mode, key);
    var item := Item(t, w0, key, task);
    forall u: nat, w: nat | u < |p.calls| && w < |p.queues| ensures PoolShape(p') && PairFine(p', u, w) {
      BeginPairs(cfg, start, p, t, mode, key, task, u, w);
    }
    BeginPairs(cfg, start, p, t, mode, key, task, t, w0);
    assert PairFine(p, t, w0);
    forall w: nat | w < |p.queues| ensures RingFine(cfg, start, p', w) {
      assert RingFine(cfg, start, p, w);
      if w != w0 { RingFrame(cfg, start, p, p', w); }
      else { ProducerStepKeepsInv(p.queues[w0], t, CallPush(item)); }
    }
    forall u: nat | u < |p.calls| ensures AcceptedFine(p', u) { assert AcceptedFine(p, u); }
  }

  lemma RunSubmitShape<K, V, C>(cfg: Config<K, V, C>, start: seq<C>, p: Pool<K, V, C>, t: nat, spurious: bool)
    requires PoolInv(cfg, start, p) && t < |p.calls| && p.calls[t].Some?
    ensures PoolShape(RunSubmit(p, t, spurious))
  {
    var item := p.calls[t].value;
    var c: Choice<Item<K, V>> := if spurious then SpuriousFail else Proceed;
    assert RingFine(cfg, start, p, item.worker);
    ProducerEffect(p.queues[item.worker], t, c);
    ProducerStepKeepsInv(p.queues[item.worker], t, c);
  }

  /** The stepping submitter on the ring it was routed to. */
  lemma OwnCall<K, V, C>(cfg: Config<K, V, C>, start: seq<C>, p: Pool<K, V, C>, t: nat, spurious: bool)
    requires PoolInv(cfg, start, p) && t < |p.calls| && p.calls[t].Some?
    ensures var p' := RunSubmit(p, t, spurious); PoolShape(p') && CallFine(p', t, p.calls[t].value.worker)
  {
    RunSubmitShape(cfg, start, p, t, spurious);
    var item := p.calls[t].value;
    assert RingFine(cfg, start, p, item.worker) && PairFine(p, t, item.worker);
    CallStepEffect(p.queues[item.worker], t, if spurious then SpuriousFail else Proceed, item);
  }

  lemma OwnLog<K, V, C>(cfg: Config<K, V, C>, start: seq<C>, p: Pool<K, V, C>, t: nat, spurious: bool)
    requires PoolInv(cfg, start, p) && t < |p.calls| && p.calls[t].Some?
    ensures var p' := RunSubmit(p, t, spurious); PoolShape(p') && LogFine(p', t, p.calls[t].value.worker)
  {
    RunSubmitShape(cfg, start, p, t, spurious);
    var p' := RunSubmit(p, t, spurious);
    var item := p.calls[t].value;
    var w := item.worker;
    assert RingFine(cfg, start, p, w) && PairFine(p, t, w);
    CallStepEffect(p.queues[w], t, if spurious then SpuriousFail else Proceed, item);
    LogCases(p.queues[w].claims, p.accepted[t], Unreported(p, t, w), p'.queues[w].claims, p'.accepted[t], Unreported(p', t, w), item);
  }

  /** Claiming, reporting and everything else keep a submitter's log in step with its ring. */
  lemma LogCases<K, V>(claims: seq<Item<K, V>>, accepted: seq<Item<K, V>>, open: seq<Item<K, V>>,
                       claims': seq<Item<K, V>>, accepted': seq<Item<K, V>>, open': seq<Item<K, V>>, item: Item<K, V>)
    requires Filter(claims, By(item.submitter)) == Filter(accepted, To(item.worker)) + open
    requires || (claims' == claims + [item] && accepted' == accepted && open == [] && open' == [item])
             || (claims' == claims && accepted' == accepted + [item] && open == [item] && open' == [])
             || (claims' == claims && accepted' == accepted && open' == open)
    ensures Filter(claims', By(item.submitter)) == Filter(accepted', To(item.worker)) + open'
  {
    FilterAppend(claims, item, By(item.submitter));
    FilterAppend(accepted, item, To(item.worker));
  }

  lemma OtherLog<K, V>(claims: seq<Item<K, V>>, claims': seq<Item<K, V>>, item: Item<K, V>, u: nat)
    requires item.submitter != u && (claims' == claims || claims' == claims + [item])
    ensures Filter(claims', By(u)) == Filter(claims, By(u))
  {
    FilterAppend(claims, item, By(u));
  }

  /** Another submitter on the stepping submitter's ring, or anywhere else. */
  lemma OtherSubmitter<K, V, C>(cfg: Config<K, V, C>, start: seq<C>, p: Pool<K, V, C>, t: nat, spurious: bool, u: nat, w: nat)
    requires PoolInv(cfg, start, p) && t < |p.calls| && p.calls[t].Some? && u < |p.calls| && w < |p.queues| && u != t
    ensures var p' := RunSubmit(p, t, spurious); PoolShape(p') && PairFine(p', u, w)
  {
    hide QueueInv;
    hide Filter;
    RunSubmitShape(cfg, start, p, t, spurious);
    var p' := RunSubmit(p, t, spurious);
    var item := p.calls[t].value;
    var c: Choice<Item<K, V>> := if spurious then SpuriousFail else Proceed;
    assert PairFine(p, u, w);
    if w == item.worker {
      assert PairFine(p, t, w) && RingFine(cfg, start, p, w);
      ProducerEffect(p.queues[w], t, c);
      CallStepEffect(p.queues[w], t, c, item);
      OtherLog(p.queues[w].claims, p'.queues[w].claims, item, u);
      assert Unreported(p', u, w) == Unreported(p, u, w);
    } else {
      PairFrame(p, p', u, w);
    }
  }

  lemma OtherRing<K, V, C>(cfg: Config<K, V, C>, start: seq<C>, p: Pool<K, V, C>, t: nat, spurious: bool, w: nat)
    requires PoolInv(cfg, start, p) && t < |p.calls| && p.calls[t].Some? && w < |p.queues| && w != p.calls[t].value.worker
    ensures var p' := RunSubmit(p, t, spurious); PoolShape(p') && PairFine(p', t, w)
  {
    RunSubmitShape(cfg, start, p, t, spurious);
    var p' := RunSubmit(p, t, spurious);
    var item := p.calls[t].value;
    assert PairFine(p, t, w) && PairFine(p, t, item.worker);
    assert p'.queues[w] == p.queues[w];
    FilterAppend(p.accepted[t], item, To(w));
    assert Filter(p.accepted[t] + [item], To(w)) == Filter(p.accepted[t], To(w));
  }

  lemma RunSubmitRings<K, V, C>(cfg: Config<K, V, C>, start: seq<C>, p: Pool<K, V, C>, t: nat, spurious: bool, w: nat)
    requires PoolInv(cfg, start, p) && t < |p.calls| && p.calls[t].Some? && w < |p.queues|
    ensures var p' := RunSubmit(p, t, spurious); PoolShape(p') && RingFine(cfg, start, p', w)
  {
    RunSubmitShape(cfg, start, p, t, spurious);
    var p' := RunSubmit(p, t, spurious);
    var item := p.calls[t].value;
    var c: Choice<Item<K, V>> := if spurious then SpuriousFail else Proceed;
    assert RingFine(cfg, start, p, w) && PairFine(p, t, item.worker) && AcceptedFine(p, t);
    if w != item.worker {
      RingFrame(cfg, start, p, p', w);
    } else {
      ProducerEffect(p.queues[w], t, c);
      CallStepEffect(p.queues[w], t, c, item);
      ProducerStepKeepsInv(p.queues[w], t, c);
    }
  }

  lemma RunSubmitKeepsInv<K, V, C>(cfg: Config<K, V, C>, start: seq<C>, p: Pool<K, V, C>, t: nat, spurious: bool)
    requires PoolInv(cfg, start, p) && t < |p.calls| && p.calls[t].Some?
    ensures PoolInv(cfg, start, RunSubmit(p, t, spurious))
  {
    var p' := RunSubmit(p, t, spurious);
    var item := p.calls[t].value;
    RunSubmitShape(cfg, start, p, t, spurious);
    assert PairFine(p, t, item.worker);
    forall w: nat | w < |p.queues| ensures RingFine(cfg, start, p', w) {
      RunSubmitRings(cfg, start, p, t, spurious, w);
    }
    forall u: nat | u < |p.calls| ensures AcceptedFine(p', u) { assert AcceptedFine(p, u); }
    forall u: nat, w: nat | u < |p.calls| && w < |p.queues| ensures PairFine(p', u, w) {
      if u != t { OtherSubmitter(cfg, start, p, t, spurious, u, w); }
      else if w != item.worker { OtherRing(cfg, start, p, t, spurious, w); }
      else { OwnCall(cfg, start, p, t, spurious); OwnLog(cfg, start, p, t, spurious); }
    }
  }

  lemma OwnWorker<K, V, C>(cfg: Config<K, V, C>, start: seq<C>, p: Pool<K, V, C>, w: nat)
    requires PoolInv(cfg, start, p) && w < |p.queues|
    ensures var p' := RunWorker(cfg, p, w); PoolShape(p') && WorkerFine(p', w)
  {
    var q := p.queues[w];
    assert RingFine(cfg, start, p, w);
    ConsumerEffect(q);
    ConsumerStepKeepsInv(q);
    if p.workers[w].TryingPop? && ConsumerStep(q).consumer == Resting(None) && p.workers[w].draining {
      forall t: nat | t < |q.producers| ensures q.producers[t].Ready? { assert PairFine(p, t, w) && AcceptedFine(p, t); }
      RefusedWhileQuiet(q);
    }
  }

  lemma OwnRing<K, V, C>(cfg: Config<K, V, C>, start: seq<C>, p: Pool<K, V, C>, w: nat)
    requires PoolInv(cfg, start, p) && w < |p.queues|
    ensures var p' := RunWorker(cfg, p, w); PoolShape(p') && RingFine(cfg, start, p', w)
  {
    var p' := RunWorker(cfg, p, w);
    OwnWorker(cfg, start, p, w);
    assert RingFine(cfg, start, p, w);
    ConsumerStepKeepsInv(p.queues[w]);
    ConsumerEffect(p.queues[w]);
    if p.workers[w].Handling? {
      var item := p.workers[w].item;
      assert TaskOf(p'.handled[w]) == TaskOf(p.handled[w]) + [item.task];
      FoldAppend(cfg.handler, start[w], TaskOf(p.handled[w]), item.task);
    }
  }

  lemma WorkerKeepsPair<K, V, C>(cfg: Config<K, V, C>, start: seq<C>, p: Pool<K, V, C>, w: nat, u: nat, v: nat)
    requires PoolInv(cfg, start, p) && w < |p.queues| && u < |p.calls| && v < |p.queues|
    ensures var p' := RunWorker(cfg, p, w); PoolShape(p') && PairFine(p', u, v)
  {
    hide QueueInv;
    OwnWorker(cfg, start, p, w);
    assert PairFine(p, u, v) && RingFine(cfg, start, p, v);
    ConsumerEffect(p.queues[v]);
    PairFrame(p, RunWorker(cfg, p, w), u, v);
  }

  lemma RunWorkerKeepsInv<K, V, C>(cfg: Config<K, V, C>, start: seq<C>, p: Pool<K, V, C>, w: nat)
    requires PoolInv(cfg, start, p) && w < |p.queues|
    ensures PoolInv(cfg, start, RunWorker(cfg, p, w))
  {
    hide QueueInv;
    hide WorkerFine;
    var p' := RunWorker(cfg, p, w);
    OwnRing(cfg, start, p, w);
    forall v: nat | v < |p.queues| ensures RingFine(cfg, start, p', v) {
      assert RingFine(cfg, start, p, v);
      if v != w { RingFrame(cfg, start, p, p', v); }
    }
    forall u: nat | u < |p.calls| ensures AcceptedFine(p', u) { assert AcceptedFine(p, u); }
    forall u: nat, v: nat | u < |p.calls| && v < |p.queues| ensures PairFine(p', u, v) {
      WorkerKeepsPair(cfg, start, p, w, u, v);
    }
  }

  lemma StopKeepsInv<K, V, C>(cfg: Config<K, V, C>, start: seq<C>, p: Pool<K, V, C>, a: Action<K, V>)
    requires PoolInv(cfg, start, p) && Enabled(cfg, p, a) && (a.Stop? || a.RequestStop?)
    ensures PoolInv(cfg, start, PoolStep(cfg, p, a))
  {
    var p' := PoolStep(cfg, p, a);
    forall w: nat | w < |p.queues| ensures RingFine(cfg, start, p', w) { assert RingFine(cfg, start, p, w); }
    forall u: nat | u < |p.calls| ensures AcceptedFine(p', u) { assert AcceptedFine(p, u); }
    forall u: nat, w: nat | u < |p.calls| && w < |p.queues| ensures PairFine(p', u, w) {
      assert PairFine(p, u, w);
      PairFrame(p, p', u, w);
    }
  }

  lemma PoolStepKeepsInv<K, V, C>(cfg: Config<K, V, C>, start: seq<C>, p: Pool<K, V, C>, a: Action<K, V>)
    requires PoolInv(cfg, start, p) && Enabled(cfg, p, a)
    ensures PoolInv(cfg, start, PoolStep(cfg, p, a))
  {
    match a
    case Submit(t, mode, key, task) => BeginSubmitKeepsInv(cfg, start, p, t, mode, key, task);
    case SubmitStep(t, spurious) => RunSubmitKeepsInv(cfg, start, p, t, spurious);
    case WorkerStep(w) => RunWorkerKeepsInv(cfg, start, p, w);
    case _ => StopKeepsInv(cfg, start, p, a);
  }

  // ---------------------------------------------------------------- whole executions

  ghost predicate IsPoolRun<K, V, C>(cfg: Config<K, V, C>, capacity: nat, submitters: nat, start: seq<C>,
                                     run: seq<Pool<K, V, C>>, actions: seq<Action<K, V>>)
  {
    && capacity >= 2 && |start| > 0
    && |run| == |actions| + 1
    && run[0] == InitPool<K, V, C>(capacity, submitters, start)
    && forall i: nat | i < |actions| ::
         PoolShape(run[i]) && Enabled(cfg, run[i], actions[i]) && run[i + 1] == PoolStep(cfg, run[i], actions[i])
  }

  lemma {:induction false} PoolRunKeepsInv<K, V, C>(cfg: Config<K, V, C>, capacity: nat, submitters: nat, start: seq<C>,
                                                    run: seq<Pool<K, V, C>>, actions: seq<Action<K, V>>, i: nat)
    requires IsPoolRun(cfg, capacity, submitters, start, run, actions) && i < |run|
    ensures PoolInv(cfg, start, run[i]) && |run[i].calls| == submitters
  {
    if i > 0 {
      PoolRunKeepsInv(cfg, capacity, submitters, start, run, actions, i - 1);
      PoolStepKeepsInv(cfg, start, run[i - 1], actions[i - 1]);
    } else {
      InitPoolInv<K, V, C>(cfg, capacity, submitters, start);
    }
  }

  /** What was taken out of a ring does not reach up to a claim still being published. */
  lemma TakenBeforeOpenClaim<T>(s: Mpsc<T>, t: nat)
    requires QueueInv(s) && t < |s.producers| && Claimed(s.producers[t])
    ensures |s.taken| <= s.producers[t].pos < |s.claims| && s.claims[s.producers[t].pos] == s.producers[t].v
  {
    assert ProducerFine(s, t);
  }

  lemma ByIs<K, V>(x: Item<K, V>, t: nat)
    ensures By(t)(x) <==> x.submitter == t
  {}

  /** What was taken, filtered to one submitter, never runs ahead of what was reported accepted. */
  lemma TakenIsReported<K, V>(done: seq<Item<K, V>>, claims: seq<Item<K, V>>, reported: seq<Item<K, V>>, open: seq<Item<K, V>>, pos: nat, t: nat)
    requires done <= claims && Filter(claims, By(t)) == reported + open
    requires open == [] || (|done| <= pos < |claims| && open == [claims[pos]] && claims[pos].submitter == t)
    ensures Filter(done, By(t)) <= reported
  {
    hide *;
    FilterPrefix(done, claims, By(t));
    if open != [] {
      FilterPrefix(done, claims[..pos], By(t));
      FilterAppend(claims[..pos], claims[pos], By(t));
      ByIs(claims[pos], t);
      assert claims[..pos] + [claims[pos]] == claims[..pos + 1];
      FilterPrefix(claims[..pos + 1], claims, By(t));
      PrefixBeforeLast(Filter(claims[..pos], By(t)), reported, claims[pos]);
      PrefixTransitive(Filter(done, By(t)), Filter(claims[..pos], By(t)), reported);
    } else {
      assert reported + open == reported;
    }
  }

  lemma PrefixBeforeLast<T>(a: seq<T>, b: seq<T>, x: T)
    requires a + [x] <= b + [x]
    ensures a <= b
  {
    assert forall i | 0 <= i < |a| :: a[i] == (a + [x])[i] == (b + [x])[i] == b[i];
  }

  lemma PrefixTransitive<T>(a: seq<T>, b: seq<T>, c: seq<T>)
    requires a <= b && b <= c
    ensures a <= c
  {}

  /**
   * At any moment, what worker w has handled of submitter t's tasks is a prefix, in submission order,
   * of t's accepted submissions routed to w; and w handled nothing that was routed elsewhere.
   */
  lemma HandledInOrder<K, V, C>(cfg: Config<K, V, C>, start: seq<C>, p: Pool<K, V, C>, t: nat, w: nat)
    requires PoolInv(cfg, start, p) && t < |p.calls| && w < |p.queues|
    ensures Filter(p.handled[w], By(t)) <= Filter(p.accepted[t], To(w))
    ensures forall x | x in p.handled[w] :: x.worker == w && x.submitter < |p.calls|
  {
    var q := p.queues[w];
    assert RingFine(cfg, start, p, w) && PairFine(p, t, w);
    var done, open := p.handled[w], Unreported(p, t, w);
    assert done <= q.taken <= q.claims;
    forall x | x in done ensures x.worker == w && x.submitter < |p.calls| {
      var i :| 0 <= i < |done| && done[i] == x;
      assert q.claims[i] == x;
    }
    var pos := 0;
    if open != [] {
      TakenBeforeOpenClaim(q, t);
      pos := q.producers[t].pos;
    }
    TakenIsReported(done, q.claims, Filter(p.accepted[t], To(w)), open, pos, t);
  }

  ghost predicate AllExited<K, V, C>(p: Pool<K, V, C>)
    requires PoolShape(p)
  {
    forall w | 0 <= w < |p.queues| :: p.workers[w].Exited?
  }

  /**
   * Exactly once: when every worker has left its loop, drain included, each worker has handled each
   * submitter's accepted submissions routed to it, all of them, once, and in submission order.
   */
  lemma DrainHandlesExactlyAccepted<K, V, C>(cfg: Config<K, V, C>, start: seq<C>, p: Pool<K, V, C>, t: nat, w: nat)
    requires PoolInv(cfg, start, p) && AllExited(p) && t < |p.calls| && w < |p.queues|
    ensures Filter(p.handled[w], By(t)) == Filter(p.accepted[t], To(w))
    ensures p.handled[w] == p.queues[w].claims
  {
    assert RingFine(cfg, start, p, w) && PairFine(p, t, w) && AcceptedFine(p, t);
    assert p.stopRequested[w] && p.calls[t] == None && Unreported(p, t, w) == [];
    assert p.handled[w] + [] == p.handled[w];
  }

  // ---------------------------------------------------------------- the drain ends

  /** Worker w has been asked to stop. */
  ghost predicate Stopping<K, V, C>(p: Pool<K, V, C>, w: nat)
    requires PoolShape(p) && w < |p.queues|
  {
    p.stopping && p.stopRequested[w]
  }

  /** How many more steps of its own a worker asked to stop takes: eight per element, three to find the ring empty. */
  ghost function StepsLeft<K, V, C>(p: Pool<K, V, C>, w: nat): int
    requires PoolShape(p) && w < |p.queues|
  {
    var q := p.queues[w];
    var left := |q.claims| - |q.taken|;
    match p.workers[w]
    case Testing(_) => 8 * left + 3
    case TryingPop(draining) =>
      var retry := if left == 0 && !draining then 3 else 0;
      (match q.consumer
       case TakeLoad => 8 * left + 2 + retry
       case TakeCheck(_) => 8 * left + 1 + retry
       case TakeMove(_) => 8 * left
       case TakeDestroy(_, _) => 8 * left + 7
       case TakeRelease(_, _) => 8 * left + 6
       case TakeAdvance(_, _) => 8 * left + 5
       case Resting(_) => 0)
    case Handling(_, _) => 8 * left + 4
    case Exited => 0
  }

  /** With no producer in flight the consumer finds nothing only when everything was taken. */
  lemma QuietCheck<T>(s: Mpsc<T>)
    requires QueueInv(s) && s.consumer.TakeCheck? && forall t: nat | t < |s.producers| :: s.producers[t].Ready?
    ensures ConsumerStep(s).consumer == Resting(None) <==> |s.taken| == |s.claims|
    ensures ConsumerStep(s).consumer.Resting? || ConsumerStep(s).consumer.TakeMove?
  {
    if ConsumerStep(s).consumer == Resting(None) { RefusedWhileQuiet(s); }
    TakeRefusedIff(s);
  }

  /**
   * Progress: every step of a worker asked to stop brings it one closer to its exit, and it has left its
   * loop exactly when no step is left.
   */
  lemma StoppedWorkerProgress<K, V, C>(cfg: Config<K, V, C>, start: seq<C>, p: Pool<K, V, C>, w: nat)
    requires PoolInv(cfg, start, p) && w < |p.queues| && Stopping(p, w)
    ensures StepsLeft(p, w) >= 0 && (p.workers[w].Exited? <==> StepsLeft(p, w) == 0)
    ensures var p' := RunWorker(cfg, p, w);
      && PoolInv(cfg, start, p') && |p'.queues| == |p.queues| && Stopping(p', w)
      && (!p.workers[w].Exited? ==> StepsLeft(p', w) == StepsLeft(p, w) - 1)
  {
    var q := p.queues[w];
    RunWorkerKeepsInv(cfg, start, p, w);
    assert RingFine(cfg, start, p, w);
    assert RingFine(cfg, start, RunWorker(cfg, p, w), w);
    forall t: nat | t < |q.producers| ensures q.producers[t].Ready? { assert PairFine(p, t, w) && AcceptedFine(p, t); }
    if q.consumer.TakeCheck? { QuietCheck(q); }
    StepsOf(cfg, p, w);
  }

  lemma StepsOf<K, V, C>(cfg: Config<K, V, C>, p: Pool<K, V, C>, w: nat)
    requires PoolShape(p) && w < |p.queues| && QueueInv(p.queues[w]) && WorkerFine(p, w) && Stopping(p, w)
    requires PoolShape(RunWorker(cfg, p, w))
    requires var q := p.queues[w];
      q.consumer.TakeCheck? ==>
        && (ConsumerStep(q).consumer == Resting(None) <==> |q.taken| == |q.claims|)
        && (ConsumerStep(q).consumer.Resting? || ConsumerStep(q).consumer.TakeMove?)
    ensures StepsLeft(p, w) >= 0 && (p.workers[w].Exited? <==> StepsLeft(p, w) == 0)
    ensures !p.workers[w].Exited? ==> StepsLeft(RunWorker(cfg, p, w), w) == StepsLeft(p, w) - 1
  {}

  /** Nobody else's step changes what a stopped worker has left to do. */
  lemma OthersKeepStepsLeft<K, V, C>(cfg: Config<K, V, C>, start: seq<C>, p: Pool<K, V, C>, a: Action<K, V>, w: nat)
    requires PoolInv(cfg, start, p) && Enabled(cfg, p, a) && w < |p.queues| && Stopping(p, w)
    requires a != WorkerStep(w)
    ensures var p' := PoolStep(cfg, p, a);
      PoolInv(cfg, start, p') && |p'.queues| == |p.queues| && Stopping(p', w) && StepsLeft(p', w) == StepsLeft(p, w)
  {
    PoolStepKeepsInv(cfg, start, p, a);
    assert a.SubmitStep? ==> AcceptedFine(p, a.submitter);
  }

  /** k steps of worker w in a row. */
  ghost function WorkerSteps<K, V, C>(cfg: Config<K, V, C>, start: seq<C>, p: Pool<K, V, C>, w: nat, k: nat): (r: Pool<K, V, C>)
    requires PoolInv(cfg, start, p) && w < |p.queues| && Stopping(p, w)
    ensures PoolInv(cfg, start, r) && |r.queues| == |p.queues| && Stopping(r, w)
    decreases k
  {
    if k == 0 then p else
      StoppedWorkerProgress(cfg, start, p, w);
      WorkerSteps(cfg, start, RunWorker(cfg, p, w), w, k - 1)
  }

  /** A stopped worker leaves its loop after exactly the steps it has left, whatever is still queued. */
  lemma {:induction false} StoppedWorkerExits<K, V, C>(cfg: Config<K, V, C>, start: seq<C>, p: Pool<K, V, C>, w: nat, k: nat)
    requires PoolInv(cfg, start, p) && w < |p.queues| && Stopping(p, w)
    ensures WorkerSteps(cfg, start, p, w, k).workers[w].Exited? <==> k >= StepsLeft(p, w)
    decreases k
  {
    StoppedWorkerProgress(cfg, start, p, w);
    if k > 0 { StoppedWorkerExits(cfg, start, RunWorker(cfg, p, w), w, k - 1); }
  }

  /** How many of the actions from i to j are steps of worker w. */
  ghost function StepsTaken<K, V>(actions: seq<Action<K, V>>, w: nat, i: nat, j: nat): nat
    requires i <= j <= |actions|
    decreases j
  {
    if i == j then 0 else StepsTaken(actions, w, i, j - 1) + if actions[j - 1] == WorkerStep(w) then 1 else 0
  }

  lemma StoppingStep<K, V, C>(cfg: Config<K, V, C>, start: seq<C>, p: Pool<K, V, C>, a: Action<K, V>, w: nat)
    requires PoolInv(cfg, start, p) && Enabled(cfg, p, a) && w < |p.queues| && Stopping(p, w)
    ensures var p' := PoolStep(cfg, p, a);
      && PoolInv(cfg, start, p') && |p'.queues| == |p.queues| && Stopping(p', w) && StepsLeft(p, w) >= 0
      && StepsLeft(p', w) == (if a == WorkerStep(w) && StepsLeft(p, w) > 0 then StepsLeft(p, w) - 1 else StepsLeft(p, w))
  {
    StoppedWorkerProgress(cfg, start, p, w);
    if a != WorkerStep(w) { OthersKeepStepsLeft(cfg, start, p, a, w); }
    assert p.workers[w].Exited? ==> RunWorker(cfg, p, w) == p;
  }

  lemma NoneLeftIff<K, V, C>(cfg: Config<K, V, C>, start: seq<C>, p: Pool<K, V, C>, w: nat)
    requires PoolInv(cfg, start, p) && w < |p.queues| && Stopping(p, w)
    ensures StepsLeft(p, w) >= 0 && (p.workers[w].Exited? <==> StepsLeft(p, w) == 0)
  {
    StoppedWorkerProgress(cfg, start, p, w);
  }

  /**
   * The drain under every schedule: however the steps of all threads interleave from a moment at which worker
   * w has been asked to stop, w has left its loop exactly when it has taken the steps it had left then.
   */
  lemma {:induction false} DrainUnderEverySchedule<K, V, C>(cfg: Config<K, V, C>, capacity: nat, submitters: nat, start: seq<C>,
                                                            run: seq<Pool<K, V, C>>, actions: seq<Action<K, V>>, i: nat, j: nat, w: nat)
    requires IsPoolRun(cfg, capacity, submitters, start, run, actions) && i <= j < |run|
    requires PoolShape(run[i]) && w < |run[i].queues| && Stopping(run[i], w)
    ensures PoolShape(run[j]) && w < |run[j].queues| && Stopping(run[j], w)
    ensures var left, taken := StepsLeft(run[i], w), StepsTaken(actions, w, i, j);
      && StepsLeft(run[j], w) == (if taken < left then left - taken else 0)
      && (run[j].workers[w].Exited? <==> taken >= left)
    decreases j
  {
    hide *;
    RunShape(cfg, capacity, submitters, start, run, actions, j);
    if i < j {
      RunShape(cfg, capacity, submitters, start, run, actions, j - 1);
      DrainUnderEverySchedule(cfg, capacity, submitters, start, run, actions, i, j - 1, w);
      StoppingStep(cfg, start, run[j - 1], actions[j - 1], w);
      TakenStep(actions, w, i, j);
    } else {
      NoneTaken(actions, w, i);
    }
    NoneLeftIff(cfg, start, run[j], w);
  }

  lemma NoneTaken<K, V>(actions: seq<Action<K, V>>, w: nat, i: nat)
    requires i <= |actions|
    ensures StepsTaken(actions, w, i, i) == 0
  {}

  lemma TakenStep<K, V>(actions: seq<Action<K, V>>, w: nat, i: nat, j: nat)
    requires i < j <= |actions|
    ensures StepsTaken(actions, w, i, j) == StepsTaken(actions, w, i, j - 1) + if actions[j - 1] == WorkerStep(w) then 1 else 0
  {}

  /** What a step of a run may rely on. */
  lemma RunShape<K, V, C>(cfg: Config<K, V, C>, capacity: nat, submitters: nat, start: seq<C>,
                          run: seq<Pool<K, V, C>>, actions: seq<Action<K, V>>, i: nat)
    requires IsPoolRun(cfg, capacity, submitters, start, run, actions) && i < |run|
    ensures |run| == |actions| + 1 && PoolInv(cfg, start, run[i]) && PoolShape(run[i]) && |run[i].queues| == |start|
    ensures i < |actions| ==> Enabled(cfg, run[i], actions[i]) && run[i + 1] == PoolStep(cfg, run[i], actions[i])
  {
    PoolRunKeepsInv(cfg, capacity, submitters, start, run, actions, i);
  }

  /** Once a worker has been asked to stop it stays asked. */
  lemma {:induction false} StopRequestStays<K, V, C>(cfg: Config<K, V, C>, capacity: nat, submitters: nat, start: seq<C>,
                                                     run: seq<Pool<K, V, C>>, actions: seq<Action<K, V>>, i: nat, j: nat, w: nat)
    requires IsPoolRun(cfg, capacity, submitters, start, run, actions) && i < j < |run| && actions[i] == RequestStop(w)
    ensures PoolShape(run[j]) && w < |run[j].queues| && Stopping(run[j], w)
    decreases j
  {
    hide *;
    RunShape(cfg, capacity, submitters, start, run, actions, j - 1);
    RunShape(cfg, capacity, submitters, start, run, actions, j);
    if i < j - 1 {
      StopRequestStays(cfg, capacity, submitters, start, run, actions, i, j - 1, w);
      StoppingStep(cfg, start, run[j - 1], actions[j - 1], w);
    } else {
      StopRequestTaken(cfg, start, run[i], w);
    }
  }

  /** From a stop on, the workers may be asked to stop at any time, and nothing more is submitted. */
  lemma {:induction false} StopIsFinal<K, V, C>(cfg: Config<K, V, C>, capacity: nat, submitters: nat, start: seq<C>,
                                                run: seq<Pool<K, V, C>>, actions: seq<Action<K, V>>, i: nat, j: nat)
    requires IsPoolRun(cfg, capacity, submitters, start, run, actions) && i < j < |run| && actions[i] == Stop
    ensures PoolShape(run[j]) && |run[j].calls| == submitters && |run[j].queues| == |start|
    ensures forall t: nat | t < submitters :: run[j].calls[t] == None
    ensures forall w: nat | w < |start| :: Enabled(cfg, run[j], RequestStop(w))
    ensures forall t: nat, mode, key, task :: !Enabled(cfg, run[j], Submit(t, mode, key, task))
    decreases j
  {
    RunShape(cfg, capacity, submitters, start, run, actions, j);
    PoolRunKeepsInv(cfg, capacity, submitters, start, run, actions, j);
    StopStays(cfg, capacity, submitters, start, run, actions, i, j);
    forall t: nat | t < submitters ensures run[j].calls[t] == None { assert AcceptedFine(run[j], t); }
  }

  lemma {:induction false} StopStays<K, V, C>(cfg: Config<K, V, C>, capacity: nat, submitters: nat, start: seq<C>,
                                              run: seq<Pool<K, V, C>>, actions: seq<Action<K, V>>, i: nat, j: nat)
    requires IsPoolRun(cfg, capacity, submitters, start, run, actions) && i < j < |run| && actions[i] == Stop
    ensures run[j].stopping
    decreases j
  {
    hide *;
    RunShape(cfg, capacity, submitters, start, run, actions, j - 1);
    StoppingAfter(cfg, run[j - 1], actions[j - 1]);
    if i < j - 1 { StopStays(cfg, capacity, submitters, start, run, actions, i, j - 1); }
  }

  lemma StoppingAfter<K, V, C>(cfg: Config<K, V, C>, p: Pool<K, V, C>, a: Action<K, V>)
    requires PoolShape(p) && Enabled(cfg, p, a)
    ensures PoolStep(cfg, p, a).stopping <==> p.stopping || a == Stop
  {}

  lemma StopRequestTaken<K, V, C>(cfg: Config<K, V, C>, start: seq<C>, p: Pool<K, V, C>, w: nat)
    requires PoolInv(cfg, start, p) && Enabled(cfg, p, RequestStop(w))
    ensures var p' := PoolStep(cfg, p, RequestStop(w)); PoolShape(p') && w < |p'.queues| && Stopping(p', w)
  {}

  // ---------------------------------------------------------------- what becomes of a submission

  /** A new submission enters under its own key, bound for the worker its mode reaches. */
  lemma SubmitStarts<K, V, C>(cfg: Config<K, V, C>, p: Pool<K, V, C>, a: Action<K, V>, t: nat)
    requires PoolShape(p) && Enabled(cfg, p, a) && t < |p.calls|
    requires p.calls[t] == None && PoolShape(PoolStep(cfg, p, a)) && |PoolStep(cfg, p, a).calls| == |p.calls|
    ensures var call := PoolStep(cfg, p, a).calls[t];
      call.Some? ==>
        && a.Submit? && a.submitter == t
        && call.value == Item(t, Target(cfg, |p.queues|, p.roundRobin, a.mode, a.key), a.key, a.task)
  {}

  lemma OwnSubmissionStep<K, V, C>(cfg: Config<K, V, C>, start: seq<C>, p: Pool<K, V, C>, t: nat, spurious: bool)
    requires PoolInv(cfg, start, p) && t < |p.calls| && p.calls[t].Some?
    ensures var p', item := RunSubmit(p, t, spurious), p.calls[t].value;
      var q := p.queues[item.worker];
      var pc := q.producers[t];
      && |p'.calls| == |p.calls| == |p'.accepted|
      && (pc.PushPublish? ==> p'.calls[t] == None && p'.accepted[t] == p.accepted[t] + [item])
      && (OfferBlocked(q, pc) ==> p'.calls[t] == None && p'.accepted[t] == p.accepted[t])
      && (!pc.PushPublish? && !OfferBlocked(q, pc) ==> p'.calls[t] == p.calls[t] && p'.accepted[t] == p.accepted[t])
  {
    var item := p.calls[t].value;
    var c: Choice<Item<K, V>> := if spurious then SpuriousFail else Proceed;
    assert RingFine(cfg, start, p, item.worker) && PairFine(p, t, item.worker);
    var q := p.queues[item.worker];
    assert QueueInv(q) && Carries(q.producers[t], item);
    hide PoolInv;
    hide QueueInv;
    hide RingFine;
    hide PairFine;
    OfferStep(q, t, c, item);
    hide ProducerStep;
  }

  /** A submission under way goes on, or ends accepted by its publishing store, or ends refused by a full ring. */
  lemma SubmissionStep<K, V, C>(cfg: Config<K, V, C>, start: seq<C>, p: Pool<K, V, C>, a: Action<K, V>, t: nat)
    requires PoolInv(cfg, start, p) && Enabled(cfg, p, a) && t < |p.calls| && p.calls[t].Some?
    ensures var p', item := PoolStep(cfg, p, a), p.calls[t].value;
      var q := p.queues[item.worker];
      var pc := q.producers[t];
      && |p'.calls| == |p.calls| == |p'.accepted|
      && (p'.calls[t] == p.calls[t] || p'.calls[t] == None)
      && (p'.calls[t] == p.calls[t] ==> p'.accepted[t] == p.accepted[t])
      && (p'.calls[t] == None ==> a.SubmitStep? && a.submitter == t)
      && (p'.calls[t] == None && p'.accepted[t] == p.accepted[t] + [item] <==> a.SubmitStep? && a.submitter == t && pc.PushPublish?)
      && (p'.calls[t] == None && p'.accepted[t] == p.accepted[t] <==> a.SubmitStep? && a.submitter == t && OfferBlocked(q, pc))
      && (p'.calls[t] == None ==> p'.accepted[t] == p.accepted[t] + [item] || p'.accepted[t] == p.accepted[t])
  {
    if a.SubmitStep? && a.submitter == t {
      OwnSubmissionStep(cfg, start, p, t, a.spurious);
    } else {
      hide QueueInv;
      hide ProducerStep;
      hide ConsumerStep;
    }
  }

  /** A submission under way has been since the call that began it. */
  lemma {:induction false} SubmissionBegan<K, V, C>(cfg: Config<K, V, C>, capacity: nat, submitters: nat, start: seq<C>,
                                                    run: seq<Pool<K, V, C>>, actions: seq<Action<K, V>>, i: nat, t: nat) returns (a: nat)
    requires IsPoolRun(cfg, capacity, submitters, start, run, actions) && i < |run| && t < |run[i].calls| && run[i].calls[t].Some?
    ensures a < i && actions[a].Submit? && actions[a].submitter == t && |run[a].queues| == |start|
    ensures GroupsFit(cfg.groups, |start|) && ModeFits(cfg, |start|, actions[a].mode)
    ensures run[i].calls[t].value ==
      Item(t, Target(cfg, |start|, run[a].roundRobin, actions[a].mode, actions[a].key), actions[a].key, actions[a].task)
    ensures forall m: nat | a < m <= i :: t < |run[m].calls| && run[m].calls[t] == run[i].calls[t]
    decreases i
  {
    if i > 0 {
      PoolRunKeepsInv(cfg, capacity, submitters, start, run, actions, i - 1);
      PoolRunKeepsInv(cfg, capacity, submitters, start, run, actions, i);
      hide PoolStep;
      var p := run[i - 1];
      if p.calls[t].Some? {
        SubmissionStep(cfg, start, p, actions[i - 1], t);
        a := SubmissionBegan(cfg, capacity, submitters, start, run, actions, i - 1, t);
      } else {
        SubmitStarts(cfg, p, actions[i - 1], t);
        a := i - 1;
      }
    }
  }

  /**
   * In every run, a submission that ends was begun by a submit of that task and key, bound for the worker
   * its mode reaches. It ends either accepted, by its publishing store, or refused, at a moment when that
   * worker's ring holds N claimed elements; nothing else makes it come back, and nothing is accepted otherwise.
   */
  lemma EverySubmissionIsAnswered<K, V, C>(cfg: Config<K, V, C>, capacity: nat, submitters: nat, start: seq<C>,
                                           run: seq<Pool<K, V, C>>, actions: seq<Action<K, V>>, i: nat, t: nat) returns (a: nat)
    requires IsPoolRun(cfg, capacity, submitters, start, run, actions) && i < |actions| && t < submitters
    requires |run[i].calls| == submitters == |run[i + 1].calls| && run[i].calls[t].Some? && run[i + 1].calls[t].None?
    ensures a < i && actions[a].Submit? && actions[a].submitter == t && GroupsFit(cfg.groups, |start|) && ModeFits(cfg, |start|, actions[a].mode)
    ensures PoolShape(run[i]) && PoolShape(run[i + 1]) && run[i].calls[t].value ==
      Item(t, Target(cfg, |start|, run[a].roundRobin, actions[a].mode, actions[a].key), actions[a].key, actions[a].task)
    ensures forall m: nat | a < m <= i :: t < |run[m].calls| && run[m].calls[t] == run[i].calls[t]
    ensures var item := run[i].calls[t].value;
      var q := run[i].queues[item.worker];
      || (q.producers[t].PushPublish? && run[i + 1].accepted[t] == run[i].accepted[t] + [item])
      || (OfferBlocked(q, q.producers[t]) && run[i + 1].accepted[t] == run[i].accepted[t])
  {
    PoolRunKeepsInv(cfg, capacity, submitters, start, run, actions, i);
    PoolRunKeepsInv(cfg, capacity, submitters, start, run, actions, i + 1);
    a := SubmissionBegan(cfg, capacity, submitters, start, run, actions, i, t);
    SubmissionStep(cfg, start, run[i], actions[i], t);
  }

  lemma CapacityStep<K, V, C>(cfg: Config<K, V, C>, start: seq<C>, p: Pool<K, V, C>, a: Action<K, V>, w: nat)
    requires PoolInv(cfg, start, p) && Enabled(cfg, p, a) && w < |p.queues|
    ensures var p' := PoolStep(cfg, p, a); |p'.queues| == |p.queues| && |p'.queues[w].slots| == |p.queues[w].slots|
  {}

  /** The rings keep the size they were made with. */
  lemma {:induction false} CapacityStays<K, V, C>(cfg: Config<K, V, C>, capacity: nat, submitters: nat, start: seq<C>,
                                                  run: seq<Pool<K, V, C>>, actions: seq<Action<K, V>>, i: nat, w: nat)
    requires IsPoolRun(cfg, capacity, submitters, start, run, actions) && i < |run| && w < |start|
    ensures |run[i].queues| == |start| && |run[i].queues[w].slots| == capacity
  {
    RunShape(cfg, capacity, submitters, start, run, actions, i);
    if i > 0 {
      RunShape(cfg, capacity, submitters, start, run, actions, i - 1);
      hide *;
      CapacityStays(cfg, capacity, submitters, start, run, actions, i - 1, w);
      CapacityStep(cfg, start, run[i - 1], actions[i - 1], w);
    }
  }

  // ---------------------------------------------------------------- turns

  /** How many submissions left the choice of worker to the pool. */
  ghost function Turns<K, V>(actions: seq<Action<K, V>>): nat {
    if actions == [] then 0
    else
      var last := actions[|actions| - 1];
      Turns(actions[..|actions| - 1]) + if last.Submit? && last.mode.Any? then 1 else 0
  }

  lemma TurnTaken<K, V, C>(cfg: Config<K, V, C>, p: Pool<K, V, C>, a: Action<K, V>)
    requires PoolShape(p) && Enabled(cfg, p, a)
    ensures PoolStep(cfg, p, a).roundRobin == p.roundRobin + if a.Submit? && a.mode.Any? then 1 else 0
  {}

  lemma {:induction false} RoundRobinCountsTurns<K, V, C>(cfg: Config<K, V, C>, capacity: nat, submitters: nat, start: seq<C>,
                                                          run: seq<Pool<K, V, C>>, actions: seq<Action<K, V>>, i: nat)
    requires IsPoolRun(cfg, capacity, submitters, start, run, actions) && i < |run|
    ensures run[i].roundRobin == Turns(actions[..i])
  {
    if i > 0 {
      RoundRobinCountsTurns(cfg, capacity, submitters, start, run, actions, i - 1);
      assert actions[..i][..i - 1] == actions[..i - 1];
      TurnTaken(cfg, run[i - 1], actions[i - 1]);
      hide PoolStep;
      hide PoolShape;
    }
  }

  /**
   * Round robin: of any N consecutive submissions without a worker of their own, no two reach the same of
   * the N workers.
   */
  lemma TurnsGoRound<K, V, C>(cfg: Config<K, V, C>, capacity: nat, submitters: nat, start: seq<C>,
                              run: seq<Pool<K, V, C>>, actions: seq<Action<K, V>>, i: nat, j: nat)
    requires IsPoolRun(cfg, capacity, submitters, start, run, actions) && i < |actions| && j < |actions|
    requires actions[i].Submit? && actions[i].mode.Any? && actions[j].Submit? && actions[j].mode.Any?
    requires Turns(actions[..i]) < Turns(actions[..j]) < Turns(actions[..i]) + |start|
    ensures GroupsFit(cfg.groups, |start|)
    ensures Target(cfg, |start|, run[i].roundRobin, Any, actions[i].key) != Target(cfg, |start|, run[j].roundRobin, Any, actions[j].key)
  {
    PoolRunKeepsInv(cfg, capacity, submitters, start, run, actions, i);
    RoundRobinCountsTurns(cfg, capacity, submitters, start, run, actions, i);
    RoundRobinCountsTurns(cfg, capacity, submitters, start, run, actions, j);
    DifferentLeftovers(run[i].roundRobin, run[j].roundRobin, |start|);
  }

  lemma DifferentLeftovers(x: nat, y: nat, n: nat)
    requires n > 0 && x < y < x + n
    ensures x % n != y % n
  {
    var qx, qy := x / n, y / n;
    assert x == n * qx + x % n && y == n * qy + y % n;
    if x % n == y % n {
      Bits.ModUnique(y - x, n, 0, y - x);
      Bits.ModUnique(y - x, n, qy - qx, 0);
    }
  }

  // ---------------------------------------------------------------- a running worker serves its ring

  /** Worker w has an element in hand, or the oldest one in its ring is published. */
  ghost predicate HasWork<K, V, C>(p: Pool<K, V, C>, w: nat)
    requires PoolShape(p) && w < |p.queues|
  {
    var q := p.queues[w];
    match p.workers[w]
    case Exited => false
    case Handling(_, _) => true
    case Testing(_) => q.tail < q.head && !PushInFlight(q, q.tail)
    case TryingPop(_) => InHand(q.consumer) != [] || q.consumer.TakeMove? || (q.tail < q.head && !PushInFlight(q, q.tail))
  }

  /** Steps of its own until worker w has handled its next element. */
  ghost function ServiceLeft<K, V, C>(p: Pool<K, V, C>, w: nat): nat
    requires PoolShape(p) && w < |p.queues|
  {
    match p.workers[w]
    case Exited => 0
    case Handling(_, _) => 1
    case Testing(_) => 8
    case TryingPop(_) =>
      match p.queues[w].consumer
      case TakeLoad => 7
      case TakeCheck(_) => 6
      case TakeMove(_) => 5
      case TakeDestroy(_, _) => 4
      case TakeRelease(_, _) => 3
      case TakeAdvance(_, _) => 2
      case Resting(_) => 0
  }

  /**
   * Running or draining, a worker with work is never more than eight steps of its own from having handled the
   * next element of its ring, in claim order; each of its steps brings it one closer.
   */
  lemma WorkerServes<K, V, C>(cfg: Config<K, V, C>, start: seq<C>, p: Pool<K, V, C>, w: nat)
    requires PoolInv(cfg, start, p) && w < |p.queues| && HasWork(p, w)
    ensures var p', n := RunWorker(cfg, p, w), |p.handled[w]|;
      && PoolInv(cfg, start, p') && |p'.queues| == |p.queues| && 1 <= ServiceLeft(p, w) <= 8
      && n < |p.queues[w].claims|
      && (if ServiceLeft(p, w) == 1
          then p'.handled[w] == p.handled[w] + [p.queues[w].claims[n]]
          else p'.handled[w] == p.handled[w] && HasWork(p', w) && ServiceLeft(p', w) == ServiceLeft(p, w) - 1)
  {
    hide Filter;
    hide Fold;
    RunWorkerKeepsInv(cfg, start, p, w);
    var q := p.queues[w];
    assert RingFine(cfg, start, p, w);
    assert QueueInv(q) && WorkerFine(p, w);
    hide RingFine;
    hide PairFine;
    if !q.consumer.Resting? { TakeStep(q); }
  }

  /** All submissions of key k used one stable dispatch mode. */
  ghost predicate SubmitsKeyBy<K, V>(actions: seq<Action<K, V>>, k: K, mode: Mode) {
    forall i | 0 <= i < |actions| :: actions[i].Submit? && actions[i].key == k ==> actions[i].mode == mode
  }

  ghost predicate KeyAt<K, V, C>(p: Pool<K, V, C>, k: K, w: nat) {
    && (forall t, x | 0 <= t < |p.accepted| && x in p.accepted[t] :: x.key == k ==> x.worker == w)
    && (forall t | 0 <= t < |p.calls| && p.calls[t].Some? :: p.calls[t].value.key == k ==> p.calls[t].value.worker == w)
  }

  /** With one stable mode, every submission of a key goes to one worker. */
  lemma {:induction false} KeyIsSticky<K, V, C>(cfg: Config<K, V, C>, capacity: nat, submitters: nat, start: seq<C>,
                                                run: seq<Pool<K, V, C>>, actions: seq<Action<K, V>>, k: K, mode: Mode, i: nat)
    requires IsPoolRun(cfg, capacity, submitters, start, run, actions) && i < |run|
    requires !mode.Any? && GroupsFit(cfg.groups, |start|) && ModeFits(cfg, |start|, mode) && SubmitsKeyBy(actions, k, mode)
    ensures KeyAt(run[i], k, Target(cfg, |start|, 0, mode, k))
  {
    if i > 0 {
      KeyIsSticky(cfg, capacity, submitters, start, run, actions, k, mode, i - 1);
      PoolRunKeepsInv(cfg, capacity, submitters, start, run, actions, i - 1);
      StickyStep(cfg, start, run[i - 1], actions[i - 1], k, mode);
    }
  }

  lemma StickyStep<K, V, C>(cfg: Config<K, V, C>, start: seq<C>, p: Pool<K, V, C>, a: Action<K, V>, k: K, mode: Mode)
    requires PoolInv(cfg, start, p) && Enabled(cfg, p, a) && (a.Submit? && a.key == k ==> a.mode == mode)
    requires !mode.Any? && GroupsFit(cfg.groups, |start|) && ModeFits(cfg, |start|, mode)
    requires KeyAt(p, k, Target(cfg, |start|, 0, mode, k))
    ensures KeyAt(PoolStep(cfg, p, a), k, Target(cfg, |start|, 0, mode, k))
  {}

  ghost function HasKey<K, V>(k: K): Item<K, V> -> bool { (x: Item<K, V>) => x.key == k }

  /**
   * After the drain, a key submitted by one stable mode was handled by its one worker alone: per
   * submitter, exactly the accepted submissions of that key, in submission order.
   */
  lemma KeyHandledInSubmissionOrder<K, V, C>(cfg: Config<K, V, C>, start: seq<C>, p: Pool<K, V, C>, k: K, home: nat, t: nat, w: nat)
    requires PoolInv(cfg, start, p) && AllExited(p) && KeyAt(p, k, home) && t < |p.calls| && w < |p.queues|
    ensures Filter(Filter(p.handled[w], By(t)), HasKey(k)) == if w == home then Filter(p.accepted[t], HasKey(k)) else []
  {
    DrainHandlesExactlyAccepted(cfg, start, p, t, w);
    var all, hasKey, to := p.accepted[t], HasKey<K, V>(k), To<K, V>(w);
    FilterCommutes(all, to, hasKey);
    FilterMembers(all, hasKey);
    forall x | x in Filter(all, hasKey) ensures to(x) <==> w == home {
      assert x in all && hasKey(x);
    }
    if w == home {
      FilterAll(Filter(all, hasKey), to);
    } else {
      FilterNone(Filter(all, hasKey), to);
    }
  }

  /** Each worker's context is its handler folded over the tasks it handled, in order. */
  lemma ContextIsFold<K, V, C>(cfg: Config<K, V, C>, capacity: nat, submitters: nat, start: seq<C>,
                               run: seq<Pool<K, V, C>>, actions: seq<Action<K, V>>, i: nat, w: nat)
    requires IsPoolRun(cfg, capacity, submitters, start, run, actions) && i < |run| && w < |start|
    ensures PoolShape(run[i]) && |run[i].queues| == |start|
    ensures run[i].contexts[w] == Fold(cfg.handler, start[w], TaskOf(run[i].handled[w]))
  {
    PoolRunKeepsInv(cfg, capacity, submitters, start, run, actions, i);
    assert RingFine(cfg, start, run[i], w);
  }
}
