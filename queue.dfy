/**
 * The forwarding queue (app/queue.py): a FIFO of links with their targets,
 * one worker that takes links off it, and the per-link processing the worker
 * does: fetch the message, join the channel when it is not accessible,
 * skip what the deduplication store has seen, forward to every target under
 * the rate limit, and record what was forwarded.
 *
 * The client's answers (the fetch replies, the join outcomes, whether each
 * forward succeeded), the clock readings and the storage faults are given
 * as a `Network` value. Times of the rate limiter are reals in seconds; the
 * store's timestamps are whole seconds.
 */
module Forwarding {
  import opened Wrappers
  import opened Messages
  import Dedup
  import Subscriptions

  /** A queued link and the targets it goes to (the client is left implicit). */
  datatype Item = Item(link: string, targets: seq<string>)

  /** One call of `forward_messages`: target, message identity, outcome, time it was made. */
  datatype Attempt = Attempt(target: string, identity: string, delivered: bool, at: real)

  /** What the outside world answers while one item is processed. */
  datatype Network = Network(
    fetched: FetchReply,                  // the first fetch of the link
    resolved: Option<int>,                // channel_id of the resolved peer, for ensure_membership
    join: Subscriptions.JoinReply,        // the join request
    retry: Subscriptions.JoinReply,       // the join request retried after an eviction
    refetched: FetchReply,                // the fetch after a successful join
    readFault: bool,                      // is_duplicate hits a storage error
    identityWriteFault: bool,             // add_message(identity) hits a storage error
    linkWriteFault: bool,                 // add_message(link) hits a storage error
    delivered: nat -> bool,               // whether the forward to the i-th target succeeds
    clock: nat -> real,                   // datetime.now() at the i-th rate-limit wait
    stamp: int)                           // CURRENT_TIMESTAMP for rows written meanwhile

  /** What processing one item came to. */
  datatype ItemReport =
    | Raised                                                  // an exception reached the worker's handler
    | AwaitingApproval                                        // a join is pending; a requeue is scheduled
    | Unavailable                                             // no message to forward
    | Duplicate(identity: string)                             // the store has seen the message
    | Forwarded(identity: string, success: bool, left: bool)  // the targets were tried

  /** The state one item's processing reads and changes. */
  datatype World = World(
    dedup: Option<Dedup.Table>,
    pending: Subscriptions.Table,
    lastSend: Option<real>,
    attempts: seq<Attempt>,
    scheduled: seq<Item>)

  /** The queue's settings, after clamping, and the store's hash. */
  datatype Config = Config(minInterval: real, delay: real, hash: string -> string)

  // ---------------------------------------------------------------------
  // Constructor clamping
  // ---------------------------------------------------------------------

  /** `max(delay_seconds, 0.0)`. */
  function ClampDelay(d: real): (r: real)
    ensures r >= 0.0 && r >= d
    ensures d >= 0.0 ==> r == d
  {
    if d > 0.0 then d else 0.0
  }

  /** `1.0 / max_messages_per_second if max_messages_per_second else 0.0`. */
  function MinInterval(mps: Option<real>): (r: real)
    ensures mps.None? || mps.value == 0.0 ==> r == 0.0
    ensures mps.Some? && mps.value != 0.0 ==> r * mps.value == 1.0
    ensures mps.Some? && mps.value > 0.0 ==> r > 0.0
  {
    match mps
    case None => 0.0
    case Some(m) => if m != 0.0 then 1.0 / m else 0.0
  }

  /** `asyncio.Queue(maxsize=maxsize) if maxsize else asyncio.Queue()`: a bound only when positive. */
  function Capacity(maxsize: Option<int>): (r: Option<nat>)
    ensures r.Some? <==> maxsize.Some? && maxsize.value > 0
    ensures r.Some? ==> r.value == maxsize.value
  {
    match maxsize
    case Some(n) => if n > 0 then Some(n) else None
    case None => None
  }

  /** `max(pending_retry_seconds, 5.0)`. */
  function ClampRetry(p: real): (r: real)
    ensures r >= 5.0 && r >= p
    ensures p >= 5.0 ==> r == p
  {
    if p > 5.0 then p else 5.0
  }

  // ---------------------------------------------------------------------
  // The rate limit
  // ---------------------------------------------------------------------

  /** The interval wait: `max(0, min_interval - elapsed)`, none before the first send. */
  function IntervalWait(last: Option<real>, minInterval: real, now: real): (w: real)
    ensures w >= 0.0
    ensures last.None? ==> w == 0.0
    ensures last.Some? ==> w >= minInterval - (now - last.value)
    ensures last.Some? && now - last.value >= minInterval ==> w == 0.0
    ensures last.Some? && now - last.value < minInterval ==> w == minInterval - (now - last.value)
  {
    match last
    case None => 0.0
    case Some(t) => if minInterval - (now - t) > 0.0 then minInterval - (now - t) else 0.0
  }

  /** The time a send happens: after the interval wait and the fixed delay. */
  function NextSend(last: Option<real>, cfg: Config, now: real): real {
    now + IntervalWait(last, cfg.minInterval, now) + cfg.delay
  }

  /** Consecutive sends are at least the minimum interval plus the delay apart. */
  lemma SendSpacing(last: real, cfg: Config, now: real)
    ensures NextSend(Some(last), cfg, now) >= last + cfg.minInterval + cfg.delay
  {
  }

  /** A send never happens before the clock reading plus the fixed delay. */
  lemma SendNotEarly(last: Option<real>, cfg: Config, now: real)
    ensures NextSend(last, cfg, now) >= now + cfg.delay
  {
  }

  // ---------------------------------------------------------------------
  // One item, as a function of the world and the network
  // ---------------------------------------------------------------------

  /** The forwards to the first `n` targets and the last send time after them. */
  function Sends(targets: seq<string>, identity: string, last: Option<real>, cfg: Config, env: Network, n: nat)
    : (r: (seq<Attempt>, Option<real>))
    requires n <= |targets|
    ensures |r.0| == n
    ensures n == 0 ==> r.1 == last
    ensures n > 0 ==> r.1 == Some(r.0[n - 1].at)
    decreases n
  {
    if n == 0 then ([], last)
    else
      var prev := Sends(targets, identity, last, cfg, env, n - 1);
      var at := NextSend(prev.1, cfg, env.clock(n - 1));
      (prev.0 + [Attempt(targets[n - 1], identity, env.delivered(n - 1), at)], Some(at))
  }

  /** Some target among the first `n` took the message. */
  predicate AnyDelivered(env: Network, n: nat) {
    exists j :: 0 <= j < n && env.delivered(j)
  }

  /** The `j`-th send goes to the `j`-th target, with the message's identity and that target's outcome. */
  lemma {:induction false} SendsRecords(targets: seq<string>, identity: string, last: Option<real>, cfg: Config, env: Network, n: nat)
    requires n <= |targets|
    ensures var log := Sends(targets, identity, last, cfg, env, n).0;
      forall j :: 0 <= j < n ==>
        log[j].target == targets[j] && log[j].identity == identity && log[j].delivered == env.delivered(j)
    decreases n
  {
    if n > 0 {
      SendsRecords(targets, identity, last, cfg, env, n - 1);
      var prev := Sends(targets, identity, last, cfg, env, n - 1).0;
      assert Sends(targets, identity, last, cfg, env, n).0[..n - 1] == prev;
    }
  }

  /** One more target: one more send, and the delivery flag of that target joins the others. */
  lemma SendsStep(targets: seq<string>, identity: string, last: Option<real>, cfg: Config, env: Network, i: nat)
    requires i < |targets|
    ensures var prev := Sends(targets, identity, last, cfg, env, i);
      var at := NextSend(prev.1, cfg, env.clock(i));
      Sends(targets, identity, last, cfg, env, i + 1) == (prev.0 + [Attempt(targets[i], identity, env.delivered(i), at)], Some(at))
    ensures AnyDelivered(env, i + 1) <==> AnyDelivered(env, i) || env.delivered(i)
  {
    if env.delivered(i) {
      assert 0 <= i < i + 1 && env.delivered(i);
    }
  }

  /** `add_message(identity)` then `add_message(link)`, each skipped by its own write fault. */
  function Record(t: Dedup.Table, identity: string, link: string, cfg: Config, env: Network): (r: Dedup.Table)
    ensures !env.identityWriteFault ==> cfg.hash(identity) in r
    ensures !env.linkWriteFault ==> cfg.hash(link) in r
    ensures r.Keys == t.Keys + (if env.identityWriteFault then {} else {cfg.hash(identity)})
                            + (if env.linkWriteFault then {} else {cfg.hash(link)})
    ensures forall k :: k in t ==> r[k] == t[k]
    ensures forall k :: k in r && k !in t ==> r[k] == env.stamp
  {
    var t1 := if env.identityWriteFault then t else Dedup.Insert(t, cfg.hash(identity), env.stamp);
    if env.linkWriteFault then t1 else Dedup.Insert(t1, cfg.hash(link), env.stamp)
  }

  /** From the fetched message on: the duplicate check, the forwards, recording and leaving. */
  function Deliver(item: Item, message: Message, leaveAfter: bool, w: World, cfg: Config, env: Network)
    : (ItemReport, World)
  {
    var identity := MessageIdentityString(message);
    if w.dedup.Some? && !env.readFault && cfg.hash(identity) in w.dedup.value then (Duplicate(identity), w)
    else
      var sent := Sends(item.targets, identity, w.lastSend, cfg, env, |item.targets|);
      var success := AnyDelivered(env, |item.targets|);
      var dedup := if success && w.dedup.Some? then Some(Record(w.dedup.value, identity, item.link, cfg, env)) else w.dedup;
      var left := success && leaveAfter;
      var pending := if left then Subscriptions.AfterLeave(w.pending, message) else w.pending;
      (Forwarded(identity, success, left), World(dedup, pending, sent.1, w.attempts + sent.0, w.scheduled))
  }

  /**
   * The body of the worker loop for one dequeued item, given what the first
   * fetch of its link returns and what the fetch after a join would return.
   */
  ghost function ProcessWith(item: Item, first: FetchResult, second: FetchResult, w: World, cfg: Config, env: Network)
    : (ItemReport, World)
  {
    match first
    case RaisedValueError => (Raised, w)
    case Returned(o) =>
      if o.message.Some? then Deliver(item, o.message.value, o.leaveAfter, w, cfg, env)
      else if o.pendingPeer.None? then (Unavailable, w)
      else
        var m := Subscriptions.EnsureMembershipSpec(
          w.pending, o.pendingPeer.value, o.messageId.GetOr(0), item.link,
          env.resolved, env.join, env.retry, env.stamp);
        AfterMembership(item, m.attempt, second, w.(pending := m.table), cfg, env)
  }

  /** After `ensure_membership`: refetch when joined, requeue when pending, else give up. */
  function AfterMembership(item: Item, attempt: Subscriptions.JoinAttempt, second: FetchResult, w: World, cfg: Config, env: Network)
    : (ItemReport, World)
  {
    if attempt.joined then
      match second
      case RaisedValueError => (Raised, w)
      case Returned(o) =>
        if o.message.Some? then Deliver(item, o.message.value, true, w, cfg, env)
        else (Unavailable, w)
    else if attempt.pending then (AwaitingApproval, w.(scheduled := w.scheduled + [item]))
    else (Unavailable, w)
  }

  /** The body of the worker loop for one dequeued item. */
  ghost function Process(item: Item, w: World, cfg: Config, env: Network): (ItemReport, World) {
    ProcessWith(item, FetchMessageByLink(item.link, env.fetched), FetchMessageByLink(item.link, env.refetched), w, cfg, env)
  }

  // ---------------------------------------------------------------------
  // Properties of one item
  // ---------------------------------------------------------------------

  /** Whether the first fetch, or the refetch after a join, produced a message. */
  ghost predicate ReachedWith(item: Item, first: FetchResult, second: FetchResult, w: World, env: Network) {
    first.Returned? &&
    (first.outcome.message.Some? ||
      (first.outcome.pendingPeer.Some? &&
        Subscriptions.EnsureMembershipSpec(
          w.pending, first.outcome.pendingPeer.value, first.outcome.messageId.GetOr(0), item.link,
          env.resolved, env.join, env.retry, env.stamp).attempt.joined &&
        second.Returned? && second.outcome.message.Some?))
  }

  /**
   * Only a run that reached a message forwards or skips it, and only the
   * forwarding stage touches the send log, the store and the send time.
   */
  lemma ReportShape(item: Item, first: FetchResult, second: FetchResult, w: World, cfg: Config, env: Network)
    ensures var (report, w') := ProcessWith(item, first, second, w, cfg, env);
      && (report.Duplicate? || report.Forwarded? <==> ReachedWith(item, first, second, w, env))
      && (!report.Forwarded? ==> w'.attempts == w.attempts && w'.dedup == w.dedup && w'.lastSend == w.lastSend)
      && (!report.AwaitingApproval? ==> w'.scheduled == w.scheduled)
  {
  }

  /** A message the store already holds is forwarded to no target and changes nothing. */
  lemma DuplicateSkipped(item: Item, message: Message, leaveAfter: bool, w: World, cfg: Config, env: Network)
    requires w.dedup.Some? && !env.readFault
    requires cfg.hash(MessageIdentityString(message)) in w.dedup.value
    ensures Deliver(item, message, leaveAfter, w, cfg, env) == (Duplicate(MessageIdentityString(message)), w)
  {
  }

  /** Without a store nothing is skipped as a duplicate and nothing is recorded. */
  lemma NoStoreNoSkip(item: Item, first: FetchResult, second: FetchResult, w: World, cfg: Config, env: Network)
    requires w.dedup.None?
    ensures var (report, w') := ProcessWith(item, first, second, w, cfg, env);
      !report.Duplicate? && w'.dedup.None?
  {
  }

  /**
   * A forwarding run's log: every target tried, in order, after what was
   * logged before; the run succeeds exactly when one target took the message.
   */
  ghost predicate TriedAll(item: Item, report: ItemReport, before: seq<Attempt>, after: seq<Attempt>, env: Network)
    requires report.Forwarded?
  {
    && |after| == |before| + |item.targets|
    && after[..|before|] == before
    && (forall j :: 0 <= j < |item.targets| ==>
          after[|before| + j].target == item.targets[j]
          && after[|before| + j].identity == report.identity
          && after[|before| + j].delivered == env.delivered(j))
    && (report.success <==> exists j :: 0 <= j < |item.targets| && env.delivered(j))
  }

  /** The forwarding stage tries every target, whatever happened to the earlier ones. */
  lemma DeliverAttemptsAll(item: Item, message: Message, leaveAfter: bool, w: World, cfg: Config, env: Network)
    ensures var (report, w') := Deliver(item, message, leaveAfter, w, cfg, env);
      report.Forwarded? ==> TriedAll(item, report, w.attempts, w'.attempts, env)
  {
    var (report, w') := Deliver(item, message, leaveAfter, w, cfg, env);
    if report.Forwarded? {
      var sent := Sends(item.targets, report.identity, w.lastSend, cfg, env, |item.targets|);
      assert w'.attempts == w.attempts + sent.0;
      SendsRecords(item.targets, report.identity, w.lastSend, cfg, env, |item.targets|);
      LogTried(item, report, w.attempts, sent.0, env);
    }
  }

  lemma LogTried(item: Item, report: ItemReport, before: seq<Attempt>, sent: seq<Attempt>, env: Network)
    requires report.Forwarded? && |sent| == |item.targets|
    requires forall j :: 0 <= j < |sent| ==>
               sent[j].target == item.targets[j] && sent[j].identity == report.identity && sent[j].delivered == env.delivered(j)
    requires report.success <==> AnyDelivered(env, |item.targets|)
    ensures TriedAll(item, report, before, before + sent, env)
  {
    assert (before + sent)[..|before|] == before;
    forall j | 0 <= j < |item.targets|
      ensures (before + sent)[|before| + j] == sent[j]
    {
    }
  }

  /** After a join the same holds of the refetched message. */
  lemma AfterMembershipAttemptsAll(item: Item, attempt: Subscriptions.JoinAttempt, second: FetchResult, w: World, cfg: Config, env: Network)
    ensures var (report, w') := AfterMembership(item, attempt, second, w, cfg, env);
      report.Forwarded? ==> TriedAll(item, report, w.attempts, w'.attempts, env)
  {
    if attempt.joined && second.Returned? && second.outcome.message.Some? {
      DeliverAttemptsAll(item, second.outcome.message.value, true, w, cfg, env);
    }
  }

  /** Every run that forwards tries all the item's targets in order. */
  lemma AllTargetsAttempted(item: Item, first: FetchResult, second: FetchResult, w: World, cfg: Config, env: Network)
    ensures var (report, w') := ProcessWith(item, first, second, w, cfg, env);
      report.Forwarded? ==> TriedAll(item, report, w.attempts, w'.attempts, env)
  {
    if first.Returned? {
      var o := first.outcome;
      if o.message.Some? {
        DeliverAttemptsAll(item, o.message.value, o.leaveAfter, w, cfg, env);
      } else if o.pendingPeer.Some? {
        var m := Subscriptions.EnsureMembershipSpec(
          w.pending, o.pendingPeer.value, o.messageId.GetOr(0), item.link,
          env.resolved, env.join, env.retry, env.stamp);
        AfterMembershipAttemptsAll(item, m.attempt, second, w.(pending := m.table), cfg, env);
      }
    }
  }

  /**
   * The store gets the identity and the link (each unless its own write
   * fails) exactly when some target took the message.
   */
  lemma RecordedIffSuccess(item: Item, first: FetchResult, second: FetchResult, w: World, cfg: Config, env: Network)
    requires w.dedup.Some?
    ensures var (report, w') := ProcessWith(item, first, second, w, cfg, env);
      && (report.Forwarded? && report.success ==>
            w'.dedup == Some(Record(w.dedup.value, report.identity, item.link, cfg, env)))
      && (!(report.Forwarded? && report.success) ==> w'.dedup == w.dedup)
  {
  }

  /**
   * `leave_after_forward` runs only after a successful join, a refetch that
   * found the message, and a forward that succeeded (the first fetch never
   * asks for a leave).
   */
  lemma LeaveOnlyAfterJoin(item: Item, first: FetchResult, second: FetchResult, w: World, cfg: Config, env: Network)
    requires first.Returned? ==> !first.outcome.leaveAfter
    ensures var (report, w') := ProcessWith(item, first, second, w, cfg, env);
      report.Forwarded? && report.left ==>
        && report.success
        && first.Returned? && first.outcome.message.None? && first.outcome.pendingPeer.Some?
        && Subscriptions.EnsureMembershipSpec(
             w.pending, first.outcome.pendingPeer.value, first.outcome.messageId.GetOr(0), item.link,
             env.resolved, env.join, env.retry, env.stamp).attempt.joined
        && second.Returned? && second.outcome.message.Some?
  {
  }

  /** A join left pending schedules the item again and forwards nothing now. */
  lemma PendingRequeues(item: Item, first: FetchResult, second: FetchResult, w: World, cfg: Config, env: Network)
    ensures var (report, w') := ProcessWith(item, first, second, w, cfg, env);
      report.AwaitingApproval? ==>
        && w'.scheduled == w.scheduled + [item]
        && w'.attempts == w.attempts
        && w'.dedup == w.dedup
  {
  }

  /** A link whose `c/` peer is not an integer reaches the worker's handler and changes nothing. */
  lemma BadPrivateLinkRaises(item: Item, w: World, cfg: Config, env: Network)
    requires ParseTelegramLink(item.link).PeerNotInteger?
    ensures Process(item, w, cfg, env) == (Raised, w)
  {
    assert FetchMessageByLink(item.link, env.fetched).RaisedValueError?;
  }

  /**
   * The message a run reaches: the one the first fetch returns, or, when
   * that names a channel to join and the join succeeds, the one the refetch
   * returns.
   */
  ghost function ReachedMessage(item: Item, first: FetchResult, second: FetchResult, w: World, env: Network): Option<Message> {
    if !first.Returned? then None
    else if first.outcome.message.Some? then first.outcome.message
    else if first.outcome.pendingPeer.None? then None
    else if !Subscriptions.EnsureMembershipSpec(
              w.pending, first.outcome.pendingPeer.value, first.outcome.messageId.GetOr(0), item.link,
              env.resolved, env.join, env.retry, env.stamp).attempt.joined then None
    else if second.Returned? then second.outcome.message
    else None
  }

  /** A run that forwards forwards the message it reached, under that message's identity. */
  lemma ForwardedIsReached(item: Item, first: FetchResult, second: FetchResult, w: World, cfg: Config, env: Network)
    ensures var (report, w') := ProcessWith(item, first, second, w, cfg, env);
      report.Forwarded? ==>
        && ReachedMessage(item, first, second, w, env).Some?
        && report.identity == MessageIdentityString(ReachedMessage(item, first, second, w, env).value)
  {
  }

  /**
   * No message is forwarded twice: once a run has forwarded a message and
   * recorded its identity, a later run that reaches the same message (by
   * the first fetch or by the refetch after a join, with a readable store)
   * skips it without any forward, and touches neither the store nor the
   * send log.
   */
  lemma {:induction false} NoSecondForward(
    item1: Item, first1: FetchResult, second1: FetchResult,
    item2: Item, first2: FetchResult, second2: FetchResult,
    message: Message, w: World, cfg: Config, env1: Network, env2: Network)
    requires w.dedup.Some?
    requires ReachedMessage(item1, first1, second1, w, env1) == Some(message)
    requires ReachedMessage(item2, first2, second2, ProcessWith(item1, first1, second1, w, cfg, env1).1, env2) == Some(message)
    requires !env1.identityWriteFault && !env2.readFault
    ensures var (r1, w1) := ProcessWith(item1, first1, second1, w, cfg, env1);
      r1.Forwarded? && r1.success ==>
        var (r2, w2) := ProcessWith(item2, first2, second2, w1, cfg, env2);
        && r2 == Duplicate(MessageIdentityString(message))
        && w2.dedup == w1.dedup && w2.attempts == w1.attempts && w2.lastSend == w1.lastSend
        && w2.scheduled == w1.scheduled
        && (first2.Returned? && first2.outcome.message.Some? ==> w2 == w1)
  {
    var (r1, w1) := ProcessWith(item1, first1, second1, w, cfg, env1);
    if r1.Forwarded? && r1.success {
      var identity := MessageIdentityString(message);
      ForwardedIsReached(item1, first1, second1, w, cfg, env1);
      assert r1.identity == identity;
      RecordedIffSuccess(item1, first1, second1, w, cfg, env1);
      assert w1.dedup == Some(Record(w.dedup.value, identity, item1.link, cfg, env1));
      assert cfg.hash(identity) in w1.dedup.value;
      var o := first2.outcome;
      if o.message.Some? {
        DuplicateSkipped(item2, message, o.leaveAfter, w1, cfg, env2);
      } else {
        var m := Subscriptions.EnsureMembershipSpec(
          w1.pending, o.pendingPeer.value, o.messageId.GetOr(0), item2.link,
          env2.resolved, env2.join, env2.retry, env2.stamp);
        DuplicateSkipped(item2, message, true, w1.(pending := m.table), cfg, env2);
      }
    }
  }

  /** Each send at least `gap` after the one before it. */
  ghost predicate Spaced(log: seq<Attempt>, gap: real) {
    forall j :: 0 < j < |log| ==> log[j].at >= log[j - 1].at + gap
  }

  /** Sends of one item are spaced by at least the minimum interval plus the delay. */
  lemma {:induction false} SendsSpaced(targets: seq<string>, identity: string, last: Option<real>, cfg: Config, env: Network, n: nat)
    requires n <= |targets|
    ensures Spaced(Sends(targets, identity, last, cfg, env, n).0, cfg.minInterval + cfg.delay)
    ensures last.Some? && n > 0 ==> Sends(targets, identity, last, cfg, env, n).0[0].at >= last.value + cfg.minInterval + cfg.delay
    decreases n
  {
    if n > 0 {
      var gap := cfg.minInterval + cfg.delay;
      SendsSpaced(targets, identity, last, cfg, env, n - 1);
      var prev := Sends(targets, identity, last, cfg, env, n - 1);
      var before := prev.0;
      assert Spaced(before, gap);
      var at := NextSend(prev.1, cfg, env.clock(n - 1));
      var log := before + [Attempt(targets[n - 1], identity, env.delivered(n - 1), at)];
      assert Sends(targets, identity, last, cfg, env, n).0 == log;
      if n > 1 {
        assert prev.1 == Some(before[n - 2].at);
        SendSpacing(before[n - 2].at, cfg, env.clock(n - 1));
      } else if last.Some? {
        SendSpacing(last.value, cfg, env.clock(0));
      }
      forall j | 0 < j < n
        ensures log[j].at >= log[j - 1].at + gap
      {
        if j < n - 1 {
          assert log[j] == before[j] && log[j - 1] == before[j - 1];
          assert before[j].at >= before[j - 1].at + gap;
        } else {
          assert log[j - 1] == before[n - 2];
        }
      }
      assert Spaced(log, gap);
    }
  }

  // ---------------------------------------------------------------------
  // The queue
  // ---------------------------------------------------------------------

  /** `queue.put` either stores the item or waits for room. */
  datatype PutResult = Queued | Blocked

  /** One turn of the worker loop. */
  datatype Step = Exited | Idle | Processed(report: ItemReport)

  class ForwardingQueue {
    const dedup: Dedup.DeduplicationStore?
    const tracker: Subscriptions.SubscriptionTracker
    const delaySeconds: real
    const minInterval: real
    const capacity: Option<nat>
    const pendingRetrySeconds: real

    var items: seq<Item>
    var unfinished: nat
    var running: bool
    var workerTask: Option<nat>
    var tasksCreated: nat
    var lastSendTime: Option<real>
    var attempts: seq<Attempt>
    var scheduled: seq<Item>

    function Footprint(): set<object> {
      {this, tracker} + (if dedup != null then {dedup} else {})
    }

    ghost predicate Valid()
      reads this, tracker
    {
      && tracker.Valid()
      && unfinished >= |items|
      && (capacity.Some? ==> |items| <= capacity.value)
    }

    function Cfg(): Config {
      Config(minInterval, delaySeconds, if dedup != null then dedup.hash else (s: string) => s)
    }

    function Snapshot(): World
      reads this, tracker, dedup
    {
      World(if dedup != null then Some(dedup.entries) else None, tracker.pending, lastSendTime, attempts, scheduled)
    }

    constructor(dedup: Dedup.DeduplicationStore?, tracker: Subscriptions.SubscriptionTracker,
                delaySeconds: real, maxMessagesPerSecond: Option<real>, maxsize: Option<int>, pendingRetrySeconds: real)
      requires tracker.Valid()
      ensures Valid()
      ensures this.dedup == dedup && this.tracker == tracker
      ensures this.delaySeconds == ClampDelay(delaySeconds)
      ensures this.minInterval == MinInterval(maxMessagesPerSecond)
      ensures this.capacity == Capacity(maxsize)
      ensures this.pendingRetrySeconds == ClampRetry(pendingRetrySeconds)
      ensures items == [] && unfinished == 0 && !running && workerTask.None? && tasksCreated == 0
      ensures lastSendTime.None? && attempts == [] && scheduled == []
    {
      this.dedup := dedup;
      this.tracker := tracker;
      this.delaySeconds := ClampDelay(delaySeconds);
      this.minInterval := MinInterval(maxMessagesPerSecond);
      this.capacity := Capacity(maxsize);
      this.pendingRetrySeconds := ClampRetry(pendingRetrySeconds);
      items := [];
      unfinished := 0;
      running := false;
      workerTask := None;
      tasksCreated := 0;
      lastSendTime := None;
      attempts := [];
      scheduled := [];
    }

    /** `start`: a no-op when running; otherwise marks running and creates one worker task. */
    method Start()
      modifies this
      ensures running
      ensures old(running) ==> workerTask == old(workerTask) && tasksCreated == old(tasksCreated)
      ensures !old(running) ==> workerTask == Some(old(tasksCreated)) && tasksCreated == old(tasksCreated) + 1
      ensures items == old(items) && unfinished == old(unfinished) && lastSendTime == old(lastSendTime)
      ensures attempts == old(attempts) && scheduled == old(scheduled)
    {
      if running {
        return;
      }
      running := true;
      workerTask := Some(tasksCreated);
      tasksCreated := tasksCreated + 1;
    }

    /** `stop`: clears `running`; the worker task is cancelled and awaited. */
    method Stop()
      modifies this
      ensures !running
      ensures workerTask == old(workerTask) && tasksCreated == old(tasksCreated)
      ensures items == old(items) && unfinished == old(unfinished) && lastSendTime == old(lastSendTime)
      ensures attempts == old(attempts) && scheduled == old(scheduled)
    {
      running := false;
    }

    /** `add_link`: append the item at the back, then make sure the worker runs. */
    method AddLink(item: Item) returns (put: PutResult)
      requires Valid()
      modifies this
      ensures Valid()
      ensures put == Blocked <==> capacity.Some? && |old(items)| >= capacity.value
      ensures put == Blocked ==> items == old(items) && unfinished == old(unfinished) && running == old(running)
      ensures put == Blocked || old(running) ==> workerTask == old(workerTask) && tasksCreated == old(tasksCreated)
      ensures put == Queued ==> items == old(items) + [item] && unfinished == old(unfinished) + 1 && running
      ensures put == Queued && !old(running) ==>
                workerTask == Some(old(tasksCreated)) && tasksCreated == old(tasksCreated) + 1
      ensures lastSendTime == old(lastSendTime) && attempts == old(attempts) && scheduled == old(scheduled)
    {
      if capacity.Some? && |items| >= capacity.value {
        return Blocked;
      }
      items := items + [item];
      unfinished := unfinished + 1;
      put := Queued;
      if !running {
        Start();
      }
    }

    /** `get_queue_size`. */
    method GetQueueSize() returns (n: nat)
      ensures n == |items|
    {
      n := |items|;
    }

    /** `_respect_rate_limits` at clock reading `now`: returns the interval wait it slept. */
    method RespectRateLimits(now: real) returns (wait: real)
      modifies this
      ensures wait == IntervalWait(old(lastSendTime), minInterval, now)
      ensures lastSendTime == Some(NextSend(old(lastSendTime), Cfg(), now))
      ensures items == old(items) && unfinished == old(unfinished) && running == old(running)
      ensures workerTask == old(workerTask) && tasksCreated == old(tasksCreated)
      ensures attempts == old(attempts) && scheduled == old(scheduled)
    {
      wait := 0.0;
      if lastSendTime.Some? {
        var elapsed := now - lastSendTime.value;
        wait := if minInterval - elapsed > 0.0 then minInterval - elapsed else 0.0;
      }
      lastSendTime := Some(now + wait + delaySeconds);
    }

    /** `_requeue_later` once its sleep is over: the oldest scheduled item is added again. */
    method FireRequeue() returns (put: PutResult)
      requires Valid() && scheduled != []
      modifies this
      ensures Valid()
      ensures put == Queued ==> items == old(items) + [old(scheduled)[0]] && scheduled == old(scheduled)[1..] && running
      ensures put == Queued ==> unfinished == old(unfinished) + 1
      ensures put == Blocked ==> items == old(items) && scheduled == old(scheduled)
      ensures put == Blocked ==> unfinished == old(unfinished) && running == old(running)
      ensures put == Blocked || old(running) ==> workerTask == old(workerTask) && tasksCreated == old(tasksCreated)
      ensures put == Queued && !old(running) ==>
                workerTask == Some(old(tasksCreated)) && tasksCreated == old(tasksCreated) + 1
      ensures lastSendTime == old(lastSendTime) && attempts == old(attempts)
    {
      var item := scheduled[0];
      put := AddLink(item);
      if put == Queued {
        scheduled := scheduled[1..];
      }
    }

    /** One pass of the `for target in targets` loop: wait for the rate limit, then forward. */
    method SendOne(target: string, identity: string, delivered: bool, now: real)
      modifies this
      ensures var at := NextSend(old(lastSendTime), Cfg(), now);
        attempts == old(attempts) + [Attempt(target, identity, delivered, at)] && lastSendTime == Some(at)
      ensures items == old(items) && unfinished == old(unfinished) && running == old(running)
      ensures workerTask == old(workerTask) && tasksCreated == old(tasksCreated) && scheduled == old(scheduled)
    {
      var _ := RespectRateLimits(now);
      attempts := attempts + [Attempt(target, identity, delivered, lastSendTime.value)];
    }

    /**
     * The `for target in targets` loop: every target is tried in turn, and
     * the result says whether any of them took the message.
     */
    method SendToTargets(targets: seq<string>, identity: string, env: Network) returns (success: bool)
      modifies this
      ensures var sent := Sends(targets, identity, old(lastSendTime), Cfg(), env, |targets|);
        attempts == old(attempts) + sent.0 && lastSendTime == sent.1
      ensures success <==> AnyDelivered(env, |targets|)
      ensures items == old(items) && unfinished == old(unfinished) && running == old(running)
      ensures workerTask == old(workerTask) && tasksCreated == old(tasksCreated) && scheduled == old(scheduled)
    {
      ghost var start := attempts;
      ghost var last := lastSendTime;
      ghost var cfg := Cfg();
      success := false;
      var i := 0;
      while i < |targets|
        invariant 0 <= i <= |targets|
        invariant attempts == start + Sends(targets, identity, last, cfg, env, i).0
        invariant lastSendTime == Sends(targets, identity, last, cfg, env, i).1
        invariant success <==> AnyDelivered(env, i)
        invariant items == old(items) && unfinished == old(unfinished) && running == old(running)
        invariant workerTask == old(workerTask) && tasksCreated == old(tasksCreated) && scheduled == old(scheduled)
      {
        SendsStep(targets, identity, last, cfg, env, i);
        SendOne(targets[i], identity, env.delivered(i), env.clock(i));
        if env.delivered(i) {
          success := true;
        }
        i := i + 1;
      }
    }

    /** The forwarding stage of one item. */
    method DeliverItem(item: Item, message: Message, leaveAfter: bool, env: Network) returns (report: ItemReport)
      requires Valid()
      modifies Footprint()
      ensures Valid()
      ensures (report, Snapshot()) == Deliver(item, message, leaveAfter, old(Snapshot()), Cfg(), env)
      ensures items == old(items) && unfinished == old(unfinished) && running == old(running)
      ensures workerTask == old(workerTask) && tasksCreated == old(tasksCreated)
    {
      var identity := MessageIdentityString(message);
      var dup := false;
      if dedup != null {
        dup := dedup.IsDuplicate(identity, env.readFault);
      }
      if dup {
        return Duplicate(identity);
      }
      report := ForwardAndRecord(item, message, identity, leaveAfter, env);
    }

    /** A message that is not a duplicate: forward it, record it, and leave when asked. */
    method ForwardAndRecord(item: Item, message: Message, identity: string, leaveAfter: bool, env: Network)
      returns (report: ItemReport)
      requires Valid()
      modifies Footprint()
      ensures Valid()
      ensures var w := old(Snapshot());
        var sent := Sends(item.targets, identity, w.lastSend, Cfg(), env, |item.targets|);
        var success := AnyDelivered(env, |item.targets|);
        var left := success && leaveAfter;
        && report == Forwarded(identity, success, left)
        && Snapshot() == World(
             if success && w.dedup.Some? then Some(Record(w.dedup.value, identity, item.link, Cfg(), env)) else w.dedup,
             if left then Subscriptions.AfterLeave(w.pending, message) else w.pending,
             sent.1, w.attempts + sent.0, w.scheduled)
      ensures items == old(items) && unfinished == old(unfinished) && running == old(running)
      ensures workerTask == old(workerTask) && tasksCreated == old(tasksCreated)
    {
      var success := SendToTargets(item.targets, identity, env);
      if success && dedup != null {
        var _ := dedup.AddMessage(identity, env.stamp, env.identityWriteFault);
        var _ := dedup.AddMessage(item.link, env.stamp, env.linkWriteFault);
      }
      var left := success && leaveAfter;
      if left {
        var _ := tracker.LeaveAfterForward(message);
      }
      report := Forwarded(identity, success, left);
    }

    /** The body of the worker loop for one dequeued item. */
    method ProcessItem(item: Item, env: Network) returns (report: ItemReport)
      requires Valid()
      modifies Footprint()
      ensures Valid()
      ensures (report, Snapshot()) == Process(item, old(Snapshot()), Cfg(), env)
      ensures items == old(items) && unfinished == old(unfinished) && running == old(running)
      ensures workerTask == old(workerTask) && tasksCreated == old(tasksCreated)
    {
      var fetch := FetchMessageByLink(item.link, env.fetched);
      if fetch.RaisedValueError? {
        return Raised;
      }
      var outcome := fetch.outcome;
      if outcome.message.None? {
        if outcome.pendingPeer.None? {
          return Unavailable;
        }
        var attempt, _ := tracker.EnsureMembership(
          outcome.pendingPeer.value, outcome.messageId.GetOr(0), item.link,
          env.resolved, env.join, env.retry, env.stamp);
        if attempt.joined {
          var refetch := FetchMessageByLink(item.link, env.refetched);
          if refetch.RaisedValueError? {
            return Raised;
          }
          outcome := refetch.outcome;
          if outcome.message.Some? {
            outcome := outcome.(leaveAfter := true);
          }
        } else if attempt.pending {
          scheduled := scheduled + [item];
          return AwaitingApproval;
        }
        if outcome.message.None? {
          return Unavailable;
        }
      }
      report := DeliverItem(item, outcome.message.value, outcome.leaveAfter, env);
    }

    /**
     * One turn of `_worker`: stop when not running, time out on an empty
     * queue, otherwise take the head item, process it and mark it done.
     */
    method WorkerStep(env: Network) returns (step: Step)
      requires Valid()
      modifies Footprint()
      ensures Valid()
      ensures !old(running) ==> step == Exited && Snapshot() == old(Snapshot()) && items == old(items)
      ensures old(running) && old(items) == [] ==> step == Idle && Snapshot() == old(Snapshot()) && items == old(items)
      ensures old(running) && old(items) != [] ==>
                && step.Processed?
                && items == old(items)[1..]
                && unfinished == old(unfinished) - 1
                && (step.report, Snapshot()) == Process(old(items)[0], old(Snapshot()), Cfg(), env)
      ensures running == old(running) && tasksCreated == old(tasksCreated) && workerTask == old(workerTask)
      ensures !old(running) || old(items) == [] ==> unfinished == old(unfinished)
    {
      if !running {
        return Exited;
      }
      if items == [] {
        return Idle;
      }
      var item := items[0];
      items := items[1..];
      var report := ProcessItem(item, env);
      unfinished := unfinished - 1;
      step := Processed(report);
    }
  }
}
