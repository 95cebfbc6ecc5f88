/**
 * Join requests and pending approvals (app/subscriptions.py).
 *
 * The `pending_subscriptions` table is a map from `channel_id` (the table's
 * primary key) to its row. The outcomes of the network calls the tracker
 * makes (resolving the peer, joining, joining again) are parameters;
 * leaving a channel never fails as far as the tracker is concerned, so it
 * is reported as the peer that was left.
 */
module Subscriptions {
  import opened Wrappers
  import opened Messages

  /** A row of `pending_subscriptions`; `requested_at` in whole seconds. */
  datatype PendingSubscription = PendingSubscription(
    channelId: int,
    channelUsername: Option<string>,
    messageId: int,
    link: string,
    requestedAt: int)

  type Table = map<int, PendingSubscription>

  /** What `ensure_membership` reports. */
  datatype JoinAttempt = JoinAttempt(joined: bool, pending: bool, channelId: Option<int>, channelUsername: Option<string>)

  /** How a `JoinChannelRequest` ends. */
  datatype JoinReply =
    | Joined           // the request succeeded
    | TooManyChannels  // ChannelsTooMuchError
    | ChannelPrivate   // ChannelPrivateError
    | JoinFailed       // any other exception

  /** Every row sits under its own `channel_id`. */
  predicate WellKeyed(t: Table) {
    forall k :: k in t ==> t[k].channelId == k
  }

  /** Python's truth value of an optional integer. */
  predicate Truthy(x: Option<int>) {
    x.Some? && x.value != 0
  }

  // ---------------------------------------------------------------------
  // The oldest row: ORDER BY requested_at ASC LIMIT 1
  // ---------------------------------------------------------------------

  /**
   * Row `a` comes no later than row `b`: earlier `requested_at`, and on a tie
   * the smaller key.
   */
  predicate Before(t: Table, a: int, b: int)
    requires a in t && b in t
  {
    t[a].requestedAt < t[b].requestedAt || (t[a].requestedAt == t[b].requestedAt && a <= b)
  }

  predicate IsOldest(t: Table, k: int) {
    k in t && forall j :: j in t ==> Before(t, k, j)
  }

  predicate OldestAmong(t: Table, ks: set<int>, k: int)
    requires ks <= t.Keys
  {
    k in ks && forall j :: j in ks ==> Before(t, k, j)
  }

  /** A non-empty set has an element. */
  lemma NonEmpty(s: set<int>)
    requires s != {}
    ensures exists y :: y in s
  {
    if forall y :: y !in s {
      assert false;
    }
  }

  lemma {:induction false} OldestExists(t: Table, ks: set<int>)
    requires ks != {} && ks <= t.Keys
    ensures exists k :: OldestAmong(t, ks, k)
    decreases ks
  {
    NonEmpty(ks);
    var x :| x in ks;
    if ks != {x} {
      OldestExists(t, ks - {x});
      var k :| OldestAmong(t, ks - {x}, k);
      if !Before(t, k, x) {
        forall j | j in ks ensures Before(t, x, j) {
          if j != x {
            assert j in ks - {x};
          }
        }
        assert OldestAmong(t, ks, x);
      } else {
        forall j | j in ks ensures Before(t, k, j) {
          if j != x {
            assert j in ks - {x};
          }
        }
        assert OldestAmong(t, ks, k);
      }
    } else {
      assert forall j :: j in ks ==> j == x;
      assert OldestAmong(t, ks, x);
    }
  }

  lemma OldestUnique(t: Table, a: int, b: int)
    requires IsOldest(t, a) && IsOldest(t, b)
    ensures a == b
  {
    assert Before(t, a, b) && Before(t, b, a);
  }

  /** The key of the oldest row, if the table has any row. */
  ghost function OldestKey(t: Table): (r: Option<int>)
    ensures r.None? <==> t == map[]
    ensures r.Some? ==> IsOldest(t, r.value)
  {
    if t == map[] then None
    else
      OldestExists(t, t.Keys);
      var k :| OldestAmong(t, t.Keys, k);
      Some(k)
  }

  /** `get_oldest_pending`: the oldest row, or `None` on an empty table. */
  ghost function Oldest(t: Table): Option<PendingSubscription> {
    match OldestKey(t)
    case None => None
    case Some(k) => Some(t[k])
  }

  // ---------------------------------------------------------------------
  // The key SQLite gives a row inserted with a NULL channel_id
  // ---------------------------------------------------------------------

  lemma {:induction false} MaxExists(ks: set<int>)
    requires ks != {}
    ensures exists m :: m in ks && forall k :: k in ks ==> k <= m
    decreases ks
  {
    NonEmpty(ks);
    var x :| x in ks;
    if ks != {x} {
      MaxExists(ks - {x});
      var m :| m in ks - {x} && forall k :: k in ks - {x} ==> k <= m;
      if m < x {
        forall k | k in ks ensures k <= x {
          if k != x {
            assert k in ks - {x};
          }
        }
        assert x in ks && forall k :: k in ks ==> k <= x;
      } else {
        forall k | k in ks ensures k <= m {
          if k != x {
            assert k in ks - {x};
          }
        }
        assert m in ks && forall k :: k in ks ==> k <= m;
      }
    } else {
      assert forall k :: k in ks ==> k == x;
      assert x in ks && forall k :: k in ks ==> k <= x;
    }
  }

  /** One more than the largest key, or 1 on an empty table. */
  ghost function AutoRowId(t: Table): (id: int)
    ensures id !in t
    ensures t == map[] ==> id == 1
    ensures t != map[] ==> id - 1 in t && forall k :: k in t ==> k < id
  {
    if t == map[] then 1
    else
      MaxExists(t.Keys);
      var m :| m in t && forall k :: k in t ==> k <= m;
      m + 1
  }

  // ---------------------------------------------------------------------
  // Table operations
  // ---------------------------------------------------------------------

  /** `INSERT OR REPLACE`: the row under `key` is replaced, with a fresh `requested_at`. */
  function PutRow(t: Table, key: int, username: Option<string>, messageId: int, link: string, now: int): (r: Table)
    ensures r.Keys == t.Keys + {key}
    ensures r[key] == PendingSubscription(key, username, messageId, link, now)
    ensures forall k :: k in t && k != key ==> r[k] == t[k]
    ensures WellKeyed(t) ==> WellKeyed(r)
  {
    t[key := PendingSubscription(key, username, messageId, link, now)]
  }

  /** `remove_pending`: `None` changes nothing, otherwise only that key's row goes. */
  function RemoveRow(t: Table, channelId: Option<int>): (r: Table)
    ensures channelId.None? ==> r == t
    ensures channelId.Some? ==> r.Keys == t.Keys - {channelId.value}
    ensures forall k :: k in r ==> r[k] == t[k]
    ensures WellKeyed(t) ==> WellKeyed(r)
  {
    match channelId
    case None => t
    case Some(id) => t - {id}
  }

  /** The oldest row may be evicted when it has a non-zero id or a non-empty username. */
  predicate Evictable(row: PendingSubscription) {
    row.channelId != 0 || (row.channelUsername.Some? && row.channelUsername.value != "")
  }

  /** `oldest.channel_id or oldest.channel_username`. */
  function LeaveTarget(row: PendingSubscription): Peer
    requires Evictable(row)
  {
    if row.channelId != 0 then ChannelNumber(row.channelId) else Handle(row.channelUsername.value)
  }

  /** What `ensure_membership` returns, which channel it left, and the table afterwards. */
  datatype Membership = Membership(attempt: JoinAttempt, left: Option<Peer>, table: Table)

  /**
   * `ensure_membership` as a function of the table and the outcomes of the
   * calls it makes: `resolved` is the `channel_id` of the resolved entity
   * (`None` when resolving failed or gave none), `join` the first join
   * request's outcome and `retry` the outcome of the retry after an eviction.
   */
  ghost function EnsureMembershipSpec(
    t: Table, peer: Peer, messageId: int, link: string,
    resolved: Option<int>, join: JoinReply, retry: JoinReply, now: int): Membership
  {
    var username := if peer.Handle? then Some(peer.name) else None;
    var dropSelf := (u: Table) => if Truthy(resolved) then RemoveRow(u, resolved) else u;
    match join
    case Joined => Membership(JoinAttempt(true, false, resolved, username), None, dropSelf(t))
    case TooManyChannels =>
      var oldest := Oldest(t);
      if oldest.Some? && Evictable(oldest.value) then
        var evicted := RemoveRow(t, Some(oldest.value.channelId));
        var left := Some(LeaveTarget(oldest.value));
        if retry == Joined then Membership(JoinAttempt(true, false, resolved, username), left, dropSelf(evicted))
        else Membership(JoinAttempt(false, true, resolved, username), left, evicted)
      else Membership(JoinAttempt(false, true, resolved, username), None, t)
    case ChannelPrivate =>
      var t' := if Truthy(resolved) then PutRow(t, resolved.value, username, messageId, link, now) else t;
      Membership(JoinAttempt(false, true, resolved, username), None, t')
    case JoinFailed => Membership(JoinAttempt(false, false, resolved, username), None, t)
  }

  // ---------------------------------------------------------------------
  // Properties of ensure_membership
  // ---------------------------------------------------------------------

  /** No attempt is both joined and pending, and the username is the peer exactly when it is a handle. */
  lemma AttemptShape(t: Table, peer: Peer, messageId: int, link: string,
                     resolved: Option<int>, join: JoinReply, retry: JoinReply, now: int)
    ensures var m := EnsureMembershipSpec(t, peer, messageId, link, resolved, join, retry, now);
      && !(m.attempt.joined && m.attempt.pending)
      && m.attempt.channelId == resolved
      && (m.attempt.channelUsername.Some? <==> peer.Handle?)
      && (peer.Handle? ==> m.attempt.channelUsername == Some(peer.name))
  {
  }

  /** The joined and pending flags for each outcome of the first join. */
  lemma AttemptFlags(t: Table, peer: Peer, messageId: int, link: string,
                     resolved: Option<int>, join: JoinReply, retry: JoinReply, now: int)
    ensures var m := EnsureMembershipSpec(t, peer, messageId, link, resolved, join, retry, now);
      && (m.attempt.joined <==> join == Joined || (join == TooManyChannels && m.left.Some? && retry == Joined))
      && (m.attempt.pending <==> join == ChannelPrivate || (join == TooManyChannels && !m.attempt.joined))
  {
  }

  /** A successful first join removes the channel's own row when its id is known, and nothing else. */
  lemma JoinedDropsOwnRow(t: Table, peer: Peer, messageId: int, link: string,
                          resolved: Option<int>, retry: JoinReply, now: int)
    ensures var m := EnsureMembershipSpec(t, peer, messageId, link, resolved, Joined, retry, now);
      && m.left.None?
      && (Truthy(resolved) ==> m.table.Keys == t.Keys - {resolved.value})
      && (!Truthy(resolved) ==> m.table == t)
      && forall k :: k in m.table ==> m.table[k] == t[k]
  {
  }

  /** Any other error leaves the table untouched and reports neither joined nor pending. */
  lemma OtherErrorUnchanged(t: Table, peer: Peer, messageId: int, link: string,
                            resolved: Option<int>, retry: JoinReply, now: int)
    ensures var m := EnsureMembershipSpec(t, peer, messageId, link, resolved, JoinFailed, retry, now);
      m == Membership(JoinAttempt(false, false, resolved, m.attempt.channelUsername), None, t)
  {
  }

  /** A private channel is queued for approval only when its id is known. */
  lemma PrivateQueuesRow(t: Table, peer: Peer, messageId: int, link: string,
                         resolved: Option<int>, retry: JoinReply, now: int)
    ensures var m := EnsureMembershipSpec(t, peer, messageId, link, resolved, ChannelPrivate, retry, now);
      && m.attempt.pending && !m.attempt.joined && m.left.None?
      && (Truthy(resolved) ==>
            resolved.value in m.table
            && m.table[resolved.value].link == link && m.table[resolved.value].messageId == messageId
            && m.table[resolved.value].requestedAt == now)
      && (!Truthy(resolved) ==> m.table == t)
  {
  }

  /** With nothing to evict, the too-many error changes nothing and leaves the join pending. */
  lemma TooManyWithoutEviction(t: Table, peer: Peer, messageId: int, link: string,
                               resolved: Option<int>, retry: JoinReply, now: int)
    requires t == map[] || !Evictable(t[OldestKey(t).value])
    ensures var m := EnsureMembershipSpec(t, peer, messageId, link, resolved, TooManyChannels, retry, now);
      && m.table == t && m.left.None? && !m.attempt.joined && m.attempt.pending
  {
  }

  /**
   * With a row to evict, the too-many error leaves the channel of the oldest
   * row, deletes that row (and only it, besides the joined channel's own),
   * and the retry decides the outcome.
   */
  lemma {:induction false} TooManyEvictsOldest(t: Table, peer: Peer, messageId: int, link: string,
                                               resolved: Option<int>, retry: JoinReply, now: int)
    requires WellKeyed(t)
    requires t != map[] && Evictable(t[OldestKey(t).value])
    ensures var m := EnsureMembershipSpec(t, peer, messageId, link, resolved, TooManyChannels, retry, now);
      var k := OldestKey(t).value;
      && m.left == Some(LeaveTarget(t[k]))
      && k !in m.table
      && (forall j :: j in t ==> t[k].requestedAt <= t[j].requestedAt)
      && (m.attempt.joined <==> retry == Joined)
      && m.table.Keys <= t.Keys
      && (forall j :: j in t && j != k && !(retry == Joined && Truthy(resolved) && j == resolved.value) ==> j in m.table)
      && (forall j :: j in m.table ==> m.table[j] == t[j])
  {
    var k := OldestKey(t).value;
    assert Oldest(t) == Some(t[k]);
    assert t[k].channelId == k;
    forall j | j in t ensures t[k].requestedAt <= t[j].requestedAt {
      assert Before(t, k, j);
    }
  }

  /** The table stays keyed by `channel_id`, and only the channel's own row can appear. */
  lemma MembershipKeepsKeys(t: Table, peer: Peer, messageId: int, link: string,
                            resolved: Option<int>, join: JoinReply, retry: JoinReply, now: int)
    requires WellKeyed(t)
    ensures var m := EnsureMembershipSpec(t, peer, messageId, link, resolved, join, retry, now);
      && WellKeyed(m.table)
      && (join != ChannelPrivate ==> m.table.Keys <= t.Keys)
      && (join == ChannelPrivate ==> m.table.Keys <= t.Keys + {resolved.GetOr(0)})
  {
  }

  /** `leave_after_forward`'s change to the table: the message's channel row goes when its id is known. */
  function AfterLeave(t: Table, message: Message): (r: Table)
    ensures message.peerId.None? ==> r == t
    ensures r.Keys <= t.Keys && forall k :: k in r ==> r[k] == t[k]
    ensures message.peerId.Some? && Truthy(message.peerId.value.channelId) ==>
              message.peerId.value.channelId.value !in r
  {
    match message.peerId
    case None => t
    case Some(p) => if Truthy(p.channelId) then RemoveRow(t, p.channelId) else t
  }

  // ---------------------------------------------------------------------
  // The tracker
  // ---------------------------------------------------------------------

  class SubscriptionTracker {
    var pending: Table

    ghost predicate Valid()
      reads this
    {
      WellKeyed(pending)
    }

    /** A tracker over the rows already persisted. */
    constructor(persisted: Table)
      requires WellKeyed(persisted)
      ensures Valid() && pending == persisted
    {
      pending := persisted;
    }

    /** The key a NULL `channel_id` receives: one more than the largest key, or 1. */
    method NextRowId() returns (id: int)
      ensures id == AutoRowId(pending)
    {
      if pending == map[] {
        return 1;
      }
      var remaining := pending.Keys;
      var seen: set<int> := {};
      NonEmpty(remaining);
      var x :| x in remaining;
      var max := x;
      while remaining != {}
        invariant remaining <= pending.Keys && seen == pending.Keys - remaining
        invariant max in pending
        invariant forall k :: k in seen ==> k <= max
        decreases remaining
      {
        NonEmpty(remaining);
        var k :| k in remaining;
        if k > max {
          max := k;
        }
        remaining := remaining - {k};
        seen := seen + {k};
      }
      assert max < AutoRowId(pending) && AutoRowId(pending) - 1 in seen;
      id := max + 1;
    }

    /** `add_pending`: insert or replace the row of `channel_id`. */
    method AddPending(channelId: Option<int>, username: Option<string>, messageId: int, link: string, now: int)
      requires Valid()
      modifies this
      ensures Valid()
      ensures channelId.Some? ==> pending == PutRow(old(pending), channelId.value, username, messageId, link, now)
      ensures channelId.None? ==> pending == PutRow(old(pending), AutoRowId(old(pending)), username, messageId, link, now)
    {
      var key: int;
      if channelId.Some? {
        key := channelId.value;
      } else {
        key := NextRowId();
      }
      pending := PutRow(pending, key, username, messageId, link, now);
    }

    /** `remove_pending`. */
    method RemovePending(channelId: Option<int>)
      requires Valid()
      modifies this
      ensures Valid()
      ensures pending == RemoveRow(old(pending), channelId)
    {
      if channelId.None? {
        return;
      }
      pending := RemoveRow(pending, channelId);
    }

    /** `get_oldest_pending`: scans the rows for the one with the least `requested_at`. */
    method GetOldestPending() returns (row: Option<PendingSubscription>)
      ensures row == Oldest(pending)
    {
      var remaining := pending.Keys;
      var best: Option<int> := None;
      while remaining != {}
        invariant remaining <= pending.Keys
        invariant best.None? ==> remaining == pending.Keys
        invariant best.Some? ==> best.value in pending && best.value !in remaining
        invariant best.Some? ==> forall j :: j in pending && j !in remaining ==> Before(pending, best.value, j)
        decreases remaining
      {
        NonEmpty(remaining);
        var k :| k in remaining;
        if best.None? || !Before(pending, best.value, k) {
          best := Some(k);
        }
        remaining := remaining - {k};
      }
      match best {
        case None =>
          assert pending.Keys == {};
          row := None;
        case Some(k) =>
          assert IsOldest(pending, k);
          OldestUnique(pending, k, OldestKey(pending).value);
          row := Some(pending[k]);
      }
    }

    /** `ensure_membership`: join the peer, evicting the oldest pending channel when over the limit. */
    method EnsureMembership(peer: Peer, messageId: int, link: string,
                            resolved: Option<int>, join: JoinReply, retry: JoinReply, now: int)
      returns (attempt: JoinAttempt, left: Option<Peer>)
      requires Valid()
      modifies this
      ensures Valid()
      ensures Membership(attempt, left, pending)
           == EnsureMembershipSpec(old(pending), peer, messageId, link, resolved, join, retry, now)
    {
      var username := if peer.Handle? then Some(peer.name) else None;
      var channelId := resolved;
      left := None;
      match join {
        case Joined =>
          if Truthy(channelId) {
            RemovePending(channelId);
          }
          attempt := JoinAttempt(true, false, channelId, username);
        case TooManyChannels =>
          var oldest := GetOldestPending();
          if oldest.Some? && Evictable(oldest.value) {
            left := Some(LeaveTarget(oldest.value));
            RemovePending(Some(oldest.value.channelId));
            if retry == Joined {
              if Truthy(channelId) {
                RemovePending(channelId);
              }
              attempt := JoinAttempt(true, false, channelId, username);
              return;
            }
          }
          attempt := JoinAttempt(false, true, channelId, username);
        case ChannelPrivate =>
          if Truthy(channelId) {
            AddPending(channelId, username, messageId, link, now);
          }
          attempt := JoinAttempt(false, true, channelId, username);
        case JoinFailed =>
          attempt := JoinAttempt(false, false, channelId, username);
      }
    }

    /**
     * `leave_after_forward`: leaves the message's channel (when the message
     * has a peer) and drops its pending row when its id is known.
     */
    method LeaveAfterForward(message: Message) returns (leaveAttempted: bool)
      requires Valid()
      modifies this
      ensures Valid()
      ensures leaveAttempted <==> message.peerId.Some?
      ensures pending == AfterLeave(old(pending), message)
    {
      if message.peerId.None? {
        return false;
      }
      var channelId := message.peerId.value.channelId;
      leaveAttempted := true;
      if Truthy(channelId) {
        RemovePending(channelId);
      }
    }
  }
}
