/**
 * The deduplication store (app/dedup.py): the `processed_messages` table,
 * a map from the hash of a text to the time it was first recorded.
 *
 * Times are whole seconds; `retention_days` days are `retention_days * 86400`
 * seconds. The hash is a function given to the store; where a property
 * needs it to be injective, that is a precondition of the lemma.
 */
module Dedup {
  import opened Wrappers

  /** The hex digest a text is stored under. */
  type Digest = string

  /** The `processed_messages` table: digest to `processed_at`. */
  type Table = map<Digest, int>

  const SecondsPerDay: int := 86400

  /** `datetime.now() - timedelta(days=retention_days)`. */
  function Cutoff(now: int, retentionDays: int): (c: int)
    ensures retentionDays >= 0 ==> c <= now
  {
    now - retentionDays * SecondsPerDay
  }

  /**
   * `INSERT OR IGNORE`: a digest not yet present is stored with time `now`;
   * a present one keeps its original time.
   */
  function Insert(table: Table, h: Digest, now: int): (r: Table)
    ensures r.Keys == table.Keys + {h}
    ensures forall k :: k in table ==> r[k] == table[k]
    ensures h !in table ==> r[h] == now
  {
    if h in table then table else table[h := now]
  }

  /** `DELETE ... WHERE processed_at < cutoff`. */
  function Sweep(table: Table, cutoff: int): (r: Table)
    ensures forall k :: k in r <==> k in table && table[k] >= cutoff
    ensures forall k :: k in r ==> r[k] == table[k]
  {
    map k | k in table && table[k] >= cutoff :: table[k]
  }

  /** Inserting the same digest twice is the same as inserting it once. */
  lemma InsertIdempotent(table: Table, h: Digest, t1: int, t2: int)
    ensures Insert(Insert(table, h, t1), h, t2) == Insert(table, h, t1)
  {
  }

  /** A sweep leaves nothing a second sweep with the same cutoff would delete. */
  lemma SweepIdempotent(table: Table, cutoff: int)
    ensures Sweep(Sweep(table, cutoff), cutoff) == Sweep(table, cutoff)
  {
  }

  /** A later sweep subsumes an earlier one. */
  lemma SweepCompose(table: Table, c1: int, c2: int)
    requires c1 <= c2
    ensures Sweep(Sweep(table, c1), c2) == Sweep(table, c2)
  {
  }

  /**
   * Seeing a text again does not extend its life: an entry recorded before
   * the cutoff is swept even when it was re-added after the cutoff.
   */
  lemma ReinsertDoesNotRefresh(table: Table, h: Digest, now: int, cutoff: int)
    requires h in table && table[h] < cutoff <= now
    ensures h !in Sweep(Insert(table, h, now), cutoff)
  {
  }

  /** A digest added at or after the cutoff survives the sweep. */
  lemma FreshInsertSurvives(table: Table, h: Digest, now: int, cutoff: int)
    requires h !in table && cutoff <= now
    ensures h in Sweep(Insert(table, h, now), cutoff)
  {
  }

  ghost predicate Injective(hash: string -> Digest) {
    forall a, b :: hash(a) == hash(b) ==> a == b
  }

  /** A successful write or cleanup on the store, in the order it happened. */
  datatype Op = Add(text: string, at: int) | Clean(now: int)

  /** The table after a run of successful operations. */
  function Replay(table: Table, ops: seq<Op>, hash: string -> Digest, retentionDays: int): Table
    decreases |ops|
  {
    if ops == [] then table
    else
      var last := ops[|ops| - 1];
      var before := Replay(table, ops[..|ops| - 1], hash, retentionDays);
      match last
      case Add(text, at) => Insert(before, hash(text), at)
      case Clean(now) => Sweep(before, Cutoff(now, retentionDays))
  }

  ghost predicate Added(ops: seq<Op>, text: string) {
    exists i :: 0 <= i < |ops| && ops[i].Add? && ops[i].text == text
  }

  predicate NoCleanup(ops: seq<Op>) {
    forall i :: 0 <= i < |ops| ==> ops[i].Add?
  }

  /**
   * With an injective hash and no cleanup in between, a store that started
   * empty reports a text as seen exactly when it was added: no false
   * positives and no false negatives.
   */
  lemma {:induction false} SeenIffAdded(ops: seq<Op>, hash: string -> Digest, retentionDays: int, text: string)
    requires Injective(hash) && NoCleanup(ops)
    ensures hash(text) in Replay(map[], ops, hash, retentionDays) <==> Added(ops, text)
    decreases |ops|
  {
    if ops != [] {
      var init := ops[..|ops| - 1];
      assert NoCleanup(init) by {
        forall i | 0 <= i < |init| ensures init[i].Add? {
          assert init[i] == ops[i];
        }
      }
      SeenIffAdded(init, hash, retentionDays, text);
      var last := ops[|ops| - 1];
      assert last.Add?;
      assert forall i :: 0 <= i < |init| ==> init[i] == ops[i];
      assert Added(ops, text) <==> Added(init, text) || last.text == text;
    }
  }

  /** `get_stats` without the day count: `COUNT(*)` and the retention period. */
  datatype Stats = Stats(totalMessages: nat, retentionDays: int)

  class DeduplicationStore {
    const retentionDays: int
    const hash: string -> Digest
    var entries: Table

    /**
     * Opens the store over the rows already persisted and runs the retention
     * cleanup; a failed cleanup is logged and leaves the rows as they were.
     */
    constructor(hash: string -> Digest, retentionDays: int, persisted: Table, now: int, cleanupFault: bool)
      ensures this.hash == hash && this.retentionDays == retentionDays
      ensures entries == if cleanupFault then persisted else Sweep(persisted, Cutoff(now, retentionDays))
    {
      this.hash := hash;
      this.retentionDays := retentionDays;
      entries := persisted;
      new;
      CleanupOldEntries(now, cleanupFault);
    }

    /** `_cleanup_old_entries`: deletes the rows recorded before the cutoff. */
    method CleanupOldEntries(now: int, fault: bool)
      modifies this
      ensures entries == if fault then old(entries) else Sweep(old(entries), Cutoff(now, retentionDays))
    {
      if !fault {
        entries := Sweep(entries, Cutoff(now, retentionDays));
      }
    }

    /** `is_duplicate`: whether the text's digest is stored; a read error answers "no". */
    method IsDuplicate(text: string, readFault: bool) returns (dup: bool)
      ensures dup <==> !readFault && hash(text) in entries
    {
      if readFault {
        return false;
      }
      dup := hash(text) in entries;
    }

    /** `add_message`: insert-or-ignore; a write error changes nothing and answers false. */
    method AddMessage(text: string, now: int, writeFault: bool) returns (ok: bool)
      modifies this
      ensures ok == !writeFault
      ensures entries == if writeFault then old(entries) else Insert(old(entries), hash(text), now)
    {
      if writeFault {
        return false;
      }
      entries := Insert(entries, hash(text), now);
      ok := true;
    }

    /** `get_stats`: the number of rows and the retention period, or `{}` on error. */
    method GetStats(readFault: bool) returns (stats: Option<Stats>)
      ensures readFault <==> stats.None?
      ensures stats.Some? ==> stats.value.totalMessages == |entries| && stats.value.retentionDays == retentionDays
    {
      if readFault {
        return None;
      }
      stats := Some(Stats(|entries|, retentionDays));
    }

    /** `close`: one more retention cleanup. */
    method Close(now: int, fault: bool)
      modifies this
      ensures entries == if fault then old(entries) else Sweep(old(entries), Cutoff(now, retentionDays))
    {
      CleanupOldEntries(now, fault);
    }
  }

  /** After a successful `add_message`, the same text reads back as a duplicate. */
  method AddThenDuplicate(store: DeduplicationStore, text: string, now: int) returns (dup: bool)
    modifies store
    ensures dup
  {
    var ok := store.AddMessage(text, now, false);
    dup := store.IsDuplicate(text, false);
  }
}
