/**
 Versioned configuration: one record per key and environment, an append-only
 history, rollback to any earlier version, and a cache in front of the reads.

 Values are JSON texts.  The environment is the one in force after the default
 has been applied.  `newId` is the id the database generates for a new record.
 While Redis is away (`up` and `works` are false) a read goes to the database and
 caches nothing, and an invalidation is skipped silently.  A write is three steps
 without a transaction: the record, its history row, and the invalidation.  It may
 stop after the first.
 */
module Configuration {
  import opened Wrappers

  datatype Record = Record(key: string, value: string, environment: string, version: nat)

  datatype HistoryRow = HistoryRow(configurationId: string, key: string, value: string, environment: string, version: nat)

  /** The two tables and the cache. */
  datatype Store = Store(records: map<string, Record>, history: seq<HistoryRow>, cache: map<string, string>)

  datatype Error = NotFound | InvalidTarget | Unavailable

  // ---------- Cache keys ----------

  function CacheKey(key: string, environment: string): string {
    "config:" + environment + ":" + key
  }

  /** One environment name continues another after a colon. */
  ghost predicate Nested(environments: set<string>) {
    exists outer, inner | outer in environments && inner in environments :: outer + ":" <= inner
  }

  ghost predicate KeysDistinct(environments: set<string>) {
    forall k, l, e, f | e in environments && f in environments && CacheKey(k, e) == CacheKey(l, f) :: k == l && e == f
  }

  lemma EqualKeys(k: string, e: string, l: string, f: string)
    requires CacheKey(k, e) == CacheKey(l, f) && |e| <= |f|
    ensures (e == f && k == l) || e + ":" <= f
  {
    var a, b := CacheKey(k, e), CacheKey(l, f);
    assert a[7..] == e + ":" + k && b[7..] == f + ":" + l;
    assert (e + ":" + k)[..|e|] == e && (f + ":" + l)[..|e|] == f[..|e|];
    if |e| == |f| {
      assert (e + ":" + k)[|e| + 1..] == k && (f + ":" + l)[|f| + 1..] == l;
    } else {
      assert (e + ":" + k)[|e|] == ':' && (f + ":" + l)[|e|] == f[|e|];
    }
  }

  lemma NestedKeysCollide(key: string, outer: string, inner: string)
    requires outer + ":" <= inner
    ensures CacheKey(inner[|outer| + 1..] + ":" + key, outer) == CacheKey(key, inner)
  {
    assert inner == outer + ":" + inner[|outer| + 1..];
  }

  /** Cache keys tell configurations apart exactly when no environment in use continues another after a colon. */
  lemma KeysDistinctIffNotNested(environments: set<string>)
    ensures KeysDistinct(environments) <==> !Nested(environments)
  {
    if Nested(environments) {
      var outer, inner :| outer in environments && inner in environments && outer + ":" <= inner;
      NestedKeysCollide("", outer, inner);
      assert outer != inner;
    } else {
      forall k, l, e, f | e in environments && f in environments && CacheKey(k, e) == CacheKey(l, f)
        ensures k == l && e == f
      {
        if |e| <= |f| {
          EqualKeys(k, e, l, f);
        } else {
          EqualKeys(l, f, k, e);
        }
      }
    }
  }

  // ---------- Queries ----------

  predicate Matches(r: Record, key: string, environment: string) {
    r.key == key && r.environment == environment
  }

  ghost predicate Stored(records: map<string, Record>, key: string, environment: string) {
    exists id :: id in records && Matches(records[id], key, environment)
  }

  /** The record of a key in an environment. */
  ghost function IdOf(records: map<string, Record>, key: string, environment: string): (id: string)
    requires Stored(records, key, environment)
    ensures id in records && Matches(records[id], key, environment)
  {
    var id :| id in records && Matches(records[id], key, environment); id
  }

  /** What the database holds for a key in an environment. */
  ghost function Lookup(records: map<string, Record>, key: string, environment: string): Option<string> {
    if Stored(records, key, environment) then Some(records[IdOf(records, key, environment)].value) else None
  }

  /** The history rows of one record, oldest first. */
  function HistoryOf(history: seq<HistoryRow>, id: string): seq<HistoryRow> {
    if history == [] then []
    else
      var last := history[|history| - 1];
      HistoryOf(history[..|history| - 1], id) + if last.configurationId == id then [last] else []
  }

  lemma HistoryOfAppend(history: seq<HistoryRow>, row: HistoryRow, id: string)
    ensures HistoryOf(history + [row], id) == HistoryOf(history, id) + if row.configurationId == id then [row] else []
  {
    assert (history + [row])[..|history + [row]| - 1] == history;
  }

  /** The row of a version. */
  function RowIn(rows: seq<HistoryRow>, version: int): Option<HistoryRow> {
    if rows == [] then None else if rows[0].version == version then Some(rows[0]) else RowIn(rows[1..], version)
  }

  lemma {:induction false} RowInAppend(rows: seq<HistoryRow>, more: seq<HistoryRow>, version: int)
    ensures RowIn(rows + more, version) == if RowIn(rows, version).Some? then RowIn(rows, version) else RowIn(more, version)
    decreases rows
  {
    if rows == [] {
      assert rows + more == more;
    } else {
      assert (rows + more)[0] == rows[0] && (rows + more)[1..] == rows[1..] + more;
      RowInAppend(rows[1..], more, version);
    }
  }

  /** Versions 1, 2, ... up to `latest`. */
  ghost predicate Numbered(rows: seq<HistoryRow>, latest: int) {
    |rows| == latest && forall i | 0 <= i < |rows| :: rows[i].version == i + 1
  }

  lemma {:induction false} RowInFrom(rows: seq<HistoryRow>, first: int, version: int)
    requires forall i | 0 <= i < |rows| :: rows[i].version == first + i
    ensures RowIn(rows, version) == if first <= version < first + |rows| then Some(rows[version - first]) else None
    decreases rows
  {
    if rows != [] {
      RowInFrom(rows[1..], first + 1, version);
    }
  }

  predicate IdUnused(s: Store, id: string) {
    id !in s.records && HistoryOf(s.history, id) == []
  }

  // ---------- Operations ----------

  ghost function AfterGet(s: Store, key: string, environment: string, up: bool): (Option<string>, Store) {
    var cached := CacheKey(key, environment);
    if up && cached in s.cache then (Some(s.cache[cached]), s)
    else
      var found := Lookup(s.records, key, environment);
      (found, if up && found.Some? then s.(cache := s.cache[cached := found.value]) else s)
  }

  function Invalidated(cache: map<string, string>, key: string, environment: string, works: bool): map<string, string> {
    if works then cache - {CacheKey(key, environment)} else cache
  }

  /** The id that `set` writes to: the existing record's, or the new one. */
  ghost function Target(s: Store, key: string, environment: string, newId: string): string {
    if Stored(s.records, key, environment) then IdOf(s.records, key, environment) else newId
  }

  ghost function AfterSet(s: Store, key: string, value: string, environment: string, newId: string, works: bool): Store {
    var id := Target(s, key, environment, newId);
    var version := if id in s.records then s.records[id].version + 1 else 1;
    Store(s.records[id := Record(key, value, environment, version)],
          s.history + [HistoryRow(id, key, value, environment, version)],
          Invalidated(s.cache, key, environment, works))
  }

  function AfterDelete(s: Store, id: string, works: bool): Store {
    if id !in s.records then s
    else s.(records := s.records - {id}, cache := Invalidated(s.cache, s.records[id].key, s.records[id].environment, works))
  }

  /** The value a version of a record had. */
  function ValueAt(s: Store, id: string, version: nat): string
    requires 1 <= version <= |HistoryOf(s.history, id)|
  {
    HistoryOf(s.history, id)[version - 1].value
  }

  predicate CanRollBack(s: Store, id: string, version: int) {
    id in s.records && 1 <= version < s.records[id].version
  }

  /** The history row that a rollback restores, if it is allowed and there is one. */
  function RowFor(s: Store, id: string, version: int): Option<HistoryRow> {
    if CanRollBack(s, id, version) then RowIn(HistoryOf(s.history, id), version) else None
  }

  ghost function AfterRollback(s: Store, id: string, version: int, newId: string, works: bool): Store {
    var row := RowFor(s, id, version);
    if row.Some? then AfterSet(s, s.records[id].key, row.value.value, s.records[id].environment, newId, works) else s
  }

  /** A write that stops after the record: no history row, and the cache as it was. */
  ghost function HalfSet(s: Store, key: string, value: string, environment: string, newId: string): Store {
    AfterSet(s, key, value, environment, newId, false).(history := s.history)
  }

  ghost function HalfRollback(s: Store, id: string, version: int, newId: string): Store {
    var row := RowFor(s, id, version);
    if row.Some? then HalfSet(s, s.records[id].key, row.value.value, s.records[id].environment, newId) else s
  }

  // ---------- The invariant ----------

  ghost predicate Unique(records: map<string, Record>) {
    forall i, j | i in records && j in records && Matches(records[i], records[j].key, records[j].environment) :: i == j
  }

  /** The history of a live record is its versions 1, 2, ... in order, under its key, and ends in its current value. */
  ghost predicate Documented(s: Store, id: string)
    requires id in s.records
  {
    var h, r := HistoryOf(s.history, id), s.records[id];
    && r.version >= 1 && Numbered(h, r.version)
    && h[|h| - 1].value == r.value
    && forall i | 0 <= i < |h| :: h[i].key == r.key && h[i].environment == r.environment
  }

  ghost predicate Inv(s: Store) {
    && Unique(s.records)
    && forall id | id in s.records :: Documented(s, id)
  }

  /** Every cached value of these environments is the database's. */
  ghost predicate Coherent(s: Store, environments: set<string>) {
    forall key, e | e in environments && CacheKey(key, e) in s.cache ::
      Lookup(s.records, key, e) == Some(s.cache[CacheKey(key, e)])
  }

  /** A write appends one row: to the history of the record it targets. */
  lemma SetHistory(s: Store, key: string, value: string, environment: string, newId: string, works: bool)
    ensures var s' := AfterSet(s, key, value, environment, newId, works);
            var target := Target(s, key, environment, newId);
            forall id :: HistoryOf(s'.history, id) == HistoryOf(s.history, id) +
              if id == target then [HistoryRow(id, key, value, environment, s'.records[id].version)] else []
  {
    var s' := AfterSet(s, key, value, environment, newId, works);
    forall id: string
      ensures HistoryOf(s'.history, id) == HistoryOf(s.history, id) +
              if id == Target(s, key, environment, newId)
              then [HistoryRow(id, key, value, environment, s'.records[id].version)] else []
    {
      HistoryOfAppend(s.history, s'.history[|s.history|], id);
    }
  }

  /** History rows are only ever added. */
  lemma SetKeepsHistory(s: Store, key: string, value: string, environment: string, newId: string, works: bool)
    ensures forall id :: HistoryOf(s.history, id) <= HistoryOf(AfterSet(s, key, value, environment, newId, works).history, id)
  {
    SetHistory(s, key, value, environment, newId, works);
  }

  lemma DocumentedGrows(before: Store, after: Store, id: string, row: HistoryRow)
    requires id in after.records && (id in before.records ==> Documented(before, id))
    requires id !in before.records ==> HistoryOf(before.history, id) == []
    requires HistoryOf(after.history, id) == HistoryOf(before.history, id) + [row]
    requires row.value == after.records[id].value && row.version == after.records[id].version
    requires row.key == after.records[id].key && row.environment == after.records[id].environment
    requires id in before.records ==> Matches(before.records[id], row.key, row.environment)
    requires row.version == if id in before.records then before.records[id].version + 1 else 1
    ensures Documented(after, id)
  {
  }

  lemma SetDocuments(s: Store, key: string, value: string, environment: string, newId: string, works: bool, id: string)
    requires Inv(s) && IdUnused(s, newId)
    requires id in AfterSet(s, key, value, environment, newId, works).records
    ensures Documented(AfterSet(s, key, value, environment, newId, works), id)
  {
    SetHistory(s, key, value, environment, newId, works);
    var s' := AfterSet(s, key, value, environment, newId, works);
    assert id in s.records ==> Documented(s, id);
    if id == Target(s, key, environment, newId) {
      DocumentedGrows(s, s', id, HistoryRow(id, key, value, environment, s'.records[id].version));
    } else {
      assert HistoryOf(s'.history, id) == HistoryOf(s.history, id) && s'.records[id] == s.records[id];
    }
  }

  lemma SetUnique(s: Store, key: string, value: string, environment: string, newId: string, works: bool)
    requires Unique(s.records) && IdUnused(s, newId)
    ensures Unique(AfterSet(s, key, value, environment, newId, works).records)
  {
  }

  lemma SetInv(s: Store, key: string, value: string, environment: string, newId: string, works: bool)
    requires Inv(s) && IdUnused(s, newId)
    ensures Inv(AfterSet(s, key, value, environment, newId, works))
  {
    forall id | id in AfterSet(s, key, value, environment, newId, works).records
      ensures Documented(AfterSet(s, key, value, environment, newId, works), id)
    {
      SetDocuments(s, key, value, environment, newId, works, id);
    }
  }

  lemma SetKeeps(s: Store, key: string, value: string, environment: string, newId: string, works: bool)
    requires Unique(s.records) && IdUnused(s, newId)
    ensures Unique(AfterSet(s, key, value, environment, newId, works).records)
    ensures Inv(s) ==> Inv(AfterSet(s, key, value, environment, newId, works))
  {
    SetUnique(s, key, value, environment, newId, works);
    if Inv(s) {
      SetInv(s, key, value, environment, newId, works);
    }
  }

  lemma LookupIs(records: map<string, Record>, id: string)
    requires Unique(records) && id in records
    ensures Stored(records, records[id].key, records[id].environment)
    ensures IdOf(records, records[id].key, records[id].environment) == id
    ensures Lookup(records, records[id].key, records[id].environment) == Some(records[id].value)
  {
    assert Matches(records[id], records[id].key, records[id].environment);
  }

  /** A write changes what one key reads, and no other. */
  lemma SetLookup(s: Store, key: string, value: string, environment: string, newId: string, works: bool, k: string, e: string)
    requires Unique(s.records) && IdUnused(s, newId)
    ensures Lookup(AfterSet(s, key, value, environment, newId, works).records, k, e) ==
            if k == key && e == environment then Some(value) else Lookup(s.records, k, e)
  {
    SetUnique(s, key, value, environment, newId, works);
    var s' := AfterSet(s, key, value, environment, newId, works);
    var id := Target(s, key, environment, newId);
    if k == key && e == environment {
      LookupIs(s'.records, id);
    } else {
      OtherLookup(s.records, s'.records, id, k, e);
    }
  }

  /** Records that agree but for one, which does not match, look up the same. */
  lemma OtherLookup(before: map<string, Record>, after: map<string, Record>, id: string, k: string, e: string)
    requires Unique(before) && Unique(after)
    requires forall other | other != id :: (other in before <==> other in after) && (other in after ==> before[other] == after[other])
    requires (id in before ==> !Matches(before[id], k, e)) && (id in after ==> !Matches(after[id], k, e))
    ensures Lookup(after, k, e) == Lookup(before, k, e)
  {
    if Stored(before, k, e) {
      var other := IdOf(before, k, e);
      LookupIs(before, other);
      LookupIs(after, other);
    } else {
      assert forall other | other in after :: !Matches(after[other], k, e);
    }
  }

  /** What only drops records or touches the cache keeps the invariant. */
  lemma FewerRecordsInv(s: Store, s': Store)
    requires Inv(s) && s'.history == s.history
    requires forall id | id in s'.records :: id in s.records && s'.records[id] == s.records[id]
    ensures Inv(s')
  {
    forall id | id in s'.records
      ensures Documented(s', id)
    {
      DocumentedStays(s, s', id);
    }
    FewerRecordsUnique(s.records, s'.records);
  }

  lemma DocumentedStays(s: Store, s': Store, id: string)
    requires Inv(s) && s'.history == s.history
    requires id in s'.records && id in s.records && s'.records[id] == s.records[id]
    ensures Documented(s', id)
  {
    assert Documented(s, id);
  }

  lemma FewerRecordsUnique(before: map<string, Record>, after: map<string, Record>)
    requires Unique(before) && forall id | id in after :: id in before && after[id] == before[id]
    ensures Unique(after)
  {
  }

  lemma DeleteInv(s: Store, id: string, works: bool)
    requires Inv(s)
    ensures Inv(AfterDelete(s, id, works))
  {
    FewerRecordsInv(s, AfterDelete(s, id, works));
  }

  lemma DeleteLookup(s: Store, id: string, works: bool, k: string, e: string)
    requires Unique(s.records) && id in s.records
    ensures Lookup(AfterDelete(s, id, works).records, k, e) ==
            if Matches(s.records[id], k, e) then None else Lookup(s.records, k, e)
  {
    var s' := AfterDelete(s, id, works);
    FewerRecordsUnique(s.records, s'.records);
    if Matches(s.records[id], k, e) {
      assert forall other | other in s'.records :: other in s.records && !Matches(s'.records[other], k, e);
    } else {
      OtherLookup(s.records, s'.records, id, k, e);
    }
  }

  // ---------- Rollback ----------

  lemma RollbackIsSet(s: Store, id: string, version: int, newId: string, works: bool)
    requires Inv(s) && CanRollBack(s, id, version) && IdUnused(s, newId)
    ensures Documented(s, id)
    ensures Target(s, s.records[id].key, s.records[id].environment, newId) == id
    ensures AfterRollback(s, id, version, newId, works) ==
            AfterSet(s, s.records[id].key, ValueAt(s, id, version), s.records[id].environment, newId, works)
  {
    assert Documented(s, id);
    LookupIs(s.records, id);
    RowInFrom(HistoryOf(s.history, id), 1, version);
  }

  /** A write to an existing record changes its value and version alone. */
  lemma SetExisting(s: Store, id: string, value: string, newId: string, works: bool)
    requires Unique(s.records) && id in s.records
    ensures var r := s.records[id];
            AfterSet(s, r.key, value, r.environment, newId, works).records ==
            s.records[id := Record(r.key, value, r.environment, r.version + 1)]
  {
    LookupIs(s.records, id);
  }

  /**
   Rolling back to any earlier version always finds that version, restores its value under the next version
   number and leaves every other record alone; and rolling back again to the version it left restores what
   it replaced.
   */
  lemma RollbackRestores(s: Store, id: string, version: int, newId: string, works: bool)
    requires Inv(s) && CanRollBack(s, id, version) && IdUnused(s, newId)
    ensures var s' := AfterRollback(s, id, version, newId, works);
            && Inv(s')
            && s'.records == s.records[id := s.records[id].(value := ValueAt(s, id, version), version := s.records[id].version + 1)]
            && CanRollBack(s', id, s.records[id].version)
            && ValueAt(s', id, s.records[id].version) == s.records[id].value
  {
    RollbackIsSet(s, id, version, newId, works);
    SetExisting(s, id, ValueAt(s, id, version), newId, works);
    SetKeepsHistory(s, s.records[id].key, ValueAt(s, id, version), s.records[id].environment, newId, works);
    SetInv(s, s.records[id].key, ValueAt(s, id, version), s.records[id].environment, newId, works);
  }

  // ---------- Runs ----------

  datatype Op =
    | GetOp(key: string, environment: string, up: bool)
    | SetOp(key: string, value: string, environment: string, newId: string, works: bool)
    | HalfSetOp(key: string, value: string, environment: string, newId: string)
    | DeleteOp(id: string, works: bool)
    | RollbackOp(id: string, version: int, newId: string, works: bool)
    | HalfRollbackOp(id: string, version: int, newId: string)
    | ExpireOp(cacheKeys: set<string>)

  /** A generated id is never one that was used before; a step that claims otherwise does nothing. */
  ghost function Step(s: Store, op: Op): Store {
    match op
    case GetOp(key, e, up) => AfterGet(s, key, e, up).1
    case SetOp(key, value, e, newId, works) => if IdUnused(s, newId) then AfterSet(s, key, value, e, newId, works) else s
    case HalfSetOp(key, value, e, newId) => if IdUnused(s, newId) then HalfSet(s, key, value, e, newId) else s
    case DeleteOp(id, works) => AfterDelete(s, id, works)
    case RollbackOp(id, version, newId, works) =>
      if IdUnused(s, newId) then AfterRollback(s, id, version, newId, works) else s
    case HalfRollbackOp(id, version, newId) => if IdUnused(s, newId) then HalfRollback(s, id, version, newId) else s
    case ExpireOp(keys) => s.(cache := s.cache - keys)
  }

  /** The write stops after the record. */
  predicate Stops(op: Op) { op.HalfSetOp? || op.HalfRollbackOp? }

  /** What callers and services may do: the environments in use, whether an invalidation may be lost, a write stop. */
  datatype Setting = Setting(environments: set<string>, lossy: bool, stops: bool)

  predicate Allows(t: Setting, op: Op) {
    && (Stops(op) ==> t.stops)
    && match op
       case GetOp(_, e, _) => e in t.environments
       case SetOp(_, _, e, _, works) => e in t.environments && (works || t.lossy)
       case HalfSetOp(_, _, e, _) => e in t.environments
       case DeleteOp(_, works) => works || t.lossy
       case RollbackOp(_, _, _, works) => works || t.lossy
       case HalfRollbackOp(_, _, _) => true
       case ExpireOp(_) => true
  }

  predicate AllowsAll(t: Setting, ops: seq<Op>) {
    forall i | 0 <= i < |ops| :: Allows(t, ops[i])
  }

  ghost predicate RecordsIn(s: Store, environments: set<string>) {
    forall id | id in s.records :: s.records[id].environment in environments
  }

  /** Whatever fails, no two records share key and environment, and history rows are only ever added. */
  lemma StepUnique(s: Store, op: Op)
    requires Unique(s.records)
    ensures Unique(Step(s, op).records)
    ensures forall id :: HistoryOf(s.history, id) <= HistoryOf(Step(s, op).history, id)
  {
    match op
    case SetOp(key, value, e, newId, works) =>
      if IdUnused(s, newId) {
        SetUnique(s, key, value, e, newId, works);
        SetKeepsHistory(s, key, value, e, newId, works);
      }
    case HalfSetOp(key, value, e, newId) => if IdUnused(s, newId) { SetUnique(s, key, value, e, newId, false); }
    case RollbackOp(id, version, newId, works) =>
      if IdUnused(s, newId) && RowFor(s, id, version).Some? {
        var r, value := s.records[id], RowFor(s, id, version).value.value;
        SetUnique(s, r.key, value, r.environment, newId, works);
        SetKeepsHistory(s, r.key, value, r.environment, newId, works);
      }
    case HalfRollbackOp(id, version, newId) =>
      if IdUnused(s, newId) && RowFor(s, id, version).Some? {
        SetUnique(s, s.records[id].key, RowFor(s, id, version).value.value, s.records[id].environment, newId, false);
      }
    case _ => FewerRecordsUnique(s.records, Step(s, op).records);
  }

  lemma StepInv(s: Store, op: Op)
    requires Inv(s) && !Stops(op)
    ensures Inv(Step(s, op))
  {
    match op
    case SetOp(key, value, e, newId, works) => if IdUnused(s, newId) { SetInv(s, key, value, e, newId, works); }
    case RollbackOp(id, version, newId, works) =>
      if IdUnused(s, newId) && RowFor(s, id, version).Some? {
        SetInv(s, s.records[id].key, RowFor(s, id, version).value.value, s.records[id].environment, newId, works);
      }
    case _ => FewerRecordsInv(s, Step(s, op));
  }

  /** A write leaves the cache right exactly when its invalidation works or there is nothing wrong to invalidate. */
  lemma SetCoherentIff(s: Store, key: string, value: string, environment: string, newId: string, works: bool,
                       environments: set<string>)
    requires Unique(s.records) && IdUnused(s, newId) && environment in environments
    requires Coherent(s, environments) && KeysDistinct(environments)
    ensures Coherent(AfterSet(s, key, value, environment, newId, works), environments) <==>
            works || CacheKey(key, environment) !in s.cache || s.cache[CacheKey(key, environment)] == value
  {
    var s' := AfterSet(s, key, value, environment, newId, works);
    SetLookup(s, key, value, environment, newId, works, key, environment);
    if works || CacheKey(key, environment) !in s.cache || s.cache[CacheKey(key, environment)] == value {
      forall k, e | e in environments && CacheKey(k, e) in s'.cache
        ensures Lookup(s'.records, k, e) == Some(s'.cache[CacheKey(k, e)])
      {
        SetLookup(s, key, value, environment, newId, works, k, e);
      }
    }
  }

  /** So does a deletion exactly when its invalidation works or nothing of the record is cached. */
  lemma DeleteCoherentIff(s: Store, id: string, works: bool, environments: set<string>)
    requires Unique(s.records) && id in s.records && s.records[id].environment in environments
    requires Coherent(s, environments) && KeysDistinct(environments)
    ensures Coherent(AfterDelete(s, id, works), environments) <==>
            works || CacheKey(s.records[id].key, s.records[id].environment) !in s.cache
  {
    var s', r := AfterDelete(s, id, works), s.records[id];
    DeleteLookup(s, id, works, r.key, r.environment);
    if works || CacheKey(r.key, r.environment) !in s.cache {
      forall k, e | e in environments && CacheKey(k, e) in s'.cache
        ensures Lookup(s'.records, k, e) == Some(s'.cache[CacheKey(k, e)])
      {
        DeleteLookup(s, id, works, k, e);
      }
    }
  }

  /** The cache is right, and holds nothing of other environments. */
  ghost predicate RightIn(s: Store, t: Setting) {
    Unique(s.records) && Coherent(s, t.environments) && RecordsIn(s, t.environments)
  }

  lemma StepCoherent(s: Store, op: Op, t: Setting)
    requires RightIn(s, t) && KeysDistinct(t.environments) && !t.lossy && !t.stops && Allows(t, op)
    ensures RightIn(Step(s, op), t)
  {
    StepUnique(s, op);
    match op
    case SetOp(key, value, e, newId, works) =>
      if IdUnused(s, newId) {
        SetCoherentIff(s, key, value, e, newId, works, t.environments);
      }
    case DeleteOp(id, works) =>
      if id in s.records {
        DeleteCoherentIff(s, id, works, t.environments);
      }
    case RollbackOp(id, version, newId, works) =>
      if IdUnused(s, newId) && RowFor(s, id, version).Some? {
        SetCoherentIff(s, s.records[id].key, RowFor(s, id, version).value.value, s.records[id].environment, newId, works,
                       t.environments);
      }
    case _ =>
  }

  ghost function Run(s: Store, ops: seq<Op>): Store
    decreases ops
  {
    if ops == [] then s else Run(Step(s, ops[0]), ops[1..])
  }

  const EMPTY := Store(map[], [], map[])

  /** In every run, whatever fails: (key, environment) stays unique, and no history row is ever rewritten. */
  lemma {:induction false} RunUnique(s: Store, ops: seq<Op>)
    requires Unique(s.records)
    ensures Unique(Run(s, ops).records)
    ensures forall id :: HistoryOf(s.history, id) <= HistoryOf(Run(s, ops).history, id)
    decreases ops
  {
    if ops != [] {
      StepUnique(s, ops[0]);
      var next := Step(s, ops[0]);
      RunUnique(next, ops[1..]);
      forall id: string
        ensures HistoryOf(s.history, id) <= HistoryOf(Run(s, ops).history, id)
      {
        assert HistoryOf(s.history, id) <= HistoryOf(next.history, id) <= HistoryOf(Run(next, ops[1..]).history, id);
      }
    }
  }

  /** In every run in which no write stops, every live record is documented by its versions 1, 2, ... up to its value. */
  lemma {:induction false} RunDocuments(s: Store, ops: seq<Op>)
    requires Inv(s) && forall i | 0 <= i < |ops| :: !Stops(ops[i])
    ensures Inv(Run(s, ops))
    decreases ops
  {
    if ops != [] {
      StepInv(s, ops[0]);
      RunDocuments(Step(s, ops[0]), ops[1..]);
    }
  }

  lemma {:induction false} RunCoherent(s: Store, ops: seq<Op>, t: Setting)
    requires RightIn(s, t) && KeysDistinct(t.environments) && !t.lossy && !t.stops && AllowsAll(t, ops)
    ensures RightIn(Run(s, ops), t)
    decreases ops
  {
    if ops != [] {
      assert Allows(t, ops[0]);
      StepCoherent(s, ops[0], t);
      RunCoherent(Step(s, ops[0]), ops[1..], t);
    }
  }

  /** After every run in this setting, a read returns what the database holds. */
  ghost predicate ReadsAreFresh(t: Setting) {
    forall ops: seq<Op>, key, e, up | AllowsAll(t, ops) && e in t.environments ::
      AfterGet(Run(EMPTY, ops), key, e, up).0 == Lookup(Run(EMPTY, ops).records, key, e)
  }

  /** After every run in this setting, a rollback to an earlier version of a live record finds its history row. */
  ghost predicate RollbackAlwaysFinds(t: Setting) {
    forall ops: seq<Op>, id, version | AllowsAll(t, ops) && CanRollBack(Run(EMPTY, ops), id, version) ::
      RowFor(Run(EMPTY, ops), id, version).Some?
  }

  lemma RunTwo(s: Store, a: Op, b: Op)
    ensures Run(s, [a, b]) == Step(Step(s, a), b)
  {
    assert [a, b][1..] == [b] && [b][1..] == [];
    assert Run(Step(s, a), [b]) == Run(Step(Step(s, a), b), []);
  }

  lemma FirstWrite(key: string, value: string, environment: string)
    ensures AfterSet(EMPTY, key, value, environment, "id", true) ==
            Store(map["id" := Record(key, value, environment, 1)], [HistoryRow("id", key, value, environment, 1)], map[])
  {
    assert !Stored(EMPTY.records, key, environment);
    assert EMPTY.cache - {CacheKey(key, environment)} == map[];
  }

  /** The first write of a key, then a read of it. */
  lemma WriteThenRead(key: string, value: string, environment: string) returns (s: Store)
    ensures s == Run(EMPTY, [SetOp(key, value, environment, "id", true), GetOp(key, environment, true)])
    ensures s == Store(map["id" := Record(key, value, environment, 1)], [HistoryRow("id", key, value, environment, 1)],
                       map[CacheKey(key, environment) := value])
  {
    RunTwo(EMPTY, SetOp(key, value, environment, "id", true), GetOp(key, environment, true));
    FirstWrite(key, value, environment);
    var s1 := AfterSet(EMPTY, key, value, environment, "id", true);
    LookupIs(s1.records, "id");
    s := AfterGet(s1, key, environment, true).1;
  }

  /** A value set and read in one environment is served for a key of an environment nested in it. */
  lemma NestedReadIsStale(value: string, outer: string, inner: string)
    requires outer + ":" <= inner
    ensures var key := inner[|outer| + 1..] + ":";
            var s := Run(EMPTY, [SetOp(key, value, outer, "id", true), GetOp(key, outer, true)]);
            AfterGet(s, "", inner, true).0 == Some(value) && Lookup(s.records, "", inner) == None
  {
    var key := inner[|outer| + 1..] + ":";
    var s := WriteThenRead(key, value, outer);
    NestedKeysCollide("", outer, inner);
    assert key + "" == key;
    assert outer != inner;
  }

  /** In any state, a write whose invalidation is lost, or that stops before it, serves the old value for the new one. */
  lemma LostInvalidationIsStale(s: Store, key: string, value: string, environment: string, newId: string)
    requires Unique(s.records) && IdUnused(s, newId) && CacheKey(key, environment) in s.cache
    ensures forall s' | s' == AfterSet(s, key, value, environment, newId, false) || s' == HalfSet(s, key, value, environment, newId) ::
              && AfterGet(s', key, environment, true).0 == Some(s.cache[CacheKey(key, environment)])
              && Lookup(s'.records, key, environment) == Some(value)
  {
    SetLookup(s, key, value, environment, newId, false, key, environment);
  }

  /** The first write and a cached read, and then a second write whose invalidation does not happen. */
  function StaleRun(e: string, second: Op): seq<Op> {
    [SetOp("", "1", e, "id", true), GetOp("", e, true)] + [second]
  }

  predicate KeepsStale(second: Op, e: string) {
    second == SetOp("", "2", e, "new", false) || second == HalfSetOp("", "2", e, "new")
  }

  lemma StaleRunIsStale(e: string, second: Op)
    requires KeepsStale(second, e)
    ensures var s := Run(EMPTY, StaleRun(e, second));
            AfterGet(s, "", e, true).0 == Some("1") && Lookup(s.records, "", e) == Some("2")
  {
    var s := WriteThenRead("", "1", e);
    assert HistoryOf(s.history, "new") == [];
    RunSnoc(EMPTY, [SetOp("", "1", e, "id", true), GetOp("", e, true)], second);
    LostInvalidationIsStale(s, "", "2", e, "new");
  }

  lemma StaleRunRefutes(t: Setting, e: string, second: Op)
    requires e in t.environments && KeepsStale(second, e) && Allows(t, second)
    ensures !ReadsAreFresh(t)
  {
    StaleRunIsStale(e, second);
    assert AllowsAll(t, StaleRun(e, second));
  }

  lemma {:induction false} RunSnoc(s: Store, ops: seq<Op>, op: Op)
    ensures Run(s, ops + [op]) == Step(Run(s, ops), op)
    decreases ops
  {
    if ops == [] {
      assert ([] + [op])[1..] == [];
    } else {
      assert (ops + [op])[1..] == ops[1..] + [op];
      RunSnoc(Step(s, ops[0]), ops[1..], op);
    }
  }

  lemma NestedReadsAreStale(t: Setting)
    requires Nested(t.environments)
    ensures !ReadsAreFresh(t)
  {
    var outer, inner :| outer in t.environments && inner in t.environments && outer + ":" <= inner;
    var key := inner[|outer| + 1..] + ":";
    NestedReadIsStale("1", outer, inner);
    var ops := [SetOp(key, "1", outer, "id", true), GetOp(key, outer, true)];
    assert AllowsAll(t, ops);
    assert AfterGet(Run(EMPTY, ops), "", inner, true).0 == Some("1");
  }

  /**
   Reads equal database reads, over all runs, exactly when no environment is nested in another, no invalidation can
   be lost and no write can stop before it.
   */
  lemma ReadsAreFreshIff(t: Setting)
    requires t.environments != {}
    ensures ReadsAreFresh(t) <==> !Nested(t.environments) && !t.lossy && !t.stops
  {
    var e :| e in t.environments;
    if t.lossy {
      StaleRunRefutes(t, e, SetOp("", "2", e, "new", false));
    } else if t.stops {
      StaleRunRefutes(t, e, HalfSetOp("", "2", e, "new"));
    } else if Nested(t.environments) {
      NestedReadsAreStale(t);
    } else {
      KeysDistinctIffNotNested(t.environments);
      forall ops: seq<Op>, key, e, up | AllowsAll(t, ops) && e in t.environments
        ensures AfterGet(Run(EMPTY, ops), key, e, up).0 == Lookup(Run(EMPTY, ops).records, key, e)
      {
        RunCoherent(EMPTY, ops, t);
      }
    }
  }

  /** A first write that stops, and a second one. */
  function StoppedRun(key: string, first: string, second: string, e: string, id: string, newId: string): seq<Op> {
    [HalfSetOp(key, first, e, id), SetOp(key, second, e, newId, true)]
  }

  /** Version one has no history row. */
  lemma StoppedWriteHasNoRow(key: string, first: string, second: string, e: string, id: string, newId: string)
    requires id != newId
    ensures var s := Run(EMPTY, StoppedRun(key, first, second, e, id, newId)); CanRollBack(s, id, 1) && RowFor(s, id, 1) == None
  {
    RunTwo(EMPTY, HalfSetOp(key, first, e, id), SetOp(key, second, e, newId, true));
    assert !Stored(EMPTY.records, key, e);
    var s1 := Store(map[id := Record(key, first, e, 1)], [], map[]);
    assert Step(EMPTY, HalfSetOp(key, first, e, id)) == s1;
    SecondWriteRow(s1, key, first, second, e, id, newId);
  }

  lemma SecondWriteRow(s: Store, key: string, first: string, second: string, e: string, id: string, newId: string)
    requires s == Store(map[id := Record(key, first, e, 1)], [], map[]) && id != newId
    ensures var s' := Step(s, SetOp(key, second, e, newId, true)); CanRollBack(s', id, 1) && RowFor(s', id, 1) == None
  {
    LookupIs(s.records, id);
    assert HistoryOf(s.history, id) == [] && IdUnused(s, newId);
    SetHistory(s, key, second, e, newId, true);
    var s' := Step(s, SetOp(key, second, e, newId, true));
    assert HistoryOf(s'.history, id) == [HistoryRow(id, key, second, e, 2)];
    RowInFrom(HistoryOf(s'.history, id), 2, 1);
  }

  /** The history row of a version is always found, over all runs, exactly when no write can stop before it. */
  lemma RollbackAlwaysFindsIff(t: Setting)
    requires t.environments != {}
    ensures RollbackAlwaysFinds(t) <==> !t.stops
  {
    if t.stops {
      var e :| e in t.environments;
      StoppedWriteHasNoRow("", "", "", e, "", "new");
      assert AllowsAll(t, StoppedRun("", "", "", e, "", "new"));
    } else {
      forall ops: seq<Op>, id, version | AllowsAll(t, ops) && CanRollBack(Run(EMPTY, ops), id, version)
        ensures RowFor(Run(EMPTY, ops), id, version).Some?
      {
        assert forall i | 0 <= i < |ops| :: Allows(t, ops[i]) && !Stops(ops[i]);
        RunDocuments(EMPTY, ops);
        assert Documented(Run(EMPTY, ops), id);
        RowInFrom(HistoryOf(Run(EMPTY, ops).history, id), 1, version);
      }
    }
  }

  // ---------- The service ----------

  class ConfigurationService {
    var records: map<string, Record>
    var history: seq<HistoryRow>
    var cache: map<string, string>

    constructor ()
      ensures State() == EMPTY
    {
      records, history, cache := map[], [], map[];
    }

    ghost function State(): Store
      reads this
    {
      Store(records, history, cache)
    }

    /** `findOne({ where: { key, environment } })` */
    method FindByKey(key: string, environment: string) returns (found: Option<string>)
      requires Unique(records)
      ensures found == if Stored(records, key, environment) then Some(IdOf(records, key, environment)) else None
    {
      var rest := records.Keys;
      while rest != {}
        invariant forall id | id in records && id !in rest :: !Matches(records[id], key, environment)
        decreases |rest|
      {
        var id :| id in rest;
        if id in records && records[id].key == key && records[id].environment == environment {
          LookupIs(records, id);
          return Some(id);
        }
        rest := rest - {id};
      }
      found := None;
    }

    /** `findOne({ where: { configurationId, version } })` */
    method FindVersion(id: string, version: int) returns (found: Option<HistoryRow>)
      ensures found == RowIn(HistoryOf(history, id), version)
      ensures Inv(State()) && id in records ==> (found.Some? <==> 1 <= version <= records[id].version)
    {
      var rows := history;
      if Inv(State()) && id in records {
        assert Documented(State(), id);
        RowInFrom(HistoryOf(history, id), 1, version);
      }
      for i := 0 to |rows|
        invariant RowIn(HistoryOf(rows[..i], id), version) == None
      {
        NextRow(rows, i, id, version);
        if rows[i].configurationId == id && rows[i].version == version {
          return Some(rows[i]);
        }
      }
      assert rows[..|rows|] == rows;
      found := None;
    }

    method Get(key: string, environment: string, up: bool) returns (value: Option<string>)
      requires Unique(records)
      modifies this`cache
      ensures (value, State()) == AfterGet(old(State()), key, environment, up)
    {
      var cacheKey := CacheKey(key, environment);
      if up && cacheKey in cache {
        return Some(cache[cacheKey]);
      }
      var found := FindByKey(key, environment);
      if found.None? {
        return None;
      }
      if up {
        cache := cache[cacheKey := records[found.value].value];
      }
      value := Some(records[found.value].value);
    }

    /** `del` while Redis is away does nothing and says so to nobody. */
    method InvalidateCache(key: string, environment: string, works: bool)
      modifies this`cache
      ensures cache == Invalidated(old(cache), key, environment, works)
    {
      if works {
        cache := cache - {CacheKey(key, environment)};
      }
    }

    /** The record, and then its history row unless the write stops before it. */
    method SaveVersion(id: string, r: Record, stops: bool)
      modifies this`records, this`history
      ensures records == old(records)[id := r]
      ensures history == if stops then old(history) else old(history) + [HistoryRow(id, r.key, r.value, r.environment, r.version)]
    {
      records := records[id := r];
      if !stops {
        history := history + [HistoryRow(id, r.key, r.value, r.environment, r.version)];
      }
    }

    method SaveNext(key: string, value: string, environment: string, newId: string, stops: bool)
      requires Unique(records) && newId !in records
      modifies this`records, this`history
      ensures var after := AfterSet(old(State()), key, value, environment, newId, false);
              records == after.records && history == if stops then old(history) else after.history
    {
      var existing := FindByKey(key, environment);
      if existing.Some? {
        SaveVersion(existing.value, Record(key, value, environment, records[existing.value].version + 1), stops);
      } else {
        SaveVersion(newId, Record(key, value, environment, 1), stops);
      }
    }

    method Set(key: string, value: string, environment: string, newId: string, stops: bool, works: bool)
      returns (res: Result<(), Error>)
      requires Unique(records) && IdUnused(State(), newId)
      modifies this
      ensures Unique(records) && res == if stops then Failure(Unavailable) else Success(())
      ensures State() == if stops then HalfSet(old(State()), key, value, environment, newId)
                         else AfterSet(old(State()), key, value, environment, newId, works)
      ensures old(Inv(State())) && !stops ==> Inv(State())
    {
      SetKeeps(State(), key, value, environment, newId, works);
      SaveNext(key, value, environment, newId, stops);
      if stops {
        return Failure(Unavailable);
      }
      InvalidateCache(key, environment, works);
      res := Success(());
    }

    method Delete(id: string, works: bool) returns (res: Result<(), Error>)
      requires Unique(records)
      modifies this
      ensures Unique(records) && State() == AfterDelete(old(State()), id, works)
      ensures old(Inv(State())) ==> Inv(State())
      ensures res == if id in old(records) then Success(()) else Failure(NotFound)
    {
      if Inv(State()) {
        DeleteInv(State(), id, works);
      }
      if id !in records {
        return Failure(NotFound);
      }
      var r := records[id];
      records := records - {id};
      InvalidateCache(r.key, r.environment, works);
      res := Success(());
    }

    /** The "history record not found" error is the second `NotFound`. */
    method Rollback(id: string, targetVersion: int, newId: string, stops: bool, works: bool) returns (res: Result<(), Error>)
      requires Unique(records) && IdUnused(State(), newId)
      modifies this
      ensures Unique(records) && (old(Inv(State())) && !stops ==> Inv(State()))
      ensures State() == if stops then HalfRollback(old(State()), id, targetVersion, newId)
                         else AfterRollback(old(State()), id, targetVersion, newId, works)
      ensures res == if id !in old(records) then Failure(NotFound)
                     else if targetVersion < 1 || targetVersion >= old(records)[id].version then Failure(InvalidTarget)
                     else if RowFor(old(State()), id, targetVersion).None? then Failure(NotFound)
                     else if stops then Failure(Unavailable) else Success(())
    {
      if id !in records {
        return Failure(NotFound);
      }
      if targetVersion >= records[id].version || targetVersion < 1 {
        return Failure(InvalidTarget);
      }
      var row := FindVersion(id, targetVersion);
      if row.None? {
        return Failure(NotFound);
      }
      res := this.Set(records[id].key, row.value.value, records[id].environment, newId, stops, works);
    }
  }

  /** One more row of the table adds it to the history of its record. */
  lemma NextRow(history: seq<HistoryRow>, i: nat, id: string, version: int)
    requires i < |history| && RowIn(HistoryOf(history[..i], id), version) == None
    ensures RowIn(HistoryOf(history[..i + 1], id), version) ==
            if history[i].configurationId == id && history[i].version == version then Some(history[i]) else None
    ensures RowIn(HistoryOf(history[..i + 1], id), version).Some? ==>
              RowIn(HistoryOf(history, id), version) == RowIn(HistoryOf(history[..i + 1], id), version)
  {
    assert history[..i + 1] == history[..i] + [history[i]];
    HistoryOfAppend(history[..i], history[i], id);
    var own := if history[i].configurationId == id then [history[i]] else [];
    RowInAppend(HistoryOf(history[..i], id), own, version);
    assert own != [] ==> own[1..] == [];
    PrefixHistory(history, i + 1, id);
    var all, part := HistoryOf(history, id), HistoryOf(history[..i + 1], id);
    assert all == part + all[|part|..];
    RowInAppend(part, all[|part|..], version);
  }

  lemma {:induction false} PrefixHistory(history: seq<HistoryRow>, n: nat, id: string)
    requires n <= |history|
    ensures HistoryOf(history[..n], id) <= HistoryOf(history, id)
    decreases |history| - n
  {
    if n == |history| {
      assert history[..n] == history;
    } else {
      assert history[..n + 1] == history[..n] + [history[n]];
      HistoryOfAppend(history[..n], history[n], id);
      PrefixHistory(history, n + 1, id);
    }
  }
}
