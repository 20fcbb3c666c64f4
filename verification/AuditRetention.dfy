/**
 The audit retention lifecycle: rows are inserted into a live table, moved to an archive by
 audit.archive_old_logs, and deleted from it by audit.purge_archives; the statistics view
 groups the live logs. Logs and trail rows go through the same life.
 */
module AuditRetention {
  import opened Wrappers

  type Uuid = nat

  /** Seconds in one day of a UTC session. */
  const DAY := 86400

  /** A live row; `at` is created_at of a log and changed_at of a trail row. */
  datatype Row<T> = Row(data: T, at: int)

  datatype Stored<T> = Stored(row: Row<T>, archivedAt: int)

  /**
   `inserted`, `purged` and `lost` are history: everything ever inserted, the ids purged so far,
   and the ids that an archive call deleted without having archived them.
   */
  datatype Table<T> = Table(
    live: map<Uuid, Row<T>>,
    archive: map<Uuid, Stored<T>>,
    inserted: map<Uuid, Row<T>>,
    purged: set<Uuid>,
    lost: set<Uuid>)

  datatype LogData = LogData(
    userId: Option<Uuid>, serviceName: string, action: string, resourceType: string, status: string, rest: string)

  datatype TrailData = TrailData(entityType: string, entityId: string, version: int, rest: string)

  datatype StatKey = StatKey(
    date: int, serviceName: string, action: string, resourceType: string, status: string)

  datatype StatRow = StatRow(count: nat, uniqueUsers: nat)

  // ---------------------------------------------------------------- statistics view

  function KeyOf(row: Row<LogData>): StatKey {
    StatKey(row.at / DAY, row.data.serviceName, row.data.action, row.data.resourceType, row.data.status)
  }

  function Group(logs: map<Uuid, Row<LogData>>, key: StatKey): set<Uuid> {
    set id | id in logs && KeyOf(logs[id]) == key
  }

  /** COUNT(DISTINCT user_id) skips NULL. */
  function Users(logs: map<Uuid, Row<LogData>>, ids: set<Uuid>): set<Uuid>
    requires ids <= logs.Keys
  {
    set id | id in ids && logs[id].data.userId.Some? :: logs[id].data.userId.value
  }

  function StatsOf(logs: map<Uuid, Row<LogData>>): map<StatKey, StatRow> {
    map key | key in Keys(logs) ::
      StatRow(|Group(logs, key)|, |Users(logs, Group(logs, key))|)
  }

  // ---------------------------------------------------------------- one table

  function Expired<T>(live: map<Uuid, Row<T>>, cutoff: int): set<Uuid> {
    set id | id in live && live[id].at < cutoff
  }

  function Stale<T>(archive: map<Uuid, Stored<T>>, cutoff: int): set<Uuid> {
    set id | id in archive && archive[id].archivedAt < cutoff
  }

  function Moved<T>(live: map<Uuid, Row<T>>, ids: set<Uuid>, now: int): map<Uuid, Stored<T>>
    requires ids <= live.Keys
  {
    map id | id in ids :: Stored(live[id], now)
  }

  /** Other sessions commit fresh rows. */
  function InsertRows<T>(t: Table<T>, rows: map<Uuid, Row<T>>): Table<T> {
    t.(live := t.live + rows, inserted := t.inserted + rows)
  }

  function DeleteExpired<T>(t: Table<T>, cutoff: int): Table<T> {
    var out := Expired(t.live, cutoff);
    t.(live := t.live - out, lost := t.lost + (out - t.archive.Keys))
  }

  /** INSERT ... SELECT followed by DELETE; the rows `late` are committed between the two statements. */
  function ArchiveTable<T>(t: Table<T>, late: map<Uuid, Row<T>>, cutoff: int, now: int): Table<T> {
    var copied := t.(archive := t.archive + Moved(t.live, Expired(t.live, cutoff), now));
    DeleteExpired(InsertRows(copied, late), cutoff)
  }

  /** The INSERT would violate the primary key of the archive. */
  predicate Collides<T>(t: Table<T>, cutoff: int) {
    exists id <- Expired(t.live, cutoff) :: id in t.archive
  }

  function PurgeTable<T>(t: Table<T>, cutoff: int): Table<T> {
    t.(archive := t.archive - Stale(t.archive, cutoff), purged := t.purged + Stale(t.archive, cutoff))
  }

  function InsertRow<T>(t: Table<T>, id: Uuid, row: Row<T>): Table<T> {
    t.(live := t.live[id := row], inserted := t.inserted[id := row])
  }

  // ---------------------------------------------------------------- the database

  datatype State = State(now: int, logs: Table<LogData>, trail: Table<TrailData>, stats: map<StatKey, StatRow>)

  datatype Step =
    | Tick(seconds: nat)
    | InsertLog(id: Uuid, log: Row<LogData>)
    | InsertTrail(id: Uuid, entry: Row<TrailData>)
    | Archive(days: int, lateLogs: map<Uuid, Row<LogData>>, lateTrail: map<Uuid, Row<TrailData>>)
    | Purge(days: int)
    | Refresh

  /** Ids are fresh UUIDs; everything else is always possible. */
  predicate Enabled(s: State, step: Step) {
    && (step.InsertLog? ==> step.id !in s.logs.inserted)
    && (step.InsertTrail? ==> step.id !in s.trail.inserted)
    && (step.Archive? ==>
          step.lateLogs.Keys !! s.logs.inserted.Keys && step.lateTrail.Keys !! s.trail.inserted.Keys)
  }

  function Cutoff(now: int, days: int): int {
    now - days * DAY
  }

  predicate ArchiveFails(s: State, days: int) {
    Collides(s.logs, Cutoff(s.now, days)) || Collides(s.trail, Cutoff(s.now, days))
  }

  function AfterArchive(
    s: State, lateLogs: map<Uuid, Row<LogData>>, lateTrail: map<Uuid, Row<TrailData>>, cutoff: int): State
  {
    var logs := ArchiveTable(s.logs, lateLogs, cutoff, s.now);
    State(s.now, logs, ArchiveTable(s.trail, lateTrail, cutoff, s.now), StatsOf(logs.live))
  }

  function Next(s: State, step: Step): State {
    match step
    case Tick(n) => s.(now := s.now + n)
    case InsertLog(id, log) => s.(logs := InsertRow(s.logs, id, log))
    case InsertTrail(id, entry) => s.(trail := InsertRow(s.trail, id, entry))
    case Archive(days, lateLogs, lateTrail) =>
      if ArchiveFails(s, days)
      then s.(logs := InsertRows(s.logs, lateLogs), trail := InsertRows(s.trail, lateTrail))
      else AfterArchive(s, lateLogs, lateTrail, Cutoff(s.now, days))
    case Purge(days) =>
      s.(logs := PurgeTable(s.logs, Cutoff(s.now, days)), trail := PurgeTable(s.trail, Cutoff(s.now, days)))
    case Refresh => s.(stats := StatsOf(s.logs.live))
  }

  lemma MovedOneMore<T>(live: map<Uuid, Row<T>>, archive: map<Uuid, Stored<T>>, ids: set<Uuid>, id: Uuid, now: int)
    requires ids <= live.Keys && id in live
    ensures archive + Moved(live, ids + {id}, now) == (archive + Moved(live, ids, now))[id := Stored(live[id], now)]
  {
  }

  method InsertSelect<T>(t: Table<T>, cutoff: int, now: int)
    returns (failed: bool, archive: map<Uuid, Stored<T>>, rowCount: nat)
    ensures failed <==> Collides(t, cutoff)
    ensures !failed ==> archive == t.archive + Moved(t.live, Expired(t.live, cutoff), now)
    ensures !failed ==> rowCount == |Expired(t.live, cutoff)|
  {
    archive, rowCount := t.archive, 0;
    failed := Collides(t, cutoff);
    if !failed {
      archive, rowCount := InsertMoved(t.live, t.archive, Expired(t.live, cutoff), now);
    }
  }

  method InsertMoved<T>(live: map<Uuid, Row<T>>, before: map<Uuid, Stored<T>>, ids: set<Uuid>, now: int)
    returns (archive: map<Uuid, Stored<T>>, rowCount: nat)
    requires ids <= live.Keys
    ensures archive == before + Moved(live, ids, now) && rowCount == |ids|
  {
    archive, rowCount := before, 0;
    var rest := ids;
    while rest != {}
      invariant rest <= ids && rowCount == |ids| - |rest|
      invariant archive == before + Moved(live, ids - rest, now)
      decreases rest
    {
      var id :| id in rest;
      MovedOneMore(live, before, ids - rest, id, now);
      assert ids - (rest - {id}) == ids - rest + {id};
      archive := archive[id := Stored(live[id], now)];
      rowCount := rowCount + 1;
      rest := rest - {id};
    }
    assert ids - rest == ids;
  }

  method DeleteOlder<T>(live: map<Uuid, Row<T>>, cutoff: int) returns (result: map<Uuid, Row<T>>)
    ensures result == live - Expired(live, cutoff)
  {
    result := live;
    var rest := live.Keys;
    while rest != {}
      invariant rest <= live.Keys
      invariant result == live - (set id | id in Expired(live, cutoff) && id !in rest)
      decreases rest
    {
      var id :| id in rest;
      if live[id].at < cutoff {
        result := result - {id};
      }
      rest := rest - {id};
    }
  }

  method DeleteStale<T>(archive: map<Uuid, Stored<T>>, cutoff: int)
    returns (result: map<Uuid, Stored<T>>, rowCount: nat)
    ensures result == archive - Stale(archive, cutoff) && rowCount == |Stale(archive, cutoff)|
  {
    result, rowCount := archive, 0;
    var rest := archive.Keys;
    ghost var done: set<Uuid> := {};
    while rest != {}
      invariant rest <= archive.Keys
      invariant done == set id | id in Stale(archive, cutoff) && id !in rest
      invariant result == archive - done && rowCount == |done|
      decreases rest
    {
      var id :| id in rest;
      if archive[id].archivedAt < cutoff {
        result := result - {id};
        rowCount := rowCount + 1;
        done := done + {id};
      }
      rest := rest - {id};
    }
    assert done == Stale(archive, cutoff);
  }

  function Keys(logs: map<Uuid, Row<LogData>>): set<StatKey> {
    set id | id in logs :: KeyOf(logs[id])
  }

  /** The GROUP BY of the view as one pass that collects the rows of each group. */
  method GroupRows(logs: map<Uuid, Row<LogData>>) returns (groups: map<StatKey, set<Uuid>>)
    ensures groups.Keys == Keys(logs) && forall key <- groups :: groups[key] == Group(logs, key)
  {
    groups := map[];
    var rest := logs.Keys;
    while rest != {}
      invariant rest <= logs.Keys
      invariant forall id <- logs.Keys - rest :: KeyOf(logs[id]) in groups
      invariant forall key <- groups :: key in Keys(logs) && groups[key] == Group(logs, key) - rest
      decreases rest
    {
      var id :| id in rest;
      var key := KeyOf(logs[id]);
      groups := groups[key := (if key in groups then groups[key] else {}) + {id}];
      rest := rest - {id};
    }
  }

  method ComputeStats(logs: map<Uuid, Row<LogData>>) returns (stats: map<StatKey, StatRow>)
    ensures stats == StatsOf(logs)
  {
    var groups := GroupRows(logs);
    stats := map key | key in groups.Keys :: StatRow(|groups[key]|, |Users(logs, groups[key])|);
  }

  /** The two statements for one table, with what other sessions commit between them. */
  method ArchiveRows<T>(t: Table<T>, late: map<Uuid, Row<T>>, cutoff: int, now: int)
    returns (failed: bool, t': Table<T>, rowCount: nat)
    ensures failed <==> Collides(t, cutoff)
    ensures t' == if failed then InsertRows(t, late) else ArchiveTable(t, late, cutoff, now)
    ensures !failed ==> rowCount == |Expired(t.live, cutoff)|
  {
    var archive;
    failed, archive, rowCount := InsertSelect(t, cutoff, now);
    t' := InsertRows(t, late);
    if !failed {
      var live := DeleteOlder(t'.live, cutoff);
      t' := t'.(live := live, archive := archive, lost := t'.lost + (Expired(t'.live, cutoff) - archive.Keys));
    }
  }

  method PurgeRows<T>(t: Table<T>, cutoff: int) returns (t': Table<T>, rowCount: nat)
    ensures t' == PurgeTable(t, cutoff) && rowCount == |Stale(t.archive, cutoff)|
  {
    var archive;
    archive, rowCount := DeleteStale(t.archive, cutoff);
    t' := t.(archive := archive, purged := t.purged + Stale(t.archive, cutoff));
  }

  class AuditDatabase {
    var db: State

    constructor (now: int)
      ensures Initial(db) && db.now == now
    {
      db := State(now, Table(map[], map[], map[], {}, {}), Table(map[], map[], map[], {}, {}), map[]);
    }

    /** audit.archive_old_logs; a primary-key violation rolls the whole call back. */
    method ArchiveOldLogs(
      retentionDays: int, lateLogs: map<Uuid, Row<LogData>>, lateTrail: map<Uuid, Row<TrailData>>)
      returns (archivedCount: Option<nat>)
      modifies this
      ensures db == Next(old(db), Archive(retentionDays, lateLogs, lateTrail))
      ensures archivedCount ==
              if ArchiveFails(old(db), retentionDays) then None
              else Some(|Expired(old(db).logs.live, Cutoff(old(db).now, retentionDays))|)
      ensures archivedCount.Some? ==> archivedCount.value == |db.logs.archive| - |old(db).logs.archive|
    {
      var cutoff := Cutoff(db.now, retentionDays);
      var logsFailed, logs, rowCount := ArchiveRows(db.logs, lateLogs, cutoff, db.now);
      ArchiveGain(db.logs, lateLogs, cutoff, db.now);
      var trailFailed, trail, _ := ArchiveRows(db.trail, lateTrail, cutoff, db.now);
      if logsFailed || trailFailed {
        db := db.(logs := InsertRows(db.logs, lateLogs), trail := InsertRows(db.trail, lateTrail));
        return None;
      }
      var stats := ComputeStats(logs.live);
      db := db.(logs := logs, trail := trail, stats := stats);
      archivedCount := Some(rowCount);
    }

    /** The six-hourly REFRESH MATERIALIZED VIEW. */
    method RefreshDailyStats()
      modifies this
      ensures db == Next(old(db), Refresh)
    {
      var stats := ComputeStats(db.logs.live);
      db := db.(stats := stats);
    }

    /** audit.purge_archives; only log rows are counted. */
    method PurgeArchives(archiveRetentionDays: int) returns (purgedCount: nat)
      modifies this
      ensures db == Next(old(db), Purge(archiveRetentionDays))
      ensures purgedCount == |Stale(old(db).logs.archive, Cutoff(old(db).now, archiveRetentionDays))|
      ensures purgedCount == |old(db).logs.archive| - |db.logs.archive|
      ensures PurgedBelow(old(db).logs, db.logs, old(db).now - archiveRetentionDays * 86400)
      ensures PurgedBelow(old(db).trail, db.trail, old(db).now - archiveRetentionDays * 86400)
    {
      var cutoff := Cutoff(db.now, archiveRetentionDays);
      var logs, rowCount := PurgeRows(db.logs, cutoff);
      PurgeCount(db.logs, cutoff);
      var trail, _ := PurgeRows(db.trail, cutoff);
      db := db.(logs := logs, trail := trail);
      purgedCount := rowCount;
    }
  }

  ghost predicate Initial(s: State) {
    s.logs == Table(map[], map[], map[], {}, {}) && s.trail == Table(map[], map[], map[], {}, {}) && s.stats == map[]
  }

  // ---------------------------------------------------------------- conservation over all runs

  ghost predicate Execution(states: seq<State>, steps: seq<Step>) {
    && |states| == |steps| + 1 && Initial(states[0])
    && forall i :: 0 <= i < |steps| ==> Enabled(states[i], steps[i]) && states[i + 1] == Next(states[i], steps[i])
  }

  /** Live, archived, purged and lost ids are disjoint, make up everything inserted, and rows keep their content. */
  ghost predicate Conserved<T>(t: Table<T>) {
    && t.live.Keys !! t.archive.Keys && t.live.Keys !! t.purged && t.archive.Keys !! t.purged
    && t.lost !! t.live.Keys && t.lost !! t.archive.Keys && t.lost !! t.purged
    && t.live.Keys + t.archive.Keys + t.purged + t.lost == t.inserted.Keys
    && (forall id <- t.live :: t.live[id] == t.inserted[id])
    && (forall id <- t.archive :: t.archive[id].row == t.inserted[id])
  }

  function MoveExpired<T>(t: Table<T>, cutoff: int, now: int): Table<T> {
    var out := Expired(t.live, cutoff);
    t.(live := t.live - out, archive := t.archive + Moved(t.live, out, now))
  }

  /** Of the late rows, those below the cutoff are deleted unseen. */
  function AddLate<T>(t: Table<T>, late: map<Uuid, Row<T>>, cutoff: int): Table<T> {
    var gone := Expired(late, cutoff);
    t.(live := t.live + (late - gone), inserted := t.inserted + late, lost := t.lost + gone)
  }

  lemma ArchiveParts<T>(t: Table<T>, late: map<Uuid, Row<T>>, cutoff: int, now: int)
    requires Conserved(t) && late.Keys !! t.inserted.Keys
    ensures ArchiveTable(t, late, cutoff, now) == AddLate(MoveExpired(t, cutoff, now), late, cutoff)
  {
    var out, gone := Expired(t.live, cutoff), Expired(late, cutoff);
    var all := t.live + late;
    assert Expired(all, cutoff) == out + gone;
    assert all - (out + gone) == (t.live - out) + (late - gone);
    assert (t.archive + Moved(t.live, out, now)).Keys == t.archive.Keys + out;
    assert (out + gone) - (t.archive.Keys + out) == gone;
  }

  lemma MoveConserves<T>(t: Table<T>, cutoff: int, now: int)
    requires Conserved(t)
    ensures !Collides(t, cutoff) && Conserved(MoveExpired(t, cutoff, now))
  {
    var t', out := MoveExpired(t, cutoff, now), Expired(t.live, cutoff);
    assert t'.archive.Keys == t.archive.Keys + out;
    assert t'.live.Keys == t.live.Keys - out;
    assert forall id <- out :: t'.archive[id].row == t.live[id];
  }

  lemma AddLateConserves<T>(t: Table<T>, late: map<Uuid, Row<T>>, cutoff: int)
    requires Conserved(t) && late.Keys !! t.inserted.Keys
    ensures Conserved(AddLate(t, late, cutoff))
  {
    var t', gone := AddLate(t, late, cutoff), Expired(late, cutoff);
    assert t'.live.Keys == t.live.Keys + (late.Keys - gone);
    assert t'.inserted.Keys == t.inserted.Keys + late.Keys;
  }

  lemma ArchiveConserves<T>(t: Table<T>, late: map<Uuid, Row<T>>, cutoff: int, now: int)
    requires Conserved(t) && late.Keys !! t.inserted.Keys
    ensures !Collides(t, cutoff) && Conserved(ArchiveTable(t, late, cutoff, now))
    ensures ArchiveTable(t, late, cutoff, now).lost == t.lost + Expired(late, cutoff)
  {
    ArchiveParts(t, late, cutoff, now);
    MoveConserves(t, cutoff, now);
    AddLateConserves(MoveExpired(t, cutoff, now), late, cutoff);
  }

  lemma PurgeConserves<T>(t: Table<T>, cutoff: int)
    requires Conserved(t)
    ensures Conserved(PurgeTable(t, cutoff))
  {
    assert PurgeTable(t, cutoff).archive.Keys == t.archive.Keys - Stale(t.archive, cutoff);
  }

  lemma InsertConserves<T>(t: Table<T>, id: Uuid, row: Row<T>)
    requires Conserved(t) && id !in t.inserted
    ensures Conserved(InsertRow(t, id, row))
  {
    assert InsertRow(t, id, row).live.Keys == t.live.Keys + {id};
    assert InsertRow(t, id, row).inserted.Keys == t.inserted.Keys + {id};
  }

  /** The step is an archive call between whose statements another session commits a row below the cutoff. */
  predicate LosesLog(s: State, step: Step, id: Uuid) {
    step.Archive? && id in step.lateLogs && step.lateLogs[id].at < Cutoff(s.now, step.days)
  }

  predicate LosesTrail(s: State, step: Step, id: Uuid) {
    step.Archive? && id in step.lateTrail && step.lateTrail[id].at < Cutoff(s.now, step.days)
  }

  lemma StepConserves(s: State, step: Step)
    requires Conserved(s.logs) && Conserved(s.trail) && Enabled(s, step)
    ensures Conserved(Next(s, step).logs) && Conserved(Next(s, step).trail)
    ensures step.Archive? ==> !ArchiveFails(s, step.days)
    ensures forall id :: id in Next(s, step).logs.lost <==> id in s.logs.lost || LosesLog(s, step, id)
    ensures forall id :: id in Next(s, step).trail.lost <==> id in s.trail.lost || LosesTrail(s, step, id)
  {
    match step
    case InsertLog(id, log) => InsertConserves(s.logs, id, log);
    case InsertTrail(id, entry) => InsertConserves(s.trail, id, entry);
    case Archive(days, lateLogs, lateTrail) =>
      ArchiveConserves(s.logs, lateLogs, Cutoff(s.now, days), s.now);
      ArchiveConserves(s.trail, lateTrail, Cutoff(s.now, days), s.now);
    case Purge(days) =>
      PurgeConserves(s.logs, Cutoff(s.now, days));
      PurgeConserves(s.trail, Cutoff(s.now, days));
    case _ =>
  }

  /** Conservation in every reachable state; hence no archive call ever hits the archive's primary key. */
  lemma {:induction false} AuditRecordsConserved(states: seq<State>, steps: seq<Step>, n: nat)
    requires Execution(states, steps) && n < |states|
    ensures Conserved(states[n].logs) && Conserved(states[n].trail)
    ensures forall days :: !ArchiveFails(states[n], days)
  {
    if n > 0 {
      AuditRecordsConserved(states, steps, n - 1);
      StepConserves(states[n - 1], steps[n - 1]);
    }
    forall days ensures !ArchiveFails(states[n], days) {
      StepConserves(states[n], Archive(days, map[], map[]));
    }
  }

  lemma LostStep(states: seq<State>, steps: seq<Step>, n: nat, id: Uuid)
    requires Execution(states, steps) && n < |steps|
    ensures id in states[n + 1].logs.lost <==> id in states[n].logs.lost || LosesLog(states[n], steps[n], id)
    ensures id in states[n + 1].trail.lost <==> id in states[n].trail.lost || LosesTrail(states[n], steps[n], id)
  {
    AuditRecordsConserved(states, steps, n);
    StepConserves(states[n], steps[n]);
  }

  /** Exactly the rows below the cutoff that were committed between the two statements of an archive call are lost. */
  lemma {:induction false} LostIff(states: seq<State>, steps: seq<Step>, n: nat, id: Uuid)
    requires Execution(states, steps) && n < |states|
    ensures id in states[n].logs.lost <==> exists m :: 0 <= m < n && LosesLog(states[m], steps[m], id)
    ensures id in states[n].trail.lost <==> exists m :: 0 <= m < n && LosesTrail(states[m], steps[m], id)
  {
    if n > 0 {
      LostIff(states, steps, n - 1, id);
      LostStep(states, steps, n - 1, id);
    }
  }

  /** For example, a back-dated log that is committed in that gap is gone from every table. */
  lemma BackDatedLogLost(s: State, id: Uuid, log: Row<LogData>, days: int)
    requires Initial(s) && log.at < Cutoff(s.now, days)
    ensures var step := Archive(days, map[id := log], map[]);
            var s' := Next(s, step);
            && Execution([s, s'], [step]) && id in s'.logs.inserted
            && id !in s'.logs.live && id !in s'.logs.archive && id !in s'.logs.purged
  {
    var step := Archive(days, map[id := log], map[]);
    AuditRecordsConserved([s], [], 0);
    StepConserves(s, step);
    assert LosesLog(s, step, id);
  }

  lemma RemoveSize<K, V>(m: map<K, V>, s: set<K>)
    requires s <= m.Keys
    ensures |m - s| == |m| - |s|
  {
    assert (m - s).Keys + s == m.Keys;
  }

  lemma MergeSize<K, V>(m: map<K, V>, n: map<K, V>)
    requires m.Keys !! n.Keys
    ensures |m + n| == |m| + |n|
  {
    assert (m + n).Keys == m.Keys + n.Keys;
  }

  lemma MoveCount<T>(t: Table<T>, cutoff: int, now: int)
    requires t.live.Keys !! t.archive.Keys
    ensures var t' := MoveExpired(t, cutoff, now);
            |Expired(t.live, cutoff)| == |t'.archive| - |t.archive| == |t.live| - |t'.live|
  {
    var moved := Moved(t.live, Expired(t.live, cutoff), now);
    RemoveSize(t.live, Expired(t.live, cutoff));
    assert moved.Keys == Expired(t.live, cutoff);
    MergeSize(t.archive, moved);
  }

  lemma AddLateCount<T>(t: Table<T>, late: map<Uuid, Row<T>>, cutoff: int)
    requires t.live.Keys !! late.Keys
    ensures |AddLate(t, late, cutoff).live| == |t.live| + |late| - |Expired(late, cutoff)|
  {
    RemoveSize(late, Expired(late, cutoff));
    MergeSize(t.live, late - Expired(late, cutoff));
  }

  /** The returned count is the gain of the archive, and the loss of the live table but for late rows. */
  lemma ArchiveCount<T>(t: Table<T>, late: map<Uuid, Row<T>>, cutoff: int, now: int)
    requires Conserved(t) && late.Keys !! t.inserted.Keys
    ensures var t' := ArchiveTable(t, late, cutoff, now);
            && |Expired(t.live, cutoff)| == |t'.archive| - |t.archive|
            && |Expired(t.live, cutoff)| == |t.live| + |late| - |t'.live| - |Expired(late, cutoff)|
  {
    ArchiveParts(t, late, cutoff, now);
    MoveCount(t, cutoff, now);
    AddLateCount(MoveExpired(t, cutoff, now), late, cutoff);
  }

  lemma ArchiveGain<T>(t: Table<T>, late: map<Uuid, Row<T>>, cutoff: int, now: int)
    ensures !Collides(t, cutoff) ==>
              |ArchiveTable(t, late, cutoff, now).archive| == |t.archive| + |Expired(t.live, cutoff)|
  {
    if !Collides(t, cutoff) {
      var moved := Moved(t.live, Expired(t.live, cutoff), now);
      assert moved.Keys == Expired(t.live, cutoff);
      MergeSize(t.archive, moved);
    }
  }

  lemma PurgeCount<T>(t: Table<T>, cutoff: int)
    ensures |Stale(t.archive, cutoff)| == |t.archive| - |PurgeTable(t, cutoff).archive|
  {
    RemoveSize(t.archive, Stale(t.archive, cutoff));
  }

  // ---------------------------------------------------------------- retention times

  /** Every archive call keeps at least r days live, every purge at least a days archived. */
  ghost predicate Retaining(steps: seq<Step>, r: int, a: int) {
    forall i :: 0 <= i < |steps| ==>
      (steps[i].Archive? ==> steps[i].days >= r) && (steps[i].Purge? ==> steps[i].days >= a)
  }

  ghost predicate ArchivedLate<T>(t: Table<T>, r: int) {
    forall id <- t.archive :: t.archive[id].archivedAt > t.archive[id].row.at + r * DAY
  }

  lemma {:induction false} ArchivedLateAlways(states: seq<State>, steps: seq<Step>, n: nat, r: int, a: int)
    requires Execution(states, steps) && Retaining(steps, r, a) && n < |states|
    ensures ArchivedLate(states[n].logs, r) && ArchivedLate(states[n].trail, r)
  {
    if n > 0 {
      ArchivedLateAlways(states, steps, n - 1, r, a);
      if steps[n - 1].Archive? {
        DaysMonotone(r, steps[n - 1].days);
      }
    }
  }

  lemma DaysMonotone(r: int, days: int)
    requires r <= days
    ensures r * DAY <= days * DAY
  {
  }

  /** At time `now`, more than `days` days have passed since the record's creation. */
  ghost predicate OlderThan<T>(t: Table<T>, id: Uuid, now: int, days: int) {
    id in t.inserted && now > t.inserted[id].at + days * DAY
  }

  /**
   No record leaves the live table before created_at + R days, and none is purged before
   created_at + R + A days.
   */
  lemma RetentionTimes(states: seq<State>, steps: seq<Step>, n: nat, r: int, a: int, id: Uuid)
    requires Execution(states, steps) && Retaining(steps, r, a) && n < |steps|
    ensures id in states[n].logs.live && id !in states[n + 1].logs.live ==>
              OlderThan(states[n].logs, id, states[n].now, r)
    ensures id in states[n + 1].logs.purged && id !in states[n].logs.purged ==>
              OlderThan(states[n].logs, id, states[n].now, r + a)
    ensures id in states[n].trail.live && id !in states[n + 1].trail.live ==>
              OlderThan(states[n].trail, id, states[n].now, r)
    ensures id in states[n + 1].trail.purged && id !in states[n].trail.purged ==>
              OlderThan(states[n].trail, id, states[n].now, r + a)
  {
    AuditRecordsConserved(states, steps, n);
    ArchivedLateAlways(states, steps, n, r, a);
    if steps[n].Archive? {
      DaysMonotone(r, steps[n].days);
    } else if steps[n].Purge? {
      DaysMonotone(a, steps[n].days);
    }
  }

  // ---------------------------------------------------------------- both functions in terms of columns

  /** Archived rows older than `bound` are purged; nothing else changes. */
  ghost predicate PurgedBelow<T>(t: Table<T>, t': Table<T>, bound: int) {
    && (forall id :: id in t'.archive <==> id in t.archive && t.archive[id].archivedAt >= bound)
    && (forall id <- t'.archive :: t'.archive[id] == t.archive[id])
    && (forall id :: id in t'.purged <==> id in t.purged || (id in t.archive && t.archive[id].archivedAt < bound))
    && t'.live == t.live && t'.inserted == t.inserted && t'.lost == t.lost
  }

  /** Live rows older than `bound` are archived at `now`; of the late rows those older are lost. */
  ghost predicate ArchivedBelow<T>(t: Table<T>, t': Table<T>, late: map<Uuid, Row<T>>, bound: int, now: int) {
    && (forall id :: id in t'.live <==>
          (id in t.live && t.live[id].at >= bound) || (id in late && late[id].at >= bound))
    && (forall id <- t'.live :: t'.live[id] == if id in late then late[id] else t.live[id])
    && (forall id :: id in t'.archive <==> id in t.archive || (id in t.live && t.live[id].at < bound))
    && (forall id <- t'.archive ::
          t'.archive[id] == if id in t.archive then t.archive[id] else Stored(t.live[id], now))
    && (forall id :: id in t'.lost <==> id in t.lost || (id in late && late[id].at < bound))
    && t'.purged == t.purged && t'.inserted == t.inserted + late
  }

  lemma PurgeInColumns(s: State, days: int)
    ensures var s' := Next(s, Purge(days));
            && PurgedBelow(s.logs, s'.logs, s.now - days * 86400)
            && PurgedBelow(s.trail, s'.trail, s.now - days * 86400)
            && s'.now == s.now && s'.stats == s.stats
  {
  }

  lemma ArchiveTableInColumns<T>(t: Table<T>, late: map<Uuid, Row<T>>, bound: int, now: int)
    requires Conserved(t) && late.Keys !! t.inserted.Keys
    ensures ArchivedBelow(t, ArchiveTable(t, late, bound, now), late, bound, now)
  {
    ArchiveParts(t, late, bound, now);
  }

  /** In every reachable state: the call succeeds, and this is what it does. */
  lemma ArchiveInColumns(states: seq<State>, steps: seq<Step>, n: nat)
    requires Execution(states, steps) && n < |steps| && steps[n].Archive?
    ensures var s, s', bound := states[n], states[n + 1], states[n].now - steps[n].days * 86400;
            && ArchivedBelow(s.logs, s'.logs, steps[n].lateLogs, bound, s.now)
            && ArchivedBelow(s.trail, s'.trail, steps[n].lateTrail, bound, s.now)
            && s'.now == s.now && s'.stats == StatsOf(s'.logs.live)
  {
    AuditRecordsConserved(states, steps, n);
    var s, step, cutoff := states[n], steps[n], Cutoff(states[n].now, steps[n].days);
    assert states[n + 1] == AfterArchive(s, step.lateLogs, step.lateTrail, cutoff);
    ArchiveTableInColumns(s.logs, step.lateLogs, cutoff, s.now);
    ArchiveTableInColumns(s.trail, step.lateTrail, cutoff, s.now);
  }

  /** The row has left the live table for the archive at time `at`, and is there unless it is purged. */
  ghost predicate LeftFor<T>(t: Table<T>, id: Uuid, row: Row<T>, at: int, purged: bool) {
    && id in t.inserted && id !in t.live && id !in t.lost
    && (id in t.archive <==> !purged) && (id in t.archive ==> t.archive[id] == Stored(row, at))
    && (id in t.purged <==> purged)
  }

  /** Some purge between steps m and n finds a row that was archived at `at` older than its retention. */
  ghost predicate PurgeDue(states: seq<State>, steps: seq<Step>, m: nat, n: nat, at: int)
    requires n <= |steps| && n < |states|
  {
    exists i :: m < i < n && steps[i].Purge? && states[i].now > at + steps[i].days * 86400
  }

  lemma LeftForStep<T>(t: Table<T>, t': Table<T>, id: Uuid, row: Row<T>, at: int, purged: bool)
    requires LeftFor(t, id, row, at, purged)
    ensures forall bound :: PurgedBelow(t, t', bound) ==> LeftFor(t', id, row, at, purged || at < bound)
    ensures forall late, bound, now :: ArchivedBelow(t, t', late, bound, now) && id !in late ==>
              LeftFor(t', id, row, at, purged)
    ensures forall other, r :: t' == InsertRow(t, other, r) && other != id ==> LeftFor(t', id, row, at, purged)
  {
  }

  lemma LeftForLogs(states: seq<State>, steps: seq<Step>, m: nat, n: nat, id: Uuid, log: Row<LogData>, at: int)
    requires Execution(states, steps) && m < n < |steps|
    requires LeftFor(states[n].logs, id, log, at, PurgeDue(states, steps, m, n, at))
    ensures LeftFor(states[n + 1].logs, id, log, at, PurgeDue(states, steps, m, n + 1, at))
  {
    LeftForStep(states[n].logs, states[n + 1].logs, id, log, at, PurgeDue(states, steps, m, n, at));
    if steps[n].Purge? {
      PurgeInColumns(states[n], steps[n].days);
    } else if steps[n].Archive? {
      ArchiveInColumns(states, steps, n);
    }
  }

  lemma LeftForTrail(states: seq<State>, steps: seq<Step>, m: nat, n: nat, id: Uuid, entry: Row<TrailData>, at: int)
    requires Execution(states, steps) && m < n < |steps|
    requires LeftFor(states[n].trail, id, entry, at, PurgeDue(states, steps, m, n, at))
    ensures LeftFor(states[n + 1].trail, id, entry, at, PurgeDue(states, steps, m, n + 1, at))
  {
    LeftForStep(states[n].trail, states[n + 1].trail, id, entry, at, PurgeDue(states, steps, m, n, at));
    if steps[n].Purge? {
      PurgeInColumns(states[n], steps[n].days);
    } else if steps[n].Archive? {
      ArchiveInColumns(states, steps, n);
    }
  }

  /**
   The life of an archived row: a live row that an archive call finds older than its retention is
   in the archive from then on, unchanged and stamped with the time of the call, up to the first
   purge that finds that stamp older than its own retention; afterwards it is purged.
   */
  lemma {:induction false} ArchivedUntilPurgeDue(states: seq<State>, steps: seq<Step>, m: nat, n: nat, id: Uuid)
    requires Execution(states, steps) && m < n < |states| && steps[m].Archive?
    ensures var t, at := states[m].logs, states[m].now;
            id in t.live && t.live[id].at < at - steps[m].days * 86400 ==>
              LeftFor(states[n].logs, id, t.live[id], at, PurgeDue(states, steps, m, n, at))
    ensures var t, at := states[m].trail, states[m].now;
            id in t.live && t.live[id].at < at - steps[m].days * 86400 ==>
              LeftFor(states[n].trail, id, t.live[id], at, PurgeDue(states, steps, m, n, at))
    decreases n
  {
    var at := states[m].now;
    AuditRecordsConserved(states, steps, m);
    if n == m + 1 {
      ArchiveInColumns(states, steps, m);
      AuditRecordsConserved(states, steps, n);
    } else {
      ArchivedUntilPurgeDue(states, steps, m, n - 1, id);
      if id in states[m].logs.live && states[m].logs.live[id].at < at - steps[m].days * 86400 {
        LeftForLogs(states, steps, m, n - 1, id, states[m].logs.live[id], at);
      }
      if id in states[m].trail.live && states[m].trail.live[id].at < at - steps[m].days * 86400 {
        LeftForTrail(states, steps, m, n - 1, id, states[m].trail.live[id], at);
      }
    }
  }

  /** Right after an archive call with r days nothing live is older than r days. */
  lemma NothingOldStaysLive(
    s: State, r: int, lateLogs: map<Uuid, Row<LogData>>, lateTrail: map<Uuid, Row<TrailData>>)
    requires !ArchiveFails(s, r)
    ensures var s' := Next(s, Archive(r, lateLogs, lateTrail));
            && (forall id <- s'.logs.live :: s'.logs.live[id].at >= s.now - r * DAY)
            && (forall id <- s'.trail.live :: s'.trail.live[id].at >= s.now - r * DAY)
  {
  }

  // ---------------------------------------------------------------- composition

  lemma ArchiveTableAlone<T>(t: Table<T>, cutoff: int, now: int)
    ensures ArchiveTable(t, map[], cutoff, now) == MoveExpired(t, cutoff, now)
  {
    var out := Expired(t.live, cutoff);
    assert t.live + map[] == t.live && t.inserted + map[] == t.inserted;
    assert out - (t.archive + Moved(t.live, out, now)).Keys == {};
  }

  lemma MoveTwice<T>(t: Table<T>, c1: int, c2: int, now: int)
    ensures MoveExpired(MoveExpired(t, c1, now), c2, now) == MoveExpired(t, if c1 < c2 then c2 else c1, now)
  {
    var first := MoveExpired(t, c1, now);
    var e1, e2, e := Expired(t.live, c1), Expired(first.live, c2), Expired(t.live, if c1 < c2 then c2 else c1);
    assert e == e1 + e2;
    assert (t.live - e1) - e2 == t.live - e;
    assert Moved(t.live, e1, now) + Moved(first.live, e2, now) == Moved(t.live, e, now);
    MergeAssociates(t.archive, Moved(t.live, e1, now), Moved(first.live, e2, now));
  }

  lemma ArchiveTwice<T>(t: Table<T>, c1: int, c2: int, now: int)
    ensures ArchiveTable(ArchiveTable(t, map[], c1, now), map[], c2, now) ==
            ArchiveTable(t, map[], if c1 < c2 then c2 else c1, now)
  {
    ArchiveTableAlone(t, c1, now);
    ArchiveTableAlone(MoveExpired(t, c1, now), c2, now);
    ArchiveTableAlone(t, if c1 < c2 then c2 else c1, now);
    MoveTwice(t, c1, c2, now);
  }

  lemma MergeAssociates<K, V>(a: map<K, V>, b: map<K, V>, c: map<K, V>)
    ensures (a + b) + c == a + (b + c)
  {
  }

  /** An archive call during which no other session commits a row. */
  function ArchiveAlone(days: int): Step {
    Archive(days, map[], map[])
  }

  lemma ArchiveSucceeds(s: State, days: int)
    requires Conserved(s.logs) && Conserved(s.trail)
    ensures Next(s, ArchiveAlone(days)) == AfterArchive(s, map[], map[], Cutoff(s.now, days))
    ensures Conserved(Next(s, ArchiveAlone(days)).logs) && Conserved(Next(s, ArchiveAlone(days)).trail)
  {
    StepConserves(s, ArchiveAlone(days));
  }

  lemma AfterArchiveTwice(s: State, c1: int, c2: int)
    ensures AfterArchive(AfterArchive(s, map[], map[], c1), map[], map[], c2) ==
            AfterArchive(s, map[], map[], if c1 < c2 then c2 else c1)
  {
    ArchiveTwice(s.logs, c1, c2, s.now);
    ArchiveTwice(s.trail, c1, c2, s.now);
  }

  /** At one instant, archiving with r1 and then with r2 days is archiving with the smaller of the two. */
  lemma ArchiveComposes(s: State, r1: int, r2: int)
    requires Conserved(s.logs) && Conserved(s.trail)
    ensures Next(Next(s, ArchiveAlone(r1)), ArchiveAlone(r2)) == Next(s, ArchiveAlone(if r1 < r2 then r1 else r2))
  {
    ArchiveSucceeds(s, r1);
    ArchiveSucceeds(Next(s, ArchiveAlone(r1)), r2);
    ArchiveSucceeds(s, if r1 < r2 then r1 else r2);
    AfterArchiveTwice(s, Cutoff(s.now, r1), Cutoff(s.now, r2));
  }

  // ---------------------------------------------------------------- the view agrees with the table

  ghost function SumOfCounts(stats: map<StatKey, StatRow>): nat {
    if stats == map[] then 0
    else
      var key :| key in stats;
      stats[key].count + SumOfCounts(stats - {key})
  }

  lemma WithoutGroup(logs: map<Uuid, Row<LogData>>, key: StatKey)
    requires key in StatsOf(logs)
    ensures StatsOf(logs) - {key} == StatsOf(logs - Group(logs, key))
    ensures |logs| == |logs - Group(logs, key)| + StatsOf(logs)[key].count
    ensures |logs - Group(logs, key)| < |logs|
  {
    OtherGroups(logs, key);
    RemoveSize(logs, Group(logs, key));
    KeyHasGroup(logs, key);
  }

  lemma {:induction false} CountsSumToLogs(logs: map<Uuid, Row<LogData>>)
    ensures SumOfCounts(StatsOf(logs)) == |logs|
    decreases |logs|
  {
    var stats := StatsOf(logs);
    if stats == map[] {
      assert forall id <- logs :: KeyOf(logs[id]) in stats;
    } else {
      var key :| key in stats && SumOfCounts(stats) == stats[key].count + SumOfCounts(stats - {key});
      WithoutGroup(logs, key);
      CountsSumToLogs(logs - Group(logs, key));
    }
  }

  lemma KeyHasGroup(logs: map<Uuid, Row<LogData>>, key: StatKey)
    ensures key in Keys(logs) <==> Group(logs, key) != {}
  {
    if id :| id in Group(logs, key) {
      assert KeyOf(logs[id]) in Keys(logs);
    }
    if key in Keys(logs) {
      var id :| id in logs && KeyOf(logs[id]) == key;
      assert id in Group(logs, key);
    }
  }

  lemma OtherGroups(logs: map<Uuid, Row<LogData>>, key: StatKey)
    ensures StatsOf(logs - Group(logs, key)) == StatsOf(logs) - {key}
  {
    var others := logs - Group(logs, key);
    forall k | k != key ensures Group(others, k) == Group(logs, k) {
    }
    forall k ensures k in Keys(others) <==> k in Keys(logs) - {key} {
      KeyHasGroup(others, k);
      KeyHasGroup(logs, k);
    }
    forall k | k in Keys(others)
      ensures Users(others, Group(others, k)) == Users(logs, Group(logs, k))
    {
    }
  }

  lemma {:induction false} UsersAtMost(logs: map<Uuid, Row<LogData>>, ids: set<Uuid>)
    requires ids <= logs.Keys
    ensures |Users(logs, ids)| <= |ids|
    decreases ids
  {
    if id :| id in ids {
      UsersAtMost(logs, ids - {id});
      var one := match logs[id].data.userId case Some(u) => {u} case None => {};
      assert Users(logs, ids) == Users(logs, ids - {id}) + one;
    }
  }

  /**
   The view has one row per non-empty group, its counts sum to the number of live logs, and no
   group has more users than rows.
   */
  lemma ViewAgrees(logs: map<Uuid, Row<LogData>>)
    ensures forall key :: key in StatsOf(logs) <==> Group(logs, key) != {}
    ensures forall key <- StatsOf(logs) ::
              StatsOf(logs)[key].uniqueUsers <= StatsOf(logs)[key].count == |Group(logs, key)|
    ensures SumOfCounts(StatsOf(logs)) == |logs|
  {
    CountsSumToLogs(logs);
    forall key ensures key in StatsOf(logs) <==> Group(logs, key) != {} {
      KeyHasGroup(logs, key);
    }
    forall key | key in StatsOf(logs)
      ensures StatsOf(logs)[key].uniqueUsers <= StatsOf(logs)[key].count
    {
      UsersAtMost(logs, Group(logs, key));
    }
  }

  /** The log falls into the group: its UTC day and the four grouping columns are those of the key. */
  ghost predicate InGroup(log: Row<LogData>, key: StatKey) {
    && key.date * 86400 <= log.at < (key.date + 1) * 86400
    && log.data.serviceName == key.serviceName && log.data.action == key.action
    && log.data.resourceType == key.resourceType && log.data.status == key.status
  }

  /** The view in terms of columns: the rows, and the distinct non-null users, of each non-empty group. */
  lemma ViewInColumns(logs: map<Uuid, Row<LogData>>, key: StatKey)
    ensures key in StatsOf(logs) <==> exists id <- logs :: InGroup(logs[id], key)
    ensures key in StatsOf(logs) ==>
              && StatsOf(logs)[key].count == |set id | id in logs && InGroup(logs[id], key)|
              && StatsOf(logs)[key].uniqueUsers ==
                 |set id | id in logs && InGroup(logs[id], key) && logs[id].data.userId.Some?
                     :: logs[id].data.userId.value|
  {
    forall id | id in logs ensures InGroup(logs[id], key) <==> KeyOf(logs[id]) == key {
      SameDay(logs[id].at, key.date);
    }
    assert Group(logs, key) == set id | id in logs && InGroup(logs[id], key);
    assert Users(logs, Group(logs, key)) ==
           set id | id in logs && InGroup(logs[id], key) && logs[id].data.userId.Some? :: logs[id].data.userId.value;
    KeyHasGroup(logs, key);
  }

  lemma SameDay(at: int, date: int)
    ensures date * 86400 <= at < (date + 1) * 86400 <==> at / 86400 == date
  {
  }

  /** After an archive or refresh step the view is exact until the next log is inserted. */
  lemma {:induction false} ViewExactUntilInsert(states: seq<State>, steps: seq<Step>, m: nat, n: nat)
    requires Execution(states, steps) && m < n < |states|
    requires steps[m].Archive? || steps[m].Refresh?
    requires forall i :: m < i < n ==> !steps[i].InsertLog?
    ensures states[n].stats == StatsOf(states[n].logs.live)
    decreases n
  {
    AuditRecordsConserved(states, steps, n - 1);
    if m < n - 1 {
      ViewExactUntilInsert(states, steps, m, n - 1);
    }
    ViewStep(states[n - 1], steps[n - 1]);
  }

  lemma ViewStep(s: State, step: Step)
    requires !step.Archive? || !ArchiveFails(s, step.days)
    ensures step.Archive? || step.Refresh? ==> Next(s, step).stats == StatsOf(Next(s, step).logs.live)
    ensures !step.InsertLog? && s.stats == StatsOf(s.logs.live) ==>
              Next(s, step).stats == StatsOf(Next(s, step).logs.live)
  {
  }
}
