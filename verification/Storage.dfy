/** The database handle: text columns underneath, the episode table of `Episodes` on top. */
module Storage {
  import opened Wrappers
  import opened Domain
  import opened Timestamps
  import opened Order
  import opened Episodes

  /** A row as stored: the lifecycle state is two text columns. */
  datatype Row = Row(state: string, errorClass: Option<string>, data: Columns)

  datatype EpisodeRecord = EpisodeRecord(id: EpisodeId, record: Record)

  function EncodeRow(r: Record): Row {
    Row(StateText(r.state), ClassColumn(r.state), r.data)
  }

  function DecodeRow(row: Row): Result<Record, StorageError> {
    var s := DecodeState(row.state, row.errorClass);
    if s.Success? then Success(Record(s.value, row.data)) else Failure(Corrupt(s.error))
  }

  /** A row written for a record decodes to that record, and its class column is set
      exactly when the record is a failure. */
  lemma RowRoundTrip(r: Record)
    ensures DecodeRow(EncodeRow(r)) == Success(r)
    ensures EncodeRow(r).errorClass.Some? <==> r.state.Failed?
    ensures EncodeRow(r).state == "downloading" <==> r.state.Downloading?
  {
    DecodeInvertsEncode(r.state, StateText(r.state), ClassColumn(r.state));
    DecodeInvertsEncode(Downloading, StateText(r.state), ClassColumn(r.state));
  }

  ghost predicate Encodes(rows: map<Key, Row>, t: Table) {
    rows.Keys == t.Keys && forall key :: key in t ==> rows[key] == EncodeRow(t[key])
  }

  /** The answers of `episodes`: the show's rows in stored order. */
  ghost function Records(t: Table, show: ShowSlug): seq<EpisodeRecord> {
    OrderedRows(t, show);
    var ids := Ordered(t, show);
    seq(|ids|, i requires 0 <= i < |ids| => EpisodeRecord(ids[i], t[Key(show, ids[i])]))
  }

  class Database {
    var rows: map<Key, Row>
    ghost var table: Table

    /** Every stored row decodes, to a row that obeys the rules of its state. */
    ghost predicate Valid()
      reads this
    {
      Encodes(rows, table) && TableOk(table)
    }

    /** A new database is empty. */
    constructor ()
      ensures Valid() && table == map[]
    {
      rows, table := map[], map[];
    }

    method Discover(show: ShowSlug, listing: seq<EpisodeMeta>, now: Timestamp) returns (news: seq<EpisodeId>)
      modifies this
      ensures old(Valid()) ==> Valid() && table == Episodes.Discover(old(table), show, listing, now)
      ensures old(Valid()) ==> news == News(old(table), show, listing, now)
    {
      news := [];
      for i := 0 to |listing|
        invariant table == Episodes.Discover(old(table), show, listing[..i], now)
        invariant old(Valid()) ==> Encodes(rows, table)
        invariant old(Valid()) ==> news == News(old(table), show, listing[..i], now)
      {
        assert listing[..i + 1][..i] == listing[..i];
        var episode := listing[i];
        var key := Key(show, episode.id);
        if key in rows {
          rows := rows[key := rows[key].(data := Refreshed(rows[key].data, episode))];
        } else {
          rows := rows[key := Row("discovered", None, Fresh(episode, now))];
          news := news + [episode.id];
        }
        table := DiscoverOne(table, show, episode, now);
      }
      assert listing[..|listing|] == listing;
      StepKeepsRowsIfOk(old(table), DoDiscover(show, listing, now));
    }

    /** Looks the row up, decodes its state and checks the edge; changes nothing. */
    method CheckTransition(key: Key, to: EpisodeState) returns (r: Result<(), StorageError>)
      ensures key !in rows ==> r == Failure(EpisodeNotFound(key))
      ensures key in rows && DecodeRow(rows[key]).Failure? ==> r == Failure(DecodeRow(rows[key]).error)
      ensures key in rows && DecodeRow(rows[key]).Success? ==>
                r == if CanTransition(DecodeRow(rows[key]).value.state, to) then Success(())
                     else Failure(IllegalTransition(key, DecodeRow(rows[key]).value.state, to))
      ensures Valid() ==> r == Answer(table, key, to)
    {
      if key !in rows { return Failure(EpisodeNotFound(key)); }
      var from := DecodeState(rows[key].state, rows[key].errorClass);
      if key in table { RowRoundTrip(table[key]); }
      if from.Failure? { return Failure(Corrupt(from.error)); }
      if !CanTransition(from.value, to) { return Failure(IllegalTransition(key, from.value, to)); }
      return Success(());
    }

    method MarkDownloading(key: Key) returns (r: Result<(), StorageError>)
      modifies this
      ensures r.Failure? ==> rows == old(rows)
      ensures old(Valid()) ==> Valid() && r == Answer(old(table), key, Downloading)
      ensures old(Valid()) ==> table == Episodes.MarkDownloading(old(table), key)
      ensures old(Valid()) && r.Success? ==>
                && table[key].state.Downloading? && SameButProgress(old(table)[key].data, table[key].data)
                && table[key].data.bytesDone.None? && table[key].data.bytesTotal.None? && table[key].data.progressAt.None?
    {
      r := CheckTransition(key, Downloading);
      if r.Failure? { return; }
      rows := rows[key := Row("downloading", None, Idle(rows[key].data))];
      StepKeepsRowsIfOk(table, DoDownloading(key));
      table := Episodes.MarkDownloading(table, key);
    }

    method MarkCached(key: Key, file: CachedFile, now: Timestamp) returns (r: Result<(), StorageError>)
      modifies this
      ensures r.Failure? ==> rows == old(rows)
      ensures old(Valid()) ==> Valid() && r == Answer(old(table), key, Cached)
      ensures old(Valid()) ==> table == Episodes.MarkCached(old(table), key, file, now)
      ensures old(Valid()) && r.Success? ==> CachedFrom(old(table)[key].data, table[key], file, now)
    {
      r := CheckTransition(key, Cached);
      if r.Failure? { return; }
      rows := rows[key := Row("cached", None, Stored(rows[key].data, file, now))];
      StepKeepsRowsIfOk(table, DoCached(key, file, now));
      table := Episodes.MarkCached(table, key, file, now);
    }

    method MarkFailed(key: Key, why: ErrorClass) returns (r: Result<(), StorageError>)
      modifies this
      ensures r.Failure? ==> rows == old(rows)
      ensures old(Valid()) ==> Valid() && r == Answer(old(table), key, Failed(why))
      ensures old(Valid()) ==> table == Episodes.MarkFailed(old(table), key, why)
      ensures old(Valid()) && r.Success? ==>
                && table[key].state == Failed(why) && SameButProgress(old(table)[key].data, table[key].data)
                && table[key].data.bytesDone.None? && table[key].data.bytesTotal.None? && table[key].data.progressAt.None?
    {
      r := CheckTransition(key, Failed(why));
      if r.Failure? { return; }
      rows := rows[key := Row("failed", Some(ClassText(why)), Idle(rows[key].data))];
      StepKeepsRowsIfOk(table, DoFailed(key, why));
      table := Episodes.MarkFailed(table, key, why);
    }

    /** The tombstone update leaves the class column as it was. */
    method MarkPruned(key: Key) returns (r: Result<(), StorageError>)
      modifies this
      ensures r.Failure? ==> rows == old(rows)
      ensures old(Valid()) ==> Valid() && r == Answer(old(table), key, Pruned)
      ensures old(Valid()) ==> table == Episodes.MarkPruned(old(table), key)
      ensures old(Valid()) && r.Success? ==>
                && table[key].state.Pruned? && table[key].data.filePath.None?
                && table[key].data.(filePath := old(table)[key].data.filePath) == old(table)[key].data
    {
      r := CheckTransition(key, Pruned);
      if r.Failure? { return; }
      rows := rows[key := Row("pruned", rows[key].errorClass, Forgotten(rows[key].data))];
      StepKeepsRowsIfOk(table, DoPruned(key));
      table := Episodes.MarkPruned(table, key);
    }

    /** A guarded write: rows that are not downloading are left alone. */
    method SetProgress(key: Key, done: nat, total: Option<nat>, now: Timestamp)
      modifies this
      ensures old(Valid()) ==> Valid() && table == Episodes.SetProgress(old(table), key, done, total, now)
      ensures old(Valid()) && key in old(table) ==> key in table && ProgressFrom(old(table)[key], table[key], done, total, now)
      ensures old(Valid()) ==> forall other :: other in table && other != key ==> other in old(table) && table[other] == old(table)[other]
    {
      ProgressRow(table, key, done, total, now);
      if Encodes(rows, table) { ProgressEncodes(rows, table, key, done, total, now); }
      rows := ProgressRows(rows, key, done, total, now);
      StepKeepsRowsIfOk(table, DoProgress(key, done, total, now));
      table := Episodes.SetProgress(table, key, done, total, now);
    }

    /** The bulk heal; answers how many rows it flipped. */
    method ResetStaleDownloads(show: ShowSlug, cutoff: Timestamp) returns (healed: nat)
      modifies this
      ensures old(Valid()) ==> Valid() && table == ResetStale(old(table), show, cutoff)
      ensures old(Valid()) ==> healed == |Healed(old(table), show, cutoff)|
      ensures old(Valid()) ==> forall key :: key in old(table) ==>
                key in table && HealedFrom(old(table)[key], table[key], key.show == show)
    {
      HealRow(table, show, cutoff);
      if Encodes(rows, table) { HealEncodes(rows, table, show, cutoff); }
      var stale := StaleRows(rows, show, cutoff);
      healed := |stale|;
      rows := HealRows(rows, stale);
      StepKeepsRowsIfOk(table, DoResetStale(show, cutoff));
      table := ResetStale(table, show, cutoff);
    }

    /** The show's rows, newest first; one row that does not decode fails the whole query. */
    method EpisodesOf(show: ShowSlug) returns (r: Result<seq<EpisodeRecord>, StorageError>)
      ensures Valid() ==> r == Success(Records(table, show))
      ensures r.Failure? <==> exists key :: key in rows && key.show == show && DecodeRow(rows[key]).Failure?
    {
      var stamps := RowStamps(rows, show);
      var ids := SortIds(stamps);
      NewestFirstSorted(stamps);
      forall key | key in rows && key.show == show ensures key.id in ids {
        assert key.id in stamps;
      }
      r := DecodeAll(rows, show, ids);
      if Valid() { DecodedRecords(rows, table, show, r); }
    }
  }

  predicate Decoded(rows: map<Key, Row>, show: ShowSlug, id: EpisodeId, r: EpisodeRecord) {
    Key(show, id) in rows && r.id == id && DecodeRow(rows[Key(show, id)]) == Success(r.record)
  }

  method DecodeAll(rows: map<Key, Row>, show: ShowSlug, ids: seq<EpisodeId>)
    returns (r: Result<seq<EpisodeRecord>, StorageError>)
    requires forall i :: 0 <= i < |ids| ==> Key(show, ids[i]) in rows
    ensures r.Success? ==>
              |r.value| == |ids| && forall i :: 0 <= i < |ids| ==> Decoded(rows, show, ids[i], r.value[i])
    ensures r.Failure? ==> exists i :: 0 <= i < |ids| && DecodeRow(rows[Key(show, ids[i])]).Failure?
  {
    var records := [];
    for i := 0 to |ids|
      invariant |records| == i
      invariant forall j :: 0 <= j < i ==> Decoded(rows, show, ids[j], records[j])
    {
      var decoded := DecodeRow(rows[Key(show, ids[i])]);
      if decoded.Failure? { return Failure(decoded.error); }
      records := records + [EpisodeRecord(ids[i], decoded.value)];
    }
    return Success(records);
  }

  lemma DecodedRecords(rows: map<Key, Row>, t: Table, show: ShowSlug, r: Result<seq<EpisodeRecord>, StorageError>)
    requires Encodes(rows, t)
    requires var ids := NewestFirst(RowStamps(rows, show));
             && (forall i :: 0 <= i < |ids| ==> Key(show, ids[i]) in rows)
             && (r.Success? ==> |r.value| == |ids| && forall i :: 0 <= i < |ids| ==> Decoded(rows, show, ids[i], r.value[i]))
             && (r.Failure? ==> exists i :: 0 <= i < |ids| && DecodeRow(rows[Key(show, ids[i])]).Failure?)
    ensures r == Success(Records(t, show))
  {
    var ids := NewestFirst(RowStamps(rows, show));
    assert RowStamps(rows, show) == StampsOf(t, show);
    forall i | 0 <= i < |ids|
      ensures DecodeRow(rows[Key(show, ids[i])]) == Success(t[Key(show, ids[i])])
    {
      RowRoundTrip(t[Key(show, ids[i])]);
    }
    assert r.Success? && r.value == Records(t, show);
  }

  function RowStamps(rows: map<Key, Row>, show: ShowSlug): Stamps {
    map id | id in (set key | key in rows && key.show == show :: key.id) && Key(show, id) in rows
      :: rows[Key(show, id)].data.publishedAt
  }

  // ----- the heal as one statement -----

  /** The guarded write of a progress report. */
  function ProgressRows(rows: map<Key, Row>, key: Key, done: nat, total: Option<nat>, now: Timestamp): map<Key, Row> {
    if key in rows && rows[key].state == "downloading"
    then rows[key := rows[key].(data := Progressed(rows[key].data, done, total, now))] else rows
  }

  lemma ProgressEncodes(rows: map<Key, Row>, t: Table, key: Key, done: nat, total: Option<nat>, now: Timestamp)
    requires Encodes(rows, t)
    ensures Encodes(ProgressRows(rows, key, done, total, now), Episodes.SetProgress(t, key, done, total, now))
  {
    if key in t { RowRoundTrip(t[key]); }
  }

  function StaleRows(rows: map<Key, Row>, show: ShowSlug, cutoff: Timestamp): set<Key> {
    set key | key in rows && key.show == show && rows[key].state == "downloading" && Stale(rows[key].data, cutoff)
  }

  function HealRows(rows: map<Key, Row>, stale: set<Key>): map<Key, Row> {
    map key | key in rows :: if key in stale then Row("failed", Some("network"), Idle(rows[key].data)) else rows[key]
  }

  ghost function Healed(t: Table, show: ShowSlug, cutoff: Timestamp): set<Key> {
    set key | key in t && Heals(key, t[key], show, cutoff)
  }

  lemma HealEncodes(rows: map<Key, Row>, t: Table, show: ShowSlug, cutoff: Timestamp)
    requires Encodes(rows, t)
    ensures StaleRows(rows, show, cutoff) == Healed(t, show, cutoff)
    ensures Encodes(HealRows(rows, StaleRows(rows, show, cutoff)), ResetStale(t, show, cutoff))
  {
    forall key ensures key in StaleRows(rows, show, cutoff) <==> key in Healed(t, show, cutoff) {
      if key in t { RowRoundTrip(t[key]); }
    }
  }

  lemma StepKeepsRowsIfOk(t: Table, op: Op)
    ensures TableOk(t) ==> TableOk(Step(t, op))
  {
    if TableOk(t) { StepKeepsRows(t, op); }
  }
}
