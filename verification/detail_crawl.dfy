/**
 * The detail crawl over the organisation table (phase2_detail_scraper.py):
 * the JSON checkpoint, the columns and values it restores into the table,
 * and the loop that enriches every row not yet marked "success".
 *
 * A table row is a map from column name to cell value, a missing key standing
 * for an empty cell. The checkpoint file is abstract: absent, unreadable, or
 * holding a checkpoint, and each write either succeeds, fails before the file
 * is opened, or fails after truncating it.
 */
module DetailCrawl {
  import opened Wrappers
  import opened Seqs
  import opened DetailFetch

  /** A cell of the table or a value of the checkpoint's JSON: empty, a string, or an integer. */
  datatype Value = NA | Text(text: string) | Number(n: int)

  type Row = map<string, Value>

  datatype Table = Table(columns: seq<string>, rows: seq<Row>)

  /** What the checkpoint file holds: `last_processed_index` and `processed_organizations`. */
  datatype Checkpoint = Checkpoint(lastProcessedIndex: nat, processed: seq<Row>)

  datatype StoredCheckpoint = Absent | Unreadable | Stored(checkpoint: Checkpoint)

  datatype WriteOutcome = Written | NotOpened | Torn

  const IndexKey: string := "index"
  const StatusKey: string := "scrape_status"

  /** The columns `initialize_enhanced_dataframe` adds, in order. */
  const DetailColumns: seq<string> := [
    "github_links", "website_links", "social_media_links", "location", "description",
    "member_count", "model_count", "dataset_count", "last_updated", StatusKey, "scrape_timestamp"]

  function Cell(row: Row, column: string): Value {
    if column in row then row[column] else NA
  }

  // ---------------------------------------------------------------------------
  // load_checkpoint and save_checkpoint
  // ---------------------------------------------------------------------------

  /** `load_checkpoint`: the stored checkpoint, or index 0 and no entries when there is none or it cannot be read. */
  function LoadCheckpoint(file: StoredCheckpoint): (cp: Checkpoint)
    // The file read back, or the default when it is absent or `json.load` raises (phase2_detail_scraper.py:80-90).
    ensures file.Stored? ==> cp == file.checkpoint
    ensures !file.Stored? ==> cp == Checkpoint(0, [])
  {
    if file.Stored? then file.checkpoint else Checkpoint(0, [])
  }

  datatype Saved = Saved(memory: Checkpoint, file: StoredCheckpoint)

  /**
   * `save_checkpoint`: the in-memory checkpoint always moves to `index` and
   * gains `entry`; the file gets it only when the write succeeds, and a
   * failed write is logged and swallowed.
   */
  function SaveCheckpoint(memory: Checkpoint, file: StoredCheckpoint, index: nat, entry: Row, write: WriteOutcome): (s: Saved)
    ensures s.memory.lastProcessedIndex == index
    ensures s.memory.processed == memory.processed + [entry]
    ensures write == NotOpened ==> s.file == file
  {
    var next := Checkpoint(index, memory.processed + [entry]);
    match write
    case Written => Saved(next, Stored(next))
    case NotOpened => Saved(next, file)
    case Torn => Saved(next, Unreadable)
  }

  /** What a successful save wrote is what the next start loads. */
  lemma SaveThenLoad(memory: Checkpoint, file: StoredCheckpoint, index: nat, entry: Row)
    ensures LoadCheckpoint(SaveCheckpoint(memory, file, index, entry, Written).file)
      == SaveCheckpoint(memory, file, index, entry, Written).memory
  {
  }

  /** A torn write loses everything saved so far: the next start begins at index 0. */
  lemma TornWriteRestartsFromZero(memory: Checkpoint, file: StoredCheckpoint, index: nat, entry: Row)
    ensures LoadCheckpoint(SaveCheckpoint(memory, file, index, entry, Torn).file) == Checkpoint(0, [])
  {
  }

  // ---------------------------------------------------------------------------
  // initialize_enhanced_dataframe
  // ---------------------------------------------------------------------------

  /** Append each of `added` that is not already a column, in order. */
  function AddColumns(columns: seq<string>, added: seq<string>): (r: seq<string>)
    decreases |added|
  {
    if |added| == 0 then columns
    else AddColumns(if added[0] in columns then columns else columns + [added[0]], added[1..])
  }

  /**
   * The existing columns keep their places; afterwards every requested
   * column is present, nothing else is added, and no column is added twice.
   */
  lemma {:induction false} AddColumnsSpec(columns: seq<string>, added: seq<string>)
    decreases |added|
    ensures |columns| <= |AddColumns(columns, added)|
    ensures AddColumns(columns, added)[..|columns|] == columns
    ensures forall c :: c in AddColumns(columns, added) <==> c in columns || c in added
    ensures NoDup(columns) ==> NoDup(AddColumns(columns, added))
  {
    if |added| > 0 {
      var next := if added[0] in columns then columns else columns + [added[0]];
      AddColumnsSpec(next, added[1..]);
      assert next[..|columns|] == columns;
      assert forall c :: c in added <==> c == added[0] || c in added[1..];
      if NoDup(columns) && added[0] !in columns {
        AppendKeepsNoDup(columns, added[0]);
      }
    }
  }

  /** Adding the same columns again changes nothing. */
  lemma AddColumnsIdempotent(columns: seq<string>, added: seq<string>)
    ensures AddColumns(AddColumns(columns, added), added) == AddColumns(columns, added)
  {
    AddColumnsSpec(columns, added);
    AddColumnsPresent(AddColumns(columns, added), added);
  }

  lemma {:induction false} AddColumnsPresent(columns: seq<string>, added: seq<string>)
    requires forall c :: c in added ==> c in columns
    decreases |added|
    ensures AddColumns(columns, added) == columns
  {
    if |added| > 0 {
      AddColumnsPresent(columns, added[1..]);
    }
  }

  /** The keys of a checkpoint entry copied back into the table: every column other than `index`. */
  function Restored(entry: Row, columns: seq<string>): (m: Row)
    // The test `key != 'index' and key in columns` and the copied value (phase2_detail_scraper.py:130-132).
    ensures forall k :: k in m <==> k in entry && k != IndexKey && k in columns
    ensures forall k :: k in m ==> m[k] == entry[k]
  {
    map k | k in entry.Keys && k != IndexKey && k in columns :: entry[k]
  }

  /**
   * One entry of `processed_organizations`: an entry without an index is
   * ignored, one whose index is past the table is ignored, and one whose
   * index is a string stops the start (comparing it with the row count
   * raises). None stands for that error.
   */
  function RestoreOne(rows: seq<Row>, columns: seq<string>, entry: Row): (r: Option<seq<Row>>)
    ensures r.Some? ==> |r.value| == |rows|
  {
    match Cell(entry, IndexKey)
    case NA => Some(rows)
    case Text(_) => None
    case Number(i) => if 0 <= i < |rows| then Some(rows[i := rows[i] + Restored(entry, columns)]) else Some(rows)
  }

  function Restore(rows: seq<Row>, columns: seq<string>, entries: seq<Row>): (r: Option<seq<Row>>)
    ensures r.Some? ==> |r.value| == |rows|
    decreases |entries|
  {
    if |entries| == 0 then Some(rows)
    else match RestoreOne(rows, columns, entries[0])
      case None => None
      case Some(next) => Restore(next, columns, entries[1..])
  }

  /** `initialize_enhanced_dataframe`: add the detail columns, then copy the checkpoint's entries back. */
  function Initialize(table: Table, checkpoint: Checkpoint): Option<Table> {
    var columns := AddColumns(table.columns, DetailColumns);
    match Restore(table.rows, columns, checkpoint.processed)
    case None => None
    case Some(rows) => Some(Table(columns, rows))
  }

  /** The value the last entry for row `i` that carries column `k` gives it, looking from the end. */
  function LastRestored(entries: seq<Row>, columns: seq<string>, i: int, k: string): Option<Value>
    decreases |entries|
  {
    if |entries| == 0 then None
    else
      var e := entries[|entries| - 1];
      if Cell(e, IndexKey) == Number(i) && k in Restored(e, columns) then Some(e[k])
      else LastRestored(entries[..|entries| - 1], columns, i, k)
  }

  lemma {:induction false} RestoreAppend(rows: seq<Row>, columns: seq<string>, entries: seq<Row>, e: Row)
    decreases |entries|
    ensures Restore(rows, columns, entries + [e]) ==
      match Restore(rows, columns, entries)
      case None => None
      case Some(out) => RestoreOne(out, columns, e)
  {
    if |entries| == 0 {
      assert entries + [e] == [e];
    } else {
      assert (entries + [e])[1..] == entries[1..] + [e];
      match RestoreOne(rows, columns, entries[0])
      case None =>
      case Some(next) => RestoreAppend(next, columns, entries[1..], e);
    }
  }

  /**
   * Later entries win: after a start that does not stop, each cell holds the
   * value of the last entry for its row that carries its column, or its
   * value from the input table when none does.
   */
  lemma {:induction false} RestoreLastWins(rows: seq<Row>, columns: seq<string>, entries: seq<Row>, i: int, k: string)
    requires Restore(rows, columns, entries).Some?
    requires 0 <= i < |rows|
    decreases |entries|
    ensures Cell(Restore(rows, columns, entries).value[i], k) == LastRestored(entries, columns, i, k).GetOr(Cell(rows[i], k))
  {
    if |entries| > 0 {
      var n := |entries| - 1;
      assert entries == entries[..n] + [entries[n]];
      RestoreAppend(rows, columns, entries[..n], entries[n]);
      RestoreLastWins(rows, columns, entries[..n], i, k);
    }
  }

  // ---------------------------------------------------------------------------
  // run_phase2_scraping
  // ---------------------------------------------------------------------------

  /** The map binding `keys[i]` to `values[i]`, a later key overriding an equal earlier one. */
  function Zip(keys: seq<string>, values: seq<Value>): (m: Row)
    requires |keys| == |values|
    ensures forall k :: k in m <==> k in keys
    decreases |keys|
  {
    if |keys| == 0 then map[]
    else
      var n := |keys| - 1;
      assert forall k :: k in keys <==> k in keys[..n] || k == keys[n];
      Zip(keys[..n], values[..n])[keys[n] := values[n]]
  }

  /** With distinct keys, each key is bound to the value at its own position. */
  lemma {:induction false} ZipValues(keys: seq<string>, values: seq<Value>)
    requires |keys| == |values| && NoDup(keys)
    decreases |keys|
    ensures forall k :: 0 <= k < |keys| ==> Zip(keys, values)[keys[k]] == values[k]
  {
    if |keys| > 0 {
      var n := |keys| - 1;
      var front := keys[..n];
      assert NoDup(front) by {
        forall a, b | 0 <= a < b < n ensures front[a] != front[b] {
          assert keys[a] != keys[b];
        }
      }
      ZipValues(front, values[..n]);
      var m := Zip(front, values[..n]);
      assert Zip(keys, values) == m[keys[n] := values[n]];
      forall k | 0 <= k < n ensures Zip(keys, values)[keys[k]] == values[k] {
        assert front[k] == keys[k];
        assert keys[k] != keys[n];
        assert m[front[k]] == values[..n][k];
      }
    }
  }

  /** No detail column is named twice. */
  lemma DetailColumnsDistinct()
    ensures NoDup(DetailColumns)
  {
  }

  function DetailValues(d: Details): seq<Value> {
    [Text(d.githubLinks), Text(d.websiteLinks), Text(d.socialMediaLinks), Text(d.location),
     Text(d.description), Text(d.memberCount), Text(d.modelCount), Text(d.datasetCount),
     Text(d.lastUpdated), Text(d.scrapeStatus), Text(d.scrapeTimestamp)]
  }

  /** The details as the eleven cells the loop writes into the row, one per detail column. */
  function DetailCells(d: Details): (m: Row)
    ensures forall k :: k in m <==> k in DetailColumns
    ensures forall k :: 0 <= k < |DetailColumns| ==> m[DetailColumns[k]] == DetailValues(d)[k]
    ensures Cell(m, StatusKey) == Text(d.scrapeStatus)
  {
    DetailColumnsDistinct();
    ZipValues(DetailColumns, DetailValues(d));
    assert DetailColumns[9] == StatusKey;
    Zip(DetailColumns, DetailValues(d))
  }

  /** The checkpoint entry `{'index': index, **details}`. */
  function CheckpointEntry(index: nat, d: Details): Row {
    DetailCells(d)[IndexKey := Number(index)]
  }

  /**
   * Restoring a checkpoint entry redoes the update the loop made: the row
   * gets the same eleven cells.
   */
  lemma RestoreEntryRedoesUpdate(rows: seq<Row>, columns: seq<string>, index: nat, d: Details)
    requires index < |rows|
    requires forall c :: c in DetailColumns ==> c in columns
    ensures RestoreOne(rows, columns, CheckpointEntry(index, d)) == Some(rows[index := rows[index] + DetailCells(d)])
  {
    var cells := DetailCells(d);
    IndexNotDetailColumn();
    RestoredEntry(cells, index, columns);
  }

  /** Restoring a row of cells tagged with an index gives back the cells when every one is a column. */
  lemma RestoredEntry(cells: Row, index: nat, columns: seq<string>)
    requires IndexKey !in cells
    requires forall c :: c in cells ==> c in columns
    ensures Cell(cells[IndexKey := Number(index)], IndexKey) == Number(index)
    ensures Restored(cells[IndexKey := Number(index)], columns) == cells
  {
    var r := Restored(cells[IndexKey := Number(index)], columns);
    assert forall k :: k in r <==> k in cells;
  }

  /** The checkpoint's "index" key is not one of the detail columns. */
  lemma IndexNotDetailColumn()
    ensures IndexKey !in DetailColumns
  {
    forall k | 0 <= k < |DetailColumns| ensures DetailColumns[k] != IndexKey {
      assert DetailColumns[k][0] != IndexKey[0];
    }
  }

  /** A row the loop skips: its status cell is the string "success". */
  predicate Succeeded(row: Row) {
    Cell(row, StatusKey) == Text(Success)
  }

  /** What the loop receives for one row: the replies to its requests, the clock, and how the checkpoint write goes. */
  datatype RowInput = RowInput(replies: seq<Reply>, clock: Clock, write: WriteOutcome)

  predicate InputsFit(inputs: seq<RowInput>, n: nat) {
    |inputs| >= n && forall i :: 0 <= i < |inputs| ==> |inputs[i].replies| >= |RetryDelays|
  }

  /**
   * What processing a row yields: the cells its record writes into the row,
   * the checkpoint entry made of the same record, and how the checkpoint
   * write goes.
   */
  datatype RowResult = RowResult(cells: Row, entry: Row, write: WriteOutcome)

  function Results(inputs: seq<RowInput>): (r: seq<RowResult>)
    requires InputsFit(inputs, 0)
    ensures |r| == |inputs|
  {
    seq(|inputs|, i requires 0 <= i < |inputs| =>
      var d := ExtractDetails(inputs[i].replies, inputs[i].clock);
      RowResult(DetailCells(d), CheckpointEntry(i, d), inputs[i].write))
  }

  /** The state the loop carries: the rows, the checkpoint in memory and on disk, and the rows it processed. */
  datatype Phase2 = Phase2(rows: seq<Row>, memory: Checkpoint, file: StoredCheckpoint, processed: seq<nat>)

  /** One processed row: fetch its details, write them into the row, save the checkpoint. */
  function Process(state: Phase2, index: nat, results: seq<RowResult>): (r: Phase2)
    requires index < |state.rows| <= |results|
    ensures |r.rows| == |state.rows|
    ensures r.processed == state.processed + [index]
    ensures forall j :: 0 <= j < |state.rows| && j != index ==> r.rows[j] == state.rows[j]
  {
    var saved := SaveCheckpoint(state.memory, state.file, index, results[index].entry, results[index].write);
    Phase2(state.rows[index := state.rows[index] + results[index].cells], saved.memory, saved.file, state.processed + [index])
  }

  /** The loop `for index in range(start_index, total_orgs)` from `index` on. */
  function RunFrom(state: Phase2, index: nat, results: seq<RowResult>): (r: Phase2)
    requires |state.rows| <= |results|
    ensures |r.rows| == |state.rows|
    decreases |state.rows| - index
  {
    if index >= |state.rows| then state
    else if Succeeded(state.rows[index]) then RunFrom(state, index + 1, results)
    else RunFrom(Process(state, index, results), index + 1, results)
  }

  /**
   * A whole detail run: load the checkpoint, prepare the table, and loop from
   * the checkpoint's index. None when preparing the table raises.
   */
  function RunPhase2(table: Table, file: StoredCheckpoint, inputs: seq<RowInput>): Option<(Table, Phase2)>
    requires InputsFit(inputs, |table.rows|)
  {
    var cp := LoadCheckpoint(file);
    match Initialize(table, cp)
    case None => None
    case Some(prepared) =>
      Some((prepared, RunFrom(Phase2(prepared.rows, cp, file, []), cp.lastProcessedIndex, Results(inputs))))
  }

  /** The rows from `index` on whose status is not "success", in order. */
  function Pending(rows: seq<Row>, index: nat): (p: seq<nat>)
    ensures forall k :: 0 <= k < |p| ==> index <= p[k] < |rows|
    decreases |rows| - index
  {
    if index >= |rows| then []
    else (if Succeeded(rows[index]) then [] else [index]) + Pending(rows, index + 1)
  }

  lemma {:induction false} PendingBounds(rows: seq<Row>, index: nat)
    decreases |rows| - index
    ensures forall k :: 0 <= k < |Pending(rows, index)| ==> !Succeeded(rows[Pending(rows, index)[k]])
    ensures forall i :: index <= i < |rows| && !Succeeded(rows[i]) ==> i in Pending(rows, index)
    ensures forall k, l :: 0 <= k < l < |Pending(rows, index)| ==> Pending(rows, index)[k] < Pending(rows, index)[l]
  {
    if index < |rows| {
      PendingBounds(rows, index + 1);
    }
  }

  /** Pending rows depend only on the rows from `index` on. */
  lemma {:induction false} PendingAgree(rows: seq<Row>, other: seq<Row>, index: nat)
    requires |rows| == |other|
    requires forall j :: index <= j < |rows| ==> rows[j] == other[j]
    decreases |rows| - index
    ensures Pending(rows, index) == Pending(other, index)
  {
    if index < |rows| {
      PendingAgree(rows, other, index + 1);
    }
  }

  /** A row marked "success" is passed over. */
  lemma RunFromSkips(state: Phase2, index: nat, results: seq<RowResult>)
    requires |state.rows| <= |results|
    requires index < |state.rows| && Succeeded(state.rows[index])
    ensures RunFrom(state, index, results) == RunFrom(state, index + 1, results)
    ensures Pending(state.rows, index) == Pending(state.rows, index + 1)
  {
  }

  /** Any other row is processed. */
  lemma RunFromSteps(state: Phase2, index: nat, results: seq<RowResult>)
    requires |state.rows| <= |results|
    requires index < |state.rows| && !Succeeded(state.rows[index])
    ensures RunFrom(state, index, results) == RunFrom(Process(state, index, results), index + 1, results)
  {
  }

  /** Processing a row leaves the rows after it, and so what is pending after it, as they were. */
  lemma PendingAfterProcess(state: Phase2, index: nat, results: seq<RowResult>)
    requires |state.rows| <= |results|
    requires index < |state.rows| && !Succeeded(state.rows[index])
    ensures Pending(state.rows, index) == [index] + Pending(Process(state, index, results).rows, index + 1)
  {
    var next := Process(state, index, results);
    assert Pending(state.rows, index + 1) == Pending(next.rows, index + 1) by {
      PendingAgree(state.rows, next.rows, index + 1);
    }
  }

  /**
   * The loop processes exactly the rows from its start index whose status is
   * not "success", each once and in order; it never stops early.
   */
  lemma {:induction false} RunFromProcesses(state: Phase2, index: nat, results: seq<RowResult>)
    requires |state.rows| <= |results|
    decreases |state.rows| - index
    ensures RunFrom(state, index, results).processed == state.processed + Pending(state.rows, index)
  {
    if index >= |state.rows| {
      assert Pending(state.rows, index) == [];
    } else if Succeeded(state.rows[index]) {
      RunFromSkips(state, index, results);
      RunFromProcesses(state, index + 1, results);
    } else {
      var next := Process(state, index, results);
      var rest := Pending(next.rows, index + 1);
      assert RunFrom(state, index, results) == RunFrom(next, index + 1, results) by {
        RunFromSteps(state, index, results);
      }
      assert Pending(state.rows, index) == [index] + rest by {
        PendingAfterProcess(state, index, results);
      }
      assert RunFrom(next, index + 1, results).processed == next.processed + rest by {
        RunFromProcesses(next, index + 1, results);
      }
      assert state.processed + [index] + rest == state.processed + ([index] + rest);
    }
  }

  /** Each row: the details written over it when it was pending, untouched otherwise. */
  lemma {:induction false} RunFromRows(state: Phase2, index: nat, results: seq<RowResult>, i: nat)
    requires |state.rows| <= |results|
    requires i < |state.rows|
    decreases |state.rows| - index
    ensures RunFrom(state, index, results).rows[i] ==
      if i in Pending(state.rows, index) then state.rows[i] + results[i].cells else state.rows[i]
  {
    if index >= |state.rows| {
      assert Pending(state.rows, index) == [];
    } else if Succeeded(state.rows[index]) {
      assert RunFrom(state, index, results) == RunFrom(state, index + 1, results)
        && Pending(state.rows, index) == Pending(state.rows, index + 1) by {
        RunFromSkips(state, index, results);
      }
      RunFromRows(state, index + 1, results, i);
      assert i != index || i !in Pending(state.rows, index + 1);
    } else {
      var next := Process(state, index, results);
      var rest := Pending(next.rows, index + 1);
      assert RunFrom(state, index, results) == RunFrom(next, index + 1, results) by {
        RunFromSteps(state, index, results);
      }
      assert Pending(state.rows, index) == [index] + rest by {
        PendingAfterProcess(state, index, results);
      }
      RunFromRows(next, index + 1, results, i);
      assert index !in rest;
      if i == index {
        assert next.rows[i] == state.rows[i] + results[i].cells;
      } else {
        assert next.rows[i] == state.rows[i];
        assert i in Pending(state.rows, index) <==> i in rest;
      }
    }
  }

  /** The entries the loop appends to the checkpoint for the rows it processes. */
  function EntriesFor(indices: seq<nat>, results: seq<RowResult>): seq<Row>
    requires forall k :: 0 <= k < |indices| ==> indices[k] < |results|
  {
    seq(|indices|, k requires 0 <= k < |indices| => results[indices[k]].entry)
  }

  /**
   * The checkpoint in memory gains one entry per processed row, in order;
   * and its index is the last row processed, or unchanged when nothing was.
   */
  lemma {:induction false} RunFromCheckpoint(state: Phase2, index: nat, results: seq<RowResult>)
    requires |state.rows| <= |results|
    decreases |state.rows| - index
    ensures RunFrom(state, index, results).memory.processed ==
      state.memory.processed + EntriesFor(Pending(state.rows, index), results)
  {
    if index >= |state.rows| {
      assert Pending(state.rows, index) == [];
    } else if Succeeded(state.rows[index]) {
      RunFromSkips(state, index, results);
      RunFromCheckpoint(state, index + 1, results);
    } else {
      var next := Process(state, index, results);
      var rest := Pending(next.rows, index + 1);
      var entry := results[index].entry;
      assert RunFrom(state, index, results) == RunFrom(next, index + 1, results) by {
        RunFromSteps(state, index, results);
      }
      assert Pending(state.rows, index) == [index] + rest by {
        PendingAfterProcess(state, index, results);
      }
      assert RunFrom(next, index + 1, results).memory.processed == next.memory.processed + EntriesFor(rest, results) by {
        RunFromCheckpoint(next, index + 1, results);
      }
      assert next.memory.processed == state.memory.processed + [entry];
      assert EntriesFor([index] + rest, results) == [entry] + EntriesFor(rest, results);
      assert state.memory.processed + [entry] + EntriesFor(rest, results)
        == state.memory.processed + ([entry] + EntriesFor(rest, results));
    }
  }

  lemma {:induction false} RunFromLastIndex(state: Phase2, index: nat, results: seq<RowResult>)
    requires |state.rows| <= |results|
    decreases |state.rows| - index
    ensures RunFrom(state, index, results).memory.lastProcessedIndex ==
      if |Pending(state.rows, index)| == 0 then state.memory.lastProcessedIndex
      else Pending(state.rows, index)[|Pending(state.rows, index)| - 1]
  {
    if index >= |state.rows| {
      assert Pending(state.rows, index) == [];
    } else if Succeeded(state.rows[index]) {
      RunFromSkips(state, index, results);
      RunFromLastIndex(state, index + 1, results);
    } else {
      var next := Process(state, index, results);
      var rest := Pending(next.rows, index + 1);
      assert RunFrom(state, index, results) == RunFrom(next, index + 1, results) by {
        RunFromSteps(state, index, results);
      }
      assert Pending(state.rows, index) == [index] + rest by {
        PendingAfterProcess(state, index, results);
      }
      assert RunFrom(next, index + 1, results).memory.lastProcessedIndex
        == (if |rest| == 0 then index else rest[|rest| - 1]) by {
        RunFromLastIndex(next, index + 1, results);
      }
      assert |[index] + rest| > 0 && ([index] + rest)[|[index] + rest| - 1] == if |rest| == 0 then index else rest[|rest| - 1];
    }
  }

  /**
   * When the write for the last processed row succeeds, the file holds the
   * final in-memory checkpoint, so a restart loads exactly it.
   */
  lemma {:induction false} RunFromFile(state: Phase2, index: nat, results: seq<RowResult>)
    requires |state.rows| <= |results|
    requires |Pending(state.rows, index)| > 0
    requires results[Pending(state.rows, index)[|Pending(state.rows, index)| - 1]].write == Written
    decreases |state.rows| - index
    ensures LoadCheckpoint(RunFrom(state, index, results).file) == RunFrom(state, index, results).memory
  {
    if Succeeded(state.rows[index]) {
      RunFromSkips(state, index, results);
      RunFromFile(state, index + 1, results);
    } else {
      var next := Process(state, index, results);
      RunFromSteps(state, index, results);
      PendingAfterProcess(state, index, results);
      if |Pending(next.rows, index + 1)| > 0 {
        RunFromFile(next, index + 1, results);
      } else {
        RunFromNothingPending(next, index + 1, results);
        assert results[index].write == Written;
      }
    }
  }

  /** With nothing left to process the loop changes nothing. */
  lemma {:induction false} RunFromNothingPending(state: Phase2, index: nat, results: seq<RowResult>)
    requires |state.rows| <= |results|
    requires |Pending(state.rows, index)| == 0
    decreases |state.rows| - index
    ensures RunFrom(state, index, results) == state
  {
    if index < |state.rows| {
      assert Succeeded(state.rows[index]);
      RunFromSkips(state, index, results);
      RunFromNothingPending(state, index + 1, results);
    }
  }

  /**
   * A whole run: it starts at the checkpoint's index itself, not one past
   * it, processes exactly the pending rows of the prepared table, writes each
   * one's cells into it, and appends one checkpoint entry per processed row.
   */
  lemma RunPhase2Spec(table: Table, file: StoredCheckpoint, inputs: seq<RowInput>)
    requires InputsFit(inputs, |table.rows|)
    requires RunPhase2(table, file, inputs).Some?
    ensures var (prepared, run) := RunPhase2(table, file, inputs).value;
      var start := LoadCheckpoint(file).lastProcessedIndex;
      && prepared == Initialize(table, LoadCheckpoint(file)).value
      && run.processed == Pending(prepared.rows, start)
      && run.memory.processed == LoadCheckpoint(file).processed + EntriesFor(Pending(prepared.rows, start), Results(inputs))
      && |run.rows| == |table.rows|
      && (forall i :: 0 <= i < |table.rows| && i !in run.processed ==> run.rows[i] == prepared.rows[i])
      && (forall i :: i in run.processed ==> i < |table.rows| && run.rows[i] == prepared.rows[i] + Results(inputs)[i].cells)
  {
    var cp := LoadCheckpoint(file);
    var prepared := Initialize(table, cp).value;
    var state := Phase2(prepared.rows, cp, file, []);
    var results := Results(inputs);
    RunFromProcesses(state, cp.lastProcessedIndex, results);
    RunFromCheckpoint(state, cp.lastProcessedIndex, results);
    forall i | 0 <= i < |table.rows| && i !in Pending(prepared.rows, cp.lastProcessedIndex)
      ensures RunFrom(state, cp.lastProcessedIndex, results).rows[i] == prepared.rows[i]
    {
      RunFromRows(state, cp.lastProcessedIndex, results, i);
    }
    forall i | i in Pending(prepared.rows, cp.lastProcessedIndex)
      ensures i < |table.rows| && RunFrom(state, cp.lastProcessedIndex, results).rows[i] == prepared.rows[i] + results[i].cells
    {
      RunFromRows(state, cp.lastProcessedIndex, results, i);
    }
  }

  /** A record whose content fields are all "Null" gives nine "Null" cells. */
  lemma NullCells(d: Details)
    requires AllContentNull(d)
    ensures forall k :: 0 <= k < 9 ==> Cell(DetailCells(d), DetailColumns[k]) == Text(Null)
  {
    forall k | 0 <= k < 9 ensures Cell(DetailCells(d), DetailColumns[k]) == Text(Null) {
      assert DetailValues(d)[k] == Text(Null);
    }
  }

  /**
   * The cells a processed row receives: status "success" exactly when a
   * request answered 200 and extraction raised nothing; "failed_after_retries"
   * when none answered 200, and "error: " and the message when extraction
   * raised, the nine content cells "Null" in both; always the run's timestamp.
   */
  lemma ProcessedRowCells(inputs: seq<RowInput>, i: nat)
    requires InputsFit(inputs, 0) && i < |inputs|
    ensures RequestWithRetry(inputs[i].replies).page.Some? <==> AnyOkFrom(inputs[i].replies, 0)
    ensures var cells := Results(inputs)[i].cells;
      var replies := inputs[i].replies;
      var f := RequestWithRetry(replies);
      && (Cell(cells, StatusKey) == Text(Success) <==> AnyOkFrom(replies, 0) && f.page.value.failure.None?)
      && (!AnyOkFrom(replies, 0) ==>
            && Cell(cells, StatusKey) == Text(FailedAfterRetries)
            && forall k :: 0 <= k < 9 ==> Cell(cells, DetailColumns[k]) == Text(Null))
      && (AnyOkFrom(replies, 0) && f.page.value.failure.Some? ==>
            && Cell(cells, StatusKey) == Text("error: " + f.page.value.failure.value)
            && forall k :: 0 <= k < 9 ==> Cell(cells, DetailColumns[k]) == Text(Null))
      && Cell(cells, DetailColumns[10]) == Text(inputs[i].clock.timestamp)
    ensures Results(inputs)[i].entry[IndexKey] == Number(i)
  {
    var replies := inputs[i].replies;
    var d := ExtractDetails(replies, inputs[i].clock);
    RequestWithRetrySpec(replies);
    ExtractDetailsStatus(replies, inputs[i].clock);
    var cells := Results(inputs)[i].cells;
    assert cells == DetailCells(d);
    assert Cell(cells, DetailColumns[10]) == DetailValues(d)[10];
    if AllContentNull(d) {
      NullCells(d);
    }
  }

  /**
   * Each row the run processes ends as the prepared row with its record's
   * cells written over it, so its status is "success" exactly when one of its
   * requests answered 200 and extraction raised nothing.
   */
  lemma RunPhase2RowStatus(table: Table, file: StoredCheckpoint, inputs: seq<RowInput>, i: nat)
    requires InputsFit(inputs, |table.rows|)
    requires RunPhase2(table, file, inputs).Some?
    requires i < |table.rows|
    ensures RequestWithRetry(inputs[i].replies).page.Some? <==> AnyOkFrom(inputs[i].replies, 0)
    ensures |RunPhase2(table, file, inputs).value.1.rows| == |table.rows|
    ensures var (prepared, run) := RunPhase2(table, file, inputs).value;
      var f := RequestWithRetry(inputs[i].replies);
      i in run.processed ==>
        && run.rows[i] == prepared.rows[i] + Results(inputs)[i].cells
        && (Succeeded(run.rows[i]) <==> AnyOkFrom(inputs[i].replies, 0) && f.page.value.failure.None?)
  {
    RunPhase2Spec(table, file, inputs);
    ProcessedRowCells(inputs, i);
    var cells := Results(inputs)[i].cells;
    var (prepared, run) := RunPhase2(table, file, inputs).value;
    if i in run.processed {
      assert StatusKey in cells;
      assert Cell(run.rows[i], StatusKey) == Cell(cells, StatusKey);
    }
  }
}
