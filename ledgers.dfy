/**
 * The two ledger loaders of src/app/services.py, from the rows of the
 * spreadsheet on. Each row's cells are normalised; rows without an id are
 * dropped; then the Balance ledger keeps the first row of every id while
 * the DDP ledger groups the rows by id, in ascending id order, summing
 * their amounts and keeping the first non-empty name.
 *
 * Each loader is a method with a loop, proved equal to a specification
 * function defined one row at a time from the last row; the lemmas state
 * what the specification functions promise in terms of the rows.
 */
module Ledgers {
  import opened Wrappers
  import opened Strings
  import opened Normalizers

  /** `ProviderRecord`: one provider of a loaded ledger. */
  datatype ProviderRecord = ProviderRecord(providerId: string, providerName: string, amount: real)

  /** A Balance row: columns 0 (id), 1 (name) and 5 (amount) of a line after the first seven. */
  datatype BalanceRow = BalanceRow(id: Cell, name: Cell, amount: Cell)

  /** A DDP row: columns 1 (name), 2 (provider number) and 3 (amount) of a line after the first two. */
  datatype DdpRow = DdpRow(name: Cell, number: Cell, amount: Cell)

  /** `fillna("").astype(str).str.strip()` on a name cell. */
  function CleanName(c: Cell): (r: string)
    ensures r == [] || (!IsSpace(r[0]) && !IsSpace(r[|r| - 1]))
  {
    match c
    case Missing => ""
    case Text(t) => Strip(t)
  }

  /** The provider ids of a list of records, in order. */
  function Ids(s: seq<ProviderRecord>): (ids: seq<string>)
    ensures |ids| == |s| && forall k | 0 <= k < |s| :: ids[k] == s[k].providerId
  {
    seq(|s|, k requires 0 <= k < |s| => s[k].providerId)
  }

  lemma IdsAppend(s: seq<ProviderRecord>, r: ProviderRecord)
    ensures Ids(s + [r]) == Ids(s) + [r.providerId]
  {
  }

  /** No two records share a provider id. */
  predicate UniqueIds(s: seq<ProviderRecord>)
  {
    forall k, l | 0 <= k < l < |s| :: s[k].providerId != s[l].providerId
  }

  /** `sum(record.amount for record in s)`. */
  function Total(s: seq<ProviderRecord>): (r: real)
    ensures (forall k | 0 <= k < |s| :: s[k].amount >= 0.0) ==> r >= 0.0
    ensures (forall k | 0 <= k < |s| :: s[k].amount <= 0.0) ==> r <= 0.0
  {
    if s == [] then 0.0 else Total(s[..|s| - 1]) + s[|s| - 1].amount
  }

  // ---------------------------------------------------------------- Balance

  /** Some element of `s` satisfies `p` exactly when one before the last does or the last does. */
  lemma ExistsSplit<R>(s: seq<R>, init: seq<R>, p: R -> bool)
    requires s != [] && init == s[..|s| - 1]
    ensures (exists i | 0 <= i < |s| :: p(s[i])) <==> (exists i | 0 <= i < |init| :: p(init[i])) || p(s[|s| - 1])
  {
    assert forall i | 0 <= i < |init| :: s[i] == init[i];
  }

  /** One Balance row after the column transformations, or nothing when its id does not normalise. */
  function BalanceEntry(row: BalanceRow): (e: Option<ProviderRecord>)
    ensures e.Some? <==> NormalizeBalanceId(row.id).Some?
    ensures e.Some? ==> e.value.providerId == NormalizeBalanceId(row.id).value
    ensures e.Some? ==> e.value.providerName == CleanName(row.name) && e.value.amount == CleanAmount(row.amount)
  {
    match NormalizeBalanceId(row.id)
    case None => None
    case Some(id) => Some(ProviderRecord(id, CleanName(row.name), CleanAmount(row.amount)))
  }

  /**
   * The records `load_balance_records` returns: the rows with an id, of
   * which only the first of each id is kept, in row order.
   */
  function BalanceRecords(rows: seq<BalanceRow>): (out: seq<ProviderRecord>)
    ensures |out| <= |rows|
  {
    if rows == [] then []
    else
      var out := BalanceRecords(rows[..|rows| - 1]);
      match BalanceEntry(rows[|rows| - 1])
      case None => out
      case Some(r) => if r.providerId in Ids(out) then out else out + [r]
  }

  /** `load_balance_records` after the read: one pass over the rows, remembering the ids already kept. */
  method LoadBalanceRecords(rows: seq<BalanceRow>) returns (records: seq<ProviderRecord>)
    ensures records == BalanceRecords(rows)
    ensures UniqueIds(records)
  {
    records := [];
    var seen: set<string> := {};
    for i := 0 to |rows|
      invariant records == BalanceRecords(rows[..i])
      invariant seen == Elems(Ids(records))
    {
      assert rows[..i + 1][..i] == rows[..i];
      match BalanceEntry(rows[i]) {
        case None =>
        case Some(r) =>
          if r.providerId !in seen {
            IdsAppend(records, r);
            ElemsConcat(Ids(records), [r.providerId]);
            records := records + [r];
            seen := seen + {r.providerId};
          }
      }
    }
    assert rows[..|rows|] == rows;
    BalanceRecordsUnique(rows);
  }

  /** Balance output ids are unique. */
  lemma {:induction false} BalanceRecordsUnique(rows: seq<BalanceRow>)
    ensures UniqueIds(BalanceRecords(rows))
  {
    if rows != [] {
      BalanceRecordsUnique(rows[..|rows| - 1]);
    }
  }

  /** Every element of `s` satisfies `p` exactly when every one before the last does and the last does. */
  lemma ForallSplit<R>(s: seq<R>, init: seq<R>, p: R -> bool)
    requires s != [] && init == s[..|s| - 1]
    ensures (forall i | 0 <= i < |s| :: p(s[i])) <==> (forall i | 0 <= i < |init| :: p(init[i])) && p(s[|s| - 1])
  {
    assert forall i | 0 <= i < |init| :: s[i] == init[i];
  }

  /** A row with Balance id `id`. */
  predicate HasBalanceId(row: BalanceRow, id: string)
  {
    NormalizeBalanceId(row.id) == Some(id)
  }

  /** Some row of `rows` has Balance id `id`. */
  predicate SomeBalanceRow(rows: seq<BalanceRow>, id: string)
  {
    exists i | 0 <= i < |rows| :: HasBalanceId(rows[i], id)
  }

  /** The Balance output holds a record for exactly the ids some row normalises to. */
  lemma {:induction false} BalanceRecordsIds(rows: seq<BalanceRow>)
    ensures forall id :: (id in Ids(BalanceRecords(rows)) <==> SomeBalanceRow(rows, id))
  {
    if rows != [] {
      var init, last := rows[..|rows| - 1], rows[|rows| - 1];
      BalanceRecordsIds(init);
      var out := BalanceRecords(init);
      var e := BalanceEntry(last);
      assert forall id :: (id in Ids(BalanceRecords(rows)) <==> id in Ids(out) || (e.Some? && e.value.providerId == id)) by {
        if e.Some? && e.value.providerId !in Ids(out) {
          IdsAppend(out, e.value);
        }
      }
      forall id ensures SomeBalanceRow(rows, id) <==> SomeBalanceRow(init, id) || HasBalanceId(last, id) {
        ExistsSplit(rows, init, row => HasBalanceId(row, id));
      }
    }
  }

  /** Row `i` is the first row whose id normalises to that of `r`, and it yields `r`. */
  predicate FirstRowFor(rows: seq<BalanceRow>, i: int, r: ProviderRecord)
  {
    && 0 <= i < |rows|
    && BalanceEntry(rows[i]) == Some(r)
    && forall j | 0 <= j < i :: !HasBalanceId(rows[j], r.providerId)
  }

  lemma {:induction false} BalanceFirstRows(rows: seq<BalanceRow>) returns (idx: seq<int>)
    ensures |idx| == |BalanceRecords(rows)|
    ensures forall k | 0 <= k < |idx| :: FirstRowFor(rows, idx[k], BalanceRecords(rows)[k])
    ensures forall k, l | 0 <= k < l < |idx| :: idx[k] < idx[l]
  {
    if rows == [] {
      idx := [];
    } else {
      var init := rows[..|rows| - 1];
      var prev := BalanceFirstRows(init);
      var out := BalanceRecords(init);
      FirstRowsPrefix(rows, init, prev, out);
      match BalanceEntry(rows[|rows| - 1]) {
        case None =>
          assert BalanceRecords(rows) == out;
          idx := prev;
        case Some(r) =>
          if r.providerId in Ids(out) {
            assert BalanceRecords(rows) == out;
            idx := prev;
          } else {
            assert BalanceRecords(rows) == out + [r];
            BalanceRecordsIds(init);
            FirstRowForLast(rows, init, r);
            FirstRowsAppend(rows, prev, out, r);
            idx := prev + [|rows| - 1];
          }
      }
    }
  }

  /** `idx` lists, in increasing order, the first row of each record of `out`. */
  predicate FirstRows(rows: seq<BalanceRow>, idx: seq<int>, out: seq<ProviderRecord>)
  {
    && |idx| == |out|
    && (forall k | 0 <= k < |idx| :: FirstRowFor(rows, idx[k], out[k]))
    && (forall k, l | 0 <= k < l < |idx| :: idx[k] < idx[l])
  }

  /** First rows of the rows before the last stay first rows, and none of them is the last row. */
  lemma FirstRowsPrefix(rows: seq<BalanceRow>, init: seq<BalanceRow>, idx: seq<int>, out: seq<ProviderRecord>)
    requires rows != [] && init == rows[..|rows| - 1] && FirstRows(init, idx, out)
    ensures FirstRows(rows, idx, out) && forall k | 0 <= k < |idx| :: idx[k] < |init|
  {
    forall k | 0 <= k < |idx| ensures FirstRowFor(rows, idx[k], out[k]) && idx[k] < |init| {
      FirstRowForPrefix(rows, init, idx[k], out[k]);
    }
  }

  /** The last row, as the first row of a new record, extends the list of first rows. */
  lemma FirstRowsAppend(rows: seq<BalanceRow>, idx: seq<int>, out: seq<ProviderRecord>, r: ProviderRecord)
    requires rows != [] && FirstRows(rows, idx, out) && FirstRowFor(rows, |rows| - 1, r)
    requires forall k | 0 <= k < |idx| :: idx[k] < |rows| - 1
    ensures FirstRows(rows, idx + [|rows| - 1], out + [r])
  {
    var idx', out' := idx + [|rows| - 1], out + [r];
    forall k | 0 <= k < |idx'| ensures FirstRowFor(rows, idx'[k], out'[k]) {
      if k < |idx| {
        assert idx'[k] == idx[k] && out'[k] == out[k];
      }
    }
  }

  /** A first row of a prefix of the rows is a first row of the rows. */
  lemma FirstRowForPrefix(rows: seq<BalanceRow>, init: seq<BalanceRow>, i: int, r: ProviderRecord)
    requires rows != [] && init == rows[..|rows| - 1] && FirstRowFor(init, i, r)
    ensures FirstRowFor(rows, i, r) && i < |init|
  {
    assert rows[i] == init[i];
    forall j | 0 <= j < i ensures rows[j] == init[j] { }
  }

  /** The last row is the first row for its record when no earlier row has its id. */
  lemma FirstRowForLast(rows: seq<BalanceRow>, init: seq<BalanceRow>, r: ProviderRecord)
    requires rows != [] && init == rows[..|rows| - 1] && BalanceEntry(rows[|rows| - 1]) == Some(r)
    requires !SomeBalanceRow(init, r.providerId)
    ensures FirstRowFor(rows, |rows| - 1, r)
  {
    forall j | 0 <= j < |init| ensures !HasBalanceId(rows[j], r.providerId) {
      assert rows[j] == init[j];
    }
  }

  /** Some row is the first row for `r`. */
  predicate HasFirstRow(rows: seq<BalanceRow>, r: ProviderRecord)
  {
    exists i | 0 <= i < |rows| :: FirstRowFor(rows, i, r)
  }

  /**
   * Every record of `out` is the record of the first row with its id, and
   * the records come in the order of those first rows.
   */
  predicate KeepsFirstRows(rows: seq<BalanceRow>, out: seq<ProviderRecord>)
  {
    && (forall k | 0 <= k < |out| :: HasFirstRow(rows, out[k]))
    && (forall k, l, i, j | 0 <= k < l < |out| && 0 <= i < |rows| && 0 <= j < |rows|
          && FirstRowFor(rows, i, out[k]) && FirstRowFor(rows, j, out[l]) :: i < j)
  }

  /** The Balance output keeps the first row of each id, in the order of those rows. */
  lemma BalanceRecordsFirst(rows: seq<BalanceRow>)
    ensures KeepsFirstRows(rows, BalanceRecords(rows))
  {
    var out := BalanceRecords(rows);
    var idx := BalanceFirstRows(rows);
    forall k | 0 <= k < |out| ensures HasFirstRow(rows, out[k]) {
      assert FirstRowFor(rows, idx[k], out[k]);
    }
    forall k, i | 0 <= k < |out| && FirstRowFor(rows, i, out[k]) ensures i == idx[k] {
      FirstRowUnique(rows, i, idx[k], out[k]);
    }
  }

  lemma FirstRowUnique(rows: seq<BalanceRow>, i: int, j: int, r: ProviderRecord)
    requires FirstRowFor(rows, i, r) && FirstRowFor(rows, j, r)
    ensures i == j
  {
    assert HasBalanceId(rows[i], r.providerId);
    assert HasBalanceId(rows[j], r.providerId);
  }

  // ---------------------------------------------------------------- DDP

  /** One DDP row after the column transformations, or nothing when its number does not normalise. */
  function DdpEntry(row: DdpRow): (e: Option<ProviderRecord>)
    ensures e.Some? <==> NormalizeDdpId(row.number).Some?
    ensures e.Some? ==> e.value.providerId == NormalizeDdpId(row.number).value
    ensures e.Some? ==> e.value.providerName == CleanName(row.name) && e.value.amount == CleanAmount(row.amount)
  {
    match NormalizeDdpId(row.number)
    case None => None
    case Some(id) => Some(ProviderRecord(id, CleanName(row.name), CleanAmount(row.amount)))
  }

  /**
   * The DDP rows after the column transformations and `dropna`: the entries
   * of the rows that have an id, in row order.
   */
  function DdpEntries(rows: seq<DdpRow>): (r: seq<ProviderRecord>)
    ensures |r| <= |rows|
  {
    if rows == [] then []
    else
      var init := DdpEntries(rows[..|rows| - 1]);
      match DdpEntry(rows[|rows| - 1])
      case None => init
      case Some(r) => init + [r]
  }

  /** The sum of the amounts of the entries with id `id`. */
  function SumFor(entries: seq<ProviderRecord>, id: string): real
  {
    if entries == [] then 0.0
    else
      var e := entries[|entries| - 1];
      SumFor(entries[..|entries| - 1], id) + (if e.providerId == id then e.amount else 0.0)
  }

  /** The names of the entries with id `id`, in order: the group `_first_non_empty` is given. */
  function NamesFor(entries: seq<ProviderRecord>, id: string): seq<string>
  {
    if entries == [] then []
    else
      var e := entries[|entries| - 1];
      NamesFor(entries[..|entries| - 1], id) + (if e.providerId == id then [e.providerName] else [])
  }

  /** `_first_non_empty`: the first non-empty string of `names`, or "" when there is none. */
  function FirstNonEmpty(names: seq<string>): (r: string)
    ensures r == "" || r in names
  {
    if names == [] then ""
    else if names[0] != "" then names[0]
    else FirstNonEmpty(names[1..])
  }

  /**
   * `_first_non_empty` gives "" exactly when every name is empty, and
   * otherwise the name at the first position holding a non-empty one.
   */
  lemma {:induction false} FirstNonEmptySpec(names: seq<string>)
    ensures FirstNonEmpty(names) == "" <==> forall k | 0 <= k < |names| :: names[k] == ""
    ensures FirstNonEmpty(names) != "" ==> exists k | 0 <= k < |names| ::
      names[k] == FirstNonEmpty(names) && forall j | 0 <= j < k :: names[j] == ""
  {
    if names != [] && names[0] == "" {
      FirstNonEmptySpec(names[1..]);
      assert forall k | 1 <= k < |names| :: names[k] == names[1..][k - 1];
      if FirstNonEmpty(names) != "" {
        var k :| 0 <= k < |names[1..]| && names[1..][k] == FirstNonEmpty(names)
          && forall j | 0 <= j < k :: names[1..][j] == "";
        assert names[k + 1] == FirstNonEmpty(names);
        assert forall j | 0 <= j < k + 1 :: names[j] == "" by {
          forall j | 0 <= j < k + 1 ensures names[j] == "" {
            if j > 0 {
              assert names[j] == names[1..][j - 1];
            }
          }
        }
      }
    }
  }

  /** The record of the group of `id`: the id, the first non-empty name of its entries and the sum of their amounts. */
  function RecordOf(id: string, entries: seq<ProviderRecord>): ProviderRecord
  {
    ProviderRecord(id, FirstNonEmpty(NamesFor(entries, id)), SumFor(entries, id))
  }

  /** The record of each id of `ids`. */
  function RecordsOf(ids: seq<string>, entries: seq<ProviderRecord>): (out: seq<ProviderRecord>)
    ensures |out| == |ids|
  {
    seq(|ids|, k requires 0 <= k < |ids| => RecordOf(ids[k], entries))
  }

  lemma RecordsOfAppend(ids: seq<string>, k: nat, entries: seq<ProviderRecord>)
    requires k < |ids|
    ensures RecordsOf(ids[..k + 1], entries) == RecordsOf(ids[..k], entries) + [RecordOf(ids[k], entries)]
  {
  }

  /** The grouping of `load_ddp_records`: one record per id of `entries`, in ascending id order. */
  function GroupById(entries: seq<ProviderRecord>): (r: seq<ProviderRecord>)
    ensures |r| <= |entries|
  {
    RecordsOf(SortedDistinct(Ids(entries)), entries)
  }

  /** The records `load_ddp_records` returns. */
  function DdpRecords(rows: seq<DdpRow>): (r: seq<ProviderRecord>)
    ensures |r| <= |rows|
  {
    GroupById(DdpEntries(rows))
  }

  /** The `_first_non_empty` loop over one group's names. */
  method FirstNonEmptyName(items: seq<string>) returns (name: string)
    ensures name == FirstNonEmpty(items)
  {
    for i := 0 to |items|
      invariant FirstNonEmpty(items[i..]) == FirstNonEmpty(items)
    {
      if items[i] != "" {
        return items[i];
      }
      assert items[i..][1..] == items[i + 1..];
    }
    return "";
  }

  /** An id no entry has has sum 0 and no names. */
  lemma {:induction false} AbsentId(entries: seq<ProviderRecord>, id: string)
    requires id !in Elems(Ids(entries))
    ensures SumFor(entries, id) == 0.0 && NamesFor(entries, id) == []
  {
    if entries != [] {
      var init := entries[..|entries| - 1];
      assert Ids(init) == Ids(entries)[..|init|];
      assert Elems(Ids(init)) <= Elems(Ids(entries));
      AbsentId(init, id);
    }
  }

  /** `sums` holds every id of `entries` with the sum of its amounts, and no other id. */
  predicate SumsOf(entries: seq<ProviderRecord>, sums: map<string, real>)
  {
    sums.Keys == Elems(Ids(entries)) && forall id | id in sums :: sums[id] == SumFor(entries, id)
  }

  /** `names` holds every id of `entries` with the names of its entries, and no other id. */
  predicate NamesOf(entries: seq<ProviderRecord>, names: map<string, seq<string>>)
  {
    names.Keys == Elems(Ids(entries)) && forall id | id in names :: names[id] == NamesFor(entries, id)
  }

  /** `sums` and `names` hold the groups of `entries`: every id's amount sum and its names. */
  predicate Grouped(entries: seq<ProviderRecord>, sums: map<string, real>, names: map<string, seq<string>>)
  {
    SumsOf(entries, sums) && NamesOf(entries, names)
  }

  /** The ids of the entries up to `i`, inclusive. */
  lemma IdsStep(entries: seq<ProviderRecord>, i: nat)
    requires i < |entries|
    ensures entries[..i + 1][..i] == entries[..i]
    ensures Elems(Ids(entries[..i + 1])) == Elems(Ids(entries[..i])) + {entries[i].providerId}
  {
    assert entries[..i + 1] == entries[..i] + [entries[i]];
    IdsAppend(entries[..i], entries[i]);
    ElemsConcat(Ids(entries[..i]), [entries[i].providerId]);
  }

  /** Adding the amount of the entry at `i` to the sums of the entries before it. */
  lemma SumsStep(entries: seq<ProviderRecord>, i: nat, sums: map<string, real>)
    requires i < |entries| && SumsOf(entries[..i], sums)
    ensures var r := entries[i];
      SumsOf(entries[..i + 1], sums[r.providerId := (if r.providerId in sums then sums[r.providerId] else 0.0) + r.amount])
  {
    IdsStep(entries, i);
    if entries[i].providerId !in sums {
      AbsentId(entries[..i], entries[i].providerId);
    }
  }

  /** Appending the name of the entry at `i` to the names of the entries before it. */
  lemma NamesStep(entries: seq<ProviderRecord>, i: nat, names: map<string, seq<string>>)
    requires i < |entries| && NamesOf(entries[..i], names)
    ensures var r := entries[i];
      NamesOf(entries[..i + 1], names[r.providerId := (if r.providerId in names then names[r.providerId] else []) + [r.providerName]])
  {
    IdsStep(entries, i);
    if entries[i].providerId !in names {
      AbsentId(entries[..i], entries[i].providerId);
    }
  }

  /**
   * The `groupby` of `load_ddp_records`: one pass over the entries
   * accumulating each id's amount sum and its names.
   */
  method GroupEntries(entries: seq<ProviderRecord>) returns (sums: map<string, real>, names: map<string, seq<string>>)
    ensures Grouped(entries, sums, names)
  {
    sums, names := map[], map[];
    for i := 0 to |entries|
      invariant Grouped(entries[..i], sums, names)
    {
      SumsStep(entries, i, sums);
      NamesStep(entries, i, names);
      var r := entries[i];
      var id := r.providerId;
      sums := sums[id := (if id in sums then sums[id] else 0.0) + r.amount];
      names := names[id := (if id in names then names[id] else []) + [r.providerName]];
    }
    assert entries[..|entries|] == entries;
  }

  /** One record per id of `ids`, read from the groups of `entries`. */
  method BuildRecords(ids: seq<string>, entries: seq<ProviderRecord>, sums: map<string, real>, names: map<string, seq<string>>)
    returns (records: seq<ProviderRecord>)
    requires Grouped(entries, sums, names) && Elems(ids) <= Elems(Ids(entries))
    ensures records == RecordsOf(ids, entries)
  {
    records := [];
    for k := 0 to |ids|
      invariant records == RecordsOf(ids[..k], entries)
    {
      var id := ids[k];
      assert id in Elems(ids);
      var name := FirstNonEmptyName(names[id]);
      RecordsOfAppend(ids, k, entries);
      records := records + [ProviderRecord(id, name, sums[id])];
    }
    assert ids[..|ids|] == ids;
  }

  /** The groups of `entries`, then one record per id in ascending order. */
  method GroupRecords(entries: seq<ProviderRecord>) returns (records: seq<ProviderRecord>)
    ensures records == GroupById(entries)
  {
    var sums, names := GroupEntries(entries);
    var keys := SortedDistinct(Ids(entries));
    records := BuildRecords(keys, entries, sums, names);
  }

  /** `load_ddp_records` after the read: the entries of the rows, grouped by id. */
  method LoadDdpRecords(rows: seq<DdpRow>) returns (records: seq<ProviderRecord>)
    ensures records == DdpRecords(rows)
  {
    var entries := DdpEntries(rows);
    records := GroupRecords(entries);
  }

  // ------------------------------------------------------ DDP properties

  /** A row with DDP id `id`. */
  predicate HasDdpId(row: DdpRow, id: string)
  {
    NormalizeDdpId(row.number) == Some(id)
  }

  /** Some row of `rows` has DDP id `id`. */
  predicate SomeDdpRow(rows: seq<DdpRow>, id: string)
  {
    exists i | 0 <= i < |rows| :: HasDdpId(rows[i], id)
  }

  lemma SomeDdpRowSplit(rows: seq<DdpRow>, id: string)
    requires rows != []
    ensures SomeDdpRow(rows, id) <==> SomeDdpRow(rows[..|rows| - 1], id) || HasDdpId(rows[|rows| - 1], id)
  {
    ExistsSplit(rows, rows[..|rows| - 1], row => HasDdpId(row, id));
  }

  /** The DDP entries carry exactly the ids some row's number normalises to. */
  lemma {:induction false} DdpEntriesIds(rows: seq<DdpRow>)
    ensures forall id :: (id in Ids(DdpEntries(rows)) <==> SomeDdpRow(rows, id))
  {
    if rows != [] {
      var init, last := rows[..|rows| - 1], rows[|rows| - 1];
      DdpEntriesIds(init);
      var prev := DdpEntries(init);
      var e := DdpEntry(last);
      assert forall id :: (id in Ids(DdpEntries(rows)) <==> id in Ids(prev) || (e.Some? && e.value.providerId == id)) by {
        if e.Some? {
          IdsAppend(prev, e.value);
        }
      }
      forall id ensures SomeDdpRow(rows, id) <==> SomeDdpRow(init, id) || HasDdpId(last, id) {
        SomeDdpRowSplit(rows, id);
      }
    }
  }

  lemma IdsOfRecords(ids: seq<string>, entries: seq<ProviderRecord>)
    ensures Ids(RecordsOf(ids, entries)) == ids
  {
  }

  /** Records whose ids are strictly ascending have unique ids. */
  lemma SortedIdsUnique(s: seq<ProviderRecord>)
    requires StrictlySorted(Ids(s))
    ensures UniqueIds(s)
  {
    forall k, l | 0 <= k < l < |s| ensures s[k].providerId != s[l].providerId {
      StrictlySortedDistinct(Ids(s), k, l);
    }
  }

  /** The grouping holds one record per id of the entries and no other, in strictly ascending id order. */
  lemma GroupByIds(entries: seq<ProviderRecord>)
    ensures StrictlySorted(Ids(GroupById(entries)))
    ensures Elems(Ids(GroupById(entries))) == Elems(Ids(entries))
  {
    IdsOfRecords(SortedDistinct(Ids(entries)), entries);
  }

  /**
   * The DDP output has one record per id some row normalises to and no
   * other, in strictly ascending id order, so its ids are unique.
   */
  lemma DdpRecordsIds(rows: seq<DdpRow>)
    ensures StrictlySorted(Ids(DdpRecords(rows)))
    ensures UniqueIds(DdpRecords(rows))
    ensures forall id :: (id in Ids(DdpRecords(rows)) <==> SomeDdpRow(rows, id))
  {
    GroupByIds(DdpEntries(rows));
    SortedIdsUnique(DdpRecords(rows));
    DdpEntriesIds(rows);
    assert forall id :: (id in Ids(DdpRecords(rows)) <==> id in Elems(Ids(DdpEntries(rows))));
  }

  lemma {:induction false} FirstNonEmptyAppend(a: seq<string>, x: string)
    ensures FirstNonEmpty(a + [x]) == if FirstNonEmpty(a) != "" then FirstNonEmpty(a) else x
  {
    if a != [] {
      assert (a + [x])[1..] == a[1..] + [x];
      FirstNonEmptyAppend(a[1..], x);
    } else {
      assert [x][1..] == [];
    }
  }

  /** The names of the entries of all rows with id `id`, after one more row. */
  lemma NamesForStep(rows: seq<DdpRow>, id: string)
    requires rows != []
    ensures var last := rows[|rows| - 1];
      NamesFor(DdpEntries(rows), id) == NamesFor(DdpEntries(rows[..|rows| - 1]), id)
        + (if HasDdpId(last, id) then [CleanName(last.name)] else [])
  {
    var prev := DdpEntries(rows[..|rows| - 1]);
    match DdpEntry(rows[|rows| - 1]) {
      case None =>
      case Some(r) =>
        assert (prev + [r])[..|prev|] == prev;
    }
  }

  /** The sum of the cleaned amounts of the rows with DDP id `id`. */
  function RowsSumFor(rows: seq<DdpRow>, id: string): real
  {
    if rows == [] then 0.0
    else
      var last := rows[|rows| - 1];
      RowsSumFor(rows[..|rows| - 1], id) + (if HasDdpId(last, id) then CleanAmount(last.amount) else 0.0)
  }

  /** The sum for `id` over the entries of all rows, after one more row. */
  lemma SumForStep(rows: seq<DdpRow>, id: string)
    requires rows != []
    ensures var last := rows[|rows| - 1];
      SumFor(DdpEntries(rows), id) == SumFor(DdpEntries(rows[..|rows| - 1]), id)
        + (if HasDdpId(last, id) then CleanAmount(last.amount) else 0.0)
  {
    var prev := DdpEntries(rows[..|rows| - 1]);
    match DdpEntry(rows[|rows| - 1]) {
      case None =>
      case Some(r) =>
        assert (prev + [r])[..|prev|] == prev;
    }
  }

  /** The sum of a DDP id over the entries is the sum of the cleaned amounts of every row of that id. */
  lemma {:induction false} SumForRows(rows: seq<DdpRow>, id: string)
    ensures SumFor(DdpEntries(rows), id) == RowsSumFor(rows, id)
  {
    if rows != [] {
      SumForRows(rows[..|rows| - 1], id);
      SumForStep(rows, id);
    }
  }

  /** No row with id `id` holds a non-empty name. */
  predicate NoNamedRow(rows: seq<DdpRow>, id: string)
  {
    forall i | 0 <= i < |rows| && HasDdpId(rows[i], id) :: CleanName(rows[i].name) == ""
  }

  /** Row `i` is the first row with id `id` whose name is non-empty, and `name` is that name. */
  predicate FirstNamedRow(rows: seq<DdpRow>, id: string, i: int, name: string)
  {
    && 0 <= i < |rows| && HasDdpId(rows[i], id) && CleanName(rows[i].name) == name
    && NoNamedRow(rows[..i], id)
  }

  lemma NoNamedRowSplit(rows: seq<DdpRow>, id: string)
    requires rows != []
    ensures var last := rows[|rows| - 1];
      NoNamedRow(rows, id) <==> NoNamedRow(rows[..|rows| - 1], id) && (HasDdpId(last, id) ==> CleanName(last.name) == "")
  {
    ForallSplit(rows, rows[..|rows| - 1], row => HasDdpId(row, id) ==> CleanName(row.name) == "");
  }

  /** The first named row of `id` among the rows before the last is still the first one with the last row added. */
  lemma FirstNamedRowExtend(rows: seq<DdpRow>, id: string, i: int, name: string)
    requires rows != [] && FirstNamedRow(rows[..|rows| - 1], id, i, name)
    ensures FirstNamedRow(rows, id, i, name)
  {
    assert rows[..|rows| - 1][..i] == rows[..i];
  }

  /** With no named row of `id` before it, a last row of `id` with a name is the first named row. */
  lemma FirstNamedRowLast(rows: seq<DdpRow>, id: string)
    requires rows != [] && NoNamedRow(rows[..|rows| - 1], id)
    requires HasDdpId(rows[|rows| - 1], id)
    ensures FirstNamedRow(rows, id, |rows| - 1, CleanName(rows[|rows| - 1].name))
  {
  }

  /**
   * The name of a DDP group, in terms of the rows: "" when no row of the
   * id has a non-empty trimmed name, and otherwise the trimmed name of the
   * first row of the id whose name is non-empty.
   */
  lemma {:induction false} GroupName(rows: seq<DdpRow>, id: string)
    ensures var n := FirstNonEmpty(NamesFor(DdpEntries(rows), id));
      && (n == "" <==> NoNamedRow(rows, id))
      && (n != "" ==> exists i | 0 <= i < |rows| :: FirstNamedRow(rows, id, i, n))
  {
    if rows != [] {
      var init, last := rows[..|rows| - 1], rows[|rows| - 1];
      GroupName(init, id);
      NamesForStep(rows, id);
      NoNamedRowSplit(rows, id);
      var a := NamesFor(DdpEntries(init), id);
      if HasDdpId(last, id) {
        FirstNonEmptyAppend(a, CleanName(last.name));
      } else {
        assert a + [] == a;
      }
      var n0 := FirstNonEmpty(a);
      if n0 != "" {
        var i :| 0 <= i < |init| && FirstNamedRow(init, id, i, n0);
        FirstNamedRowExtend(rows, id, i, n0);
      } else if HasDdpId(last, id) && CleanName(last.name) != "" {
        FirstNamedRowLast(rows, id);
      }
    }
  }

  /** The name of each DDP record is the name of the first row of its id that has one, or "". */
  lemma DdpRecordName(rows: seq<DdpRow>, k: nat)
    requires k < |DdpRecords(rows)|
    ensures var r := DdpRecords(rows)[k];
      && (r.providerName == "" <==> NoNamedRow(rows, r.providerId))
      && (r.providerName != "" ==> exists i | 0 <= i < |rows| :: FirstNamedRow(rows, r.providerId, i, r.providerName))
  {
    GroupName(rows, DdpRecords(rows)[k].providerId);
  }

  // ------------------------------------------------------ DDP total

  /** The sum of the group sums of the ids of `ids`. */
  function SumOver(ids: seq<string>, entries: seq<ProviderRecord>): real
  {
    if ids == [] then 0.0 else SumOver(ids[..|ids| - 1], entries) + SumFor(entries, ids[|ids| - 1])
  }

  /** The sum of the amounts of the entries whose id is in `keys`. */
  function TotalIn(entries: seq<ProviderRecord>, keys: set<string>): real
  {
    if entries == [] then 0.0
    else
      var e := entries[|entries| - 1];
      TotalIn(entries[..|entries| - 1], keys) + (if e.providerId in keys then e.amount else 0.0)
  }

  /** No id occurs twice in `ids`. */
  predicate Distinct(ids: seq<string>)
  {
    forall i, j | 0 <= i < j < |ids| :: ids[i] != ids[j]
  }

  lemma {:induction false} TotalOfRecords(ids: seq<string>, entries: seq<ProviderRecord>)
    ensures Total(RecordsOf(ids, entries)) == SumOver(ids, entries)
  {
    if ids != [] {
      var init := ids[..|ids| - 1];
      TotalOfRecords(init, entries);
      var out := RecordsOf(ids, entries);
      assert out[..|out| - 1] == RecordsOf(init, entries);
    }
  }

  lemma {:induction false} TotalInAdd(entries: seq<ProviderRecord>, keys: set<string>, id: string)
    requires id !in keys
    ensures TotalIn(entries, keys + {id}) == TotalIn(entries, keys) + SumFor(entries, id)
  {
    if entries != [] {
      TotalInAdd(entries[..|entries| - 1], keys, id);
    }
  }

  lemma {:induction false} SumOverTotalIn(ids: seq<string>, entries: seq<ProviderRecord>)
    requires Distinct(ids)
    ensures SumOver(ids, entries) == TotalIn(entries, Elems(ids))
  {
    if ids == [] {
      assert Elems(ids) == {};
      TotalInNone(entries);
    } else {
      var init, id := ids[..|ids| - 1], ids[|ids| - 1];
      SumOverTotalIn(init, entries);
      assert ids == init + [id];
      ElemsConcat(init, [id]);
      assert Elems([id]) == {id};
      assert id !in Elems(init) by {
        forall i | 0 <= i < |init| ensures init[i] != id {
          assert init[i] == ids[i];
        }
      }
      TotalInAdd(entries, Elems(init), id);
    }
  }

  lemma {:induction false} TotalInNone(entries: seq<ProviderRecord>)
    ensures TotalIn(entries, {}) == 0.0
  {
    if entries != [] {
      TotalInNone(entries[..|entries| - 1]);
    }
  }

  lemma {:induction false} TotalInAll(entries: seq<ProviderRecord>, keys: set<string>)
    requires Elems(Ids(entries)) <= keys
    ensures TotalIn(entries, keys) == Total(entries)
  {
    if entries != [] {
      var init := entries[..|entries| - 1];
      assert Ids(init) == Ids(entries)[..|init|];
      assert Elems(Ids(init)) <= Elems(Ids(entries));
      assert Ids(entries)[|init|] == entries[|init|].providerId;
      TotalInAll(init, keys);
    }
  }

  /** Grouping by id neither loses nor adds an amount: the records' total is the entries' total. */
  lemma GroupByTotal(entries: seq<ProviderRecord>)
    ensures Total(GroupById(entries)) == Total(entries)
  {
    var keys := SortedDistinct(Ids(entries));
    forall i, j | 0 <= i < j < |keys| ensures keys[i] != keys[j] {
      StrictlySortedDistinct(keys, i, j);
    }
    TotalOfRecords(keys, entries);
    SumOverTotalIn(keys, entries);
    TotalInAll(entries, Elems(keys));
  }

  /** The DDP total is the sum of the cleaned amounts of the rows that have an id. */
  lemma DdpTotal(rows: seq<DdpRow>)
    ensures Total(DdpRecords(rows)) == Total(DdpEntries(rows))
  {
    GroupByTotal(DdpEntries(rows));
  }
}
