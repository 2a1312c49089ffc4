/** The one-time scrub of the audit tables: keyset pagination by id, one batch at a time. */
module Backfill {
  import opened Common
  import opened Json
  import InPlaceScrub
  import opened Scrub

  /** Two JSONB columns, each possibly NULL. */
  datatype Row = Row(before: Option<Json>, after: Option<Json>)

  /** Rows by id; a UUID counts as its 128-bit number. */
  type Table = map<int, Row>

  const DEFAULT_BATCH := 500

  predicate Populated(r: Row) { r.before.Some? || r.after.Some? }

  function ScrubCell(c: Option<Json>, deny: set<string>): Option<Json> {
    if c.Some? then Some(Scrubbed(c.value, deny)) else None
  }

  function ScrubRow(r: Row, deny: set<string>): Row { Row(ScrubCell(r.before, deny), ScrubCell(r.after, deny)) }

  predicate Dirty(r: Row, deny: set<string>) { ScrubRow(r, deny) != r }

  /** The populated ids after the cursor. */
  function Ids(t: Table, cursor: int): set<int> { set id | id in t && id > cursor && Populated(t[id]) }

  /** The scrub as one map over the whole table. */
  function ScrubAll(t: Table, deny: set<string>): Table { map id | id in t :: ScrubRow(t[id], deny) }

  /** The scrub of the listed rows only. */
  function ScrubListed(t: Table, ids: seq<int>, deny: set<string>): Table {
    map id | id in t :: if id in ids then ScrubRow(t[id], deny) else t[id]
  }

  // ---- Ascending order ----

  ghost predicate Lists(r: seq<int>, s: set<int>) { forall x :: x in r <==> x in s }

  /** Generic, so that the element is found by set membership alone. */
  lemma Pick<T>(s: set<T>) returns (x: T)
    requires s != {}
    ensures x in s
  {
    x :| x in s;
  }

  lemma LeastExists(s: set<int>)
    requires s != {}
    ensures exists x :: x in s && forall y :: y in s ==> x <= y
    decreases |s|
  {
    var x := Pick(s);
    var rest := s - {x};
    if rest == {} {
      forall y | y in s ensures x <= y {
        assert y == x || y in rest;
      }
    } else {
      LeastExists(rest);
      var m :| m in rest && forall y :: y in rest ==> m <= y;
      var least := if m < x then m else x;
      forall y | y in s ensures least <= y {
        assert y == x || y in rest;
      }
    }
  }

  function Least(s: set<int>): (x: int)
    requires s != {}
    ensures x in s && forall y :: y in s ==> x <= y
  {
    LeastExists(s);
    var x :| x in s && forall y :: y in s ==> x <= y;
    x
  }

  /** ORDER BY id. */
  function Ascending(s: set<int>): seq<int> {
    if s == {} then [] else [Least(s)] + Ascending(s - {Least(s)})
  }

  lemma {:induction false} AscendingIs(s: set<int>)
    ensures Lists(Ascending(s), s) && Sorted(Ascending(s))
  {
    if s != {} {
      var x := Least(s);
      var rest := Ascending(s - {x});
      AscendingIs(s - {x});
      forall y | y in rest ensures x < y {
        assert y in s - {x};
      }
      LeastFirst(x, rest);
      assert forall y :: y in s <==> y == x || y in rest;
    }
  }

  lemma LeastFirst(x: int, rest: seq<int>)
    requires Sorted(rest) && forall y :: y in rest ==> x < y
    ensures Sorted([x] + rest)
    ensures forall y :: y in [x] + rest <==> y == x || y in rest
  {
    forall i | 0 <= i < |rest| ensures x < rest[i] {
      assert rest[i] in rest;
    }
  }

  /** WHERE id > cursor AND populated ORDER BY id. */
  function Listed(t: Table, cursor: int): seq<int> { Ascending(Ids(t, cursor)) }

  /** LIMIT n. */
  function Page(t: Table, cursor: int, n: nat): seq<int> {
    var all := Listed(t, cursor);
    if n <= |all| then all[..n] else all
  }

  lemma ListedIs(t: Table, cursor: int)
    ensures Lists(Listed(t, cursor), Ids(t, cursor)) && Sorted(Listed(t, cursor))
  {
    AscendingIs(Ids(t, cursor));
  }

  lemma PageInTable(t: Table, cursor: int, n: nat)
    ensures forall id :: id in Page(t, cursor, n) ==> id in t
  {
    ListedIs(t, cursor);
    forall id | id in Page(t, cursor, n) ensures id in t {
      assert id in Listed(t, cursor);
    }
  }

  /** What follows the n-th listed id is exactly what a query from that id lists. */
  lemma ListedAfter(t: Table, cursor: int, n: nat)
    requires 0 < n <= |Listed(t, cursor)|
    ensures Listed(t, Listed(t, cursor)[n - 1]) == Listed(t, cursor)[n..]
  {
    var all := Listed(t, cursor);
    var pivot := all[n - 1];
    ListedIs(t, cursor);
    ListedIs(t, pivot);
    assert pivot in all;
    forall x ensures x in all[n..] <==> x in Listed(t, pivot) {
      if x in all[n..] {
        assert x in all;
      }
      if x in Ids(t, pivot) {
        assert x in all;
        var i :| 0 <= i < |all| && all[i] == x;
        assert i >= n;
        assert all[n..][i - n] == x;
      }
    }
    SortedUnique(all[n..], Listed(t, pivot));
  }

  // ---- Pending updates ----

  datatype Update = Update(id: int, row: Row)

  /** The updates a scan of the listed rows collects: one for each row the scrub changes. */
  function Updates(t: Table, ids: seq<int>, deny: set<string>): seq<Update>
    requires forall id :: id in ids ==> id in t
  {
    if ids == [] then []
    else
      var id := ids[|ids| - 1];
      Updates(t, ids[..|ids| - 1], deny) + if Dirty(t[id], deny) then [Update(id, ScrubRow(t[id], deny))] else []
  }

  function WriteAll(t: Table, updates: seq<Update>): Table {
    if updates == [] then t
    else
      var u := updates[|updates| - 1];
      WriteAll(t, updates[..|updates| - 1])[u.id := u.row]
  }

  lemma {:induction false} UpdatesPlus(t: Table, a: seq<int>, b: seq<int>, deny: set<string>)
    requires forall id :: id in a || id in b ==> id in t
    ensures Updates(t, a + b, deny) == Updates(t, a, deny) + Updates(t, b, deny)
  {
    if b == [] {
      assert a + b == a;
    } else {
      assert (a + b)[..|a + b| - 1] == a + b[..|b| - 1];
      UpdatesPlus(t, a, b[..|b| - 1], deny);
    }
  }

  lemma {:induction false} UpdatesAgree(t: Table, u: Table, ids: seq<int>, deny: set<string>)
    requires forall id :: id in ids ==> id in t && id in u && t[id] == u[id]
    ensures Updates(t, ids, deny) == Updates(u, ids, deny)
  {
    if ids != [] {
      assert ids[|ids| - 1] in ids;
      UpdatesAgree(t, u, ids[..|ids| - 1], deny);
    }
  }

  lemma ListedNext(t: Table, ids: seq<int>, id: int, deny: set<string>)
    requires id in t
    ensures ScrubListed(t, ids + [id], deny) ==
      if Dirty(t[id], deny) then ScrubListed(t, ids, deny)[id := ScrubRow(t[id], deny)] else ScrubListed(t, ids, deny)
  {
    var all, fore := ScrubListed(t, ids + [id], deny), ScrubListed(t, ids, deny);
    assert forall x :: x in ids + [id] <==> x in ids || x == id;
    assert all == if Dirty(t[id], deny) then fore[id := ScrubRow(t[id], deny)] else fore;
  }

  /** Writing the collected updates scrubs exactly the listed rows. */
  lemma {:induction false} WriteIsScrub(t: Table, ids: seq<int>, deny: set<string>)
    requires forall id :: id in ids ==> id in t
    ensures WriteAll(t, Updates(t, ids, deny)) == ScrubListed(t, ids, deny)
  {
    if ids == [] {
      assert ScrubListed(t, ids, deny) == t;
    } else {
      var id := ids[|ids| - 1];
      var fore := ids[..|ids| - 1];
      assert id in ids && ids == fore + [id];
      WriteIsScrub(t, fore, deny);
      var all := Updates(t, ids, deny);
      ListedNext(t, fore, id, deny);
      if Dirty(t[id], deny) {
        assert all[..|all| - 1] == Updates(t, fore, deny);
      } else {
        assert all == Updates(t, fore, deny);
      }
    }
  }

  lemma ScrubNone(t: Table, deny: set<string>)
    ensures ScrubListed(t, [], deny) == t
  {
  }

  /** A scrub neither adds, removes nor empties rows, so every query lists the same ids. */
  lemma ScrubKeepsIds(t: Table, ids: seq<int>, cursor: int, deny: set<string>)
    ensures Listed(ScrubListed(t, ids, deny), cursor) == Listed(t, cursor)
  {
    assert Ids(ScrubListed(t, ids, deny), cursor) == Ids(t, cursor);
  }

  // ---- The pass ----

  class AuditTable {
    var rows: Table

    constructor (rows: Table)
      ensures this.rows == rows
    {
      this.rows := rows;
    }

    /** Scrubs one column value. */
    static method ScrubRaw(c: Option<Json>, deny: set<string>) returns (out: Option<Json>, changed: bool)
      ensures out == ScrubCell(c, deny) && (changed <==> out != c)
    {
      if c.None? {
        return None, false;
      }
      var v, b := InPlaceScrub.ScrubDocument(c.value, deny);
      return Some(v), b;
    }

    /** The batch's transaction. */
    method Apply(updates: seq<Update>)
      modifies this
      ensures rows == WriteAll(old(rows), updates)
    {
      for i := 0 to |updates|
        invariant rows == WriteAll(old(rows), updates[..i])
      {
        assert updates[..i + 1][..i] == updates[..i];
        rows := rows[updates[i].id := updates[i].row];
      }
      assert updates[..|updates|] == updates;
    }

    /** One page after the cursor: scanned, counted and, unless a dry run, scrubbed. */
    method Batch(cursor: int, batchSize: nat, dryRun: bool, deny: set<string>)
      returns (scanned: nat, scrubbed: nat, nextCursor: int, more: bool)
      modifies this
      ensures forall id :: id in Page(old(rows), cursor, batchSize) ==> id in old(rows)
      ensures var page := Page(old(rows), cursor, batchSize);
        && scanned == |page|
        && scrubbed == |Updates(old(rows), page, deny)|
        && (page != [] ==> nextCursor == page[|page| - 1])
        && (more <==> |page| == batchSize)
        && rows == After(old(rows), page, dryRun, deny)
    {
      var page := Page(rows, cursor, batchSize);
      PageInTable(rows, cursor, batchSize);
      scanned := 0;
      nextCursor := 0;
      var updates: seq<Update> := [];
      for i := 0 to |page|
        invariant rows == old(rows)
        invariant scanned == i && (i > 0 ==> nextCursor == page[i - 1])
        invariant forall id :: id in page[..i] ==> id in rows
        invariant updates == Updates(rows, page[..i], deny)
      {
        var id := page[i];
        assert id in page;
        assert page[..i + 1][..i] == page[..i];
        scanned := scanned + 1;
        nextCursor := id;
        var newBefore, beforeChanged := ScrubRaw(rows[id].before, deny);
        var newAfter, afterChanged := ScrubRaw(rows[id].after, deny);
        if beforeChanged || afterChanged {
          updates := updates + [Update(id, Row(newBefore, newAfter))];
        }
      }
      assert page[..|page|] == page;
      WriteIsScrub(rows, page, deny);
      if !dryRun && |updates| > 0 {
        Apply(updates);
      } else if updates == [] {
        assert WriteAll(rows, updates) == rows;
      }
      scrubbed := |updates|;
      more := scanned == batchSize;
    }

    /**
     The loop over one table, from the lowest cursor. `fault` is the batch at which the database fails, if any;
     `trace` records the rows in the order they are scanned.
     */
    method Pass(batchSize: nat, dryRun: bool, deny: set<string>, fault: Option<nat>)
      returns (scanned: nat, scrubbed: nat, ok: bool, ghost trace: seq<int>)
      requires batchSize > 0
      modifies this
      ensures trace <= Listed(old(rows), 0) && (ok ==> trace == Listed(old(rows), 0))
      ensures fault.None? ==> ok
      ensures scanned == |trace|
      ensures forall id :: id in trace ==> id in old(rows)
      ensures scrubbed == |Updates(old(rows), trace, deny)|
      ensures rows == After(old(rows), trace, dryRun, deny)
    {
      scanned, scrubbed, trace := 0, 0, [];
      var cursor := 0;
      var batches := 0;
      var more := true;
      ghost var all := Listed(rows, 0);
      ScrubNone(rows, deny);
      assert all[0..] == all;
      while more
        invariant InPass(old(rows), rows, trace, cursor, more, dryRun, deny)
        invariant scanned == |trace| && scrubbed == |Updates(old(rows), trace, deny)|
        decreases |all| - |trace| + if more then 1 else 0
      {
        if fault == Some(batches) {
          return scanned, scrubbed, false, trace;
        }
        ghost var page := Page(rows, cursor, batchSize);
        PassTurn(old(rows), rows, trace, cursor, batchSize, dryRun, deny);
        var n, m, next, again := Batch(cursor, batchSize, dryRun, deny);
        scanned, scrubbed, cursor, more, batches := scanned + n, scrubbed + m, next, again, batches + 1;
        trace := trace + page;
        assert !more || cursor == page[batchSize - 1];
      }
      ok := true;
    }
  }

  /** What the table holds once the rows of `trace` have been through the pass. */
  function After(t: Table, trace: seq<int>, dryRun: bool, deny: set<string>): Table {
    if dryRun then t else ScrubListed(t, trace, deny)
  }

  /** Between two batches: the rows of `trace`, and no others, are done, and the next query lists all the rest. */
  ghost predicate InPass(t: Table, now: Table, trace: seq<int>, cursor: int, more: bool, dryRun: bool, deny: set<string>) {
    && trace <= Listed(t, 0)
    && (forall id :: id in trace ==> id in t)
    && now == After(t, trace, dryRun, deny)
    && (if more then Listed(t, cursor) == Listed(t, 0)[|trace|..] else trace == Listed(t, 0))
  }

  lemma PassTurn(t: Table, now: Table, trace: seq<int>, cursor: int, n: nat, dryRun: bool, deny: set<string>)
    requires n > 0 && InPass(t, now, trace, cursor, true, dryRun, deny)
    ensures forall id :: id in trace + Page(now, cursor, n) ==> id in t && id in now
    ensures var page := Page(now, cursor, n);
      && InPass(t, After(now, page, dryRun, deny), trace + page, if |page| == n then page[n - 1] else 0, |page| == n, dryRun, deny)
      && |Updates(t, trace + page, deny)| == |Updates(t, trace, deny)| + |Updates(now, page, deny)|
      && |trace + page| <= |Listed(t, 0)|
  {
    PassStep(t, now, trace, cursor, n, dryRun, deny);
    PageStep(t, now, trace, Page(now, cursor, n), dryRun, deny);
  }

  /** One more page: it continues the listing, and its counts and writes add up with what is already done. */
  lemma PassStep(t: Table, now: Table, trace: seq<int>, cursor: int, n: nat, dryRun: bool, deny: set<string>)
    requires n > 0 && trace <= Listed(t, 0) && Listed(t, cursor) == Listed(t, 0)[|trace|..]
    requires now == After(t, trace, dryRun, deny)
    ensures var all := Listed(t, 0);
      var page := Page(now, cursor, n);
      && trace + page <= all
      && (if |page| == n then Listed(t, page[n - 1]) == all[|trace + page|..] else trace + page == all)
  {
    var all := Listed(t, 0);
    var page := Page(now, cursor, n);
    ScrubKeepsIds(t, trace, cursor, deny);
    assert page <= all[|trace|..];
    if |page| == n {
      ListedAfter(t, cursor, n);
      assert all[|trace|..][n..] == all[|trace| + n..];
    }
  }

  lemma PageStep(t: Table, now: Table, trace: seq<int>, page: seq<int>, dryRun: bool, deny: set<string>)
    requires trace + page <= Listed(t, 0)
    requires now == After(t, trace, dryRun, deny)
    ensures forall id :: id in trace + page ==> id in t
    ensures Updates(t, trace + page, deny) == Updates(t, trace, deny) + Updates(now, page, deny)
    ensures After(now, page, dryRun, deny) == After(t, trace + page, dryRun, deny)
  {
    PrefixIsListed(t, trace, page);
    UpdatesPlus(t, trace, page, deny);
    UpdatesAgree(t, now, page, deny);
  }

  lemma PrefixIsListed(t: Table, trace: seq<int>, page: seq<int>)
    requires trace + page <= Listed(t, 0)
    ensures forall id :: id in trace || id in page ==> id in t
    ensures forall id :: id in page ==> id !in trace
  {
    var all := Listed(t, 0);
    ListedIs(t, 0);
    assert forall i :: 0 <= i < |trace| ==> trace[i] == all[i];
    assert forall i :: 0 <= i < |page| ==> page[i] == (trace + page)[|trace| + i] == all[|trace| + i];
    assert forall i :: 0 <= i < |all| ==> all[i] in all;
  }

  datatype Report = Report(crmScanned: nat, crmScrubbed: nat, legacyScanned: nat, legacyScrubbed: nat)

  /** Both tables in turn; a fault in the first leaves the second alone, and the report keeps what was counted. */
  method BackfillJSONBScrub(crm: AuditTable, legacy: AuditTable, batchSize: int, dryRun: bool,
                            crmFault: Option<nat>, legacyFault: Option<nat>)
    returns (rep: Report, ok: bool, ghost crmTrace: seq<int>, ghost legacyTrace: seq<int>)
    requires crm != legacy
    modifies crm, legacy
    ensures crmTrace <= Listed(old(crm.rows), 0) && legacyTrace <= Listed(old(legacy.rows), 0)
    ensures legacyTrace != [] ==> crmTrace == Listed(old(crm.rows), 0)
    ensures ok ==> crmTrace == Listed(old(crm.rows), 0) && legacyTrace == Listed(old(legacy.rows), 0)
    ensures crmFault.None? && legacyFault.None? ==> ok
    ensures (forall id :: id in crmTrace ==> id in old(crm.rows)) && (forall id :: id in legacyTrace ==> id in old(legacy.rows))
    ensures rep == Report(|crmTrace|, |Updates(old(crm.rows), crmTrace, SCRUB_KEYS)|,
                          |legacyTrace|, |Updates(old(legacy.rows), legacyTrace, SCRUB_KEYS)|)
    ensures crm.rows == After(old(crm.rows), crmTrace, dryRun, SCRUB_KEYS)
    ensures legacy.rows == After(old(legacy.rows), legacyTrace, dryRun, SCRUB_KEYS)
  {
    var size := if batchSize <= 0 then DEFAULT_BATCH else batchSize;
    ScrubNone(legacy.rows, SCRUB_KEYS);
    legacyTrace := [];
    var scanned, scrubbed;
    scanned, scrubbed, ok, crmTrace := crm.Pass(size, dryRun, SCRUB_KEYS, crmFault);
    rep := Report(scanned, scrubbed, 0, 0);
    if !ok {
      return;
    }
    scanned, scrubbed, ok, legacyTrace := legacy.Pass(size, dryRun, SCRUB_KEYS, legacyFault);
    rep := rep.(legacyScanned := scanned, legacyScrubbed := scrubbed);
  }

  // ---- What a pass achieves ----

  /** A full pass is one map of the scrub over the table, exactly when no row at or below the cursor needs it. */
  lemma FullPassIsOneMap(t: Table, deny: set<string>)
    ensures ScrubListed(t, Listed(t, 0), deny) == ScrubAll(t, deny)
      <==> forall id :: id in t && id <= 0 ==> !Dirty(t[id], deny)
  {
    ListedIs(t, 0);
    var pass, one := ScrubListed(t, Listed(t, 0), deny), ScrubAll(t, deny);
    forall id | id in t ensures pass[id] == one[id] <==> id > 0 || !Dirty(t[id], deny) {
      if !Populated(t[id]) {
        assert ScrubRow(t[id], deny) == t[id];
      } else {
        assert id in Listed(t, 0) <==> id > 0;
      }
    }
    if forall id :: id in t ==> pass[id] == one[id] {
      assert pass == one;
    }
  }

  lemma ScrubRowTwice(r: Row, deny: set<string>)
    ensures ScrubRow(ScrubRow(r, deny), deny) == ScrubRow(r, deny)
  {
    if r.before.Some? {
      ScrubIdempotent(r.before.value, deny);
    }
    if r.after.Some? {
      ScrubIdempotent(r.after.value, deny);
    }
  }

  lemma {:induction false} NothingDirty(t: Table, ids: seq<int>, deny: set<string>)
    requires forall id :: id in ids ==> id in t && !Dirty(t[id], deny)
    ensures Updates(t, ids, deny) == []
  {
    if ids != [] {
      assert ids[|ids| - 1] in ids;
      NothingDirty(t, ids[..|ids| - 1], deny);
    }
  }

  /** A second pass scans the same rows and scrubs none. */
  lemma SecondPassScrubsNone(t: Table, deny: set<string>)
    ensures var again := ScrubListed(t, Listed(t, 0), deny);
      && Listed(again, 0) == Listed(t, 0)
      && (forall id :: id in Listed(again, 0) ==> id in again)
      && Updates(again, Listed(again, 0), deny) == []
      && ScrubListed(again, Listed(again, 0), deny) == again
  {
    var done := Listed(t, 0);
    var again := ScrubListed(t, done, deny);
    ScrubKeepsIds(t, done, 0, deny);
    ListedIs(t, 0);
    forall id | id in done ensures id in t && again[id] == ScrubRow(t[id], deny) && !Dirty(again[id], deny) {
      ScrubRowTwice(t[id], deny);
    }
    NothingDirty(again, done, deny);
  }

  /** Rows scrubbed earlier need nothing more. */
  lemma DoneStaysDone(t: Table, done: seq<int>, all: seq<int>, deny: set<string>)
    requires forall id :: id in done ==> id in t && id in all
    ensures ScrubListed(ScrubListed(t, done, deny), all, deny) == ScrubListed(t, all, deny)
    ensures Updates(ScrubListed(t, done, deny), done, deny) == []
  {
    var cut := ScrubListed(t, done, deny);
    forall id | id in done ensures ScrubRow(cut[id], deny) == ScrubRow(t[id], deny) && !Dirty(cut[id], deny) {
      ScrubRowTwice(t[id], deny);
    }
    NothingDirty(cut, done, deny);
    var twice, once := ScrubListed(cut, all, deny), ScrubListed(t, all, deny);
    forall id | id in t ensures twice[id] == once[id] {
      if id in done {
        assert id in all;
      }
    }
    assert twice == once;
  }

  /** A pass cut short after `done`, then run again from the start, ends where one full pass ends, with the same counts. */
  lemma ResumedPass(t: Table, done: seq<int>, deny: set<string>)
    requires done <= Listed(t, 0)
    ensures forall id :: id in Listed(t, 0) || id in done ==> id in t
    ensures var cut := ScrubListed(t, done, deny);
      && Listed(cut, 0) == Listed(t, 0)
      && ScrubListed(cut, Listed(t, 0), deny) == ScrubListed(t, Listed(t, 0), deny)
      && |Updates(t, done, deny)| + |Updates(cut, Listed(t, 0), deny)| == |Updates(t, Listed(t, 0), deny)|
  {
    var all := Listed(t, 0);
    var rest := all[|done|..];
    var cut := ScrubListed(t, done, deny);
    assert all == done + rest;
    PrefixIsListed(t, done, rest);
    assert forall id :: id in all ==> id in done || id in rest;
    assert forall id :: id in done ==> id in all by {
      assert forall i :: 0 <= i < |done| ==> done[i] == all[i];
    }
    ScrubKeepsIds(t, done, 0, deny);
    DoneStaysDone(t, done, all, deny);
    UpdatesPlus(t, done, rest, deny);
    UpdatesPlus(cut, done, rest, deny);
    UpdatesAgree(cut, t, rest, deny);
  }
}
