/**
 `GET /ops`: pulling the log page by page while other requests append to it and prune it.
 Source: backend/app/sync/routes.py.
 */
module Paging {
  import opened Wrappers
  import opened ByteStrings
  import opened Payloads
  import opened OpLog
  import opened OpLogFacts
  import opened LogInvariant
  import opened KeyWraps
  import KeyPlane
  import opened Interleaving
  import opened Races

  // --- One page ---

  predicate IsServed(row: OpRow, since: nat, includeCompacted: bool) {
    since < row.seqNo && (includeCompacted || row.compactedBy.None?)
  }

  /** The rows a pull selects, in transport order. */
  function Selected(rows: seq<OpRow>, since: nat, includeCompacted: bool): seq<OpRow> {
    if rows == [] then []
    else
      var row := rows[|rows| - 1];
      Selected(rows[..|rows| - 1], since, includeCompacted)
      + if IsServed(row, since, includeCompacted) then [row] else []
  }

  datatype Page = Page(rows: seq<OpRow>, hasMore: bool)

  function Pull(rows: seq<OpRow>, since: nat, limit: nat, includeCompacted: bool): Page {
    var selected := Selected(rows, since, includeCompacted);
    if |selected| > limit then Page(selected[..limit], true) else Page(selected, false)
  }

  lemma {:induction false} SelectedExactly(rows: seq<OpRow>, since: nat, includeCompacted: bool, row: OpRow)
    ensures row in Selected(rows, since, includeCompacted) <==> row in rows && IsServed(row, since, includeCompacted)
  {
    if rows != [] {
      var n := |rows| - 1;
      SelectedExactly(rows[..n], since, includeCompacted, row);
      assert rows == rows[..n] + [rows[n]];
    }
  }

  lemma {:induction false} SelectedIncrease(rows: seq<OpRow>, since: nat, includeCompacted: bool)
    requires Increasing(rows)
    ensures Increasing(Selected(rows, since, includeCompacted))
  {
    hide IsServed;
    if rows != [] {
      var n := |rows| - 1;
      SelectedIncrease(rows[..n], since, includeCompacted);
      SelectedBelow(rows, since, includeCompacted, n);
      IncreasingSnoc(Selected(rows[..n], since, includeCompacted), rows[n]);
    }
  }

  lemma SelectedBelow(rows: seq<OpRow>, since: nat, includeCompacted: bool, n: nat)
    requires Increasing(rows) && n < |rows|
    ensures forall r | r in Selected(rows[..n], since, includeCompacted) :: r.seqNo < rows[n].seqNo
  {
    hide Selected, IsServed;
    forall r | r in Selected(rows[..n], since, includeCompacted)
      ensures r.seqNo < rows[n].seqNo
    {
      SelectedExactly(rows[..n], since, includeCompacted, r);
      var i :| 0 <= i < n && rows[i] == r;
    }
  }

  lemma IncreasingSnoc(rows: seq<OpRow>, row: OpRow)
    requires Increasing(rows) && 0 < row.seqNo && forall r | r in rows :: r.seqNo < row.seqNo
    ensures Increasing(rows + [row])
  {
  }

  /** A page holds every selected row up to its last one; the last page holds them all. */
  lemma PageIsComplete(rows: seq<OpRow>, since: nat, limit: nat, includeCompacted: bool, row: OpRow)
    requires Increasing(rows) && 1 <= limit && row in rows && IsServed(row, since, includeCompacted)
    ensures var page := Pull(rows, since, limit, includeCompacted);
            && |page.rows| <= limit && (page.hasMore ==> |page.rows| == limit)
            && (page.hasMore && row !in page.rows ==> page.rows[|page.rows| - 1].seqNo < row.seqNo)
            && (!page.hasMore ==> row in page.rows)
  {
    SelectedExactly(rows, since, includeCompacted, row);
    SelectedIncrease(rows, since, includeCompacted);
    var selected := Selected(rows, since, includeCompacted);
    var i :| 0 <= i < |selected| && selected[i] == row;
    if |selected| > limit && i < limit {
      assert selected[..limit][i] == row;
    }
  }

  // --- A page, by rows ---

  /** The rows past `since` and below a seq that are not hidden from this pull. */
  ghost function VisibleBelow(rows: seq<OpRow>, since: nat, includeCompacted: bool, seqNo: nat): set<OpRow> {
    set r | r in rows && since < r.seqNo < seqNo && (includeCompacted || r.compactedBy.None?)
  }

  function Elements(rows: seq<OpRow>): set<OpRow> {
    set r | r in rows
  }

  lemma {:induction false} ElementsCount(rows: seq<OpRow>, n: nat)
    requires Increasing(rows) && n <= |rows|
    ensures |Elements(rows[..n])| == n
  {
    hide Elements, Increasing;
    if n == 0 {
      NoElements(rows[..0]);
    } else {
      ElementsCount(rows, n - 1);
      NotBefore(rows, n - 1);
      OneMoreElement(rows[..n - 1], rows[n - 1]);
      assert rows[..n] == rows[..n - 1] + [rows[n - 1]];
    }
  }

  lemma NoElements(rows: seq<OpRow>)
    requires rows == []
    ensures Elements(rows) == {}
  {
  }

  lemma OneMoreElement(rows: seq<OpRow>, row: OpRow)
    requires row !in rows
    ensures |Elements(rows + [row])| == |Elements(rows)| + 1
  {
    assert Elements(rows + [row]) == Elements(rows) + {row};
  }

  lemma NotBefore(rows: seq<OpRow>, k: nat)
    requires Increasing(rows) && k < |rows|
    ensures rows[k] !in rows[..k]
  {
  }

  /** The k-th selected row has exactly k visible rows below it. */
  lemma BelowCounts(rows: seq<OpRow>, since: nat, includeCompacted: bool, k: nat)
    requires Increasing(rows) && k < |Selected(rows, since, includeCompacted)|
    ensures |VisibleBelow(rows, since, includeCompacted, Selected(rows, since, includeCompacted)[k].seqNo)| == k
  {
    hide Selected;
    var selected := Selected(rows, since, includeCompacted);
    SelectedIncrease(rows, since, includeCompacted);
    ElementsCount(selected, k);
    forall r
      ensures r in VisibleBelow(rows, since, includeCompacted, selected[k].seqNo) <==> r in Elements(selected[..k])
    {
      SelectedExactly(rows, since, includeCompacted, r);
      if r in selected && r.seqNo < selected[k].seqNo {
        var i :| 0 <= i < |selected| && selected[i] == r;
        assert selected[..k][i] == r;
      }
    }
    assert VisibleBelow(rows, since, includeCompacted, selected[k].seqNo) == Elements(selected[..k]);
  }

  /**
   A row is on the page if and only if it is stored past the cursor, not hidden by a prune unless the pull includes
   those, and has fewer than `limit` such rows below it. The page is in transport order, and announces more exactly
   when it leaves a visible row out.
   */
  lemma PullExactly(rows: seq<OpRow>, since: nat, limit: nat, includeCompacted: bool, row: OpRow)
    requires Increasing(rows) && 1 <= limit
    ensures var page := Pull(rows, since, limit, includeCompacted);
            && (row in page.rows <==>
                  && row in rows && since < row.seqNo && (includeCompacted || row.compactedBy.None?)
                  && |VisibleBelow(rows, since, includeCompacted, row.seqNo)| < limit)
            && Increasing(page.rows)
            && (page.hasMore <==> exists r | r in rows ::
                  since < r.seqNo && (includeCompacted || r.compactedBy.None?) && r !in page.rows)
  {
    hide Selected, VisibleBelow, Increasing;
    var selected, page := Selected(rows, since, includeCompacted), Pull(rows, since, limit, includeCompacted);
    SelectedExactly(rows, since, includeCompacted, row);
    SelectedIncrease(rows, since, includeCompacted);
    PrefixIncreases(selected, |page.rows|);
    assert page.rows == selected[..|page.rows|];
    if row in selected {
      var k :| 0 <= k < |selected| && selected[k] == row;
      BelowCounts(rows, since, includeCompacted, k);
      OnPrefix(selected, |page.rows|, k);
    }
    if page.hasMore {
      SelectedExactly(rows, since, includeCompacted, selected[limit]);
      OnPrefix(selected, limit, limit);
    } else {
      forall r | r in rows && since < r.seqNo && (includeCompacted || r.compactedBy.None?)
        ensures r in page.rows
      {
        SelectedExactly(rows, since, includeCompacted, r);
      }
    }
  }

  lemma PrefixIncreases(rows: seq<OpRow>, n: nat)
    requires Increasing(rows) && n <= |rows|
    ensures Increasing(rows[..n])
  {
  }

  lemma OnPrefix(rows: seq<OpRow>, n: nat, k: nat)
    requires Increasing(rows) && n <= |rows| && k < |rows|
    ensures rows[k] in rows[..n] <==> k < n
  {
    if k < n {
      assert rows[..n][k] == rows[k];
    }
  }

  lemma PageIsSelected(rows: seq<OpRow>, since: nat, limit: nat, includeCompacted: bool, row: OpRow)
    requires row in Pull(rows, since, limit, includeCompacted).rows
    ensures row in rows && since < row.seqNo
  {
    SelectedExactly(rows, since, includeCompacted, row);
  }

  // --- A client that pages ---

  /** The client keeps a cursor and what it pulled; it goes on from the last seq it saw. */
  datatype Client = Client(since: nat, pulled: seq<OpRow>, hasMore: bool)

  function Next(c: Client, rows: seq<OpRow>, limit: nat, includeCompacted: bool): Client {
    var page := Pull(rows, c.since, limit, includeCompacted);
    Client(if page.rows == [] then c.since else page.rows[|page.rows| - 1].seqNo, c.pulled + page.rows, page.hasMore)
  }

  /** After pulls against the tables of successive moments. */
  function ClientAfter(tables: seq<seq<OpRow>>, limit: nat, includeCompacted: bool): Client {
    if tables == [] then Client(0, [], true)
    else Next(ClientAfter(tables[..|tables| - 1], limit, includeCompacted), tables[|tables| - 1], limit,
      includeCompacted)
  }

  /** The tables a paging client meets: each sound, each grown from the one before. */
  ghost predicate Growing(tables: seq<seq<OpRow>>) {
    && (forall k | 0 <= k < |tables| :: Increasing(tables[k]) && StampsSound(tables[k]))
    && (forall j, k | 0 <= j <= k < |tables| :: Extends(tables[j], tables[k]))
  }

  predicate WasPulled(pulled: seq<OpRow>, row: OpRow) {
    exists p | p in pulled :: p.seqNo == row.seqNo && p.op == row.op
  }

  /** Behind the cursor nothing is missing but, on the default pull, what has been stamped. */
  ghost predicate CoveredUpTo(rows: seq<OpRow>, pulled: seq<OpRow>, since: nat, includeCompacted: bool) {
    forall i | 0 <= i < |rows| && rows[i].seqNo <= since ::
      WasPulled(pulled, rows[i]) || (rows[i].compactedBy.Some? && !includeCompacted)
  }

  lemma OlderCursorCovers(a: seq<OpRow>, b: seq<OpRow>, pulled: seq<OpRow>, since: nat, includeCompacted: bool)
    requires Extends(a, b) && Increasing(b) && since <= Top(a) && CoveredUpTo(a, pulled, since, includeCompacted)
    ensures CoveredUpTo(b, pulled, since, includeCompacted)
  {
  }

  lemma PageCovers(rows: seq<OpRow>, c: Client, limit: nat, includeCompacted: bool)
    requires Increasing(rows) && 1 <= limit && c.since <= Top(rows)
    requires CoveredUpTo(rows, c.pulled, c.since, includeCompacted)
    ensures var c' := Next(c, rows, limit, includeCompacted);
            && c.since <= c'.since <= Top(rows) && CoveredUpTo(rows, c'.pulled, c'.since, includeCompacted)
            && (!c'.hasMore ==> CoveredUpTo(rows, c'.pulled, Top(rows), includeCompacted))
            && (c'.hasMore ==> c.since < c'.since)
  {
    hide Pull;
    var page := Pull(rows, c.since, limit, includeCompacted);
    var c' := Next(c, rows, limit, includeCompacted);
    CursorMoves(rows, c.since, limit, includeCompacted);
    forall i | 0 <= i < |rows|
      ensures rows[i].seqNo <= c'.since || !c'.hasMore ==>
                WasPulled(c'.pulled, rows[i]) || (rows[i].compactedBy.Some? && !includeCompacted)
    {
      if rows[i].seqNo <= c.since {
        if WasPulled(c.pulled, rows[i]) {
          var p :| p in c.pulled && p.seqNo == rows[i].seqNo && p.op == rows[i].op;
          assert p in c'.pulled;
        }
      } else if IsServed(rows[i], c.since, includeCompacted) {
        PageIsComplete(rows, c.since, limit, includeCompacted, rows[i]);
        if rows[i] in page.rows {
          assert rows[i] in c'.pulled;
        }
      }
    }
  }

  lemma CursorMoves(rows: seq<OpRow>, since: nat, limit: nat, includeCompacted: bool)
    requires Increasing(rows) && 1 <= limit
    ensures var page := Pull(rows, since, limit, includeCompacted);
            && (page.hasMore ==> page.rows != [])
            && (page.rows != [] ==> since < page.rows[|page.rows| - 1].seqNo <= Top(rows))
  {
    var page := Pull(rows, since, limit, includeCompacted);
    if page.rows != [] {
      var last := page.rows[|page.rows| - 1];
      PageIsSelected(rows, since, limit, includeCompacted, last);
      var i :| 0 <= i < |rows| && rows[i] == last;
    }
  }

  lemma {:induction false} PagingCovers(tables: seq<seq<OpRow>>, limit: nat, includeCompacted: bool)
    requires Growing(tables) && tables != [] && 1 <= limit
    ensures var c, rows := ClientAfter(tables, limit, includeCompacted), tables[|tables| - 1];
            && c.since <= Top(rows) && CoveredUpTo(rows, c.pulled, c.since, includeCompacted)
            && (!c.hasMore ==> CoveredUpTo(rows, c.pulled, Top(rows), includeCompacted))
  {
    hide StampsSound, Pull, Next, Extends, Increasing;
    var n := |tables| - 1;
    var earlier := tables[..n];
    var c := ClientAfter(earlier, limit, includeCompacted);
    NoSeqIsZero(tables[n], includeCompacted);
    if n > 0 {
      assert forall k | 0 <= k < n :: earlier[k] == tables[k];
      PagingCovers(earlier, limit, includeCompacted);
      assert Extends(tables[n - 1], tables[n]);
      TopsGrow(tables[n - 1], tables[n]);
      OlderCursorCovers(tables[n - 1], tables[n], c.pulled, c.since, includeCompacted);
    }
    PageCovers(tables[n], c, limit, includeCompacted);
  }

  lemma NoSeqIsZero(rows: seq<OpRow>, includeCompacted: bool)
    requires Increasing(rows)
    ensures CoveredUpTo(rows, [], 0, includeCompacted)
  {
  }

  lemma TopsGrow(a: seq<OpRow>, b: seq<OpRow>)
    requires Extends(a, b) && Increasing(b)
    ensures Top(a) <= Top(b)
  {
  }

  // --- Nothing is lost ---

  /** A pulled prune attests the row: its seq, its author position and its envelope hash. */
  ghost predicate WasAttested(pulled: seq<OpRow>, row: OpRow) {
    exists p | p in pulled :: Attests(p.op, row)
  }

  /**
   A client whose last page was the final one holds every row of the log, or a prune that attests it; on the
   history view, which serves stamped rows too, it holds every row itself.
   */
  lemma FinishedClientHoldsEverything(tables: seq<seq<OpRow>>, limit: nat, includeCompacted: bool, i: nat)
    requires Growing(tables) && tables != [] && 1 <= limit && i < |tables[|tables| - 1]|
    requires !ClientAfter(tables, limit, includeCompacted).hasMore
    ensures var pulled, row := ClientAfter(tables, limit, includeCompacted).pulled, tables[|tables| - 1][i];
            WasPulled(pulled, row) || (!includeCompacted && WasAttested(pulled, row))
  {
    hide ClientAfter, Extends, Attests;
    var rows := tables[|tables| - 1];
    var pulled := ClientAfter(tables, limit, includeCompacted).pulled;
    PagingCovers(tables, limit, includeCompacted);
    assert StampSound(rows, i);
    assert rows[i].seqNo <= Top(rows);
    if rows[i].compactedBy.Some? {
      var j :| i < j < |rows| && rows[j].seqNo == rows[i].compactedBy.value && Attests(rows[j].op, rows[i]);
      assert StampSound(rows, j);
      AttestorIsExempt(rows[j].op, rows[i]);
      assert rows[j].seqNo <= Top(rows) && WasPulled(pulled, rows[j]);
      var p :| p in pulled && p.seqNo == rows[j].seqNo && p.op == rows[j].op;
      assert Attests(p.op, rows[i]);
    }
  }

  /** The pulled op at an author position, or the pulled attestation of it. */
  ghost predicate PositionKnown(pulled: seq<OpRow>, author: Uuid, q: nat, hash: Bytes) {
    || (exists p | p in pulled :: p.op.Author() == author && p.op.header.authorSeq == q && p.op.hash == hash)
    || (exists p | p in pulled :: AttestsPosition(p.op, author, q, hash))
  }

  ghost predicate AttestsPosition(prune: Op, author: Uuid, q: nat, hash: Bytes) {
    prune.IsDecodedPrune() &&
    exists t | t in prune.TargetsOf() :: t.authorMemberId == author && t.authorSeq == q && t.envelopeHash == hash
  }

  /** The log's author has an op at this position with this envelope hash. */
  ghost predicate HasPosition(rows: seq<OpRow>, author: Uuid, q: nat, hash: Bytes) {
    exists i | 0 <= i < |rows| ::
      rows[i].op.Author() == author && rows[i].op.header.authorSeq == q && rows[i].op.hash == hash
  }

  /** What a client pulled while a run went on around it: `at[k]` is the version its k-th pull saw. */
  ghost predicate PullsAt(hist: seq<Db>, at: seq<nat>) {
    && at != [] && (forall k | 0 <= k < |at| :: at[k] < |hist|)
    && forall j, k | 0 <= j <= k < |at| :: at[j] <= at[k]
  }

  function TablesSeen(hist: seq<Db>, at: seq<nat>): seq<seq<OpRow>>
    requires forall k | 0 <= k < |at| :: at[k] < |hist|
  {
    seq(|at|, k requires 0 <= k < |at| => hist[at[k]].ops)
  }

  lemma RunsGrow(site: Site, book: Book, strings: set<Bytes>, hist: seq<Db>, txns: seq<Txn>, at: seq<nat>)
    requires Run(site, book, strings, hist, txns) && PullsAt(hist, at)
    ensures Growing(TablesSeen(hist, at))
  {
    hide Run, Good, Grows, Extends, StampsSound, Increasing;
    forall j, k | 0 <= j <= k < |at|
      ensures Extends(hist[at[j]].ops, hist[at[k]].ops) && Increasing(hist[at[k]].ops) && StampsSound(hist[at[k]].ops)
    {
      VersionIsGood(site, book, strings, hist, txns, at[j], at[k]);
      GoodParts(site, book, strings, hist[at[j]], hist[at[k]]);
    }
    forall k | 0 <= k < |at|
      ensures Increasing(hist[at[k]].ops) && StampsSound(hist[at[k]].ops)
    {
      assert 0 <= k <= k < |at| && Extends(hist[at[k]].ops, hist[at[k]].ops);
    }
  }

  lemma GoodParts(site: Site, book: Book, strings: set<Bytes>, a: Db, b: Db)
    requires Good(book, b) && Grows(a, b)
    ensures Increasing(b.ops) && StampsSound(b.ops) && Chained(OpsOf(b.ops)) && Extends(a.ops, b.ops)
  {
    hide Increasing, StampsSound, Chained, Extends;
  }

  /**
   Whatever appends and prunes commit between its pages, a client that reaches the end of the log knows every
   author position up to that author's head, by the op itself or by a pulled prune with the right envelope hash.
   */
  lemma PagingLosesNothing(
    site: Site, book: Book, strings: set<Bytes>, hist: seq<Db>, txns: seq<Txn>, at: seq<nat>, limit: nat,
    includeCompacted: bool, author: Uuid, q: nat)
    returns (hash: Bytes)
    requires Run(site, book, strings, hist, txns) && PullsAt(hist, at) && 1 <= limit
    requires !ClientAfter(TablesSeen(hist, at), limit, includeCompacted).hasMore
    requires 1 <= q <= Positions(OpsOf(hist[at[|at| - 1]].ops), author)
    ensures HasPosition(hist[at[|at| - 1]].ops, author, q, hash)
    ensures PositionKnown(ClientAfter(TablesSeen(hist, at), limit, includeCompacted).pulled, author, q, hash)
  {
    hide Run, Good, Grows, Growing, ClientAfter, Positions, Chained, Increasing, StampsSound;
    var last := at[|at| - 1];
    var rows := hist[last].ops;
    VersionIsGood(site, book, strings, hist, txns, last, last);
    GoodParts(site, book, strings, hist[last], hist[last]);
    RunsGrow(site, book, strings, hist, txns, at);
    PositionFilled(OpsOf(rows), author, q);
    var i :| 0 <= i < |rows| && OpsOf(rows)[i].Author() == author && OpsOf(rows)[i].header.authorSeq == q;
    FinishedClientHoldsEverything(TablesSeen(hist, at), limit, includeCompacted, i);
    hash := rows[i].op.hash;
    var pulled := ClientAfter(TablesSeen(hist, at), limit, includeCompacted).pulled;
    if WasAttested(pulled, rows[i]) {
      var p :| p in pulled && Attests(p.op, rows[i]);
      assert AttestsPosition(p.op, author, q, hash);
    }
  }

  // --- It ends ---

  /** Past the k-th selected row, a pull selects what is left. */
  lemma {:induction false} SelectedPast(rows: seq<OpRow>, since: nat, includeCompacted: bool, k: nat)
    requires Increasing(rows) && 0 < k <= |Selected(rows, since, includeCompacted)|
    ensures var selected := Selected(rows, since, includeCompacted);
            Selected(rows, selected[k - 1].seqNo, includeCompacted) == selected[k..]
  {
    var n := |rows| - 1;
    var front, row := rows[..n], rows[n];
    var earlier, selected := Selected(front, since, includeCompacted), Selected(rows, since, includeCompacted);
    if k <= |earlier| {
      SelectedPast(front, since, includeCompacted, k);
      SelectedExactly(front, since, includeCompacted, earlier[k - 1]);
      assert selected[k - 1] == earlier[k - 1] && since < earlier[k - 1].seqNo < row.seqNo;
    } else {
      NothingPast(front, row.seqNo, includeCompacted);
    }
  }

  lemma NothingPast(rows: seq<OpRow>, since: nat, includeCompacted: bool)
    requires forall i | 0 <= i < |rows| :: rows[i].seqNo < since
    ensures Selected(rows, since, includeCompacted) == []
  {
    var selected := Selected(rows, since, includeCompacted);
    if selected != [] {
      SelectedExactly(rows, since, includeCompacted, selected[0]);
      assert false;
    }
  }

  /** How much is left after a page, and after some pages. */
  function Less(left: nat, limit: nat): nat {
    if left > limit then left - limit else 0
  }

  function LessBy(left: nat, limit: nat, pages: nat): nat {
    if pages == 0 then left else Less(LessBy(left, limit, pages - 1), limit)
  }

  /** One pull takes a page off what is left. */
  lemma NextLeaves(rows: seq<OpRow>, c: Client, limit: nat, includeCompacted: bool)
    requires Increasing(rows) && 1 <= limit
    ensures var left, c' := |Selected(rows, c.since, includeCompacted)|, Next(c, rows, limit, includeCompacted);
            c'.hasMore == (left > limit) && |Selected(rows, c'.since, includeCompacted)| == Less(left, limit)
  {
    hide Increasing, Selected;
    var selected := Selected(rows, c.since, includeCompacted);
    if selected != [] {
      var k := if |selected| > limit then limit else |selected|;
      SelectedPast(rows, c.since, includeCompacted, k);
      CursorAt(c, rows, limit, includeCompacted, selected, k);
    }
  }

  lemma CursorAt(c: Client, rows: seq<OpRow>, limit: nat, includeCompacted: bool, selected: seq<OpRow>, k: nat)
    requires selected == Selected(rows, c.since, includeCompacted) && 1 <= limit
    requires 0 < k <= |selected| && k == if |selected| > limit then limit else |selected|
    ensures Next(c, rows, limit, includeCompacted).since == selected[k - 1].seqNo
  {
    hide Selected;
    assert Pull(rows, c.since, limit, includeCompacted).rows == selected[..k];
  }

  /** The same log, again and again. */
  function Still(rows: seq<OpRow>, pulls: nat): (tables: seq<seq<OpRow>>)
    ensures |tables| == pulls
  {
    seq(pulls, _ => rows)
  }

  lemma {:induction false} StillLeaves(
    tables: seq<seq<OpRow>>, rows: seq<OpRow>, pulls: nat, limit: nat, includeCompacted: bool)
    requires Increasing(rows) && 1 <= limit
    ensures var c, c' := ClientAfter(tables, limit, includeCompacted),
                         ClientAfter(tables + Still(rows, pulls), limit, includeCompacted);
            var left := |Selected(rows, c.since, includeCompacted)|;
            && |Selected(rows, c'.since, includeCompacted)| == LessBy(left, limit, pulls)
            && (pulls > 0 ==> c'.hasMore == (LessBy(left, limit, pulls - 1) > limit))
  {
    hide Next, Increasing, Less, Selected;
    if pulls == 0 {
      assert tables + Still(rows, 0) == tables;
    } else {
      StillLeaves(tables, rows, pulls - 1, limit, includeCompacted);
      var all := tables + Still(rows, pulls);
      assert all[..|all| - 1] == tables + Still(rows, pulls - 1) && all[|all| - 1] == rows;
      NextLeaves(rows, ClientAfter(all[..|all| - 1], limit, includeCompacted), limit, includeCompacted);
    }
  }

  lemma {:induction false} LessByPages(left: nat, limit: nat, pages: nat)
    ensures LessBy(left, limit, pages) == 0 || LessBy(left, limit, pages) + pages * limit == left
  {
    if pages > 0 {
      LessByPages(left, limit, pages - 1);
      assert pages * limit == (pages - 1) * limit + limit;
    }
  }

  lemma {:induction false} SelectedIsNoLonger(rows: seq<OpRow>, since: nat, includeCompacted: bool)
    ensures |Selected(rows, since, includeCompacted)| <= |rows|
  {
    if rows != [] {
      SelectedIsNoLonger(rows[..|rows| - 1], since, includeCompacted);
    }
  }

  /** Wherever a client stands when the log stops growing, it reaches the end within |rows| / limit + 1 more pulls. */
  lemma PagingEnds(tables: seq<seq<OpRow>>, rows: seq<OpRow>, limit: nat, includeCompacted: bool)
    requires Increasing(rows) && 1 <= limit
    ensures !ClientAfter(tables + Still(rows, |rows| / limit + 1), limit, includeCompacted).hasMore
  {
    hide Increasing, Selected, ClientAfter, LessBy;
    var pages, since := |rows| / limit, ClientAfter(tables, limit, includeCompacted).since;
    var left := |Selected(rows, since, includeCompacted)|;
    StillLeaves(tables, rows, pages + 1, limit, includeCompacted);
    SelectedIsNoLonger(rows, since, includeCompacted);
    LessByPages(left, limit, pages);
    PagesCover(|rows|, limit);
  }

  lemma PagesCover(n: nat, limit: nat)
    requires 1 <= limit
    ensures n < n / limit * limit + limit
  {
  }
}
