/** The per-account list of stream ids: a legacy vector migrated page by page into
    paged storage while new ids are appended behind it (contracts/factory/src/index.rs). */
module StreamIndex {
  import opened Base

  const PAGE_SIZE: nat := 100
  const MIGRATION_PAGES_PER_APPEND: nat := 1
  const MAX_MIGRATION_PAGES: nat := 20

  /** The five kinds of keyed storage entry that one account's index may occupy. */
  datatype Entries = Entries(
    legacy: Option<seq<nat>>,
    count: Option<nat>,
    cursor: Option<nat>,
    legacyCount: Option<nat>,
    pages: map<nat, seq<nat>>)

  const EMPTY: Entries := Entries(None, None, None, None, map[])

  // ---- layout arithmetic -------------------------------------------------------------

  /** First physical offset behind the legacy block: the next page boundary. */
  function AppendBase(legacyCount: nat): nat {
    if legacyCount == 0 then 0 else ((legacyCount - 1) / PAGE_SIZE + 1) * PAGE_SIZE
  }

  function LogicalToPhysical(logical: nat, legacyCount: Option<nat>): nat {
    if legacyCount.Some? && logical >= legacyCount.value
    then SatAdd(AppendBase(legacyCount.value), logical - legacyCount.value, U32_MAX)
    else logical
  }

  // ---- representation ----------------------------------------------------------------

  function LegacyLength(e: Entries): nat { e.legacyCount.GetOr(0) }

  /** How much of the legacy block is already in pages. */
  function Migrated(e: Entries): nat {
    if e.legacy.Some? then e.cursor.GetOr(0) else LegacyLength(e)
  }

  function Window(c: seq<nat>, lo: nat, hi: nat): seq<nat> {
    if lo < hi <= |c| then c[lo..hi] else []
  }

  /** What page `p` must hold when the list is `c`, its first `m` ids are the legacy block,
      appended ids start at physical offset `base`, and the first `done` legacy ids have been migrated. */
  function PageOf(c: seq<nat>, m: nat, base: nat, done: nat, p: nat): seq<nat> {
    if p * PAGE_SIZE < base
    then Window(c, p * PAGE_SIZE, Min(p * PAGE_SIZE + PAGE_SIZE, done))
    else var lo := m + (p * PAGE_SIZE - base); Window(c, lo, Min(lo + PAGE_SIZE, |c|))
  }

  ghost predicate PagesHold(pages: map<nat, seq<nat>>, c: seq<nat>, m: nat, base: nat, done: nat) {
    && (forall p :: p in pages ==> pages[p] == PageOf(c, m, base, done, p) && pages[p] != [])
    && (forall p: nat :: PageOf(c, m, base, done, p) != [] ==> p in pages)
  }

  /** `base` is the first page boundary at or behind `m`. */
  ghost predicate IsBase(base: nat, m: nat) {
    base % PAGE_SIZE == 0 && m <= base < m + PAGE_SIZE
  }

  /** Storage entries `e` stand for the plain list `c`. */
  ghost predicate Represents(e: Entries, c: seq<nat>) {
    RepresentsAt(e, c, AppendBase(LegacyLength(e)))
  }

  ghost predicate RepresentsAt(e: Entries, c: seq<nat>, base: nat) {
    && |c| <= U32_MAX
    && match e.count
       case None => e.cursor.None? && e.legacyCount.None? && e.pages == map[] && c == e.legacy.GetOr([])
       case Some(n) =>
         var m := LegacyLength(e);
         && n == |c| && m <= n
         && (e.legacyCount.Some? ==> 0 < m)
         && (m < n ==> base + (n - m) <= U32_MAX + 1)
         && (e.legacy.Some? <==> e.cursor.Some?)
         && (e.legacy.Some? ==> 0 < e.cursor.value < m && e.cursor.value % PAGE_SIZE == 0 && e.legacy.value == c[..m])
         && PagesHold(e.pages, c, m, base, Migrated(e))
  }

  function CollectPage(e: Entries, p: nat): seq<nat> {
    if p in e.pages then e.pages[p] else []
  }

  /** The id at logical offset `i` is still to be read from the legacy vector. */
  predicate InLegacy(e: Entries, i: nat) {
    && e.legacyCount.Some? && e.cursor.Some? && e.legacy.Some?
    && e.cursor.value <= i < e.legacyCount.value
  }

  function Lookup(e: Entries, i: nat): nat {
    if InLegacy(e, i) then if i < |e.legacy.value| then e.legacy.value[i] else 0
    else
      var physical := LogicalToPhysical(i, e.legacyCount);
      var page := CollectPage(e, physical / PAGE_SIZE);
      if physical % PAGE_SIZE < |page| then page[physical % PAGE_SIZE] else 0
  }

  /** The abstract list read off the stored entries. */
  function Contents(e: Entries): seq<nat> {
    if e.count.None? then e.legacy.GetOr([]) else seq(e.count.value, i requires 0 <= i => Lookup(e, i))
  }

  ghost predicate WellFormed(e: Entries) { Represents(e, Contents(e)) }

  // ---- layout lemmas -----------------------------------------------------------------

  lemma AppendBaseRounds(m: nat)
    ensures IsBase(AppendBase(m), m)
  {
    if m > 0 {
      assert (m - 1) == (m - 1) / PAGE_SIZE * PAGE_SIZE + (m - 1) % PAGE_SIZE;
    }
  }

  /** Distinct ids never share a slot, order is kept, and the legacy block shares no page
      with anything appended behind it. No offset saturates below the stated count. */
  lemma LayoutIsInjective(i: nat, j: nat, legacyCount: Option<nat>)
    requires i < j < U32_MAX - PAGE_SIZE
    ensures LogicalToPhysical(i, legacyCount) < LogicalToPhysical(j, legacyCount) < U32_MAX
    ensures legacyCount.Some? && i < legacyCount.value <= j ==>
              LogicalToPhysical(i, legacyCount) / PAGE_SIZE < LogicalToPhysical(j, legacyCount) / PAGE_SIZE
  {
    if legacyCount.Some? {
      AppendBaseRounds(legacyCount.value);
    }
  }

  /** Where page number and offset within the page place the physical offset `k`. */
  lemma PageSlot(c: seq<nat>, m: nat, base: nat, done: nat, k: nat, i: nat)
    requires IsBase(base, m) && done <= m <= |c|
    requires (i < done && k == i) || (m <= i < |c| && k == base + (i - m))
    ensures k % PAGE_SIZE < |PageOf(c, m, base, done, k / PAGE_SIZE)|
    ensures PageOf(c, m, base, done, k / PAGE_SIZE)[k % PAGE_SIZE] == c[i]
  {
    var p, r := k / PAGE_SIZE, k % PAGE_SIZE;
    assert k == p * PAGE_SIZE + r;
    if i < done {
      assert p * PAGE_SIZE < base;
    } else {
      assert p * PAGE_SIZE >= base;
    }
  }

  /** The read path finds `x` at logical offset `i`. */
  predicate SlotYields(e: Entries, i: nat, x: nat) {
    if InLegacy(e, i) then i < |e.legacy.value| && e.legacy.value[i] == x
    else
      var physical := LogicalToPhysical(i, e.legacyCount);
      var page := CollectPage(e, physical / PAGE_SIZE);
      physical % PAGE_SIZE < |page| && page[physical % PAGE_SIZE] == x
  }

  /** Where the id at logical offset `i` is found. */
  lemma SlotHolds(e: Entries, c: seq<nat>, i: nat)
    requires Represents(e, c) && e.count.Some? && i < |c|
    ensures SlotYields(e, i, c[i])
  {
    if !InLegacy(e, i) {
      var m, done := LegacyLength(e), Migrated(e);
      var physical := LogicalToPhysical(i, e.legacyCount);
      var base := AppendBase(m);
      AppendBaseRounds(m);
      PageSlot(c, m, base, done, physical, i);
      assert PageOf(c, m, base, done, physical / PAGE_SIZE) != [];
    }
  }

  /** The entries determine the list. */
  lemma RepresentsOne(e: Entries, c: seq<nat>)
    requires Represents(e, c)
    ensures Contents(e) == c
    ensures WellFormed(e)
  {
    if e.count.Some? {
      forall i | 0 <= i < |c| ensures Lookup(e, i) == c[i] {
        SlotHolds(e, c, i);
      }
    }
  }

  lemma MigratePage(pages: map<nat, seq<nat>>, c: seq<nat>, m: nat, base: nat, done: nat)
    requires IsBase(base, m) && PagesHold(pages, c, m, base, done)
    requires done < m <= |c| && done % PAGE_SIZE == 0
    ensures var end := Min(done + PAGE_SIZE, m);
            PagesHold(pages[done / PAGE_SIZE := c[done..end]], c, m, base, end)
  {
    var end := Min(done + PAGE_SIZE, m);
    var q := done / PAGE_SIZE;
    assert PageOf(c, m, base, end, q) == c[done..end];
    forall p: nat | p != q ensures PageOf(c, m, base, end, p) == PageOf(c, m, base, done, p) {
    }
  }

  /** Appending to the list changes one page only. */
  lemma AppendedPage(c: seq<nat>, m: nat, base: nat, done: nat, x: nat, p: nat)
    requires IsBase(base, m) && done <= m <= |c|
    ensures PageOf(c + [x], m, base, done, p) ==
            if p == (base + (|c| - m)) / PAGE_SIZE then PageOf(c, m, base, done, p) + [x] else PageOf(c, m, base, done, p)
  {
    var q := (base + (|c| - m)) / PAGE_SIZE;
    assert q * PAGE_SIZE <= base + (|c| - m) < q * PAGE_SIZE + PAGE_SIZE;
    if p * PAGE_SIZE >= base {
      var lo := m + (p * PAGE_SIZE - base);
      assert p == q ==> lo <= |c| < lo + PAGE_SIZE;
    } else {
      assert p != q;
    }
  }

  lemma AppendToPage(pages: map<nat, seq<nat>>, c: seq<nat>, m: nat, base: nat, done: nat, x: nat, q: nat, page: seq<nat>)
    requires IsBase(base, m) && PagesHold(pages, c, m, base, done)
    requires done <= m <= |c| && q == (base + (|c| - m)) / PAGE_SIZE
    requires page == if q in pages then pages[q] else []
    ensures PagesHold(pages[q := page + [x]], c + [x], m, base, done)
  {
    forall p: nat
      ensures PageOf(c + [x], m, base, done, p) ==
              if p == q then PageOf(c, m, base, done, p) + [x] else PageOf(c, m, base, done, p)
    {
      AppendedPage(c, m, base, done, x, p);
    }
    assert q !in pages ==> PageOf(c, m, base, done, q) == [];
  }

  // ---- migration ---------------------------------------------------------------------

  /** Length of the legacy block, migrated or not. */
  function LegacyTotal(e: Entries): nat {
    e.legacyCount.GetOr(|e.legacy.GetOr([])|)
  }

  /** Where a step of at most `maxPages` pages leaves the migration cursor. */
  function MigrationTarget(e: Entries, maxPages: nat): nat {
    Min(e.cursor.GetOr(0) + Min(maxPages, MAX_MIGRATION_PAGES) * PAGE_SIZE, LegacyTotal(e))
  }

  /** Pages needed for `n` ids. */
  function PagesFor(n: nat): nat { (n + PAGE_SIZE - 1) / PAGE_SIZE }

  /** A step that asks for anything at all copies exactly the requested number of pages, the cap,
      or what is left, whichever is least, so repeated steps finish. */
  lemma MigrationProgresses(e: Entries, maxPages: nat)
    requires WellFormed(e) && e.legacy.Some? && LegacyTotal(e) > 0 && maxPages > 0
    ensures Migrated(e) < MigrationTarget(e, maxPages) <= LegacyTotal(e)
    ensures PagesFor(MigrationTarget(e, maxPages) - Migrated(e)) ==
            Min(Min(maxPages, 20), PagesFor(LegacyTotal(e) - Migrated(e)))
    ensures MigrationTarget(e, maxPages) < LegacyTotal(e) ==> MigrationTarget(e, maxPages) == Migrated(e) + 100 * Min(maxPages, 20)
  {
    var capped := Min(maxPages, MAX_MIGRATION_PAGES);
    if Migrated(e) + capped * PAGE_SIZE <= LegacyTotal(e) {
      assert PagesFor(capped * PAGE_SIZE) == capped;
    }
  }

  /** The copying loop: moves whole legacy pages into paged storage until the cap is reached
      or nothing is left. */
  method CopyPages(entries: seq<nat>, start: nat, legacyCount: nat, cappedPages: nat,
                   stored: map<nat, seq<nat>>, ghost c: seq<nat>, ghost base: nat)
    returns (pages: map<nat, seq<nat>>, cursor: nat)
    requires start < legacyCount == |entries| <= |c| && legacyCount <= U32_MAX && entries == c[..legacyCount]
    requires start % PAGE_SIZE == 0 && IsBase(base, legacyCount) && PagesHold(stored, c, legacyCount, base, start)
    ensures cursor == Min(start + cappedPages * PAGE_SIZE, legacyCount)
    ensures cursor < legacyCount ==> cursor % PAGE_SIZE == 0
    ensures PagesHold(pages, c, legacyCount, base, cursor)
  {
    cursor, pages := start, stored;
    var migratedPages := 0;
    while cursor < legacyCount && migratedPages < cappedPages
      invariant start <= cursor <= legacyCount && migratedPages <= cappedPages
      invariant cursor == Min(start + migratedPages * PAGE_SIZE, legacyCount)
      invariant cursor < legacyCount ==> cursor % PAGE_SIZE == 0
      invariant PagesHold(pages, c, legacyCount, base, cursor)
    {
      var pageIndex := cursor / PAGE_SIZE;
      var end := Min(SatAdd(cursor, PAGE_SIZE, U32_MAX), legacyCount);
      var page := [];
      var i := cursor;
      while i < end
        invariant cursor <= i <= end
        invariant page == entries[cursor..i]
      {
        page := page + [entries[i]];
        i := i + 1;
      }
      MigratePage(pages, c, legacyCount, base, cursor);
      assert c[..legacyCount][cursor..end] == c[cursor..end];
      pages := pages[pageIndex := page];
      cursor := end;
      migratedPages := migratedPages + 1;
    }
  }

  /** The entries written at the end of a migration step stand for the same list. */
  lemma MigrationRepresents(before: Entries, c: seq<nat>, pages: map<nat, seq<nat>>, cursor: nat, after: Entries)
    requires Represents(before, c) && before.legacy.Some?
    requires var m := LegacyTotal(before);
             && before.cursor.GetOr(0) < cursor <= m && (cursor < m ==> cursor % PAGE_SIZE == 0)
             && PagesHold(pages, c, m, AppendBase(m), cursor)
             && after == if cursor == m then Entries(None, Some(|c|), None, Some(m), pages)
                         else Entries(before.legacy, Some(|c|), Some(cursor), Some(m), pages)
    ensures Represents(after, c)
  {
  }

  /** One bounded migration step over one account's entries. The list stays what it was, and the
      migrated part of the legacy block grows by the requested number of pages, capped at twenty
      and at what is left; a finished migration drops the legacy vector and the cursor. */
  method MigrateLegacyIndex(before: Entries, maxPages: nat) returns (after: Entries, total: nat)
    requires WellFormed(before) || before.legacy.None?
    ensures before.legacy.None? ==> after == before && total == before.count.GetOr(0)
    ensures WellFormed(before) ==> WellFormed(after) && Contents(after) == Contents(before) && total == |Contents(before)|
    ensures WellFormed(before) && maxPages > 0 && LegacyTotal(before) > 0 ==> after.legacyCount.Some?
    ensures before.legacy.Some? ==>
              (after.legacy.None? <==> MigrationTarget(before, maxPages) == LegacyTotal(before))
    ensures after.legacy.Some? ==> after.legacy == before.legacy && Migrated(after) == MigrationTarget(before, maxPages)
    ensures LegacyTotal(after) == LegacyTotal(before)
  {
    ghost var c := Contents(before);
    after := before;
    if before.legacy.None? {
      return after, before.count.GetOr(0);
    }
    var entries := before.legacy.value;
    var legacyCount := before.legacyCount.GetOr(|entries|);
    total := before.count.GetOr(legacyCount);
    var cursor := before.cursor.GetOr(0);
    if cursor >= legacyCount {
      after := before.(legacy := None, cursor := None);
      RepresentsOne(after, c);
      return;
    }
    var cappedPages := Min(maxPages, MAX_MIGRATION_PAGES);
    if cappedPages == 0 {
      return;
    }
    var pages;
    AppendBaseRounds(legacyCount);
    pages, cursor := CopyPages(entries, cursor, legacyCount, cappedPages, before.pages, c, AppendBase(legacyCount));
    after := after.(pages := pages, count := Some(total), legacyCount := Some(legacyCount));
    if cursor >= legacyCount {
      after := after.(legacy := None, cursor := None);
    } else {
      after := after.(cursor := Some(cursor));
    }
    MigrationRepresents(before, c, pages, cursor, after);
    RepresentsOne(after, c);
  }

  // ---- append ------------------------------------------------------------------------

  /** A further id still gets a 32-bit offset of its own. */
  predicate HasRoom(e: Entries) {
    var n, m := |Contents(e)|, LegacyTotal(e);
    n < U32_MAX && (m <= n ==> AppendBase(m) + (n - m) <= U32_MAX)
  }

  /** Writes `entry` behind an index whose legacy block is at least partly migrated (or absent).
      `None` is the arithmetic trap of the 32-bit page-boundary rounding. */
  function AppendEntry(e: Entries, count: nat, entry: nat): Option<Entries> {
    if e.legacyCount.Some? && count >= e.legacyCount.value && AppendBase(e.legacyCount.value) > U32_MAX then None
    else
      var p := LogicalToPhysical(count, e.legacyCount) / PAGE_SIZE;
      Some(e.(pages := e.pages[p := CollectPage(e, p) + [entry]], count := Some(SatAdd(count, 1, U32_MAX))))
  }

  lemma AppendWrites(e: Entries, n: nat, x: nat) returns (written: Entries)
    requires LegacyLength(e) <= n < U32_MAX && AppendBase(LegacyLength(e)) + (n - LegacyLength(e)) <= U32_MAX
    requires e.legacyCount.Some? ==> 0 < e.legacyCount.value
    ensures var q := (AppendBase(LegacyLength(e)) + (n - LegacyLength(e))) / PAGE_SIZE;
            written == Entries(e.legacy, Some(n + 1), e.cursor, e.legacyCount, e.pages[q := CollectPage(e, q) + [x]])
    ensures AppendEntry(e, n, x) == Some(written)
  {
    AppendBaseRounds(LegacyLength(e));
    assert LogicalToPhysical(n, e.legacyCount) == AppendBase(LegacyLength(e)) + (n - LegacyLength(e));
    written := AppendEntry(e, n, x).value;
  }

  lemma AppendRepresents(e: Entries, c: seq<nat>, x: nat, base: nat, q: nat, written: Entries)
    requires RepresentsAt(e, c, base) && (e.count.Some? || e.legacy.None?)
    requires IsBase(base, LegacyLength(e)) && (LegacyLength(e) == 0 ==> base == 0)
    requires |c| < U32_MAX && base + (|c| - LegacyLength(e)) <= U32_MAX
    requires q == (base + (|c| - LegacyLength(e))) / PAGE_SIZE
    requires written == Entries(e.legacy, Some(|c| + 1), e.cursor, e.legacyCount, e.pages[q := CollectPage(e, q) + [x]])
    ensures RepresentsAt(written, c + [x], base)
  {
    var m := LegacyLength(e);
    assert (c + [x])[..m] == c[..m];
    AppendToPage(e.pages, c, m, base, Migrated(e), x, q, CollectPage(e, q));
  }

  /** Appending extends the list by exactly the new id if and only if the offset fits in 32 bits. */
  lemma AppendExtends(e: Entries, c: seq<nat>, x: nat)
    requires Represents(e, c) && (e.count.Some? || e.legacy.None?)
    ensures var r := AppendEntry(e, |c|, x);
            (r.Some? && Represents(r.value, c + [x])) <==> HasRoom(e)
  {
    RepresentsOne(e, c);
    AppendBaseRounds(LegacyLength(e));
    if HasRoom(e) {
      var written := AppendWrites(e, |c|, x);
      var base := AppendBase(LegacyLength(e));
      AppendRepresents(e, c, x, base, (base + (|c| - LegacyLength(e))) / PAGE_SIZE, written);
    }
  }

  /** An index that never had a legacy vector. */
  predicate LegacyFree(e: Entries) { e.legacy.None? && e.legacyCount.None? && e.cursor.None? }

  /** Below the limit named by the layout there is always room. */
  lemma RoomBelowLimit(e: Entries)
    requires WellFormed(e) && |Contents(e)| < U32_MAX - PAGE_SIZE
    ensures HasRoom(e)
  {
    AppendBaseRounds(LegacyTotal(e));
  }

  // ---- appends without room ----------------------------------------------------------

  /** The read path finds all of `c`. */
  ghost predicate Readable(e: Entries, c: seq<nat>) {
    e.count == Some(|c|) && forall i :: 0 <= i < |c| ==> SlotYields(e, i, c[i])
  }

  lemma ReadableIs(e: Entries, c: seq<nat>)
    requires Readable(e, c)
    ensures Contents(e) == c
  {
    forall i | 0 <= i < |c| ensures Lookup(e, i) == c[i] {
      assert SlotYields(e, i, c[i]);
    }
  }

  lemma RepresentedIsReadable(e: Entries, c: seq<nat>)
    requires Represents(e, c) && e.count.Some?
    ensures Readable(e, c)
  {
    forall i | 0 <= i < |c| ensures SlotYields(e, i, c[i]) {
      SlotHolds(e, c, i);
    }
  }

  /** An append never disturbs what could be read before it. */
  lemma AppendKeepsReads(e: Entries, c: seq<nat>, x: nat, i: nat)
    requires Readable(e, c) && AppendEntry(e, |c|, x).Some? && i < |c|
    ensures SlotYields(AppendEntry(e, |c|, x).value, i, c[i])
  {
    assert SlotYields(e, i, c[i]);
  }

  /** What a full count makes of an append: nothing anyone can read. */
  lemma FullAppendIsLost(e: Entries, c: seq<nat>, x: nat)
    requires Readable(e, c) && |c| == U32_MAX && AppendEntry(e, |c|, x).Some?
    ensures Readable(AppendEntry(e, |c|, x).value, c)
  {
    forall i | 0 <= i < |c| ensures SlotYields(AppendEntry(e, |c|, x).value, i, c[i]) {
      AppendKeepsReads(e, c, x, i);
    }
  }

  /** The list shown after an append: without room the new id is lost, and a count that can still grow shows
      the previous one twice. */
  function AfterAppend(c: seq<nat>, room: bool, x: nat): seq<nat> {
    if room then c + [x] else if |c| == U32_MAX || c == [] then c else c + [c[|c| - 1]]
  }

  lemma LostAppend(e: Entries, c: seq<nat>, x: nat)
    requires Represents(e, c) && (e.count.Some? || e.legacy.None?) && !HasRoom(e) && AppendEntry(e, |c|, x).Some?
    ensures Readable(AppendEntry(e, |c|, x).value, AfterAppend(c, false, x))
  {
    hide SlotYields, PagesHold;
    RepresentsOne(e, c);
    RepresentedIsReadable(e, c);
    var n, m, after := |c|, LegacyLength(e), AppendEntry(e, |c|, x).value;
    AppendBaseRounds(m);
    if n == U32_MAX {
      FullAppendIsLost(e, c, x);
    } else {
      assert AppendBase(m) + (n - m) == U32_MAX + 1 && e.legacyCount.Some? && m < n;
      var shown := c + [c[n - 1]];
      forall i | 0 <= i < |shown| ensures SlotYields(after, i, shown[i]) {
        AppendKeepsReads(e, c, x, if i < n then i else n - 1);
        if i == n {
          SaturatedSlot(after, n, c[n - 1]);
        }
      }
    }
  }

  /** Two logical offsets meet in the last physical one. */
  lemma SaturatedSlot(e: Entries, n: nat, x: nat)
    requires e.legacyCount.Some? && e.legacyCount.value < n
    requires AppendBase(e.legacyCount.value) + (n - e.legacyCount.value) == U32_MAX + 1
    requires SlotYields(e, n - 1, x)
    ensures SlotYields(e, n, x)
  {
  }

  /** An index without a legacy block whose count can grow no further. */
  ghost predicate Overfull(e: Entries) {
    LegacyFree(e) && |Contents(e)| == U32_MAX && Readable(e, Contents(e))
  }

  /** Entries that reads can be trusted on. */
  ghost predicate Sound(e: Entries) { WellFormed(e) || Overfull(e) }

  /** One append over one account's entries: a single migration page, then the new id. It traps exactly when
      the legacy block alone rounds up beyond 32 bits, and the list shown afterwards is always known. */
  method AppendTo(before: Entries, entry: nat) returns (after: Option<Entries>)
    requires Sound(before)
    ensures after.None? <==> AppendBase(LegacyTotal(before)) > U32_MAX
    ensures after.Some? ==> Contents(after.value) == AfterAppend(Contents(before), HasRoom(before), entry)
    ensures HasRoom(before) ==> after.Some? && WellFormed(after.value)
    ensures after.Some? && after.value.legacy.Some? ==>
              after.value.legacy == before.legacy && Migrated(after.value) == MigrationTarget(before, 1)
    ensures LegacyFree(before) ==> after.Some? && LegacyFree(after.value) && Sound(after.value)
  {
    hide PagesHold, SlotYields;
    OverfullCounts(before);
    var e, count := MigrateLegacyIndex(before, MIGRATION_PAGES_PER_APPEND);
    after := AppendEntry(e, count, entry);
    ghost var c := Contents(before);
    if WellFormed(before) {
      AppendTraps(e, c, entry);
      AppendExtends(e, c, entry);
      if HasRoom(before) {
        RepresentsOne(after.value, c + [entry]);
      } else if after.Some? {
        LostAppend(e, c, entry);
        ReadableIs(after.value, AfterAppend(c, false, entry));
      }
    } else {
      FullAppendIsLost(e, c, entry);
      ReadableIs(after.value, c);
    }
  }

  lemma OverfullCounts(e: Entries)
    ensures Overfull(e) ==> e.count == Some(U32_MAX) && AppendBase(LegacyTotal(e)) == 0
  {
  }

  /** Exactly when writing behind an index traps. */
  lemma AppendTraps(e: Entries, c: seq<nat>, x: nat)
    requires Represents(e, c) && (LegacyTotal(e) > 0 ==> e.legacyCount.Some?)
    ensures AppendEntry(e, |c|, x).None? <==> AppendBase(LegacyTotal(e)) > U32_MAX
  {
  }

  // ---- reads -------------------------------------------------------------------------

  /** The slice of a plain list that a page request asks for. */
  function Slice(c: seq<nat>, offset: nat, limit: nat): seq<nat> {
    var start := Min(offset, |c|);
    c[start..Min(start + Min(limit, PAGE_SIZE), |c|)]
  }

  /** At most 100 consecutive ids from the offset on, as many as were asked for and are there. */
  lemma SliceIs(c: seq<nat>, offset: nat, limit: nat)
    ensures var page := Slice(c, offset, limit);
            && |page| == Min(Min(limit, 100), SatSub(|c|, offset))
            && forall i :: 0 <= i < |page| ==> page[i] == c[offset + i]
  {
  }

  /** Pages of the same limit, requested one behind the other from `offset` until the list is used up. */
  ghost function ReadThrough(c: seq<nat>, offset: nat, limit: nat): seq<nat>
    requires limit > 0
    decreases |c| - offset
  {
    if offset >= |c| then [] else Slice(c, offset, limit) + ReadThrough(c, offset + |Slice(c, offset, limit)|, limit)
  }

  /** Together they show every id once and in order. */
  lemma {:induction false} PagesTile(c: seq<nat>, offset: nat, limit: nat)
    requires limit > 0 && offset <= |c|
    ensures ReadThrough(c, offset, limit) == c[offset..]
    decreases |c| - offset
  {
    if offset < |c| {
      var next := offset + |Slice(c, offset, limit)|;
      PagesTile(c, next, limit);
      assert c[offset..] == c[offset..next] + c[next..];
    }
  }

  method Paginate(v: seq<nat>, offset: nat, limit: nat) returns (result: seq<nat>)
    requires |v| <= U32_MAX
    ensures result == Slice(v, offset, limit)
  {
    result := [];
    var effectiveLimit := Min(limit, PAGE_SIZE);
    var end := Min(SatAdd(offset, effectiveLimit, U32_MAX), |v|);
    var i := offset;
    while i < end
      invariant offset <= i
      invariant i <= end || i == offset
      invariant i <= end ==> result == v[offset..i]
      invariant i > end ==> result == []
    {
      result := result + [v[i]];
      i := i + 1;
    }
  }

  /** The read loop of a counted index. */
  method ReadPaged(e: Entries, offset: nat, limit: nat, ghost c: seq<nat>) returns (result: seq<nat>)
    requires e.count.Some? && e.count.value == |c| <= U32_MAX
    requires forall i :: 0 <= i < |c| ==> SlotYields(e, i, c[i])
    ensures result == Slice(c, offset, limit)
  {
    var count := e.count.value;
    if offset >= count {
      return [];
    }
    var end := Min(SatAdd(offset, Min(limit, PAGE_SIZE), U32_MAX), count);
    result := [];
    var logical := offset;
    while logical < end
      invariant offset <= logical <= end
      invariant result == c[offset..logical]
    {
      assert SlotYields(e, logical, c[logical]);
      if InLegacy(e, logical) {
        result := result + [e.legacy.value[logical]];
        logical := logical + 1;
        continue;
      }
      var physical := LogicalToPhysical(logical, e.legacyCount);
      var page := CollectPage(e, physical / PAGE_SIZE);
      if physical % PAGE_SIZE >= |page| {
        assert false;  // a page is never shorter than the count promises
        break;
      }
      result := result + [page[physical % PAGE_SIZE]];
      logical := logical + 1;
    }
  }

  lemma ContentsLength(e: Entries)
    ensures |Contents(e)| == if e.count.Some? then e.count.value else |e.legacy.GetOr([])|
  {
  }

  /** What a migration call reports: the stored cursor, or the count once no cursor is stored. */
  function Reported(e: Entries): nat { e.cursor.GetOr(e.count.GetOr(0)) }

  /** One migrated id and one appended behind it: the report is two. */
  lemma FinishedMigrationReportsAll(migrated: nat, appended: nat)
    ensures var e := Entries(None, Some(2), None, Some(1), map[0 := [migrated], 1 := [appended]]);
            Represents(e, [migrated, appended]) && Migrated(e) == 1 && Reported(e) == 2
  {
    var e := Entries(None, Some(2), None, Some(1), map[0 := [migrated], 1 := [appended]]);
    var c := [migrated, appended];
    assert c[0..1] == [migrated] && c[1..2] == [appended] && c[..1] == [migrated];
    forall p: nat ensures PageOf(c, 1, PAGE_SIZE, 1, p) == if p == 0 then [migrated] else if p == 1 then [appended] else [] {
    }
  }

  function EntriesIn(accounts: map<Address, Entries>, who: Address): Entries {
    if who in accounts then accounts[who] else EMPTY
  }

  ghost predicate AllSound(accounts: map<Address, Entries>) {
    forall who :: who in accounts ==> Sound(accounts[who])
  }

  /** Keyed storage of one direction (by sender or by recipient). */
  class IndexStore {
    var accounts: map<Address, Entries>

    ghost predicate Valid()
      reads this
    {
      AllSound(accounts)
    }

    function EntriesOf(who: Address): Entries
      reads this
    {
      EntriesIn(accounts, who)
    }

    /** The plain list the storage stands for. */
    function List(who: Address): seq<nat>
      reads this
    {
      Contents(EntriesOf(who))
    }

    /** A deployment with nothing but (possibly) legacy vectors in storage. */
    constructor (legacy: map<Address, seq<nat>>)
      requires forall who :: who in legacy ==> |legacy[who]| <= U32_MAX
      ensures Valid()
      ensures forall who :: EntriesIn(accounts, who) == if who in legacy then EMPTY.(legacy := Some(legacy[who])) else EMPTY
    {
      accounts := map who | who in legacy :: EMPTY.(legacy := Some(legacy[who]));
    }

    /** Advances one account's migration and reports the stored cursor, or the count once no
        cursor is stored: the documented number of legacy ids migrated so far exactly as long as
        the migration is unfinished or nothing was appended behind it. */
    method MigrateIndex(who: Address, maxPages: nat) returns (progress: nat)
      requires Valid()
      modifies this
      ensures Valid()
      ensures List(who) == old(List(who))
      ensures forall other :: other != who ==> EntriesOf(other) == old(EntriesOf(other))
      ensures var before, after := old(EntriesOf(who)), EntriesOf(who);
              progress == if before.legacy.None? then before.count.GetOr(0)
                          else if MigrationTarget(before, maxPages) < LegacyTotal(before) then MigrationTarget(before, maxPages)
                          else after.count.GetOr(0)
      ensures var before := old(EntriesOf(who));
              progress == Migrated(EntriesOf(who)) <==>
              (before.legacy.Some? && MigrationTarget(before, maxPages) < LegacyTotal(before)) || |old(List(who))| == LegacyTotal(before)
    {
      hide PagesHold, Readable, Contents;
      RepresentsOne(EMPTY, []);
      var after, _ := MigrateLegacyIndex(EntriesOf(who), maxPages);
      ContentsLength(after);
      accounts := accounts[who := after];
      progress := Reported(after);
    }

    /** Appends one id to one account's list. A 32-bit trap, exactly when the legacy block alone rounds up
        beyond 32 bits, aborts the transaction; without room the id is lost to readers. */
    method AppendIndexEntry(who: Address, entry: nat) returns (trapped: bool)
      requires Sound(EntriesOf(who))
      modifies this
      ensures trapped <==> AppendBase(LegacyTotal(old(EntriesOf(who)))) > U32_MAX
      ensures trapped ==> accounts == old(accounts)
      ensures !trapped ==> List(who) == AfterAppend(old(List(who)), old(HasRoom(EntriesOf(who))), entry)
      ensures forall other :: other != who ==> EntriesOf(other) == old(EntriesOf(other))
      ensures old(HasRoom(EntriesOf(who))) ==> !trapped && WellFormed(EntriesOf(who))
      ensures old(LegacyFree(EntriesOf(who))) ==> !trapped && LegacyFree(EntriesOf(who)) && Sound(EntriesOf(who))
      ensures old(Valid()) && (trapped || old(HasRoom(EntriesOf(who)) || LegacyFree(EntriesOf(who)))) ==> Valid()
    {
      hide WellFormed, Overfull, Contents, HasRoom;
      var written := AppendTo(EntriesOf(who), entry);
      trapped := written.None?;
      if written.Some? {
        accounts := accounts[who := written.value];
      }
    }

    /** A page of one account's list, read from wherever its ids are stored at the moment. */
    method ReadIndex(who: Address, offset: nat, limit: nat) returns (result: seq<nat>)
      requires Valid()
      ensures result == Slice(List(who), offset, limit)
    {
      var e := EntriesOf(who);
      RepresentsOne(EMPTY, []);
      if e.count.None? {
        result := Paginate(e.legacy.GetOr([]), offset, limit);
        return;
      }
      if WellFormed(e) {
        RepresentedIsReadable(e, List(who));
      }
      result := ReadPaged(e, offset, limit, List(who));
    }

    method CountIndex(who: Address) returns (count: nat)
      requires Valid()
      ensures count == |List(who)|
    {
      var e := EntriesOf(who);
      count := if e.count.Some? then e.count.value else |e.legacy.GetOr([])|;
    }
  }
}
