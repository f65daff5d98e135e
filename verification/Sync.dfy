/** What goes between the CRM and the website outside the mirror: category sync, retries, and echo suppression. */
module Sync {
  import opened Wrappers

  // ── Categories ─────────────────────────────────────────────────────────────

  datatype Category = Category(slug: string, name: string, description: Option<string>, isActive: bool, sortOrder: int)

  datatype SyncResult = SyncResult(imported: nat, updated: nat, retired: nat, categories: seq<string>)

  /** A row's id is its place in the table. */
  function Find(table: seq<Category>, slug: string): (id: Option<nat>)
    ensures id.Some? ==> id.value < |table| && table[id.value].slug == slug
  {
    if table == [] then None
    else if table[|table| - 1].slug == slug then Some(|table| - 1)
    else Find(table[..|table| - 1], slug)
  }

  predicate UniqueSlugs(table: seq<Category>) {
    forall i, j :: 0 <= i < j < |table| ==> table[i].slug != table[j].slug
  }

  /** Nothing found means no row has the slug. */
  lemma {:induction false} FindExact(table: seq<Category>, slug: string)
    ensures Find(table, slug).Some? <==> exists i :: 0 <= i < |table| && table[i].slug == slug
  {
    if table != [] {
      var last := |table| - 1;
      assert table[last].slug == slug ==> exists i :: 0 <= i < |table| && table[i].slug == slug;
      FindExact(table[..last], slug);
      assert forall i :: 0 <= i < last ==> table[..last][i] == table[i];
    }
  }

  function Upsert(table: seq<Category>, c: Category): seq<Category> {
    match Find(table, c.slug)
    case Some(id) => table[id := c]
    case None => table + [c]
  }

  /** The table after the first `upTo` listings. */
  function Upserted(table: seq<Category>, remote: seq<Category>, upTo: nat): seq<Category>
    requires upTo <= |remote|
  {
    if upTo == 0 then table else Upsert(Upserted(table, remote, upTo - 1), remote[upTo - 1])
  }

  predicate Listed(remote: seq<Category>, slug: string) {
    Find(remote, slug).Some?
  }

  /** A slug listed twice means what its last listing says. */
  function LastListing(remote: seq<Category>, slug: string): Category
    requires Listed(remote, slug)
  {
    remote[Find(remote, slug).value]
  }

  /** What the website says about a row the CRM holds. */
  function Settled(remote: seq<Category>, row: Category): Category {
    if Listed(remote, row.slug) then LastListing(remote, row.slug) else row
  }

  function Retired(table: seq<Category>, remote: seq<Category>): seq<Category> {
    seq(|table|, i requires 0 <= i < |table| =>
      if Listed(remote, table[i].slug) then table[i] else table[i].(isActive := false))
  }

  /** How many of the first `n` rows are switched on and not listed. */
  function Unlisted(table: seq<Category>, remote: seq<Category>, n: nat): nat
    requires n <= |table|
  {
    if n == 0 then 0
    else Unlisted(table, remote, n - 1) +
         if table[n - 1].isActive && !Listed(remote, table[n - 1].slug) then 1 else 0
  }

  function Synced(table: seq<Category>, remote: seq<Category>): seq<Category> {
    if remote == [] then table else Retired(Upserted(table, remote, |remote|), remote)
  }

  lemma {:induction false} UpsertStep(table: seq<Category>, c: Category)
    requires UniqueSlugs(table)
    ensures var after := Upsert(table, c);
            && UniqueSlugs(after)
            && |after| == |table| + (if Find(table, c.slug).None? then 1 else 0)
            && (forall i :: 0 <= i < |table| ==> after[i] == if table[i].slug == c.slug then c else table[i])
            && (|after| > |table| ==> after[|table|] == c)
  {
    FindExact(table, c.slug);
  }

  lemma ListedPrefix(remote: seq<Category>, n: nat, slug: string)
    requires 0 < n <= |remote|
    ensures Listed(remote[..n], slug) <==> Listed(remote[..n - 1], slug) || remote[n - 1].slug == slug
    ensures Listed(remote[..n], slug) ==>
              LastListing(remote[..n], slug) ==
                if remote[n - 1].slug == slug then remote[n - 1] else LastListing(remote[..n - 1], slug)
  {
    var shorter, longer := remote[..n - 1], remote[..n];
    assert longer[..|longer| - 1] == shorter && longer[n - 1] == remote[n - 1];
  }

  lemma SettledKeepsSlug(remote: seq<Category>, row: Category)
    ensures Settled(remote, row).slug == row.slug
  {
  }

  /** One more listing settles the rows of its own slug and leaves the others as they stood. */
  lemma SettledStep(remote: seq<Category>, n: nat, row: Category)
    requires 0 < n <= |remote|
    ensures Settled(remote[..n], row) ==
              if Settled(remote[..n - 1], row).slug == remote[n - 1].slug then remote[n - 1] else Settled(remote[..n - 1], row)
  {
    ListedPrefix(remote, n, row.slug);
    SettledKeepsSlug(remote[..n - 1], row);
  }

  /** What a row beyond the original table must be. */
  predicate FromListing(remote: seq<Category>, row: Category) {
    Listed(remote, row.slug) && row == LastListing(remote, row.slug)
  }

  lemma FromListingStep(remote: seq<Category>, n: nat, row: Category)
    requires 0 < n <= |remote|
    requires row == remote[n - 1] || (FromListing(remote[..n - 1], row) && row.slug != remote[n - 1].slug)
    ensures FromListing(remote[..n], row)
  {
    ListedPrefix(remote, n, row.slug);
  }

  lemma {:induction false} UpsertedUnique(table: seq<Category>, remote: seq<Category>, n: nat)
    requires UniqueSlugs(table) && n <= |remote|
    ensures UniqueSlugs(Upserted(table, remote, n)) && |Upserted(table, remote, n)| >= |table|
  {
    if n > 0 {
      UpsertedUnique(table, remote, n - 1);
      UpsertStep(Upserted(table, remote, n - 1), remote[n - 1]);
    }
  }

  /** One row across one more listing. */
  lemma RowStep(table: seq<Category>, remote: seq<Category>, n: nat, before: seq<Category>, i: nat)
    requires 0 < n <= |remote| && UniqueSlugs(before) && |table| <= |before|
    requires i < |Upsert(before, remote[n - 1])|
    requires i < |table| ==> before[i] == Settled(remote[..n - 1], table[i])
    requires |table| <= i < |before| ==> FromListing(remote[..n - 1], before[i])
    ensures i < |table| ==> Upsert(before, remote[n - 1])[i] == Settled(remote[..n], table[i])
    ensures i >= |table| ==> FromListing(remote[..n], Upsert(before, remote[n - 1])[i])
  {
    UpsertStep(before, remote[n - 1]);
    if i < |table| {
      SettledStep(remote, n, table[i]);
    } else {
      FromListingStep(remote, n, Upsert(before, remote[n - 1])[i]);
    }
  }

  lemma {:induction false} UpsertedRow(table: seq<Category>, remote: seq<Category>, n: nat, i: nat)
    requires UniqueSlugs(table) && n <= |remote| && i < |Upserted(table, remote, n)|
    ensures i < |table| ==> Upserted(table, remote, n)[i] == Settled(remote[..n], table[i])
    ensures i >= |table| ==> FromListing(remote[..n], Upserted(table, remote, n)[i])
  {
    if n > 0 {
      var before := Upserted(table, remote, n - 1);
      UpsertedUnique(table, remote, n - 1);
      if i < |before| {
        UpsertedRow(table, remote, n - 1, i);
      }
      RowStep(table, remote, n, before, i);
    }
  }

  /** Rows keep their ids and slugs; a listed row says what its last listing so far says, any other is untouched. */
  lemma {:induction false} UpsertedExact(table: seq<Category>, remote: seq<Category>, n: nat)
    requires UniqueSlugs(table) && n <= |remote|
    ensures var after := Upserted(table, remote, n);
            && UniqueSlugs(after) && |after| >= |table|
            && (forall i :: 0 <= i < |table| ==> after[i] == Settled(remote[..n], table[i]))
            && (forall i :: |table| <= i < |after| ==> FromListing(remote[..n], after[i]))
  {
    UpsertedUnique(table, remote, n);
    forall i | 0 <= i < |Upserted(table, remote, n)|
      ensures i < |table| ==> Upserted(table, remote, n)[i] == Settled(remote[..n], table[i])
      ensures i >= |table| ==> FromListing(remote[..n], Upserted(table, remote, n)[i])
    {
      UpsertedRow(table, remote, n, i);
    }
  }

  lemma PresentStep(before: seq<Category>, c: Category, slug: string)
    requires UniqueSlugs(before) && (Listed(before, slug) || c.slug == slug)
    ensures Listed(Upsert(before, c), slug)
  {
    UpsertStep(before, c);
    var after := Upsert(before, c);
    var at := Find(before, slug).GetOr(|before|);
    assert after[at].slug == slug;
    FindExact(after, slug);
  }

  lemma {:induction false} AllListedPresent(table: seq<Category>, remote: seq<Category>, n: nat, slug: string)
    requires UniqueSlugs(table) && n <= |remote| && (Listed(remote[..n], slug) || Listed(table, slug))
    ensures Listed(Upserted(table, remote, n), slug)
  {
    if n > 0 {
      UpsertedUnique(table, remote, n - 1);
      ListedPrefix(remote, n, slug);
      if Listed(remote[..n - 1], slug) || Listed(table, slug) {
        AllListedPresent(table, remote, n - 1, slug);
      }
      PresentStep(Upserted(table, remote, n - 1), remote[n - 1], slug);
    }
  }

  /**
   * One run over any list that is not empty: every listed slug has a row that says exactly
   * what its last listing says, every other row is inactive and otherwise as it was, and no
   * row is deleted or renumbered.
   */
  lemma SyncConverges(table: seq<Category>, remote: seq<Category>)
    requires UniqueSlugs(table) && remote != []
    ensures var after := Synced(table, remote);
            && UniqueSlugs(after) && |after| >= |table|
            && (forall i :: 0 <= i < |table| ==> after[i].slug == table[i].slug)
            && (forall i :: 0 <= i < |after| && Listed(remote, after[i].slug) ==>
                  after[i] == LastListing(remote, after[i].slug))
            && (forall i :: 0 <= i < |after| && !Listed(remote, after[i].slug) ==>
                  i < |table| && after[i] == table[i].(isActive := false))
  {
    UpsertedExact(table, remote, |remote|);
    assert remote[..|remote|] == remote;
    var after := Upserted(table, remote, |remote|);
    forall i | 0 <= i < |table|
      ensures after[i].slug == table[i].slug
    {
      SettledKeepsSlug(remote, table[i]);
    }
  }

  lemma EveryListingHasItsRow(table: seq<Category>, remote: seq<Category>, slug: string)
    requires UniqueSlugs(table) && Listed(remote, slug)
    ensures Listed(Synced(table, remote), slug)
  {
    assert remote[..|remote|] == remote;
    AllListedPresent(table, remote, |remote|, slug);
    var upserted := Upserted(table, remote, |remote|);
    assert Synced(table, remote)[Find(upserted, slug).value].slug == slug;
    FindExact(Synced(table, remote), slug);
  }

  lemma UpsertOfPresent(table: seq<Category>, c: Category)
    requires UniqueSlugs(table) && Listed(table, c.slug)
    ensures |Upsert(table, c)| == |table|
  {
    UpsertStep(table, c);
  }

  /** Listings that all have rows add none. */
  lemma {:induction false} UpsertedLength(table: seq<Category>, remote: seq<Category>, n: nat)
    requires UniqueSlugs(table) && n <= |remote|
    requires forall i :: 0 <= i < |remote| ==> Listed(table, remote[i].slug)
    ensures |Upserted(table, remote, n)| == |table|
  {
    if n > 0 {
      UpsertedLength(table, remote, n - 1);
      UpsertedUnique(table, remote, n - 1);
      AllListedPresent(table, remote, n - 1, remote[n - 1].slug);
      UpsertOfPresent(Upserted(table, remote, n - 1), remote[n - 1]);
    }
  }

  lemma {:induction false} NothingUnlisted(table: seq<Category>, remote: seq<Category>, n: nat)
    requires n <= |table|
    requires forall i :: 0 <= i < |table| && !Listed(remote, table[i].slug) ==> !table[i].isActive
    ensures Unlisted(table, remote, n) == 0
  {
    if n > 0 {
      NothingUnlisted(table, remote, n - 1);
    }
  }

  /** An immediate second run over the same list imports none, retires none and changes no row. */
  lemma SecondSyncChangesNothing(table: seq<Category>, remote: seq<Category>)
    requires UniqueSlugs(table)
    ensures var once := Synced(table, remote);
            && Synced(once, remote) == once
            && Upserted(once, remote, |remote|) == once
            && (remote != [] ==> Unlisted(once, remote, |once|) == 0)
  {
    if remote != [] {
      var once := Synced(table, remote);
      SyncConverges(table, remote);
      forall i | 0 <= i < |remote|
        ensures Listed(once, remote[i].slug)
      {
        FindExact(remote, remote[i].slug);
        EveryListingHasItsRow(table, remote, remote[i].slug);
      }
      UpsertedLength(once, remote, |remote|);
      UpsertedExact(once, remote, |remote|);
      assert remote[..|remote|] == remote;
      assert forall i :: 0 <= i < |once| ==> Upserted(once, remote, |remote|)[i] == once[i];
      assert Upserted(once, remote, |remote|) == once;
      assert Synced(once, remote) == once;
      NothingUnlisted(once, remote, |once|);
    } else {
      assert Upserted(table, remote, 0) == table;
    }
  }

  class CategoryTable {
    var rows: seq<Category>

    constructor ()
      ensures rows == []
    {
      rows := [];
    }

    method FindBySlug(slug: string) returns (id: Option<nat>)
      requires UniqueSlugs(rows)
      ensures id == Find(rows, slug)
    {
      FindExact(rows, slug);
      for i := 0 to |rows|
        invariant forall j :: 0 <= j < i ==> rows[j].slug != slug
      {
        if rows[i].slug == slug {
          return Some(i);
        }
      }
      return None;
    }

    /** Switches off what is not listed, and says how many rows that was. */
    method Retire(remote: seq<Category>) returns (retired: nat)
      modifies this
      ensures rows == Retired(old(rows), remote)
      ensures retired == Unlisted(old(rows), remote, |old(rows)|)
    {
      ghost var was := rows;
      retired := 0;
      for i := 0 to |rows|
        invariant |rows| == |was|
        invariant forall j :: 0 <= j < |rows| ==> rows[j] == if j < i then Retired(was, remote)[j] else was[j]
        invariant retired == Unlisted(was, remote, i)
      {
        if rows[i].isActive && !Listed(remote, rows[i].slug) {
          rows := rows[i := rows[i].(isActive := false)];
          retired := retired + 1;
        }
      }
    }

    /** One listing: update the row that has its slug, or insert one. */
    method UpsertOne(category: Category) returns (inserted: bool)
      requires UniqueSlugs(rows)
      modifies this
      ensures rows == Upsert(old(rows), category) && UniqueSlugs(rows)
      ensures |rows| == |old(rows)| + if inserted then 1 else 0
    {
      UpsertStep(rows, category);
      FindExact(rows, category.slug);
      var existing := FindBySlug(category.slug);
      if existing.Some? {
        rows := rows[existing.value := category];
      } else {
        rows := rows + [category];
      }
      inserted := existing.None?;
    }

    /** Every listing in turn: rows inserted, rows updated, names in the order listed. */
    method UpsertAll(remote: seq<Category>) returns (imported: nat, updated: nat, names: seq<string>)
      requires UniqueSlugs(rows)
      modifies this
      ensures rows == Upserted(old(rows), remote, |remote|)
      ensures imported == |rows| - |old(rows)| && imported + updated == |remote|
      ensures |names| == |remote| && forall i :: 0 <= i < |remote| ==> names[i] == remote[i].name
    {
      ghost var was := rows;
      imported, updated, names := 0, 0, [];
      for i := 0 to |remote|
        invariant rows == Upserted(was, remote, i) && UniqueSlugs(rows)
        invariant imported == |rows| - |was| && imported + updated == i
        invariant |names| == i && forall j :: 0 <= j < i ==> names[j] == remote[j].name
      {
        var inserted := UpsertOne(remote[i]);
        if inserted {
          imported := imported + 1;
        } else {
          updated := updated + 1;
        }
        names := names + [remote[i].name];
      }
    }

    method SyncCategories(remote: seq<Category>) returns (result: SyncResult)
      requires UniqueSlugs(rows)
      modifies this
      ensures rows == Synced(old(rows), remote)
      ensures result.imported == |rows| - |old(rows)|
      ensures result.imported + result.updated == |remote|
      ensures result.retired ==
                if remote == [] then 0
                else var upserted := Upserted(old(rows), remote, |remote|); Unlisted(upserted, remote, |upserted|)
      ensures |result.categories| == |remote| && forall i :: 0 <= i < |remote| ==>
          result.categories[i] == remote[i].name
    {
      var imported, updated, names := UpsertAll(remote);
      var retired := 0;
      if |remote| > 0 {
        retired := Retire(remote);
      }
      result := SyncResult(imported, updated, retired, names);
    }
  }

  // ── Sending ────────────────────────────────────────────────────────────────

  /** What the far side would answer to one try: an HTTP status, or nothing at all. */
  type Answer = Option<nat>

  datatype SendResult = SendResult(ok: bool, httpStatus: Answer)

  const RETRIES := 2

  predicate Accepted(a: Answer) {
    a.Some? && 200 <= a.value < 300
  }

  /** Worth another try: no answer, a server error, or "too many requests". */
  predicate Transient(a: Answer) {
    a.None? || a.value >= 500 || a.value == 429
  }

  /** Tries until one is accepted, one is refused for good, or the retries are spent. */
  method Send(answers: seq<Answer>) returns (result: SendResult, tries: nat)
    requires |answers| == RETRIES + 1
    ensures 1 <= tries <= 3
    ensures forall i :: 0 <= i < tries - 1 ==> Transient(answers[i])
    ensures tries < 3 ==> !Transient(answers[tries - 1])
    ensures result.httpStatus == answers[tries - 1]
    ensures result.ok <==> Accepted(answers[tries - 1])
  {
    var lastStatus: Answer := None;
    for attempt := 0 to RETRIES + 1
      invariant forall i :: 0 <= i < attempt ==> Transient(answers[i]) && !Accepted(answers[i])
      invariant attempt > 0 ==> lastStatus == answers[attempt - 1]
    {
      lastStatus := answers[attempt];
      tries := attempt + 1;
      if Accepted(lastStatus) {
        return SendResult(true, lastStatus), tries;
      }
      if lastStatus.Some? && lastStatus.value < 500 && lastStatus.value != 429 {
        return SendResult(false, lastStatus), tries;
      }
    }
    return SendResult(false, lastStatus), RETRIES + 1;
  }

  /** What counts as delivered, and what is worth another try. */
  lemma AnswersMean(status: nat)
    ensures Accepted(Some(status)) <==> 200 <= status <= 299
    ensures Transient(Some(status)) <==> status == 429 || 500 <= status
    ensures !Accepted(None) && Transient(None)
    ensures !(Accepted(Some(status)) && Transient(Some(status)))
  {
  }

  // ── Echo suppression ───────────────────────────────────────────────────────

  type Fingerprint = nat

  /** A mirror row's two hashes: the inbound one covers a whole snapshot, the outbound one a single push. */
  datatype Hashes = Hashes(inbound: Fingerprint, outbound: Option<Fingerprint>)

  /**
   * What changes a record's mirror row: a snapshot applied, a push that has got there,
   * however long ago it was decided on, and a reset.
   */
  datatype Traffic =
    | Inbound(snapshot: Fingerprint)
    | Arrived(fingerprint: Fingerprint)
    | Cleared

  datatype Verdict = NotMirrored | Echo | Sent

  /** What a push is decided to be, by the row as it is then. */
  function Decide(row: Option<Hashes>, fingerprint: Fingerprint, suppressEcho: bool): Verdict {
    if row.None? then NotMirrored
    else if suppressEcho && row.value.outbound == Some(fingerprint) then Echo
    else Sent
  }

  function Exchange(row: Option<Hashes>, t: Traffic): Option<Hashes> {
    match t
    case Inbound(snapshot) => Some(Hashes(snapshot, if row.Some? then row.value.outbound else None))
    case Arrived(fingerprint) => if row.Some? then Some(row.value.(outbound := Some(fingerprint))) else None
    case Cleared => None
  }

  function ExchangeAll(log: seq<Traffic>): Option<Hashes> {
    if log == [] then None else Exchange(ExchangeAll(log[..|log| - 1]), log[|log| - 1])
  }

  /** A snapshot has been applied and not cleared since. */
  predicate Mirrored(log: seq<Traffic>) {
    exists i :: 0 <= i < |log| && log[i].Inbound? && forall j :: i < j < |log| ==> !log[j].Cleared?
  }

  /** The push was the last to arrive while the record was mirrored, and only snapshots have come since. */
  predicate LastToArrive(log: seq<Traffic>, fingerprint: Fingerprint) {
    exists i :: 0 <= i < |log| && log[i] == Arrived(fingerprint) && Mirrored(log[..i])
                && forall j :: i < j < |log| ==> log[j].Inbound?
  }

  lemma MirroredStep(before: seq<Traffic>, last: Traffic)
    ensures Mirrored(before + [last]) <==> last.Inbound? || (Mirrored(before) && !last.Cleared?)
  {
    var log := before + [last];
    assert log[|before|] == last && forall i :: 0 <= i < |before| ==> log[i] == before[i];
    if Mirrored(before) && !last.Cleared? {
      var i :| 0 <= i < |before| && before[i].Inbound? && forall j :: i < j < |before| ==> !before[j].Cleared?;
      assert log[i].Inbound?;
    }
  }

  lemma LastToArriveStep(before: seq<Traffic>, last: Traffic, fingerprint: Fingerprint)
    ensures LastToArrive(before + [last], fingerprint) <==>
            (last == Arrived(fingerprint) && Mirrored(before)) || (last.Inbound? && LastToArrive(before, fingerprint))
  {
    var log := before + [last];
    assert log[..|before|] == before;
    assert log[|before|] == last && forall i :: 0 <= i < |before| ==> log[i] == before[i] && log[..i] == before[..i];
    if last.Inbound? && LastToArrive(before, fingerprint) {
      var i :| 0 <= i < |before| && before[i] == Arrived(fingerprint) && Mirrored(before[..i])
               && forall j :: i < j < |before| ==> before[j].Inbound?;
      assert log[i] == Arrived(fingerprint) && Mirrored(log[..i]);
    }
  }

  lemma {:induction false} RowRemembers(log: seq<Traffic>, fingerprint: Fingerprint)
    ensures ExchangeAll(log).Some? <==> Mirrored(log)
    ensures ExchangeAll(log).Some? && ExchangeAll(log).value.outbound == Some(fingerprint) <==> LastToArrive(log, fingerprint)
  {
    if log != [] {
      var before, last := log[..|log| - 1], log[|log| - 1];
      RowRemembers(before, fingerprint);
      assert log == before + [last];
      MirroredStep(before, last);
      LastToArriveStep(before, last, fingerprint);
    }
  }

  /**
   * Exactly what is dropped as an echo, over any history and however late pushes arrive: a
   * repeat of the last push to arrive since the record was mirrored. What came in plays no
   * part; and once a reset has cleared the row, nothing is an echo or sent until it is back.
   */
  lemma SuppressedIff(log: seq<Traffic>, fingerprint: Fingerprint, suppressEcho: bool)
    ensures Decide(ExchangeAll(log), fingerprint, suppressEcho) == Echo <==> suppressEcho && LastToArrive(log, fingerprint)
    ensures Decide(ExchangeAll(log), fingerprint, suppressEcho) == NotMirrored <==> !Mirrored(log)
  {
    RowRemembers(log, fingerprint);
    if LastToArrive(log, fingerprint) {
      assert ExchangeAll(log).Some?;
    }
  }

  /** A command, for which echoes are not looked for, is always sent while there is a row. */
  lemma CommandsAreSent(row: Option<Hashes>, fingerprint: Fingerprint)
    ensures Decide(row, fingerprint, false) == if row.Some? then Sent else NotMirrored
  {
  }

  /** A list that comes back empty switches nothing off. */
  lemma EmptyListChangesNothing(table: seq<Category>)
    ensures Synced(table, []) == table
  {
  }

  /** The first `n` rows that were on and are off. */
  function SwitchedOff(before: seq<Category>, after: seq<Category>, n: nat): set<nat>
    requires n <= |before| && n <= |after|
  {
    set i: nat | i < n && before[i].isActive && !after[i].isActive
  }

  /** A sync's count of rows switched off is the number that were on before it and off after. */
  lemma {:induction false} RetiredCounts(table: seq<Category>, remote: seq<Category>, n: nat)
    requires n <= |table|
    ensures |Retired(table, remote)| == |table|
    ensures Unlisted(table, remote, n) ==
              |SwitchedOff(table, Retired(table, remote), n)|
  {
    var after := Retired(table, remote);
    if n == 0 {
      assert SwitchedOff(table, after, 0) == {};
    } else {
      RetiredCounts(table, remote, n - 1);
      if table[n - 1].isActive && !after[n - 1].isActive {
        assert SwitchedOff(table, after, n) == SwitchedOff(table, after, n - 1) + {n - 1};
      } else {
        assert SwitchedOff(table, after, n) == SwitchedOff(table, after, n - 1);
      }
    }
  }

  /** So a push is dropped although the website has since moved on, and a true echo is sent. */
  lemma EchoesAndRepeats(first: Fingerprint, value: Fingerprint, other: Fingerprint)
    requires value != other
    ensures var row := ExchangeAll([Inbound(first), Arrived(value), Inbound(other)]);
            Decide(row, value, true) == Echo && Decide(row, other, true) == Sent
  {
    var log := [Inbound(first), Arrived(value), Inbound(other)];
    assert log[..2] == [Inbound(first), Arrived(value)] && log[..2][..1] == [Inbound(first)];
    assert ExchangeAll([Inbound(first)]) == Some(Hashes(first, None));
    assert ExchangeAll(log[..2]) == Some(Hashes(first, Some(value)));
  }

  /** After a reset the same push goes out again: what had arrived before it is forgotten. */
  lemma ResetForgets(log: seq<Traffic>, snapshot: Fingerprint, fingerprint: Fingerprint)
    ensures Decide(ExchangeAll(log + [Cleared]), fingerprint, true) == NotMirrored
    ensures Decide(ExchangeAll(log + [Cleared] + [Inbound(snapshot)]), fingerprint, true) == Sent
  {
    assert (log + [Cleared])[..|log|] == log;
    assert (log + [Cleared] + [Inbound(snapshot)])[..|log| + 1] == log + [Cleared];
  }
}
