/**
 * Cursors as text: what a page hands out for the next request, what that request reads
 * back, and what becomes of a walk when the text is coarser than the column.
 */
module Cursors {
  import opened Paging
  import opened Strings
  import opened Wrappers

  // ── Writing and reading ────────────────────────────────────────────────────

  /** What both services put under base64url. */
  function EncodeCursor(sortValue: string, id: string): string {
    sortValue + "|" + id
  }

  function LastIndexOf(s: string, c: char): Option<nat> {
    if s == [] then None
    else if s[|s| - 1] == c then Some(|s| - 1)
    else LastIndexOf(s[..|s| - 1], c)
  }

  /** The applicant list's reading: the last separator; a cursor that does not read adds no condition. */
  function DecodeListCursor(text: string): Option<(string, string)> {
    match LastIndexOf(text, '|')
    case None => None
    case Some(i) =>
      if i < |text| && text[i + 1..] != "" then Some((text[..i], text[i + 1..])) else None
  }

  /** The audit log's reading: the first two of the separated parts, neither of them empty. */
  function DecodeAuditCursor(text: string): Option<(string, string)> {
    var parts := Split(text, '|');
    if |parts| < 2 || parts[0] == "" || parts[1] == "" then None else Some((parts[0], parts[1]))
  }

  lemma {:induction false} LastIndexAfter(s: string, id: string)
    requires '|' !in id
    ensures LastIndexOf(s + "|" + id, '|') == Some(|s|)
  {
    var text := s + "|" + id;
    if id == [] {
      assert text[|text| - 1] == '|';
    } else {
      assert id[|id| - 1] in id;
      assert text[..|text| - 1] == s + "|" + id[..|id| - 1];
      LastIndexAfter(s, id[..|id| - 1]);
    }
  }

  lemma {:induction false} LastIndexExact(s: string)
    ensures match LastIndexOf(s, '|')
            case None => '|' !in s
            case Some(i) => i < |s| && s[i] == '|' && '|' !in s[i + 1..]
  {
    if s != [] && s[|s| - 1] != '|' {
      LastIndexExact(s[..|s| - 1]);
      assert s == s[..|s| - 1] + [s[|s| - 1]];
      match LastIndexOf(s, '|')
      case None =>
      case Some(i) => assert s[i + 1..] == s[..|s| - 1][i + 1..] + [s[|s| - 1]];
    }
  }

  /** A list cursor reads back exactly when its id is not empty and holds no separator; the sort value may hold any. */
  lemma ListCursorRoundTripIff(sortValue: string, id: string)
    ensures DecodeListCursor(EncodeCursor(sortValue, id)) == Some((sortValue, id)) <==> id != "" && '|' !in id
  {
    var text := EncodeCursor(sortValue, id);
    LastIndexExact(text);
    if '|' !in id {
      LastIndexAfter(sortValue, id);
      assert text[|sortValue| + 1..] == id && text[..|sortValue|] == sortValue;
    }
  }

  /** An audit cursor reads back exactly when neither part is empty or holds a separator. */
  lemma AuditCursorRoundTripIff(at: string, id: string)
    ensures DecodeAuditCursor(EncodeCursor(at, id)) == Some((at, id)) <==>
              at != "" && id != "" && '|' !in at && '|' !in id
  {
    var text := EncodeCursor(at, id);
    SplitJoins(text, '|');
    if '|' !in at && '|' !in id {
      assert [at, id][..1] == [at];
      assert Join([at, id], '|') == text;
      JoinSplits([at, id], '|');
    }
  }

  /** An audit cursor reads as its first two parts, whatever follows them; with fewer, or an empty one, it does not read. */
  lemma AuditCursorReads(parts: seq<string>)
    requires parts != [] && Whole(parts, '|')
    ensures DecodeAuditCursor(Join(parts, '|')) ==
              if |parts| >= 2 && parts[0] != "" && parts[1] != "" then Some((parts[0], parts[1])) else None
  {
    JoinSplits(parts, '|');
  }

  /** What does not read: nothing after the last separator, or no separator at all. */
  lemma ListCursorUnreadableIff(text: string)
    ensures DecodeListCursor(text).None? <==> '|' !in text || text[|text| - 1] == '|'
  {
    LastIndexExact(text);
    if DecodeListCursor(text).Some? {
      assert text[|text| - 1] in text[LastIndexOf(text, '|').value + 1..];
    }
  }

  // ── A request with a text cursor ───────────────────────────────────────────

  /** How sort values and ids are written, and how the database reads the text. */
  datatype Format = Format(show: int -> string, cast: string -> int, showId: int -> string, castId: string -> int)

  /** Which service decodes. */
  datatype Reader = ListReader | AuditReader

  function Decode(reader: Reader, text: string): Option<(string, string)> {
    if reader.ListReader? then DecodeListCursor(text) else DecodeAuditCursor(text)
  }

  /** The position a cursor stands for: a text that does not read is no cursor at all. */
  function Position(f: Format, reader: Reader, text: Option<string>): Option<Key> {
    if text.None? then None
    else
      match Decode(reader, text.value)
      case None => None
      case Some(parts) => Some(Key(f.cast(parts.0), f.castId(parts.1)))
  }

  function Written(f: Format, k: Option<Key>): Option<string> {
    if k.None? then None else Some(EncodeCursor(f.show(k.value.sort), f.showId(k.value.id)))
  }

  /** What a row's cursor reads back as. */
  function Reread(f: Format, k: Key): Key {
    Key(f.cast(f.show(k.sort)), k.id)
  }

  /** Ids read back and hold no separator; the audit log asks the same of its sort values. */
  ghost predicate Readable(f: Format, reader: Reader) {
    && (forall id: int :: f.castId(f.showId(id)) == id && f.showId(id) != "" && '|' !in f.showId(id))
    && (reader.AuditReader? ==> forall v: int :: f.show(v) != "" && '|' !in f.show(v))
  }

  lemma WrittenReads(f: Format, reader: Reader, k: Key)
    requires Readable(f, reader)
    ensures Position(f, reader, Written(f, Some(k))) == Some(Reread(f, k))
  {
    ListCursorRoundTripIff(f.show(k.sort), f.showId(k.id));
    AuditCursorRoundTripIff(f.show(k.sort), f.showId(k.id));
  }

  datatype TextPage = TextPage(items: seq<Key>, next: Option<string>)

  ghost function Serve(f: Format, reader: Reader, dir: Direction, keys: set<Key>, cursor: Option<string>, limit: nat): TextPage
    requires limit >= 1
  {
    var page := Fetch(dir, keys, Position(f, reader, cursor), limit);
    TextPage(page.items, Written(f, page.next))
  }

  /** A cursor the service cannot read is answered with the first page. */
  lemma UnreadableStartsOver(f: Format, dir: Direction, keys: set<Key>, text: string, limit: nat)
    requires limit >= 1 && ('|' !in text || text[|text| - 1] == '|')
    ensures Serve(f, ListReader, dir, keys, Some(text), limit) == Serve(f, ListReader, dir, keys, None, limit)
  {
    ListCursorUnreadableIff(text);
  }

  // ── The walk through text ──────────────────────────────────────────────────

  function TextAt(pages: seq<TextPage>, i: nat): Option<string>
    requires i <= |pages|
  {
    if i == 0 then None else pages[i - 1].next
  }

  ghost predicate ServedAt(f: Format, reader: Reader, dir: Direction, limit: nat, tables: seq<set<Key>>,
                           pages: seq<TextPage>, i: nat)
    requires limit >= 1 && i < |pages| == |tables|
  {
    pages[i] == Serve(f, reader, dir, tables[i], TextAt(pages, i), limit)
  }

  /** One request per table state, each with the text the last answer carried, until one carries none. */
  ghost predicate Walked(f: Format, reader: Reader, dir: Direction, limit: nat, tables: seq<set<Key>>,
                         pages: seq<TextPage>)
    requires limit >= 1
  {
    && |pages| == |tables| > 0
    && (forall i :: 0 <= i < |pages| ==> ServedAt(f, reader, dir, limit, tables, pages, i))
    && (forall i :: 0 <= i < |pages| ==> (pages[i].next == None <==> i == |pages| - 1))
  }

  /** The same pages, with the positions their cursors stand for. */
  function Plain(f: Format, reader: Reader, pages: seq<TextPage>): seq<Page> {
    seq(|pages|, i requires 0 <= i < |pages| => Page(pages[i].items, Position(f, reader, pages[i].next)))
  }

  /** Every sort value in the tables reads back as itself. */
  ghost predicate Exact(f: Format, tables: seq<set<Key>>) {
    forall i, k :: 0 <= i < |tables| && k in tables[i] ==> Reread(f, k) == k
  }

  /** With text as fine as the column, following the text is the walk on positions, page for page. */
  lemma {:induction false} TextWalkIsTheWalk(f: Format, reader: Reader, dir: Direction, limit: nat,
          tables: seq<set<Key>>, pages: seq<TextPage>)
    requires limit >= 1 && Readable(f, reader) && Exact(f, tables) && Walked(f, reader, dir, limit, tables, pages)
    ensures Followed(dir, limit, tables, Plain(f, reader, pages))
  {
    var plain := Plain(f, reader, pages);
    forall i | 0 <= i < |pages|
      ensures AnsweredAt(dir, limit, tables, plain, i)
      ensures plain[i].next.None? <==> i == |pages| - 1
    {
      assert ServedAt(f, reader, dir, limit, tables, pages, i);
      var page := Fetch(dir, tables[i], CursorAt(plain, i), limit);
      FetchIsWindow(dir, tables[i], CursorAt(plain, i), limit);
      if page.next.Some? {
        WrittenReads(f, reader, page.next.value);
        assert page.next.value in tables[i];
      }
    }
  }

  // ── Text coarser than the column ───────────────────────────────────────────

  /** A row's cursor never reads back as a place before the row: in a descending list, text may round down. */
  ghost predicate Onward(f: Format, dir: Direction) {
    forall k: Key :: !Before(dir, Reread(f, k), k)
  }

  function LastOf(page: TextPage): Key
    requires page.items != []
  {
    page.items[|page.items| - 1]
  }

  /** Page `i` ends before the row, and its cursor reads back as a place not before it. */
  predicate Skips(f: Format, dir: Direction, page: TextPage, k: Key) {
    page.items != [] && Before(dir, LastOf(page), k) && !Before(dir, Reread(f, LastOf(page)), k)
  }

  predicate Reaches(f: Format, dir: Direction, pages: seq<TextPage>, i: nat, k: Key)
    requires i < |pages|
  {
    && (i == 0 || (pages[i - 1].items != [] && Before(dir, Reread(f, LastOf(pages[i - 1])), k)))
    && (i == |pages| - 1 || (pages[i].items != [] && !Before(dir, LastOf(pages[i]), k)))
  }

  lemma CutEndsWithNext(rows: seq<Key>, limit: nat)
    requires limit >= 1
    ensures var page := Cut(rows, limit);
            page.next.Some? ==> page.items != [] && page.next.value == page.items[|page.items| - 1]
  {
  }

  lemma HandsOutLast(f: Format, reader: Reader, dir: Direction, limit: nat, tables: seq<set<Key>>,
                     pages: seq<TextPage>, i: nat)
    requires limit >= 1 && Readable(f, reader) && Walked(f, reader, dir, limit, tables, pages) && i < |pages| - 1
    ensures pages[i].items != []
    ensures Position(f, reader, pages[i].next) == Some(Reread(f, LastOf(pages[i])))
  {
    assert ServedAt(f, reader, dir, limit, tables, pages, i);
    CutEndsWithNext(Listing(dir, Remaining(dir, tables[i], Position(f, reader, TextAt(pages, i)))), limit);
    WrittenReads(f, reader, LastOf(pages[i]));
  }

  lemma ServedPage(f: Format, reader: Reader, dir: Direction, keys: set<Key>, text: Option<string>, limit: nat, k: Key)
    requires limit >= 1
    ensures var page, cursor := Serve(f, reader, dir, keys, text, limit), Position(f, reader, text);
            && (page.next.Some? ==> page.items != [])
            && (k in page.items <==>
                  && k in keys
                  && (cursor.Some? ==> Before(dir, cursor.value, k))
                  && (page.next.Some? ==> !Before(dir, LastOf(page), k)))
  {
    var cursor := Position(f, reader, text);
    FetchIsWindow(dir, keys, cursor, limit);
    CutEndsWithNext(Listing(dir, Remaining(dir, keys, cursor)), limit);
  }

  /** Page `i` holds the rows of its table past what the last cursor reads back as, up to its own last row. */
  lemma PageReaches(f: Format, reader: Reader, dir: Direction, limit: nat, tables: seq<set<Key>>, pages: seq<TextPage>,
                    i: nat, k: Key)
    requires limit >= 1 && Readable(f, reader) && Walked(f, reader, dir, limit, tables, pages) && i < |pages|
    ensures k in pages[i].items <==> k in tables[i] && Reaches(f, dir, pages, i, k)
  {
    assert ServedAt(f, reader, dir, limit, tables, pages, i);
    ServedPage(f, reader, dir, tables[i], TextAt(pages, i), limit, k);
    if i > 0 {
      HandsOutLast(f, reader, dir, limit, tables, pages, i - 1);
    }
  }

  /** The place a page ends, as the next one's start: nothing before it comes again. */
  lemma EndsMoveOn(f: Format, reader: Reader, dir: Direction, limit: nat, tables: seq<set<Key>>, pages: seq<TextPage>,
                   i: nat)
    requires limit >= 1 && Readable(f, reader) && Walked(f, reader, dir, limit, tables, pages)
    requires 0 < i < |pages| - 1
    ensures pages[i - 1].items != [] && pages[i].items != []
    ensures Before(dir, Reread(f, LastOf(pages[i - 1])), LastOf(pages[i]))
  {
    HandsOutLast(f, reader, dir, limit, tables, pages, i - 1);
    HandsOutLast(f, reader, dir, limit, tables, pages, i);
    PageReaches(f, reader, dir, limit, tables, pages, i, LastOf(pages[i]));
  }

  /** Pages up to `i` end before the row and skip nothing of it, if page `i` ends before it. */
  lemma {:induction false} EndsBefore(f: Format, reader: Reader, dir: Direction, limit: nat, tables: seq<set<Key>>,
          pages: seq<TextPage>, j: nat, i: nat, k: Key)
    requires limit >= 1 && Readable(f, reader) && Walked(f, reader, dir, limit, tables, pages) && Onward(f, dir)
    requires j < i < |pages| - 1 && pages[i].items != [] && Before(dir, LastOf(pages[i]), k)
    ensures pages[j].items != []
    ensures Before(dir, LastOf(pages[j]), k) && Before(dir, Reread(f, LastOf(pages[j])), k)
  {
    EndsMoveOn(f, reader, dir, limit, tables, pages, i);
    assert !Before(dir, Reread(f, LastOf(pages[i - 1])), LastOf(pages[i - 1]));
    if j < i - 1 {
      EndsBefore(f, reader, dir, limit, tables, pages, j, i - 1, k);
    }
  }

  /** The first page that does not end before the row. */
  lemma FirstNotBefore(dir: Direction, pages: seq<TextPage>, k: Key) returns (at: nat)
    requires pages != [] && forall i :: 0 <= i < |pages| - 1 ==> pages[i].items != []
    ensures at < |pages|
    ensures forall i :: 0 <= i < at ==> pages[i].items != [] && Before(dir, LastOf(pages[i]), k)
    ensures at < |pages| - 1 ==> !Before(dir, LastOf(pages[at]), k)
  {
    at := 0;
    while at < |pages| - 1 && Before(dir, LastOf(pages[at]), k)
      invariant at < |pages|
      invariant forall i :: 0 <= i < at ==> pages[i].items != [] && Before(dir, LastOf(pages[i]), k)
    {
      at := at + 1;
    }
  }

  /** No other page can hold the row. */
  lemma OnlyThere(f: Format, reader: Reader, dir: Direction, limit: nat, tables: seq<set<Key>>, pages: seq<TextPage>,
                  k: Key, at: nat, i: nat)
    requires limit >= 1 && Readable(f, reader) && Walked(f, reader, dir, limit, tables, pages) && Onward(f, dir)
    requires at < |pages| && i < |pages| && i != at
    requires at > 0 ==> pages[at - 1].items != [] && Before(dir, LastOf(pages[at - 1]), k)
    requires at < |pages| - 1 ==> pages[at].items != [] && !Before(dir, LastOf(pages[at]), k)
    ensures k !in pages[i].items
  {
    PageReaches(f, reader, dir, limit, tables, pages, i, k);
    if i < at {
      if i < at - 1 {
        EndsBefore(f, reader, dir, limit, tables, pages, i, at - 1, k);
      }
    } else if k in pages[i].items {
      var last := LastOf(pages[i - 1]);
      assert !Before(dir, Reread(f, last), last);
      assert Before(dir, last, k);
      if at < i - 1 {
        EndsBefore(f, reader, dir, limit, tables, pages, at, i - 1, k);
      }
    }
  }

  /**
   * However coarse the text, as long as it does not point back: a row is listed at most
   * once, and one that is there throughout is listed exactly when no page that ends before
   * it hands out a cursor that reads back as a place past it.
   */
  lemma {:induction false} CoarseWalk(f: Format, reader: Reader, dir: Direction, limit: nat, tables: seq<set<Key>>,
          pages: seq<TextPage>, k: Key)
    requires limit >= 1 && Readable(f, reader) && Walked(f, reader, dir, limit, tables, pages) && Onward(f, dir)
    ensures Times(Plain(f, reader, pages), k) <= 1
    ensures (forall i :: 0 <= i < |tables| ==> k in tables[i]) ==>
              (Times(Plain(f, reader, pages), k) == 1 <==>
               forall i :: 0 <= i < |pages| - 1 ==> !Skips(f, dir, pages[i], k))
  {
    forall i | 0 <= i < |pages| - 1
      ensures pages[i].items != []
    {
      HandsOutLast(f, reader, dir, limit, tables, pages, i);
    }
    var at := FirstNotBefore(dir, pages, k);
    forall i | 0 <= i < |pages| && i != at
      ensures k !in Plain(f, reader, pages)[i].items
    {
      OnlyThere(f, reader, dir, limit, tables, pages, k, at, i);
    }
    TimesIs(Plain(f, reader, pages), k, at);
    PageReaches(f, reader, dir, limit, tables, pages, at, k);
    forall i | 0 <= i < |pages| - 1
      ensures Skips(f, dir, pages[i], k) <==> i + 1 == at && !Before(dir, Reread(f, LastOf(pages[i])), k)
    {
      SkipsOnlyThere(f, reader, dir, limit, tables, pages, k, at, i);
    }
  }

  lemma SkipsOnlyThere(f: Format, reader: Reader, dir: Direction, limit: nat, tables: seq<set<Key>>,
                       pages: seq<TextPage>, k: Key, at: nat, i: nat)
    requires limit >= 1 && Readable(f, reader) && Walked(f, reader, dir, limit, tables, pages) && Onward(f, dir)
    requires at < |pages| && i < |pages| - 1 && pages[i].items != []
    requires at > 0 ==> pages[at - 1].items != [] && Before(dir, LastOf(pages[at - 1]), k)
    requires at < |pages| - 1 ==> pages[at].items != [] && !Before(dir, LastOf(pages[at]), k)
    ensures Skips(f, dir, pages[i], k) <==> i + 1 == at && !Before(dir, Reread(f, LastOf(pages[i])), k)
  {
    if i < at - 1 {
      EndsBefore(f, reader, dir, limit, tables, pages, i, at - 1, k);
    } else if at < i && Before(dir, LastOf(pages[i]), k) {
      EndsBefore(f, reader, dir, limit, tables, pages, at, i, k);
    }
  }

  // ── Text that points back ──────────────────────────────────────────────────

  /** A row's cursor never reads back as a place past the row: in an ascending list, text may round down. */
  ghost predicate NotPast(f: Format, dir: Direction) {
    forall k: Key :: !Before(dir, k, Reread(f, k))
  }

  /** Page `i` ends at the row or after it, and its cursor reads back as a place before it. */
  predicate Repeats(f: Format, dir: Direction, page: TextPage, k: Key) {
    page.items != [] && !Before(dir, LastOf(page), k) && Before(dir, Reread(f, LastOf(page)), k)
  }

  lemma {:induction false} OnOne(pages: seq<Page>, k: Key, i: nat)
    requires i < |pages| && k in pages[i].items
    ensures Times(pages, k) >= 1
  {
    if i < |pages| - 1 {
      OnOne(pages[..|pages| - 1], k, i);
    }
  }

  lemma {:induction false} OnTwo(pages: seq<Page>, k: Key, i: nat, j: nat)
    requires i < j < |pages| && k in pages[i].items && k in pages[j].items
    ensures Times(pages, k) >= 2
  {
    if j < |pages| - 1 {
      OnTwo(pages[..|pages| - 1], k, i, j);
    } else {
      OnOne(pages[..|pages| - 1], k, i);
    }
  }

  /** From a page on whose cursor reads back as before the row, some page lists it. */
  lemma ListedFromHere(f: Format, reader: Reader, dir: Direction, limit: nat, tables: seq<set<Key>>,
                       pages: seq<TextPage>, k: Key, from: nat) returns (at: nat)
    requires limit >= 1 && Readable(f, reader) && Walked(f, reader, dir, limit, tables, pages) && NotPast(f, dir)
    requires from < |pages| && k in tables[from]
    requires forall i :: from <= i < |pages| ==> k in tables[i]
    requires from > 0 ==> pages[from - 1].items != [] && Before(dir, Reread(f, LastOf(pages[from - 1])), k)
    ensures from <= at < |pages| && k in pages[at].items
    ensures forall i :: from <= i < at ==> pages[i].items != [] && Before(dir, LastOf(pages[i]), k)
    ensures at < |pages| - 1 ==> pages[at].items != [] && !Before(dir, LastOf(pages[at]), k)
    decreases |pages| - from
  {
    if from < |pages| - 1 {
      HandsOutLast(f, reader, dir, limit, tables, pages, from);
    }
    if from < |pages| - 1 && Before(dir, LastOf(pages[from]), k) {
      assert !Before(dir, LastOf(pages[from]), Reread(f, LastOf(pages[from])));
      at := ListedFromHere(f, reader, dir, limit, tables, pages, k, from + 1);
    } else {
      at := from;
      PageReaches(f, reader, dir, limit, tables, pages, at, k);
    }
  }

  /** A second listing comes after a page that repeats the row. */
  lemma {:induction false} ListedAgain(f: Format, reader: Reader, dir: Direction, limit: nat, tables: seq<set<Key>>,
          pages: seq<TextPage>, k: Key, at: nat, i: nat)
    requires limit >= 1 && Readable(f, reader) && Walked(f, reader, dir, limit, tables, pages)
    requires at < i < |pages| && pages[at].items != [] && !Before(dir, LastOf(pages[at]), k)
    requires pages[i - 1].items != [] && Before(dir, Reread(f, LastOf(pages[i - 1])), k)
    ensures exists j :: at <= j < |pages| - 1 && Repeats(f, dir, pages[j], k)
  {
    if Before(dir, LastOf(pages[i - 1]), k) {
      EndsMoveOn(f, reader, dir, limit, tables, pages, i - 1);
      ListedAgain(f, reader, dir, limit, tables, pages, k, at, i - 1);
    } else {
      assert Repeats(f, dir, pages[i - 1], k);
    }
  }

  /**
   * However coarse the text, as long as it does not point past its row: a row that is there
   * throughout is listed at least once, and exactly once if and only if no page that ends
   * at it or after it hands out a cursor that reads back as a place before it.
   */
  lemma {:induction false} BackwardWalk(f: Format, reader: Reader, dir: Direction, limit: nat, tables: seq<set<Key>>,
          pages: seq<TextPage>, k: Key)
    requires limit >= 1 && Readable(f, reader) && Walked(f, reader, dir, limit, tables, pages) && NotPast(f, dir)
    requires forall i :: 0 <= i < |tables| ==> k in tables[i]
    ensures Times(Plain(f, reader, pages), k) >= 1
    ensures Times(Plain(f, reader, pages), k) == 1 <==>
            forall i :: 0 <= i < |pages| - 1 ==> !Repeats(f, dir, pages[i], k)
  {
    var plain := Plain(f, reader, pages);
    var at := ListedFromHere(f, reader, dir, limit, tables, pages, k, 0);
    OnOne(plain, k, at);
    if i :| 0 <= i < |pages| - 1 && Repeats(f, dir, pages[i], k) {
      assert at <= i;
      var again := ListedFromHere(f, reader, dir, limit, tables, pages, k, i + 1);
      OnTwo(plain, k, at, again);
    } else {
      forall i | 0 <= i < |plain| && i != at
        ensures k !in plain[i].items
      {
        PageReaches(f, reader, dir, limit, tables, pages, i, k);
        if i > at && k in pages[i].items {
          ListedAgain(f, reader, dir, limit, tables, pages, k, at, i);
        }
      }
      TimesIs(plain, k, at);
    }
  }

  /** A page repeats its own last row exactly when that row's cursor reads back as before it. */
  lemma LastRowAgainIff(f: Format, dir: Direction, page: TextPage)
    requires page.items != []
    ensures Repeats(f, dir, page, LastOf(page)) <==> Before(dir, Reread(f, LastOf(page)), LastOf(page))
  {
  }

  /** The cursor a page hands out is answered with the same page exactly when no row tells it from the one the page came from. */
  lemma StuckIff(f: Format, reader: Reader, dir: Direction, keys: set<Key>, cursor: Option<string>, limit: nat)
    requires limit >= 1 && Readable(f, reader) && NotPast(f, dir)
    requires Serve(f, reader, dir, keys, cursor, limit).next.Some?
    ensures var page := Serve(f, reader, dir, keys, cursor, limit);
            && page.items != []
            && (Serve(f, reader, dir, keys, page.next, limit) == page <==>
                forall k <- keys ::
                  (Position(f, reader, cursor).Some? ==> Before(dir, Position(f, reader, cursor).value, k))
                  <==> Before(dir, Reread(f, LastOf(page)), k))
  {
    var page, start := Serve(f, reader, dir, keys, cursor, limit), Position(f, reader, cursor);
    CutEndsWithNext(Listing(dir, Remaining(dir, keys, start)), limit);
    WrittenReads(f, reader, LastOf(page));
    if forall k <- keys :: (start.Some? ==> Before(dir, start.value, k)) <==> Before(dir, Reread(f, LastOf(page)), k) {
      SameRemaining(dir, keys, start, Some(Reread(f, LastOf(page))));
    }
    if Serve(f, reader, dir, keys, page.next, limit) == page {
      forall k | k in keys
        ensures (start.Some? ==> Before(dir, start.value, k)) <==> Before(dir, Reread(f, LastOf(page)), k)
      {
        SameSide(f, reader, dir, keys, cursor, limit, k);
      }
    }
  }

  lemma SameRemaining(dir: Direction, keys: set<Key>, a: Option<Key>, b: Option<Key>)
    requires forall k <- keys :: (a.Some? ==> Before(dir, a.value, k)) <==> (b.Some? ==> Before(dir, b.value, k))
    ensures Remaining(dir, keys, a) == Remaining(dir, keys, b)
  {
  }

  lemma SameSide(f: Format, reader: Reader, dir: Direction, keys: set<Key>, cursor: Option<string>, limit: nat, k: Key)
    requires limit >= 1 && Readable(f, reader) && NotPast(f, dir) && k in keys
    requires Serve(f, reader, dir, keys, cursor, limit).next.Some?
    requires Serve(f, reader, dir, keys, Serve(f, reader, dir, keys, cursor, limit).next, limit) ==
             Serve(f, reader, dir, keys, cursor, limit)
    ensures Serve(f, reader, dir, keys, cursor, limit).items != []
    ensures (Position(f, reader, cursor).Some? ==> Before(dir, Position(f, reader, cursor).value, k)) <==>
            Before(dir, Reread(f, LastOf(Serve(f, reader, dir, keys, cursor, limit))), k)
  {
    var page, start := Serve(f, reader, dir, keys, cursor, limit), Position(f, reader, cursor);
    CutEndsWithNext(Listing(dir, Remaining(dir, keys, start)), limit);
    ServedPage(f, reader, dir, keys, cursor, limit, k);
    ServedPage(f, reader, dir, keys, cursor, limit, LastOf(page));
    WrittenReads(f, reader, LastOf(page));
    ServedPage(f, reader, dir, keys, page.next, limit, k);
    assert !Before(dir, LastOf(page), Reread(f, LastOf(page)));
  }

  /** A page whose last row reads back as the cursor it came from, in any table, is handed out for ever. */
  lemma {:induction false} AscendingNeverEnds(f: Format, reader: Reader, dir: Direction, keys: set<Key>, cursor: Option<string>,
          limit: nat, pages: seq<TextPage>, n: nat)
    requires limit >= 1 && Readable(f, reader)
    requires var page := Serve(f, reader, dir, keys, cursor, limit);
             page.next.Some? && page.items != [] && Position(f, reader, cursor) == Some(Reread(f, LastOf(page)))
    requires n < |pages| && pages[0] == Serve(f, reader, dir, keys, cursor, limit)
    requires forall i :: 0 < i < |pages| ==> pages[i] == Serve(f, reader, dir, keys, TextAt(pages, i), limit)
    ensures pages[n] == pages[0] && pages[n].next.Some?
  {
    if n > 0 {
      AscendingNeverEnds(f, reader, dir, keys, cursor, limit, pages, n - 1);
      CutEndsWithNext(Listing(dir, Remaining(dir, keys, Position(f, reader, cursor))), limit);
      WrittenReads(f, reader, LastOf(pages[0]));
      assert TextAt(pages, n) == pages[0].next;
    }
  }

  // ── What a timestamp loses ─────────────────────────────────────────────────

  /** Text that keeps the order but may round down, as milliseconds do for a column in microseconds. */
  ghost predicate RoundsDown(f: Format) {
    && (forall v: int :: f.cast(f.show(v)) <= v)
    && (forall v: int, w: int {:trigger f.show(v), f.show(w)} :: v <= w ==> f.cast(f.show(v)) <= f.cast(f.show(w)))
    && (forall v: int :: f.cast(f.show(f.cast(f.show(v)))) == f.cast(f.show(v)))
  }

  /** Newest first, the rows a cursor can skip share their rounded time with the row it was made from. */
  lemma SkippedSharesTick(f: Format, page: TextPage, k: Key)
    requires RoundsDown(f)
    ensures Skips(f, Desc, page, k) ==> f.cast(f.show(k.sort)) == f.cast(f.show(LastOf(page).sort))
  {
    if Skips(f, Desc, page, k) {
      var last := LastOf(page).sort;
      assert f.cast(f.show(last)) <= k.sort <= last;
      assert f.cast(f.show(f.cast(f.show(last)))) <= f.cast(f.show(k.sort)) <= f.cast(f.show(last));
    }
  }

  /** So a row that is there throughout, and shares its rounded time with no other, is listed exactly once. */
  lemma {:induction false} OwnTickExactlyOnce(f: Format, reader: Reader, limit: nat, tables: seq<set<Key>>,
          pages: seq<TextPage>, k: Key)
    requires limit >= 1 && Readable(f, reader) && Walked(f, reader, Desc, limit, tables, pages) && RoundsDown(f)
    requires forall i :: 0 <= i < |tables| ==> k in tables[i]
    requires forall i, other :: 0 <= i < |tables| && other in tables[i] && other != k ==>
               f.cast(f.show(other.sort)) != f.cast(f.show(k.sort))
    ensures Times(Plain(f, reader, pages), k) == 1
  {
    forall i | 0 <= i < |pages| - 1
      ensures !Skips(f, Desc, pages[i], k)
    {
      HandsOutLast(f, reader, Desc, limit, tables, pages, i);
      PageReaches(f, reader, Desc, limit, tables, pages, i, LastOf(pages[i]));
      SkippedSharesTick(f, pages[i], k);
    }
    CoarseWalk(f, reader, Desc, limit, tables, pages, k);
  }

  /**
   * Two rows written at one moment, as by one transaction, when the moment is not a whole
   * tick: if a page of any walk ends with the first, the second is on none.
   */
  lemma {:induction false} SameMomentDropped(f: Format, reader: Reader, limit: nat, tables: seq<set<Key>>,
          pages: seq<TextPage>, i: nat, second: Key)
    requires limit >= 1 && Readable(f, reader) && Walked(f, reader, Desc, limit, tables, pages) && RoundsDown(f)
    requires forall j :: 0 <= j < |tables| ==> second in tables[j]
    requires i < |pages| - 1 && pages[i].items != []
    requires LastOf(pages[i]).sort == second.sort && second.id < LastOf(pages[i]).id
    requires f.cast(f.show(second.sort)) < second.sort
    ensures Times(Plain(f, reader, pages), second) == 0
  {
    assert Skips(f, Desc, pages[i], second);
    CoarseWalk(f, reader, Desc, limit, tables, pages, second);
  }

  /** There are such walks: a table of just the two, one row a page. */
  lemma TwoRowsOneListed(f: Format, reader: Reader, moment: int, first: int, second: int)
    requires Readable(f, reader) && f.cast(f.show(moment)) < moment && second < first
    ensures var table := {Key(moment, first), Key(moment, second)};
            var pages := [TextPage([Key(moment, first)], Written(f, Some(Key(moment, first)))), TextPage([], None)];
            && Walked(f, reader, Desc, 1, [table, table], pages)
            && Times(Plain(f, reader, pages), Key(moment, second)) == 0
  {
    var a, b := Key(moment, first), Key(moment, second);
    var pages := [TextPage([a], Written(f, Some(a))), TextPage([], None)];
    FetchFrom(Desc, {a, b}, None, 1, [a, b]);
    WrittenReads(f, reader, a);
    FetchFrom(Desc, {a, b}, Some(Reread(f, a)), 1, []);
    TimesZero(Plain(f, reader, pages), b);
  }

  /** Oldest first, a row whose time is not a whole tick and that ends a page comes again. */
  lemma {:induction false} AscendingComesAgain(f: Format, reader: Reader, limit: nat, tables: seq<set<Key>>,
          pages: seq<TextPage>, i: nat)
    requires limit >= 1 && Readable(f, reader) && Walked(f, reader, Asc, limit, tables, pages) && RoundsDown(f)
    requires i < |pages| - 1 && pages[i].items != []
    requires forall j :: 0 <= j < |tables| ==> LastOf(pages[i]) in tables[j]
    requires f.cast(f.show(LastOf(pages[i]).sort)) < LastOf(pages[i]).sort
    ensures Times(Plain(f, reader, pages), LastOf(pages[i])) >= 2
  {
    LastRowAgainIff(f, Asc, pages[i]);
    BackwardWalk(f, reader, Asc, limit, tables, pages, LastOf(pages[i]));
  }

  /** With more such rows of one tick than a page holds, here two and one, the walk never ends. */
  lemma TwoRowsForEver(f: Format, reader: Reader, moment: int, first: int, second: int)
    requires Readable(f, reader) && f.cast(f.show(moment)) < moment && first < second
    ensures var table := {Key(moment, first), Key(moment, second)};
            var page := TextPage([Key(moment, first)], Written(f, Some(Key(moment, first))));
            Serve(f, reader, Asc, table, None, 1) == page == Serve(f, reader, Asc, table, page.next, 1)
  {
    var a, b := Key(moment, first), Key(moment, second);
    FetchFrom(Asc, {a, b}, None, 1, [a, b]);
    WrittenReads(f, reader, a);
    FetchFrom(Asc, {a, b}, Some(Reread(f, a)), 1, [a, b]);
  }
}
