/**
 * The seed loader of grifts/loader.go: the M/D/YYYY dates of the archive
 * file (`CustomTime`), the publish flag, and the records a seed run writes
 * through pop's raw `Create` (no validation), with the author cache that
 * keeps one author row per name.
 */
module Loader {
  import opened Common
  import opened Calendar
  import opened Records
  import opened Store
  import Text

  // ---------------------------------------------------------------
  // CustomTime
  // ---------------------------------------------------------------

  /** Why `CustomTime.UnmarshalJSON` fails: not three '/'-pieces, or `time.Parse` refused the text. */
  datatype DateError = InvalidDateFound | ParseFailed

  const InvalidDateText: string := "invalid date found"

  function DateErrorText(e: DateError): string {
    match e
    case InvalidDateFound => InvalidDateText
    case ParseFailed => "parsing time"
  }

  /** The JSON text of a date minus one pair of quotes, removed only when both ends are quotes. */
  function Unquoted(b: string): (s: string)
    requires |b| > 0 && b != "\""
    ensures b[0] == '"' && b[|b| - 1] == '"' ==> s == b[1..|b| - 1]
    ensures !(b[0] == '"' && b[|b| - 1] == '"') ==> s == b
  {
    if b[0] == '"' && b[|b| - 1] == '"' then b[1..|b| - 1] else b
  }

  /**
   * The time `UnmarshalJSON` leaves in a receiver that held `prev`, and its
   * error. An empty token, or a lone quote, makes the Go code index out of
   * range, hence the precondition.
   */
  function UnmarshalTime(prev: Time, b: string): (r: (Time, Option<DateError>))
    requires |b| > 0 && b != "\""
    ensures |Text.Split(Unquoted(b), '/')| != 3 ==> r == (prev, Some(InvalidDateFound))
    ensures r.1.None? ==> ParseMonthDayYear(Unquoted(b)).Some?
    ensures r.1.None? ==> r.0 == Time(ParseMonthDayYear(Unquoted(b)).value, 0)
    ensures r.1 == Some(ParseFailed) ==> r.0 == ZeroTime
  {
    var s := Unquoted(b);
    if |Text.Split(s, '/')| != 3 then (prev, Some(InvalidDateFound))
    else
      match ParseMonthDayYear(s)
      case Some(d) => (Time(d, 0), None)
      case None => (ZeroTime, Some(ParseFailed))
  }

  /** `CustomTime.MarshalJSON`: the date in M/D/YYYY as a JSON string; it never fails. */
  function MarshalTime(t: Time): (b: string)
    requires ValidDate(t.date)
    ensures |b| >= 2 && b[0] == '"' && b[|b| - 1] == '"'
  {
    "\"" + FormatMonthDayYear(t.date) + "\""
  }

  /** `CustomTime` embeds the `time.Time` its `UnmarshalJSON` overwrites. */
  class CustomTime {
    var time: Time

    constructor(t: Time)
      ensures time == t
    {
      time := t;
    }

    method UnmarshalJson(b: string) returns (err: Option<DateError>)
      requires |b| > 0 && b != "\""
      modifies this
      ensures (time, err) == UnmarshalTime(old(time), b)
    {
      var s := Unquoted(b);
      var parts := Text.Split(s, '/');
      if |parts| != 3 {
        return Some(InvalidDateFound);
      }
      var parsed := ParseMonthDayYear(s);
      if parsed.Some? {
        time := Time(parsed.value, 0);
        err := None;
      } else {
        time := ZeroTime;
        err := Some(ParseFailed);
      }
    }
  }

  /** Reading back what `MarshalJSON` wrote gives midnight of the same date, for years of four digits. */
  lemma UnmarshalMarshalled(prev: Time, t: Time)
    requires ValidDate(t.date) && 0 <= t.date.year <= 9999
    ensures UnmarshalTime(prev, MarshalTime(t)) == (Time(t.date, 0), None)
  {
    var f := FormatMonthDayYear(t.date);
    var b := MarshalTime(t);
    assert b[1..|b| - 1] == f;
    SplitFormatted(t.date);
    ParseFormatMonthDayYear(t.date);
  }

  /**
   * The piece count test only changes which error is reported: a date that
   * parses has three pieces, so it is accepted.
   */
  lemma ParsedDateAccepted(prev: Time, b: string)
    requires |b| > 0 && b != "\""
    requires ParseMonthDayYear(Unquoted(b)).Some?
    ensures UnmarshalTime(prev, b) == (Time(ParseMonthDayYear(Unquoted(b)).value, 0), None)
  {
    ParsedHasThreeParts(Unquoted(b));
  }

  /** A quote at one end only is kept, so the date does not parse. */
  lemma OneSidedQuoteRefused(prev: Time, b: string)
    requires |b| > 1 && b[0] == '"' && b[|b| - 1] != '"'
    ensures UnmarshalTime(prev, b).1.Some?
  {
    assert Unquoted(b)[0] == '"';
  }

  // ---------------------------------------------------------------
  // The publish flag
  // ---------------------------------------------------------------

  /**
   * `strings.Compare("true", strings.ToLower(s)) == 0`: "true" spelled in
   * any mix of upper and lower case.
   */
  function PublishFlag(s: string): (b: bool)
    ensures b <==> |s| == 4 && Text.Lower(s) == "true"
    ensures b <==> |s| == 4 && forall i :: 0 <= i < 4 ==> s[i] == "true"[i] || s[i] == "TRUE"[i]
  {
    Text.Lower(s) == "true"
  }

  /** `strconv.FormatBool`. */
  function FormatBool(b: bool): string {
    if b then "true" else "false"
  }

  /** Examples of `PublishFlag`: the archive file's "True" is read as true; "yes" is not. */
  lemma PublishFlagExamples()
    ensures PublishFlag("True") && PublishFlag("TRUE") && !PublishFlag("yes") && !PublishFlag("")
  {
    assert Text.Lower("True") == "true";
    assert Text.Lower("TRUE") == "true";
    assert Text.Lower("yes") != "true";
  }

  /** Reading the flag back as the loader does recovers what `FormatBool` printed. */
  lemma PublishFlagOfFormatBool(b: bool)
    ensures PublishFlag(FormatBool(b)) == b
  {
    if b {
      assert Text.Lower("true") == "true";
    } else {
      assert |Text.Lower("false")| == 5;
    }
  }

  // ---------------------------------------------------------------
  // The records a seed run writes
  // ---------------------------------------------------------------

  /** One line of the archive file (`utterancestype`) once its date has been read. */
  datatype SeedLine = SeedLine(name: string, quote: string, date: Time, publish: string, annotation: string)

  /** The store holds an author row with this name and key. */
  predicate HasAuthor(rows: seq<Author>, name: string, id: Uuid) {
    exists k :: 0 <= k < |rows| && rows[k].name == name && rows[k].id == id
  }

  /** The store holds an annotation row with this note and key. */
  predicate HasAnnotation(rows: seq<Annotation>, note: string, id: Uuid) {
    exists k :: 0 <= k < |rows| && rows[k].note == note && rows[k].id == id
  }

  /** Every name the cache holds maps to the key of an author row with that name. */
  predicate CacheSound(cache: map<string, Uuid>, rows: seq<Author>) {
    forall n :: n in cache ==> cache[n] != Nil && HasAuthor(rows, n, cache[n])
  }

  lemma CacheSoundGrows(cache: map<string, Uuid>, rows: seq<Author>, more: seq<Author>)
    requires CacheSound(cache, rows)
    ensures CacheSound(cache, rows + more)
  {
    forall n | n in cache
      ensures HasAuthor(rows + more, n, cache[n])
    {
      var k :| 0 <= k < |rows| && rows[k].name == n && rows[k].id == cache[n];
      assert (rows + more)[k] == rows[k];
    }
  }

  lemma AuthorRowFound(rows: seq<Author>, a: Author)
    requires KeysOk(rows, AuthorId) && a in rows
    ensures a.id != Nil && HasAuthor(rows, a.name, a.id)
  {
    var k :| 0 <= k < |rows| && rows[k] == a;
    assert AuthorId(rows[k]) != Nil;
  }

  lemma CacheSoundAdd(cache: map<string, Uuid>, rows: seq<Author>, name: string, id: Uuid)
    requires CacheSound(cache, rows) && id != Nil && HasAuthor(rows, name, id)
    ensures CacheSound(cache[name := id], rows)
  {
  }

  /** The query `name = '<name>'`. */
  function NamedAs(name: string): Author -> bool {
    (a: Author) => a.name == name
  }

  /** The query `note = '<note>'`. */
  function NoteIs(note: string): Annotation -> bool {
    (a: Annotation) => a.note == note
  }

  /** The quote row `createQuote` writes for line `u` at position `k` of conversation `cid`. */
  predicate SeededQuote(row: Quote, u: SeedLine, k: int, cid: Uuid) {
    row.id != Nil && row.saidOn == u.date && row.sequence == k && row.phrase == u.quote
    && row.publish == PublishFlag(u.publish) && row.conversationId == cid
    && row.author == Author(Nil, "") && row.annotation == None
  }

  /** The quote row points at an author with the line's name, and at an annotation with its note when it has one. */
  predicate Linked(row: Quote, u: SeedLine, t: Tables) {
    HasAuthor(t.authors, u.name, row.authorId)
    && (row.annotationId.Some? <==> |u.annotation| > 0)
    && (row.annotationId.Some? ==> HasAnnotation(t.annotations, u.annotation, row.annotationId.value))
  }

  /** The authors and annotations of `t` are still there in `t'`. */
  predicate Extends(t: Tables, t': Tables) {
    t.authors <= t'.authors && t.annotations <= t'.annotations
  }

  lemma LinkedKept(row: Quote, u: SeedLine, t: Tables, t': Tables)
    requires Linked(row, u, t) && Extends(t, t')
    ensures Linked(row, u, t')
  {
    var k :| 0 <= k < |t.authors| && t.authors[k].name == u.name && t.authors[k].id == row.authorId;
    assert t'.authors[k] == t.authors[k];
    if row.annotationId.Some? {
      var j :| 0 <= j < |t.annotations| && t.annotations[j].note == u.annotation && t.annotations[j].id == row.annotationId.value;
      assert t'.annotations[j] == t.annotations[j];
    }
  }

  /** The rows written for the first `n` lines of a conversation keyed `cid`, after the rows `base`. */
  predicate SeededUpTo(rows: seq<Quote>, base: seq<Quote>, lines: seq<SeedLine>, n: nat, cid: Uuid, t: Tables)
    requires n <= |lines|
  {
    |rows| == |base| + n && rows[..|base|] == base
    && forall k :: 0 <= k < n ==> SeededQuote(rows[|base| + k], lines[k], k, cid) && Linked(rows[|base| + k], lines[k], t)
  }

  lemma SeededKept(rows: seq<Quote>, base: seq<Quote>, lines: seq<SeedLine>, n: nat, cid: Uuid, t: Tables, t': Tables)
    requires n <= |lines| && SeededUpTo(rows, base, lines, n, cid, t) && Extends(t, t')
    ensures SeededUpTo(rows, base, lines, n, cid, t')
  {
    forall k | 0 <= k < n
      ensures Linked(rows[|base| + k], lines[k], t')
    {
      LinkedKept(rows[|base| + k], lines[k], t, t');
    }
  }

  lemma SeededOneMore(rows: seq<Quote>, base: seq<Quote>, lines: seq<SeedLine>, n: nat, cid: Uuid, t: Tables, row: Quote)
    requires n < |lines| && SeededUpTo(rows, base, lines, n, cid, t)
    requires SeededQuote(row, lines[n], n, cid) && Linked(row, lines[n], t)
    ensures SeededUpTo(rows + [row], base, lines, n + 1, cid, t)
  {
    assert (rows + [row])[..|base|] == rows[..|base|];
  }

  /** The text `seedQuoteDB` reports for an archive without conversations. */
  const NoQuotesFound: string := "no quotes found in seed file"

  /** The `Where(...).All(...)` query on authors by exact name: one statement. */
  method SelectAuthorsNamed(db: Db, name: string) returns (recs: seq<Author>, err: Option<string>)
    modifies db
    ensures err == db.faults(old(db.calls)) && db.calls == old(db.calls) + 1
    ensures db.tables == old(db.tables) && db.minted == old(db.minted)
    ensures recs == if err.None? then Filter(db.tables.authors, NamedAs(name)) else []
  {
    err := db.Exec();
    recs := if err.None? then Filter(db.tables.authors, NamedAs(name)) else [];
  }

  /** The same query on annotations by exact note. */
  method SelectAnnotationsNoted(db: Db, note: string) returns (recs: seq<Annotation>, err: Option<string>)
    modifies db
    ensures err == db.faults(old(db.calls)) && db.calls == old(db.calls) + 1
    ensures db.tables == old(db.tables) && db.minted == old(db.minted)
    ensures recs == if err.None? then Filter(db.tables.annotations, NoteIs(note)) else []
  {
    err := db.Exec();
    recs := if err.None? then Filter(db.tables.annotations, NoteIs(note)) else [];
  }

  /**
   * `findOrCreateAnnotation`: the key of the first annotation with that
   * note, or of a new one.
   */
  method FindOrCreateAnnotation(db: Db, note: string) returns (id: Option<Uuid>, err: Option<string>)
    requires db.Valid()
    modifies db
    ensures db.Valid() && db.calls >= old(db.calls)
    ensures err.Some? <==> id.None?
    ensures err.None? ==> id.value != Nil && HasAnnotation(db.tables.annotations, note, id.value)
    ensures db.tables == old(db.tables)
      || (err.None? && Filter(old(db.tables.annotations), NoteIs(note)) == []
          && db.tables == old(db.tables).(annotations := old(db.tables.annotations) + [Annotation(id.value, note)]))
    ensures err.None? && Filter(old(db.tables.annotations), NoteIs(note)) != [] ==>
      id == Some(Filter(old(db.tables.annotations), NoteIs(note))[0].id) && db.tables == old(db.tables)
    ensures err == if db.faults(old(db.calls)).Some? then db.faults(old(db.calls))
      else if Filter(old(db.tables.annotations), NoteIs(note)) != [] then None
      else InsertError(old(db.tables.annotations), AnnotationId, db.ids(old(db.minted)), db.faults(old(db.calls) + 1))
    ensures Grows(db.ids, old(SnapOf(db)), SnapOf(db)) && (Clean(db.ids, db.faults, old(SnapOf(db)), SnapOf(db)) ==> err.None?)
  {
    ghost var s0 := SnapOf(db);
    var recs, e := SelectAnnotationsNoted(db, note);
    ghost var s1 := SnapOf(db);
    OneQuery(db.ids, db.faults, s0, s1, e);
    if e.Some? {
      return None, e;
    }
    if |recs| > 0 {
      assert recs[0] in db.tables.annotations && recs[0].note == note;
      return Some(recs[0].id), None;
    }
    var r, e2 := db.CreateAnnotation(Annotation(Nil, note));
    AnnotationInsert(db.ids, db.faults, s1, SnapOf(db), r, e2);
    FailsLater(db.ids, db.faults, s0, s1, SnapOf(db), e2);
    if e2.Some? {
      return None, e2;
    }
    assert db.tables.annotations[|db.tables.annotations| - 1] == r;
    return Some(r.id), None;
  }

  /** The loader's state: the author cache and the trace level. */
  class Seeder {
    /** `authorCache`: author name to the key of its row. */
    var authorCache: map<string, Uuid>
    /** `verbosity`: trace messages up to this level are printed. */
    var verbosity: int

    /** The package's `init`: verbosity 0 and no cache yet. */
    constructor()
      ensures authorCache == map[] && verbosity == 0
    {
      authorCache := map[];
      verbosity := 0;
    }

    /** `setVerbosity`. */
    method SetVerbosity(v: int)
      modifies this
      ensures verbosity == v && authorCache == old(authorCache)
    {
      verbosity := v;
    }

    /** `tracemsg`: whether the message is printed (the printing itself is output). */
    method Trace(msg: string, lvl: int) returns (shown: bool)
      ensures shown <==> lvl <= verbosity
    {
      shown := lvl <= verbosity;
    }

    /**
     * `findOrCreateAuthor`: the cache first, then the exact-name query,
     * then a raw `Create` of a new author; a found or created key is
     * cached under the name.
     */
    method FindOrCreateAuthor(db: Db, name: string) returns (id: Uuid, err: Option<string>)
      requires db.Valid() && CacheSound(authorCache, db.tables.authors)
      modifies this, db
      ensures db.Valid() && CacheSound(authorCache, db.tables.authors) && verbosity == old(verbosity)
      ensures db.calls >= old(db.calls)
      ensures name in old(authorCache) ==>
        id == old(authorCache)[name] && err.None? && authorCache == old(authorCache)
        && db.tables == old(db.tables) && db.calls == old(db.calls) && db.minted == old(db.minted)
      ensures err.None? ==> id != Nil && HasAuthor(db.tables.authors, name, id) && authorCache == old(authorCache)[name := id]
      ensures err.Some? ==> id == Nil && authorCache == old(authorCache)
      ensures db.tables == old(db.tables)
        || (err.None? && Filter(old(db.tables.authors), NamedAs(name)) == []
            && db.tables == old(db.tables).(authors := old(db.tables.authors) + [Author(id, name)]))
      ensures name !in old(authorCache) && err.None? && Filter(old(db.tables.authors), NamedAs(name)) != [] ==>
        id == Filter(old(db.tables.authors), NamedAs(name))[0].id && db.tables == old(db.tables)
      ensures name !in old(authorCache) ==>
        err == if db.faults(old(db.calls)).Some? then db.faults(old(db.calls))
          else if Filter(old(db.tables.authors), NamedAs(name)) != [] then None
          else InsertError(old(db.tables.authors), AuthorId, db.ids(old(db.minted)), db.faults(old(db.calls) + 1))
      ensures Grows(db.ids, old(SnapOf(db)), SnapOf(db)) && (Clean(db.ids, db.faults, old(SnapOf(db)), SnapOf(db)) ==> err.None?)
    {
      id := if name in authorCache then authorCache[name] else Nil;
      if id != Nil {
        return id, None;
      }
      ghost var s0 := SnapOf(db);
      var recs, e := SelectAuthorsNamed(db, name);
      ghost var s1 := SnapOf(db);
      OneQuery(db.ids, db.faults, s0, s1, e);
      if e.Some? {
        return id, e;
      }
      if |recs| > 0 {
        var found := recs[0];
        assert found in db.tables.authors && found.name == name;
        AuthorRowFound(db.tables.authors, found);
        CacheSoundAdd(authorCache, db.tables.authors, found.name, found.id);
        authorCache := authorCache[found.name := found.id];
        return found.id, None;
      }
      ghost var rows := db.tables.authors;
      var r, e2 := db.CreateAuthor(Author(Nil, name));
      AuthorInsert(db.ids, db.faults, s1, SnapOf(db), r, e2);
      FailsLater(db.ids, db.faults, s0, s1, SnapOf(db), e2);
      if e2.Some? {
        return Nil, e2;
      }
      assert db.tables.authors == rows + [r];
      CacheSoundGrows(authorCache, rows, [r]);
      AuthorRowFound(db.tables.authors, r);
      CacheSoundAdd(authorCache, db.tables.authors, name, r.id);
      authorCache := authorCache[name := r.id];
      return r.id, None;
    }

    /** The keys `createQuote` looks up first: the author's, then the annotation's when the line has a note. */
    method LineKeys(db: Db, u: SeedLine) returns (authId: Uuid, aid: Option<Uuid>, err: Option<string>)
      requires db.Valid() && CacheSound(authorCache, db.tables.authors)
      modifies this, db
      ensures db.Valid() && CacheSound(authorCache, db.tables.authors) && verbosity == old(verbosity)
      ensures Extends(old(db.tables), db.tables)
      ensures db.tables.conversations == old(db.tables.conversations) && db.tables.quotes == old(db.tables.quotes)
      ensures err.None? ==>
        HasAuthor(db.tables.authors, u.name, authId) && (aid.Some? <==> |u.annotation| > 0)
        && (aid.Some? ==> HasAnnotation(db.tables.annotations, u.annotation, aid.value))
      ensures Grows(db.ids, old(SnapOf(db)), SnapOf(db)) && (Clean(db.ids, db.faults, old(SnapOf(db)), SnapOf(db)) ==> err.None?)
    {
      ghost var s0 := SnapOf(db);
      aid := None;
      authId, err := FindOrCreateAuthor(db, u.name);
      if err.Some? || |u.annotation| == 0 {
        return;
      }
      ghost var s1 := SnapOf(db);
      aid, err := FindOrCreateAnnotation(db, u.annotation);
      FailsLater(db.ids, db.faults, s0, s1, SnapOf(db), err);
    }

    /**
     * `createQuote`: the author's key, the annotation's key when the line
     * has a note, then a raw `Create` of the quote row. The first error
     * stops it.
     */
    method CreateQuote(db: Db, cid: Uuid, sequence: int, u: SeedLine) returns (err: Option<string>)
      requires db.Valid() && CacheSound(authorCache, db.tables.authors)
      modifies this, db
      ensures db.Valid() && CacheSound(authorCache, db.tables.authors) && verbosity == old(verbosity)
      ensures Extends(old(db.tables), db.tables) && db.tables.conversations == old(db.tables.conversations)
      ensures db.calls >= old(db.calls)
      ensures err.Some? ==> db.tables.quotes == old(db.tables.quotes)
      ensures err.None? ==>
        |db.tables.quotes| == |old(db.tables.quotes)| + 1 && db.tables.quotes[..|old(db.tables.quotes)|] == old(db.tables.quotes)
        && SeededQuote(db.tables.quotes[|old(db.tables.quotes)|], u, sequence, cid)
        && Linked(db.tables.quotes[|old(db.tables.quotes)|], u, db.tables)
      ensures Grows(db.ids, old(SnapOf(db)), SnapOf(db)) && (Clean(db.ids, db.faults, old(SnapOf(db)), SnapOf(db)) ==> err.None?)
    {
      ghost var s0 := SnapOf(db);
      var authId, aid;
      authId, aid, err := LineKeys(db, u);
      if err.Some? {
        return;
      }
      var q := Quote(Nil, u.date, sequence, u.quote, PublishFlag(u.publish), Author(Nil, ""), None, cid, authId, aid);
      ghost var linked := db.tables;
      ghost var s2 := SnapOf(db);
      assert Linked(q, u, linked);
      var saved;
      saved, err := db.CreateQuote(q);
      QuoteInsert(db.ids, db.faults, s2, SnapOf(db), saved, err);
      FailsLater(db.ids, db.faults, s0, s2, SnapOf(db), err);
      if err.None? {
        assert db.tables.quotes[|old(db.tables.quotes)|] == QuoteRow(saved);
        assert (db.tables.quotes)[..|old(db.tables.quotes)|] == old(db.tables.quotes);
      }
    }

    /**
     * `createConversation`: a raw `Create` of the conversation row, dated by
     * the first line and published by its flag, then `createQuote` for line
     * `i` with sequence `i`, stopping at the first error. A conversation
     * without lines makes the Go code index out of range.
     */
    method CreateConversation(db: Db, lines: seq<SeedLine>) returns (err: Option<string>)
      requires |lines| > 0 && db.Valid() && CacheSound(authorCache, db.tables.authors)
      modifies this, db
      ensures db.Valid() && CacheSound(authorCache, db.tables.authors) && verbosity == old(verbosity)
      ensures Created(db.ids, db.faults, Snap(old(db.tables), old(db.calls), old(db.minted)), Snap(db.tables, db.calls, db.minted), lines, err)
    {
      ghost var s0 := SnapOf(db);
      var conv := Conversation(Nil, lines[0].date, PublishFlag(lines[0].publish), []);
      var created;
      created, err := db.CreateConversation(conv);
      ghost var s1 := SnapOf(db);
      ConversationInsert(db.ids, db.faults, s0, s1, created, err);
      if err.Some? {
        return;
      }
      assert ConversationRow(created) == Conversation(db.ids(old(db.minted)), lines[0].date, PublishFlag(lines[0].publish), []);
      err := CreateQuotes(db, created.id, lines);
      FailsLater(db.ids, db.faults, s0, s1, SnapOf(db), err);
    }

    /** The loop of `createConversation`: line `i` becomes quote `i`, up to the first error. */
    method CreateQuotes(db: Db, cid: Uuid, lines: seq<SeedLine>) returns (err: Option<string>)
      requires db.Valid() && CacheSound(authorCache, db.tables.authors)
      modifies this, db
      ensures db.Valid() && CacheSound(authorCache, db.tables.authors) && verbosity == old(verbosity)
      ensures Extends(old(db.tables), db.tables) && db.calls >= old(db.calls)
      ensures db.tables.conversations == old(db.tables.conversations)
      ensures err.None? ==> SeededUpTo(db.tables.quotes, old(db.tables.quotes), lines, |lines|, cid, db.tables)
      ensures err.Some? ==> exists n :: 0 <= n < |lines| && SeededUpTo(db.tables.quotes, old(db.tables.quotes), lines, n, cid, db.tables)
      ensures Grows(db.ids, old(SnapOf(db)), SnapOf(db)) && (Clean(db.ids, db.faults, old(SnapOf(db)), SnapOf(db)) ==> err.None?)
    {
      err := None;
      ghost var s0 := SnapOf(db);
      ghost var base := db.tables.quotes;
      var i := 0;
      while i < |lines|
        invariant 0 <= i <= |lines|
        invariant db.Valid() && CacheSound(authorCache, db.tables.authors) && verbosity == old(verbosity)
        invariant Extends(old(db.tables), db.tables) && db.calls >= old(db.calls)
        invariant db.tables.conversations == old(db.tables.conversations) && base == old(db.tables.quotes)
        invariant SeededUpTo(db.tables.quotes, base, lines, i, cid, db.tables)
        invariant err.None? && Grows(db.ids, s0, SnapOf(db))
      {
        ghost var before := db.tables;
        ghost var sb := SnapOf(db);
        err := CreateQuote(db, cid, i, lines[i]);
        FailsLater(db.ids, db.faults, s0, sb, SnapOf(db), err);
        if err.Some? {
          SeededKept(db.tables.quotes, base, lines, i, cid, before, db.tables);
          assert SeededUpTo(db.tables.quotes, base, lines, i, cid, db.tables);
          return;
        }
        ghost var row := db.tables.quotes[|before.quotes|];
        SeededKept(before.quotes, base, lines, i, cid, before, db.tables);
        SeededOneMore(before.quotes, base, lines, i, cid, db.tables, row);
        assert db.tables.quotes == before.quotes + [row];
        i := i + 1;
      }
    }

    /**
     * `seedQuoteDB` once the archive file has been read: `loadErr` is the
     * read's error and `archive` what it decoded. The cache is made anew
     * and every conversation is created in turn; an error does not stop
     * the loop, and the result is the last conversation's.
     */
    method Seed(db: Db, loadErr: Option<string>, archive: seq<seq<SeedLine>>)
      returns (err: Option<string>, ghost snaps: seq<Snap>, ghost outcomes: seq<Option<string>>)
      requires db.Valid()
      requires forall c :: 0 <= c < |archive| ==> |archive[c]| > 0
      modifies this, db
      ensures db.Valid() && verbosity == old(verbosity)
      ensures loadErr.Some? || |archive| == 0 ==>
        err == (if loadErr.Some? then loadErr else Some(NoQuotesFound))
        && authorCache == old(authorCache) && db.tables == old(db.tables) && db.calls == old(db.calls) && db.minted == old(db.minted)
      ensures loadErr.None? && |archive| > 0 ==>
        CacheSound(authorCache, db.tables.authors) && Extends(old(db.tables), db.tables)
        && db.calls >= old(db.calls) + |archive|
      ensures loadErr.None? && |archive| > 0 ==>
        |snaps| == |archive| + 1 && |outcomes| == |archive|
        && snaps[0] == Snap(old(db.tables), old(db.calls), old(db.minted))
        && snaps[|archive|] == Snap(db.tables, db.calls, db.minted)
        && Chained(db.ids, db.faults, snaps, outcomes, archive)
        && err == outcomes[|archive| - 1]
      ensures loadErr.None? && |archive| > 0 && err.None? ==> EndsWithConversationOf(db.tables.conversations, Last(archive))
    {
      snaps, outcomes := [], [];
      if loadErr.Some? {
        return loadErr, snaps, outcomes;
      }
      if |archive| == 0 {
        return Some(NoQuotesFound), snaps, outcomes;
      }
      authorCache := map[];
      err := None;
      snaps := [Snap(db.tables, db.calls, db.minted)];
      var i := 0;
      while i < |archive|
        invariant 0 <= i <= |archive|
        invariant db.Valid() && CacheSound(authorCache, db.tables.authors) && verbosity == old(verbosity)
        invariant Extends(old(db.tables), db.tables) && db.calls >= old(db.calls) + i
        invariant |outcomes| == i && Chained(db.ids, db.faults, snaps, outcomes, archive)
        invariant snaps[0] == Snap(old(db.tables), old(db.calls), old(db.minted))
        invariant snaps[i] == Snap(db.tables, db.calls, db.minted)
        invariant i > 0 ==> err == outcomes[i - 1]
        invariant i > 0 && err.None? ==> EndsWithConversationOf(db.tables.conversations, archive[i - 1])
      {
        ghost var before := db.tables;
        err := CreateConversation(db, archive[i]);
        if err.None? {
          assert Last(db.tables.conversations) == Conversation(db.ids(snaps[i].minted), archive[i][0].date, PublishFlag(archive[i][0].publish), []);
        }
        ExtendsTrans(old(db.tables), before, db.tables);
        ChainOneMore(db.ids, db.faults, snaps, outcomes, archive, Snap(db.tables, db.calls, db.minted), err);
        snaps, outcomes := snaps + [Snap(db.tables, db.calls, db.minted)], outcomes + [err];
        i := i + 1;
      }
    }
  }

  lemma ExtendsTrans(t: Tables, t': Tables, t'': Tables)
    requires Extends(t, t') && Extends(t', t'')
    ensures Extends(t, t'')
  {
  }

  /** The runs of `createConversation` on the first entries of `archive`, one after another. */
  ghost predicate Chained(ids: nat -> FreshId, faults: nat -> Option<string>, snaps: seq<Snap>, outcomes: seq<Option<string>>, archive: seq<seq<SeedLine>>)
  {
    |snaps| == |outcomes| + 1 && |outcomes| <= |archive|
    && forall c :: 0 <= c < |outcomes| ==> |archive[c]| > 0 && Created(ids, faults, snaps[c], snaps[c + 1], archive[c], outcomes[c])
  }

  lemma ChainOneMore(ids: nat -> FreshId, faults: nat -> Option<string>, snaps: seq<Snap>, outcomes: seq<Option<string>>,
                     archive: seq<seq<SeedLine>>, s: Snap, e: Option<string>)
    requires Chained(ids, faults, snaps, outcomes, archive) && |outcomes| < |archive| && |archive[|outcomes|]| > 0
    requires Created(ids, faults, Last(snaps), s, archive[|outcomes|], e)
    ensures Chained(ids, faults, snaps + [s], outcomes + [e], archive)
  {
    var n := |outcomes|;
    forall c | 0 <= c < n + 1
      ensures |archive[c]| > 0 && Created(ids, faults, (snaps + [s])[c], (snaps + [s])[c + 1], archive[c], (outcomes + [e])[c])
    {
      if c < n {
        assert (snaps + [s])[c] == snaps[c] && (snaps + [s])[c + 1] == snaps[c + 1];
      }
    }
  }

  /** The store's tables and counters at one point of a run. */
  datatype Snap = Snap(tables: Tables, calls: nat, minted: nat)

  ghost function SnapOf(db: Db): Snap
    reads db
  {
    Snap(db.tables, db.calls, db.minted)
  }

  /** Some row of some table of `t` is keyed `u`. */
  ghost predicate KeyTaken(t: Tables, u: Uuid) {
    HasId(t.authors, AuthorId, u) || HasId(t.annotations, AnnotationId, u)
    || HasId(t.quotes, QuoteId, u) || HasId(t.conversations, ConversationId, u)
  }

  /** From `s` to `s'` the store only moved on, and every new key is one it minted on the way. */
  ghost predicate Grows(ids: nat -> FreshId, s: Snap, s': Snap) {
    s.calls <= s'.calls && s.minted <= s'.minted
    && forall u :: KeyTaken(s'.tables, u) ==> KeyTaken(s.tables, u) || exists m :: s.minted <= m < s'.minted && ids(m) == u
  }

  /**
   * The run from `s` to `s'` met nothing that makes a statement fail: the
   * database answered every statement it sent without a fault, and every
   * key it minted was new to the tables of `s` and to the other keys it
   * minted.
   */
  ghost predicate Clean(ids: nat -> FreshId, faults: nat -> Option<string>, s: Snap, s': Snap) {
    (forall k :: s.calls <= k < s'.calls ==> faults(k).None?)
    && (forall m :: s.minted <= m < s'.minted ==> !KeyTaken(s.tables, ids(m)))
    && (forall m, m' :: s.minted <= m < m' < s'.minted ==> ids(m) != ids(m'))
  }

  lemma GrowsTrans(ids: nat -> FreshId, s: Snap, s': Snap, s'': Snap)
    requires Grows(ids, s, s') && Grows(ids, s', s'')
    ensures Grows(ids, s, s'')
  {
    forall u | KeyTaken(s''.tables, u)
      ensures KeyTaken(s.tables, u) || exists m :: s.minted <= m < s''.minted && ids(m) == u
    {
      if !KeyTaken(s'.tables, u) {
        var m :| s'.minted <= m < s''.minted && ids(m) == u;
      } else if !KeyTaken(s.tables, u) {
        var m :| s.minted <= m < s'.minted && ids(m) == u;
      }
    }
  }

  /** Both parts of a clean run are clean, each from where it starts. */
  lemma CleanParts(ids: nat -> FreshId, faults: nat -> Option<string>, s: Snap, s': Snap, s'': Snap)
    requires Grows(ids, s, s') && Grows(ids, s', s'') && Clean(ids, faults, s, s'')
    ensures Clean(ids, faults, s, s') && Clean(ids, faults, s', s'')
  {
    forall m | s'.minted <= m < s''.minted
      ensures !KeyTaken(s'.tables, ids(m))
    {
      assert !KeyTaken(s.tables, ids(m));
      assert forall m0 :: s.minted <= m0 < s'.minted ==> ids(m0) != ids(m);
    }
  }

  /** A run that fails in its second part, when that part could not fail cleanly, was not clean. */
  lemma FailsLater(ids: nat -> FreshId, faults: nat -> Option<string>, s: Snap, s': Snap, s'': Snap, err: Option<string>)
    requires Grows(ids, s, s') && Grows(ids, s', s'')
    requires Clean(ids, faults, s', s'') ==> err.None?
    ensures Grows(ids, s, s'') && (Clean(ids, faults, s, s'') ==> err.None?)
  {
    GrowsTrans(ids, s, s', s'');
    if Clean(ids, faults, s, s'') {
      CleanParts(ids, faults, s, s', s'');
    }
  }

  lemma HasIdSnoc<T>(rows: seq<T>, id: T -> Uuid, row: T, u: Uuid)
    ensures HasId(rows + [row], id, u) <==> HasId(rows, id, u) || id(row) == u
  {
    if HasId(rows, id, u) {
      var i :| 0 <= i < |rows| && id(rows[i]) == u;
      assert (rows + [row])[i] == rows[i];
    }
    if id(row) == u {
      assert (rows + [row])[|rows|] == row;
    }
    if HasId(rows + [row], id, u) {
      var i :| 0 <= i < |rows| + 1 && id((rows + [row])[i]) == u;
      if i < |rows| {
        assert (rows + [row])[i] == rows[i];
      }
    }
  }

  /** One query: a statement sent, nothing written, and its fault is the answer. */
  lemma OneQuery(ids: nat -> FreshId, faults: nat -> Option<string>, s: Snap, s': Snap, err: Option<string>)
    requires s' == s.(calls := s.calls + 1) && err == faults(s.calls)
    ensures Grows(ids, s, s') && (Clean(ids, faults, s, s') ==> err.None?)
  {
  }

  /**
   * One `INSERT` of a row keyed by the next fresh key: the only new key is
   * that one, and it fails only on the statement's fault or a clash of
   * that key.
   */
  lemma OneInsert(ids: nat -> FreshId, faults: nat -> Option<string>, s: Snap, s': Snap, err: Option<string>)
    requires s'.calls == s.calls + 1 && s'.minted == s.minted + 1
    requires forall u :: KeyTaken(s'.tables, u) ==> KeyTaken(s.tables, u) || u == ids(s.minted)
    requires err.Some? ==> faults(s.calls).Some? || KeyTaken(s.tables, ids(s.minted))
    ensures Grows(ids, s, s') && (Clean(ids, faults, s, s') ==> err.None?)
  {
    forall u | KeyTaken(s'.tables, u)
      ensures KeyTaken(s.tables, u) || exists m :: s.minted <= m < s'.minted && ids(m) == u
    {
      if !KeyTaken(s.tables, u) {
        assert ids(s.minted) == u;
      }
    }
  }

  lemma AuthorInsert(ids: nat -> FreshId, faults: nat -> Option<string>, s: Snap, s': Snap, r: Author, err: Option<string>)
    requires r.id == ids(s.minted) && s'.calls == s.calls + 1 && s'.minted == s.minted + 1
    requires err == InsertError(s.tables.authors, AuthorId, r.id, faults(s.calls))
    requires s'.tables == if err.None? then s.tables.(authors := s.tables.authors + [r]) else s.tables
    ensures Grows(ids, s, s') && (Clean(ids, faults, s, s') ==> err.None?)
  {
    forall u | KeyTaken(s'.tables, u)
      ensures KeyTaken(s.tables, u) || u == ids(s.minted)
    {
      HasIdSnoc(s.tables.authors, AuthorId, r, u);
    }
    OneInsert(ids, faults, s, s', err);
  }

  lemma AnnotationInsert(ids: nat -> FreshId, faults: nat -> Option<string>, s: Snap, s': Snap, r: Annotation, err: Option<string>)
    requires r.id == ids(s.minted) && s'.calls == s.calls + 1 && s'.minted == s.minted + 1
    requires err == InsertError(s.tables.annotations, AnnotationId, r.id, faults(s.calls))
    requires s'.tables == if err.None? then s.tables.(annotations := s.tables.annotations + [r]) else s.tables
    ensures Grows(ids, s, s') && (Clean(ids, faults, s, s') ==> err.None?)
  {
    forall u | KeyTaken(s'.tables, u)
      ensures KeyTaken(s.tables, u) || u == ids(s.minted)
    {
      HasIdSnoc(s.tables.annotations, AnnotationId, r, u);
    }
    OneInsert(ids, faults, s, s', err);
  }

  lemma QuoteInsert(ids: nat -> FreshId, faults: nat -> Option<string>, s: Snap, s': Snap, r: Quote, err: Option<string>)
    requires r.id == ids(s.minted) && s'.calls == s.calls + 1 && s'.minted == s.minted + 1
    requires err == InsertError(s.tables.quotes, QuoteId, r.id, faults(s.calls))
    requires s'.tables == if err.None? then s.tables.(quotes := s.tables.quotes + [QuoteRow(r)]) else s.tables
    ensures Grows(ids, s, s') && (Clean(ids, faults, s, s') ==> err.None?)
  {
    forall u | KeyTaken(s'.tables, u)
      ensures KeyTaken(s.tables, u) || u == ids(s.minted)
    {
      HasIdSnoc(s.tables.quotes, QuoteId, QuoteRow(r), u);
    }
    OneInsert(ids, faults, s, s', err);
  }

  lemma ConversationInsert(ids: nat -> FreshId, faults: nat -> Option<string>, s: Snap, s': Snap, r: Conversation, err: Option<string>)
    requires r.id == ids(s.minted) && s'.calls == s.calls + 1 && s'.minted == s.minted + 1
    requires err == InsertError(s.tables.conversations, ConversationId, r.id, faults(s.calls))
    requires s'.tables == if err.None? then s.tables.(conversations := s.tables.conversations + [ConversationRow(r)]) else s.tables
    ensures Grows(ids, s, s') && (Clean(ids, faults, s, s') ==> err.None?)
  {
    forall u | KeyTaken(s'.tables, u)
      ensures KeyTaken(s.tables, u) || u == ids(s.minted)
    {
      HasIdSnoc(s.tables.conversations, ConversationId, ConversationRow(r), u);
    }
    OneInsert(ids, faults, s, s', err);
  }

  /**
   * What `createConversation` does to the store between `s` and `s'` and
   * what it returns: when the conversation's `INSERT` fails, that error and
   * nothing written; otherwise the row, dated and flagged by the first
   * line, then the quote rows of every line on success, or of the lines
   * before the one that failed.
   */
  ghost predicate Created(ids: nat -> FreshId, faults: nat -> Option<string>, s: Snap, s': Snap, lines: seq<SeedLine>, err: Option<string>)
    requires |lines| > 0
  {
    var row := Conversation(ids(s.minted), lines[0].date, PublishFlag(lines[0].publish), []);
    var e := InsertError(s.tables.conversations, ConversationId, ids(s.minted), faults(s.calls));
    Extends(s.tables, s'.tables) && s'.calls > s.calls
    && Grows(ids, s, s') && (Clean(ids, faults, s, s') ==> err.None?)
    && if e.Some? then
      err == e && s'.tables == s.tables
    else
      s'.tables.conversations == s.tables.conversations + [row]
      && (err.None? ==> SeededUpTo(s'.tables.quotes, s.tables.quotes, lines, |lines|, row.id, s'.tables))
      && (err.Some? ==> exists n :: 0 <= n < |lines| && SeededUpTo(s'.tables.quotes, s.tables.quotes, lines, n, row.id, s'.tables))
  }

  /** The last conversation row is dated and flagged by the first line of `lines`. */
  predicate EndsWithConversationOf(convs: seq<Conversation>, lines: seq<SeedLine>) {
    |convs| > 0 && |lines| > 0
    && Last(convs).occurredOn == lines[0].date && Last(convs).publish == PublishFlag(lines[0].publish)
  }

  function Last<T>(s: seq<T>): T
    requires |s| > 0
  {
    s[|s| - 1]
  }
}
