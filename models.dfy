/**
 * The create, update and lookup rules of the models package, over the
 * store (`Store.Db`). A Go method that overwrites its receiver returns the
 * receiver's new value here. `ValidateAndCreate` and `ValidateAndUpdate`
 * run the record's `Validate` first and send nothing to the database when it
 * reports errors. `now` is the clock the validators read.
 */
module Models {
  import opened Common
  import opened Calendar
  import opened Records
  import opened Store
  import Text

  const BlankName: string := "author name can't be blank"
  const NameNotFound: string := "author name not found in db"
  const IdNotFound: string := "author ID not found in db"

  /** The message `Conversation.Create` and `Update` use to force a rollback on validation errors. */
  const TempError: string := "NoErr"

  /** No statement fails with a message equal to the rollback sentinel. */
  ghost predicate NoSentinelFaults(db: Db)
    reads db
  {
    forall k :: db.faults(k) != Some(TempError)
  }

  // ---------------------------------------------------------------
  // Annotations
  // ---------------------------------------------------------------

  /**
   * `Annotation.FindByNote` given the rows `note = '<note>'` consults and the
   * query's fault: the receiver takes the ID of the first stored annotation
   * with the same note, or the nil UUID when there is none. Only a failing
   * query is an error, and it leaves the receiver as it was.
   */
  function FindByNote(rows: seq<Annotation>, a: Annotation, fault: Option<string>): (r: (Annotation, Option<string>))
    ensures r.1 == fault && r.0.note == a.note
    ensures fault.Some? ==> r.0 == a
    ensures fault.None? && (exists i :: 0 <= i < |rows| && rows[i].note == a.note) ==>
      exists i :: (0 <= i < |rows| && rows[i].note == a.note && r.0.id == rows[i].id
        && forall j :: 0 <= j < i ==> rows[j].note != a.note)
    ensures fault.None? && (forall i :: 0 <= i < |rows| ==> rows[i].note != a.note) ==> r.0.id == Nil
  {
    if fault.Some? then (a, fault)
    else
      var sameNote := (x: Annotation) => x.note == a.note;
      var found := Filter(rows, sameNote);
      if |found| > 0 then
        FilterFirst(rows, sameNote);
        (a.(id := found[0].id), None)
      else (a.(id := Nil), None)
  }

  /** `ValidateAndCreate` of an annotation. */
  method ValidateAndCreateAnnotation(db: Db, a: Annotation) returns (r: Annotation, verrs: Errors, err: Option<string>)
    requires db.Valid()
    modifies db
    ensures db.Valid()
    ensures verrs == AnnotationValidate(a) && (err.Some? ==> verrs == {})
    ensures verrs != {} ==> r == a && err.None? && unchanged(db)
    ensures verrs == {} ==> (r == a.(id := KeyFor(a.id, db.ids(old(db.minted))))
      && db.minted == old(db.minted) + (if a.id == Nil then 1 else 0) && db.calls == old(db.calls) + 1
      && err == InsertError(old(db.tables.annotations), AnnotationId, r.id, db.faults(old(db.calls)))
      && db.tables == (if err.None? then old(db.tables).(annotations := old(db.tables.annotations) + [r]) else old(db.tables)))
  {
    verrs := AnnotationValidate(a);
    if verrs != {} {
      return a, verrs, None;
    }
    r, err := db.CreateAnnotation(a);
  }

  /** `CheckID` creates the annotation: one without an ID that passes validation. */
  predicate NewAnnotation(a: Option<Annotation>) {
    a.Some? && a.value.id == Nil && AnnotationValidate(a.value) == {}
  }

  /** `CheckID` lets the quote through: nothing to create, or the annotation's insert (keyed `key`, answered `fault`) succeeded. */
  predicate AnnotationAccepted(a: Option<Annotation>, rows: seq<Annotation>, key: FreshId, fault: Option<string>) {
    a.None? || a.value.id != Nil
    || (AnnotationValidate(a.value) == {} && InsertError(rows, AnnotationId, key, fault).None?)
  }

  /** The annotation pointer after `CheckID`: a created annotation carries its new key. */
  function Checked(a: Option<Annotation>, key: FreshId): Option<Annotation> {
    if NewAnnotation(a) then Some(a.value.(id := key)) else a
  }

  /** The statements `CheckID` sends before the quote's own. */
  function CheckStatements(a: Option<Annotation>): nat {
    if NewAnnotation(a) then 1 else 0
  }

  /**
   * `Annotation.CheckID` on a quote's annotation pointer (`None` for nil):
   * nothing happens for a missing annotation or one that already has an ID;
   * otherwise the annotation is validated and created, and the failure, if
   * any, is returned. The result is the pointee afterwards (pop writes the
   * new ID into it).
   */
  method CheckID(db: Db, a: Option<Annotation>) returns (r: Option<Annotation>, verrs: Errors, err: Option<string>)
    requires db.Valid()
    modifies db
    ensures db.Valid()
    ensures err.Some? ==> verrs == {}
    ensures NoSentinelFaults(db) ==> err != Some(TempError)
    ensures a.None? || a.value.id != Nil ==> r == a && verrs == {} && err.None? && unchanged(db)
    ensures a.Some? && a.value.id == Nil ==> verrs == AnnotationValidate(a.value)
    ensures a.Some? && a.value.id == Nil && verrs != {} ==> r == a && err.None? && unchanged(db)
    ensures NewAnnotation(a) ==>
      r == Checked(a, db.ids(old(db.minted)))
      && err == InsertError(old(db.tables.annotations), AnnotationId, db.ids(old(db.minted)), db.faults(old(db.calls)))
      && db.minted == old(db.minted) + 1 && db.calls == old(db.calls) + 1
      && db.tables == (if err.None? then old(db.tables).(annotations := old(db.tables.annotations) + [r.value]) else old(db.tables))
  {
    if a.None? || a.value.id != Nil {
      return a, {}, None;
    }
    var created;
    created, verrs, err := ValidateAndCreateAnnotation(db, a.value);
    r := Some(created);
    if err.Some? || verrs != {} {
      return;
    }
    return r, {}, None;
  }

  // ---------------------------------------------------------------
  // Authors
  // ---------------------------------------------------------------

  /** `Author.SelectValue`: the ID's text form. */
  function SelectValue(a: Author): (v: string)
    ensures |v| == 36
  {
    UuidString(a.id)
  }

  /** `Author.SelectLabel`. */
  function SelectLabel(a: Author): string {
    a.name
  }

  /** A form's select value names the author: distinct IDs give distinct values. */
  lemma SelectValueIdentifies(a: Author, b: Author)
    requires a.id < UuidLimit && b.id < UuidLimit
    ensures SelectValue(a) == SelectValue(b) <==> a.id == b.id
    ensures SelectLabel(a) == a.name
  {
    if SelectValue(a) == SelectValue(b) {
      UuidStringRoundTrip(a.id);
      UuidStringRoundTrip(b.id);
    }
  }

  /**
   * `Author.FindByID` given the author rows and the query's fault: the
   * receiver becomes the first row with its ID; no such row is an error.
   */
  function FindByID(rows: seq<Author>, a: Author, fault: Option<string>): (r: (Author, Option<string>))
    ensures fault.Some? ==> r == (a, fault)
    ensures fault.None? ==> (r.1.None? <==> exists i :: 0 <= i < |rows| && rows[i].id == a.id)
    ensures fault.None? && r.1.Some? ==> r == (a, Some(IdNotFound))
    ensures r.1.None? ==> r.0 in rows && r.0.id == a.id
  {
    if fault.Some? then (a, fault)
    else
      var found := Filter(rows, (x: Author) => x.id == a.id);
      if |found| == 0 then (a, Some(IdNotFound)) else (found[0], None)
  }

  /**
   * The rows `name ILIKE '%<first>%' AND name ILIKE '%<last>%'` selects,
   * where first and last are the first and last space-separated pieces of
   * the name asked for.
   */
  predicate NameMatches(row: Author, name: string) {
    var parts := Text.Split(name, ' ');
    Text.ContainsFold(row.name, parts[0]) && Text.ContainsFold(row.name, parts[|parts| - 1])
  }

  /**
   * `Author.FindByName` given the author rows and the query's fault. An empty
   * name is refused before any query; otherwise the receiver becomes the
   * first matching row, and no match is an error.
   */
  function FindByName(rows: seq<Author>, a: Author, fault: Option<string>): (r: (Author, Option<string>))
    ensures |a.name| == 0 ==> r == (a, Some(BlankName))
    ensures |a.name| > 0 && fault.Some? ==> r == (a, fault)
    ensures r.1.None? <==> |a.name| > 0 && fault.None? && exists i :: 0 <= i < |rows| && NameMatches(rows[i], a.name)
    ensures r.1.Some? ==> r.0 == a
    ensures r.1.None? ==> exists i :: (0 <= i < |rows| && rows[i] == r.0 && NameMatches(rows[i], a.name)
      && forall j :: 0 <= j < i ==> !NameMatches(rows[j], a.name))
  {
    if |a.name| == 0 then (a, Some(BlankName))
    else if fault.Some? then (a, fault)
    else
      var matches := (x: Author) => NameMatches(x, a.name);
      var found := Filter(rows, matches);
      if |found| == 0 then (a, Some(NameNotFound))
      else
        FilterFirst(rows, matches);
        (found[0], None)
  }

  /** `FindByName` against the store: the query is sent only for a non-empty name. */
  method QueryByName(db: Db, a: Author) returns (r: Author, err: Option<string>)
    modifies db
    ensures (r, err) == FindByName(old(db.tables.authors), a, if |a.name| == 0 then None else db.faults(old(db.calls)))
    ensures db.tables == old(db.tables) && db.minted == old(db.minted)
    ensures db.calls == old(db.calls) + (if |a.name| == 0 then 0 else 1)
  {
    var fault: Option<string> := None;
    if |a.name| > 0 {
      fault := db.Exec();
    }
    var found := FindByName(db.tables.authors, a, fault);
    r, err := found.0, found.1;
  }

  /**
   * `Author.Create`: validation errors or an insert error are returned at
   * once; otherwise the receiver is replaced by what `FindByName` finds for
   * its name among the rows, the new one included.
   */
  method AuthorCreate(db: Db, a: Author) returns (r: Author, verrs: Errors, err: Option<string>)
    requires db.Valid()
    modifies db
    ensures db.Valid()
    ensures verrs == AuthorValidate(a)
    ensures verrs != {} ==> r == a && err.None? && unchanged(db)
    ensures verrs == {} ==>
      var created := a.(id := KeyFor(a.id, db.ids(old(db.minted))));
      var e := InsertError(old(db.tables.authors), AuthorId, created.id, db.faults(old(db.calls)));
      (e.Some? ==> r == created && err == e && db.tables == old(db.tables))
      && (e.None? ==> (db.tables == old(db.tables).(authors := old(db.tables.authors) + [created])
        && (r, err) == FindByName(db.tables.authors, created, db.faults(old(db.calls) + 1))))
  {
    verrs := AuthorValidate(a);
    if verrs != {} {
      return a, verrs, None;
    }
    var created, e := db.CreateAuthor(a);
    if e.Some? {
      return created, verrs, e;
    }
    r, err := QueryByName(db, created);
  }

  /** `Author.Update`: the same rule with `ValidateAndUpdate`. */
  method AuthorUpdate(db: Db, a: Author) returns (r: Author, verrs: Errors, err: Option<string>)
    requires db.Valid()
    modifies db
    ensures db.Valid()
    ensures verrs == AuthorValidate(a)
    ensures verrs != {} ==> r == a && err.None? && unchanged(db)
    ensures verrs == {} ==>
      var e := db.faults(old(db.calls));
      (e.Some? ==> r == a && err == e && db.tables == old(db.tables))
      && (e.None? ==> (db.tables == old(db.tables).(authors := Replace(old(db.tables.authors), AuthorId, a))
        && (r, err) == FindByName(db.tables.authors, a, db.faults(old(db.calls) + 1))))
  {
    verrs := AuthorValidate(a);
    if verrs != {} {
      return a, verrs, None;
    }
    var e := db.UpdateAuthor(a);
    if e.Some? {
      return a, verrs, e;
    }
    r, err := QueryByName(db, a);
  }

  // ---------------------------------------------------------------
  // Quotes
  // ---------------------------------------------------------------

  /** `ValidateAndCreate` of a quote. */
  method ValidateAndCreateQuote(db: Db, q: Quote, now: Time) returns (r: Quote, verrs: Errors, err: Option<string>)
    requires db.Valid() && ValidTime(now)
    modifies db
    ensures db.Valid()
    ensures verrs == QuoteValidate(q, now) && (err.Some? ==> verrs == {})
    ensures verrs != {} ==> r == q && err.None? && unchanged(db)
    ensures verrs == {} ==> (r == q.(id := KeyFor(q.id, db.ids(old(db.minted))))
      && err == InsertError(old(db.tables.quotes), QuoteId, r.id, db.faults(old(db.calls)))
      && db.tables == (if err.None? then old(db.tables).(quotes := old(db.tables.quotes) + [QuoteRow(r)]) else old(db.tables)))
  {
    verrs := QuoteValidate(q, now);
    if verrs != {} {
      return q, verrs, None;
    }
    r, err := db.CreateQuote(q);
  }

  /** `ValidateAndUpdate` of a quote. */
  method ValidateAndUpdateQuote(db: Db, q: Quote, now: Time) returns (verrs: Errors, err: Option<string>)
    requires db.Valid() && ValidTime(now)
    modifies db
    ensures db.Valid()
    ensures verrs == QuoteValidate(q, now) && (err.Some? ==> verrs == {})
    ensures verrs != {} ==> err.None? && unchanged(db)
    ensures verrs == {} ==> (err == db.faults(old(db.calls))
      && db.tables == (if err.None? then old(db.tables).(quotes := Replace(old(db.tables.quotes), QuoteId, QuoteRow(q))) else old(db.tables)))
  {
    verrs := QuoteValidate(q, now);
    if verrs != {} {
      return verrs, None;
    }
    err := db.UpdateQuote(q);
  }

  /**
   * `Quote.Create(db, id)`. The annotation is checked first; if that fails
   * its result is returned and no quote is written, with the conversation ID
   * left as it was. Otherwise the quote takes the conversation ID and is
   * validated and created. `CheckID` does not set `AnnotationID`. Pop's
   * `Create` would fill it, and `AuthorID`, from the nested annotation and
   * author before inserting; that association is not modelled, so the row
   * here records the annotation ID the quote already carried.
   */
  method QuoteCreate(db: Db, q: Quote, cid: Uuid, now: Time) returns (r: Quote, verrs: Errors, err: Option<string>)
    requires db.Valid() && ValidTime(now)
    modifies db
    ensures db.Valid()
    ensures err.Some? ==> verrs == {}
    ensures NoSentinelFaults(db) ==> err != Some(TempError)
    ensures r == q.(annotation := r.annotation, conversationId := r.conversationId, id := r.id)
    ensures db.tables.authors == old(db.tables.authors) && db.tables.conversations == old(db.tables.conversations)
    ensures r.conversationId != cid ==> r.conversationId == q.conversationId && db.tables.quotes == old(db.tables.quotes)
    ensures q.annotation.Some? && q.annotation.value.id == Nil && AnnotationValidate(q.annotation.value) != {} ==>
      verrs == AnnotationValidate(q.annotation.value) && err.None? && r == q && unchanged(db)
    ensures verrs == {} && err.None? ==>
      r.conversationId == cid && r.id != Nil && QuoteValidate(r, now) == {}
      && db.tables.quotes == old(db.tables.quotes) + [QuoteRow(r)]
    ensures (NewAnnotation(q.annotation)
      && InsertError(old(db.tables.annotations), AnnotationId, db.ids(old(db.minted)), db.faults(old(db.calls))).Some?) ==>
      err == InsertError(old(db.tables.annotations), AnnotationId, db.ids(old(db.minted)), db.faults(old(db.calls)))
      && r == q.(annotation := Checked(q.annotation, db.ids(old(db.minted)))) && db.tables == old(db.tables)
    ensures AnnotationAccepted(q.annotation, old(db.tables.annotations), db.ids(old(db.minted)), db.faults(old(db.calls))) ==>
      var submitted := q.(annotation := Checked(q.annotation, db.ids(old(db.minted))), conversationId := cid);
      verrs == QuoteValidate(submitted, now) && r == submitted.(id := r.id)
      && db.tables.annotations == old(db.tables.annotations) + (if NewAnnotation(q.annotation) then [submitted.annotation.value] else [])
      && (verrs != {} || err.Some? ==> db.tables.quotes == old(db.tables.quotes))
      && (verrs != {} ==> r == submitted && err.None?)
    ensures err.Some? ==> Reported(db.faults, err.value)
  {
    ghost var t0, m0, c0 := db.tables, db.minted, db.calls;
    var ann, v, e := CheckID(db, q.annotation);
    r := q.(annotation := ann);
    ghost var key, fault := db.ids(m0), db.faults(c0);
    if e.Some? || v != {} {
      assert !AnnotationAccepted(q.annotation, t0.annotations, key, fault);
      return r, v, e;
    }
    ghost var n := CheckStatements(q.annotation);
    assert AnnotationAccepted(q.annotation, t0.annotations, key, fault) && ann == Checked(q.annotation, key);
    assert db.minted == m0 + n && db.calls == c0 + n && db.tables.quotes == t0.quotes;
    assert db.tables.annotations == t0.annotations + (if n == 1 then [ann.value] else []);
    var submitted := r.(conversationId := cid);
    var created;
    created, verrs, err := ValidateAndCreateQuote(db, submitted, now);
    r := if verrs == {} then created else submitted;
  }

  /** `Quote.Update(db, id)`: the same rule with `ValidateAndUpdate`. */
  method QuoteUpdate(db: Db, q: Quote, cid: Uuid, now: Time) returns (r: Quote, verrs: Errors, err: Option<string>)
    requires db.Valid() && ValidTime(now)
    modifies db
    ensures db.Valid()
    ensures err.Some? ==> verrs == {}
    ensures r == q.(annotation := r.annotation, conversationId := r.conversationId)
    ensures db.tables.authors == old(db.tables.authors) && db.tables.conversations == old(db.tables.conversations)
    ensures r.conversationId != cid ==> r.conversationId == q.conversationId && db.tables.quotes == old(db.tables.quotes)
    ensures q.annotation.Some? && q.annotation.value.id == Nil && AnnotationValidate(q.annotation.value) != {} ==>
      verrs == AnnotationValidate(q.annotation.value) && err.None? && r == q && unchanged(db)
    ensures verrs == {} && err.None? ==>
      r.conversationId == cid && QuoteValidate(r, now) == {}
      && db.tables.quotes == Replace(old(db.tables.quotes), QuoteId, QuoteRow(r))
    ensures (NewAnnotation(q.annotation)
      && InsertError(old(db.tables.annotations), AnnotationId, db.ids(old(db.minted)), db.faults(old(db.calls))).Some?) ==>
      err == InsertError(old(db.tables.annotations), AnnotationId, db.ids(old(db.minted)), db.faults(old(db.calls)))
      && r == q.(annotation := Checked(q.annotation, db.ids(old(db.minted)))) && db.tables == old(db.tables)
    ensures AnnotationAccepted(q.annotation, old(db.tables.annotations), db.ids(old(db.minted)), db.faults(old(db.calls))) ==>
      var submitted := q.(annotation := Checked(q.annotation, db.ids(old(db.minted))), conversationId := cid);
      verrs == QuoteValidate(submitted, now) && r == submitted
      && db.tables.annotations == old(db.tables.annotations) + (if NewAnnotation(q.annotation) then [submitted.annotation.value] else [])
      && (verrs != {} || err.Some? ==> db.tables.quotes == old(db.tables.quotes))
      && (verrs != {} ==> err.None?)
    ensures err.Some? ==> Reported(db.faults, err.value)
  {
    ghost var t0, m0, c0 := db.tables, db.minted, db.calls;
    var ann, v, e := CheckID(db, q.annotation);
    r := q.(annotation := ann);
    if e.Some? || v != {} {
      return r, v, e;
    }
    ghost var n := CheckStatements(q.annotation);
    assert db.minted == m0 + n && db.calls == c0 + n && db.tables.quotes == t0.quotes;
    r := r.(conversationId := cid);
    verrs, err := ValidateAndUpdateQuote(db, r, now);
  }

  // ---------------------------------------------------------------
  // Conversations
  // ---------------------------------------------------------------

  /** The row written for the quote submitted at position `k` of a conversation keyed `cid`. */
  predicate Submitted(row: Quote, q: Quote, k: int, cid: Uuid) {
    row.sequence == k && row.conversationId == cid && row.phrase == q.phrase && row.saidOn == q.saidOn
    && row.publish == q.publish && row.authorId == q.authorId && row.annotationId == q.annotationId
  }

  /** The rows written for the first `n` quotes of `c`, after the rows `base`. */
  predicate WrittenUpTo(rows: seq<Quote>, base: seq<Quote>, c: Conversation, cid: Uuid, n: nat, now: Time)
    requires n <= |c.quotes| && ValidTime(now)
  {
    |rows| == |base| + n && rows[..|base|] == base
    && forall k :: 0 <= k < n ==>
      Submitted(rows[|base| + k], c.quotes[k], k, cid) && QuoteValidate(rows[|base| + k], now) == {}
  }

  /** What a successful `Create` or `Update` wrote for the quotes of `c`: one valid row per quote, in order. */
  predicate QuotesWritten(rows: seq<Quote>, base: seq<Quote>, c: Conversation, cid: Uuid, now: Time)
    requires ValidTime(now)
  {
    WrittenUpTo(rows, base, c, cid, |c.quotes|, now)
  }

  lemma WriteOneMore(rows: seq<Quote>, base: seq<Quote>, c: Conversation, cid: Uuid, n: nat, now: Time, row: Quote)
    requires n < |c.quotes| && ValidTime(now)
    requires WrittenUpTo(rows, base, c, cid, n, now)
    requires Submitted(row, c.quotes[n], n, cid) && QuoteValidate(row, now) == {}
    ensures WrittenUpTo(rows + [row], base, c, cid, n + 1, now)
  {
    assert (rows + [row])[..|base|] == rows[..|base|];
  }

  /** Some quote of `c`, submitted at its position, fails its own validation. */
  predicate SomeQuoteInvalid(c: Conversation, now: Time)
    requires ValidTime(now)
  {
    exists k :: 0 <= k < |c.quotes| && QuoteValidate(c.quotes[k].(sequence := k), now) != {}
  }

  /** Rows written for every quote of `c` mean every quote passed its validation. */
  lemma WrittenQuotesValid(rows: seq<Quote>, base: seq<Quote>, c: Conversation, cid: Uuid, now: Time)
    requires ValidTime(now) && QuotesWritten(rows, base, c, cid, now)
    ensures !SomeQuoteInvalid(c, now)
  {
    forall k | 0 <= k < |c.quotes|
      ensures QuoteValidate(c.quotes[k].(sequence := k), now) == {}
    {
      var row := rows[|base| + k];
      assert Submitted(row, c.quotes[k], k, cid) && QuoteValidate(row, now) == {};
    }
  }

  /** `r` is `c` except, possibly, for the annotations of its quotes. */
  predicate SameButAnnotations(r: Conversation, c: Conversation) {
    r == c.(quotes := r.quotes) && |r.quotes| == |c.quotes|
    && forall k :: 0 <= k < |c.quotes| ==> r.quotes[k] == c.quotes[k].(annotation := r.quotes[k].annotation)
  }

  /** A conversation that differs from a re-keyed `c` only in annotations has `c`'s row under its own key. */
  lemma SameButAnnotationsRekeyed(r: Conversation, created: Conversation, c: Conversation)
    requires SameButAnnotations(r, created) && created == c.(id := created.id)
    ensures r.id == created.id && SameButAnnotations(r, c.(id := r.id))
    ensures ConversationRow(r) == ConversationRow(created)
  {
  }

  /** Only the quotes of a conversation matter to what its rows must be. */
  lemma QuotesWrittenSameQuotes(rows: seq<Quote>, base: seq<Quote>, c: Conversation, d: Conversation, cid: Uuid, now: Time)
    requires ValidTime(now) && c.quotes == d.quotes
    requires QuotesWritten(rows, base, c, cid, now)
    ensures QuotesWritten(rows, base, d, cid, now)
  {
  }

  /** `r` with the annotation of quote `i` replaced, as the shared pointer makes it. */
  function WithAnnotation(r: Conversation, c: Conversation, i: nat, a: Option<Annotation>): (t: Conversation)
    requires SameButAnnotations(r, c) && i < |c.quotes|
    ensures SameButAnnotations(t, c) && t.quotes[i].annotation == a
  {
    var t := r.(quotes := r.quotes[i := r.quotes[i].(annotation := a)]);
    assert forall k :: 0 <= k < |c.quotes| ==> t.quotes[k] == c.quotes[k].(annotation := t.quotes[k].annotation);
    t
  }

  /**
   * Submits quote `i` of `c` as `Quote.Create` receives it in the loop: a
   * copy with `Sequence = i`.
   */
  method SubmitQuote(db: Db, c: Conversation, i: nat, now: Time) returns (saved: Quote, verrs: Errors, err: Option<string>)
    requires i < |c.quotes| && db.Valid() && ValidTime(now)
    modifies db
    ensures db.Valid()
    ensures NoSentinelFaults(db) ==> err != Some(TempError)
    ensures db.tables.authors == old(db.tables.authors) && db.tables.conversations == old(db.tables.conversations)
    ensures err.Some? ==> verrs == {} && Reported(db.faults, err.value)
    ensures verrs == {} && err.None? ==>
      db.tables.quotes == old(db.tables.quotes) + [QuoteRow(saved)]
      && Submitted(QuoteRow(saved), c.quotes[i], i, c.id) && QuoteValidate(QuoteRow(saved), now) == {}
  {
    var quote := c.quotes[i].(sequence := i);
    saved, verrs, err := QuoteCreate(db, quote, c.id, now);
  }

  /**
   * The quote loop shared by `Conversation.Create` and `Update`: quote `i`
   * is submitted to `Quote.Create` as a copy with `Sequence = i`. The copy
   * takes the conversation ID and the quote ID, and the caller's quotes do
   * not; only the annotation, shared through its pointer, comes back. The
   * loop stops at the first error (reported as is) or the first validation
   * failure (reported as the rollback sentinel); `verrs` is the last quote's.
   */
  method CreateQuotes(db: Db, c: Conversation, now: Time) returns (r: Conversation, txErr: Option<string>, verrs: Errors)
    requires db.Valid() && ValidTime(now)
    modifies db
    ensures db.Valid()
    ensures SameButAnnotations(r, c)
    ensures db.tables.authors == old(db.tables.authors) && db.tables.conversations == old(db.tables.conversations)
    ensures HasAny(verrs) ==> txErr == Some(TempError)
    ensures NoSentinelFaults(db) && txErr == Some(TempError) ==> HasAny(verrs)
    ensures txErr.None? ==> verrs == {} && QuotesWritten(db.tables.quotes, old(db.tables.quotes), c, c.id, now)
    ensures txErr.Some? ==> txErr == Some(TempError) || Reported(db.faults, txErr.value)
    ensures SomeQuoteInvalid(c, now) ==> txErr.Some?
  {
    r := c;
    txErr := None;
    verrs := {};
    var i := 0;
    while i < |c.quotes|
      invariant 0 <= i <= |c.quotes|
      invariant db.Valid()
      invariant SameButAnnotations(r, c)
      invariant db.tables.authors == old(db.tables.authors) && db.tables.conversations == old(db.tables.conversations)
      invariant verrs == {}
      invariant WrittenUpTo(db.tables.quotes, old(db.tables.quotes), c, c.id, i, now)
    {
      ghost var before := db.tables.quotes;
      var saved, v, e := SubmitQuote(db, c, i, now);
      r := WithAnnotation(r, c, i, saved.annotation);
      verrs := v;
      if e.Some? {
        txErr := e;
        return;
      }
      if v != {} {
        txErr := Some(TempError);
        return;
      }
      WriteOneMore(before, old(db.tables.quotes), c, c.id, i, now, QuoteRow(saved));
      i := i + 1;
    }
    WrittenQuotesValid(db.tables.quotes, old(db.tables.quotes), c, c.id, now);
  }

  /** `ValidateAndCreate` of a conversation record. */
  method ValidateAndCreateConversation(db: Db, c: Conversation, now: Time) returns (r: Conversation, verrs: Errors, err: Option<string>)
    requires db.Valid() && ValidTime(now)
    modifies db
    ensures db.Valid()
    ensures verrs == ConversationValidate(c, now) && (err.Some? ==> verrs == {})
    ensures verrs != {} ==> r == c && err.None? && unchanged(db)
    ensures verrs == {} ==> (r == c.(id := KeyFor(c.id, db.ids(old(db.minted))))
      && err == InsertError(old(db.tables.conversations), ConversationId, r.id, db.faults(old(db.calls)))
      && db.tables == (if err.None? then old(db.tables).(conversations := old(db.tables.conversations) + [ConversationRow(r)]) else old(db.tables)))
  {
    verrs := ConversationValidate(c, now);
    if verrs != {} {
      return c, verrs, None;
    }
    r, err := db.CreateConversation(c);
  }

  /** `ValidateAndUpdate` of a conversation record. */
  method ValidateAndUpdateConversation(db: Db, c: Conversation, now: Time) returns (verrs: Errors, err: Option<string>)
    requires db.Valid() && ValidTime(now)
    modifies db
    ensures db.Valid()
    ensures verrs == ConversationValidate(c, now) && (err.Some? ==> verrs == {})
    ensures verrs != {} ==> err.None? && unchanged(db)
    ensures verrs == {} ==> (err == db.faults(old(db.calls))
      && db.tables == (if err.None? then old(db.tables).(conversations := Replace(old(db.tables.conversations), ConversationId, ConversationRow(c))) else old(db.tables)))
  {
    verrs := ConversationValidate(c, now);
    if verrs != {} {
      return verrs, None;
    }
    err := db.UpdateConversation(c);
  }

  /**
   * How the transaction's outcome becomes `Create`'s and `Update`'s result:
   * the sentinel gives the validation errors and no error, any other error
   * gives no validation errors and that error, and success gives the
   * (empty) validation errors.
   */
  function TxResult(txErr: Option<string>, verrs: Errors): (r: (Option<Errors>, Option<string>))
    ensures r.1.Some? <==> r.0.None?
    ensures txErr == Some(TempError) ==> r == (Some(verrs), None)
    ensures txErr.Some? && txErr != Some(TempError) ==> r == (None, txErr)
    ensures txErr.None? ==> r == (Some(verrs), None)
  {
    if txErr.Some? && txErr.value == TempError then (Some(verrs), None)
    else if txErr.Some? then (None, txErr)
    else (Some(verrs), None)
  }

  /**
   * The statements `Conversation.Create` sends inside its transaction: the
   * conversation record is validated and created, then each quote in turn.
   * Validation errors become the rollback sentinel.
   */
  method CreateInTransaction(db: Db, c: Conversation, now: Time) returns (r: Conversation, txErr: Option<string>, verrs: Errors)
    requires db.Valid() && ValidTime(now)
    modifies db
    ensures db.Valid()
    ensures SameButAnnotations(r, c.(id := r.id))
    ensures HasAny(verrs) ==> txErr == Some(TempError)
    ensures NoSentinelFaults(db) && txErr == Some(TempError) ==> HasAny(verrs)
    ensures ConversationValidate(c, now) != {} ==>
      r == c && verrs == ConversationValidate(c, now) && db.minted == old(db.minted) && db.calls == old(db.calls)
    ensures txErr.None? ==>
      ConversationValidate(c, now) == {} && r.id != Nil && r.id == KeyFor(c.id, db.ids(old(db.minted))) && verrs == {}
      && db.tables.authors == old(db.tables.authors)
      && db.tables.conversations == old(db.tables.conversations) + [ConversationRow(r)]
      && QuotesWritten(db.tables.quotes, old(db.tables.quotes), c, r.id, now)
    ensures txErr.Some? ==> txErr == Some(TempError) || Reported(db.faults, txErr.value)
    ensures SomeQuoteInvalid(c, now) ==> txErr.Some?
  {
    var e;
    r, verrs, e := ValidateAndCreateConversation(db, c, now);
    if e.Some? {
      assert NoSentinelFaults(db) ==> db.faults(old(db.calls)) != Some(TempError);
      return r, e, verrs;
    }
    if verrs != {} {
      return r, Some(TempError), verrs;
    }
    ghost var created, createdR := db.tables, r;
    r, txErr, verrs := CreateQuotes(db, r, now);
    SameButAnnotationsRekeyed(r, createdR, c);
    assert SomeQuoteInvalid(c, now) ==> SomeQuoteInvalid(createdR, now);
    if txErr.None? {
      QuotesWrittenSameQuotes(db.tables.quotes, created.quotes, createdR, c, r.id, now);
    }
  }

  /**
   * `Conversation.Create`, one transaction: any failure rolls the tables
   * back. The in-memory conversation keeps the ID pop assigned and the
   * annotations' new IDs, but not the quotes' sequence numbers.
   */
  method ConversationCreate(db: Db, c: Conversation, now: Time) returns (r: Conversation, verrs: Option<Errors>, err: Option<string>)
    requires db.Valid() && ValidTime(now)
    modifies db
    ensures db.Valid()
    ensures err.Some? <==> verrs.None?
    ensures err.Some? || HasAny(verrs.value) ==> db.tables == old(db.tables)
    ensures SameButAnnotations(r, c.(id := r.id))
    ensures ConversationValidate(c, now) != {} ==>
      r == c && verrs == Some(ConversationValidate(c, now)) && err.None?
      && db.tables == old(db.tables) && db.minted == old(db.minted) && db.calls == old(db.calls)
    ensures NoSentinelFaults(db) && err.None? && verrs == Some({}) ==>
      ConversationValidate(c, now) == {} && r.id != Nil && r.id == KeyFor(c.id, db.ids(old(db.minted)))
      && db.tables.authors == old(db.tables.authors)
      && db.tables.conversations == old(db.tables.conversations) + [ConversationRow(r)]
      && QuotesWritten(db.tables.quotes, old(db.tables.quotes), c, r.id, now)
    ensures err.Some? ==> Reported(db.faults, err.value)
    ensures NoSentinelFaults(db) && ConversationValidate(c, now) == {} && SomeQuoteInvalid(c, now) ==>
      db.tables == old(db.tables) && (err.Some? || HasAny(verrs.value))
  {
    var snapshot := db.tables;
    var txErr, v;
    r, txErr, v := CreateInTransaction(db, c, now);
    if txErr.Some? {
      db.Restore(snapshot);
    }
    verrs, err := TxResult(txErr, v).0, TxResult(txErr, v).1;
  }

  /**
   * `Conversation.Update`, one transaction: the conversation record is
   * validated and updated, then every quote goes through `Quote.Create`
   * (both branches of the ID test call it), so quotes are created again.
   */
  method ConversationUpdate(db: Db, c: Conversation, now: Time) returns (r: Conversation, verrs: Option<Errors>, err: Option<string>)
    requires db.Valid() && ValidTime(now)
    modifies db
    ensures db.Valid()
    ensures err.Some? <==> verrs.None?
    ensures err.Some? || HasAny(verrs.value) ==> db.tables == old(db.tables)
    ensures SameButAnnotations(r, c)
    ensures ConversationValidate(c, now) != {} ==>
      r == c && verrs == Some(ConversationValidate(c, now)) && err.None?
      && db.tables == old(db.tables) && db.minted == old(db.minted) && db.calls == old(db.calls)
    ensures NoSentinelFaults(db) && err.None? && verrs == Some({}) ==>
      ConversationValidate(c, now) == {}
      && db.tables.authors == old(db.tables.authors)
      && db.tables.conversations == Replace(old(db.tables.conversations), ConversationId, ConversationRow(c))
      && QuotesWritten(db.tables.quotes, old(db.tables.quotes), c, c.id, now)
    ensures err.Some? ==> Reported(db.faults, err.value)
    ensures NoSentinelFaults(db) && ConversationValidate(c, now) == {} && SomeQuoteInvalid(c, now) ==>
      db.tables == old(db.tables) && (err.Some? || HasAny(verrs.value))
  {
    var snapshot := db.tables;
    var v, e := ValidateAndUpdateConversation(db, c, now);
    r := c;
    var txErr: Option<string>;
    if e.Some? {
      txErr := e;
    } else if v != {} {
      txErr := Some(TempError);
    } else {
      ghost var updated := db.tables;
      assert updated.quotes == snapshot.quotes;
      r, txErr, v := CreateQuotes(db, c, now);
      assert txErr.None? ==> db.tables.conversations == updated.conversations && QuotesWritten(db.tables.quotes, updated.quotes, c, c.id, now);
    }
    if txErr.Some? {
      db.Restore(snapshot);
      assert ConversationValidate(c, now) != {} ==> db.minted == old(db.minted) && db.calls == old(db.calls) && db.tables == old(db.tables);
    }
    verrs, err := TxResult(txErr, v).0, TxResult(txErr, v).1;
  }

  // ---------------------------------------------------------------
  // JSON form of a conversation
  // ---------------------------------------------------------------

  /**
   * `json.Marshal`, `json.Unmarshal` (into an existing value) and
   * `url.PathEscape`/`url.PathUnescape` (section 2.1 of RFC 3986), as the
   * conversation code calls them. `unmarshal` gives the receiver as
   * `json.Unmarshal` leaves it and the error it reports: on an error the
   * fields decoded before it keep their new values.
   */
  datatype ConversationJson = ConversationJson(
    marshal: Conversation -> Result<Bytes>,
    unmarshal: (Conversation, Bytes) -> (Conversation, Option<string>),
    pathEscape: Bytes -> string,
    pathUnescape: string -> Result<Bytes>)

  /**
   * What unmarshalling the JSON of `c` into `into` leaves: fields tagged
   * `json:"-"` are not written, so the conversation keeps its ID, and each
   * quote decoded into an existing element keeps that element's author ID
   * (a new element has the nil UUID). Every other field comes from `c`.
   */
  function JsonView(into: Conversation, c: Conversation): (v: Conversation)
    ensures v.id == into.id && v.occurredOn == c.occurredOn && v.publish == c.publish
    ensures |v.quotes| == |c.quotes|
    ensures forall k :: 0 <= k < |c.quotes| ==>
      v.quotes[k] == c.quotes[k].(author := Author(if k < |into.quotes| then into.quotes[k].author.id else Nil, c.quotes[k].author.name))
  {
    Conversation(into.id, c.occurredOn, c.publish,
      seq(|c.quotes|, k requires 0 <= k < |c.quotes| =>
        c.quotes[k].(author := Author(if k < |into.quotes| then into.quotes[k].author.id else Nil, c.quotes[k].author.name))))
  }

  /** The laws of the libraries: decoding what was encoded. */
  ghost predicate JsonLaws(j: ConversationJson) {
    (forall into, c :: j.marshal(c).Ok? ==> j.unmarshal(into, j.marshal(c).value) == (JsonView(into, c), None))
    && (forall b :: j.pathUnescape(j.pathEscape(b)) == Ok(b))
  }

  /** `MarshalConversation`: JSON, then path-escaped. */
  function MarshalConversation(j: ConversationJson, c: Conversation): (r: Result<string>)
    ensures j.marshal(c).Err? ==> r == Err(j.marshal(c).msg)
    ensures j.marshal(c).Ok? ==> r == Ok(j.pathEscape(j.marshal(c).value))
  {
    match j.marshal(c)
    case Err(e) => Err(e)
    case Ok(b) => Ok(j.pathEscape(b))
  }

  /**
   * `Conversation.Unmarshal`: `json.Unmarshal` into the receiver, its error
   * passed on. Nothing is rolled back, so a failed decode can leave the
   * receiver partly overwritten.
   */
  function Unmarshal(j: ConversationJson, c: Conversation, b: Bytes): (r: (Conversation, Option<string>))
    ensures forall d :: JsonLaws(j) && j.marshal(d) == Ok(b) ==> r == (JsonView(c, d), None)
  {
    j.unmarshal(c, b)
  }

  /** `ExtractConversationFromJSON`: path-unescape, then `Unmarshal`. */
  function ExtractConversationFromJson(j: ConversationJson, c: Conversation, text: string): (r: (Conversation, Option<string>))
    ensures j.pathUnescape(text).Err? ==> r == (c, Some(j.pathUnescape(text).msg))
    ensures j.pathUnescape(text).Ok? ==> r == Unmarshal(j, c, j.pathUnescape(text).value)
  {
    match j.pathUnescape(text)
    case Err(e) => (c, Some(e))
    case Ok(b) => Unmarshal(j, c, b)
  }

  /**
   * Marshalling a conversation and extracting it into an empty one keeps
   * the date, the publish flag and every quote's phrase, date, author name
   * and annotation; the fields tagged `json:"-"` (the conversation's ID and
   * the authors' IDs) come back nil.
   */
  lemma ExtractMarshalled(j: ConversationJson, c: Conversation)
    requires JsonLaws(j) && MarshalConversation(j, c).Ok?
    ensures var (d, err) := ExtractConversationFromJson(j, Conversation(Nil, ZeroTime, false, []), MarshalConversation(j, c).value);
      err.None? && d.id == Nil && d.occurredOn == c.occurredOn && d.publish == c.publish
      && |d.quotes| == |c.quotes|
      && forall k :: 0 <= k < |c.quotes| ==>
        d.quotes[k].phrase == c.quotes[k].phrase && d.quotes[k].saidOn == c.quotes[k].saidOn
        && d.quotes[k].author == Author(Nil, c.quotes[k].author.name)
        && d.quotes[k].annotation == c.quotes[k].annotation
  {
    var empty := Conversation(Nil, ZeroTime, false, []);
    var b := j.marshal(c).value;
    assert j.pathUnescape(j.pathEscape(b)) == Ok(b);
    assert j.unmarshal(empty, b) == (JsonView(empty, c), None);
  }
}
