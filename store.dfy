/**
 * The database behind the models, as pop (gobuffalo's ORM) drives it. The
 * four tables hold rows in insertion order, which stands for the order the
 * queries return them. Two streams fixed in advance stand for what the
 * model cannot see: `ids(k)` is the k-th UUID pop generates for a record
 * whose ID is nil, and `faults(k)` is the error, if any, the database
 * reports for the k-th statement sent to it.
 */
module Store {
  import opened Common
  import opened Records

  /** A version 4 UUID: its version bits are set, so it is never the nil UUID. */
  type FreshId = u: nat | 0 < u < UuidLimit witness 1

  /** The error Postgres reports for a second row with the same primary key. */
  const DuplicateKey: string := "pq: duplicate key value violates unique constraint"

  /** The tables; association fields (`db:"-"`) are not columns, so rows hold them empty. */
  datatype Tables = Tables(
    authors: seq<Author>,
    annotations: seq<Annotation>,
    quotes: seq<Quote>,
    conversations: seq<Conversation>)

  function AuthorId(a: Author): Uuid { a.id }
  function AnnotationId(a: Annotation): Uuid { a.id }
  function QuoteId(q: Quote): Uuid { q.id }
  function ConversationId(c: Conversation): Uuid { c.id }

  /** The columns of a quote: its author and annotation records are not stored with it. */
  function QuoteRow(q: Quote): Quote {
    q.(author := Author(Nil, ""), annotation := None)
  }

  /** The columns of a conversation: its quotes live in their own table. */
  function ConversationRow(c: Conversation): Conversation {
    c.(quotes := [])
  }

  predicate HasId<T>(rows: seq<T>, id: T -> Uuid, u: Uuid) {
    exists i :: 0 <= i < |rows| && id(rows[i]) == u
  }

  /** The primary-key constraint, and no row keyed by the nil UUID. */
  predicate KeysOk<T>(rows: seq<T>, id: T -> Uuid) {
    (forall i :: 0 <= i < |rows| ==> id(rows[i]) != Nil)
    && forall i, j :: 0 <= i < j < |rows| ==> id(rows[i]) != id(rows[j])
  }

  predicate TablesOk(t: Tables) {
    KeysOk(t.authors, AuthorId) && KeysOk(t.annotations, AnnotationId)
    && KeysOk(t.quotes, QuoteId) && KeysOk(t.conversations, ConversationId)
  }

  /** Why an `INSERT` of a row keyed `u` fails: the statement's fault, else a key clash. */
  function InsertError<T>(rows: seq<T>, id: T -> Uuid, u: Uuid, fault: Option<string>): (e: Option<string>)
    ensures e.None? <==> fault.None? && !HasId(rows, id, u)
    ensures e.Some? ==> e == fault || e == Some(DuplicateKey)
  {
    if fault.Some? then fault else if HasId(rows, id, u) then Some(DuplicateKey) else None
  }

  /** An error the database itself reports: some statement's fault, or a key clash. */
  ghost predicate Reported(faults: nat -> Option<string>, m: string) {
    m == DuplicateKey || exists k :: faults(k) == Some(m)
  }

  /** An accepted insert keeps the keys valid. */
  lemma InsertKeepsKeys<T>(rows: seq<T>, id: T -> Uuid, row: T, fault: Option<string>)
    requires KeysOk(rows, id) && id(row) != Nil
    requires InsertError(rows, id, id(row), fault).None?
    ensures KeysOk(rows + [row], id)
  {
    var r := rows + [row];
    forall i, j | 0 <= i < j < |r|
      ensures id(r[i]) != id(r[j])
    {
      if j == |rows| {
        assert r[i] == rows[i];
      }
    }
  }

  /** `UPDATE ... WHERE id = ?`: every row with the record's key is replaced by it. */
  function Replace<T>(rows: seq<T>, id: T -> Uuid, row: T): (r: seq<T>)
    ensures |r| == |rows|
    ensures forall i :: 0 <= i < |rows| ==> id(r[i]) == id(rows[i])
    ensures forall i :: 0 <= i < |rows| && id(rows[i]) != id(row) ==> r[i] == rows[i]
    ensures forall i :: 0 <= i < |rows| && id(rows[i]) == id(row) ==> r[i] == row
  {
    seq(|rows|, i requires 0 <= i < |rows| => if id(rows[i]) == id(row) then row else rows[i])
  }

  /** An update changes no key, so the keys stay valid. */
  lemma ReplaceKeepsKeys<T>(rows: seq<T>, id: T -> Uuid, row: T)
    requires KeysOk(rows, id)
    ensures KeysOk(Replace(rows, id, row), id)
  {
  }

  /** The key pop gives a record: a fresh UUID when the record's is nil, else its own. */
  function KeyFor(u: Uuid, next: FreshId): (k: Uuid)
    ensures k != Nil && (u != Nil ==> k == u)
  {
    if u == Nil then next else u
  }

  class Db {
    var tables: Tables
    /** The UUIDs pop generates, in order. */
    const ids: nat -> FreshId
    /** How many UUIDs have been generated. */
    var minted: nat
    /** The database's answer to each statement, in order: an error message or success. */
    const faults: nat -> Option<string>
    /** How many statements have been sent. */
    var calls: nat

    predicate Valid()
      reads this
    {
      TablesOk(tables)
    }

    constructor(tables: Tables, ids: nat -> FreshId, faults: nat -> Option<string>)
      requires TablesOk(tables)
      ensures Valid()
      ensures this.tables == tables && this.ids == ids && this.faults == faults
      ensures minted == 0 && calls == 0
    {
      this.tables := tables;
      this.ids := ids;
      this.faults := faults;
      minted := 0;
      calls := 0;
    }

    /** Sends one statement; the result is the error the database reports, if any. */
    method Exec() returns (fault: Option<string>)
      modifies this
      ensures fault == faults(old(calls)) && calls == old(calls) + 1
      ensures tables == old(tables) && minted == old(minted)
    {
      fault := faults(calls);
      calls := calls + 1;
    }

    /** pop assigns a fresh UUID to a record whose ID is nil, before the insert is sent. */
    method Key(u: Uuid) returns (k: Uuid)
      modifies this
      ensures k == KeyFor(u, ids(old(minted)))
      ensures minted == old(minted) + (if u == Nil then 1 else 0)
      ensures tables == old(tables) && calls == old(calls)
    {
      if u == Nil {
        k := ids(minted);
        minted := minted + 1;
      } else {
        k := u;
      }
    }

    /** Rolls back to a snapshot of the tables. */
    method Restore(snapshot: Tables)
      modifies this
      ensures tables == snapshot && minted == old(minted) && calls == old(calls)
    {
      tables := snapshot;
    }

    /** `Create` of an author (no validation): key assignment, then one `INSERT`. */
    method CreateAuthor(a: Author) returns (r: Author, err: Option<string>)
      requires Valid()
      modifies this
      ensures Valid()
      ensures r == a.(id := KeyFor(a.id, ids(old(minted))))
      ensures minted == old(minted) + (if a.id == Nil then 1 else 0) && calls == old(calls) + 1
      ensures err == InsertError(old(tables.authors), AuthorId, r.id, faults(old(calls)))
      ensures tables == if err.None? then old(tables).(authors := old(tables.authors) + [r]) else old(tables)
    {
      var k := Key(a.id);
      r := a.(id := k);
      var fault := Exec();
      err := InsertError(tables.authors, AuthorId, k, fault);
      if err.None? {
        InsertKeepsKeys(tables.authors, AuthorId, r, fault);
        tables := tables.(authors := tables.authors + [r]);
      }
    }

    /** `Create` of an annotation (no validation). */
    method CreateAnnotation(a: Annotation) returns (r: Annotation, err: Option<string>)
      requires Valid()
      modifies this
      ensures Valid()
      ensures r == a.(id := KeyFor(a.id, ids(old(minted))))
      ensures minted == old(minted) + (if a.id == Nil then 1 else 0) && calls == old(calls) + 1
      ensures err == InsertError(old(tables.annotations), AnnotationId, r.id, faults(old(calls)))
      ensures tables == if err.None? then old(tables).(annotations := old(tables.annotations) + [r]) else old(tables)
    {
      var k := Key(a.id);
      r := a.(id := k);
      var fault := Exec();
      err := InsertError(tables.annotations, AnnotationId, k, fault);
      if err.None? {
        InsertKeepsKeys(tables.annotations, AnnotationId, r, fault);
        tables := tables.(annotations := tables.annotations + [r]);
      }
    }

    /**
     * `Create` of a quote (no validation): its columns are inserted as the
     * record carries them. Pop's association of the nested author and
     * annotation is not modelled.
     */
    method CreateQuote(q: Quote) returns (r: Quote, err: Option<string>)
      requires Valid()
      modifies this
      ensures Valid()
      ensures r == q.(id := KeyFor(q.id, ids(old(minted))))
      ensures minted == old(minted) + (if q.id == Nil then 1 else 0) && calls == old(calls) + 1
      ensures err == InsertError(old(tables.quotes), QuoteId, r.id, faults(old(calls)))
      ensures tables == if err.None? then old(tables).(quotes := old(tables.quotes) + [QuoteRow(r)]) else old(tables)
    {
      var k := Key(q.id);
      r := q.(id := k);
      var fault := Exec();
      err := InsertError(tables.quotes, QuoteId, k, fault);
      if err.None? {
        InsertKeepsKeys(tables.quotes, QuoteId, QuoteRow(r), fault);
        tables := tables.(quotes := tables.quotes + [QuoteRow(r)]);
      }
    }

    /** `Create` of a conversation (no validation, quotes not included). */
    method CreateConversation(c: Conversation) returns (r: Conversation, err: Option<string>)
      requires Valid()
      modifies this
      ensures Valid()
      ensures r == c.(id := KeyFor(c.id, ids(old(minted))))
      ensures minted == old(minted) + (if c.id == Nil then 1 else 0) && calls == old(calls) + 1
      ensures err == InsertError(old(tables.conversations), ConversationId, r.id, faults(old(calls)))
      ensures tables == if err.None? then old(tables).(conversations := old(tables.conversations) + [ConversationRow(r)]) else old(tables)
    {
      var k := Key(c.id);
      r := c.(id := k);
      var fault := Exec();
      err := InsertError(tables.conversations, ConversationId, k, fault);
      if err.None? {
        InsertKeepsKeys(tables.conversations, ConversationId, ConversationRow(r), fault);
        tables := tables.(conversations := tables.conversations + [ConversationRow(r)]);
      }
    }

    /** `Update` of an author: one `UPDATE`; a key no row has is not an error. */
    method UpdateAuthor(a: Author) returns (err: Option<string>)
      requires Valid()
      modifies this
      ensures Valid()
      ensures err == faults(old(calls)) && calls == old(calls) + 1 && minted == old(minted)
      ensures tables == if err.None? then old(tables).(authors := Replace(old(tables.authors), AuthorId, a)) else old(tables)
    {
      err := Exec();
      if err.None? {
        ReplaceKeepsKeys(tables.authors, AuthorId, a);
        tables := tables.(authors := Replace(tables.authors, AuthorId, a));
      }
    }

    /** `Update` of a quote's columns. */
    method UpdateQuote(q: Quote) returns (err: Option<string>)
      requires Valid()
      modifies this
      ensures Valid()
      ensures err == faults(old(calls)) && calls == old(calls) + 1 && minted == old(minted)
      ensures tables == if err.None? then old(tables).(quotes := Replace(old(tables.quotes), QuoteId, QuoteRow(q))) else old(tables)
    {
      err := Exec();
      if err.None? {
        ReplaceKeepsKeys(tables.quotes, QuoteId, QuoteRow(q));
        tables := tables.(quotes := Replace(tables.quotes, QuoteId, QuoteRow(q)));
      }
    }

    /** `Update` of a conversation's columns. */
    method UpdateConversation(c: Conversation) returns (err: Option<string>)
      requires Valid()
      modifies this
      ensures Valid()
      ensures err == faults(old(calls)) && calls == old(calls) + 1 && minted == old(minted)
      ensures tables == if err.None? then old(tables).(conversations := Replace(old(tables.conversations), ConversationId, ConversationRow(c))) else old(tables)
    {
      err := Exec();
      if err.None? {
        ReplaceKeepsKeys(tables.conversations, ConversationId, ConversationRow(c));
        tables := tables.(conversations := Replace(tables.conversations, ConversationId, ConversationRow(c)));
      }
    }
  }
}
