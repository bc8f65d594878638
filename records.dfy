/**
 * The records of the models package as values, their `Validate` rules, and UUIDs
 * with their text form.
 *
 * A gobuffalo `validate.Errors` is a map from field key to messages filled
 * by validators running concurrently. It is modelled as the set of
 * (field, rule) violations: order carries no meaning, and the message text
 * the library generates is not modelled.
 */
module Records {
  import opened Common
  import opened Calendar
  import Text

  // ---------------------------------------------------------------
  // UUIDs
  // ---------------------------------------------------------------

  /** A UUID as the 128-bit number it spells. */
  type Uuid = nat

  const Nil: Uuid := 0
  /** 2^128: `Pow16(32)`. */
  const UuidLimit: nat := Pow16(32)

  function HexChar(d: nat): (c: char)
    requires d < 16
  {
    "0123456789abcdef"[d]
  }

  function HexVal(c: char): nat {
    if '0' <= c <= '9' then c as int - '0' as int
    else if 'a' <= c <= 'f' then c as int - 'a' as int + 10
    else 0
  }

  /** The low `k` hex digits of `u`, most significant first. */
  function HexDigits(u: nat, k: nat): (s: string)
    ensures |s| == k
    decreases k
  {
    if k == 0 then "" else HexDigits(u / 16, k - 1) + [HexChar(u % 16)]
  }

  function HexValue(s: string): nat
    decreases |s|
  {
    if |s| == 0 then 0 else HexValue(s[..|s| - 1]) * 16 + HexVal(s[|s| - 1])
  }

  function Pow16(k: nat): (p: nat)
    ensures p > k
  {
    if k == 0 then 1 else 16 * Pow16(k - 1)
  }

  /** `k` hex digits spell any number below 16^k exactly. */
  lemma {:induction false} HexValueOfDigits(u: nat, k: nat)
    requires u < Pow16(k)
    ensures HexValue(HexDigits(u, k)) == u
    decreases k
  {
    if k > 0 {
      var s := HexDigits(u, k);
      assert s[..|s| - 1] == HexDigits(u / 16, k - 1);
      assert u == 16 * (u / 16) + u % 16;
      assert u / 16 < Pow16(k - 1);
      HexValueOfDigits(u / 16, k - 1);
      assert HexVal(HexChar(u % 16)) == u % 16 by {
        var d := u % 16;
        assert "0123456789abcdef"[d] == HexChar(d);
      }
    }
  }

  /** The 8-4-4-4-12 grouping of 32 hex digits, with dashes between the groups. */
  function Dashed(h: string): (s: string)
    requires |h| == 32
    ensures |s| == 36 && s[8] == '-' && s[13] == '-' && s[18] == '-' && s[23] == '-'
  {
    h[..8] + "-" + h[8..12] + "-" + h[12..16] + "-" + h[16..20] + "-" + h[20..]
  }

  /** The 32 digits of a 36-character text form, skipping the dashes. */
  function Undashed(s: string): (h: string)
    requires |s| == 36
    ensures |h| == 32
  {
    s[..8] + s[9..13] + s[14..18] + s[19..23] + s[24..]
  }

  lemma UndashedDashed(h: string)
    requires |h| == 32
    ensures Undashed(Dashed(h)) == h
  {
    var s := Dashed(h);
    assert s[..8] == h[..8];
    assert s[9..13] == h[8..12];
    assert s[14..18] == h[12..16];
    assert s[19..23] == h[16..20];
    assert s[24..] == h[20..];
    assert h[..8] + h[8..12] + h[12..16] + h[16..20] + h[20..] == h;
  }

  /** `uuid.UUID.String()`: 8-4-4-4-12 lower-case hex digits. */
  function UuidString(u: Uuid): (s: string)
    ensures |s| == 36 && s[8] == '-' && s[13] == '-' && s[18] == '-' && s[23] == '-'
  {
    Dashed(HexDigits(u, 32))
  }

  /** Reads the 32 hex digits of the text form back, skipping the dashes. */
  function UuidOfString(s: string): Uuid
    requires |s| == 36
  {
    HexValue(Undashed(s))
  }

  /** The text form names the UUID: it reads back, so distinct UUIDs print differently. */
  lemma UuidStringRoundTrip(u: Uuid)
    requires u < UuidLimit
    ensures UuidOfString(UuidString(u)) == u
  {
    UndashedDashed(HexDigits(u, 32));
    HexValueOfDigits(u, 32);
  }

  // ---------------------------------------------------------------
  // Records
  // ---------------------------------------------------------------

  /** models.Annotation (timestamps left out). */
  datatype Annotation = Annotation(id: Uuid, note: string)

  /** models.Author. */
  datatype Author = Author(id: Uuid, name: string)

  /** models.Quote with its author and optional annotation. */
  datatype Quote = Quote(
    id: Uuid,
    saidOn: Time,
    sequence: int,
    phrase: string,
    publish: bool,
    author: Author,
    annotation: Option<Annotation>,
    conversationId: Uuid,
    authorId: Uuid,
    annotationId: Option<Uuid>)

  /** models.Conversation with its quotes in sequence order. */
  datatype Conversation = Conversation(id: Uuid, occurredOn: Time, publish: bool, quotes: seq<Quote>)

  // ---------------------------------------------------------------
  // gobuffalo validators
  // ---------------------------------------------------------------

  datatype Rule = Blank | NotBefore | NotGreater | LengthOutOfRange | CheckFailed

  datatype Violation = Violation(field: string, rule: Rule)

  type Errors = set<Violation>

  /** `verrs.HasAny()`. */
  predicate HasAny(e: Errors) {
    e != {}
  }

  /** `TimeIsPresent`: the time is not `time.Time{}`. */
  function TimeIsPresent(t: Time, name: string): (e: Errors)
    ensures e == {} <==> t != ZeroTime
  {
    if t == ZeroTime then {Violation(name, Blank)} else {}
  }

  /** `TimeIsBeforeTime`: the first time lies strictly before the second. */
  function TimeIsBeforeTime(first: Time, second: Time, name: string): (e: Errors)
    ensures e == {} <==> Before(first, second)
  {
    if Before(first, second) then {} else {Violation(name, NotBefore)}
  }

  /** `IntIsGreaterThan`. */
  function IntIsGreaterThan(v: int, compared: int, name: string): (e: Errors)
    ensures e == {} <==> v > compared
  {
    if v > compared then {} else {Violation(name, NotGreater)}
  }

  /** `StringIsPresent`: something other than white space. */
  function StringIsPresent(s: string, name: string): (e: Errors)
    ensures e == {} <==> exists i :: 0 <= i < |s| && !Text.IsSpace(s[i])
  {
    Text.IsPresentIff(s);
    if Text.IsPresent(s) then {} else {Violation(name, Blank)}
  }

  /** `StringLengthInRange` with a non-zero maximum: the rune count lies in [min, max]. */
  function StringLengthInRange(s: string, min: nat, max: nat, name: string): (e: Errors)
    requires max > 0
    ensures e == {} <==> min <= |s| <= max
  {
    if min <= |s| <= max then {} else {Violation(name, LengthOutOfRange)}
  }

  /** `FuncValidator`: the check passes. */
  function FuncValidator(ok: bool, name: string): (e: Errors)
    ensures e == {} <==> ok
  {
    if ok then {} else {Violation(name, CheckFailed)}
  }

  /** `time.Now().AddDate(0, 0, 1)`. */
  function Tomorrow(now: Time): Time
    requires ValidTime(now)
  {
    AddCalendarDays(now, 1)
  }

  /** Annotation.Validate: a note that is present and at most 255 runes. */
  function AnnotationValidate(a: Annotation): Errors {
    StringIsPresent(a.note, "Note") + StringLengthInRange(a.note, 0, 255, "Note")
  }

  /** Author.Validate: a name that is present and 1..255 runes. */
  function AuthorValidate(a: Author): Errors {
    StringIsPresent(a.name, "Name") + StringLengthInRange(a.name, 1, 255, "Name")
  }

  /** Quote.Validate, with `now` for the clock. */
  function QuoteValidate(q: Quote, now: Time): Errors
    requires ValidTime(now)
  {
    TimeIsPresent(q.saidOn, "SaidOn")
    + TimeIsBeforeTime(q.saidOn, Tomorrow(now), "Said On")
    + IntIsGreaterThan(q.sequence, -1, "sequence")
    + StringIsPresent(q.phrase, "Phrase")
    + StringLengthInRange(q.phrase, 1, 255, "Phrase")
    + FuncValidator(q.authorId != Nil, "AuthorID")
  }

  /** Conversation.Validate, with `now` for the clock. */
  function ConversationValidate(c: Conversation, now: Time): Errors
    requires ValidTime(now)
  {
    TimeIsPresent(c.occurredOn, "SaidOn")
    + TimeIsBeforeTime(c.occurredOn, Tomorrow(now), "Said on")
  }

  function NonBlank(s: string): bool {
    exists i :: 0 <= i < |s| && !Text.IsSpace(s[i])
  }

  lemma AnnotationValidIff(a: Annotation)
    ensures AnnotationValidate(a) == {} <==> NonBlank(a.note) && |a.note| <= 255
  {
  }

  lemma AuthorValidIff(a: Author)
    ensures AuthorValidate(a) == {} <==> NonBlank(a.name) && |a.name| <= 255
  {
  }

  /** A quote passes exactly when each of its six rules does. */
  lemma QuoteValidIff(q: Quote, now: Time)
    requires ValidTime(now)
    ensures QuoteValidate(q, now) == {} <==>
      q.saidOn != ZeroTime && Before(q.saidOn, Tomorrow(now)) && q.sequence >= 0
      && NonBlank(q.phrase) && |q.phrase| <= 255 && q.authorId != Nil
  {
  }

  lemma ConversationValidIff(c: Conversation, now: Time)
    requires ValidTime(now)
    ensures ConversationValidate(c, now) == {} <==> c.occurredOn != ZeroTime && Before(c.occurredOn, Tomorrow(now))
  {
  }

  /** Example of `ConversationValidIff`: a conversation dated two days ahead is refused. */
  lemma TwoDaysAheadRejected(c: Conversation, now: Time)
    requires ValidTime(now) && ValidTime(c.occurredOn)
    requires c.occurredOn == AddCalendarDays(now, 2)
    ensures Violation("Said on", NotBefore) in ConversationValidate(c, now)
  {
    NextDayLater(AddDays(now.date, 1));
    assert AddDays(now.date, 2) == NextDay(AddDays(now.date, 1)) by {
      AddDaysStep(now.date, 1);
    }
  }

  lemma AddDaysStep(d: Date, k: nat)
    requires ValidDate(d)
    ensures AddDays(d, k + 1) == NextDay(AddDays(d, k))
    decreases k
  {
    if k > 0 {
      AddDaysStep(NextDay(d), k - 1);
    }
  }

  lemma NextDayLater(d: Date)
    requires ValidDate(d)
    ensures !Before(Time(NextDay(d), 0), Time(d, 0))
    ensures forall n :: Before(Time(d, n), Time(NextDay(d), n))
  {
  }

  /** Example of `AnnotationValidIff`: an empty note is refused. */
  lemma EmptyNoteRejected(a: Annotation)
    requires a.note == ""
    ensures Violation("Note", Blank) in AnnotationValidate(a)
  {
  }
}
