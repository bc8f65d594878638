/**
 * The archive export of grifts/export.go: every conversation, eagerly
 * loaded with its quotes, authors and annotations, turned back into the
 * line format the seed loader reads.
 */
module Export {
  import opened Common
  import opened Calendar
  import opened Records
  import opened Loader

  /** The note of a quote's annotation, or "" when it has none. */
  function NoteOf(q: Quote): (note: string)
    ensures q.annotation.None? ==> note == ""
    ensures q.annotation.Some? ==> note == q.annotation.value.note
  {
    if q.annotation.Some? then q.annotation.value.note else ""
  }

  /** The line written for one quote. */
  function ExportedLine(q: Quote): SeedLine {
    SeedLine(q.author.name, q.phrase, q.saidOn, FormatBool(q.publish), NoteOf(q))
  }

  /** The lines written for a conversation's quotes, in their order. */
  function LinesOf(qs: seq<Quote>): (r: seq<SeedLine>)
    ensures |r| == |qs|
  {
    if |qs| == 0 then [] else LinesOf(qs[..|qs| - 1]) + [ExportedLine(qs[|qs| - 1])]
  }

  /**
   * The archive written for the loaded conversations, in their order. Each
   * entry has one line per quote, so the loader (which needs a first line
   * in every conversation) can read it back exactly when every
   * conversation has a quote.
   */
  function ArchiveOf(cs: seq<Conversation>): (r: seq<seq<SeedLine>>)
    ensures |r| == |cs|
    ensures forall i :: 0 <= i < |cs| ==> |r[i]| == |cs[i].quotes|
  {
    if |cs| == 0 then [] else ArchiveOf(cs[..|cs| - 1]) + [LinesOf(cs[|cs| - 1].quotes)]
  }

  /** Line `j` of a conversation comes from its quote `j`. */
  lemma {:induction false} LinesOfIndex(qs: seq<Quote>, j: int)
    requires 0 <= j < |qs|
    ensures LinesOf(qs)[j] == ExportedLine(qs[j])
    decreases |qs|
  {
    if j < |qs| - 1 {
      LinesOfIndex(qs[..|qs| - 1], j);
    }
  }

  /** Entry `i` of the archive comes from conversation `i`. */
  lemma {:induction false} ArchiveOfIndex(cs: seq<Conversation>, i: int)
    requires 0 <= i < |cs|
    ensures ArchiveOf(cs)[i] == LinesOf(cs[i].quotes)
    decreases |cs|
  {
    if i < |cs| - 1 {
      ArchiveOfIndex(cs[..|cs| - 1], i);
    }
  }

  /**
   * `exportArchive` once the file has been opened and the database read:
   * `created` is the error of `os.Create`, `loaded` the eager query's
   * result, `written` the error of the write. The result is the archive
   * handed to the JSON encoder and the error reported.
   */
  method ExportArchive(created: Option<string>, loaded: Result<seq<Conversation>>, written: Option<string>)
    returns (arc: seq<seq<SeedLine>>, err: Option<string>)
    ensures created.Some? ==> arc == [] && err == created
    ensures created.None? && loaded.Err? ==> arc == [] && err == Some(loaded.msg)
    ensures created.None? && loaded.Ok? ==> arc == ArchiveOf(loaded.value) && err == written
  {
    if created.Some? {
      return [], created;
    }
    if loaded.Err? {
      return [], Some(loaded.msg);
    }
    var conversations := loaded.value;
    arc := [];
    var i := 0;
    while i < |conversations|
      invariant 0 <= i <= |conversations|
      invariant arc == ArchiveOf(conversations[..i])
    {
      var nc := ExportConversation(conversations[i]);
      assert conversations[..i + 1][..i] == conversations[..i];
      arc := arc + [nc];
      i := i + 1;
    }
    assert conversations[..i] == conversations;
    err := written;
  }

  /** The inner loop: one line per quote of the conversation. */
  method ExportConversation(cv: Conversation) returns (nc: seq<SeedLine>)
    ensures nc == LinesOf(cv.quotes)
  {
    nc := [];
    var j := 0;
    while j < |cv.quotes|
      invariant 0 <= j <= |cv.quotes|
      invariant nc == LinesOf(cv.quotes[..j])
    {
      var qt := cv.quotes[j];
      var note := "";
      if qt.annotation.Some? {
        note := qt.annotation.value.note;
      }
      var nq := SeedLine(qt.author.name, qt.phrase, qt.saidOn, FormatBool(qt.publish), note);
      assert cv.quotes[..j + 1][..j] == cv.quotes[..j];
      nc := nc + [nq];
      j := j + 1;
    }
    assert cv.quotes[..j] == cv.quotes;
  }

  /**
   * Reading an exported line back gives the quote's author name, phrase,
   * publish flag and date; the time of day is not written, so the date
   * comes back at midnight.
   */
  lemma ExportedLineReadsBack(q: Quote, prev: Time)
    requires ValidDate(q.saidOn.date) && 0 <= q.saidOn.date.year <= 9999
    ensures var u := ExportedLine(q);
      u.name == q.author.name && u.quote == q.phrase
      && PublishFlag(u.publish) == q.publish
      && UnmarshalTime(prev, MarshalTime(u.date)) == (Time(q.saidOn.date, 0), None)
  {
    PublishFlagOfFormatBool(q.publish);
    UnmarshalMarshalled(prev, q.saidOn);
  }

  /** An exported line carries a note exactly when its quote has an annotation with a non-empty note. */
  lemma ExportedNote(q: Quote)
    ensures |ExportedLine(q).annotation| > 0 <==> q.annotation.Some? && |q.annotation.value.note| > 0
  {
  }

  /**
   * The conversation's own date and flag are not written: re-seeding takes
   * both from its first quote.
   */
  lemma ConversationFieldsFromFirstQuote(cs: seq<Conversation>, i: int)
    requires 0 <= i < |cs| && |cs[i].quotes| > 0
    ensures ArchiveOf(cs)[i][0].date == cs[i].quotes[0].saidOn
    ensures PublishFlag(ArchiveOf(cs)[i][0].publish) == cs[i].quotes[0].publish
  {
    ArchiveOfIndex(cs, i);
    LinesOfIndex(cs[i].quotes, 0);
    PublishFlagOfFormatBool(cs[i].quotes[0].publish);
  }
}
