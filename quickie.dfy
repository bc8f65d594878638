/**
 * The quote-selection engine of actions/quickie.go: the cookies that carry
 * the rotation cursors, the plain and the filtered cursor, the max-age
 * filter, the daily index deck, and the page a conversation is shown on.
 *
 * The package's globals (`filterkey`, `shuffled`, `shuffledday` and the
 * loaded archive `quotes`) are the fields of a `Wall`. The cookies a request
 * brings are a map from name to value; the cookies a handler sets go to a
 * `Response`. JSON marshalling is library code: it enters as the functions
 * of `Json`, with the laws the proofs need.
 */
module Quickie {
  import opened Common
  import opened Calendar
  import opened CookieCodec
  import opened Rotation
  import Random
  import Numbers
  import Records

  /** The cookie that carries the plain rotation cursor. */
  const NextQuote: string := "NextQuote"
  /** The cookie that carries the filtered list and its cursor. */
  const FilteredListCookie: string := "FilteredList"
  /** The query parameter of the max-age filter. */
  const MaxAgeKey: string := "max-age"
  const Title: string := "Quote Wall Quickie"

  /** `nextQuoteBlob`: the cursor, hidden between two UUID strings. */
  datatype NextQuoteBlob = NextQuoteBlob(frontJunk: string, nextQuote: int, backJunk: string)

  /** `filteredlist`: the conversations that pass the filter, a cursor into them, and the filter's age in days. */
  datatype FilteredList = FilteredList(cursor: int, daysOld: int, list: seq<int>)

  /** `utterancestype`: one line of a conversation as the archive and the page hold it. */
  datatype Utterance = Utterance(name: string, quote: string, date: string, publish: string)

  /** `pageParams`. */
  datatype PageParams = PageParams(datestr: string, title: string, quoteShare: int, conversation: seq<Utterance>, errorMsg: string)

  /** `json.Marshal` and `json.Unmarshal` on the two cookie payloads. */
  datatype Json = Json(
    marshalBlob: NextQuoteBlob -> Bytes,
    /** Unmarshalling the bytes of a cookie's text; `None` when Unmarshal reports an error. */
    unmarshalBlob: string -> Option<NextQuoteBlob>,
    marshalList: FilteredList -> Bytes,
    unmarshalList: Bytes -> Option<FilteredList>)

  /** A filtered list survives marshalling. */
  ghost predicate ListRoundTrip(j: Json) {
    forall l :: j.unmarshalList(j.marshalList(l)) == Some(l)
  }

  /**
   * JSON text with no `{` holds no object, so it sets no field: Unmarshal
   * refuses it, or (for `null`) leaves the zero value.
   */
  ghost predicate BlobNeedsObject(j: Json) {
    forall s :: '{' !in s ==> j.unmarshalBlob(s).None? || j.unmarshalBlob(s).value.nextQuote == 0
  }

  /** Empty input is not JSON. */
  ghost predicate EmptyListRefused(j: Json) {
    j.unmarshalList([]) == None
  }

  // ---------------------------------------------------------------
  // Keys and cookies
  // ---------------------------------------------------------------

  /** The key chosen when none is set: a fresh UUID's 16 bytes, or the fallback when marshalling it failed. */
  function FreshKey(marshalled: Option<Block>): Bytes {
    if marshalled.Some? then marshalled.value else FallbackKey
  }

  /** Only a UUID's bytes make a key AES accepts; with the fallback key every cookie is sealed to "". */
  lemma FreshKeyValidIff(marshalled: Option<Block>)
    ensures ValidAesKey(FreshKey(marshalled)) <==> marshalled.Some?
  {
    FallbackKeyRejected();
  }

  /** The value `saveCookie` and `saveFilter` write: the sealed text, or "" when `encrypt` fails. */
  function SealedText(p: Primitives, key: Bytes, plain: Bytes, iv: Block): (s: string)
    ensures !ValidAesKey(key) ==> s == ""
  {
    if ValidAesKey(key) then p.b64Encode(Seal(p, key, iv, plain)) else ""
  }

  /** The cookies a handler sets, by name; a later value for a name replaces the earlier. */
  class Response {
    var cookies: map<string, string>

    constructor()
      ensures cookies == map[]
    {
      cookies := map[];
    }

    method SetCookie(name: string, value: string)
      modifies this
      ensures cookies == old(cookies)[name := value]
    {
      cookies := cookies[name := value];
    }
  }

  /**
   * `nextQuoteCookie`: the cursor JSON-decoded from the cookie's raw text,
   * without decrypting it; 0 when the cookie is missing or does not decode.
   */
  function NextQuoteCookie(cookies: map<string, string>, j: Json): int {
    if NextQuote !in cookies then 0
    else match j.unmarshalBlob(cookies[NextQuote])
      case None => 0
      case Some(blob) => blob.nextQuote
  }

  /**
   * The cursor cookie the wall writes is sealed, and sealed text is base64,
   * which has no `{`: read back, it always gives 0, so every request starts
   * the plain rotation at a random position.
   */
  lemma SealedNextQuoteReadsZero(p: Primitives, j: Json, key: Bytes, plain: Bytes, iv: Block, cookies: map<string, string>)
    requires Base64Alphabet(p) && BlobNeedsObject(j)
    ensures NextQuoteCookie(cookies[NextQuote := SealedText(p, key, plain, iv)], j) == 0
  {
    if ValidAesKey(key) {
      var text := p.b64Encode(Seal(p, key, iv, plain));
      forall i | 0 <= i < |text|
        ensures text[i] != '{'
      {
        assert UrlSafe(text[i]);
      }
    }
  }

  /**
   * `filterCookie`: the filtered list from the `FilteredList` cookie,
   * decrypted with the filter key and JSON-decoded; `None` when the cookie is
   * missing, fails to decrypt or does not decode.
   */
  function FilterCookie(p: Primitives, j: Json, key: Bytes, cookies: map<string, string>): (r: Option<FilteredList>)
    requires FilteredListCookie in cookies ==> DecryptDefined(p, key, cookies[FilteredListCookie])
    ensures r.Some? ==> FilteredListCookie in cookies && ValidAesKey(key)
  {
    if FilteredListCookie !in cookies then None
    else match Decrypt(p, key, cookies[FilteredListCookie])
      case Err(_) => None
      case Ok(plain) => j.unmarshalList(plain)
  }

  /** A list the wall sealed into the cookie is read back exactly, under the same valid key. */
  lemma FilterCookieRoundTrip(p: Primitives, j: Json, key: Bytes, l: FilteredList, iv: Block, cookies: map<string, string>)
    requires Base64RoundTrip(p) && ListRoundTrip(j) && ValidAesKey(key)
    ensures var c := cookies[FilteredListCookie := SealedText(p, key, j.marshalList(l), iv)];
      DecryptDefined(p, key, c[FilteredListCookie]) && FilterCookie(p, j, key, c) == Some(l)
  {
    DecryptSeal(p, key, iv, j.marshalList(l));
  }

  /** A cookie too short to hold an IV opens to no bytes, which are not JSON. */
  lemma ShortFilterCookieRefused(p: Primitives, j: Json, key: Bytes, cookies: map<string, string>)
    requires EmptyListRefused(j) && ValidAesKey(key)
    requires FilteredListCookie in cookies && |p.b64Decode(cookies[FilteredListCookie])| < BlockSize
    ensures FilterCookie(p, j, key, cookies) == None
  {
    DecryptShortText(p, key, cookies[FilteredListCookie]);
  }

  // ---------------------------------------------------------------
  // Cursors
  // ---------------------------------------------------------------

  /** The cursor step of `pickQuote` and `pickFromFilterList`: one on, back to 0 at the end. */
  function Advance(i: int, n: int): (k: int)
    ensures k == 0 || k == i + 1
    ensures -1 <= i && n > 0 ==> 0 <= k < n
    ensures i + 1 < n ==> k == i + 1
    ensures i + 1 >= n ==> k == 0
  {
    if i + 1 >= n then 0 else i + 1
  }

  /** The cursor after `k` steps. */
  function AdvanceTimes(i: int, n: int, k: nat): int
    decreases k
  {
    if k == 0 then i else Advance(AdvanceTimes(i, n, k - 1), n)
  }

  /**
   * From any position in range, `k` steps (at most a full round) move `k`
   * places on, wrapping once past the end.
   */
  lemma {:induction false} AdvanceTimesWraps(i: int, n: int, k: nat)
    requires 0 <= i < n && k <= n
    ensures AdvanceTimes(i, n, k) == if i + k < n then i + k else i + k - n
    decreases k
  {
    if k > 0 {
      AdvanceTimesWraps(i, n, k - 1);
    }
  }

  /** A round of `n` steps visits `n` distinct positions of the list, so all of them, and comes back. */
  lemma AdvanceVisitsAll(i: int, n: int)
    requires 0 <= i < n
    ensures AdvanceTimes(i, n, n) == i
    ensures forall k :: 0 <= k < n ==> 0 <= AdvanceTimes(i, n, k) < n
    ensures forall k, k' :: 0 <= k < k' < n ==> AdvanceTimes(i, n, k) != AdvanceTimes(i, n, k')
  {
    AdvanceTimesWraps(i, n, n);
    forall k | 0 <= k < n
      ensures AdvanceTimes(i, n, k) == if i + k < n then i + k else i + k - n
    {
      AdvanceTimesWraps(i, n, k);
    }
  }

  // ---------------------------------------------------------------
  // The max-age parameter
  // ---------------------------------------------------------------

  /**
   * `maxAgeParam`: the first `max-age` value of the query as an integer,
   * with negative values raised to 0; `false` when the parameter is absent
   * or is not an integer.
   */
  function MaxAgeParam(query: map<string, seq<string>>): (r: (int, bool))
    requires MaxAgeKey in query ==> |query[MaxAgeKey]| > 0
    ensures r.0 >= 0
  {
    if MaxAgeKey !in query then (0, false)
    else match Numbers.Atoi(query[MaxAgeKey][0])
      case None => (0, false)
      case Some(n) => if n < 0 then (0, true) else (n, true)
  }

  /**
   * The filter is on exactly when the first value is an integer; then a
   * non-negative value is taken as it is and a negative one as 0.
   */
  lemma MaxAgeParamSpec(query: map<string, seq<string>>)
    requires MaxAgeKey in query ==> |query[MaxAgeKey]| > 0
    ensures var (days, on) := MaxAgeParam(query);
      (on <==> MaxAgeKey in query && Numbers.Atoi(query[MaxAgeKey][0]).Some?)
      && (!on ==> days == 0)
      && (on && Numbers.Atoi(query[MaxAgeKey][0]).value >= 0 ==> days == Numbers.Atoi(query[MaxAgeKey][0]).value)
      && (on && Numbers.Atoi(query[MaxAgeKey][0]).value < 0 ==> days == 0)
  {
  }

  /** A query written with `?max-age=<n>` gives `n` back, for every `int` value. */
  lemma MaxAgeParamOfPrinted(n: int, query: map<string, seq<string>>)
    requires Numbers.MinInt64 <= n <= Numbers.MaxInt64
    ensures MaxAgeParam(query[MaxAgeKey := [Numbers.IntToString(n)]]) == (if n < 0 then 0 else n, true)
  {
    Numbers.AtoiIntToString(n);
  }

  // ---------------------------------------------------------------
  // The age filter
  // ---------------------------------------------------------------

  /** `time.Now().AddDate(0, 0, -maxdays)`. */
  function Cutoff(now: Time, maxdays: int): Time
    requires ValidTime(now)
  {
    AddCalendarDays(now, -maxdays)
  }

  /**
   * The test `applyAgeFilter` makes of a conversation's first line: its date
   * parses as M/D/YYYY, midnight of that date is not before the cutoff, and
   * it is marked `True`.
   */
  predicate Recent(u: Utterance, cutoff: Time) {
    ParseMonthDayYear(u.date).Some?
    && !Before(Time(ParseMonthDayYear(u.date).value, 0), cutoff)
    && u.publish == "True"
  }

  /** The test on an index, where the archive has that conversation and it has a first line. */
  function Keeper(archive: seq<seq<Utterance>>, cutoff: Time): int -> bool {
    k => 0 <= k < |archive| && |archive[k]| > 0 && Recent(archive[k][0], cutoff)
  }

  /** The indexes of `initList` that pass, in order. */
  function Eligible(archive: seq<seq<Utterance>>, initList: seq<int>, cutoff: Time): seq<int> {
    Filter(initList, Keeper(archive, cutoff))
  }

  /** What `applyAgeFilter` returns when its draws start at position `next`. */
  function AgeFiltered(archive: seq<seq<Utterance>>, initList: seq<int>, maxdays: int, now: Time, source: nat -> nat, next: nat): FilteredList
    requires ValidTime(now)
  {
    var e := Eligible(archive, initList, Cutoff(now, maxdays));
    FilteredList(0, maxdays, if |e| == 0 then [] else SwapRounds(e, source, next, |e|))
  }

  /**
   * The filtered list holds exactly the passing entries of `initList`, each
   * as often as there: the scrambling only reorders them. The cursor starts
   * at 0 and the list records its age.
   */
  lemma AgeFilteredSpec(archive: seq<seq<Utterance>>, initList: seq<int>, maxdays: int, now: Time, source: nat -> nat, next: nat)
    requires ValidTime(now)
    requires forall k :: 0 <= k < |initList| ==> 0 <= initList[k] < |archive| && |archive[initList[k]]| > 0
    ensures var r := AgeFiltered(archive, initList, maxdays, now, source, next);
      var e := Eligible(archive, initList, Cutoff(now, maxdays));
      r.cursor == 0 && r.daysOld == maxdays
      && multiset(r.list) == multiset(e)
      && forall x :: x in r.list <==> x in initList && Recent(archive[x][0], Cutoff(now, maxdays))
  {
    var cutoff := Cutoff(now, maxdays);
    var e := Eligible(archive, initList, cutoff);
    var r := AgeFiltered(archive, initList, maxdays, now, source, next);
    if |e| > 0 {
      SwapRoundsPreservesMultiset(e, source, next, |e|);
    }
    forall x
      ensures x in r.list <==> x in initList && Recent(archive[x][0], cutoff)
    {
      assert x in r.list <==> x in multiset(r.list);
      assert x in e <==> x in multiset(e);
      if x in initList && Recent(archive[x][0], cutoff) {
        var k :| 0 <= k < |initList| && initList[k] == x;
        assert Keeper(archive, cutoff)(initList[k]);
      }
    }
  }

  /**
   * The swap loop of `applyAgeFilter`: as many transpositions as the list
   * has entries, each between the positions of the next two draws.
   */
  method Scramble(list: seq<int>, rng: Random.Rng) returns (r: seq<int>)
    modifies rng
    ensures rng.calls == old(rng.calls) + 2 * |list|
    ensures r == if |list| == 0 then [] else SwapRounds(list, rng.source, old(rng.calls), |list|)
  {
    r := list;
    var j := |list|;
    ghost var c0 := rng.calls;
    var i := 0;
    while i < j
      invariant 0 <= i <= j && |r| == j
      invariant rng.calls == c0 + 2 * i
      invariant j > 0 ==> r == SwapRounds(list, rng.source, c0, i)
    {
      SwapRoundsSnoc(list, rng.source, c0, i);
      var a := rng.Intn(j);
      var b := rng.Intn(j);
      r := Swap(r, a, b);
      i := i + 1;
    }
  }

  /** The deck `shuffle` deals: the identity, then `SwapCount` transpositions. */
  method Deal(size: int, rng: Random.Rng) returns (deck: array<int>)
    requires size > 0
    modifies rng
    ensures fresh(deck) && deck[..] == Dealt(size, rng.source, old(rng.calls))
    ensures rng.calls == old(rng.calls) + 2 * SwapCount
  {
    deck := IdentityDeck(size);
    SwapLoop(deck, rng, SwapCount);
  }

  /** The second loop of `shuffle`, for `rounds` transpositions. */
  method SwapLoop(deck: array<int>, rng: Random.Rng, rounds: nat)
    requires deck.Length > 0
    modifies deck, rng
    ensures deck[..] == SwapRounds(old(deck[..]), rng.source, old(rng.calls), rounds)
    ensures rng.calls == old(rng.calls) + 2 * rounds
  {
    ghost var start, c0 := deck[..], rng.calls;
    var i := 0;
    while i < rounds
      invariant 0 <= i <= rounds
      invariant rng.calls == c0 + 2 * i
      invariant deck[..] == SwapRounds(start, rng.source, c0, i)
    {
      SwapRoundsSnoc(start, rng.source, c0, i);
      var a := rng.Intn(deck.Length);
      var b := rng.Intn(deck.Length);
      SwapEntries(deck, a, b);
      i := i + 1;
    }
  }

  /** The first loop of `shuffle`: a new deck holding 0..size-1. */
  method IdentityDeck(size: nat) returns (deck: array<int>)
    ensures fresh(deck) && deck[..] == Identity(size)
  {
    deck := new int[size];
    var i := 0;
    while i < size
      invariant 0 <= i <= size
      invariant forall k :: 0 <= k < i ==> deck[k] == k
    {
      deck[i] := i;
      i := i + 1;
    }
  }

  /** `shuffled[a], shuffled[b] = shuffled[b], shuffled[a]`. */
  method SwapEntries(deck: array<int>, a: int, b: int)
    requires 0 <= a < deck.Length && 0 <= b < deck.Length
    modifies deck
    ensures deck[..] == Swap(old(deck[..]), a, b)
  {
    deck[a], deck[b] := deck[b], deck[a];
  }

  // ---------------------------------------------------------------
  // The page
  // ---------------------------------------------------------------

  /** The line shown for a quote: speaker, phrase and "Jan 2, 2006" date; `Publish` is left empty. */
  function Shown(q: Records.Quote): Utterance
    requires ValidDate(q.saidOn.date)
  {
    Utterance(q.author.name, q.phrase, FormatDisplay(q.saidOn.date), "")
  }

  const BlankLine: Utterance := Utterance("", "", "", "")

  /** The `n` zero-valued lines `make([]utterancestype, n)` creates. */
  function Blanks(n: nat): (s: seq<Utterance>)
    ensures |s| == n && forall k :: 0 <= k < n ==> s[k] == BlankLine
  {
    if n == 0 then [] else Blanks(n - 1) + [BlankLine]
  }

  /**
   * `prepareConv`. `datestr` is the clock's text. The list is made with one
   * empty line per quote and the shown lines are appended after them, so
   * the page has twice as many lines as quotes, and `QuoteShare` divides 80
   * by that doubled count. A conversation without quotes divides by zero.
   */
  method PrepareConv(conv: Records.Conversation, datestr: string) returns (page: PageParams)
    requires |conv.quotes| > 0
    requires forall k :: 0 <= k < |conv.quotes| ==> ValidDate(conv.quotes[k].saidOn.date)
    ensures page.datestr == datestr && page.title == Title && page.errorMsg == ""
    ensures |page.conversation| == 2 * |conv.quotes|
    ensures forall k :: 0 <= k < |conv.quotes| ==> page.conversation[k] == BlankLine
    ensures forall k :: 0 <= k < |conv.quotes| ==> page.conversation[|conv.quotes| + k] == Shown(conv.quotes[k])
    ensures page.quoteShare == 80 / (2 * |conv.quotes|)
  {
    var n := |conv.quotes|;
    var lines := Blanks(n);
    var i := 0;
    while i < n
      invariant 0 <= i <= n
      invariant LinesSoFar(lines, conv.quotes, i)
    {
      var line := Shown(conv.quotes[i]);
      LinesGrow(lines, conv.quotes, i);
      lines := lines + [line];
      i := i + 1;
    }
    page := PageParams(datestr, Title, 80 / |lines|, lines, "");
  }

  /** The page lines after `i` rounds of the loop in `prepareConv`. */
  predicate LinesSoFar(lines: seq<Utterance>, qs: seq<Records.Quote>, i: nat)
    requires i <= |qs|
    requires forall k :: 0 <= k < |qs| ==> ValidDate(qs[k].saidOn.date)
  {
    |lines| == |qs| + i
    && (forall k :: 0 <= k < |qs| ==> lines[k] == BlankLine)
    && forall k :: 0 <= k < i ==> lines[|qs| + k] == Shown(qs[k])
  }

  lemma LinesGrow(lines: seq<Utterance>, qs: seq<Records.Quote>, i: nat)
    requires i < |qs|
    requires forall k :: 0 <= k < |qs| ==> ValidDate(qs[k].saidOn.date)
    requires LinesSoFar(lines, qs, i)
    ensures LinesSoFar(lines + [Shown(qs[i])], qs, i + 1)
  {
    var next := lines + [Shown(qs[i])];
    assert next[|qs| + i] == Shown(qs[i]);
    assert forall k :: 0 <= k < |lines| ==> next[k] == lines[k];
  }

  // ---------------------------------------------------------------
  // The wall's state
  // ---------------------------------------------------------------

  class Wall {
    const p: Primitives
    const json: Json
    /** `filterkey`: the key that seals the cookies; empty until first set. */
    var filterKey: Bytes
    /** `shuffled`: the index deck. */
    var shuffled: array<int>
    /** `shuffledday`: when the deck was last dealt. */
    var shuffledDay: Time
    /** `quotes`: the loaded archive, one sequence of lines per conversation. */
    var archive: seq<seq<Utterance>>

    constructor(p: Primitives, json: Json, archive: seq<seq<Utterance>>)
      ensures this.p == p && this.json == json && this.archive == archive
      ensures filterKey == [] && shuffled.Length == 0 && shuffledDay == ZeroTime
    {
      this.p := p;
      this.json := json;
      this.archive := archive;
      filterKey := [];
      shuffled := new int[0];
      shuffledDay := ZeroTime;
    }

    /** Every deck entry names a conversation of the archive. */
    predicate DeckFits()
      reads this, shuffled
    {
      forall k :: 0 <= k < shuffled.Length ==> 0 <= shuffled[k] < |archive|
    }

    /** Every conversation of the archive has a first line. */
    predicate ArchiveNonEmpty()
      reads this
    {
      forall c :: 0 <= c < |archive| ==> |archive[c]| > 0
    }

    /** The key setup of `QuickieQuote`: a key is chosen only when none is set. */
    method InitFilterKey(marshalled: Option<Block>)
      modifies this
      ensures filterKey == if |old(filterKey)| == 0 then FreshKey(marshalled) else old(filterKey)
      ensures shuffled == old(shuffled) && shuffledDay == old(shuffledDay) && archive == old(archive)
    {
      if |filterKey| == 0 {
        filterKey := FreshKey(marshalled);
      }
    }

    /** `saveCookie`: `plain` (the marshalled payload) sealed under the filter key. */
    method SaveCookie(name: string, plain: Bytes, iv: Block, resp: Response)
      modifies resp
      ensures resp.cookies == old(resp.cookies)[name := SealedText(p, filterKey, plain, iv)]
    {
      var sealed := Encrypt(p, filterKey, plain, iv);
      var value := if sealed.Ok? then sealed.value else "";
      resp.SetCookie(name, value);
    }

    /** `saveNextQuoteCookie`: the cursor between two fresh UUID strings. */
    method SaveNextQuoteCookie(nextIndex: int, front: string, back: string, iv: Block, resp: Response)
      modifies resp
      ensures resp.cookies == old(resp.cookies)[NextQuote :=
        SealedText(p, filterKey, json.marshalBlob(NextQuoteBlob(front, nextIndex, back)), iv)]
    {
      var blob := NextQuoteBlob(front, nextIndex, back);
      SaveCookie(NextQuote, json.marshalBlob(blob), iv, resp);
    }

    /** `saveFilter`: the list sealed into the `FilteredList` cookie. */
    method SaveFilter(l: FilteredList, iv: Block, resp: Response)
      modifies resp
      ensures resp.cookies == old(resp.cookies)[FilteredListCookie := SealedText(p, filterKey, json.marshalList(l), iv)]
    {
      var sealed := Encrypt(p, filterKey, json.marshalList(l), iv);
      resp.SetCookie(FilteredListCookie, if sealed.Ok? then sealed.value else "");
    }

    /**
     * `pickQuote`. A cookie cursor of 0 is replaced by a random position in
     * [0, Size). `lookup` is the query for the shuffled conversation at a
     * position; its error is returned and no cookie is saved. Otherwise the
     * cursor, one on and back to 0 at `Size`, is saved.
     */
    method PickQuote(cookies: map<string, string>, shuffle: ShuffleData, rng: Random.Rng,
                     lookup: int -> Result<Records.Uuid>, front: string, back: string, iv: Block, resp: Response)
      returns (r: Result<Records.Uuid>)
      requires NextQuoteCookie(cookies, json) == 0 ==> shuffle.size > 0
      modifies rng, resp
      ensures var start := NextQuoteCookie(cookies, json);
        var index := if start == 0 then Random.Rng.Draw(rng.source, old(rng.calls), shuffle.size) else start;
        r == lookup(index)
        && rng.calls == old(rng.calls) + (if start == 0 then 1 else 0)
        && (r.Err? ==> resp.cookies == old(resp.cookies))
        && (r.Ok? ==> resp.cookies == old(resp.cookies)[NextQuote :=
              SealedText(p, filterKey, json.marshalBlob(NextQuoteBlob(front, Advance(index, shuffle.size), back)), iv)])
    {
      var index := NextQuoteCookie(cookies, json);
      if index == 0 {
        index := rng.Intn(shuffle.size);
      }
      r := lookup(index);
      if r.Err? {
        return;
      }
      index := index + 1;
      if index >= shuffle.size {
        index := 0;
      }
      SaveNextQuoteCookie(index, front, back, iv, resp);
    }

    /**
     * `pickFromFilterList`. An empty list yields no quote and saves nothing
     * (the error page is not modelled); otherwise the entry at the cursor is
     * returned and the list is saved with the cursor one on, back to 0 at the
     * end. A cursor outside the list is an index panic.
     */
    method PickFromFilterList(l: FilteredList, iv: Block, resp: Response) returns (index: int, valid: bool)
      requires |l.list| > 0 ==> 0 <= l.cursor < |l.list|
      modifies resp
      ensures |l.list| == 0 ==> index == 0 && !valid && resp.cookies == old(resp.cookies)
      ensures |l.list| > 0 ==> (valid && index == l.list[l.cursor]
        && resp.cookies == old(resp.cookies)[FilteredListCookie :=
             SealedText(p, filterKey, json.marshalList(l.(cursor := Advance(l.cursor, |l.list|))), iv)])
    {
      if |l.list| == 0 {
        return 0, false;
      }
      index := l.list[l.cursor];
      var cur := l.(cursor := l.cursor + 1);
      if cur.cursor >= |cur.list| {
        cur := cur.(cursor := 0);
      }
      SaveFilter(cur, iv, resp);
      valid := true;
    }

    /**
     * `applyAgeFilter`: the entries of `initList` whose conversation passes
     * `Recent`, appended in order, then scrambled by as many random
     * transpositions as there are entries.
     */
    method ApplyAgeFilter(initList: seq<int>, maxdays: int, now: Time, rng: Random.Rng) returns (r: FilteredList)
      requires ValidTime(now)
      requires forall k :: 0 <= k < |initList| ==> 0 <= initList[k] < |archive| && |archive[initList[k]]| > 0
      modifies rng
      ensures r == AgeFiltered(archive, initList, maxdays, now, rng.source, old(rng.calls))
      ensures rng.calls == old(rng.calls) + 2 * |Eligible(archive, initList, Cutoff(now, maxdays))|
    {
      var cutoff := Cutoff(now, maxdays);
      var list := CollectRecent(initList, cutoff);
      list := Scramble(list, rng);
      r := FilteredList(0, maxdays, list);
    }

    /** The append loop of `applyAgeFilter`. */
    method CollectRecent(initList: seq<int>, cutoff: Time) returns (list: seq<int>)
      requires forall k :: 0 <= k < |initList| ==> 0 <= initList[k] < |archive| && |archive[initList[k]]| > 0
      ensures list == Eligible(archive, initList, cutoff)
    {
      var conversations := archive;
      var keep := Keeper(conversations, cutoff);
      list := [];
      var i := 0;
      while i < |initList|
        invariant 0 <= i <= |initList|
        invariant list == Filter(initList[..i], keep)
      {
        var index := initList[i];
        FilterPrefix(initList, i, keep);
        var first := conversations[index][0];
        var date := ParseMonthDayYear(first.date);
        assert keep(index) == Recent(first, cutoff);
        if date.Some? {
          if !Before(Time(date.value, 0), cutoff) && first.publish == "True" {
            list := list + [index];
          }
        }
        i := i + 1;
      }
      assert initList[..|initList|] == initList;
    }

    /**
     * `maxAgeFilter`. Without a usable `max-age` there is no filter. With
     * one, the list from the cookie is kept only when it decodes and was
     * built for the same age; otherwise a new list is built from the deck.
     */
    method MaxAgeFilter(query: map<string, seq<string>>, cookies: map<string, string>, now: Time, rng: Random.Rng)
      returns (r: FilteredList, valid: bool)
      requires ValidTime(now)
      requires MaxAgeKey in query ==> |query[MaxAgeKey]| > 0
      requires MaxAgeParam(query).1 ==>
        forall k :: 0 <= k < shuffled.Length ==> 0 <= shuffled[k] < |archive| && |archive[shuffled[k]]| > 0
      requires MaxAgeParam(query).1 && FilteredListCookie in cookies ==>
        DecryptDefined(p, filterKey, cookies[FilteredListCookie])
      modifies rng
      ensures var (maxdays, on) := MaxAgeParam(query);
        (!on ==> r == FilteredList(0, 0, []) && !valid && rng.calls == old(rng.calls))
        && (on ==>
              var saved := FilterCookie(p, json, filterKey, cookies);
              (saved.Some? && saved.value.daysOld == maxdays ==>
                 r == saved.value && valid && rng.calls == old(rng.calls))
              && (!(saved.Some? && saved.value.daysOld == maxdays) ==>
                 valid && r == AgeFiltered(archive, shuffled[..], maxdays, now, rng.source, old(rng.calls))
                 && rng.calls == old(rng.calls) + 2 * |Eligible(archive, shuffled[..], Cutoff(now, maxdays))|))
    {
      var (maxdays, on) := MaxAgeParam(query);
      if !on {
        return FilteredList(0, 0, []), false;
      }
      var saved := FilterCookie(p, json, filterKey, cookies);
      if saved.None? || saved.value.daysOld != maxdays {
        r := ApplyAgeFilter(shuffled[..], maxdays, now, rng);
        return r, true;
      }
      return saved.value, true;
    }

    /**
     * `shuffle(size)`: the deck is made anew holding 0..size-1, then 10000
     * transpositions are made, each between the positions of the next two
     * draws. `rng` stands for the generator as `rand.Seed` left it. A size
     * of 0 makes `rand.Intn` panic.
     */
    method Shuffle(size: int, rng: Random.Rng)
      requires size > 0
      modifies this, rng
      ensures fresh(shuffled) && shuffled[..] == Dealt(size, rng.source, old(rng.calls))
      ensures rng.calls == old(rng.calls) + 2 * SwapCount
      ensures filterKey == old(filterKey) && shuffledDay == old(shuffledDay) && archive == old(archive)
    {
      shuffled := Deal(size, rng);
    }

    /**
     * `checkShuffle`: when the day of the month differs from the last deal's,
     * the deck is dealt again for the archive's size, the deal is dated now,
     * and a new filter key is chosen (so cookies sealed under the old key no
     * longer open).
     */
    method CheckShuffle(now: Time, rng: Random.Rng, marshalled: Option<Block>)
      requires DeckStale(shuffledDay, now) ==> |archive| > 0
      modifies this, rng
      ensures archive == old(archive)
      ensures !DeckStale(old(shuffledDay), now) ==> (shuffled == old(shuffled) && filterKey == old(filterKey)
        && shuffledDay == old(shuffledDay) && rng.calls == old(rng.calls))
      ensures DeckStale(old(shuffledDay), now) ==> (fresh(shuffled) && shuffled[..] == Dealt(|archive|, rng.source, old(rng.calls))
        && rng.calls == old(rng.calls) + 2 * SwapCount
        && shuffledDay == now && filterKey == FreshKey(marshalled))
    {
      var stale := DeckStale(shuffledDay, now);
      if stale {
        Shuffle(|archive|, rng);
        ghost var dealt := shuffled[..];
        shuffledDay := now;
        filterKey := FreshKey(marshalled);
        assert shuffled[..] == dealt;
      }
    }
  }

  /**
   * A freshly dealt deck is a permutation of the archive's positions, so it
   * fits the archive, names every conversation, and is not stale on the day
   * it was dealt.
   */
  lemma DealtDeckFits(w: Wall, size: nat, source: nat -> nat, next: nat, now: Time)
    requires size > 0 && size == |w.archive| && w.shuffled[..] == Dealt(size, source, next)
    requires w.shuffledDay == now
    ensures w.DeckFits() && !DeckStale(w.shuffledDay, now)
    ensures forall c :: 0 <= c < |w.archive| ==> c in w.shuffled[..]
  {
    DealtIsPermutation(size, source, next);
    PermutationCoversRange(w.shuffled[..], size);
    forall k | 0 <= k < w.shuffled.Length
      ensures 0 <= w.shuffled[k] < |w.archive|
    {
      assert w.shuffled[k] == w.shuffled[..][k];
    }
  }
}
