# quotewall in Dafny

A model of the core of *quotewall*, a Buffalo web application that keeps an
archive of remembered conversations (quotes, their speakers and optional
annotations) and shows one conversation at a time on a "quote wall"
page. The model covers:

- **The quote wall handler** (`actions/quickie.go`). It keeps a deck: the
  archive's conversations, shuffled once a day. The plain rotation moves a
  cursor through that deck. The optional `max-age` filter keeps a list of
  recent, published conversations in a cookie. Both cookies are sealed:
  base64 of IV ‖ AES-CFB(payload ‖ SHA-256(payload)).
- **The models** (`models/*.go`): validation of annotations, authors,
  quotes and conversations. Also the lookups (`FindByNote`, `FindByID`,
  `FindByName`), the create and update rules, and the conversation
  transaction with its "NoErr" rollback sentinel.
- **The `db:seed` loader** (`grifts/loader.go`): the `M/D/YYYY` date
  codec, the publish flag, the author cache, and find-or-create of
  authors and annotations. It seeds one conversation row per archive
  entry and one quote row per line.
- **The `db:export` task** (`grifts/export.go`): the database turned back
  into the loader's line format.
- **The `user:add` and `user:rmv` tasks** (`grifts/user.go`): `key:value`
  arguments and the required-field checks.

## How it is laid out

One module per file:

| File | Contents |
|---|---|
| `common.dfy` | `Option`, `Result`, bytes, and the `Filter` of query results |
| `text.dfy`, `numbers.dfy`, `calendar.dfy` | The Go library functions the core relies on: `strings.Split`, `strings.TrimSpace`, `strconv.Atoi`/`Itoa`, civil dates, `time.Parse`/`Format` in the two layouts used, `YearDay` |
| `records.dfy` | The model structs, UUID text, and the gobuffalo validators as sets of violations |
| `store.dfy` | The database as a class: tables, a supply of fresh UUIDs, and one answer per statement |
| `models.dfy` | The model operations |
| `cookie_codec.dfy` | `encrypt` and `decrypt`. CFB is defined over an arbitrary block function, so its round trip is proved rather than assumed |
| `random.dfy` | `math/rand` as a class over a fixed sequence of draws |
| `rotation.dfy` | The deck, the shuffle's transpositions, `shuffleCurrent` and `getShuffleData` |
| `quickie.dfy` | The handler's global state as the class `Wall`, plus cookies, filters and the page |
| `loader.dfy`, `export.dfy`, `user.dfy` | The grift tasks |

Library calls whose behaviour is outside the model are function-valued
parameters. Their laws ("base64 decoding undoes encoding", "JSON
unmarshalling undoes marshalling") are stated as predicates and required
where a proof needs them. These calls are AES's block function, SHA-256,
base64, `encoding/json`, `url.PathEscape`, the database's answers, and the
clock. State the sources update in place is modelled as a class with
`modifies` clauses: `Seeder`, `CustomTime`, `Wall`, `Db`, `Rng` and the
response's cookie jar. Everything else is modelled as values.

In a few places the code behaves differently from what its comments and
the project's description of it suggest. The model follows the code:

- `checkShuffle` compares the day of the month, not the date.
- `shuffleCurrent` compares the day-of-year number only. A shuffle made
  on a day of an earlier year with the same number counts as current.
  Across a leap day that is not the same date: 2024-02-29 and 2023-03-01
  are both day 60.
- `getShuffleData` looks the shuffle data up in the session under a newly
  allocated pointer (`&ShuffleData{}`), so the lookup never finds what an
  earlier request stored. Every request therefore reshuffles at least
  once. The model keeps the session as a parameter; the source always
  takes its `None` branch (`Rotation.MissingSessionReshuffles`).
- `nextQuoteCookie` reads the cursor cookie without decrypting it. The
  wall writes that cookie sealed, and sealed text has no `{`, so the
  cursor read back is always 0. Every request therefore starts the
  rotation at a random position.
- `prepareConv` creates as many empty lines as there are quotes and then
  appends the shown lines, so the page has twice as many lines.
- `Conversation.Update` calls `Quote.Create` in both branches, so the
  quotes are inserted again.

## Model

| member | source | states |
|---|---|---|
| Common.Filter | models/author.go:82-84 | Query rows: at most the input, every row in the input and satisfying the condition, and every satisfying input element present |
| Common.FilterFirst | models/author.go:94 | The first row of a query equals the first element that satisfies the condition, and no earlier element satisfies it |
| Text.SplitJoin | grifts/user.go:41 | Joining the pieces of `strings.Split` with the separator gives the argument back |
| Text.SplitPiecesLackSeparator | grifts/user.go:41 | No piece of a split holds the separator |
| Text.SplitAfterPiece | grifts/user.go:41-43 | `a:b` with no ':' in `a` splits into `a` followed by the pieces of `b` |
| Text.TrimSpaceEmptyIff | models/author.go:53 | Trimmed text is empty exactly when every character is white space |
| Text.Lower | grifts/loader.go:138 | Lower-casing keeps the length and maps each character |
| Numbers.AtoiIntToString | actions/quickie.go:664-683 | `strconv.Atoi` reads back what `strconv.Itoa` prints, over the whole 64-bit range |
| Numbers.AtoiRejectsNonDigit | actions/quickie.go:664-683 | A text with a non-digit after its first character does not parse |
| Numbers.Atoi | actions/quickie.go:664-683 | A parsed value lies in the 64-bit range and its text holds a digit |
| Calendar.ParseFormatMonthDayYear | grifts/loader.go:52-64 | Parsing a date printed in the `1/2/2006` layout gives it back, for every four-digit year |
| Calendar.ParseMonthDayYear | grifts/loader.go:52 | An accepted text gives a valid date with a year of at most four digits |
| Calendar.ParsedHasThreeParts | grifts/loader.go:46-52 | A text `time.Parse` accepts splits on '/' into exactly three fields |
| Calendar.SplitFormatted | grifts/loader.go:61-65 | A formatted date splits on '/' into month, day and year |
| Calendar.NextPrev | actions/quickie.go:320-338 | The next day and the previous day are inverse |
| Calendar.YearDayOfNextDay | actions/quickie.go:324 | Consecutive days never share a day-of-year number |
| Calendar.YearDay | actions/quickie.go:324 | The day of the year lies between 1 and 365 (366 in a leap year) |
| Calendar.FiveMinutesBackSameDay | actions/quickie.go:329-331 | Going back five minutes stays on the same day once five minutes of it have passed |
| Calendar.FiveMinutesBackPrevDay | actions/quickie.go:329-331 | During the first five minutes of a day, going back five minutes lands on the previous day |
| Calendar.BeforeTransitive | models/quote.go:54 | `Before` is transitive |
| Calendar.AddCalendarDays | models/quote.go:54 | `AddDate(0, 0, k)` keeps the clock time and gives a valid time |
| Records.UuidStringRoundTrip | models/author.go:71-73 | A UUID's text form reads back to the UUID |
| Records.TimeIsPresent | models/quote.go:53 | Passes exactly when the time is not the zero time |
| Records.TimeIsBeforeTime | models/quote.go:54 | Passes exactly when the first time is strictly before the second |
| Records.IntIsGreaterThan | models/quote.go:56 | Passes exactly when the value is above the bound |
| Records.StringIsPresent | models/quote.go:58 | Passes exactly when some character is not white space |
| Records.StringLengthInRange | models/quote.go:59 | Passes exactly when the length lies in the range |
| Records.FuncValidator | models/quote.go:61-68 | Passes exactly when the check holds |
| Records.AnnotationValidIff | models/annotation.go:39-44 | An annotation is valid exactly when its note is present and at most 255 characters long |
| Records.AuthorValidIff | models/author.go:51-56 | An author is valid exactly when the name is present and at most 255 characters long |
| Records.QuoteValidIff | models/quote.go:51-70 | A quote is valid exactly when all six rules pass: a date is set, the date is before tomorrow, the sequence is at least 0, the phrase is present, the phrase is at most 255 characters long, and the author ID is not nil |
| Records.AnnotationValidate | models/annotation.go:39-44 | The two rules on the note: present, and at most 255 characters. Stated by `AnnotationValidIff` |
| Records.AuthorValidate | models/author.go:51-56 | The two rules on the name: present, and 1 to 255 characters. Stated by `AuthorValidIff` |
| Records.QuoteValidate | models/quote.go:51-70 | The six rules on a quote. Stated by `QuoteValidIff` |
| Records.ConversationValidate | models/conversation.go:46-51 | The two rules on the date. Stated by `ConversationValidIff` |
| Records.ConversationValidIff | models/conversation.go:46-51 | A conversation is valid exactly when its date is set and lies before tomorrow |
| Records.TwoDaysAheadRejected | models/conversation.go:49 | A conversation dated two days ahead fails the "before tomorrow" rule |
| Records.EmptyNoteRejected | models/annotation.go:41 | An empty note fails the presence rule |
| Store.InsertError | models/author.go:128 | An insert fails exactly when the statement fails or the key is already taken. The error is the statement's fault or the duplicate-key error |
| Store.InsertKeepsKeys | models/author.go:128 | An accepted insert keeps the primary keys unique and non-nil |
| Store.Replace | models/author.go:141 | An update replaces every row with the record's key and leaves the other rows unchanged |
| Store.ReplaceKeepsKeys | models/author.go:141 | An update keeps the keys valid |
| Store.KeyFor | models/author.go:128 | A record whose ID is nil gets a fresh UUID; any other record keeps its own ID |
| Store.Db.Exec | models/author.go:83-84 | One statement is sent, its answer is returned, and the tables do not change |
| Store.Db.CreateAuthor | models/author.go:128 | The key, one insert, and the row appended only on success |
| Store.Db.CreateAnnotation | models/annotation.go:96 | The key, one insert, and the row appended only on success |
| Store.Db.CreateQuote | models/quote.go:97 | The quote's columns are appended only on success |
| Store.Db.CreateConversation | models/conversation.go:76 | The conversation's columns are appended only on success |
| Store.Db.UpdateAuthor | models/author.go:141 | One update; on success the rows with the key are replaced |
| Store.Db.UpdateQuote | models/quote.go:115 | One update of the quote's columns |
| Store.Db.UpdateConversation | models/conversation.go:126 | One update of the conversation's columns |
| Models.FindByNote | models/annotation.go:63-81 | The receiver takes the ID of the first stored annotation with that note. With no such annotation the ID is nil; on a query error the receiver is unchanged |
| Models.ValidateAndCreateAnnotation | models/annotation.go:39-44 | Validation errors leave the store unchanged; otherwise the annotation is keyed and inserted |
| Models.CheckID | models/annotation.go:84-104 | A nil annotation, or one with an ID, changes nothing. An invalid new annotation returns its errors and changes nothing. A valid one takes the next fresh ID and costs one insert, whose error is returned; the row is appended only on success |
| Models.SelectValue | models/author.go:71-73 | The 36-character text form of the ID, which identifies the author (`SelectValueIdentifies`) |
| Models.SelectLabel | models/author.go:76-78 | The author's name |
| Models.SelectValueIdentifies | models/author.go:71-78 | Two authors have the same select value exactly when they have the same ID; the label is the name |
| Models.FindByID | models/author.go:81-97 | Success holds exactly when some row has the ID, and the receiver becomes that row. Otherwise the error is "author ID not found in db" |
| Models.NameMatches | models/author.go:104-112 | The row's name contains the first and the last space-separated pieces of the name asked for, ignoring ASCII case |
| Models.FindByName | models/author.go:100-124 | An empty name is refused before any query; a name of spaces is queried. Otherwise success holds exactly when some row matches the name's first and last pieces, and the receiver becomes the first such row |
| Models.QueryByName | models/author.go:100-124 | The query is sent only for a non-empty name, and the tables do not change |
| Models.AuthorCreate | models/author.go:127-137 | Validation or insert errors are returned at once. Otherwise the row is appended and the receiver is what `FindByName` then finds |
| Models.AuthorUpdate | models/author.go:140-150 | The same rule with an update |
| Models.ValidateAndCreateQuote | models/quote.go:51-70 | Validation errors leave the store unchanged; otherwise one insert |
| Models.ValidateAndCreateConversation | models/conversation.go:76 | Validation errors leave the store unchanged; otherwise the conversation is keyed and inserted, its columns appended only on success |
| Models.ValidateAndUpdateConversation | models/conversation.go:126 | Validation errors leave the store unchanged; otherwise one update of the conversation's columns |
| Models.ValidateAndUpdateQuote | models/quote.go:51-70 | Validation errors leave the store unchanged; otherwise one update |
| Models.QuoteCreate | models/quote.go:85-100 | An invalid new annotation returns its errors and changes nothing. A failed annotation insert returns that error, writes nothing and leaves the conversation ID as it was. Once the annotation is accepted, the quote with the annotation's new ID and the conversation ID is validated, and its errors are returned with no quote row written. The annotation row is appended exactly when one was created. A success writes one valid row. Every error is one the database reported |
| Models.QuoteUpdate | models/quote.go:103-118 | The same annotation rules as `QuoteCreate`. Once the annotation is accepted, the quote with the conversation ID is validated; its errors are returned with no row changed. A success replaces the row. Every error is one the database reported |
| Models.CreateQuotes | models/conversation.go:87-98 | Each quote is submitted with its position as the sequence. Validation errors become the sentinel; on success every quote has one valid row, in order. A quote that fails validation always ends the loop with the sentinel or an error, and any other error is one the database reported |
| Models.SubmitQuote | models/conversation.go:88-90 | One quote, with its sequence and conversation ID set, is written as a valid row |
| Models.WithAnnotation | models/conversation.go:90 | Only the annotation of the submitted quote changes in the caller's conversation |
| Models.WrittenQuotesValid | models/conversation.go:87-98 | When every quote has its row, no quote failed its validation |
| Models.TxResult | models/conversation.go:103-114 | The sentinel becomes validation errors with no error. Any other error becomes an error with no validation errors. Success becomes no error |
| Models.CreateInTransaction | models/conversation.go:72-101 | Validation errors send nothing. On success the conversation keeps a non-nil ID it was given, or gets a fresh one, and there is one new conversation row and a valid row for every quote. A quote that fails validation means the transaction fails |
| Models.ConversationCreate | models/conversation.go:68-115 | An error, or any validation error, rolls the tables back. On success the conversation keeps a non-nil ID it was given, or gets a fresh one, and there is one new conversation row and one row per quote. With a valid conversation, a quote that fails validation rolls the tables back and is reported as validation errors, unless the database reported an error. Every error is one the database reported |
| Models.ConversationUpdate | models/conversation.go:118-169 | The same rules with the record updated, including the rule for a quote that fails validation. Every quote is created again |
| Models.MarshalConversation | models/conversation.go:173-182 | The JSON text is path-escaped; a marshal error is passed on |
| Models.Unmarshal | models/conversation.go:198-205 | Decoding the JSON of any conversation gives its JSON view and no error. Otherwise the receiver and the error are those `json.Unmarshal` leaves, so a failed decode can keep the fields decoded before the error |
| Models.ExtractConversationFromJson | models/conversation.go:185-195 | Path-unescape first; its error is passed on |
| Models.JsonView | models/conversation.go:19-26 | Unmarshalling keeps the receiver's ID and writes the date, the flag and every quote |
| Models.ExtractMarshalled | models/conversation.go:173-205 | Marshalling and then extracting keeps the date, the flag and every quote's phrase, date, author name and annotation. The ID comes back nil |
| CookieCodec.FallbackKeyRejected | actions/quickie.go:149 | The fallback key has 13 bytes, which AES refuses |
| CookieCodec.CfbRoundTrip | actions/quickie.go:433-461 | CFB decryption undoes CFB encryption, for any block function |
| CookieCodec.CfbPrefix | actions/quickie.go:434-435 | CFB is a stream: the two writes of `encrypt` are one stream over the payload and then the digest |
| CookieCodec.Seal | actions/quickie.go:422-435 | The IV followed by the CFB stream over the payload and its SHA-256 digest. Its layout is stated by `SealLayout` and its opening by `DecryptSeal` |
| CookieCodec.SealLayout | actions/quickie.go:422-435 | The sealed bytes are 16 + length + 32 long, start with the IV, and continue with the payload's encryption |
| CookieCodec.CopyInto | actions/quickie.go:422-435 | Writing into the buffer changes exactly the target range |
| CookieCodec.Encrypt | actions/quickie.go:415-439 | A key AES refuses is the only error. Otherwise the result is the base64 of the sealed bytes |
| CookieCodec.Decrypt | actions/quickie.go:442-471 | A refused key is an error, text under one block opens to nothing, and otherwise the message is returned exactly when its digest matches. Stated by `DecryptBadKey`, `DecryptShortText`, `DecryptChecksDigest` and `DecryptSeal` |
| CookieCodec.DecryptSeal | actions/quickie.go:442-471 | `decrypt(key, encrypt(key, p)) == p` with a key AES accepts |
| CookieCodec.DecryptChecksDigest | actions/quickie.go:461-470 | Opening succeeds exactly when the recomputed digest matches, and then gives the message; otherwise the error is "Signature failed verification," |
| CookieCodec.DecryptShortText | actions/quickie.go:452-454 | Text shorter than one block opens to nothing, without an error |
| CookieCodec.DecryptBadKey | actions/quickie.go:445-448 | A refused key is reported whatever the text |
| Random.Rng.Intn | actions/quickie.go:207 | `rand.Intn(n)` gives the next value of the draw sequence, reduced to the range, and moves the sequence on by one. The generator's own retries on rejected values are not counted |
| Rotation.Identity | actions/quickie.go:841-845 | The deck before shuffling holds position i at index i |
| Rotation.SwapPreservesMultiset | actions/quickie.go:853 | A transposition keeps the multiset of entries |
| Rotation.SwapRounds | actions/quickie.go:849-854 | The deck after the given number of transpositions keeps its length; its multiset is kept by `SwapRoundsPreservesMultiset` |
| Rotation.SwapRoundsSnoc | actions/quickie.go:849-854 | k + 1 rounds are k rounds followed by the transposition at the next two draws |
| Rotation.SwapRoundsPreservesMultiset | actions/quickie.go:849-854 | Any number of rounds keeps the multiset |
| Rotation.Dealt | actions/quickie.go:840-855 | The deck `shuffle` deals has the requested size; `DealtIsPermutation` states that it is a permutation |
| Rotation.DealtIsPermutation | actions/quickie.go:840-855 | Whatever the draws, the dealt deck holds each of 0..size-1 exactly once |
| Rotation.PermutationCoversRange | actions/quickie.go:840-855 | Such a deck holds only positions below the size, and all of them |
| Rotation.ShuffleCurrent | actions/quickie.go:320-338 | The server's day, or the day five minutes earlier, has the shuffle's day-of-year number. Stated by the lemmas that follow |
| Rotation.ShuffledTodayIsCurrent | actions/quickie.go:320-326 | A shuffle made on the server's current day is current |
| Rotation.YesterdayCurrentForFiveMinutes | actions/quickie.go:328-333 | During the first five minutes after midnight, yesterday's shuffle is still current |
| Rotation.YesterdayStaleAfterFiveMinutes | actions/quickie.go:320-338 | After those five minutes, yesterday's shuffle is stale |
| Rotation.SameYearDayIsCurrent | actions/quickie.go:320-326 | Any shuffle whose day-of-year number is that of the server's current day is current, whatever the years |
| Rotation.YearOldShuffleIsCurrent | actions/quickie.go:324 | A shuffle made on 2022-05-10 counts as current on 2023-05-10. Across the leap day, one made on 2023-03-01 counts as current on 2024-02-29: both are day 60 |
| Rotation.DeckStale | actions/quickie.go:808 | The day of the month differs from the last deal's. Stated by `SameMonthDayNotStale` and `MonthOldDeckNotStale` |
| Rotation.SameMonthDayNotStale | actions/quickie.go:808 | A deck dealt on the same day of the month as today is never stale, whatever the months and years |
| Rotation.MonthOldDeckNotStale | actions/quickie.go:807-822 | `checkShuffle` does not redeal a deck dealt on the same day of the previous month, but does redeal a deck from the day before |
| Rotation.GetShuffleData | actions/quickie.go:228-261 | At most two reshuffles |
| Rotation.GetShuffleDataSpec | actions/quickie.go:228-261 | The session ends holding what is returned. Current session data is returned without a reshuffle. Data returned without a reshuffle is current, and stale data comes from the last reshuffle |
| Rotation.GetShuffleDataFirstFailure | actions/quickie.go:234-240 | Without session data, a failing first reshuffle is reported and nothing is stored |
| Rotation.MissingSessionReshuffles | actions/quickie.go:230-245 | Without session data (always the case, since the lookup key is a new pointer) there is at least one reshuffle, and a current first deal is returned and stored |
| Quickie.FreshKey | actions/quickie.go:143-151 | The UUID's 16 bytes, or the 13-byte fallback when marshalling failed. `FreshKeyValidIff` states which AES accepts |
| Quickie.FreshKeyValidIff | actions/quickie.go:143-151 | The chosen key is one AES accepts exactly when the UUID marshalled |
| Quickie.SealedText | actions/quickie.go:405-412 | With a refused key the cookie value is "" |
| Quickie.Response.SetCookie | actions/quickie.go:411 | The named cookie takes the value; the others are kept |
| Quickie.NextQuoteCookie | actions/quickie.go:372-387 | The cursor JSON-decoded from the raw cookie text, or 0 when the cookie is missing or does not decode. `SealedNextQuoteReadsZero` states what that gives for the cookie the wall writes |
| Quickie.SealedNextQuoteReadsZero | actions/quickie.go:372-403 | A cursor cookie the wall sealed reads back as 0 |
| Quickie.FilterCookie | actions/quickie.go:690-730 | A list is found only when the cookie is present and the key is valid |
| Quickie.FilterCookieRoundTrip | actions/quickie.go:690-774 | A list sealed by `saveFilter` is read back exactly by `filterCookie` |
| Quickie.ShortFilterCookieRefused | actions/quickie.go:452-454 | A cookie too short to hold an IV gives no list |
| Quickie.Advance | actions/quickie.go:217-220 | The cursor moves one on, and goes back to 0 at the end |
| Quickie.AdvanceTimesWraps | actions/quickie.go:217-220 | k steps from i reach i + k, wrapping once past the end |
| Quickie.AdvanceVisitsAll | actions/quickie.go:217-220 | A round of n steps visits every position once and comes back to the start |
| Quickie.MaxAgeParam | actions/quickie.go:664-683 | The value is never negative |
| Quickie.MaxAgeParamSpec | actions/quickie.go:664-683 | The filter is on exactly when the first value is an integer. A negative value is taken as 0 |
| Quickie.MaxAgeParamOfPrinted | actions/quickie.go:664-683 | `?max-age=<n>` gives n back, or 0 for negative n |
| Quickie.Cutoff | actions/quickie.go:738 | `maxdays` calendar days before now, at the same clock time |
| Quickie.Recent | actions/quickie.go:741-745 | The first line's date parses as M/D/YYYY, is not before the cutoff, and the line is marked "True" |
| Quickie.Keeper | actions/quickie.go:740-748 | The index names a conversation with a first line that is recent |
| Quickie.Eligible | actions/quickie.go:740-750 | The indexes that pass, in order |
| Quickie.AgeFiltered | actions/quickie.go:737-761 | The filtered list: cursor 0, the age, and the eligible indexes scrambled. Stated by `AgeFilteredSpec` |
| Quickie.AgeFilteredSpec | actions/quickie.go:737-761 | The filtered list holds exactly the deck's recent, published entries, each as often as in the deck. The cursor starts at 0 and the list records its age |
| Quickie.Wall.CollectRecent | actions/quickie.go:743-750 | The kept entries, in deck order |
| Quickie.Scramble | actions/quickie.go:752-758 | One transposition per entry, at the next two draws |
| Quickie.Wall.ApplyAgeFilter | actions/quickie.go:737-761 | The result is the specified filtered list, and two draws are used per entry |
| Quickie.Wall.MaxAgeFilter | actions/quickie.go:627-658 | No usable `max-age` gives no filter, whatever the cookie and the deck hold: the cookie is not opened and the deck is not read. A saved list of the same age is kept and no draw is used; otherwise a new list is built from the deck, using two draws per eligible entry |
| Quickie.Wall.PickFromFilterList | actions/quickie.go:591-617 | An empty list gives no quote and saves nothing. Otherwise it gives the entry at the cursor and saves the list with the cursor advanced |
| Quickie.Wall.PickQuote | actions/quickie.go:202-224 | A cursor of 0 becomes a random position. A lookup error is returned and saves nothing; otherwise the advanced cursor is saved |
| Quickie.Wall.InitFilterKey | actions/quickie.go:143-151 | A key is chosen only when none is set |
| Quickie.Wall.SaveCookie | actions/quickie.go:405-412 | The cookie holds the payload sealed under the filter key |
| Quickie.Wall.SaveNextQuoteCookie | actions/quickie.go:395-403 | The cursor between two UUID strings, sealed |
| Quickie.Wall.SaveFilter | actions/quickie.go:768-774 | The list sealed into the `FilteredList` cookie |
| Quickie.Wall.Shuffle | actions/quickie.go:840-855 | A new deck: the identity followed by 10000 transpositions at the draws |
| Quickie.Deal | actions/quickie.go:840-855 | The dealt deck, using two draws per transposition |
| Quickie.SwapLoop | actions/quickie.go:849-854 | The deck after the rounds, computed in place |
| Quickie.IdentityDeck | actions/quickie.go:841-845 | A new array holding 0..size-1 |
| Quickie.SwapEntries | actions/quickie.go:853 | The two entries exchange places in the array |
| Quickie.Wall.CheckShuffle | actions/quickie.go:807-822 | A day of the month that differs from the last deal's redeals for the archive's size, using the next 20000 draws, dates the deal and picks a new key. Otherwise nothing changes and no draw is used |
| Quickie.DealtDeckFits | actions/quickie.go:807-855 | A freshly dealt deck names every conversation of the archive and is not stale on its day |
| Quickie.Blanks | actions/quickie.go:188 | `make` gives n zero-valued lines |
| Quickie.Shown | actions/quickie.go:190-194 | A shown line has the speaker, the phrase and the date in the "Jan 2, 2006" layout; the flag is left empty |
| Quickie.PrepareConv | actions/quickie.go:182-200 | The page has n blank lines followed by the n shown lines, and its share is 80 divided by 2n |
| Loader.Unquoted | grifts/loader.go:39-41 | Quotes are stripped only when they stand at both ends |
| Loader.UnmarshalTime | grifts/loader.go:38-58 | A text without three '/' fields gives "invalid date found" and keeps the old time. A success is midnight of the parsed date. A parse error gives the zero time |
| Loader.ParsedDateAccepted | grifts/loader.go:46-58 | Every text `time.Parse` accepts is taken, at midnight |
| Loader.OneSidedQuoteRefused | grifts/loader.go:39-41 | A date with a quote at one end only is not stripped |
| Loader.MarshalTime | grifts/loader.go:61-65 | The date text is quoted at both ends |
| Loader.UnmarshalMarshalled | grifts/loader.go:38-65 | Unmarshalling a marshalled time gives midnight of its date, for every four-digit year |
| Loader.CustomTime.UnmarshalJson | grifts/loader.go:38-58 | The receiver takes the time `UnmarshalTime` computes |
| Loader.PublishFlag | grifts/loader.go:138 | The flag is true exactly for four characters, each the letter of "true" in either case |
| Loader.FormatBool | grifts/export.go:54 | "true" or "false"; `PublishFlagOfFormatBool` states that the loader reads it back |
| Loader.PublishFlagOfFormatBool | grifts/export.go:54 | A printed flag reads back as itself |
| Loader.PublishFlagExamples | grifts/loader.go:138 | "True" and "TRUE" are true; "yes" and "" are false |
| Loader.SelectAuthorsNamed | grifts/loader.go:225-232 | The rows are the authors with that exact name |
| Loader.SelectAnnotationsNoted | grifts/loader.go:272-279 | The rows are the annotations with that exact note |
| Loader.FindOrCreateAnnotation | grifts/loader.go:267-297 | An ID is returned exactly when there is no error. The error is the query's fault, else none when a row matches, else the insert's error for the next fresh key. The first matching annotation's ID is used; otherwise exactly one annotation with the note is appended |
| Loader.Seeder.FindOrCreateAuthor | grifts/loader.go:218-260 | A cached name changes nothing. Otherwise the error is the query's fault, else none when a row has the name, else the insert's error for the next fresh key. A found author is the first row the query gives. A found or created author is cached under the name with a non-nil ID, and at most one author row is appended |
| Loader.Seeder.LineKeys | grifts/loader.go:168-197 | The author's key, then the annotation's key exactly when the line has a note, each naming a row with that name or note. No quote or conversation is written, and a run in which no statement faults and every fresh key it mints is new to the tables and to its other fresh keys cannot fail |
| Loader.Seeder.CreateQuote | grifts/loader.go:164-209 | On success there is one more quote row with the line's phrase, date, flag, sequence, speaker and note, linked to the conversation. On error the quotes are unchanged. A run in which no statement faults and every fresh key it mints is new to the tables and to its other fresh keys succeeds |
| Loader.Created | grifts/loader.go:133-155 | What one `createConversation` does: a failed conversation insert returns its error and writes nothing. Otherwise one conversation row dated by the first line, with its flag and the next fresh ID, then the rows of every line on success, or of the lines before the failing one on error. A run in which no statement faults and every fresh key it mints is new to the tables and to its other fresh keys succeeds |
| Loader.Seeder.CreateConversation | grifts/loader.go:133-155 | Its run satisfies `Created` |
| Loader.Seeder.CreateQuotes | grifts/loader.go:146-152 | The lines are seeded in order. On success every line has its row; on error the rows written are exactly those of the lines before some line, the one that failed. A run in which no statement faults and every fresh key it mints is new to the tables and to its other fresh keys succeeds |
| Loader.Seeder.Seed | grifts/loader.go:104-127 | A load error, or an empty archive, changes nothing. Otherwise the cache is reset and every entry in turn satisfies `Created` (so it fails only on a fault or a key clash of its own run), starting from the state the previous entry left, whatever that entry's outcome. The result is the last entry's outcome. On success the last conversation row is the last entry's |
| Loader.Seeder.Trace | grifts/loader.go:371-375 | A message is shown exactly when its level is at most the verbosity |
| Loader.Seeder.SetVerbosity | grifts/loader.go:382-384 | The verbosity takes the value |
| Export.NoteOf | grifts/export.go:44-48 | The note of the annotation, or "" when there is none |
| Export.ExportedLine | grifts/export.go:50-56 | The speaker, the phrase, the date, the printed flag and the note of one quote. Stated by `ExportedLineReadsBack` and `ExportedNote` |
| Export.LinesOf | grifts/export.go:43-59 | One line per quote, in order. Stated by `LinesOfIndex` |
| Export.LinesOfIndex | grifts/export.go:50-56 | Line j comes from quote j |
| Export.ArchiveOf | grifts/export.go:40-62 | One entry per conversation and one line per quote |
| Export.ArchiveOfIndex | grifts/export.go:40-62 | Entry i comes from conversation i |
| Export.ExportConversation | grifts/export.go:43-58 | The loop computes the conversation's lines |
| Export.ExportArchive | grifts/export.go:15-78 | A create error or a load error is returned with nothing written. Otherwise the archive of all conversations is written and the write error is reported |
| Export.ExportedLineReadsBack | grifts/export.go:50-56 | Reading an exported line back gives the speaker, the phrase, the flag, and the date at midnight |
| Export.ExportedNote | grifts/export.go:44-48 | A line carries a note exactly when its quote has a non-empty annotation |
| Export.ConversationFieldsFromFirstQuote | grifts/export.go:50-56 | Re-seeding takes the conversation's date and flag from its first quote |
| User.Recognised | grifts/user.go:41-43 | An argument gives a key a value only when it is exactly `key:value` with no other ':' |
| User.RecognisedArgument | grifts/user.go:41-43 | Conversely, `key:v` gives key the value v |
| User.LastValue | grifts/user.go:39-50 | The value of the last argument that sets the key, or the initial value. Stated by the lemmas that follow |
| User.LastValueDefault | grifts/user.go:33-50 | With no argument for the key, the value stays "" |
| User.LastValueFromLastArgument | grifts/user.go:39-50 | The value comes from an argument after which none sets the key |
| User.LaterArgumentWins | grifts/user.go:39-50 | A later `key:v` overrides earlier ones |
| User.UnrecognisedIgnored | grifts/user.go:39-50 | An argument that does not set the key changes nothing |
| User.EmptyValueClears | grifts/user.go:43-53 | `email:` after an address clears it, so the task reports a missing parameter |
| User.ScanArgs | grifts/user.go:39-50 | The loop computes the last value of each key |
| User.Add | grifts/user.go:29-66 | No arguments, a missing field, failed validation and a create error each give their message. Otherwise the user is submitted with both password fields set |
| User.Rmv | grifts/user.go:74-104 | No arguments or a missing email gives its message. A lookup error is returned; otherwise the user found is destroyed |
| User.RmvIgnoresPassword | grifts/user.go:83-90 | `pwd` arguments make no difference to `user:rmv` |

## Left out

- File I/O is not modelled. The seed file is not read (`loadquotedata` is an outside call), `exportArchive`'s `os.Create` is an outside call, and the indented JSON it writes is a parameter. Errors from these calls are parameters.
- The clock is a parameter (`now`), and times are UTC only. Time zones, the page's `Datestr` text and the second `time.Now()` are not modelled.
- `rand.Seed` is not modelled, and only the values drawn from `math/rand` are, not the generator's position. `Rng` hands out `Intn` values from a fixed sequence, one position per call. In the source, `encrypt`'s `rand.Read(iv)` takes its 16 bytes from the same shared generator, and `rand.Intn` may draw again when it rejects a value. The model takes the IV as a separate parameter and advances `Rng` for neither, so `Rng.calls` counts `Intn` calls rather than the generator's stream position.
- AES's block function, SHA-256, base64, `encoding/json` and `url.PathEscape` are function-valued parameters. Only their laws are required.
- HTTP rendering, templates, the error page, cookie lifetimes, the session store, and the handler's final `Find` of the picked conversation are not modelled.
- The mutex is not modelled: the model is sequential.
- `QuoteWallQuickie` and `pickquote` are not modelled. No route reaches them, and `pickquote`'s body is commented out, so it always returns (0, false).
- `setDefaultQuote` is not modelled: it changes only a copy of its argument. `loadquotedata` in `actions/quickie.go` is a stub returning no error, and `clearFilterCookie` is HTTP plumbing.
- `shuffleConversations` (the `shuffle_deck()` procedure, the count and the comment parse) and `getDBTimeDiff` run SQL in the database. Their results are parameters of `GetShuffleData`.
- Trace printing (`fmt.Println`/`Printf`) is not modelled. `Seeder.Trace` states only whether a message is shown.
- Database queries other than `FindByName`'s are modelled as exact matches on the stored rows. Queries built with `Sprintf` can be broken by quotes in the text, and that is not modelled.
- Models.FindByName: the `ILIKE` match is modelled as `NameMatches`, an ASCII-only case-insensitive substring test. The database folds case by its own collation, beyond ASCII, and treats `%` and `_` in the name as wildcards; the model takes them literally. A quote in the name breaks the generated SQL, which the model does not capture.
- Pop's `Transaction` can also fail to begin or to commit. Those failures are not modelled: the transaction's result is the error its body returns, and an error rolls every table back.
- `Seeder.constructor` starts the author cache as an empty map. In the source the cache is nil until `seedQuoteDB` sets it, and `Seed` resets it the same way.
- `Text.Lower` lowers ASCII letters only. `strings.ToLower` also folds other Unicode letters, which makes no difference to the test for "true". It also decides `NameMatches`, so `FindByName` folds ASCII letters only (see the `Models.FindByName` line).
- `models.User` is not part of this model. `user:add` takes its `Create` and `user:rmv` takes its lookup and `Destroy` as parameters.
- `Loader.UnmarshalTime`: `time.Parse`'s error text is modelled as the tag `ParseFailed`. Its converse, that every accepted text is taken, is the separate lemma `ParsedDateAccepted`.
- `Loader.Unquoted`: `UnmarshalJSON` panics on empty input or a lone '"'. These cases are preconditions.
- `Loader.Seeder.CreateConversation`: `createConversation` panics on a conversation with no lines. This is a precondition.
- `Quickie.PrepareConv`: `prepareConv` divides by zero on a conversation with no quotes. This is a precondition.
- `Quickie.Wall.Shuffle`: `shuffle(0)` panics in `rand.Intn`. This is a precondition.
- `CookieCodec.Decrypt`: a decoded text between 16 and 47 bytes makes `decrypt` slice out of range. `DecryptDefined` is a precondition that excludes it.
- `Quickie.Wall.PickFromFilterList`: a cursor outside the list makes the source panic. This is a precondition.
- Quickie.Wall.PickQuote: with a cursor cookie of 0 (or none) and a deck of size 0, `rand.Intn(0)` panics. A deck of size greater than 0 in that case is a precondition.
- Quickie.Wall.ApplyAgeFilter: an index outside the archive, or a conversation with no first line, makes `applyAgeFilter` panic. Indexes that name conversations with a first line are a precondition. `Quickie.AgeFilteredSpec` has the same precondition.
- Quickie.Wall.MaxAgeFilter: requires the same deck condition, and `DecryptDefined` of the `FilteredList` cookie, only when `max-age` is on, the only case in which `maxAgeFilter` reaches `filterCookie` and `applyAgeFilter`.
- Quickie.Wall.CollectRecent: the same precondition as `ApplyAgeFilter`, for the same panic.
- Quickie.MaxAgeParam: `maxage[0]` would panic on a `max-age` key with no values. URL parsing never produces one, so a non-empty value list is a precondition.
- Models.QuoteCreate: the quote insert's key and the statement that performs it are not pinned to a position in the database's sequences. The contract states the quote row's contents, and that every error returned is one the database reported.
- Models.QuoteUpdate: likewise, the update's statement is not pinned to a position, and the contract states only that every error returned is one the database reported.
- Models.CreateQuotes: a quote that fails validation is proved to end the loop with the validation sentinel or with an error the database reported. It is not proved to give the sentinel alone, as `conversation.go:95-97` does when no statement fails, because `QuoteCreate`'s statement and key are not pinned (see the `Models.QuoteCreate` line).
- Models.ConversationCreate: with a valid conversation and a quote that fails validation, the tables are proved unchanged and the result is proved to hold validation errors or an error the database reported. The source's (errors, nil), which `conversation_test.go` expects, is not proved, for the same reason as for `Models.CreateQuotes`.
- Models.ConversationUpdate: the same gap as `Models.ConversationCreate`, for a quote that fails validation.
- Quickie.Cutoff: time is unbounded in the model. Go's `AddDate` computes in 64-bit arithmetic, which wraps for a `max-age` beyond about 1.07e14 days. For example, `max-age=9223372036854775807` gives a cutoff one day after now, so the source keeps no conversation; the model's cutoff lies that many days back and keeps every published one. `Quickie.AgeFilteredSpec` and `Quickie.Wall.ApplyAgeFilter` inherit this.
- Records.TimeIsBeforeTime: the validator compares the two times' 64-bit nanosecond counts, which wrap outside roughly the years 1678 to 2262. The model compares the times themselves. So for dates outside that range its answer can differ from the source's: the source refuses a `SaidOn` of 1/1/1600 and accepts 1/1/2300, and the model does the opposite.
- Records.TimeIsPresent: the validator likewise compares nanosecond counts with the zero time's. A time whose count wraps onto that value is refused by the source but accepted by the model.
- Store.Db.CreateQuote: Pop's `Create`, in its flat mode, first fills `AnnotationID` from a nested annotation that has an ID and `AuthorID` from a non-zero nested author. The model does not: the quote row keeps the ID columns the record carries. `quote.go` never sets `AnnotationID` itself, so the model does not capture the link that `CheckID`'s new annotation gets through this association.
- Store.Db.UpdateQuote: the update writes the ID columns as the record carries them. Any filling of those columns from the nested author and annotation by Pop's `Update` is not modelled.
- Timestamps (`CreatedAt`, `UpdatedAt`) are not modelled. Pop's eager loading is modelled as conversations that already hold their quotes, authors and annotations.
- The shuffle's distribution is not modelled. The model proves that the deck is a permutation, not that it is uniform.
