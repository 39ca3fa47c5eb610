# agendadigitalpy web: proposal pipeline and public-information tracker

This project is a Dafny model of the two pieces of logic in the site that
collects citizen policy proposals and shows public-information requests filed
with the ministry:

- **The proposal pipeline** (`main.go`). The submission handler
  (`POST /propuestas`) checks the e-mail address, then parses and range-checks
  the category. `storeProposal` stamps a fresh identifier and auto-approves
  the record. `getProposals` lists the approved records newest first, and
  `renderProposal` projects each one for display: the category table,
  truncated title and content, and content with `\r` removed and `\n` turned
  into `<br />`.
- **The public-information tracker** (`public_info.go`). `FetchUpdates`
  replaces the cached request list with the requests of institution 924 from
  the feed. Each request whose state is `"RESPONDIDO"` is flagged as replied.
  A failed fetch or an empty feed leaves the cache as it was.

Modules:

| file | module | models |
|---|---|---|
| `wrappers.dfy` | `Wrappers` | `Option` |
| `text.dfy` | `Text` | `truncate`, the two `strings.Replace` calls of `renderProposal` |
| `decimal.dfy` | `Decimal` | `strconv.Atoi` on a 64-bit platform, and decimal formatting as its inverse |
| `proposals.dfy` | `Proposals` | records, the category table, `renderProposal`, the listing query |
| `store.dfy` | `Store` | class `ProposalStore`: `storeProposal`, `getProposals`, `getProposal`, the `POST /propuestas` handler as `Submit` |
| `public_info.dfy` | `PublicInfo` | class `PublicInfoTracker` and `FetchUpdates` |

Inputs that the code takes from the outside world are parameters of the model:

- `checkmail.ValidateFormat` and `strip.StripTags` are the function
  parameters `validFormat` and `stripTags` of `Submit`.
- The failures of the document store are the `Faults` argument of `Submit`
  and the flags of `StoreProposal` and `GetProposals`. `Faults` covers the
  listing read on entry, the insert, and the listing read after a successful
  insert.
- The HTTP request, body read and JSON decode of `FetchUpdates` are its
  `Feed` argument. A `Feed` is either a failure at one of those stages or
  the decoded list.

Two client methods, `Store.SubmissionScenario` and
`PublicInfo.TrackerScenario`, walk through five end-to-end cases. They are
verified from the members' contracts together with the lemmas
`ParseSingleDigit`, `DigitalEconomyCategory`, `TrackedSingle` and
`TrackedAppend`:

- a bad address gives `InvalidEmail`;
- category `"9"` gives `InvalidCategory`;
- category `"2"` is stored and listed as "Economía Digital" with link
  `/economia-digital`;
- a feed of three requests, two of them for institution 924, caches those
  two with the right replied flags;
- a later empty feed keeps that cache.

The handler strips tags from the e-mail address too, before validating it
(`main.go:180`).

## Model

| member | source | states |
|---|---|---|
| Text.Truncate | main.go:140-145 | a string of at most 50 units is returned unchanged; a longer one gives its first 50 units followed by "...", 53 units in all |
| Text.TruncateIdempotent | main.go:140-145 | truncating an already truncated string changes nothing |
| Text.TruncateKeepsPrefix | main.go:140-145 | for any length, the first k <= 50 units of the result are those of the input |
| Text.TruncateBoundaries | main.go:140-145 | "" stays "", a 50-unit string stays itself, a 51-unit string becomes 50 units plus "..." (53 units) |
| Text.Utf8Length | main.go:141 | Go's `len`: the UTF-8 byte length, between one and four bytes per unit |
| Text.Utf8LengthUniform | main.go:141 | a string whose units all take w bytes is w times its length in bytes |
| Text.TruncateAsWritten | main.go:140-145 | the code as written: unchanged when the byte length is at most 50, otherwise ending in "..." |
| Text.AsWrittenAgreesOnAscii | main.go:140-145 | on ASCII text the code as written and Truncate agree |
| Text.EllipsisWithoutCut | main.go:141-142 | 26 to 50 two-byte units: nothing is cut, yet the code as written appends "..." |
| Text.RemoveAll | main.go:108 | the result holds no `\r`, and holds exactly the other units of the input |
| Text.RemoveAllCounts | main.go:108 | every unit other than `\r` is kept as often as it occurs |
| Text.RemoveAllAppend | main.go:108 | removal distributes over concatenation, so kept units keep their order |
| Text.ReplaceChar | main.go:109 | after replacing `\n` by a string without `\n`, no `\n` is left; units outside the replacement occur exactly when they occurred in the input and are not `\n` |
| Text.ReplaceCharAppend | main.go:109 | replacement distributes over concatenation |
| Text.FormatContent | main.go:108-109 | the shown content has no `\r` or `\n`; units outside `<br />` are exactly those of the input other than CR and LF |
| Text.FormatContentAppend | main.go:108-109 | the content transform distributes over concatenation |
| Text.CrlfIsOneBreak | main.go:108-109 | a CRLF pair becomes a single `<br />`, not two |
| Text.LoneCarriageReturnVanishes | main.go:108 | a lone `\r` leaves no trace in the shown content |
| Text.CrlfExample | main.go:108-109 | "a\r\nb" (for any plain units a, b) is shown as "a<br />b" |
| Text.SingleUnitUnchanged | main.go:108-109 | a unit other than CR and LF is shown as itself |
| Decimal.ParseInt | main.go:192 | a parsed category always fits a signed 64-bit integer, and the empty string never parses |
| Decimal.FormatNat | main.go:192 | the decimal digits of n, non-empty and without leading zeros, have the value n |
| Decimal.FormatInt | main.go:192 | the decimal form of n starts with a digit exactly when n >= 0 |
| Decimal.ParseFormatRoundTrip | main.go:192 | every 64-bit integer parses back from its decimal form |
| Decimal.ParseIntRejects | main.go:192-200 | a non-digit after the optional sign is a parse error |
| Decimal.ParseIntSignOnly | main.go:192-200 | a sign with no digits ("+" or "-") is a parse error |
| Decimal.ParseSingleDigit | main.go:191-192 | a single digit parses to its value |
| Decimal.LeadingZeroIgnored | main.go:192 | a leading zero does not change the value of a run of digits |
| Decimal.ParseIntLeadingZero | main.go:192 | leading zeros are accepted: "0" followed by digits parses exactly as the digits do ("02" as 2) |
| Decimal.ParseIntPlusSign | main.go:192 | an explicit '+' is accepted: "+" followed by digits parses exactly as the digits do ("+2" as 2) |
| Decimal.ParseIntMinusSign | main.go:192 | "-" followed by digits parses to the negated value of the run, leading zeros included ("-0" and "-00" are 0), and is rejected below the signed 64-bit minimum |
| Decimal.ParseIntOutOfRange | main.go:192-200 | a digit run whose value exceeds the signed 64-bit maximum is rejected (Atoi's range error) |
| Proposals.CategoryOf | main.go:91-106 | categories 1..4 get their own label and link; every other integer, 0 and negatives included, gets "General" and "#" |
| Proposals.CategoryLinksDistinct | main.go:93-106 | different named categories link to different pages |
| Proposals.DigitalEconomyCategory | main.go:97-99 | category 2 is "Economía Digital" linking to "/economia-digital" |
| Proposals.RenderProposal | main.go:90-122 | identifier, name and title pass through unchanged; label and link are those of the category table, the link real exactly for categories 1..4; the short title and short content are the truncations of the raw title and content (at most 53 units); the shown content is the CR/LF transform of the raw content and has no CR or LF |
| Proposals.TruncatedContentIsRaw | main.go:108-117 | the short content is cut from the raw content: at every length its first min(50, length) units are those of the raw content, and a short content keeps its newlines there while the shown content has none |
| Proposals.RenderIgnoresHiddenFields | main.go:110-120 | the e-mail address and the approval flag do not affect what is shown |
| Proposals.RenderAll | main.go:132-135 | one rendered item per record, in the same order |
| Proposals.MapSeq | main.go:132-135 | the generic element-wise map behind RenderAll: same length, k-th result is f of the k-th element |
| Proposals.NewestApproved | main.go:126 | the query returns exactly the stored records that are approved |
| Proposals.NewestApprovedDescending | main.go:126 | in a collection whose identifiers grow in storage order, the query's result is strictly descending by identifier |
| Proposals.EmptyStoreEmptyListing | main.go:124-138 | an empty collection gives an empty listing |
| Proposals.ListingAfterInsert | main.go:126 | an appended approved record heads the listing ahead of the previous one; an appended unapproved record is never listed |
| Proposals.Listing | main.go:124-138 | the listing has one item per approved record |
| Store.Message | main.go:24-26 | the message table: InvalidEmail shows exactly "Dirección inválida", InvalidCategory exactly "Categoría inválida", Generic exactly "Error", each message belonging to one tag only |
| Store.AcceptedCategory | main.go:191-208 | the handler's category check: Atoi succeeds and 0 <= cat <= 4; an empty or unparsable category never passes |
| Store.AcceptedCategoriesRoundTrip | main.go:191-208 | the decimal form of c passes the category check exactly when 0 <= c <= 4, and then parses to c |
| Store.AcceptedCategorySpellings | main.go:191-208 | "0" or "+" before a digit run changes neither the parsed value nor whether the category check passes ("02" and "+2" pass as "2" does) |
| Store.AcceptedCategoryMinusSign | main.go:191-208 | "-" before a digit run passes the category check exactly when the run is zero, and then parses to 0, so "-0" and "-00" store category 0 (General) |
| Store.ProposalStore.constructor | main.go:45-49 | a collection may start with any records (unapproved ones included) whose identifiers grow in storage order |
| Store.ProposalStore.StoreProposal | main.go:74-78 | the stored record is the input with a fresh identifier and approved = true, other fields unchanged; it is appended on success and nothing changes on failure; the identifier counter moves on either way |
| Store.ProposalStore.GetProposals | main.go:124-138 | the result is every approved record, newest first, each rendered; a failed query gives no items |
| Store.ProposalStore.GetProposal | main.go:80-88 | an item is returned exactly when some record has that identifier, and it is that record rendered, approved or not |
| Store.ProposalStore.Submit | main.go:174-235 | an invalid address gives InvalidEmail whatever the category; an unparsable or out-of-range category gives InvalidCategory; a failed insert gives Generic; on every failure the collection is unchanged and the entry listing is returned; on success exactly one approved record with the validated category and stripped fields is appended, and the refreshed listing is that record first, then the previous listing |
| PublicInfo.MarkReplied | public_info.go:74-76 | the replied flag is set when the state is "RESPONDIDO" and kept otherwise; every other field is unchanged |
| PublicInfo.Tracked | public_info.go:69-78 | every kept request belongs to institution 924, and no more requests are kept than the feed holds |
| PublicInfo.TrackedSingle | public_info.go:70-78 | a one-entry feed keeps its entry, marked, exactly when it belongs to institution 924 |
| PublicInfo.TrackedAppend | public_info.go:70-78 | filtering distributes over concatenation, so kept requests keep their feed order |
| PublicInfo.TrackedCount | public_info.go:69-79 | the number of kept requests equals the number of feed entries for institution 924 |
| PublicInfo.TrackedMembership | public_info.go:69-78 | a request is kept exactly when it is the marked form of a feed entry for institution 924 |
| PublicInfo.RepliedIffAnswered | public_info.go:74-76 | for a feed that carries no replied flag, a kept request is replied exactly when its state is "RESPONDIDO" |
| PublicInfo.NoMatchIsEmpty | public_info.go:66-79 | a feed with no entry for institution 924 filters to the empty list |
| PublicInfo.PublicInfoTracker.constructor | main.go:35 | a new tracker holds no requests |
| PublicInfo.PublicInfoTracker.FetchUpdates | public_info.go:49-81 | a failed fetch stage reports that stage's error and an empty decoded list reports "no requests"; in both cases the cache is unchanged; otherwise the cache becomes exactly the filtered feed, even when it is empty; only requests of institution 924 are ever cached |

## Findings

| source | as written | input that shows it | evidently intended | confidence | as-written member | corrected member |
|---|---|---|---|---|---|---|
| main.go:141-142 | the length test `len(s) > 50` counts bytes, but `%.50s` keeps up to 50 runes | 30 copies of 'é' (60 bytes, 30 runes): nothing is cut, yet "..." is appended | append "..." only when something was cut, so count runes in the test | not executed; high | Text.TruncateAsWritten, Text.EllipsisWithoutCut | Text.Truncate |

The rest of the model uses `Text.Truncate`, which counts units (runes) in
both places.

## Left out

- HTTP routing, the static page handlers, template rendering and the
  `template.HTML` typing of the content (`main.go:147-263`) are not modelled.
  They are framework glue.
- The MongoDB session, the environment-variable configuration and `init`
  (`main.go:34-50`) are not modelled. The collection is an in-memory
  sequence, and backend failures are parameters.
- `checkmail.ValidateFormat` and `strip.StripTags` are foreign code. They
  are parameters, so nothing is assumed about what they accept or produce.
- `json.Unmarshal`, `http.Get` and the body read (`public_info.go:50-65`) are
  I/O. They are the `Feed` argument of `FetchUpdates`. Raw entries may carry
  any replied flag, since the untagged `Replied` field could be set by the
  feed; `RepliedIffAnswered` states the case of a feed that does not set it.
- The ObjectId byte layout, its hex form and the `"02/01/06"` creation date
  (`main.go:107, 113, 115`) are not modelled. The identifier is a natural
  number, and rendered items carry no date.
- Proposals.NewestApproved: does not sort. It returns the approved records
  in reverse storage order. That order equals the store's descending
  identifier sort only in a collection whose identifiers grow in storage
  order, which `ProposalStore.Valid` maintains.
- Store.ProposalStore.StoreProposal: returns the stamped record rather than
  writing it through the caller's pointer. The handler builds a fresh
  record for each request, so no other reference can observe the write.
- Store.ProposalStore.GetProposal: takes the identifier as a number. The
  panic of `bson.ObjectIdHex` on a malformed hex string (`main.go:82`) is a
  library behaviour and is not modelled. Backend errors other than "not
  found" are not modelled either.
- `Init`'s endless refresh loop with its 12-hour sleep
  (`public_info.go:35-47`) is scheduling, and only a single `FetchUpdates`
  step is modelled. Nothing in `main.go` calls `Init`: `init` creates the
  tracker and calls `FetchUpdates` once (`main.go:35-36`), so the cache is
  filled at start-up only and the loop never runs. The concurrent reads of
  `Reqs` by the request handlers are not modelled either.
- Decimal.ParseInt: returns one error for both the syntax error and the
  range error of `strconv.Atoi`, and leaves out the clamped value that Go
  returns with the range error. The handler only tests whether an error
  occurred.
- Text.Truncate: counts units, not bytes. See "## Findings" for the byte/rune
  mismatch of the code as written, which `Text.TruncateAsWritten` models.
