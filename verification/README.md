# A verified model of the platform's core logic

This project models the parts of the repository whose correctness is not obvious from reading one
function: the HTML sanitizer, the tagged response cache with its keys, the breaker, retry and client
that compose into the outbound HTTP stack, the metrics registry, and four smaller state machines.
Code that computes is modelled by functions and lemmas; code that changes state step by step by
classes and methods with loops, each proved against a function and the lemmas about that function.

`dafny verify dfyconfig.toml` checks everything.

## The files

| file | subject |
|---|---|
| `Text.dfy` | character classes and string operations of JavaScript |
| `Sorting.dfy` | the stable sort of arrays, over any order |
| `Entities.dfy` | character references: decoding, escaping, and decoding after escaping |
| `References.dfy` | what each form of character reference decodes to |
| `Urls.dfy` | the scheme check of links and image sources |
| `Attributes.dfy` | reading, keeping and printing the attributes of a tag |
| `AttributeForms.dfy`, `Dimensions.dfy` | every form an attribute can be written in, read as what it says; which widths and heights are kept |
| `Tokenizer.dfy` | tags, names, declarations, dropped content; the quote-aware scan for `>` |
| `Markup.dfy` | tags, comments, declarations and stray brackets as they are written, and the token each is read as |
| `Pipeline.dfy` | the sanitizer as tokenize, clean, balance, print |
| `RoundTrip.dfy` | reading back what was printed; idempotence |
| `OutputShape.dfy` | a strict reader of the output, written without reference to the sanitizer |
| `Sanitizer.dfy` | the one-pass loop, proved equal to the pipeline |
| `Content.dfy` | which text survives, and what dropping an element drops |
| `Effects.dfy` | what each token does to the output, said of the sanitizer as a whole |
| `CacheProtocol.dfy` | the cache one store command at a time, under any interleaving |
| `TaggedCache.dfy` | the cache with a store and an invalidation as one step each; the interceptor |
| `WholeOperations.dfy` | the commands of a call that nobody interrupts come to the one step |
| `KeySegments.dfy`, `QueryKeys.dfy`, `CacheKeys.dfy` | the segments of a cache key, the query in it, and the key a request is cached under |
| `CircuitBreaker.dfy`, `Retry.dfy`, `ResilientClient.dfy` | the outbound HTTP stack |
| `Exposition.dfy`, `Metrics.dfy` | the Prometheus text format; label sets and histograms |
| `ReplicaRouter.dfy` | reads going round the usable replicas |
| `DeadLetters.dfy` | parked events, their replay, the schema registry |
| `FontCache.dfy` | the single-flight font download of link previews |
| `Waf.dfy`, `PercentEncoding.dfy` | bounded decoding, the bounded walk over a body; UTF-8 in percent-encoded octets |
| `BodyPlaces.dfy`, `WafCollector.dfy` | where the strings of a body stand; the values of a request that are inspected |

## How the sanitizer is proved

`Pipeline.Sanitize` is four small passes over data: `Lex`, `Clean`, `Balance`, `Print`. The imperative
`Sanitizer.SanitizeHtml` keeps the variables of the original (`i`, `out`, `text`, `stack`, `dropping`)
and its loop invariant is `out + Tail(rest, text, stack) == Sanitize(input)`, so it computes the
pipeline; a second invariant says that a strict reader of `out` has exactly `stack` open. Idempotence
then is a statement about data: printed allowed pieces are read back as those pieces with adjacent
text merged (`RoundTrip.PiecesOfPrinted`), balancing what is nested changes nothing
(`RoundTrip.BalanceOfNested`), and every output is the print of allowed nested pieces
(`Pipeline.OutputIsAllowedAndNested`).

Output that is allowed, nested and stable could still be the wrong output. `Markup`, `AttributeForms` and
`References` therefore say of each form of the input, character by character, what it is read as, and
`Effects` what each token does: after any printed pieces, written with the names they leave open, a token
that is ignored may as well not be there, a text or a kept tag may as well be its own print, and a close
tag of an open element may as well be the close tags of everything it closes (`Effects.MisnestedCloseClosesAll`).

## How the cache is proved

`CacheProtocol` takes every command on the store as one step. Under every interleaving no invalidation
bumped a tag between the two readings of its counter by the writer of a live entry, and a live entry is
current for a tag exactly when the tag has not been bumped since the second of these readings. The state
also records (`overlap`) which invalidations of a tag were under way, or began, between that reading and
the indexing of the entry. Whenever no invalidation of the tag is under way, a live entry is current exactly
when none overlapped its write; two runs show that one can. `TaggedCache` takes a store and an invalidation
as one step each (`WholeOperations` proves that this is what their commands come to when none of another
party fall between), where freshness holds without proviso, and carries the request of every writer into its
entry: what a hit returns was produced for the same route, user, declared parameters and query text.

## How the keys are proved

A key is a route, a user scope and escaped segments behind colons. Routes and user ids are not escaped, but
an escaped segment can be read back from the right whatever stands before it, because none of its colons
follows an even number of backslashes (`KeySegments.LastSegment`). Reading two equal keys from the right
gives exactly the requests that share one (`CacheKeys.SharedKeyIff`).

## Where the code and its documentation differ

- `backend/src/modules/shared/cache/tag-generation.ts:37-39` says a write that started
  before an invalidation can never complete after it. The check and the write are separate commands and the bump
  comes after the sweep, so it can: `CacheProtocol.WriteAfterMissedInvalidation` and
  `CacheProtocol.WriteBehindSweep` are the two runs.
- `backend/src/common/decorators/cache.decorator.ts:163-166` says two requests share a key only when
  they are the same request. They share one exactly when route, user and declared parameters are the same
  and the query texts are, or when the user id of one spells segments of the other
  (`CacheKeys.SharedKeyIff`). The claim fails for queries because `=` and `&` are not escaped and values are
  keyed by their text: `a=1&b=2` always has a partner, the one parameter `a` whose value is `1&b=2`
  (`CacheKeys.QueryIsSharedIff` says which queries of strings have one), and every value has one, the list
  that holds only it (`CacheKeys.ValueIsKeyedByItsText`, `CacheKeys.ListsAreKeyedLikeStrings`). It fails for
  user ids with a colon, with no declared parameters (`CacheKeys.ColonInUserIdCollides`) and with two
  (`CacheKeys.ColonInUserIdCollidesBesideParams`) or more, never with one (`CacheKeys.OneKeyParamDelimits`).
- `frontend/src/lib/sanitize-html.ts:342-344` says attribute values are decoded when they are parsed;
  they are decoded once, later, when they are rendered. The check for the end of a dropped element
  does not look at the character after `<`, so any character there ends it
  (`Content.AnySecondCharacterEndsDropped`); `Content.EndsProperlyIff` says when that makes no difference.
- The scheme check lower-cases with Unicode rules: a Kelvin sign before a colon is refused as the scheme
  `k` although RFC 3986 sees no scheme (`Urls.KelvinSignIsReadAsScheme`); `Urls.VerdictDiffersIff` says for
  which values the verdict departs from the RFC.
- A breaker call whose success cannot be stored is counted as a success and as a failure
  (`CircuitBreaker.TotalsAddUpIff`, `CircuitBreaker.UnstoredSuccessCountsTwice`).
- A metric that declares no labels silently takes undeclared ones (`Metrics.UndeclaredLabelsOfBareMetric`),
  and reading the count of a histogram series that does not exist creates it (`Metrics.Histogram.Count`).
- `backend/src/common/events/event-validator.service.ts:87` says parked events are listed oldest first;
  they are listed newest first (`DeadLetters.EventValidatorService.ListDeadLettered`). Without a queue an
  invalid event is lost, which is exactly when conservation fails (`DeadLetters.EventValidatorService.Emit`).

## Model

| member | source | states |
|---|---|---|
| `Entities.DecodeUndoesEscape` | `frontend/src/lib/sanitize-html.ts:200-216` | decoding gives back every text that was escaped, for text and for attribute values |
| `Entities.EscapeTextConcat` | `frontend/src/lib/sanitize-html.ts:276-278` | escaping distributes over concatenation, so text may be escaped piece by piece |
| `Entities.EscapesAreCharwise` | `frontend/src/lib/sanitize-html.ts:276-287` | the chained replacements never meet each other: they equal one pass character by character |
| `Entities.EscapeLeavesNoMarkup` | `frontend/src/lib/sanitize-html.ts:276-287` | escaped text holds no `<` or `>`, an escaped attribute value no `"` either |
| `References.DecimalReference` | `frontend/src/lib/sanitize-html.ts:200-216` | a decimal reference, whatever follows, is the character of its code point, and nothing beyond the last code point |
| `References.HexReference` | `frontend/src/lib/sanitize-html.ts:200-216` | the same for a hexadecimal one, digits in either case |
| `References.NamedReference` | `frontend/src/lib/sanitize-html.ts:200-216` | a name is looked up as written, then in lower case; in neither form known, it stays |
| `References.UnclosedReference` | `frontend/src/lib/sanitize-html.ts:200-216` | a name without its semicolon stays as written |
| `Urls.IsSafeUrlIff` | `frontend/src/lib/sanitize-html.ts:244-256` | a URL is accepted exactly when it stays on its origin and every scheme its lower case carries is allowlisted |
| `Urls.AcceptedUrlIsHarmless` | `frontend/src/lib/sanitize-html.ts:244-256` | an accepted URL, stripped, does not leave the origin and has no RFC 3986 section 3.1 scheme outside the allowlist |
| `Urls.VerdictDiffersIff` | `frontend/src/lib/sanitize-html.ts:244-256` | the verdict departs from the RFC 3986 reading exactly when the value stays on its origin and a Kelvin sign stands in a refused scheme of its lower case |
| `Urls.VerdictIsTheRfcReading` | `frontend/src/lib/sanitize-html.ts:244-256` | a value without a Kelvin sign gets exactly the RFC 3986 verdict |
| `Urls.KelvinSignIsReadAsScheme` | `frontend/src/lib/sanitize-html.ts:244-256` | a value without any RFC 3986 scheme that is refused as if it had one |
| `Urls.ControlCharsDoNotMatter` | `frontend/src/lib/sanitize-html.ts:219-256` | inserting or deleting control and space characters anywhere leaves the verdict alone |
| `Urls.StripIs` | `frontend/src/lib/sanitize-html.ts:219-221` | exactly U+0000 to U+0020 and U+007F to U+009F are stripped, every other character stays in place |
| `Urls.StrippedCharacterDoesNotMatter` | `frontend/src/lib/sanitize-html.ts:219-256` | such a character, anywhere in a URL, leaves the verdict alone |
| `Urls.VerdictByCharacters` | `frontend/src/lib/sanitize-html.ts:244-256` | without them, the verdict by the first two characters and the schemes: the refused beginnings are `//`, `/\` and `\` |
| `Urls.AcceptedSchemes` | `frontend/src/lib/sanitize-html.ts:258-273` | an accepted link has no scheme but `http`, `https` and `mailto`, an accepted image none but the first two |
| `Attributes.ParseAttributes` | `frontend/src/lib/sanitize-html.ts:345-363` | the loop over matches yields the attributes, the last of a name winning, and ends |
| `AttributeForms.UnquotedAttribute` | `frontend/src/lib/sanitize-html.ts:345-363` | an unquoted value is read up to a blank, a `>` or the end, under the lower-cased name, and reading goes on behind it |
| `AttributeForms.QuotedAttribute` | `frontend/src/lib/sanitize-html.ts:345-363` | a value in quotes of either kind is read up to the same quote |
| `AttributeForms.BareAttribute` | `frontend/src/lib/sanitize-html.ts:345-363` | a name without an equals sign is an empty value |
| `AttributeForms.NoFurtherAttribute` | `frontend/src/lib/sanitize-html.ts:345-363` | blanks and slashes alone are no attribute |
| `Attributes.RenderAttributes` | `frontend/src/lib/sanitize-html.ts:304-337` | what is printed is the print of exactly the attributes the policy keeps; nothing when the element must go |
| `Attributes.KeptIsAllowed` | `frontend/src/lib/sanitize-html.ts:304-337` | `a` keeps at most a safe `href`, `img` a safe `src` and in-range dimensions, every other tag nothing |
| `Dimensions.DimensionIsKeptIff` | `frontend/src/lib/sanitize-html.ts:93-107` | one to five digits with `px`, `em` or `%`, or without a unit from 1 to 10000, and nothing else |
| `Dimensions.TrimmedDimension` | `frontend/src/lib/sanitize-html.ts:320-333` | blanks around a dimension are dropped first |
| `Attributes.ReadPrintedAttr` | `frontend/src/lib/sanitize-html.ts:345-363` | a printed attribute is read back under its name with its escaped value, whatever follows |
| `Attributes.KeepPrinted` | `frontend/src/lib/sanitize-html.ts:304-363` | reading printed attributes and keeping again gives the same attributes |
| `Attributes.KeepPrintedImage` | `frontend/src/lib/sanitize-html.ts:304-363` | the same for images: trimming, decoding and range checks are settled after one pass |
| `Tokenizer.FindTagEnd` | `frontend/src/lib/sanitize-html.ts:378-394` | the loop with its shortcut returns what the plain quote-aware scan returns |
| `Tokenizer.NoTagEndPastLastGt` | `frontend/src/lib/sanitize-html.ts:378-384` | the shortcut is exact: at or past the last `>` no tag ends |
| `Markup.OpenTagIsRead` | `frontend/src/lib/sanitize-html.ts:526-563` | an open tag, in whatever case and with whatever its quotes hold, is read as its lower-cased name with its attributes; a script or style as nothing, with its content |
| `Markup.CloseTagIsRead` | `frontend/src/lib/sanitize-html.ts:534-540` | a close tag is read as its lower-cased name, blanks before and anything behind it ignored |
| `Markup.QuotedEnds` | `frontend/src/lib/sanitize-html.ts:378-394` | a quoted stretch may hold any `>` without ending its tag |
| `Markup.StrayLtIsText` | `frontend/src/lib/sanitize-html.ts:511-520` | a `<` before anything but a letter, `/` or `!` is text |
| `Markup.UnterminatedTagIsText` | `frontend/src/lib/sanitize-html.ts:522-532` | so is a `<` whose tag never ends |
| `Markup.CommentIsSkipped` | `frontend/src/lib/sanitize-html.ts:486-496` | a comment ends behind the first `-->` behind its opening, or with the document |
| `Markup.DeclarationIsSkipped` | `frontend/src/lib/sanitize-html.ts:504-509` | any other declaration but CDATA ends at its `>`, quotes considered, or with the document |
| `Pipeline.BalanceIsNested` | `frontend/src/lib/sanitize-html.ts:539-581` | from any open elements, balancing any pieces gives allowed, well-nested pieces |
| `Pipeline.OutputIsAllowedAndNested` | `frontend/src/lib/sanitize-html.ts:433-582` | for every input the output pieces are allowlisted and well nested, void tags neither pushed nor closed |
| `RoundTrip.NextPrintedStart` | `frontend/src/lib/sanitize-html.ts:552-572` | a printed open tag is tokenized as that tag, with nothing left over |
| `RoundTrip.NextPrintedEnd` | `frontend/src/lib/sanitize-html.ts:539-550` | a printed close tag is tokenized as that tag, with nothing left over |
| `RoundTrip.ReadPrinted` | `frontend/src/lib/sanitize-html.ts:433-582` | reading printed allowed pieces, nested or not, gives them back with adjacent text merged |
| `RoundTrip.PiecesOfPrinted` | `frontend/src/lib/sanitize-html.ts:433-582` | the same from the start of a document |
| `RoundTrip.BalanceOfNested` | `frontend/src/lib/sanitize-html.ts:539-581` | balancing what is well nested changes nothing |
| `RoundTrip.PrintedIsFixedPoint` | `frontend/src/lib/sanitize-html.ts:433-582` | the print of any well-nested allowlisted pieces is left alone by the sanitizer |
| `RoundTrip.SanitizeIsIdempotent` | `frontend/src/lib/sanitize-html.ts:433-582` | sanitizing twice is sanitizing once, for every string |
| `OutputShape.StrictReadConcat` | `frontend/src/lib/sanitize-html.ts:539-581` | the strict reader may stop between tags and go on with the elements it has open |
| `OutputShape.AppendPiece` | `frontend/src/lib/sanitize-html.ts:539-581` | appending an allowed piece keeps the stack equal to what the strict reader has open |
| `OutputShape.OutputIsStrictlyNested` | `frontend/src/lib/sanitize-html.ts:433-582` | every output, of misnested and truncated input alike, is accepted by the strict reader with nothing left open |
| `OutputShape.EveryLtStartsAnAllowedTag` | `frontend/src/lib/sanitize-html.ts:433-582` | every `<` of the output starts an allowlisted tag with only the attributes its element may have |
| `Sanitizer.SanitizeHtml` | `frontend/src/lib/sanitize-html.ts:433-582` | the one-pass loop computes the pipeline, ends, and leaves nothing open |
| `Sanitizer.CloseTag` | `frontend/src/lib/sanitize-html.ts:539-550` | a close tag of nothing open changes nothing but the pending text; one of an open element closes everything opened after it and then it, innermost first |
| `Sanitizer.CloseElements` | `frontend/src/lib/sanitize-html.ts:543-548` | popping down to an element appends the close tags of everything above and including it |
| `Sanitizer.OpenTag` | `frontend/src/lib/sanitize-html.ts:552-572` | an open tag appends what cleaning and printing that tag appends, and pushes it unless it is void |
| `Sanitizer.SkipDropped` | `frontend/src/lib/sanitize-html.ts:452-472` | one step of dropping goes where the recursive definition of dropped content goes |
| `Sanitizer.SkipDeclaration` | `frontend/src/lib/sanitize-html.ts:486-510` | comments, CDATA sections and other declarations end where the tokenizer says, and the index advances |
| `Content.TextSurvives` | `frontend/src/lib/sanitize-html.ts:444-448` | the text of the output, decoded, is exactly the once-decoded text that was kept |
| `Content.EscapedTextIsUnchanged` | `frontend/src/lib/sanitize-html.ts:474-484` | escaped text comes back as it was written |
| `Content.DropContentIs` | `frontend/src/lib/sanitize-html.ts:452-472` | closed, unterminated or never closed: dropping leaves what stands past the tag at the first `<` that passes the check, or nothing |
| `Content.DroppingEnds` | `frontend/src/lib/sanitize-html.ts:452-472` | there is exactly one such place in every input |
| `Content.DroppedContentIsGone` | `frontend/src/lib/sanitize-html.ts:452-472` | for every dropped element, wherever it stands and however it ends, nothing inside it reaches the output |
| `Content.UnclosedDropsTheRest` | `frontend/src/lib/sanitize-html.ts:452-472` | after an element that is never closed only the pending text and the open elements' close tags are printed |
| `Content.AnySecondCharacterEndsDropped` | `frontend/src/lib/sanitize-html.ts:411-416` | with any character after the `<`, not only `/`, dropping ends there; what is left behind it, quotes aside |
| `Content.EndsProperlyIff` | `frontend/src/lib/sanitize-html.ts:411-416` | dropping ends at the first `</` close tag exactly when no earlier `<` has the name and a terminator behind another character |
| `Effects.TextIsItsPrint` | `frontend/src/lib/sanitize-html.ts:444-484` | after any printed pieces, text up to a tag or the end may as well be its own decoded and escaped print |
| `Effects.SkippedIsIgnored` | `frontend/src/lib/sanitize-html.ts:452-510` | a comment, a declaration or a dropped element may as well not be there |
| `Effects.StrayCloseIsIgnored` | `frontend/src/lib/sanitize-html.ts:539-542` | nor a close tag of an element that is not open |
| `Effects.UnkeptTagIsIgnored` | `frontend/src/lib/sanitize-html.ts:552-567` | nor an open tag that is not allowlisted or must go |
| `Effects.KeptTagIsItsPrint` | `frontend/src/lib/sanitize-html.ts:552-572` | an open tag that is kept may as well be the print of its name and kept attributes |
| `Effects.MisnestedCloseClosesAll` | `frontend/src/lib/sanitize-html.ts:539-550` | a close tag of an open element may as well be the close tags of everything opened after it and its own |
| `CacheProtocol.CountingKept` | `backend/src/modules/shared/cache/tag-generation.ts:74-121` | every command keeps every reading equal to the number of bumps at the time it was taken |
| `CacheProtocol.NoBumpBetweenReadings` | `backend/src/common/interceptors/cache.interceptor.ts:137-168` | in every interleaving, no tag of a live entry was bumped between its writer's snapshot and its check |
| `CacheProtocol.WriteIsRefusedIff` | `backend/src/common/interceptors/cache.interceptor.ts:137-168` | in every interleaving, a writer that has made its last check is refused exactly when one of its tags was bumped between the two readings |
| `CacheProtocol.FreshKept` | `backend/src/common/interceptors/cache.interceptor.ts:99-168` | every command keeps the freshness of positions no invalidation overlapped |
| `CacheProtocol.OverlapsKept` | `backend/src/common/interceptors/cache.interceptor.ts:99-168` | every command keeps that an invalidation on record as overlapping a write is under way or has bumped the tag since its check |
| `CacheProtocol.LiveEntriesAreFresh` | `backend/src/common/interceptors/cache.interceptor.ts:99-168` | in every interleaving, a live entry no invalidation of a tag overlapped is current for it, and, once none is under way, exactly those are |
| `CacheProtocol.EntryIsCurrentIff` | `backend/src/common/interceptors/cache.interceptor.ts:137-168` | in every interleaving, a live entry is current for a tag exactly when the tag was not bumped since its writer's check |
| `CacheProtocol.WriteAfterMissedInvalidation` | `backend/src/modules/shared/cache/tag-generation.ts:37-39` | a run after which an entry has outlived an invalidation: it was checked before and written after |
| `CacheProtocol.WriteBehindSweep` | `backend/src/modules/shared/cache/tag-generation.ts:37-39` | a second such run: the check falls between the sweep and the bump |
| `TaggedCache.CacheInterceptor.InvalidateTag` | `backend/src/common/interceptors/cache.interceptor.ts:99-128` | one tag's keys are deleted, its index dropped, its counter bumped, and the keys are counted |
| `TaggedCache.CacheInterceptor.InvalidateTags` | `backend/src/common/interceptors/cache.interceptor.ts:99-128` | the loop over tags, and the counter of invalidations grows by the keys removed |
| `TaggedCache.CacheInterceptor.StoreWithTags` | `backend/src/common/interceptors/cache.interceptor.ts:137-168` | the entry and its index are written exactly when the snapshot is unreadable, or still current |
| `TaggedCache.OperationKeepsFresh` | `backend/src/common/interceptors/cache.interceptor.ts:99-168` | every whole operation keeps every entry current, indexed under all its tags, and not invalidated since it was loaded |
| `TaggedCache.RunIsFresh` | `backend/src/common/interceptors/cache.interceptor.ts:273-298` | the same after every run |
| `TaggedCache.NothingInvalidatedSurvives` | `backend/src/common/interceptors/cache.interceptor.ts:273-298` | after any run, what is served was loaded after the last invalidation of each of its tags |
| `TaggedCache.StoredIff` | `backend/src/common/interceptors/cache.interceptor.ts:137-168` | after any run, a response is stored exactly when none of its tags was invalidated since its request began |
| `TaggedCache.InvalidatedAllIs` | `backend/src/common/interceptors/cache.interceptor.ts:99-128` | an invalidation deletes exactly the keys listed under one of its tags, empties their lists, and leaves the other lists and counters |
| `WholeOperations.CallInvalidates` | `backend/src/common/interceptors/cache.interceptor.ts:99-128` | from any state of the store, the commands of an invalidation nobody interrupts come to the one step |
| `WholeOperations.RequestStores` | `backend/src/common/interceptors/cache.interceptor.ts:137-168` | and so do those of a request that misses, loads and stores |
| `TaggedCache.EntryIsProduced` | `backend/src/common/interceptors/cache.interceptor.ts:273-298` | after any run, an entry stands under the key of the request it was produced for |
| `TaggedCache.HitIsForSameRequest` | `backend/src/common/interceptors/cache.interceptor.ts:217-251` | after any run, a hit returns a response produced for the same route, user, declared parameters and query text |
| `CacheKeys.BuildCacheKey` | `backend/src/common/decorators/cache.decorator.ts:172-190` | the pushed and joined segments, from the request's own query values, are the key the theorems below are about |
| `Sorting.SortBySorts` | `backend/src/common/decorators/cache.decorator.ts:129-137` | the sort puts any list in order, for any order |
| `Sorting.SortByKeeps` | `backend/src/common/decorators/cache.decorator.ts:129-137` | and loses nothing |
| `Sorting.SortedIsUnique` | `backend/src/common/decorators/cache.decorator.ts:129-137` | elements the order tells apart have one sorted list |
| `KeySegments.SegmentsFromRight` | `backend/src/common/decorators/cache.decorator.ts:107-109` | two texts of escaped segments that are equal, whatever stands before them, have the same segments from the right |
| `QueryKeys.QueryTextIsEscaped` | `backend/src/common/decorators/cache.decorator.ts:129-137` | the keyed text is the plain `name=value` text escaped as one, so only the plain text tells queries apart |
| `QueryKeys.SameCanonicalQuery` | `backend/src/common/decorators/cache.decorator.ts:129-137` | the same parameters in any order have one canonical query |
| `QueryKeys.TextIsSharedIff` | `backend/src/common/decorators/cache.decorator.ts:129-137` | a canonical query shares its text with another exactly when it has two pairs, or one with a further `=` |
| `QueryKeys.PlainTextIsFaithful` | `backend/src/common/decorators/cache.decorator.ts:129-137` | canonical queries without `&`, and without `=` in names, never share their text |
| `CacheKeys.QueryOrderDoesNotMatter` | `backend/src/common/decorators/cache.decorator.ts:129-137` | requests whose queries differ only in order share a key |
| `CacheKeys.SharedKeyIff` | `backend/src/common/decorators/cache.decorator.ts:107-190` | exactly which requests of one decorator share a key, for all user ids |
| `CacheKeys.SharedKeyIsOneRoute` | `backend/src/common/decorators/cache.decorator.ts:172-190` | requests of any two decorators that share a key have namespace and route in common |
| `CacheKeys.KeyIsItsDimensions` | `backend/src/common/decorators/cache.decorator.ts:107-190` | without colons in routes and user ids, two requests share a key exactly when route, user, declared parameters and query text are the same |
| `CacheKeys.OneKeyParamDelimits` | `backend/src/common/decorators/cache.decorator.ts:139-190` | with one declared parameter the same holds for all user ids |
| `CacheKeys.DeclaredParameterIsKeyed` | `backend/src/common/decorators/cache.decorator.ts:172-190` | a declared parameter separates keys by its value, taken from the route parameters, else from the request, else empty |
| `CacheKeys.QueryIsSharedIff` | `backend/src/common/decorators/cache.decorator.ts:163-166` | another query of strings shares the key exactly when the query has two parameters, or one with a further `=` |
| `CacheKeys.ValueIsKeyedByItsText` | `backend/src/common/decorators/cache.decorator.ts:112-123` | in any query, a value of any kind is keyed like the string it turns into and like the list that holds only it |
| `CacheKeys.ValuesOfOtherKinds` | `backend/src/common/decorators/cache.decorator.ts:111-137` | nothing, the empty list and the empty string are keyed alike, and an object like its serialisation |
| `CacheKeys.SharedKeyIsSameRequest` | `backend/src/common/decorators/cache.decorator.ts:163-190` | without colons in routes and user ids, with string values, no `&` in the queries and no `=` in their names, requests that share a key are the same request |
| `CacheKeys.AmpersandInValueCollides` | `backend/src/common/decorators/cache.decorator.ts:163-166` | a request whose value spells a further parameter shares the key of the request that has that parameter |
| `CacheKeys.ListsAreKeyedLikeStrings` | `backend/src/common/decorators/cache.decorator.ts:112-123` | a request with a list of two strings shares the key of the one with these strings joined by a comma |
| `CacheKeys.ColonInUserIdCollides` | `backend/src/common/decorators/cache.decorator.ts:172-190` | without declared parameters, a user id that spells a query shares the key of another user's request |
| `CacheKeys.ColonInUserIdCollidesBesideParams` | `backend/src/common/decorators/cache.decorator.ts:172-190` | and with two, one that spells the first of them |
| `CircuitBreaker.CircuitBreakerService.Enter` | `backend/src/common/resilience/circuit-breaker.service.ts:144-166` | who is admitted, rejected or made the probe, and the record after it |
| `CircuitBreaker.CircuitBreakerService.BeginProbe` | `backend/src/common/resilience/circuit-breaker.service.ts:150-166` | a probe whose transition is stored begins its call |
| `CircuitBreaker.CircuitBreakerService.OnSuccess` | `backend/src/common/resilience/circuit-breaker.service.ts:167-185` | the record after a success |
| `CircuitBreaker.CircuitBreakerService.OnFailure` | `backend/src/common/resilience/circuit-breaker.service.ts:186-205` | the record after a failure |
| `CircuitBreaker.ConsistentKept` | `backend/src/common/resilience/circuit-breaker.service.ts:109-207` | every event of an interleaving keeps the totals, the bounds of each mode, and the record equal to its history |
| `CircuitBreaker.RunIsConsistent` | `backend/src/common/resilience/circuit-breaker.service.ts:109-207` | the same after every run from a fresh record |
| `CircuitBreaker.TransitionsAreEarned` | `backend/src/common/resilience/circuit-breaker.service.ts:109-207` | over whole runs: which transitions exist, and what completions must have come before each |
| `CircuitBreaker.ModeIsEarnedIff` | `backend/src/common/resilience/circuit-breaker.service.ts:109-207` | over whole runs, the mode after every event by the history alone: it trips exactly at the failure that completes the threshold in a row since it became closed, at any failure when half open, closes exactly at the success that completes its threshold, and is half open exactly at an entry when due |
| `CircuitBreaker.OpenRejects` | `backend/src/common/resilience/circuit-breaker.service.ts:148-164` | while open and not due, an entry changes nothing but the count of rejections |
| `CircuitBreaker.TotalsAddUpIff` | `backend/src/common/resilience/circuit-breaker.service.ts:144-207` | successes and failures count the completions; calls equal both and the calls in flight exactly when no success failed to be stored |
| `CircuitBreaker.UnstoredSuccessCountsTwice` | `backend/src/common/resilience/circuit-breaker.service.ts:167-205` | the shortest run after which they do not |
| `Retry.Execute` | `backend/src/common/resilience/retry.service.ts:46-77` | the loop stops at the first success, at the first error not worth retrying, or with no retry left, and gives the last outcome |
| `Retry.RetryRunIsUnique` | `backend/src/common/resilience/retry.service.ts:46-77` | that describes one number of attempts |
| `Retry.DelayIsBounded` | `backend/src/common/resilience/retry.service.ts:35-40` | no delay exceeds cap plus jitter, none is negative |
| `Retry.DelayIsAtLeast` | `backend/src/common/resilience/retry.service.ts:35-40` | no delay is shorter than the capped exponential one, rounded down |
| `Retry.DelaysGrow` | `backend/src/common/resilience/retry.service.ts:35-40` | with the same jitter no delay is shorter than the one before, when the multiplier is at least one |
| `Retry.TotalDelayIsBounded` | `backend/src/common/resilience/retry.service.ts:35-77` | the delays of a run add up to at most one cap and one jitter a delay |
| `Retry.RetriesAreBounded` | `backend/src/common/resilience/retry.service.ts:35-77` | and so to at most that for each retry allowed |
| `ResilientClient.AttemptsFollow` | `backend/src/common/resilience/resilient-http.client.ts:36-82` | each attempt starts from the breaker the one before left, after its delay, and only when it was worth retrying |
| `ResilientClient.AttemptsAreRetryRun` | `backend/src/common/resilience/resilient-http.client.ts:36-82` | the attempts of a request through the breaker are exactly a run of the retry loop |
| `ResilientClient.OpenBreakerEndsCalls` | `backend/src/common/resilience/resilient-http.client.ts:36-82` | while the breaker an attempt left open has not recovered, a later attempt of the request only counts a rejection |
| `ResilientClient.EntryTime` | `backend/src/common/resilience/resilient-http.client.ts:36-82` | an attempt is entered after the delays and the attempts since an earlier one, added up |
| `ResilientClient.CallsEndWithinRecovery` | `backend/src/common/resilience/resilient-http.client.ts:36-82` | after an attempt opens the breaker, none that delays and attempts put within the recovery timeout reaches the call |
| `ResilientClient.OpenBreakerEndsRequest` | `backend/src/common/resilience/resilient-http.client.ts:36-82` | when the retries left are over before that timeout even at the longest configured delays, no later attempt of the request reaches the call |
| `ResilientClient.RefusalEndsRequest` | `backend/src/common/utils/fetch.util.ts:78-88` | by the default rule a refusal is the last attempt, and every attempt before the last failed with an error worth retrying |
| `ResilientClient.RequestDegradesInOrder` | `backend/src/common/resilience/resilient-http.client.ts:36-82` | a request serves its success, else the stale entry, else the fallback, and rethrows only without any |
| `Exposition.EscapeLabelValueIsCharwise` | `backend/src/common/observability/prometheus-registry.ts:127-129` | the chained replacements of a label value equal one pass character by character |
| `Exposition.SampleLineRoundTrip` | `backend/src/common/observability/prometheus-registry.ts:247-264` | parsing a rendered sample by the text format gives back the metric, the labels and the value |
| `Exposition.SampleLinesAreDistinct` | `backend/src/common/observability/prometheus-registry.ts:233-264` | distinct samples never render to the same line |
| `Exposition.SampleIsOneLine` | `backend/src/common/observability/prometheus-registry.ts:233-264` | a sample stays on one line whatever its label values hold |
| `Exposition.BlockIsReadBack` | `backend/src/common/observability/prometheus-registry.ts:233-244` | splitting a rendered metric at its newlines gives its header and its samples, each as it was |
| `Metrics.ResolveLabels` | `backend/src/common/observability/prometheus-registry.ts:196-218` | exactly the declared labels in declared order, and when it throws |
| `Metrics.SameSeriesIff` | `backend/src/common/observability/prometheus-registry.ts:185-218` | two accepted label sets reach one series exactly when they are the same |
| `Metrics.UndeclaredLabelsOfBareMetric` | `backend/src/common/observability/prometheus-registry.ts:196-200` | a metric without labels accepts any labels, all for one series |
| `Metrics.SortRealsSorts` | `backend/src/common/observability/prometheus-registry.ts:384-391` | the bucket boundaries are sorted and none is lost |
| `Metrics.Histogram.Create` | `backend/src/common/observability/prometheus-registry.ts:384-391` | a histogram starts empty with sorted boundaries |
| `Metrics.Histogram.Observe` | `backend/src/common/observability/prometheus-registry.ts:400-413` | an observation changes its own series only, as the specification says |
| `Metrics.Histogram.Count` | `backend/src/common/observability/prometheus-registry.ts:416-418` | the count of a series, which is created empty when it does not exist |
| `Metrics.BucketsCountObservations` | `backend/src/common/observability/prometheus-registry.ts:400-452` | after any observations each bucket holds the number at or below its bound, with their count and sum |
| `Metrics.RenderedHistogramIsCumulative` | `backend/src/common/observability/prometheus-registry.ts:420-432` | rendered buckets never decrease, none exceeds `+Inf`, `+Inf` equals `_count`, `_sum` is the total |
| `Metrics.RenderedHistogramIsReadBack` | `backend/src/common/observability/prometheus-registry.ts:420-432` | every line of a rendered histogram parses back to its sample |
| `ReplicaRouter.Router.ProbeReplicaHealth` | `backend/src/db/router.ts:147-180` | what one probe records, of that replica only |
| `ReplicaRouter.Router.GetNextReplica` | `backend/src/db/router.ts:207-226` | a pick is recorded healthy and within the lag limit, and there is none exactly when no replica is usable |
| `ReplicaRouter.Router.Route` | `backend/src/db/router.ts:273-305` | only reads leave the primary, only for a usable replica, and stay only when there is none |
| `ReplicaRouter.Router.CloseDatabase` | `backend/src/db/router.ts:389-400` | closing forgets the replicas and starts the round again |
| `ReplicaRouter.PickAt` | `backend/src/db/router.ts:220-226` | where the j-th of consecutive picks falls |
| `ReplicaRouter.RoundIsRotation` | `backend/src/db/router.ts:220-226` | one round of picks is the usable list rotated, whatever the starting index |
| `ReplicaRouter.EachReplicaOnceARound` | `backend/src/db/router.ts:207-226` | with n usable replicas any n consecutive picks use each exactly once and no other |
| `DeadLetters.SortByTimeSorts` | `backend/src/common/events/dlq.service.ts:69-81` | sorting by time puts the newest first and loses nothing |
| `DeadLetters.DLQService.Add` | `backend/src/common/events/dlq.service.ts:25-38` | an event is stored and indexed under its id |
| `DeadLetters.DLQService.Get` | `backend/src/common/events/dlq.service.ts:40-48` | the one live entry of that id, which the index lists; none for an id whose entry expired |
| `DeadLetters.DLQService.Retry` | `backend/src/common/events/dlq.service.ts:50-62` | one more attempt is counted, and nothing else changes |
| `DeadLetters.DLQService.Delete` | `backend/src/common/events/dlq.service.ts:64-67` | the entry and its index are gone, and nothing else |
| `DeadLetters.DLQService.List` | `backend/src/common/events/dlq.service.ts:69-81` | exactly the live entries, each once, newest first, whatever expired ids the index still holds |
| `DeadLetters.DLQService.Clear` | `backend/src/common/events/dlq.service.ts:83-90` | the loop over the index leaves neither entries nor index |
| `DeadLetters.DLQService.GetStats` | `backend/src/common/events/dlq.service.ts:92-102` | the number of live entries, in all and for each event name |
| `DeadLetters.EventSchemaRegistry.RegisterSchema` | `backend/src/common/events/event-schema-registry.ts:24-28` | the schema registered last is the one an event without a version is validated against |
| `DeadLetters.ParkedEventsWithout` | `backend/src/common/events/dlq.service.ts:25-67` | the parked events as a multiset: removing an id removes exactly its event |
| `DeadLetters.EventValidatorService.Emit` | `backend/src/common/events/event-validator.service.ts:18-27` | an event is delivered or parked, exactly once; conservation is kept exactly when it is valid or there is a queue |
| `DeadLetters.EventValidatorService.ReplayDeadLettered` | `backend/src/common/events/event-validator.service.ts:60-84` | replay moves an event from parked to delivered or counts an attempt, and conserves what was emitted |
| `DeadLetters.EventValidatorService.ListDeadLettered` | `backend/src/common/events/event-validator.service.ts:93-107` | as many of the newest parked events as the limit allows; what is cut off is older than all that is listed |
| `FontCache.OgFonts.Request` | `frontend/src/lib/og-font.ts:192-213` | what a caller gets at once, and whether it starts the download |
| `FontCache.OgFonts.Settle` | `frontend/src/lib/og-font.ts:213-231` | what a finished download leaves behind, and that a caller never gets an empty list |
| `FontCache.OgFonts.Release` | `frontend/src/lib/og-font.ts:233-237` | the shared download is let go |
| `FontCache.RunIsConsistent` | `frontend/src/lib/og-font.ts:192-238` | every interleaving keeps one download at most, and the cache equal to its history |
| `FontCache.DownloadsAreBounded` | `frontend/src/lib/og-font.ts:192-238` | no two downloads at a time, none after a success, none within a minute of a failure, no empty answer |
| `FontCache.AnswerIsEarned` | `frontend/src/lib/og-font.ts:192-238` | what a caller gets, by the history alone: the faces of the download that succeeded, else nothing within a minute of a failure, else the download under way, else a new one |
| `Waf.DecodingShortens` | `backend/src/common/middleware/waf.middleware.ts:152-167` | a decoding pass that changes a value shortens it, and it changes every value with a percent sign |
| `Waf.DecodeForInspection` | `backend/src/common/middleware/waf.middleware.ts:152-167` | the loop computes the iterated decoding |
| `Waf.InspectionEnds` | `backend/src/common/middleware/waf.middleware.ts:145-167` | the passes made, each shortening the value: eight, unless they end earlier at an undecodable value or one without a percent sign |
| `Waf.DecodeUndoesEncode` | `backend/src/common/middleware/waf.middleware.ts:152-167` | one pass undoes one encoding of the percent signs |
| `Waf.NestedEncodingIsUnwrapped` | `backend/src/common/middleware/waf.middleware.ts:145-167` | any value whose percent signs were encoded again is inspected as it was, at one pass for each time |
| `PercentEncoding.SequenceIsReadIff` | `backend/src/common/middleware/waf.middleware.ts:152-167` | octets are read as a character exactly when they are its shortest UTF-8 encoding |
| `PercentEncoding.DecodeUndoesPercentEncoding` | `backend/src/common/middleware/waf.middleware.ts:152-167` | one pass reads the text back whichever of its characters were percent-encoded |
| `Waf.CollectBodyStrings` | `backend/src/common/middleware/waf.middleware.ts:169-201` | the sink receives the first of what an unbounded walk would collect, all of it or at least 200, never more than 201 |
| `Waf.CollectItems` | `backend/src/common/middleware/waf.middleware.ts:177-186` | the same for the entries of an array |
| `Waf.CollectFields` | `backend/src/common/middleware/waf.middleware.ts:188-201` | the same for the entries of an object |
| `BodyPlaces.PlacesAre` | `backend/src/common/middleware/waf.middleware.ts:169-201` | the walk visits exactly the strings, keys and non-empty arrays and objects at most eight levels deep |
| `BodyPlaces.PlacesInOrder` | `backend/src/common/middleware/waf.middleware.ts:169-201` | in document order, none twice |
| `BodyPlaces.StringsAre` | `backend/src/common/middleware/waf.middleware.ts:169-201` | and collects of each its own text, or the first 4096 characters |
| `WafCollector.NormalizedKeepsNonEmpty` | `backend/src/common/middleware/waf.middleware.ts:250-259` | exactly the non-empty values are kept, each under its target, and none is kept empty |
| `WafCollector.CollectInspectableValues` | `backend/src/common/middleware/waf.middleware.ts:247-281` | the first 200 of address, query, headers and body values, in that order; while fewer than 200 are collected, every non-empty one is there under its target, decoded, the first 4096 characters of every text of the body among them |

## Left out

- Strings are sequences of Unicode scalar values: a numeric reference to a surrogate decodes to U+FFFD, lengths and `<` on strings are those of scalar values and not of UTF-16 units.
- Lower-casing is modelled for characters whose lower case is an ASCII letter; no property depends on any other.
- Lookups that would reach the prototype of a JavaScript object are not modelled; tables are maps.
- The running time of the sanitizer: only progress and termination are proved.
- The branches of the sanitizer's main loop are methods of their own (`OpenTag`, `CloseTag`, `SkipDropped`, `SkipDeclaration`); the body walk of the firewall has one method for each of its two loops.
- CacheProtocol.LiveEntriesAreFresh: assumes the counters can be read and no index expires.
- CacheKeys.SharedKeyIff: asks for routes without colons, which `Class.method` names are; properties of the request that a key parameter names are strings; custom `key` functions are outside the model.
- TaggedCache.HitIsForSameRequest: assumes one decorator for every route, and namespaces and user ids without colons.
- Failures of the key-value store, except those of the breaker's own record; time to live of cache entries is the step `Expire`.
- Series keys are lists of name and value pairs where the source uses their JSON text; cached responses and event payloads are strings, so their JSON round trip is not covered.
- The decimal form of a number is a parameter of the metric renderer; sums and delays are reals, without IEEE rounding.
- `Gauge`, `Counter` and the registry's table of metrics, which would add single-branch facts only.
- CircuitBreaker.RunIsConsistent: starts from one loaded record; `reset` during a call and two concurrent first loads, which replace that record, are not modelled.
- ResilientClient.OpenBreakerEndsRequest: is about one request with no other caller on its breaker, a store that answers, and timers that fire when they are due.
- Two calls that both find the breaker due are modelled; the timeout around a call is one of its errors.
- The rules, the blocklist and the request size limit of the firewall; how query and header lists are read off a request.
- Hit-rate arithmetic of the cache metrics; NestJS, Express, rxjs and database wiring.
