# Shop reservation API: a verified model of its rules

This project models the decisions of a small Express/Mongoose shop-booking
API:

- the shop, reservation and review schemas, with their validators and defaults;
- the check `createShop` makes of a shop's seven `operation` records;
- the helpers `getShops` uses to turn a query string into a listing query;
- the booking limit of three reservations per user and shop;
- the owner-or-admin rule on updates and deletes;
- the role-filtered listing of reservations;
- the cascade that removes a shop's reservations with the shop.

Each state-changing handler is a pure answer function over the stored
documents (`...Reply`), plus a method over the stores (`Collection.Store<T>`, a class
holding the collection as a `seq`). The method's postcondition ties its
reply and the new store contents to that function. The read handlers
(`GetReservations`, `GetReservation`, `GetReviews`, `GetReview`) are
methods that carry their contract directly. The lemmas beside each
function prove what the source promises.

Values keep JavaScript's meaning where the source depends on it:

- `JsValues.LessThan` is `<`/`>` on whatever a request body holds. On two
  strings it compares by character, so `"1200" < "600"`. Otherwise it
  compares numbers, and NaN (here `None`) makes every comparison false.
- `Trim` is `String.prototype.trim`.
- `Utf16Length` is `.length`.
- `CastNumber` is Mongoose's cast of a value to a Number path.
- The phone pattern `/^[\+]?[(]?[0-9]{3}[)]?[-\s\.]?[0-9]{3}[-\s\.]?[0-9]{4,6}$/im`
  is a sequence of quantified character classes. `Matches` is its
  backtracking search. `TelMatches` looks for a match from any line start
  to any line end, as the `m` flag does. The match may cross line breaks,
  because `\s` matches them.

The clock (`now`), the fresh ObjectId (`id`) and the authenticated caller
(`Principal`) are parameters.

The handlers follow the code as written, including its faults. The intended
behaviour is given next to them (`...Intended`) and is proved correct; see
"## Findings".

Two behaviours of the source that the model keeps:

- **`createShop` sends its 400 from inside a `forEach` callback.** The
  `return` only leaves the callback. The first bad record's 400 goes out.
  A second bad record's send throws, because the headers are already sent,
  which leaves the loop for the `catch` block; its own send throws too.
  So with exactly one bad record the shop is still created, and with two or
  more it is not. `CreateShopStore` and `CreationRuns` state this, and
  `ShopsController.CreateShop` is proved against them.
- **The address's `maxlength` is 150, but its message says 50.** The model
  keeps both as written (`AddressLimitIs150`, `LongAddressMessage`).

## Model

| member | source | states |
|---|---|---|
| Collection.Find | controllers/reservations.js:110 | `findById` finds a stored document with that id, and finds none exactly when no document has it |
| Collection.Without | controllers/reservations.js:172 | after `remove`, every kept document was stored under another id, and every document under another id is kept |
| Collection.Replace | controllers/reservations.js:129-136 | `findOneAndUpdate` changes the document under the id and nothing else |
| Collection.WithoutRemovesOne | controllers/reviews.js:110 | with unique ids, removing a stored id removes exactly one document |
| Collection.WithoutKeepsDistinct | controllers/reservations.js:172 | removal keeps the `_id` index unique |
| Collection.Store.Insert | controllers/reservations.js:91 | `create` appends the document when its id is free, and is refused without change when it is taken |
| Collection.Store.Delete | controllers/reservations.js:172 | the new contents are the old ones without the id; ids stay unique |
| Collection.Store.Update | controllers/reservations.js:129-136 | the new contents are the old ones with the document under the id replaced; ids stay unique |
| JsValues.TrimStart | models/Shop.js:22 | drops a prefix made only of white space, and the rest does not start with white space |
| JsValues.TrimEnd | models/Shop.js:22 | drops a suffix made only of white space, and the rest does not end with white space |
| JsValues.TrimIsInfix | models/Shop.js:22 | the trimmed name is the infix of the given name that starts after its leading white space |
| JsValues.TrimDropsOnlySpace | models/Shop.js:22 | only white space lies before and after that infix |
| JsValues.TrimUnpaddedResult | models/Shop.js:22 | the trimmed name neither starts nor ends with white space |
| JsValues.TrimIdempotent | models/Shop.js:22 | trimming a trimmed name changes nothing |
| JsValues.Utf16Length | models/Shop.js:23 | the length counted against `maxlength` lies between the number of characters and twice it, and equals it for text in the Basic Multilingual Plane |
| JsValues.NumberTextRoundTrip | models/Shop.js:9-11 | the Number cast reads the text of any integer back as that integer |
| JsValues.NumbersCompareNumerically | controllers/shops.js:119 | on two numbers `<` is the integer order |
| JsValues.TextsCompareByCharacter | controllers/shops.js:119 | on two strings `<` is the character order: "1200" < "600" and not the reverse |
| JsValues.UndefinedComparesFalse | controllers/shops.js:119-133 | a missing value makes every comparison false |
| OperationSchema.CastOperation | models/Shop.js:7-14 | an operation record is stored exactly when each of `start`, `end` and `employee` casts to a Number or is absent |
| OperationSchema.CastKeepsAnyNumbers | models/Shop.js:3-14 | any three numbers are stored as given |
| OperationSchema.ContractNotEnforced | models/Shop.js:3-6 | a record outside the documented contract (multiples of 30 in 0..1440) is stored all the same |
| OperationSchema.CastReadsNumericText | models/Shop.js:38-48 | numeric text, as in the documented input example, is stored as its number |
| OperationSchema.CastRejectsNonNumericText | models/Shop.js:9-11 | text that does not start like a number is a cast error (under the integer-only reading of numbers) |
| PhonePattern.MatchSplit | models/Shop.js:34 | a match of a pattern is its first atom taking an allowed number of characters of its class, followed by a match of the rest |
| PhonePattern.MatchJoin | models/Shop.js:34 | every such split is a match |
| PhonePattern.ConsMatch | models/Shop.js:34 | one atom's characters followed by a match of the rest of the pattern match the whole pattern |
| PhonePattern.PiecesMatch | models/Shop.js:34 | optional `+`, optional `(`, three digits, optional `)`, optional separator, three digits, optional separator and four to six digits, put together, match the tel pattern |
| PhonePattern.TelPatternShape | models/Shop.js:34 | the pattern's literals are not digits, it holds only phone characters, and it asks for 10 to 12 digits |
| PhonePattern.MatchDigitCount | models/Shop.js:34 | a match holds between the pattern's least and greatest number of digits |
| PhonePattern.MatchPhoneChars | models/Shop.js:34 | a match holds only characters of the pattern's classes |
| PhonePattern.TelDigitCount | models/Shop.js:30-37 | every accepted phone value holds 10 to 12 digits in a span from a line start to a line end, possibly across several lines |
| PhonePattern.WholeMatchHasPhoneCharsOnly | models/Shop.js:34 | a whole-value match holds only digits, `+()-.` and white space, and 10 to 12 digits |
| PhonePattern.TenDigitsMatch | models/Shop.js:34 | ten bare digits are a phone number |
| PhonePattern.DashedMatch | models/Shop.js:34 | `ddd-ddd-dddd` is a phone number |
| PhonePattern.ShortLineRefused | models/Shop.js:34 | fewer than ten characters never match |
| PhonePattern.AnyTextBeforeANumberLine | models/Shop.js:34 | under the `m` flag, any text followed by a line of ten digits is accepted |
| PhonePattern.MultilineFlagAcceptsJunk | models/Shop.js:34 | a value with a non-phone character, followed by a line of ten digits, is accepted with the flag and refused by the whole-value test |
| PhonePattern.ForeignCharRefused | models/Shop.js:34 | one non-phone character makes the whole-value test fail |
| PhonePattern.SingleLineSame | models/Shop.js:34 | on a value without line breaks the `m` flag changes nothing, in both directions |
| PhonePattern.MatchSpansLines | models/Shop.js:34 | `\s` matches line breaks, so "123\n456\n7890" is accepted although none of its lines would be |
| ReservationModel.RequiredError | models/Reservation.js:5-22 | a required path has an error exactly when its value is missing |
| ReservationModel.ResvTimeErrors | models/Reservation.js:9-12 | `resvTime` passes exactly when it is given and its operation record casts |
| ReservationModel.ReservationErrors | models/Reservation.js:4-27 | a body passes exactly when `resvDate`, `resvTime` (casting), `user` and `shop` are all given |
| ReservationModel.CreateReservation | models/Reservation.js:4-27 | the body is refused exactly when it has errors; otherwise the stored document holds the body's values and the cast time |
| ReservationModel.CreatedAtDefaultsToNow | models/Reservation.js:23-26 | a missing `createdAt` is the creation time, and a given one is kept |
| ReservationModel.EachRequiredPathRefuses | models/Reservation.js:5-22 | each missing required path refuses the body with its own Required error |
| ReservationModel.CountFor | controllers/reservations.js:69-72 | the count is at most the number of reservations, and it is 0 exactly when the user holds none at the shop |
| ReservationModel.CountAfterAdd | controllers/reservations.js:69-91 | adding a reservation raises its own (user, shop) count by one and no other count |
| ReservationModel.CountIgnoresDateAndTime | controllers/reservations.js:69-72 | the count looks at user and shop only, across all dates and times |
| ReservationModel.WithoutShop | models/Shop.js:72-76 | the cascade keeps exactly the reservations of other shops |
| ReservationModel.CascadeCounts | models/Shop.js:72-76 | after the cascade nobody holds a reservation at the removed shop, and every other count is unchanged |
| ReservationModel.WithoutShopKeepsDistinct | models/Shop.js:74 | the cascade keeps the `_id` index unique |
| ReservationModel.ApplyPatch | controllers/reservations.js:129-136 | an update is refused exactly when its new time does not cast; otherwise each named field replaces the stored one and the rest is kept |
| ReservationModel.EmptyPatchIsIdentity | controllers/reservations.js:129-136 | an update naming no field changes nothing |
| ReviewModel.IdErrors | models/Review.js:4-13 | `shop` and `user` are required |
| ReviewModel.CommentErrors | models/Review.js:14-17 | `comment` passes exactly when given and non-empty |
| ReviewModel.RatingErrors | models/Review.js:18-23 | `rating` passes exactly when given and within 1..5 |
| ReviewModel.ReviewErrors | models/Review.js:3-29 | a body passes exactly when `shop`, `user` and a non-empty `comment` are given and `rating` is within 1..5 |
| ReviewModel.CreateReview | models/Review.js:3-29 | an accepted review is valid, holds the body's values, and gets the creation time as default `createdAt`; a refused body has its errors |
| ReviewModel.RatingOutOfRangeRefused | models/Review.js:18-23 | a rating below 1 or above 5 is refused with the bound it breaks |
| ReviewModel.PatchErrors | controllers/reviews.js:85-88 | an update is validated only on the paths it sets |
| ReviewModel.ApplyPatch | controllers/reviews.js:85-88 | an update is refused exactly when a set path fails; otherwise each path the body names, `createdAt` included, takes the new value and every other path keeps the stored one |
| ReviewModel.EmptyPatchIsIdentity | controllers/reviews.js:85-88 | a body that names no path leaves the review as it was |
| ReviewModel.PatchIdempotent | controllers/reviews.js:85-88 | sending the same update twice stores what sending it once does |
| ReviewModel.PatchKeepsValid | controllers/reviews.js:85-88 | an accepted update keeps a valid review valid |
| ShopModel.NameErrors | models/Shop.js:18-24 | `name` passes exactly when its trimmed text is non-empty and at most 50 long |
| ShopModel.AddressErrors | models/Shop.js:25-29 | `address` passes exactly when non-empty and at most 150 long |
| ShopModel.TelErrors | models/Shop.js:30-37 | `tel` passes exactly when non-empty and some span from a line start to a line end, possibly across lines, matches the pattern |
| ShopModel.AverageRatingErrors | models/Shop.js:50-55 | `averageRating` passes exactly when absent or within 0..5 |
| ShopModel.CastOperations | models/Shop.js:49 | the operation array is stored exactly when every record casts, record by record |
| ShopModel.OperationErrors | models/Shop.js:49 | the operation path fails exactly when a given record does not cast |
| ShopModel.CreateShopDoc | models/Shop.js:16-61 | an accepted shop is valid (trimmed unique-able name, limits, phone, rating in 0..5), its name is the trimmed name, `averageRating` defaults to 0, and `operation` holds the body's records as cast, or none when the body has no array |
| ShopModel.ShopAcceptedIff | models/Shop.js:16-61 | a shop is accepted exactly when every path passes its own validators |
| ShopModel.AddressLimitIs150 | models/Shop.js:25-29 | any non-empty address up to 150 long passes |
| ShopModel.LongAddressMessage | models/Shop.js:28 | a longer address is refused with the text that names 50 |
| ShopModel.NameTrimmedBeforeLimit | models/Shop.js:18-24 | leading white space does not count against the name limit |
| ShopModel.NameTaken | models/Shop.js:21 | a name is taken exactly when some stored shop has it |
| ShopModel.CreateOutcome | controllers/shops.js:136 | `Shop.create` succeeds exactly when the body is accepted, the id is free and the trimmed name unused; it answers 200 with the document, or 400 |
| ShopModel.CreateKeepsNamesDistinct | models/Shop.js:21 | a successful create keeps names unique and stores a valid shop |
| ShopModel.WithoutKeepsNames | models/Shop.js:21 | removing a shop keeps names unique |
| ShopModel.ShopStore.Create | controllers/shops.js:136 | the store gains the new shop exactly when the create succeeds; ids and names stay unique |
| ShopModel.ShopStore.Remove | models/Shop.js:72-76 | the pre-remove hook deletes the shop's reservations, then the shop goes; nothing else changes |
| ShopListing.RemoveReservedKeys | controllers/shops.js:10-16 | the filter keeps exactly the keys other than select, sort, page and limit, each with its value |
| ShopListing.RunLength | controllers/shops.js:24 | the run is the longest prefix of word characters |
| ShopListing.AddOperatorPrefixes | controllers/shops.js:23-26 | the rewrite only lengthens the text |
| ShopListing.PrefixesRoundTrip | controllers/shops.js:23-26 | deleting the inserted `$` characters gives back the original text |
| ShopListing.PrefixesInjective | controllers/shops.js:23-26 | no two filters are rewritten to the same text |
| ShopListing.StandaloneOperatorPrefixed | controllers/shops.js:24 | each of gt, gte, lt, lte and in standing alone gets a `$` |
| ShopListing.WholeWordsOnly | controllers/shops.js:24 | a word that only contains an operator word is left alone |
| ShopListing.Split | controllers/shops.js:33 | `split` gives at least one piece and no piece holds the separator |
| ShopListing.ReplaceChar | controllers/shops.js:33 | every occurrence of a character is replaced and nothing else changes |
| ShopListing.SplitJoinReplaces | controllers/shops.js:33 | `split(",").join(" ")` replaces every comma by a space |
| ShopListing.SelectFields | controllers/shops.js:32-35 | a projection is set exactly when `select` is given and non-empty, with commas as spaces |
| ShopListing.SortFields | controllers/shops.js:37-43 | the order is `sort` with commas as spaces when given, else `-createdAt` |
| ShopListing.OrDefault | controllers/shops.js:46-47 | the default is taken when the parsed value is NaN or 0; otherwise the parsed value is kept |
| ShopListing.Paginate | controllers/shops.js:58-73 | `next` exists exactly when the page ends before the total, with page+1; `prev` exists exactly when it starts after 0, with page-1; both keep the limit |
| ShopListing.PrevIffNotFirst | controllers/shops.js:68-73 | on a real page, `prev` exists exactly when the page is not the first |
| ShopListing.PagesTile | controllers/shops.js:48-49 | a page ends where the next starts and spans `limit` places |
| ShopListing.NextThenPrev | controllers/shops.js:61-73 | following `next` and then `prev` leads back to the same page and limit |
| ShopListing.EachPositionOnOnePage | controllers/shops.js:48-52 | every position lies in exactly one page's window, page `k / limit + 1` |
| ShopListing.GetShops | controllers/shops.js:6-73 | the listing removes the reserved keys, prefixes the operators (reversibly), sets projection and order from the query's own `select` and `sort` entries, and skip, limit and pagination as above |
| ShopsController.EntryViolation | controllers/shops.js:119-133 | an inverted record gets the order message; a record passes exactly when no comparison against the other time, 0 or 1440 holds |
| ShopsController.FirstViolation | controllers/shops.js:117-134 | a message is sent exactly when the number of bad records is positive |
| ShopsController.FirstViolationIsFirst | controllers/shops.js:117-134 | a message is sent exactly when some record is bad, and it is that of a bad record with no bad record before it |
| ShopsController.CheckOperations | controllers/shops.js:117-134 | the loop sends the first bad record's message and is left by the exception exactly when there are two or more |
| ShopsController.CreateShop | controllers/shops.js:105-143 | the answer and the stored shops are those of `CreateShopReply` and `CreateShopStore` |
| ShopsController.WrongLengthRefused | controllers/shops.js:110-115 | an array without seven records is refused with its message and nothing is stored |
| ShopsController.NumericEntryPassesIff | controllers/shops.js:119-133 | on numbers, a record passes exactly when 0 <= start <= end <= 1440 |
| ShopsController.OrderCheckedBeforeRange | controllers/shops.js:119-124 | an inverted record is reported as inverted even when out of range |
| ShopsController.OutOfRangeReported | controllers/shops.js:127-133 | a record in order but out of range gets the bounds message |
| ShopsController.MissingTimesPass | controllers/shops.js:119-133 | a record without times passes |
| ShopsController.SingleViolationStillCreates | controllers/shops.js:117-139 | with one bad record the answer is 400, yet a valid shop is stored |
| ShopsController.SeveralViolationsCreateNothing | controllers/shops.js:117-141 | with two or more bad records the answer is a failure and nothing is stored |
| ShopsController.CreateShopIntended | controllers/shops.js:105-143 | the same answer as the handler; a bad record means failure and no new shop; the store is unchanged exactly when the answer is a failure, and on success it gains exactly the answered shop |
| ShopsController.IntendedAgreesWithoutViolations | controllers/shops.js:105-143 | without bad records the two handlers answer and store the same |
| ShopsController.DocumentedExampleFlagged | controllers/shops.js:119 | the documented record `{"start":"600","end":"1200"}` gets the order message |
| ShopsController.EntryViolationIntended | controllers/shops.js:119-133 | on numbers the intended check is the check as written |
| ShopsController.IntendedReadsNumericText | controllers/shops.js:119-133 | under the intended check numeric text passes exactly when 0 <= start <= end <= 1440 |
| ShopsController.DeleteShopReply | controllers/shops.js:172-188 | success exactly for a stored id; otherwise 400 with the "Bootcamp not found" text |
| ShopsController.DeleteShop | controllers/shops.js:172-188 | an unknown id changes nothing; a known one removes the shop and its reservations |
| ShopsController.DeleteShopEffect | controllers/shops.js:183 | after a delete the shop is gone, one shop fewer, none of its reservations left, other shops' counts as before |
| ReservationsController.OwnedBy | controllers/reservations.js:11 | exactly the reservations of the user |
| ReservationsController.Visible | controllers/reservations.js:9-21 | role exactly "user" sees exactly their own reservations; every other role sees all |
| ReservationsController.GetReservations | controllers/reservations.js:7-32 | answers 200 with the visible reservations |
| ReservationsController.GetReservation | controllers/reservations.js:37-57 | 200 with the stored document, or 404 with its message exactly when the id is unknown |
| ReservationsController.Overwritten | controllers/reservations.js:65-66 | `user` and `shop` come from the caller and the route; the rest of the body is kept |
| ReservationsController.AddReservation | controllers/reservations.js:62-103 | the answer is `AddReservationReply` and the store gains the new reservation exactly on success |
| ReservationsController.OverLimitRefused | controllers/reservations.js:69-80 | a non-admin with three or more reservations at the shop gets 400 with the limit message |
| ReservationsController.AdminNeverLimited | controllers/reservations.js:75 | an admin never gets 400, whatever the count |
| ReservationsController.MissingShopAfterLimit | controllers/reservations.js:75-89 | 404 exactly when the limit passes and the shop is missing |
| ReservationsController.BookingOverridesBody | controllers/reservations.js:65-91 | a booking is the caller's at the route's existing shop, and raises that pair's count by one and no other |
| ReservationsController.BookingKeepsLimit | controllers/reservations.js:69-91 | booking never takes a non-admin past three at a shop |
| ReservationsController.UpdateReservation | controllers/reservations.js:108-145 | the answer is `UpdateReservationReply`; the store changes only on success, by replacing that document |
| ReservationsController.DeleteReservation | controllers/reservations.js:150-181 | the answer is `DeleteReservationReply`; the store changes only on success, by removing that document |
| ReservationsController.StrangerRefused | controllers/reservations.js:112-120 | a caller neither owner nor admin gets 401 on update and delete, so nothing changes |
| ReservationsController.UnknownIdGives500 | controllers/reservations.js:110-127 | an unknown id ends in the 500 branch of update and delete |
| ReservationsController.UpdateReservationIntended | controllers/reservations.js:108-145 | 404 exactly for an unknown id, 401 exactly for a stranger, success exactly for an owner's or admin's patch that passes, with the patched document |
| ReservationsController.DeleteReservationIntended | controllers/reservations.js:150-181 | 404 exactly for an unknown id, 401 exactly for a stranger, success exactly for the owner or an admin |
| ReservationsController.IntendedDiffersOnlyOnUnknownId | controllers/reservations.js:112-170 | the intended handlers differ from the written ones exactly on an unknown id, where 500 becomes 404 with the message naming the id |
| ReservationsController.DeleteRemovesExactlyOne | controllers/reservations.js:172 | a successful delete removes exactly that reservation and keeps every other |
| ReservationsController.UpdateBypassesLimit | controllers/reservations.js:129-136 | an owner can move a reservation to a shop where they hold three and then holds four |
| ReviewsController.GetReviews | controllers/reviews.js:7-23 | answers 200 with every review, whoever asks |
| ReviewsController.GetReview | controllers/reviews.js:28-48 | 200 with the stored review, or 400 exactly when the id is unknown |
| ReviewsController.AddReview | controllers/reviews.js:53-68 | the answer is `AddReviewReply`; the store gains the review exactly on success |
| ReviewsController.AddedReviewIsCallers | controllers/reviews.js:55-62 | an added review is the caller's, for an existing shop, and keeps all reviews valid |
| ReviewsController.UnknownShopRefused | controllers/reviews.js:56-60 | a missing or unknown shop gets 400, and no review |
| ReviewsController.UpdateReview | controllers/reviews.js:73-93 | the answer is `UpdateReviewReply`: 400 for an unknown id, 401 for a stranger, 400 when a set path fails, else 200 with the patched review, any path of it (`createdAt` too) overwritten; the store changes only on success |
| ReviewsController.DeleteReview | controllers/reviews.js:98-115 | the answer is `DeleteReviewReply`; the store changes only on success |
| ReviewsController.UnknownIdBeforeAuthorization | controllers/reviews.js:75-78 | an unknown id gets 400 for every caller, before any rights are checked |
| ReviewsController.StrangerRefused | controllers/reviews.js:79-83 | a caller neither author nor admin gets 401 on update and delete |
| ReviewsController.UpdateKeepsValid | controllers/reviews.js:85-88 | an accepted update keeps every stored review valid |
| ReviewsController.DeleteRemovesExactlyOne | controllers/reviews.js:100-111 | a successful delete removes exactly that review and keeps every other |

## Left out

- JSON: `JSON.stringify` and `JSON.parse` around the operator rewrite are not modelled. `ShopListing.GetShops` takes the filter's JSON text as a parameter and rewrites it. The rewrite therefore does not look inside JSON escapes such as `\n`.
- Query parsing: the parsing of the query string (nested `price[lte]=…` objects, repeated keys) and `parseInt` are not modelled. Values arrive already parsed.
- Database execution: `find`, `select`, `sort`, `skip`, `limit`, `populate` and `countDocuments` are not run. The listing returns the query it would run, and `total` is a parameter. How MongoDB treats a negative skip, from a page below 1, is not modelled.
- The Shop `reservations` virtual: it only serves `populate` and is not modelled.
- Response shaping: `toObject` and the deletion of `__v` and `id` from the created shop are not modelled.
- Mongoose error messages: a validation error is modelled as its list of path errors, each with the schema's custom text, not as the joined message string.
- Numbers: numbers are integers. `JsValues.StringToNumber` reads optionally signed decimal integer text. Fractions, exponents, hex and `Infinity` are read as NaN, so they are not modelled. Ratings are already-cast reals, so their cast is not modelled.
- Dates: dates are integers (epoch milliseconds), and the Date cast is not modelled.
- ObjectIds: ids are strings. The CastError of malformed id text is not modelled.
- `JsValues.LessThan`: compares strings by Unicode code point, not by UTF-16 code unit. These differ only for characters outside the Basic Multilingual Plane.
- `operation` values: an `operation` value that is not an array, and records that are not objects, are not modelled. `operation` is a list of records, or absent.
- Operation field values: booleans, arrays and objects as `start`, `end` or `employee` are not modelled. `JsValues.JsValue` holds only undefined, null, integers and strings. The handler compares such values after conversion to a number, for example `true > 600` as `1 > 600`. Mongoose's Number cast stores `true` as 1.
- Update bodies: a field set to `null` in an update body is not modelled. A patch field is either named or absent.
- Concurrency: async steps, concurrent requests and the non-awaited `shop.remove()` are not modelled. Each handler is one atomic step.
- The double send in `createShop`: after the first response, a later send throws, the `catch` send throws again, and the request's promise is rejected. This happens with one bad record and with several. The rejection changes no stored state. The `unhandledRejection` handler in `server.js:21-24` then closes the server and exits the process. The model stops at the failed request and does not model the shutdown.
- Other core pieces: `getShop`, `updateShop`, `getStats` (routed but not defined), the route files and the server bootstrap are not part of this model.
- Roles: the route-level role requirements (admin only for `createShop` and `deleteShop`; admin or user for reviews) are not enforced; the handlers are modelled for every caller.
- Other source files: the authentication middleware, the User model and the reservation routes are not part of this model.

## Findings

| source | as written | input that shows it | evidently intended | confidence | as-written member | corrected member |
|---|---|---|---|---|---|---|
| controllers/shops.js:117-136 | the `return` in the `forEach` callback leaves only the callback, so `Shop.create` still runs | seven records of which exactly one has `start` 900 and `end` 600, in an otherwise valid body: the answer is 400 and the shop is stored | a bad record refuses the request and stores nothing | high (not executed) | ShopsController.SingleViolationStillCreates | ShopsController.CreateShopIntended |
| controllers/reservations.js:112-170 | `reservation.user` is read before the null test, so an unknown id throws and is answered 500 | update or delete with an id that is not stored | 404 "No reservation with the id of …" | high (not executed) | ReservationsController.UnknownIdGives500 | ReservationsController.IntendedDiffersOnlyOnUnknownId |
| models/Shop.js:34 | the `m` flag lets `^` and `$` match at line breaks, so a value with any junk line before a phone-number line is accepted | "call me\n0123456789" | the whole value is a phone number | medium (not executed) | PhonePattern.MultilineFlagAcceptsJunk | PhonePattern.WholeMatchHasPhoneCharsOnly |
| controllers/shops.js:119 | `op.start > op.end` compares the documented string values as strings | the documented record `{"start":"600","end":"1200"}` is refused with "Start time must be less than end time" | compare the numbers the schema will store | medium (not executed) | ShopsController.DocumentedExampleFlagged | ShopsController.IntendedReadsNumericText |
