# Slot spin resolution, modelled in Dafny

The application is a Telegram slot machine with two interchangeable
backends: a FastAPI server (`server/main.py`) and an Express server
(`PremiumHatStore/server/index.ts`). Both do the same things:

- They load a table from the 64 values of Telegram's 🎰 dice to three reel
  symbols. When the file is missing or wrong, they use a four-entry
  fallback table.
- They turn a dice value into reels, a win flag, a jackpot flag and a
  nine-line announcement.
- They accept Telegram webhooks behind an optional secret-token header.
- They read who paid and how much from the invoice payload of a
  `successful_payment`.

The FastAPI server also creates invoice payloads. It checks the signature of
Telegram WebApp init data and reads the current user from an
`Authorization: tma …` header.

The model is pure Dafny: datatypes and total functions, with lemmas relating
them. The modules are:

| module | file | what it holds |
|---|---|---|
| `Wrappers` | `wrappers.dfy` | `Option` |
| `Text` | `text.dfy` | ASCII lower-casing, `strip`, `split`, `join` and `replace`, with their laws |
| `Decimal` | `decimal.dfy` | ASCII decimal digit runs and integer rendering |
| `Lex` | `lex.dfy` | Code-point order on strings and an insertion sort |
| `Slot` | `slot.dfy` | Table loading, shared by both servers (the normalisation is a parameter); lookup; win and jackpot classification; the announcement; `Resolve`, the whole spin once the dice value is known |
| `Webhook` | `webhook.dfy` | JSON-like values, the payment attribution, in-order field assignment, and the shared handler skeleton (secret check, pre-checkout answer, spin on payment) |
| `FastApi` | `fastapi.dfy` | The Python server's normaliser, payload parser, invoice payload and secret. It also models the Python payload loop as written (see Findings). |
| `Express` | `express.dfy` | The TypeScript server's normaliser, `Number` coercion, payload parser and secret |
| `TelegramAuth` | `auth.dfy` | `parse_qs`, the data-check string, `verify_telegram_init_data` and the `tma ` header |
| `Backends` | `backends.dfy` | Where the two servers agree and where they provably differ |

Some inputs are not modelled as values and are passed in as parameters:

- the dice value and the dice message id (the result of `sendDice`);
- the mapping file, as `Missing`, `Unreadable` or its list of records;
- the environment variables;
- the secret-token header;
- the JSON decoding of a payload, as `Option<JsonObject>`;
- percent-decoding (`unquote`);
- the HMAC signature, as `sign(token, text)`.

## Model

| member | source | states |
|---|---|---|
| Slot.Load | server/main.py:107-147 | The loaded table has exactly 64 keys when the file is readable and its records name 64 distinct values; in every other case it is exactly the four-entry fallback table |
| Slot.BuildOrigin | server/main.py:115-123 | Every stored triple is the normalised reels of some record carrying that dice value |
| Slot.BuildLastWins | server/main.py:115-123 | When a value occurs in several records, the last record's reels are the ones stored |
| Slot.LoadAgrees | server/main.py:107-147 | Two normalisations that agree on every reel of the file load the same table |
| Slot.DuplicateForcesFallback | server/main.py:115-127 | A file of 64 records in which some dice value repeats can never load; the fallback table is used |
| Slot.DistinctFileLoads | server/main.py:115-130 | A file of 64 records with distinct values loads, and its keys are exactly those values |
| Slot.LookupAfterLoad | server/main.py:153-158 | After loading, a value's reels are the last record's when the file loaded; otherwise they are the fallback entry, or bar/lemon/grape for a value the table lacks |
| Slot.DiceValueToSymbols | server/main.py:153-158 | Three reels: the table's entry, or bar/lemon/grape for a value the table lacks; `diceValueToSymbols` in PremiumHatStore/server/index.ts:128-134 does the same |
| Slot.IsWinIffAllEqual | server/main.py:214 | The set of the three reels has one element exactly when the three reels are equal |
| Slot.Emoji | server/main.py:218-225 | A symbol outside the emoji table passes through unchanged; a symbol in it is replaced by a picture that is neither the symbol nor another table key |
| Slot.PrettyRecoverable | server/main.py:225 | Splitting the result line at spaces gives back each reel's picture, when no reel contains a space |
| Slot.ComposeTextLines | server/main.py:228-238 | Splitting the announcement at line breaks gives back its nine lines: separators, user, bet, value, result and status |
| Slot.Resolve | server/main.py:212-238 | The reels are the table's for the dice value; jackpot exactly on 64; win exactly when the three reels are equal; status is Jackpot on 64, Win on three equal reels otherwise, Lose otherwise |
| Slot.JackpotWithoutMatchingReels | server/main.py:214-226 | A table sending 64 to three different reels still announces a jackpot, with the win flag false |
| Slot.ResolveStatusLine | server/main.py:226-238 | Line 8 of the announcement is the status the two flags select; line 5 shows the dice value out of 64 |
| Lex.Sort | server/main.py:312 | The sorted lines are in code-point order and are a permutation of the input |
| Lex.SortPermutationInvariant | server/main.py:312 | Sorting forgets the input order: two permutations of the same lines sort to the same sequence |
| Webhook.DefaultAttribution | server/main.py:556-557 | Before the payload is read, the payer is the sender's id, or the chat id when there is no sender; the bet is 0 |
| Webhook.IsJsonPayload | server/main.py:561 | A payload is read as JSON exactly when its first character other than whitespace is `{`; `payload.trim().startsWith('{')` in PremiumHatStore/server/index.ts:320 tests the same character, after a different set of whitespace (see `Text.Strip` under Left out) |
| Webhook.AssignAllIsLastAssignment | server/main.py:566-576 | Applying the payload's fields in order leaves each of user and bet at the value of the last field naming it, and at the default when none does |
| Webhook.Handle | server/main.py:527-557 | 401 exactly when a secret is configured and the header does not carry it; otherwise the pre-checkout query id is answered; a spin starts exactly when the message has a payment, for the parsed payer, and is reported to the message's chat |
| FastApi.NormalizeSymbol | server/main.py:117-123 | The result is lower-case and never `seven`; it is `777` exactly for an input spelling `seven` or `777` in any case; otherwise it is the input lower-cased |
| FastApi.LoadDiceMapping | server/main.py:107-147 | The table is 64 keys or the fallback, and every stored reel is already normalised |
| FastApi.PerformSpin | server/main.py:208-238 | On a table the loader produced, three reels come back, each lower-case and never `seven`; jackpot exactly on 64 |
| FastApi.InvoiceUser | server/main.py:468 | A missing or zero user id is replaced by `"unknown"`; any other id is kept as a number; the payload's user is never falsy |
| FastApi.CreateInvoicePayload | server/main.py:464-471 | A payload exists exactly for a bet of at least 1, the bound the request model puts on the bet; the webhook reads it as JSON, and decoding it gives back the two-key object of the invoice's user and bet |
| FastApi.DecodeInvoicePayload | server/main.py:471 | A text it decodes is read as JSON by the webhook and holds exactly the keys `userId` and `betAmount`, the bet a number |
| FastApi.InvoiceTextDecodes | server/main.py:467-471 | The text `json.dumps` writes for any user and bet decodes to the object it was written from |
| FastApi.PayloadPartsSplitOnSeparators | server/main.py:567 | Replacing `,` and `;` by `\|` and then splitting on `\|` is splitting on all three separators |
| FastApi.FieldOf | server/main.py:569-572 | A part yields a field exactly when it contains `:`, whatever the key, even a blank one |
| FastApi.UserValue | server/main.py:574 | A user value becomes a number exactly when it is a decimal digit run, and otherwise stays the text itself |
| FastApi.UserValueReadsRendering | server/main.py:574 | A user id written in decimal reads back as that id |
| FastApi.BetValue | server/main.py:576 | A bet is a non-negative number, and it is non-zero only when the value is a decimal digit run |
| FastApi.ParsePayload | server/main.py:553-576 | An empty payload, or a JSON payload that fails to decode, keeps the defaults; a decoded JSON object's keys override whatever their value; a naive payload gives the last user and last bet fields |
| FastApi.SeparatorsInterchangeable | server/main.py:567 | In a naive payload, `,` and `;` can be rewritten to `\|` without changing the parse |
| FastApi.AsWrittenAgreesOnDecimalValues | server/main.py:566-576 | When no user or bet field holds a value that `isdigit` accepts and `int` rejects, the loop as written agrees with the corrected parse |
| FastApi.FirstRaise | server/main.py:566-578 | The fields the loop as written gets through: none of them makes `int` raise, and the next one, if any, does |
| FastApi.AsWrittenAppliesPrefix | server/main.py:566-578 | The loop as written applies, in order, exactly the fields before the first one that makes `int` raise |
| FastApi.ParsePayloadAsWritten | server/main.py:559-578 | The empty and the JSON payload are read as in the corrected parse; a naive payload applies its fields up to the first one that raises; without such a field it equals the corrected parse |
| FastApi.PyOnlyDigitsStopParse | server/main.py:566-578 | A bet value that `isdigit` accepts but `int` rejects, followed by a user field, leaves the user at the sender's id in the loop as written; the corrected parse reads that user |
| FastApi.SuperscriptBetDropsUser | server/main.py:574-578 | The concrete payload `bet:²\|uid:<digits>` loses its user id in the loop as written |
| FastApi.WebhookSecret | server/main.py:49 | The Telegram variable wins whenever it is set, even to the empty string; otherwise the generic variable or empty |
| FastApi.HandleWebhook | server/main.py:527-578 | 401 exactly when the effective secret is non-empty and the header differs; a 401 needs one of the variables set; a started spin is attributed by the Python payload loop as written, which stops at the first field whose value `int` refuses |
| Express.NormalizeSymbol | PremiumHatStore/server/index.ts:97-98 | Only a case-insensitive `seven` is rewritten, to `777`; every other reel keeps its case |
| Express.LoadDiceMapping | PremiumHatStore/server/index.ts:87-124 | The table is 64 keys or the fallback, and no stored reel spells `seven` in any case |
| Express.LoadKeepsOtherSymbols | PremiumHatStore/server/index.ts:97-104 | When the file loads, a value whose last record has no seven is stored with that record's reels verbatim |
| Express.PerformSpin | PremiumHatStore/server/index.ts:152-165 | On a table the loader produced, three reels come back and none spells `seven` in any case; jackpot exactly on 64 |
| Express.JsNumber | PremiumHatStore/server/index.ts:330-331 | `Number` on a trimmed value is a number exactly for the empty text (0) or a decimal digit run, and is never negative |
| Express.NumberOrText | PremiumHatStore/server/index.ts:330-331 | The value is kept as text exactly when it is non-empty and not a digit run; otherwise it is the number `Number` gives |
| Express.FieldOf | PremiumHatStore/server/index.ts:328-329 | A part without `:` or with a blank key is skipped; a field's key is non-empty and has no `:` |
| Express.FieldOfColon | PremiumHatStore/server/index.ts:328-329 | `a:b` and `a:b:rest` both read as the stripped pair (a, b): text after a second colon is dropped |
| Express.FieldsOf | PremiumHatStore/server/index.ts:326-329 | No more fields than parts, and every key is non-empty and colon-free |
| Express.ParsePayload | PremiumHatStore/server/index.ts:311-332 | An empty payload, or a JSON payload that fails to decode, keeps the defaults; a JSON object overrides only with truthy values; a naive payload gives the last user and last bet fields, coerced by `Number` |
| Express.FalsyJsonKeepsDefaults | PremiumHatStore/server/index.ts:322-323 | A JSON object whose values are all falsy leaves the sender and a bet of 0 |
| Express.WebhookSecret | PremiumHatStore/server/index.ts:70 | The secret is the first non-empty of the Telegram and generic variables, else none |
| Express.HandleWebhook | PremiumHatStore/server/index.ts:286-291 | 401 exactly when the effective secret is non-empty and the header differs; an empty Telegram variable defers to the generic one |
| TelegramAuth.ParseFieldOf | server/main.py:301 | `name=value` reads as the decoded pair, `+` as space before unquoting, or as nothing when the value is empty; an `=` inside the value belongs to the value |
| TelegramAuth.ParseQslRoundTrip | server/main.py:301 | Plain fields written as `name=value` and joined by `&` parse back to the same pairs |
| TelegramAuth.GroupSpec | server/main.py:301 | Grouping gives distinct names, exactly the names of the pairs, each holding its values in order |
| TelegramAuth.GroupWellFormed | server/main.py:301 | Every grouped name holds at least one value |
| TelegramAuth.FirstValue | server/main.py:302 | A field's value exists exactly when some field has that name; it is the first value of the first such field, and of every such field when names are distinct |
| TelegramAuth.HashValue | server/main.py:302 | There is a hash exactly when some field is named `hash`, and it is the first value of the first such field |
| TelegramAuth.DataCheckLines | server/main.py:308-311 | Every field except `hash` contributes `name=first value`, and every line comes from such a field; there is exactly one line per field other than `hash`, in field order (the k-th line is the k-th such field) |
| TelegramAuth.NonHashFromSelects | server/main.py:308-311 | The positions the check string is built from are increasing and include every field other than `hash`, so no field is skipped or repeated |
| TelegramAuth.DataCheckStringLines | server/main.py:312-313 | Splitting the check string at line breaks gives the sorted lines, a permutation of the field lines |
| TelegramAuth.HashFieldIgnored | server/main.py:309-310 | Adding or changing the `hash` field does not change the check string |
| TelegramAuth.LaterValuesIgnored | server/main.py:311 | Only a field's first value enters the check string |
| TelegramAuth.DataCheckStringOrderFree | server/main.py:308-313 | Fields in any order give the same check string |
| TelegramAuth.Verify | server/main.py:290-334 | Fields come back exactly when the token and init data are non-empty, a non-empty `hash` is present, and it equals the signature of the check string |
| TelegramAuth.MissingHashRejected | server/main.py:302-305 | Init data without a `hash` field never verifies |
| TelegramAuth.VerifyOrderFree | server/main.py:301-328 | Init data whose fields are permuted verifies alike |
| TelegramAuth.StripTmaPrefix | server/main.py:339-342 | A header yields init data exactly when it starts with `tma `, and the init data is the rest of the header |
| TelegramAuth.StripTmaPrefixOf | server/main.py:342 | `tma ` followed by any init data gives back that init data |
| TelegramAuth.VerifiedHeader | server/main.py:337-341 | Fields come back exactly when the header carries `tma ` and the init data after it verifies; they have distinct names, each with a value |
| TelegramAuth.CurrentUserJson | server/main.py:337-345 | A user is read exactly when init data behind `tma ` verifies and has a `user` field, and it is the first value of that field |
| TelegramAuth.CurrentUserOrderFree | server/main.py:337-345 | Reordering the fields of the init data does not change the user read from it |
| Backends.LoadsAgreeOnLowerCase | PremiumHatStore/server/index.ts:97-104 | On a file whose reels are all lower-case, both servers load the same table |
| Backends.NormalizersDifferOnUpperCase | PremiumHatStore/server/index.ts:97-98 | An upper-case reel other than seven is lower-cased by FastAPI and kept by Express |
| Backends.CaseDecidesWin | PremiumHatStore/server/index.ts:97-104 | A record `BAR, bar, bar` wins on FastAPI and loses on Express |
| Backends.FieldsAgreeOnOneColon | PremiumHatStore/server/index.ts:328-329 | A part with exactly one colon and a non-blank key gives the same field in both servers |
| Backends.FieldsDifferOnSecondColon | PremiumHatStore/server/index.ts:328 | With a second colon, FastAPI keeps `b:c` as the value and Express keeps only `b` |
| Backends.ValueConversions | PremiumHatStore/server/index.ts:330-331 | Compares the corrected FastAPI conversion with Express: on a digit run both read the same number; on other non-empty text both keep the text as the user, and the bet is 0 in FastAPI |
| Backends.UserFieldAsWritten | server/main.py:573-574 | Compares the user field of the FastAPI loop as written with PremiumHatStore/server/index.ts:330: a digit run is the same number, text that `isdigit` refuses is kept by both, and text that `isdigit` accepts but `int` refuses (such as `²`) stops the FastAPI loop while Express keeps it as the user |
| Backends.NaivePayloadsAgree | PremiumHatStore/server/index.ts:324-332 | A naive payload of simple parts with decimal bets gives the same payer and bet in both servers, for the corrected FastAPI parse and for the loop as written |
| Backends.JsonFalsyValues | PremiumHatStore/server/index.ts:322-323 | A falsy JSON user or bet (0, empty text, false, null) is taken as is by FastAPI and ignored by Express, which keeps the sender and bet 0; when every value is truthy the two agree |
| Backends.SecretsAgreeUnlessEmptyTelegramSecret | PremiumHatStore/server/index.ts:70 | The servers use the same secret unless the Telegram variable is set to the empty string |
| Backends.EmptyTelegramSecretDivergence | PremiumHatStore/server/index.ts:286-291 | With the Telegram variable empty and a generic secret set, FastAPI accepts a request without the header and Express refuses it |
| Backends.InvoicePayloadRoundTrip | server/main.py:467-471 | The invoice payload, decoded as JSON from its own text, attributes the payment to the invoice's user and bet in both servers; the Express half holds for ids up to 2^53, see Left out |

## Left out

- Network calls are not modelled. These are `sendDice`, `sendMessage`, `answerPreCheckoutQuery` and `createInvoiceLink`, including their failures and timeouts. Their results are parameters.
- File reading and JSON parsing are not modelled. The mapping file arrives as `Missing`, `Unreadable` or a list of well-typed records. A record with a non-string reel or a missing reel counts as `Unreadable`, since both servers fall back on it.
- Slot.Load: a record without a `value` key is not modelled. Python raises `KeyError` and falls back. Express stores the record under the key `"undefined"` without an error, so 63 good records and one such record still load 64 keys.
- A payload's JSON decoding is a parameter. Decoded values are kept as `Null`, `Bool`, `Num`, `Str` or `Compound`; float values are not represented.
- HMAC-SHA256 and the key derivation from the bot token are the `sign` parameter.
- Percent-decoding is the `unquote` parameter.
- Text.Lower: lower-cases only ASCII letters. Python's `str.lower` and JavaScript's `toLowerCase` are Unicode-aware, so non-ASCII reels are not modelled.
- Text.Strip: removes only ASCII whitespace. Python's `strip` and JavaScript's `trim` remove more, such as no-break space, and not the same set: `strip` also removes U+001C to U+001F, which `trim` keeps, and `trim` removes U+FEFF, which `strip` keeps. A payload `"\u001f{...}"` is therefore read as JSON at server/main.py:561 and as naive pairs at PremiumHatStore/server/index.ts:320; Webhook.IsJsonPayload models both branch tests only for payloads whose leading whitespace is ASCII.
- Express.JsNumber: covers only the empty text and ASCII digit runs. `Number` also accepts signs, decimals, exponents, `0x` forms and `Infinity`, and loses precision beyond 2^53; all of these are read here as text that is not a number.
- FastApi.UserValue: reads only ASCII digit runs as numbers. Python's `int` also accepts other Unicode decimal digits, such as full-width digits, which are kept as text here.
- FastApi.AssignAsWritten: treats every ASCII digit run as convertible. From Python 3.11 on, `int` refuses a decimal text of more than 4300 digits, which `isdigit` accepts; such a value ends the loop as a superscript does. FastApi.AsWrittenAgreesOnDecimalValues therefore holds only for digit runs within that limit on those versions.
- FastApi.DecodeInvoicePayload: reads only the two-key texts the invoice writes, with no whitespace other than the separators and no escapes in strings. Within that shape it is more lenient than `json.loads`: it accepts integers with leading zeros and strings holding raw control characters. The webhook's own JSON decoding stays a parameter.
- Backends.InvoicePayloadRoundTrip: decodes the payload as `json.loads` does. Express's `JSON.parse` reads a user id beyond 2^53 as the nearest double, so for such ids the Express half of the round trip does not hold.
- FastApi.BetValue: reads only ASCII digit runs as numbers. Python's `int` also reads other Unicode decimal digits, such as the full-width `３`, as their value, so `bet:３` gives the bet 3 in Python and 0 here. The same holds for FastApi.AssignAsWritten, FastApi.ParsePayload and FastApi.ParsePayloadAsWritten.
- FastApi.PyIsDigit: adds only the superscripts ¹²³ to the ASCII digits. Python's `isdigit` accepts more characters that `int` rejects; the three superscripts are enough to show the finding.
- The announcement renders user and bet as already-formatted text. Python's `str()` of an arbitrary value and JavaScript's template rendering are not modelled.
- The private notification sent to the payer after a webhook spin is modelled only by the chat it goes to (`SpinCall.notifyChatId`); its text and its delivery are not.
- The HTTP 500 replies when the bot token or channel id is missing are not modelled.
- The request defaults of `/slots/spin` and `/api/send-slot-dice` are not modelled.
- TelegramAuth.Group: keeps the names in first-occurrence order, as `parse_qs` does; the lemmas state only what does not depend on that order.
- TelegramAuth.ParseQsl: splits only on `&`, as current Python versions do. Older versions also split on `;`.
- The pydantic `User` built from the user JSON, and the session and auth endpoints, are not modelled.
- Slot.Emoji: Express renders a reel with `emojiMap[s] ?? s`. For a reel named like an `Object.prototype` member, such as `constructor`, `toString` or `__proto__`, that gives the inherited member, not the name. Express keeps reel names from the file as written, so a mapping file could reach this. The model renders such a reel as its name.
- Slot.DiceValueToSymbols: a lookup never hits inherited object keys here. In TypeScript a key such as `constructor` could. Dice values are numbers, so that path is not reachable from Telegram.
- The TypeScript header fallback to `X-Telegram-Bot-Api-Secret-Token` is not modelled. Node lower-cases header names, so that lookup always misses. A repeated header is not modelled either. Node joins repeated values of a custom header with `, `, so Express compares the joined text, while the FastAPI server reads one of the values.
- Update fields that are present but `null` are not distinguished from absent ones.

## Findings

| source | as written | input that shows it | evidently intended | confidence | as-written member | corrected member |
|---|---|---|---|---|---|---|
| server/main.py:574-576 | A bet value is converted with `int(value) if value.isdigit() else 0`. `isdigit` accepts characters such as `²` that `int` rejects. The `ValueError` escapes the field loop into the surrounding `except`, so the fields after it are never read. | invoice payload `bet:²\|uid:7` from sender 5: the payer stays 5 and the user field 7 is lost | a bet that is not a decimal number reads as 0 and the loop goes on, so the payer is 7 | not executed | FastApi.PyOnlyDigitsStopParse | FastApi.ParsePayload |
