# Telegram OAuth popup login, modelled in Dafny

This project models `TelegramOauthLogin`, the class behind a "Log in with
Telegram" button. One object serves one login attempt, in four steps:

1. The constructor stores the bot id and the page's parameters (`origin`, and
   possibly `lang`). It encodes the parameters once, as
   `encodeURIComponent(key)=encodeURIComponent(value)` pieces joined by `&`.
2. `auth` opens `https://oauth.telegram.org/auth?bot_id=…` in a popup. It marks
   the attempt finished and polls every 100 ms until the popup closes.
3. When the popup closes, `getAuth` POSTs the encoded parameters to
   `https://oauth.telegram.org/auth/get?bot_id=…`. An ok response with a user
   passes that user to the caller's callback.
4. `onAuth` finishes the attempt once.

The modules:

- `Utf8` (utf8.dfy): UTF-8 as defined in section 3 of RFC 3629, with a strict
  decoder and the round trip between them.
- `UriComponent` (uri_component.dfy): ECMAScript `encodeURIComponent`.
  - It keeps the unreserved characters of section 2.3 of RFC 2396.
  - It escapes every other character's UTF-8 bytes as `%XY` (section 2.1 of
    RFC 3986).
  - The module also holds the percent-decoding of the WHATWG URL standard.
- `FormUrlEncoded` (form_urlencoded.dfy):
  - JavaScript `split` and `join` on one character;
  - the WHATWG `application/x-www-form-urlencoded` parser, which reads a query
    string or form body back into name/value pairs.
- `OauthLogin` (oauth_login.dfy):
  - the parameter encoder and the two URLs;
  - the request `getAuth` sends;
  - the case analysis of the request's outcome;
  - the class `TelegramOauthLogin`, whose methods update `activePopup`,
    `authFinished` and a ghost trace of effects.
- `Wrappers` (wrappers.dfy) and `Seqs` (seqs.dfy): `Option`, and one fact
  about sequence concatenation.

Browser and network effects are inputs to the methods:

- whether `window.open` returned a window;
- whether the popup reads as closed at a poll;
- how the `fetch` ended (`NetworkError`, or a status and a parsed or
  unparsable body);
- whether the callback threw.

Everything the object does to the outside world is appended to the ghost
`trace`: opening the popup, focusing it, setting a timer, fetching, invoking
the callback, and logging an error. `Delivered(trace)` is the sequence of users
handed to the callback. The ghost `completions` counts the `onAuth` calls that
get past the finished guard.

The model follows the code's three quirks as written:

- `auth` sets `authFinished` before any result arrives. After `auth`, `onAuth`
  never takes effect (`completions` stays as it was).
- The callback is not behind the finished guard. Every `getAuth` whose ok
  response carries a user hands that user over again. The scenario method
  `RepeatedResult` shows a popup flow in which the same user is delivered
  twice and `onAuth` never completes.
- `lang` starts as `""` and is never assigned. The result URL therefore never
  carries `&lang=`: `ResultUrlWithoutLang` applies because `Valid()` pins `lang`
  to `""`.

`botId`, `params`, `paramsEncoded` and `lang` are written only by the
constructor, so they are `const` fields.

## Model

| member | source | states |
|---|---|---|
| Utf8.EncodeScalar | src/TelegramOauthLogin.ts:140 | a character becomes 1 to 4 bytes; exactly one byte, equal to the code point, for ASCII; every trailing byte is a continuation byte |
| Utf8.Encode | src/TelegramOauthLogin.ts:140 | the UTF-8 form of a string, one to four bytes per character; `Utf8.DecodeEncode` proves the decoder undoes it |
| Utf8.DecodeEncode | src/TelegramOauthLogin.ts:140 | decoding the UTF-8 bytes of any string gives that string back |
| Utf8.EncodeInjective | src/TelegramOauthLogin.ts:140 | distinct strings have distinct UTF-8 bytes |
| UriComponent.HexDigit | src/TelegramOauthLogin.ts:140 | the escape digit of a value is an unreserved character that hex-reads back to that value |
| UriComponent.Escape | src/TelegramOauthLogin.ts:140 | the escape of a byte is `%` followed by two unreserved characters |
| UriComponent.PercentEncode | src/TelegramOauthLogin.ts:140 | three output characters per byte, each `%` or unreserved |
| UriComponent.EncodeChar | src/TelegramOauthLogin.ts:140 | one character encodes to a non-empty run of `%` and unreserved characters, and an unreserved character to itself |
| UriComponent.Encode | src/TelegramOauthLogin.ts:140 | `encodeURIComponent`'s output holds only `%` and unreserved characters, so never `&`, `=` or `+`; it is at least as long as the input; a string of unreserved characters is left unchanged |
| UriComponent.AllSafeAppend | src/TelegramOauthLogin.ts:140 | joining two encoder outputs gives an encoder output, which has no `&`, `=` or `+` |
| UriComponent.EncodeAppend | src/TelegramOauthLogin.ts:140 | the encoding of a concatenation is the concatenation of the encodings |
| UriComponent.PercentDecodeEscape | src/TelegramOauthLogin.ts:140 | percent-decoding reads the escape of a byte back as that byte |
| UriComponent.PercentDecodeEncode | src/TelegramOauthLogin.ts:140 | percent-decoding reads a run of escapes back as its bytes, whatever follows |
| UriComponent.PercentDecodeEncodeString | src/TelegramOauthLogin.ts:140 | percent-decoding the output of `encodeURIComponent` gives the UTF-8 bytes of its input |
| UriComponent.DecodeEncode | src/TelegramOauthLogin.ts:140 | decoding the output of `encodeURIComponent` gives its input back |
| UriComponent.EncodeInjective | src/TelegramOauthLogin.ts:140 | `encodeURIComponent` is injective |
| FormUrlEncoded.Split | src/TelegramOauthLogin.ts:143 | splitting gives at least one part, and no part holds the separator |
| FormUrlEncoded.SplitNoSeparator | src/TelegramOauthLogin.ts:143 | a string without the separator splits into itself alone |
| FormUrlEncoded.SplitAtSeparator | src/TelegramOauthLogin.ts:143 | splitting a separator-free run, the separator and a rest gives the run, then the rest's parts |
| FormUrlEncoded.SplitJoin | src/TelegramOauthLogin.ts:143 | splitting the join of one or more separator-free parts gives the parts back |
| FormUrlEncoded.JoinSplit | src/TelegramOauthLogin.ts:143 | joining the parts of a split gives the string back |
| FormUrlEncoded.Join | src/TelegramOauthLogin.ts:143 | `join('&')`: its definition is the model, the parts with one separator between neighbours; `SplitJoin` and `JoinSplit` prove `Split` is its inverse |
| FormUrlEncoded.CutAt | src/TelegramOauthLogin.ts:140 | a piece is cut at its first `=`: the name has no `=`, and name, `=` and value rebuild the piece; a piece without `=` is all name with an empty value |
| FormUrlEncoded.CutAtFirst | src/TelegramOauthLogin.ts:140 | a `=`-free name followed by `=` and any value is cut back into that name and value |
| FormUrlEncoded.ReplacePlus | src/TelegramOauthLogin.ts:78 | reading `+` as a space keeps the length, leaves no `+`, and changes nothing in a `+`-free string |
| FormUrlEncoded.ParseFormJoin | src/TelegramOauthLogin.ts:143 | a form made by joining non-empty, `&`-free pieces parses piece by piece |
| FormUrlEncoded.ParsePieceEncoded | src/TelegramOauthLogin.ts:140 | the piece `encodeURIComponent(name)=encodeURIComponent(value)` parses to exactly that name and value |
| OauthLogin.Qualifying | src/TelegramOauthLogin.ts:138-139 | the kept pairs are no more than the entries; each kept pair has a non-empty value and comes from an entry; every entry with a truthy value is kept |
| OauthLogin.Truthy | src/TelegramOauthLogin.ts:139 | JavaScript truthiness of a string-or-undefined value, used for the entry test at line 139 and the `lang` test at line 72: its definition is the model, defined and non-empty; `Qualifying` and `EncodedParamsEmpty` state what the test keeps |
| OauthLogin.QualifyingSnoc | src/TelegramOauthLogin.ts:138-142 | one more entry adds its pair at the end exactly when its value is truthy |
| OauthLogin.Piece | src/TelegramOauthLogin.ts:140 | an emitted piece is non-empty and has no `&` |
| OauthLogin.Pieces | src/TelegramOauthLogin.ts:140 | one piece per kept pair, each non-empty and `&`-free |
| OauthLogin.PiecesSnoc | src/TelegramOauthLogin.ts:140 | pushing a pair pushes its piece |
| OauthLogin.ParsePiecesRoundTrip | src/TelegramOauthLogin.ts:140 | parsing the pieces of pairs gives the pairs back |
| OauthLogin.JoinedPiecesRoundTrip | src/TelegramOauthLogin.ts:140-143 | parsing the `&`-join of the pieces of pairs gives the pairs back |
| OauthLogin.EncodedParams | src/TelegramOauthLogin.ts:136-144 | the value `encodeParams` returns: its definition is the model, the `&`-join of the pieces of the truthy entries. `EncodedParamsRoundTrip` and `EncodedParamsEmpty` prove its properties, and the loop `EncodeParams` is proved equal to it |
| OauthLogin.EncodedParamsRoundTrip | src/TelegramOauthLogin.ts:136-144 | parsing the output of `encodeParams` gives exactly the truthy entries, in order, with their names and values |
| OauthLogin.EncodedParamsEmpty | src/TelegramOauthLogin.ts:136-144 | `encodeParams` returns `""` if and only if no entry has a truthy value |
| OauthLogin.TelegramOauthLogin.EncodeParams | src/TelegramOauthLogin.ts:136-144 | the loop builds exactly the joined pieces of the kept entries, and its result parses back to them |
| OauthLogin.BotIdPiece | src/TelegramOauthLogin.ts:53 | with an unreserved bot id, `bot_id=` and the bot id form an ordinary encoded piece |
| OauthLogin.JoinCons | src/TelegramOauthLogin.ts:53 | joining a first piece and further pieces adds `&` only when there are further pieces |
| OauthLogin.JoinEmpty | src/TelegramOauthLogin.ts:53 | a join of non-empty pieces is empty exactly when there are no pieces |
| OauthLogin.LeadingPieceRoundTrip | src/TelegramOauthLogin.ts:53 | a leading piece, then `&` and joined pieces only if there are any, parses to the leading pair followed by the others |
| OauthLogin.PopupQuery | src/TelegramOauthLogin.ts:53 | the popup URL's query: its definition is the model, `bot_id=`, the bot id, and `&` with the encoded parameters only when they are non-empty. `PopupQueryParams` and `PopupQueryNoEmptySegment` prove its properties |
| OauthLogin.PopupUrl | src/TelegramOauthLogin.ts:53 | the URL `auth` opens: its definition is the model, `https://oauth.telegram.org/auth?` followed by `PopupQuery`, whose properties `PopupQueryParams` and `PopupQueryNoEmptySegment` prove |
| OauthLogin.PopupQueryParams | src/TelegramOauthLogin.ts:53 | the popup URL's query parses to the bot id followed by exactly the truthy parameters |
| OauthLogin.PopupQueryNoEmptySegment | src/TelegramOauthLogin.ts:53 | the popup URL's query has no empty `&`-separated segment: no leading, trailing or doubled `&` |
| OauthLogin.ResultQuery | src/TelegramOauthLogin.ts:71-72 | with a falsy `lang` the query is `bot_id=` and the bot id |
| OauthLogin.ResultUrl | src/TelegramOauthLogin.ts:71-72 | the URL `getAuth` posts to: its definition is the model, `https://oauth.telegram.org/auth/get?` followed by `ResultQuery`. `ResultUrlWithoutLang` and `ResultQueryParams` prove its properties |
| OauthLogin.ResultRequest | src/TelegramOauthLogin.ts:71-80 | the `fetch` call of `getAuth`: its definition is the model, a POST to `ResultUrl` with the form content type, the `X-Requested-With` header, the encoded parameters as body and credentials included. `GetAuth` ensures it is the request sent, to the URL without `lang`, with a body that parses back to the truthy parameters |
| OauthLogin.ResultUrlWithoutLang | src/TelegramOauthLogin.ts:71-72 | with a falsy `lang` the result URL is `https://oauth.telegram.org/auth/get?bot_id=` followed by the bot id |
| OauthLogin.LangPiece | src/TelegramOauthLogin.ts:72 | `lang=` and the encoded language form the piece of the pair (`lang`, language) |
| OauthLogin.ResultQueryPieces | src/TelegramOauthLogin.ts:71-72 | with a truthy `lang` the query, `bot_id=`, the bot id, `&lang=` and the encoded language, is the bot id's piece, `&`, and the piece of the pair (`lang`, language) |
| OauthLogin.OnePieceRoundTrip | src/TelegramOauthLogin.ts:71 | a single piece parses to its one pair |
| OauthLogin.TwoPiecesRoundTrip | src/TelegramOauthLogin.ts:71-72 | two pieces joined by `&` parse to their two pairs |
| OauthLogin.ResultQueryParams | src/TelegramOauthLogin.ts:71-72 | the result URL's query parses to the bot id, followed by the language only when `lang` is truthy |
| OauthLogin.Delivered | src/TelegramOauthLogin.ts:87-89 | a user is among the delivered users if and only if the trace invokes the callback with it |
| OauthLogin.DeliveredAppend | src/TelegramOauthLogin.ts:87-89 | the users delivered by two traces in a row are those of the first, then those of the second |
| OauthLogin.DeliveredQuiet | src/TelegramOauthLogin.ts:49-60 | opening, focusing and timers deliver no user |
| OauthLogin.Threw | src/TelegramOauthLogin.ts:70-98 | when control reaches the `catch` block: its definition is the model, a failed fetch, an unparsable ok body, or a throwing callback on a user. `Resolve` ensures an error is logged exactly in these cases |
| OauthLogin.Resolve | src/TelegramOauthLogin.ts:81-98 | the callback gets the user only of an ok, parsed response with a user. An error is logged exactly when fetch, parsing or the callback threw. `onAuth` gets `'*'` and no data on an error or a non-ok status, and otherwise the body's origin and user |
| OauthLogin.DeliveredAfterFetch | src/TelegramOauthLogin.ts:69-99 | a request followed by its outcome's effects delivers exactly the ok response's user, if any |
| OauthLogin.TelegramOauthLogin.GetAuthEffects | src/TelegramOauthLogin.ts:70-98 | the effects of one `getAuth`: its definition is the model, the request and then the effects `Resolve` gives for the outcome. `DeliveredAfterFetch` proves they deliver exactly the ok response's user, and `GetAuth`, `CheckClose`, `OnClose` and `Auth` ensure they are appended to the trace |
| OauthLogin.TelegramOauthLogin.constructor | src/TelegramOauthLogin.ts:29-34 | a falsy bot id is stored as `""`; the parameters are encoded once; no popup; not finished; empty trace |
| OauthLogin.TelegramOauthLogin.Auth | src/TelegramOauthLogin.ts:39-63 | opens the popup URL under the name `telegram_oauth` and stores the handle. Sets the finished flag even without a window. Only with a window does it focus the popup and run the first poll. It never completes `onAuth` |
| OauthLogin.TelegramOauthLogin.CheckClose | src/TelegramOauthLogin.ts:45-50 | without a popup, or with a closed one, runs `getAuth(false)` with its effects and delivery. Otherwise it only sets a 100 ms timer and changes no flag |
| OauthLogin.TelegramOauthLogin.GetAuth | src/TelegramOauthLogin.ts:69-99 | sends a credentialed form POST to `…/auth/get?bot_id=` and the bot id, with no `lang`, whose body parses back to the truthy parameters. Delivers the ok response's user whether or not the attempt was finished. Completes `onAuth` only if it was not finished |
| OauthLogin.TelegramOauthLogin.OnAuth | src/TelegramOauthLogin.ts:107-122 | already finished: no change; otherwise completes once and sets the flag, which never goes back to false |
| OauthLogin.TelegramOauthLogin.OnClose | src/TelegramOauthLogin.ts:127-129 | runs `getAuth(false)`: its effects, its delivery and its guarded completion |

## Left out

- Popup geometry (lines 40-43) and the window feature string (line 55). They use floating point over the browser globals `screen`, `screenLeft` and `screenTop`; the model's `OpenWindow` effect carries only the URL and the window name.
- `window.open`, `focus`, `setTimeout`, `fetch`, `response.json` and `console.error` are browser and network I/O. They are inputs (`handle`, `closed`, `FetchOutcome`, `callbackThrows`) or trace effects. The logged error's text is not kept.
- Asynchronous interleaving of `await` points and of timer callbacks is not modelled. Each `getAuth` is one atomic step, and each poll is a separate call of `CheckClose` made by the client of the model when the timer fires.
- The `data` object that `onAuth` builds (lines 110-119) is discarded without effect. Only the flag update and the ghost completion count are modelled, and the `origin`, `authData` and `init` arguments are accepted but unused, as in the code.
- The `callback` field is not stored. Its only observable effects are the `InvokeCallback` entries of the trace and whether it threw.
- JavaScript strings holding lone surrogates are not representable, because a Dafny `char` is a Unicode scalar value. `encodeURIComponent` throws a URIError on them.
- `params` values are strings or `undefined`. A non-string value, which `encodeURIComponent` would first convert to a string, is not modelled. Nor are inherited enumerable properties that `for…in` would also visit. The entries are given in enumeration order.
- `Utf8.Decode` rejects ill-formed UTF-8, where the WHATWG decoder substitutes U+FFFD. It is used only to state round trips of well-formed encoder output, where the two agree.
- The bot id is put into both URLs without encoding, as the code does. The lemmas that parse URL queries therefore assume a bot id of unreserved characters (`PopupQueryParams`, `ResultQueryParams`) or one without `&` (`PopupQueryNoEmptySegment`).
- src/TelegramLoginButton.tsx is not part of this model. It is React UI whose only logic builds the `{origin, lang}` object that becomes the encoder's input.
