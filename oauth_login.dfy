/**
 * The Telegram OAuth popup login: one `TelegramOauthLogin` object per login
 * attempt. It encodes its parameters once, opens the provider's authorization
 * page in a popup, polls until the popup is closed, then asks the provider's
 * result endpoint for the session and hands the user it returns to the
 * caller's callback.
 *
 * Browser and network effects are inputs: what `window.open` returned, whether
 * the popup reads as closed at a poll, how the `fetch` ended and whether the
 * callback threw. What the object does to the outside world is appended to a
 * ghost trace of effects.
 */
module OauthLogin {
  import opened Wrappers
  import opened Seqs
  import UriComponent
  import opened FormUrlEncoded

  /** The user record the provider returns on success. */
  datatype TelegramUser = TelegramUser(
    id: int,
    firstName: string,
    lastName: string,
    username: string,
    photoUrl: string,
    authDate: int,
    hash: string)

  /** One property of the `params` object in for-in order; `None` is `undefined`. */
  datatype Entry = Entry(key: string, value: Option<string>)

  /** JavaScript truthiness of a string-or-undefined value. */
  predicate Truthy(v: Option<string>) {
    v.Some? && v.value != []
  }

  // ---------------------------------------------------------------------------
  // Parameter encoding

  /** The entries `encodeParams` keeps, as name/value pairs, in their order. */
  function Qualifying(params: seq<Entry>): (r: seq<Param>)
    ensures |r| <= |params|
    ensures forall p :: p in r ==> p.value != [] && Entry(p.name, Some(p.value)) in params
    ensures forall e :: e in params && Truthy(e.value) ==> Param(e.key, e.value.value) in r
  {
    if params == [] then []
    else
      var init, last := params[..|params| - 1], params[|params| - 1];
      assert params == init + [last];
      Qualifying(init) + (if Truthy(last.value) then [Param(last.key, last.value.value)] else [])
  }

  /** The piece `encodeParams` emits for one kept entry. */
  function Piece(p: Param): (piece: string)
    ensures piece != [] && '&' !in piece
  {
    UriComponent.Encode(p.name) + "=" + UriComponent.Encode(p.value)
  }

  /** The pieces of a list of pairs, one each, in order. */
  function Pieces(ps: seq<Param>): (pieces: seq<string>)
    ensures |pieces| == |ps|
    ensures forall i :: 0 <= i < |pieces| ==> pieces[i] != [] && '&' !in pieces[i]
  {
    if ps == [] then [] else [Piece(ps[0])] + Pieces(ps[1..])
  }

  /** Keeping entries one more entry at a time: the kept pairs grow at the end. */
  lemma QualifyingSnoc(params: seq<Entry>, e: Entry)
    ensures Qualifying(params + [e]) == Qualifying(params) + if Truthy(e.value) then [Param(e.key, e.value.value)] else []
  {
    assert (params + [e])[..|params|] == params;
  }

  /** The pieces of a list with one more pair end with that pair's piece. */
  lemma {:induction false} PiecesSnoc(ps: seq<Param>, p: Param)
    ensures Pieces(ps + [p]) == Pieces(ps) + [Piece(p)]
  {
    if ps == [] {
      assert ps + [p] == [p];
    } else {
      assert (ps + [p])[1..] == ps[1..] + [p];
      PiecesSnoc(ps[1..], p);
      ConcatAssoc([Piece(ps[0])], Pieces(ps[1..]), [Piece(p)]);
    }
  }

  /** The string `encodeParams` returns: the kept pieces joined by `&`. */
  function EncodedParams(params: seq<Entry>): string {
    Join(Pieces(Qualifying(params)), '&')
  }

  /** Parsing the pieces of a list of pairs gives the list back. */
  lemma {:induction false} ParsePiecesRoundTrip(ps: seq<Param>)
    ensures ParsePieces(Pieces(ps)) == Some(ps)
  {
    if ps != [] {
      var pieces := Pieces(ps);
      assert [ps[0]] + ps[1..] == ps;
      PiecesCons(ps[0], ps[1..]);
      assert pieces[1..] == Pieces(ps[1..]);
      ParsePiecesRoundTrip(ps[1..]);
      ParsePieceEncoded(ps[0].name, ps[0].value);
    }
  }

  /** Parsing the `&`-join of the pieces of a list of pairs gives the list back. */
  lemma JoinedPiecesRoundTrip(ps: seq<Param>)
    ensures ParseForm(Join(Pieces(ps), '&')) == Some(ps)
  {
    ParseFormJoin(Pieces(ps));
    ParsePiecesRoundTrip(ps);
  }

  /**
   * Round trip of `encodeParams`: reading its output as a query string or form
   * body gives exactly the truthy entries, in order, with their names and values.
   */
  lemma EncodedParamsRoundTrip(params: seq<Entry>)
    ensures ParseForm(EncodedParams(params)) == Some(Qualifying(params))
  {
    JoinedPiecesRoundTrip(Qualifying(params));
  }

  /** `encodeParams` returns `""` exactly when no entry has a truthy value. */
  lemma EncodedParamsEmpty(params: seq<Entry>)
    ensures EncodedParams(params) == [] <==> forall i :: 0 <= i < |params| ==> !Truthy(params[i].value)
  {
    var q := Qualifying(params);
    if q != [] {
      var pieces := Pieces(q);
      JoinSplit(EncodedParams(params), '&');
      SplitJoin(pieces, '&');
      assert Split(EncodedParams(params), '&') == pieces;
      assert Join(Split([], '&'), '&') == [];
      assert EncodedParams(params) != [];
      assert q[0] in q;
      assert exists i :: 0 <= i < |params| && params[i] == Entry(q[0].name, Some(q[0].value));
    } else {
      forall i | 0 <= i < |params|
        ensures !Truthy(params[i].value)
      {
        assert params[i] in params;
      }
    }
  }

  // ---------------------------------------------------------------------------
  // The two URLs and the result request

  const AUTH_URL: string := "https://oauth.telegram.org/auth"
  const RESULT_URL: string := "https://oauth.telegram.org/auth/get"
  const WINDOW_NAME: string := "telegram_oauth"
  const FORM_CONTENT_TYPE: string := "application/x-www-form-urlencoded; charset=UTF-8"
  const POLL_INTERVAL_MS: nat := 100

  /** The query of the popup URL: the bot id, then the encoded parameters after `&` if there are any. */
  function PopupQuery(botId: string, paramsEncoded: string): string {
    "bot_id=" + botId + (if paramsEncoded != [] then "&" + paramsEncoded else [])
  }

  /** The authorization page the popup opens. */
  function PopupUrl(botId: string, paramsEncoded: string): string {
    AUTH_URL + "?" + PopupQuery(botId, paramsEncoded)
  }

  /** The query of the result endpoint: the bot id, then `lang` if it is truthy. */
  function ResultQuery(botId: string, lang: Option<string>): (q: string)
    ensures !Truthy(lang) ==> q == "bot_id=" + botId
  {
    "bot_id=" + botId + (if Truthy(lang) then "&lang=" + UriComponent.Encode(lang.value) else [])
  }

  /** The result endpoint `getAuth` posts to. */
  function ResultUrl(botId: string, lang: Option<string>): string {
    RESULT_URL + "?" + ResultQuery(botId, lang)
  }

  /** With a falsy `lang` (as the login object always has) the result URL is the endpoint and the bot id alone. */
  lemma ResultUrlWithoutLang(botId: string, lang: Option<string>)
    requires !Truthy(lang)
    ensures ResultUrl(botId, lang) == RESULT_URL + "?bot_id=" + botId
  {
    assert "?" + "bot_id=" == "?bot_id=";
    ConcatAssoc(RESULT_URL + "?", "bot_id=", botId);
    ConcatAssoc(RESULT_URL, "?", "bot_id=");
  }

  /** A `fetch` call: method, URL, the two headers, body and credentials mode. */
  datatype Request = Request(
    httpMethod: string,
    url: string,
    contentType: string,
    requestedWith: string,
    body: string,
    credentials: string)

  /** The request `getAuth` sends: a credentialed form POST of the encoded parameters. */
  function ResultRequest(botId: string, lang: Option<string>, paramsEncoded: string): Request {
    Request("POST", ResultUrl(botId, lang), FORM_CONTENT_TYPE, "XMLHttpRequest", paramsEncoded, "include")
  }

  /** A bot id made of unreserved characters is also its own encoded form. */
  lemma BotIdPiece(botId: string)
    requires UriComponent.AllUnreserved(botId)
    ensures Piece(Param("bot_id", botId)) == "bot_id=" + botId
  {
    assert UriComponent.AllUnreserved("bot_id");
    assert "bot_id" + "=" == "bot_id=";
  }

  /** The piece of the language parameter. */
  lemma LangPiece(lang: string)
    ensures Piece(Param("lang", lang)) == "lang=" + UriComponent.Encode(lang)
  {
    assert UriComponent.AllUnreserved("lang");
    assert "lang" + "=" == "lang=";
  }

  /** The `&`-join of a first piece and further pieces. */
  lemma JoinCons(first: string, rest: seq<string>)
    ensures Join([first] + rest, '&') == first + (if rest != [] then "&" + Join(rest, '&') else [])
  {
    if rest != [] {
      assert ([first] + rest)[1..] == rest;
    }
  }

  /** The pieces of a list with a first pair begin with that pair's piece. */
  lemma PiecesCons(p: Param, ps: seq<Param>)
    ensures Pieces([p] + ps) == [Piece(p)] + Pieces(ps)
  {
    assert ([p] + ps)[1..] == ps;
  }

  /** The `&`-join of non-empty pieces is empty exactly when there are no pieces. */
  lemma JoinEmpty(parts: seq<string>)
    requires forall i :: 0 <= i < |parts| ==> parts[i] != []
    ensures Join(parts, '&') == [] <==> parts == []
  {
    if |parts| >= 2 {
      assert |Join(parts, '&')| >= |parts[0]|;
    }
  }

  /**
   * A query made of one leading piece, then `&` and further joined pieces
   * only when there are any, parses to the leading pair and then the others.
   */
  lemma LeadingPieceRoundTrip(first: Param, ps: seq<Param>)
    ensures var rest := Join(Pieces(ps), '&');
      ParseForm(Piece(first) + (if rest != [] then "&" + rest else [])) == Some([first] + ps)
  {
    PiecesCons(first, ps);
    JoinCons(Piece(first), Pieces(ps));
    JoinEmpty(Pieces(ps));
    JoinedPiecesRoundTrip([first] + ps);
  }

  /**
   * The popup URL's query carries the bot id first and then exactly the truthy
   * parameters, in order; an empty parameter string adds nothing.
   */
  lemma PopupQueryParams(botId: string, params: seq<Entry>)
    requires UriComponent.AllUnreserved(botId)
    ensures ParseForm(PopupQuery(botId, EncodedParams(params))) == Some([Param("bot_id", botId)] + Qualifying(params))
  {
    BotIdPiece(botId);
    LeadingPieceRoundTrip(Param("bot_id", botId), Qualifying(params));
  }

  /** The popup URL's query never has an empty `&`-separated segment: no leading, trailing or doubled `&`. */
  lemma PopupQueryNoEmptySegment(botId: string, params: seq<Entry>)
    requires '&' !in botId
    ensures forall segment :: segment in Split(PopupQuery(botId, EncodedParams(params)), '&') ==> segment != []
  {
    var first := "bot_id=" + botId;
    assert '&' !in first;
    var rest := Pieces(Qualifying(params));
    var parts := [first] + rest;
    JoinCons(first, rest);
    JoinEmpty(rest);
    assert PopupQuery(botId, EncodedParams(params)) == Join(parts, '&');
    SplitJoin(parts, '&');
  }

  /** Two pieces joined by `&` parse to their two pairs. */
  lemma TwoPiecesRoundTrip(first: Param, second: Param)
    ensures ParseForm(Piece(first) + ("&" + Piece(second))) == Some([first] + [second])
  {
    assert Pieces([second]) == [Piece(second)];
    assert Join(Pieces([second]), '&') == Piece(second);
    LeadingPieceRoundTrip(first, [second]);
  }

  /** The `&lang=` of the result URL is the separator followed by the start of the language's piece. */
  lemma LangSeparator(encoded: string)
    ensures "&lang=" + encoded == "&" + ("lang=" + encoded)
  {
    assert "&" + "lang=" == "&lang=";
    ConcatAssoc("&", "lang=", encoded);
  }

  /** With a truthy `lang`, the result URL's query is the bot id's piece and the language's piece. */
  lemma ResultQueryPieces(botId: string, lang: string)
    requires UriComponent.AllUnreserved(botId) && lang != []
    ensures ResultQuery(botId, Some(lang)) == Piece(Param("bot_id", botId)) + ("&" + Piece(Param("lang", lang)))
  {
    LangSeparator(UriComponent.Encode(lang));
    BotIdPiece(botId);
    LangPiece(lang);
  }

  /** A single piece parses to its pair. */
  lemma OnePieceRoundTrip(p: Param)
    ensures ParseForm(Piece(p)) == Some([p])
  {
    assert Pieces([p]) == [Piece(p)];
    JoinedPiecesRoundTrip([p]);
  }

  /** The result URL's query carries the bot id and, only when `lang` is truthy, the language. */
  lemma ResultQueryParams(botId: string, lang: Option<string>)
    requires UriComponent.AllUnreserved(botId)
    ensures ParseForm(ResultQuery(botId, lang))
         == Some([Param("bot_id", botId)] + (if Truthy(lang) then [Param("lang", lang.value)] else []))
  {
    var first := Param("bot_id", botId);
    if Truthy(lang) {
      var second := Param("lang", lang.value);
      ResultQueryPieces(botId, lang.value);
      TwoPiecesRoundTrip(first, second);
    } else {
      BotIdPiece(botId);
      OnePieceRoundTrip(first);
      assert [first] + [] == [first];
    }
  }

  // ---------------------------------------------------------------------------
  // Outcomes of the result request and their effects

  /** What `response.json()` gave: unparsable, or an object with `origin` and an optional `user`. */
  datatype JsonBody = Unparsable | Body(origin: string, user: Option<TelegramUser>)

  /** How `fetch` ended: it threw, or a response arrived with a status and a body. */
  datatype FetchOutcome = NetworkError | Response(status: int, body: JsonBody)

  /** `response.ok`: the status is in the range 200 to 299. */
  predicate IsOk(status: int) {
    200 <= status <= 299
  }

  /** The user carried by an ok response whose body parsed, if any. */
  function OkUser(outcome: FetchOutcome): Option<TelegramUser> {
    if outcome.Response? && IsOk(outcome.status) && outcome.body.Body? then outcome.body.user else None
  }

  /** The users an outcome hands to the callback: the user of an ok response, if any. */
  function Handed(outcome: FetchOutcome): seq<TelegramUser> {
    if OkUser(outcome).Some? then [OkUser(outcome).value] else []
  }

  /** Something the login object does to the outside world. */
  datatype Effect =
    | OpenWindow(url: string, name: string)
    | Focus
    | SetTimer(delayMs: nat)
    | Fetch(request: Request)
    | InvokeCallback(user: TelegramUser)
    | LogError

  /** The users handed to the callback, in order. */
  function Delivered(trace: seq<Effect>): (users: seq<TelegramUser>)
    ensures |users| <= |trace|
    ensures forall u :: u in users <==> InvokeCallback(u) in trace
  {
    if trace == [] then []
    else (if trace[0].InvokeCallback? then [trace[0].user] else []) + Delivered(trace[1..])
  }

  /** The callback invocations of two traces in a row are those of the first, then those of the second. */
  lemma {:induction false} DeliveredAppend(a: seq<Effect>, b: seq<Effect>)
    ensures Delivered(a + b) == Delivered(a) + Delivered(b)
  {
    if a != [] {
      assert (a + b)[1..] == a[1..] + b;
      DeliveredAppend(a[1..], b);
    } else {
      assert a + b == b;
    }
  }

  /** An effect that is not a callback invocation leaves the delivered users as they were. */
  lemma DeliveredQuiet(before: seq<Effect>, e: Effect)
    requires !e.InvokeCallback?
    ensures Delivered(before + [e]) == Delivered(before)
  {
    DeliveredAppend(before, [e]);
    assert Delivered([e]) == [];
  }

  /** The effects after the request, and the arguments `getAuth` passes to `onAuth`. */
  datatype Resolution = Resolution(effects: seq<Effect>, origin: string, authData: Option<TelegramUser>)

  /** Did the `try` block of `getAuth` throw: fetch failed, the body did not parse, or the callback threw? */
  predicate Threw(outcome: FetchOutcome, callbackThrows: bool) {
    || outcome.NetworkError?
    || (IsOk(outcome.status) && outcome.body.Unparsable?)
    || (OkUser(outcome).Some? && callbackThrows)
  }

  /** The case analysis of `getAuth` on the outcome of its request. */
  function Resolve(outcome: FetchOutcome, callbackThrows: bool): (r: Resolution)
    ensures Delivered(r.effects) == Handed(outcome)
    ensures LogError in r.effects <==> Threw(outcome, callbackThrows)
    ensures Threw(outcome, callbackThrows) || !IsOk(outcome.status) ==> r.origin == "*" && r.authData == None
    ensures !Threw(outcome, callbackThrows) && IsOk(outcome.status) ==> r.origin == outcome.body.origin && r.authData == OkUser(outcome)
  {
    match outcome
    case NetworkError => Resolution([LogError], "*", None)
    case Response(status, body) =>
      if !IsOk(status) then Resolution([], "*", None)
      else
        match body
        case Unparsable => Resolution([LogError], "*", None)
        case Body(origin, None) => Resolution([], origin, None)
        case Body(origin, Some(user)) =>
          if callbackThrows then Resolution([InvokeCallback(user), LogError], "*", None)
          else Resolution([InvokeCallback(user)], origin, Some(user))
  }

  /**
   * A request followed by the effects of its outcome adds to the delivered
   * users exactly the user of an ok response, if there is one.
   */
  lemma DeliveredAfterFetch(before: seq<Effect>, request: Request, outcome: FetchOutcome, callbackThrows: bool)
    ensures Delivered(before + ([Fetch(request)] + Resolve(outcome, callbackThrows).effects))
         == Delivered(before) + Handed(outcome)
  {
    var effects := Resolve(outcome, callbackThrows).effects;
    var sent := [Fetch(request)] + effects;
    assert sent[1..] == effects;
    assert Delivered(sent) == Delivered(effects);
    DeliveredAppend(before, sent);
  }

  /** A popup window handle returned by `window.open`. */
  datatype Window = Window(id: nat)

  // ---------------------------------------------------------------------------
  // The login object

  class TelegramOauthLogin {
    const botId: string
    const params: seq<Entry>
    const paramsEncoded: string
    const lang: Option<string>
    var activePopup: Option<Window>
    var authFinished: bool
    /** Everything the object has done to the outside world, oldest first. */
    ghost var trace: seq<Effect>
    /** How many times `onAuth` got past its guard. */
    ghost var completions: nat

    /** What the constructor fixes: `lang` is `""` and the encoded parameters are those of `params`. */
    ghost predicate Configured() {
      lang == Some([]) && paramsEncoded == EncodedParams(params)
    }

    /**
     * The object invariant: the configuration holds, and `onAuth` takes effect
     * at most once, never before the flag is set.
     */
    ghost predicate Valid()
      reads this
    {
      && Configured()
      && completions <= 1
      && (completions == 1 ==> authFinished)
    }

    /** Stores the bot id (`""` if falsy) and the parameters, and encodes the parameters once. */
    constructor (botId: Option<string>, params: seq<Entry>)
      ensures Valid()
      ensures this.botId == (if Truthy(botId) then botId.value else [])
      ensures this.params == params
      ensures activePopup == None && !authFinished
      ensures trace == [] && completions == 0
    {
      var encoded := EncodeParams(params);
      this.botId := if Truthy(botId) then botId.value else [];
      this.params := params;
      this.paramsEncoded := encoded;
      lang := Some([]);
      activePopup := None;
      authFinished := false;
      trace := [];
      completions := 0;
    }

    /** `encodeParams`: one `name=value` piece per truthy entry, joined by `&`. */
    static method EncodeParams(params: seq<Entry>) returns (encoded: string)
      ensures encoded == EncodedParams(params)
      ensures ParseForm(encoded) == Some(Qualifying(params))
    {
      var paramsArr: seq<string> := [];
      for i := 0 to |params|
        invariant paramsArr == Pieces(Qualifying(params[..i]))
      {
        var entry := params[i];
        ghost var kept := Qualifying(params[..i]);
        assert params[..i + 1] == params[..i] + [entry];
        QualifyingSnoc(params[..i], entry);
        if Truthy(entry.value) {
          PiecesSnoc(kept, Param(entry.key, entry.value.value));
          paramsArr := paramsArr + [UriComponent.Encode(entry.key) + "=" + UriComponent.Encode(entry.value.value)];
        } else {
          assert kept + [] == kept;
        }
      }
      assert params[..|params|] == params;
      encoded := Join(paramsArr, '&');
      EncodedParamsRoundTrip(params);
    }

    /** The effects of one `getAuth` call: the request, then what its outcome leads to. */
    ghost function GetAuthEffects(outcome: FetchOutcome, callbackThrows: bool): seq<Effect>
      reads this
    {
      [Fetch(ResultRequest(botId, lang, paramsEncoded))] + Resolve(outcome, callbackThrows).effects
    }

    /**
     * `auth`: opens the popup, sets the finished flag whether or not a window
     * came back, and only with a window focuses it and runs the first poll.
     */
    method Auth(handle: Option<Window>, closedAtFirstPoll: bool, outcome: FetchOutcome, callbackThrows: bool)
      requires Valid()
      modifies this`activePopup, this`authFinished, this`trace, this`completions
      ensures Valid()
      ensures activePopup == handle && authFinished
      ensures completions == old(completions)
      ensures trace == old(trace) + [OpenWindow(PopupUrl(botId, paramsEncoded), WINDOW_NAME)]
        + (if handle.None? then []
           else [Focus] + if closedAtFirstPoll then GetAuthEffects(outcome, callbackThrows) else [SetTimer(POLL_INTERVAL_MS)])
      ensures Delivered(trace) == Delivered(old(trace)) + if handle.Some? && closedAtFirstPoll then Handed(outcome) else []
    {
      ghost var afterOpen := trace + [OpenWindow(PopupUrl(botId, paramsEncoded), WINDOW_NAME)];
      DeliveredQuiet(trace, OpenWindow(PopupUrl(botId, paramsEncoded), WINDOW_NAME));
      activePopup := handle;
      trace := afterOpen;
      authFinished := true;
      if activePopup.Some? {
        DeliveredQuiet(trace, Focus);
        trace := trace + [Focus];
        ghost var poll := if closedAtFirstPoll then GetAuthEffects(outcome, callbackThrows) else [SetTimer(POLL_INTERVAL_MS)];
        CheckClose(closedAtFirstPoll, outcome, callbackThrows);
        assert trace == afterOpen + [Focus] + poll;
        ConcatAssoc(afterOpen, [Focus], poll);
      } else {
        assert trace == afterOpen + [];
      }
    }

    /**
     * One poll of `checkClose`: with no popup or a closed one it resolves the
     * attempt through `onClose`, otherwise it schedules the next poll.
     */
    method CheckClose(closed: bool, outcome: FetchOutcome, callbackThrows: bool)
      requires Valid()
      modifies this`authFinished, this`trace, this`completions
      ensures Valid()
      ensures activePopup.None? || closed ==>
        && trace == old(trace) + GetAuthEffects(outcome, callbackThrows)
        && authFinished
        && completions == old(completions) + (if old(authFinished) then 0 else 1)
      ensures activePopup.Some? && !closed ==>
        && trace == old(trace) + [SetTimer(POLL_INTERVAL_MS)]
        && authFinished == old(authFinished)
        && completions == old(completions)
      ensures Delivered(trace) == Delivered(old(trace)) + if activePopup.None? || closed then Handed(outcome) else []
    {
      if activePopup.None? || closed {
        OnClose(outcome, callbackThrows);
        return;
      }
      DeliveredQuiet(trace, SetTimer(POLL_INTERVAL_MS));
      trace := trace + [SetTimer(POLL_INTERVAL_MS)];
    }

    /**
     * `getAuth`: posts the encoded parameters to the result endpoint, hands an
     * ok response's user to the callback, outside the finished guard, and then
     * calls `onAuth`.
     */
    method GetAuth(init: bool, outcome: FetchOutcome, callbackThrows: bool)
      requires Valid()
      modifies this`authFinished, this`trace, this`completions
      ensures Valid()
      ensures trace == old(trace) + GetAuthEffects(outcome, callbackThrows)
      ensures trace[|old(trace)|]
           == Fetch(Request("POST", RESULT_URL + "?bot_id=" + botId, FORM_CONTENT_TYPE, "XMLHttpRequest", paramsEncoded, "include"))
      ensures ParseForm(trace[|old(trace)|].request.body) == Some(Qualifying(params))
      ensures Delivered(trace) == Delivered(old(trace)) + Handed(outcome)
      ensures authFinished
      ensures completions == old(completions) + (if old(authFinished) then 0 else 1)
    {
      ghost var before := trace;
      var request := ResultRequest(botId, lang, paramsEncoded);
      trace := trace + [Fetch(request)];
      var resolution := Resolve(outcome, callbackThrows);
      trace := trace + resolution.effects;
      ConcatAssoc(before, [Fetch(request)], resolution.effects);
      assert trace[|before|] == Fetch(request);
      ResultUrlWithoutLang(botId, lang);
      EncodedParamsRoundTrip(params);
      DeliveredAfterFetch(before, request, outcome, callbackThrows);
      OnAuth(resolution.origin, resolution.authData, init);
    }

    /** `onAuth`: does nothing once the attempt is finished, and otherwise finishes it. */
    method OnAuth(origin: string, authData: Option<TelegramUser>, init: bool)
      requires Valid()
      modifies this`authFinished, this`completions
      ensures Valid()
      ensures authFinished
      ensures completions == old(completions) + (if old(authFinished) then 0 else 1)
    {
      if authFinished {
        return;
      }
      completions := completions + 1;
      authFinished := true;
    }

    /** `onClose`: resolves the attempt with a non-initial `getAuth`. */
    method OnClose(outcome: FetchOutcome, callbackThrows: bool)
      requires Valid()
      modifies this`authFinished, this`trace, this`completions
      ensures Valid()
      ensures trace == old(trace) + GetAuthEffects(outcome, callbackThrows)
      ensures Delivered(trace) == Delivered(old(trace)) + Handed(outcome)
      ensures authFinished
      ensures completions == old(completions) + (if old(authFinished) then 0 else 1)
    {
      GetAuth(false, outcome, callbackThrows);
    }
  }

  /**
   * After `auth` the attempt already counts as finished, so the result fetched
   * when the popup closes finishes nothing, and a second fetch of the same
   * result hands the user to the callback a second time.
   */
  method RepeatedResult(botId: Option<string>, params: seq<Entry>, w: Window, origin: string, user: TelegramUser)
  {
    var login := new TelegramOauthLogin(botId, params);
    var result := Response(200, Body(origin, Some(user)));
    login.Auth(Some(w), false, result, false);
    assert Delivered(login.trace) == [];
    login.CheckClose(true, result, false);
    assert Delivered(login.trace) == [user];
    login.GetAuth(false, result, false);
    assert Delivered(login.trace) == [user] + [user];
    assert login.completions == 0;
  }

  /** Without `auth`, the first result finishes the attempt and later ones do not. */
  method ResultWithoutPopup(user: TelegramUser)
  {
    var login := new TelegramOauthLogin(None, []);
    assert login.botId == [] && login.paramsEncoded == [];
    login.GetAuth(true, Response(500, Unparsable), false);
    assert login.completions == 1;
    login.GetAuth(false, Response(200, Body("https://a.com", Some(user))), false);
    assert login.completions == 1 && Delivered(login.trace) == [user];
  }
}
