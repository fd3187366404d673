/**
 * `switchErrorHandling`: a server message is matched by exact string
 * equality against six known messages; each has one fixed alert text and
 * possibly further effects, and any other message is alerted verbatim.
 */
module ErrorHandling {
  import opened Wrappers
  import opened Store

  const InvalidCsrf := "invalid csrf token"
  const ExpiredJwt := "invalid or expired jwt"
  const MalformedJwt := "missing or malformed jwt"
  const DuplicatedKey := "duplicated key not allowed"
  const PasswordMismatch := "crypto/bcrypt: hashedPassword is not the hash of the given password"
  const RecordNotFound := "record not found"

  /** The known messages and the alert each one shows. */
  const AlertTable: map<string, string> := map[
    InvalidCsrf := "CSRF toke is invalid, please try again",
    ExpiredJwt := "access token expired, please login",
    MalformedJwt := "access token is not valid, please login",
    DuplicatedKey := "email already exist, please use another one",
    PasswordMismatch := "password is not correct",
    RecordNotFound := "email is not correct"
  ]

  /** The route session errors send the user to. */
  const EntryPoint := "/"

  /** The header key the CSRF refetch writes. */
  const RefetchCsrfHeader := "X=CSRF-TOKEN"
  /** The header key the application's start-up writes (App.tsx). */
  const BootstrapCsrfHeader := "X-CSRF-Token"

  /** What handling one message does. */
  datatype Effect = Effect(alert: string, refetchCsrf: bool, resetDraft: bool, navigate: Option<string>)

  /** The side effects `switchErrorHandling(msg)` performs. */
  function SwitchErrorHandling(msg: string): (e: Effect)
    ensures msg in AlertTable ==> e.alert == AlertTable[msg]
    ensures msg !in AlertTable ==> e == Effect(msg, false, false, None)
    ensures e.refetchCsrf <==> msg == InvalidCsrf
    ensures e.resetDraft <==> msg == ExpiredJwt || msg == MalformedJwt
    ensures e.navigate == (if e.resetDraft then Some(EntryPoint) else None)
  {
    if msg == InvalidCsrf then Effect("CSRF toke is invalid, please try again", true, false, None)
    else if msg == ExpiredJwt then Effect("access token expired, please login", false, true, Some("/"))
    else if msg == MalformedJwt then Effect("access token is not valid, please login", false, true, Some("/"))
    else if msg == DuplicatedKey then Effect("email already exist, please use another one", false, false, None)
    else if msg == PasswordMismatch then Effect("password is not correct", false, false, None)
    else if msg == RecordNotFound then Effect("email is not correct", false, false, None)
    else Effect(msg, false, false, None)
  }

  /** "record not found" only alerts that the email is wrong. */
  lemma RecordNotFoundOnlyAlerts()
    ensures SwitchErrorHandling(RecordNotFound) == Effect("email is not correct", false, false, None)
  {
  }

  /** The refetched token lands under a different key from the start-up token. */
  lemma CsrfHeaderKeysDiffer()
    ensures RefetchCsrfHeader != BootstrapCsrfHeader
  {
    assert RefetchCsrfHeader[1] != BootstrapCsrfHeader[1];
  }

  /** The page-level state error handling touches: alerts shown, the route,
      axios' default headers and the CSRF requests still in flight. */
  class Page {
    var alerts: seq<string>
    var location: string
    var headers: map<string, string>
    var pendingCsrfFetches: nat

    constructor (location: string, headers: map<string, string>)
      ensures this.alerts == [] && this.location == location && this.headers == headers
      ensures pendingCsrfFetches == 0
    {
      this.alerts := [];
      this.location := location;
      this.headers := headers;
      this.pendingCsrfFetches := 0;
    }

    /** Runs `switchErrorHandling(msg)`: one alert, and the message's further effects. */
    method HandleError(msg: string, store: DraftStore)
      modifies this, store
      ensures alerts == old(alerts) + [SwitchErrorHandling(msg).alert]
      ensures store.editedTask == if SwitchErrorHandling(msg).resetDraft then Initial else old(store.editedTask)
      ensures location == if SwitchErrorHandling(msg).navigate.Some? then EntryPoint else old(location)
      ensures pendingCsrfFetches == old(pendingCsrfFetches) + if msg == InvalidCsrf then 1 else 0
      ensures headers == old(headers)
    {
      var e := SwitchErrorHandling(msg);
      if e.refetchCsrf {
        pendingCsrfFetches := pendingCsrfFetches + 1;
      }
      alerts := alerts + [e.alert];
      if e.resetDraft {
        store.ResetEditedTask();
      }
      if e.navigate.Some? {
        location := e.navigate.value;
      }
    }

    /**
     * A `getCsrfToken` request settles: with the token, it is written under
     * "X=CSRF-TOKEN"; a failed request changes no header.
     */
    method CsrfFetchSettled(token: Option<string>)
      requires pendingCsrfFetches > 0
      modifies this
      ensures pendingCsrfFetches == old(pendingCsrfFetches) - 1
      ensures headers == if token.Some? then old(headers)[RefetchCsrfHeader := token.value] else old(headers)
      ensures alerts == old(alerts) && location == old(location)
    {
      pendingCsrfFetches := pendingCsrfFetches - 1;
      if token.Some? {
        headers := headers[RefetchCsrfHeader := token.value];
      }
    }
  }
}
