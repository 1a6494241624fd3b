/**
 * The callback page of the Telegram Login Widget. From the query parameters the widget
 * redirects with (`id`, `first_name`, `last_name`, `username`, `photo_url`, `auth_date`,
 * `hash`) it decides whether to redirect at once, to show an error, or to log in with the
 * widget's data; and after a login attempt, whether to redirect or to show the error.
 *
 * Navigation and the error state are outcome values; the translation function `t(key)` and
 * the result of the login request are parameters.
 */
module TelegramCallback {
  import opened Wrappers
  import opened JsParseInt

  /** The query string, as its name/value pairs in order. */
  type QueryParams = seq<(string, string)>

  /** `searchParams.get(name)`: the value of the first pair with that name, or null. */
  function Get(params: QueryParams, name: string): (r: Option<string>)
    ensures r.None? <==> forall i :: 0 <= i < |params| ==> params[i].0 != name
    ensures r.Some? ==> (name, r.value) in params
    ensures r.Some? ==> exists i :: FirstWithName(params, name, i) && params[i].1 == r.value
  {
    if params == [] then None
    else if params[0].0 == name then
      assert FirstWithName(params, name, 0);
      Some(params[0].1)
    else
      assert forall i :: FirstWithName(params[1..], name, i) ==> FirstWithName(params, name, i + 1);
      Get(params[1..], name)
  }

  /** `params[i]` is the first pair named `name`. */
  ghost predicate FirstWithName(params: QueryParams, name: string, i: int)
  {
    0 <= i < |params| && params[i].0 == name && forall j :: 0 <= j < i ==> params[j].0 != name
  }

  /** The payload of `loginWithTelegramWidget`. */
  datatype TelegramAuthData = TelegramAuthData(
    id: int,
    firstName: string,
    lastName: Option<string>,
    username: Option<string>,
    photoUrl: Option<string>,
    authDate: int,
    hash: string)

  /** What the page does next. */
  datatype Outcome =
    | Navigate(path: string)
    | ShowError(message: string)
    | Login(data: TelegramAuthData)

  /** A query value is truthy: present and not empty. */
  predicate Present(v: Option<string>)
  {
    v.Some? && v.value != ""
  }

  /** `v || undefined`. */
  function OrUndefined(v: Option<string>): Option<string>
  {
    if Present(v) then v else None
  }

  /** The effect on mount and its `authenticate` up to the login request. */
  function Authenticate(isAuthenticated: bool, params: QueryParams, t: string -> string): (o: Outcome)
    ensures o.Navigate? <==> isAuthenticated
    ensures o.Navigate? ==> o.path == "/"
    ensures o.ShowError? ==> o.message == t("auth.telegramRequired")
  {
    if isAuthenticated then Navigate("/")
    else
      var id := Get(params, "id");
      var firstName := Get(params, "first_name");
      var lastName := Get(params, "last_name");
      var username := Get(params, "username");
      var photoUrl := Get(params, "photo_url");
      var authDate := Get(params, "auth_date");
      var hash := Get(params, "hash");
      if !Present(id) || !Present(firstName) || !Present(authDate) || !Present(hash) then
        ShowError(t("auth.telegramRequired"))
      else
        var parsedId := ParseInt(id.value);
        var parsedAuthDate := ParseInt(authDate.value);
        if parsedId.None? || parsedAuthDate.None? then ShowError(t("auth.telegramRequired"))
        else
          Login(TelegramAuthData(
            parsedId.value, firstName.value, OrUndefined(lastName), OrUndefined(username),
            OrUndefined(photoUrl), parsedAuthDate.value, hash.value))
  }

  /** Once logged in, the page redirects home without looking at the query. */
  lemma AuthenticatedRedirects(params: QueryParams, t: string -> string)
    ensures Authenticate(true, params, t) == Navigate("/")
  {
  }

  /** A missing or empty required parameter is an error, and no login is attempted. */
  lemma RequiredParameters(params: QueryParams, t: string -> string)
    requires !Present(Get(params, "id")) || !Present(Get(params, "first_name"))
          || !Present(Get(params, "auth_date")) || !Present(Get(params, "hash"))
    ensures Authenticate(false, params, t) == ShowError(t("auth.telegramRequired"))
  {
  }

  /** An `id` or `auth_date` that `parseInt` reads as NaN is an error. */
  lemma NumericParameters(params: QueryParams, t: string -> string)
    requires Present(Get(params, "id")) && Present(Get(params, "auth_date"))
    requires ParseInt(Get(params, "id").value).None? || ParseInt(Get(params, "auth_date").value).None?
    ensures Authenticate(false, params, t) == ShowError(t("auth.telegramRequired"))
  {
  }

  /**
   * The outcome is a login exactly when not yet authenticated, the four required parameters are
   * present and not empty, and `id` and `auth_date` read as numbers; the payload then carries
   * the parsed numbers, `first_name` and `hash` as given, and each optional parameter that is
   * missing or empty as undefined.
   */
  lemma LoginPayload(isAuthenticated: bool, params: QueryParams, t: string -> string)
    ensures Authenticate(isAuthenticated, params, t).Login? <==>
      && !isAuthenticated
      && Present(Get(params, "id")) && Present(Get(params, "first_name"))
      && Present(Get(params, "auth_date")) && Present(Get(params, "hash"))
      && ParseInt(Get(params, "id").value).Some? && ParseInt(Get(params, "auth_date").value).Some?
    ensures Authenticate(isAuthenticated, params, t).Login? ==>
      var d := Authenticate(isAuthenticated, params, t).data;
      && Some(d.id) == ParseInt(Get(params, "id").value)
      && Some(d.authDate) == ParseInt(Get(params, "auth_date").value)
      && Some(d.firstName) == Get(params, "first_name") && d.firstName != ""
      && Some(d.hash) == Get(params, "hash") && d.hash != ""
      && d.lastName == (if Present(Get(params, "last_name")) then Get(params, "last_name") else None)
      && d.username == (if Present(Get(params, "username")) then Get(params, "username") else None)
      && d.photoUrl == (if Present(Get(params, "photo_url")) then Get(params, "photo_url") else None)
  {
  }

  /** An optional field the widget sends: absent, or present and not empty. */
  predicate OptionalSent(v: Option<string>)
  {
    v.None? || v.value != ""
  }

  /** The data the widget can send: the name and the hash are never empty. */
  predicate WellFormed(d: TelegramAuthData)
  {
    d.firstName != "" && d.hash != "" && OptionalSent(d.lastName) && OptionalSent(d.username) && OptionalSent(d.photoUrl)
  }

  function OptionalParam(name: string, v: Option<string>): QueryParams
  {
    if v.Some? then [(name, v.value)] else []
  }

  /** The query string the widget redirects with for `d`, optional fields only when set. */
  function WidgetParams(d: TelegramAuthData): QueryParams
  {
    [("id", DecimalString(d.id)), ("first_name", d.firstName)]
    + OptionalParam("last_name", d.lastName)
    + OptionalParam("username", d.username)
    + OptionalParam("photo_url", d.photoUrl)
    + [("auth_date", DecimalString(d.authDate)), ("hash", d.hash)]
  }

  /** Every well-formed widget redirect logs in with exactly the data the widget sent. */
  lemma WidgetRoundTrip(d: TelegramAuthData, t: string -> string)
    requires WellFormed(d)
    ensures Authenticate(false, WidgetParams(d), t) == Login(d)
  {
    var params := WidgetParams(d);
    GetInWidgetParams(d);
    ParseDecimalString(d.id);
    ParseDecimalString(d.authDate);
  }

  lemma GetInWidgetParams(d: TelegramAuthData)
    ensures var params := WidgetParams(d);
      && Get(params, "id") == Some(DecimalString(d.id))
      && Get(params, "first_name") == Some(d.firstName)
      && Get(params, "last_name") == d.lastName
      && Get(params, "username") == d.username
      && Get(params, "photo_url") == d.photoUrl
      && Get(params, "auth_date") == Some(DecimalString(d.authDate))
      && Get(params, "hash") == Some(d.hash)
  {
    GetLastName(d);
    GetUsername(d);
    GetPhotoUrl(d);
    GetTail(d);
  }

  lemma GetLastName(d: TelegramAuthData)
    ensures Get(WidgetParams(d), "last_name") == d.lastName
  {
    var head := [("id", DecimalString(d.id)), ("first_name", d.firstName)];
    var rest := OptionalParam("username", d.username) + OptionalParam("photo_url", d.photoUrl)
      + [("auth_date", DecimalString(d.authDate)), ("hash", d.hash)];
    assert WidgetParams(d) == head + OptionalParam("last_name", d.lastName) + rest;
    GetOptional(head, OptionalParam("last_name", d.lastName), rest, "last_name", d.lastName);
  }

  lemma GetUsername(d: TelegramAuthData)
    ensures Get(WidgetParams(d), "username") == d.username
  {
    var head := [("id", DecimalString(d.id)), ("first_name", d.firstName)] + OptionalParam("last_name", d.lastName);
    var rest := OptionalParam("photo_url", d.photoUrl) + [("auth_date", DecimalString(d.authDate)), ("hash", d.hash)];
    assert WidgetParams(d) == head + OptionalParam("username", d.username) + rest;
    GetOptional(head, OptionalParam("username", d.username), rest, "username", d.username);
  }

  lemma GetPhotoUrl(d: TelegramAuthData)
    ensures Get(WidgetParams(d), "photo_url") == d.photoUrl
  {
    var head := [("id", DecimalString(d.id)), ("first_name", d.firstName)] + OptionalParam("last_name", d.lastName)
      + OptionalParam("username", d.username);
    var rest := [("auth_date", DecimalString(d.authDate)), ("hash", d.hash)];
    assert WidgetParams(d) == head + OptionalParam("photo_url", d.photoUrl) + rest;
    GetOptional(head, OptionalParam("photo_url", d.photoUrl), rest, "photo_url", d.photoUrl);
  }

  lemma GetTail(d: TelegramAuthData)
    ensures Get(WidgetParams(d), "auth_date") == Some(DecimalString(d.authDate))
    ensures Get(WidgetParams(d), "hash") == Some(d.hash)
  {
    var head := [("id", DecimalString(d.id)), ("first_name", d.firstName)] + OptionalParam("last_name", d.lastName)
      + OptionalParam("username", d.username) + OptionalParam("photo_url", d.photoUrl);
    var tail := [("auth_date", DecimalString(d.authDate)), ("hash", d.hash)];
    assert WidgetParams(d) == head + tail;
    GetThrough(head, tail, "auth_date");
    GetThrough(head, tail, "hash");
  }

  /** An optional parameter between two parts that do not hold its name is found as set. */
  lemma GetOptional(a: QueryParams, opt: QueryParams, b: QueryParams, name: string, v: Option<string>)
    requires opt == OptionalParam(name, v)
    requires forall i :: 0 <= i < |a| ==> a[i].0 != name
    requires forall i :: 0 <= i < |b| ==> b[i].0 != name
    ensures Get(a + opt + b, name) == v
  {
    assert a + opt + b == a + (opt + b);
    GetThrough(a, opt + b, name);
    GetAppend(opt, b, name);
  }

  /** Looking up a name that the first part does not hold searches the second part. */
  lemma GetThrough(a: QueryParams, b: QueryParams, name: string)
    requires forall i :: 0 <= i < |a| ==> a[i].0 != name
    ensures Get(a + b, name) == Get(b, name)
  {
    GetAppend(a, b, name);
  }

  /** A name in the first part is found there; otherwise the search goes on in the second. */
  lemma {:induction false} GetAppend(a: QueryParams, b: QueryParams, name: string)
    ensures Get(a + b, name) == if Get(a, name).Some? then Get(a, name) else Get(b, name)
  {
    if a != [] {
      assert (a + b)[1..] == a[1..] + b;
      GetAppend(a[1..], b, name);
    } else {
      assert a + b == b;
    }
  }

  /** The outcome of `loginWithTelegramWidget`: success, or a failure whose response may carry
      a `detail` string. */
  datatype LoginResult = LoggedIn | Failed(detail: Option<string>)

  /** `error.response?.data?.detail || t('common.error')`. */
  function LoginFailureMessage(detail: Option<string>, t: string -> string): (msg: string)
    ensures Present(detail) ==> msg == detail.value
    ensures !Present(detail) ==> msg == t("common.error")
  {
    if Present(detail) then detail.value else t("common.error")
  }

  /** After the login request: home on success, the failure message otherwise. */
  function AfterLogin(result: LoginResult, t: string -> string): (o: Outcome)
    ensures o.Navigate? <==> result.LoggedIn?
    ensures o.Navigate? ==> o.path == "/"
    ensures !o.Login?
  {
    match result
    case LoggedIn => Navigate("/")
    case Failed(detail) => ShowError(LoginFailureMessage(detail, t))
  }

  /** The whole effect, with the login request's result given by `login`. */
  function Callback(isAuthenticated: bool, params: QueryParams, t: string -> string,
                    login: TelegramAuthData -> LoginResult): (o: Outcome)
    ensures !o.Login?
    ensures o.Navigate? ==> o.path == "/"
    ensures !Authenticate(isAuthenticated, params, t).Login? ==> o == Authenticate(isAuthenticated, params, t)
  {
    match Authenticate(isAuthenticated, params, t)
    case Login(d) => AfterLogin(login(d), t)
    case other => other
  }

  /** The login request is made exactly when the decision is to log in, and then a success
      redirects home and a failure shows its message. */
  lemma CallbackAfterLogin(isAuthenticated: bool, params: QueryParams, t: string -> string,
                           login: TelegramAuthData -> LoginResult)
    requires Authenticate(isAuthenticated, params, t).Login?
    ensures var d := Authenticate(isAuthenticated, params, t).data;
      && (login(d).LoggedIn? ==> Callback(isAuthenticated, params, t, login) == Navigate("/"))
      && (login(d).Failed? ==>
            Callback(isAuthenticated, params, t, login) == ShowError(LoginFailureMessage(login(d).detail, t)))
  {
  }

  /** The `error` state after the effect: the message of an error outcome, else still empty. */
  function ErrorState(o: Outcome): string
  {
    if o.ShowError? then o.message else ""
  }

  /** What the page renders. */
  datatype Screen = ErrorScreen(message: string) | Authenticating

  /** `if (error) …`: the error screen for a non-empty error, else the spinner. */
  function Render(error: string): (s: Screen)
    ensures s.ErrorScreen? <==> error != ""
    ensures s.ErrorScreen? ==> s.message == error
  {
    if error != "" then ErrorScreen(error) else Authenticating
  }

  /** Some required parameter is missing or empty. */
  predicate RequiredMissing(params: QueryParams)
  {
    !Present(Get(params, "id")) || !Present(Get(params, "first_name"))
    || !Present(Get(params, "auth_date")) || !Present(Get(params, "hash"))
  }

  /** `id` and `auth_date` are there, but one of them reads as NaN. */
  predicate NumbersInvalid(params: QueryParams)
  {
    && Present(Get(params, "id")) && Present(Get(params, "auth_date"))
    && (ParseInt(Get(params, "id").value).None? || ParseInt(Get(params, "auth_date").value).None?)
  }

  /**
   * What the user sees once the effect has run: the spinner when already logged in or after a
   * successful login (the redirect takes over), the `auth.telegramRequired` message for a bad
   * query, and the server's `detail` or else `common.error` after a failed login. An error
   * whose translated text is empty leaves the spinner on screen.
   */
  lemma PageScreen(isAuthenticated: bool, params: QueryParams, t: string -> string,
                   login: TelegramAuthData -> LoginResult)
    ensures var screen := Render(ErrorState(Callback(isAuthenticated, params, t, login)));
      && (isAuthenticated ==> screen == Authenticating)
      && (!isAuthenticated && (RequiredMissing(params) || NumbersInvalid(params)) ==>
            screen == if t("auth.telegramRequired") != "" then ErrorScreen(t("auth.telegramRequired")) else Authenticating)
      && (!isAuthenticated && !RequiredMissing(params) && !NumbersInvalid(params) ==>
            var result := login(Authenticate(false, params, t).data);
            && (result.LoggedIn? ==> screen == Authenticating)
            && (result.Failed? && Present(result.detail) ==> screen == ErrorScreen(result.detail.value))
            && (result.Failed? && !Present(result.detail) ==>
                  screen == if t("common.error") != "" then ErrorScreen(t("common.error")) else Authenticating))
  {
  }
}
