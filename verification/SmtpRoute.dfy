/**
 Validation and normalisation of the SMTP route of a deployment (scripts/deploy/validate_smtp_route.py:89-258).
 */
module SmtpRoute {
  import opened Outcomes
  import opened EnvFile
  import Sorting

  /** The variables that validation reads or writes; every other name is passed through. */
  datatype Key =
    | SmtpHost | SmtpPort | SmtpSsl | SmtpStarttls | SmtpUser | SmtpPass | SmtpFromEmail | SmtpFromName
    | SmtpAccountLabel | SmtpRouteMode | PostgresUser | PostgresPassword | SecretKey | PostgresDb | DatabaseUrl
    | Env | FrontendBaseUrl | CorsOrigins | AuthEmailVerificationRequired | AuthDebugReturnVerifyToken
    | AuthCookieSecure | ForwardedAllowIps | EmailDeliveryMode | Other(name: string)

  type Values = map<Key, string>

  /** `str.lower`, `int` and `quote(…, safe='')`. */
  datatype Text = Text(lower: string -> string, number: string -> Option<int>, quote: string -> string)

  /** An item of the error message. */
  datatype Item = At(key: Key) | Tls | InternalHost

  datatype RouteError = UnsupportedTarget | Missing(keys: seq<Key>) | Invalid(items: seq<Item>)

  datatype HostClass = InternalRelay | InternalCapture | ExternalProvider
  datatype TlsMode = Ssl | StartTls | Plaintext

  datatype RouteSummary = RouteSummary(
    prod: bool, source: string, sourceOwner: string, host: string, hostClass: HostClass, port: int, tls: TlsMode,
    fromEmail: string, accountLabel: string, authPresent: bool)

  datatype Route = Route(normalized: Values, summary: RouteSummary)

  const BASE_URL := "https://moneyflow.enmsoftware.com"
  const ACCOUNT_LABEL := "money-flow-prod"
  const BLOCKED_HOSTS := {"mailpit", "enm-mail-smtp", "moneyflow-smtp-local", "localhost", "127.0.0.1", "::1"}
  const CAPTURE_PORTS := {1025}
  const PROD_REQUIRED := [PostgresUser, PostgresPassword, SecretKey, SmtpHost, SmtpPort, SmtpSsl, SmtpStarttls,
                          SmtpUser, SmtpPass, SmtpFromEmail, SmtpFromName, SmtpAccountLabel]
  const DEV_REQUIRED := [SmtpHost, SmtpPort, SmtpSsl, SmtpStarttls, SmtpFromEmail, SmtpAccountLabel]

  // ---------------------------------------------------------------------------
  // Reading values
  // ---------------------------------------------------------------------------

  function Get(v: Values, k: Key): string { if k in v then v[k] else "" }

  function Trimmed(v: Values, k: Key): string { Strip(Get(v, k)) }

  function GetOr(v: Values, k: Key, otherwise: string): string {
    if Get(v, k) == "" then otherwise else Get(v, k)
  }

  function Required(prod: bool): seq<Key> { if prod then PROD_REQUIRED else DEV_REQUIRED }

  predicate Present(v: Values, keys: seq<Key>) {
    forall k :: k in keys ==> Trimmed(v, k) != ""
  }

  function MissingOf(v: Values, keys: seq<Key>): (missing: seq<Key>)
    ensures missing == [] <==> Present(v, keys)
  {
    if keys == [] then []
    else
      assert forall k :: k in keys <==> k == keys[0] || k in keys[1..];
      if Trimmed(v, keys[0]) == "" then [keys[0]] + MissingOf(v, keys[1..]) else MissingOf(v, keys[1..])
  }

  function Flag(t: Text, v: Values, k: Key): Option<bool> {
    var raw := t.lower(Trimmed(v, k));
    if raw == "true" then Some(true) else if raw == "false" then Some(false) else None
  }

  function On(flag: Option<bool>): bool { flag == Some(true) }

  function Occurrences(s: string, c: char): nat {
    if s == "" then 0 else (if s[0] == c then 1 else 0) + Occurrences(s[1..], c)
  }

  function Brackets(): char -> bool { (c: char) => c == '[' || c == ']' }

  function HostText(t: Text, host: string): string { Stripped(t.lower(Strip(host)), Brackets()) }

  /** The part before the port; a text with more than one colon is taken as a whole. */
  function KeyOf(text: string): string {
    if text == "::1" || Occurrences(text, ':') > 1 || ':' !in text then text else text[..IndexOf(text, ':')]
  }

  function HostKey(t: Text, host: string): string { KeyOf(HostText(t, host)) }

  function ClassifyHost(t: Text, host: string, prod: bool): HostClass {
    var key := HostKey(t, host);
    if key in {"enm-mail-smtp", "moneyflow-smtp-local"} then InternalRelay
    else if key in {"mailpit", "localhost", "127.0.0.1", "::1"} then InternalCapture
    else if prod && key in BLOCKED_HOSTS then InternalCapture
    else ExternalProvider
  }

  function Stars(n: nat): string { if n == 0 then "" else "*" + Stars(n - 1) }

  function MaskedEmail(address: string): string {
    var text := Strip(address);
    if '@' !in text then "***"
    else
      var i := IndexOf(text, '@');
      (if i <= 2 then Stars(i) else text[..2] + Stars(i - 2)) + "@" + text[i + 1..]
  }

  function TlsOf(ssl: bool, starttls: bool): TlsMode {
    if ssl then Ssl else if starttls then StartTls else Plaintext
  }

  // ---------------------------------------------------------------------------
  // The errors, in the order they are found
  // ---------------------------------------------------------------------------

  function Add(errors: seq<Item>, wrong: bool, item: Item): seq<Item> { if wrong then errors + [item] else errors }

  function Differs(v: Values, k: Key, expected: string): bool { Trimmed(v, k) != "" && Trimmed(v, k) != expected }

  function SettingErrors(t: Text, v: Values, prod: bool): seq<Item> {
    var e := Add([], t.lower(Strip(GetOr(v, EmailDeliveryMode, "smtp"))) != "smtp", At(EmailDeliveryMode));
    if prod then ProdSettingErrors(v, e) else Add(e, Trimmed(v, SmtpAccountLabel) == "", At(SmtpAccountLabel))
  }

  function ProdSettingErrors(v: Values, e: seq<Item>): seq<Item> {
    var e := Add(e, Differs(v, Env, "prod"), At(Env));
    var e := Add(e, Differs(v, FrontendBaseUrl, BASE_URL), At(FrontendBaseUrl));
    var e := Add(e, Differs(v, CorsOrigins, BASE_URL), At(CorsOrigins));
    var e := Add(e, Differs(v, AuthEmailVerificationRequired, "true"), At(AuthEmailVerificationRequired));
    var e := Add(e, Differs(v, AuthDebugReturnVerifyToken, "false"), At(AuthDebugReturnVerifyToken));
    Add(e, Trimmed(v, SmtpAccountLabel) != ACCOUNT_LABEL, At(SmtpAccountLabel))
  }

  /** The port, or 0 when it is not a number. */
  function PortOf(t: Text, v: Values): int {
    var n := t.number(Trimmed(v, SmtpPort));
    if n.None? then 0 else n.value
  }

  predicate BadPort(t: Text, v: Values) { !(1 <= PortOf(t, v) <= 65535) }

  predicate AuthConfigured(v: Values) { Trimmed(v, SmtpUser) != "" || Trimmed(v, SmtpPass) != "" }

  function TransportErrors(t: Text, v: Values, e: seq<Item>): seq<Item> {
    var ssl, starttls := Flag(t, v, SmtpSsl), Flag(t, v, SmtpStarttls);
    var e := Add(e, BadPort(t, v), At(SmtpPort));
    var e := Add(e, '@' !in Get(v, SmtpFromEmail), At(SmtpFromEmail));
    var e := Add(e, ssl.None?, At(SmtpSsl));
    var e := Add(e, starttls.None?, At(SmtpStarttls));
    if On(ssl) && On(starttls) then e + [At(SmtpSsl), At(SmtpStarttls)] else e
  }

  function SecurityErrors(t: Text, v: Values, prod: bool, e: seq<Item>): seq<Item> {
    var tls := On(Flag(t, v, SmtpSsl)) || On(Flag(t, v, SmtpStarttls));
    var internal := HostKey(t, Trimmed(v, SmtpHost)) in BLOCKED_HOSTS
                    || ClassifyHost(t, Trimmed(v, SmtpHost), prod) != ExternalProvider;
    var mode := Strip(GetOr(v, SmtpRouteMode, "direct-provider")) != "direct-provider";
    SecurityItems(prod, AuthConfigured(v), tls, PortOf(t, v) in CAPTURE_PORTS, internal, mode, e)
  }

  function SecurityItems(prod: bool, auth: bool, tls: bool, capture: bool, internal: bool, mode: bool, e: seq<Item>)
    : seq<Item>
  {
    ProviderItems(prod, capture, internal, mode, ProtectionItems(prod, auth, tls, e))
  }

  function ProtectionItems(prod: bool, auth: bool, tls: bool, e: seq<Item>): seq<Item> {
    var e := if prod && !auth then e + [At(SmtpUser), At(SmtpPass)] else e;
    var e := Add(e, auth && !tls, Tls);
    Add(e, prod && !tls, Tls)
  }

  function ProviderItems(prod: bool, capture: bool, internal: bool, mode: bool, e: seq<Item>): seq<Item> {
    var e := Add(e, prod && capture, At(SmtpPort));
    var e := Add(e, prod && internal, InternalHost);
    Add(e, prod && mode, At(SmtpRouteMode))
  }

  function Errors(t: Text, v: Values, prod: bool): seq<Item> {
    SecurityErrors(t, v, prod, TransportErrors(t, v, SettingErrors(t, v, prod)))
  }

  /** Each item once, at its first place. */
  function Unique(items: seq<Item>): (u: seq<Item>)
    ensures forall x :: x in u <==> x in items
    ensures forall i, j :: 0 <= i < j < |u| ==> u[i] != u[j]
  {
    if items == [] then []
    else
      var before, last := Unique(items[..|items| - 1]), items[|items| - 1];
      assert items == items[..|items| - 1] + [last];
      if last in before then before else before + [last]
  }

  // ---------------------------------------------------------------------------
  // The result
  // ---------------------------------------------------------------------------

  function DatabaseUrlOf(t: Text, v: Values): string {
    "postgresql+psycopg://" + t.quote(Get(v, PostgresUser)) + ":" + t.quote(Get(v, PostgresPassword))
    + "@postgres:5432/moneyflow"
  }

  /** The variables that production fixes. */
  predicate IsFixed(k: Key) {
    match k
    case Env | PostgresDb | DatabaseUrl | CorsOrigins | FrontendBaseUrl | AuthCookieSecure => true
    case AuthDebugReturnVerifyToken | AuthEmailVerificationRequired | ForwardedAllowIps => true
    case EmailDeliveryMode | SmtpAccountLabel => true
    case _ => false
  }

  function FixedKeys(): (keys: set<Key>)
    ensures forall k :: k in keys <==> IsFixed(k)
  {
    {Env, PostgresDb, DatabaseUrl, CorsOrigins, FrontendBaseUrl, AuthCookieSecure, AuthDebugReturnVerifyToken,
     AuthEmailVerificationRequired, ForwardedAllowIps, EmailDeliveryMode, SmtpAccountLabel}
  }

  function FixedValue(k: Key, databaseUrl: string): string
    requires IsFixed(k)
  {
    match k
    case Env => "prod"
    case PostgresDb => "moneyflow"
    case DatabaseUrl => databaseUrl
    case CorsOrigins | FrontendBaseUrl => BASE_URL
    case AuthCookieSecure | AuthEmailVerificationRequired => "true"
    case AuthDebugReturnVerifyToken => "false"
    case ForwardedAllowIps => "172.30.0.0/24,127.0.0.1,::1"
    case EmailDeliveryMode => "smtp"
    case SmtpAccountLabel => ACCOUNT_LABEL
  }

  function WithFixed(v: Values, databaseUrl: string): Values {
    map k | k in v.Keys + FixedKeys() :: if IsFixed(k) then FixedValue(k, databaseUrl) else v[k]
  }

  function Normalized(t: Text, v: Values, prod: bool): Values {
    if prod then WithFixed(v, DatabaseUrlOf(t, v)) else v
  }

  function SummaryOf(t: Text, v: Values, n: Values, prod: bool, source: string, owner: string): RouteSummary {
    RouteSummary(prod, source, owner, Trimmed(v, SmtpHost), ClassifyHost(t, Trimmed(v, SmtpHost), prod), PortOf(t, v),
                 TlsOf(On(Flag(t, v, SmtpSsl)), On(Flag(t, v, SmtpStarttls))), MaskedEmail(Get(n, SmtpFromEmail)),
                 Get(n, SmtpAccountLabel), AuthConfigured(v))
  }

  function IsProd(t: Text, target: string): Option<bool> {
    var text := t.lower(Strip(if target == "" then "prod" else target));
    if text in {"prod", "production"} then Some(true) else if text == "dev" then Some(false) else None
  }

  function Validated(t: Text, v: Values, target: string, source: string, owner: string): Result<Route, RouteError> {
    match IsProd(t, target)
    case None => Err(UnsupportedTarget)
    case Some(prod) =>
      if Problem(t, v, prod).Some? then Err(Problem(t, v, prod).value)
      else Ok(Accepted(t, v, prod, source, owner))
  }

  function Problem(t: Text, v: Values, prod: bool): Option<RouteError> {
    var missing, errors := MissingOf(v, Required(prod)), Errors(t, v, prod);
    if missing != [] then Some(Missing(missing))
    else if errors != [] then Some(Invalid(Unique(errors)))
    else None
  }

  function Accepted(t: Text, v: Values, prod: bool, source: string, owner: string): Route {
    var normalized := Normalized(t, v, prod);
    Route(normalized, SummaryOf(t, v, normalized, prod, source, owner))
  }

  method CheckSettings(t: Text, v: Values, prod: bool) returns (errors: seq<Item>)
    ensures errors == SettingErrors(t, v, prod) && At(SmtpPort) !in errors
  {
    errors := [];
    if t.lower(Strip(GetOr(v, EmailDeliveryMode, "smtp"))) != "smtp" {
      errors := errors + [At(EmailDeliveryMode)];
    }
    if prod {
      errors := CheckProdSettings(v, errors);
    } else if Trimmed(v, SmtpAccountLabel) == "" {
      errors := errors + [At(SmtpAccountLabel)];
    }
  }

  method CheckProdSettings(v: Values, before: seq<Item>) returns (errors: seq<Item>)
    requires At(SmtpPort) !in before
    ensures errors == ProdSettingErrors(v, before) && At(SmtpPort) !in errors
  {
    errors := RequireIfPresent(v, Env, "prod", before);
    errors := RequireIfPresent(v, FrontendBaseUrl, BASE_URL, errors);
    errors := RequireIfPresent(v, CorsOrigins, BASE_URL, errors);
    errors := RequireIfPresent(v, AuthEmailVerificationRequired, "true", errors);
    errors := RequireIfPresent(v, AuthDebugReturnVerifyToken, "false", errors);
    if Trimmed(v, SmtpAccountLabel) != ACCOUNT_LABEL {
      errors := errors + [At(SmtpAccountLabel)];
    }
  }

  method RequireIfPresent(v: Values, key: Key, expected: string, before: seq<Item>) returns (errors: seq<Item>)
    ensures errors == Add(before, Differs(v, key, expected), At(key))
    ensures At(SmtpPort) !in before && key != SmtpPort ==> At(SmtpPort) !in errors
  {
    errors := before;
    var current := Trimmed(v, key);
    if current != "" && current != expected {
      errors := errors + [At(key)];
    }
  }

  method BoolValue(t: Text, v: Values, key: Key, before: seq<Item>) returns (value: bool, errors: seq<Item>)
    ensures value == On(Flag(t, v, key)) && errors == Add(before, Flag(t, v, key).None?, At(key))
  {
    var raw := t.lower(Trimmed(v, key));
    if raw != "true" && raw != "false" {
      return false, before + [At(key)];
    }
    return raw == "true", before;
  }

  method CheckTransport(t: Text, v: Values, before: seq<Item>)
    returns (errors: seq<Item>, port: int, ssl: bool, starttls: bool)
    requires At(SmtpPort) !in before
    ensures errors == TransportErrors(t, v, before)
    ensures port == PortOf(t, v) && ssl == On(Flag(t, v, SmtpSsl)) && starttls == On(Flag(t, v, SmtpStarttls))
  {
    errors := before;
    var number := t.number(Trimmed(v, SmtpPort));
    if number.Some? {
      port := number.value;
    } else {
      port := 0;
      errors := errors + [At(SmtpPort)];
    }
    if port < 1 || port > 65535 {
      if At(SmtpPort) !in errors {
        errors := errors + [At(SmtpPort)];
      }
    }
    if '@' !in Get(v, SmtpFromEmail) {
      errors := errors + [At(SmtpFromEmail)];
    }
    ssl, errors := BoolValue(t, v, SmtpSsl, errors);
    starttls, errors := BoolValue(t, v, SmtpStarttls, errors);
    if ssl && starttls {
      errors := errors + [At(SmtpSsl), At(SmtpStarttls)];
    }
  }

  method CheckSecurity(t: Text, v: Values, prod: bool, port: int, tls: bool, before: seq<Item>)
    returns (errors: seq<Item>)
    requires port == PortOf(t, v) && tls == (On(Flag(t, v, SmtpSsl)) || On(Flag(t, v, SmtpStarttls)))
    ensures errors == SecurityErrors(t, v, prod, before)
  {
    errors := before;
    var host := Trimmed(v, SmtpHost);
    var auth := AuthConfigured(v);
    if prod && !auth {
      errors := errors + [At(SmtpUser), At(SmtpPass)];
    }
    if auth && !tls {
      errors := errors + [Tls];
    }
    if prod && !tls {
      errors := errors + [Tls];
    }
    if prod && port in CAPTURE_PORTS {
      errors := errors + [At(SmtpPort)];
    }
    if prod && (HostKey(t, host) in BLOCKED_HOSTS || ClassifyHost(t, host, prod) != ExternalProvider) {
      errors := errors + [InternalHost];
    }
    if prod && Strip(GetOr(v, SmtpRouteMode, "direct-provider")) != "direct-provider" {
      errors := errors + [At(SmtpRouteMode)];
    }
  }

  method UniqueItems(items: seq<Item>) returns (unique: seq<Item>)
    ensures unique == Unique(items)
  {
    unique := [];
    for i := 0 to |items|
      invariant unique == Unique(items[..i])
    {
      assert items[..i + 1][..i] == items[..i];
      if items[i] !in unique {
        unique := unique + [items[i]];
      }
    }
    assert items[..|items|] == items;
  }

  method ValidateRoute(t: Text, v: Values, target: string, source: string, owner: string)
    returns (r: Result<Route, RouteError>)
    ensures r == Validated(t, v, target, source, owner)
  {
    var environment := IsProd(t, target);
    if environment.None? {
      return Err(UnsupportedTarget);
    }
    var prod := environment.value;
    var missing := MissingOf(v, Required(prod));
    if missing != [] {
      return Err(Missing(missing));
    }
    var errors := CheckSettings(t, v, prod);
    var port, ssl, starttls;
    errors, port, ssl, starttls := CheckTransport(t, v, errors);
    errors := CheckSecurity(t, v, prod, port, ssl || starttls, errors);
    if errors != [] {
      var unique := UniqueItems(errors);
      return Err(Invalid(unique));
    }
    var normalized := Normalized(t, v, prod);
    return Ok(Route(normalized, SummaryOf(t, v, normalized, prod, source, owner)));
  }

  // ---------------------------------------------------------------------------
  // Exactly when a route is accepted
  // ---------------------------------------------------------------------------

  predicate Settings(t: Text, v: Values, prod: bool) {
    && t.lower(Strip(GetOr(v, EmailDeliveryMode, "smtp"))) == "smtp"
    && (prod ==>
          && Trimmed(v, Env) in {"", "prod"} && Trimmed(v, FrontendBaseUrl) in {"", BASE_URL}
          && Trimmed(v, CorsOrigins) in {"", BASE_URL} && Trimmed(v, AuthEmailVerificationRequired) in {"", "true"}
          && Trimmed(v, AuthDebugReturnVerifyToken) in {"", "false"} && Trimmed(v, SmtpAccountLabel) == ACCOUNT_LABEL)
    && (!prod ==> Trimmed(v, SmtpAccountLabel) != "")
  }

  /** A real port, a sender with an @, and at most one of the two kinds of TLS, each set plainly. */
  predicate Transport(t: Text, v: Values) {
    && 1 <= PortOf(t, v) <= 65535 && '@' in Get(v, SmtpFromEmail)
    && Flag(t, v, SmtpSsl).Some? && Flag(t, v, SmtpStarttls).Some?
    && !(On(Flag(t, v, SmtpSsl)) && On(Flag(t, v, SmtpStarttls)))
  }

  /** TLS wherever there are credentials; in production always, to a real provider, with credentials. */
  predicate Secure(t: Text, v: Values, prod: bool) {
    && (AuthConfigured(v) || prod ==> On(Flag(t, v, SmtpSsl)) || On(Flag(t, v, SmtpStarttls)))
    && (prod ==>
          && AuthConfigured(v) && PortOf(t, v) !in CAPTURE_PORTS
          && HostKey(t, Trimmed(v, SmtpHost)) !in BLOCKED_HOSTS
          && Strip(GetOr(v, SmtpRouteMode, "direct-provider")) == "direct-provider")
  }

  lemma SettingsExactly(t: Text, v: Values, prod: bool)
    ensures SettingErrors(t, v, prod) == [] <==> Settings(t, v, prod)
  {
  }

  lemma TransportExactly(t: Text, v: Values, e: seq<Item>)
    ensures TransportErrors(t, v, e) == [] <==> e == [] && Transport(t, v)
  {
  }

  /** In production the classification adds nothing to the list of blocked hosts. */
  lemma ExternalExactly(t: Text, host: string)
    ensures ClassifyHost(t, host, true) == ExternalProvider <==> HostKey(t, host) !in BLOCKED_HOSTS
  {
  }

  // Which spellings of a blocked host are recognised.

  lemma {:induction false} OccurrencesAppend(a: string, b: string, c: char)
    ensures Occurrences(a + b, c) == Occurrences(a, c) + Occurrences(b, c)
  {
    if a == "" {
      assert a + b == b;
    } else {
      OccurrencesAppend(a[1..], b, c);
      assert (a + b)[1..] == a[1..] + b;
    }
  }

  lemma {:induction false} NoOccurrence(s: string, c: char)
    ensures Occurrences(s, c) == 0 <==> c !in s
  {
    if s != "" {
      NoOccurrence(s[1..], c);
    }
  }

  ghost predicate HasPort(text: string, name: string) {
    exists port :: ':' !in port && text == name + ":" + port
  }

  lemma KeyWithPort(name: string, port: string)
    requires ':' !in name && ':' !in port
    ensures KeyOf(name + ":" + port) == name
  {
    var text := name + ":" + port;
    OccurrencesAppend(name + ":", port, ':');
    OccurrencesAppend(name, ":", ':');
    NoOccurrence(name, ':');
    NoOccurrence(port, ':');
    assert ":"[1..] == "";
    FirstColon(name, port);
    assert text[..|name|] == name;
  }

  lemma FirstColon(name: string, port: string)
    requires ':' !in name
    ensures ':' in name + ":" + port && IndexOf(name + ":" + port, ':') == |name|
  {
    var text := name + ":" + port;
    assert text[|name|] == ':';
    var i := IndexOf(text, ':');
    assert forall k :: 0 <= k < |name| ==> text[k] == name[k] && name[k] in name;
    assert forall k :: 0 <= k < i ==> text[k] in text[..i];
  }

  lemma PortOfKey(text: string)
    requires KeyOf(text) != text
    ensures ':' !in KeyOf(text) && HasPort(text, KeyOf(text))
  {
    var i := IndexOf(text, ':');
    var port := text[i + 1..];
    assert text == text[..i] + ":" + port;
    OccurrencesAppend(text[..i] + ":", port, ':');
    OccurrencesAppend(text[..i], ":", ':');
    assert ":"[1..] == "";
    NoOccurrence(port, ':');
  }

  /** A host is taken for `name` exactly when, stripped and in lower case, it is the name or, for a name without a
      colon, the name and a port. */
  lemma KeyExactly(text: string, name: string)
    requires ':' !in name || name == "::1"
    ensures KeyOf(text) == name <==> text == name || (':' !in name && HasPort(text, name))
  {
    if KeyOf(text) != text {
      PortOfKey(text);
    }
    if ':' !in name && HasPort(text, name) {
      var port :| ':' !in port && text == name + ":" + port;
      KeyWithPort(name, port);
    }
  }

  lemma BlockedNames(name: string)
    requires name in BLOCKED_HOSTS
    ensures ':' !in name || name == "::1"
  {
  }

  /** In production a host is blocked exactly when it is one of the listed names, or one without a colon and a port. */
  lemma BlockedExactly(t: Text, host: string)
    ensures ClassifyHost(t, host, true) != ExternalProvider
      <==> exists name :: name in BLOCKED_HOSTS
             && (HostText(t, host) == name || (':' !in name && HasPort(HostText(t, host), name)))
  {
    ExternalExactly(t, host);
    forall name | name in BLOCKED_HOSTS
      ensures HostKey(t, host) == name
        <==> HostText(t, host) == name || (':' !in name && HasPort(HostText(t, host), name))
    {
      BlockedNames(name);
      KeyExactly(HostText(t, host), name);
    }
  }

  /** So a text with two colons, other than the loopback address itself, is never blocked: the loopback address in
      brackets with a port counts as an external host. */
  lemma TwoColonsAreExternal(t: Text, host: string)
    requires Occurrences(HostText(t, host), ':') > 1 && HostText(t, host) != "::1"
    ensures ClassifyHost(t, host, true) == ExternalProvider
  {
    ExternalExactly(t, host);
    if HostKey(t, host) in BLOCKED_HOSTS {
      BlockedNames(HostKey(t, host));
      NoOccurrence(HostText(t, host), ':');
    }
  }

  lemma OpeningBracket(rest: string)
    requires rest != "" && !Brackets()(rest[0]) && !Brackets()(rest[|rest| - 1])
    ensures Stripped("[" + rest, Brackets()) == rest
  {
    var text := "[" + rest;
    assert text[1..] == rest;
    assert LeftStripped(text, Brackets()) == LeftStripped(rest, Brackets());
  }

  lemma NothingToStrip(s: string)
    requires s != "" && !IsSpace(s[0]) && !IsSpace(s[|s| - 1])
    ensures Strip(s) == s
  {
  }

  lemma BracketedText(t: Text, host: string, rest: string)
    requires host == "[" + rest && t.lower(host) == host
    requires rest != "" && !Brackets()(rest[0]) && !Brackets()(rest[|rest| - 1]) && !IsSpace(rest[|rest| - 1])
    ensures HostText(t, host) == rest
  {
    assert host[|host| - 1] == rest[|rest| - 1];
    NothingToStrip(host);
    OpeningBracket(rest);
  }

  lemma LeadingColons(rest: string)
    ensures Occurrences("::" + rest, ':') >= 2
  {
    OccurrencesAppend("::", rest, ':');
    assert "::"[1..] == ":" && ":"[1..] == "";
  }

  lemma BracketedLoopbackIsExternal(t: Text)
    requires t.lower("[::1]:587") == "[::1]:587"
    ensures ClassifyHost(t, "[::1]:587", true) == ExternalProvider
  {
    assert "::1]:587" == "::" + "1]:587" && "[::1]:587" == "[" + "::1]:587";
    LeadingColons("1]:587");
    BracketedText(t, "[::1]:587", "::1]:587");
    TwoColonsAreExternal(t, "[::1]:587");
  }

  lemma SecureExactly(t: Text, v: Values, prod: bool, e: seq<Item>)
    ensures SecurityErrors(t, v, prod, e) == [] <==> e == [] && Secure(t, v, prod)
  {
    ExternalExactly(t, Trimmed(v, SmtpHost));
  }

  ghost predicate NamesOnce(items: seq<Item>, errors: seq<Item>) {
    && items != [] && (forall x :: x in items <==> x in errors)
    && (forall i, j :: 0 <= i < j < |items| ==> items[i] != items[j])
  }

  /** What acceptance asks of a route. */
  predicate RouteOk(t: Text, v: Values, prod: bool) {
    Present(v, Required(prod)) && Settings(t, v, prod) && Transport(t, v) && Secure(t, v, prod)
  }

  lemma ErrorsExactly(t: Text, v: Values, prod: bool)
    ensures Errors(t, v, prod) == [] <==> Settings(t, v, prod) && Transport(t, v) && Secure(t, v, prod)
  {
    SettingsExactly(t, v, prod);
    TransportExactly(t, v, SettingErrors(t, v, prod));
    SecureExactly(t, v, prod, TransportErrors(t, v, SettingErrors(t, v, prod)));
  }

  /** A route is accepted exactly when everything required is present and the settings, the transport and the
      security are right. */
  lemma ProblemExactly(t: Text, v: Values, prod: bool)
    ensures Problem(t, v, prod).None? <==> RouteOk(t, v, prod)
  {
    ErrorsExactly(t, v, prod);
  }

  /** A refusal for wrong values names each wrong item once. */
  lemma InvalidNamesOnce(t: Text, v: Values, prod: bool)
    requires Problem(t, v, prod).Some? && Problem(t, v, prod).value.Invalid?
    ensures NamesOnce(Problem(t, v, prod).value.items, Errors(t, v, prod))
  {
    UniqueNamesOnce(Errors(t, v, prod));
  }

  lemma UniqueNamesOnce(errors: seq<Item>)
    requires errors != []
    ensures NamesOnce(Unique(errors), errors)
  {
    assert errors[0] in Unique(errors);
  }

  lemma AcceptedExactly(t: Text, v: Values, target: string, source: string, owner: string)
    requires IsProd(t, target).Some?
    ensures Validated(t, v, target, source, owner).Ok? <==> RouteOk(t, v, IsProd(t, target).value)
  {
    ProblemExactly(t, v, IsProd(t, target).value);
  }

  // ---------------------------------------------------------------------------
  // The refusals and the summary, spelled out
  // ---------------------------------------------------------------------------

  /** Which targets there are; an empty one is production. */
  lemma TargetExactly(t: Text, target: string)
    ensures var text := t.lower(Strip(if target == "" then "prod" else target));
      && (IsProd(t, target) == Some(true) <==> text == "prod" || text == "production")
      && (IsProd(t, target) == Some(false) <==> text == "dev")
  {
  }

  ghost predicate Set(v: Values, k: Key) { k in v && Strip(v[k]) != "" }

  /** The variables that have to be set, in the order in which a refusal names them. */
  lemma {:induction false} MissingIsFilter(v: Values, keys: seq<Key>)
    ensures MissingOf(v, keys) == Sorting.Filter(keys, (k: Key) => Strip(Get(v, k)) == "")
  {
    if keys != [] {
      MissingIsFilter(v, keys[1..]);
    }
  }

  lemma RequiredExactly(prod: bool)
    ensures Required(prod) ==
      if prod then
        [PostgresUser, PostgresPassword, SecretKey, SmtpHost, SmtpPort, SmtpSsl, SmtpStarttls, SmtpUser, SmtpPass,
         SmtpFromEmail, SmtpFromName, SmtpAccountLabel]
      else [SmtpHost, SmtpPort, SmtpSsl, SmtpStarttls, SmtpFromEmail, SmtpAccountLabel]
  {
  }

  /** A route is refused for missing variables exactly when a required one is not set, and all of these are named. */
  lemma MissingExactly(t: Text, v: Values, prod: bool)
    ensures (exists keys :: Problem(t, v, prod) == Some(Missing(keys)))
      <==> exists k :: k in Required(prod) && !Set(v, k)
    ensures Problem(t, v, prod).Some? && Problem(t, v, prod).value.Missing? ==>
      Problem(t, v, prod).value.keys == Sorting.Filter(Required(prod), (k: Key) => Strip(Get(v, k)) == "")
  {
    MissingIsFilter(v, Required(prod));
    MissingWhenUnset(v, Required(prod));
  }

  lemma MissingWhenUnset(v: Values, keys: seq<Key>)
    ensures MissingOf(v, keys) != [] <==> exists k :: k in keys && !Set(v, k)
  {
    forall k ensures Set(v, k) <==> Trimmed(v, k) != "" { EmptyIsUnset(v, k); }
  }

  lemma EmptyIsUnset(v: Values, k: Key)
    ensures Set(v, k) <==> Strip(Get(v, k)) != ""
  {
  }

  /** The variable is set, to something else. */
  ghost predicate SetOtherwise(v: Values, k: Key, expected: string) {
    Strip(Get(v, k)) != "" && Strip(Get(v, k)) != expected
  }

  ghost predicate SaysTrue(t: Text, v: Values, k: Key) { t.lower(Strip(Get(v, k))) == "true" }

  ghost predicate SaysFalse(t: Text, v: Values, k: Key) { t.lower(Strip(Get(v, k))) == "false" }

  ghost predicate NoTls(t: Text, v: Values) { !SaysTrue(t, v, SmtpSsl) && !SaysTrue(t, v, SmtpStarttls) }

  ghost predicate NoCredentials(v: Values) { Strip(Get(v, SmtpUser)) == "" && Strip(Get(v, SmtpPass)) == "" }

  /** When an item of a route is wrong. */
  ghost predicate Wrong(t: Text, v: Values, prod: bool, x: Item) {
    match x
    case Tls => NoTls(t, v) && (prod || !NoCredentials(v))
    case InternalHost => prod && HostKey(t, Strip(Get(v, SmtpHost))) in BLOCKED_HOSTS
    case At(k) =>
      match k
      case EmailDeliveryMode => t.lower(Strip(if Get(v, k) == "" then "smtp" else Get(v, k))) != "smtp"
      case Env => prod && SetOtherwise(v, k, "prod")
      case FrontendBaseUrl | CorsOrigins => prod && SetOtherwise(v, k, "https://moneyflow.enmsoftware.com")
      case AuthEmailVerificationRequired => prod && SetOtherwise(v, k, "true")
      case AuthDebugReturnVerifyToken => prod && SetOtherwise(v, k, "false")
      case SmtpAccountLabel => if prod then Strip(Get(v, k)) != "money-flow-prod" else Strip(Get(v, k)) == ""
      case SmtpPort =>
        var port := t.number(Strip(Get(v, k)));
        port.None? || port.value < 1 || port.value > 65535 || (prod && port.value == 1025)
      case SmtpFromEmail => '@' !in Get(v, k)
      case SmtpSsl | SmtpStarttls =>
        (!SaysTrue(t, v, k) && !SaysFalse(t, v, k)) || (SaysTrue(t, v, SmtpSsl) && SaysTrue(t, v, SmtpStarttls))
      case SmtpUser | SmtpPass => prod && NoCredentials(v)
      case SmtpRouteMode => prod && Strip(if Get(v, k) == "" then "direct-provider" else Get(v, k)) != "direct-provider"
      case _ => false
  }

  lemma InAdd(e: seq<Item>, wrong: bool, item: Item, x: Item)
    ensures x in Add(e, wrong, item) <==> x in e || (wrong && x == item)
  {
  }

  ghost predicate ProdSettingWrong(v: Values, x: Item) {
    || (x == At(Env) && Differs(v, Env, "prod"))
    || (x == At(FrontendBaseUrl) && Differs(v, FrontendBaseUrl, BASE_URL))
    || (x == At(CorsOrigins) && Differs(v, CorsOrigins, BASE_URL))
    || (x == At(AuthEmailVerificationRequired) && Differs(v, AuthEmailVerificationRequired, "true"))
    || (x == At(AuthDebugReturnVerifyToken) && Differs(v, AuthDebugReturnVerifyToken, "false"))
    || (x == At(SmtpAccountLabel) && Trimmed(v, SmtpAccountLabel) != ACCOUNT_LABEL)
  }

  lemma ProdSettingsTold(v: Values, e: seq<Item>, x: Item)
    ensures x in ProdSettingErrors(v, e) <==> x in e || ProdSettingWrong(v, x)
  {
    var a := Add(e, Differs(v, Env, "prod"), At(Env));
    var b := Add(a, Differs(v, FrontendBaseUrl, BASE_URL), At(FrontendBaseUrl));
    var c := Add(b, Differs(v, CorsOrigins, BASE_URL), At(CorsOrigins));
    var d := Add(c, Differs(v, AuthEmailVerificationRequired, "true"), At(AuthEmailVerificationRequired));
    var f := Add(d, Differs(v, AuthDebugReturnVerifyToken, "false"), At(AuthDebugReturnVerifyToken));
    InAdd(e, Differs(v, Env, "prod"), At(Env), x);
    InAdd(a, Differs(v, FrontendBaseUrl, BASE_URL), At(FrontendBaseUrl), x);
    InAdd(b, Differs(v, CorsOrigins, BASE_URL), At(CorsOrigins), x);
    InAdd(c, Differs(v, AuthEmailVerificationRequired, "true"), At(AuthEmailVerificationRequired), x);
    InAdd(d, Differs(v, AuthDebugReturnVerifyToken, "false"), At(AuthDebugReturnVerifyToken), x);
    InAdd(f, Trimmed(v, SmtpAccountLabel) != ACCOUNT_LABEL, At(SmtpAccountLabel), x);
  }

  ghost predicate SettingWrong(t: Text, v: Values, prod: bool, x: Item) {
    || (x == At(EmailDeliveryMode) && t.lower(Strip(GetOr(v, EmailDeliveryMode, "smtp"))) != "smtp")
    || (prod && ProdSettingWrong(v, x))
    || (!prod && x == At(SmtpAccountLabel) && Trimmed(v, SmtpAccountLabel) == "")
  }

  lemma SettingsTold(t: Text, v: Values, prod: bool, x: Item)
    ensures x in SettingErrors(t, v, prod) <==> SettingWrong(t, v, prod, x)
  {
    var e := Add([], t.lower(Strip(GetOr(v, EmailDeliveryMode, "smtp"))) != "smtp", At(EmailDeliveryMode));
    InAdd([], t.lower(Strip(GetOr(v, EmailDeliveryMode, "smtp"))) != "smtp", At(EmailDeliveryMode), x);
    if prod {
      ProdSettingsTold(v, e, x);
    } else {
      InAdd(e, Trimmed(v, SmtpAccountLabel) == "", At(SmtpAccountLabel), x);
    }
  }

  ghost predicate TransportWrong(t: Text, v: Values, x: Item) {
    var ssl, starttls := Flag(t, v, SmtpSsl), Flag(t, v, SmtpStarttls);
    || (x == At(SmtpPort) && BadPort(t, v)) || (x == At(SmtpFromEmail) && '@' !in Get(v, SmtpFromEmail))
    || (x == At(SmtpSsl) && (ssl.None? || (On(ssl) && On(starttls))))
    || (x == At(SmtpStarttls) && (starttls.None? || (On(ssl) && On(starttls))))
  }

  lemma TransportTold(t: Text, v: Values, e: seq<Item>, x: Item)
    ensures x in TransportErrors(t, v, e) <==> x in e || TransportWrong(t, v, x)
  {
    var ssl, starttls := Flag(t, v, SmtpSsl), Flag(t, v, SmtpStarttls);
    var a := Add(e, BadPort(t, v), At(SmtpPort));
    var b := Add(a, '@' !in Get(v, SmtpFromEmail), At(SmtpFromEmail));
    var c := Add(b, ssl.None?, At(SmtpSsl));
    InAdd(e, BadPort(t, v), At(SmtpPort), x);
    InAdd(a, '@' !in Get(v, SmtpFromEmail), At(SmtpFromEmail), x);
    InAdd(b, ssl.None?, At(SmtpSsl), x);
    InAdd(c, starttls.None?, At(SmtpStarttls), x);
  }

  ghost predicate SecurityWrong(t: Text, v: Values, prod: bool, x: Item) {
    SecurityItemWrong(prod, AuthConfigured(v), On(Flag(t, v, SmtpSsl)) || On(Flag(t, v, SmtpStarttls)),
                      PortOf(t, v) in CAPTURE_PORTS, HostKey(t, Trimmed(v, SmtpHost)) in BLOCKED_HOSTS,
                      Strip(GetOr(v, SmtpRouteMode, "direct-provider")) != "direct-provider", x)
  }

  ghost predicate SecurityItemWrong(prod: bool, auth: bool, tls: bool, capture: bool, internal: bool, mode: bool,
                                    x: Item)
  {
    match x
    case Tls => !tls && (auth || prod)
    case InternalHost => prod && internal
    case At(k) =>
      prod && match k
              case SmtpUser | SmtpPass => !auth
              case SmtpPort => capture
              case SmtpRouteMode => mode
              case _ => false
  }

  lemma ProtectionItemsTold(prod: bool, auth: bool, tls: bool, e: seq<Item>, x: Item)
    ensures x in ProtectionItems(prod, auth, tls, e)
      <==> || x in e || (prod && !auth && (x == At(SmtpUser) || x == At(SmtpPass)))
           || (x == Tls && !tls && (auth || prod))
  {
    var a := if prod && !auth then e + [At(SmtpUser), At(SmtpPass)] else e;
    InAdd(a, auth && !tls, Tls, x);
    InAdd(Add(a, auth && !tls, Tls), prod && !tls, Tls, x);
  }

  lemma ProviderItemsTold(prod: bool, capture: bool, internal: bool, mode: bool, e: seq<Item>, x: Item)
    ensures x in ProviderItems(prod, capture, internal, mode, e)
      <==> || x in e
           || (prod && ((x == At(SmtpPort) && capture) || (x == InternalHost && internal)
                        || (x == At(SmtpRouteMode) && mode)))
  {
    var a := Add(e, prod && capture, At(SmtpPort));
    InAdd(e, prod && capture, At(SmtpPort), x);
    InAdd(a, prod && internal, InternalHost, x);
    InAdd(Add(a, prod && internal, InternalHost), prod && mode, At(SmtpRouteMode), x);
  }

  lemma SecurityItemsTold(prod: bool, auth: bool, tls: bool, capture: bool, internal: bool, mode: bool, e: seq<Item>,
                          x: Item)
    ensures x in SecurityItems(prod, auth, tls, capture, internal, mode, e)
      <==> x in e || SecurityItemWrong(prod, auth, tls, capture, internal, mode, x)
  {
    ProtectionItemsTold(prod, auth, tls, e, x);
    ProviderItemsTold(prod, capture, internal, mode, ProtectionItems(prod, auth, tls, e), x);
  }

  lemma InternalExactly(t: Text, host: string, prod: bool)
    requires prod
    ensures HostKey(t, host) in BLOCKED_HOSTS || ClassifyHost(t, host, prod) != ExternalProvider
      <==> HostKey(t, host) in BLOCKED_HOSTS
  {
    ExternalExactly(t, host);
  }

  lemma SecurityTold(t: Text, v: Values, prod: bool, e: seq<Item>, x: Item)
    ensures x in SecurityErrors(t, v, prod, e) <==> x in e || SecurityWrong(t, v, prod, x)
  {
    var tls := On(Flag(t, v, SmtpSsl)) || On(Flag(t, v, SmtpStarttls));
    var internal := HostKey(t, Trimmed(v, SmtpHost)) in BLOCKED_HOSTS
                    || ClassifyHost(t, Trimmed(v, SmtpHost), prod) != ExternalProvider;
    var mode := Strip(GetOr(v, SmtpRouteMode, "direct-provider")) != "direct-provider";
    SecurityItemsTold(prod, AuthConfigured(v), tls, PortOf(t, v) in CAPTURE_PORTS, internal, mode, e, x);
    if prod {
      InternalExactly(t, Trimmed(v, SmtpHost), prod);
    }
  }

  lemma FlagExactly(t: Text, v: Values, k: Key)
    ensures On(Flag(t, v, k)) <==> SaysTrue(t, v, k)
    ensures Flag(t, v, k).None? <==> !SaysTrue(t, v, k) && !SaysFalse(t, v, k)
  {
  }

  ghost predicate Told(t: Text, v: Values, prod: bool, x: Item) {
    SettingWrong(t, v, prod, x) || TransportWrong(t, v, x) || SecurityWrong(t, v, prod, x)
  }

  lemma UrlIsWrong(t: Text, v: Values, prod: bool, k: Key)
    requires k.FrontendBaseUrl? || k.CorsOrigins?
    ensures Told(t, v, prod, At(k)) <==> Wrong(t, v, prod, At(k))
  {
    assert SetOtherwise(v, k, BASE_URL) == Differs(v, k, BASE_URL);
  }

  lemma NamedIsWrong(t: Text, v: Values, prod: bool, k: Key)
    requires k.Env? || k.AuthEmailVerificationRequired? || k.AuthDebugReturnVerifyToken?
    ensures Told(t, v, prod, At(k)) <==> Wrong(t, v, prod, At(k))
  {
  }

  lemma LabelIsWrong(t: Text, v: Values, prod: bool)
    ensures Told(t, v, prod, At(SmtpAccountLabel)) <==> Wrong(t, v, prod, At(SmtpAccountLabel))
  {
  }

  lemma ModeIsWrong(t: Text, v: Values, prod: bool)
    ensures Told(t, v, prod, At(EmailDeliveryMode)) <==> Wrong(t, v, prod, At(EmailDeliveryMode))
  {
  }

  lemma FlagIsWrong(t: Text, v: Values, prod: bool, k: Key)
    requires k.SmtpSsl? || k.SmtpStarttls?
    ensures Told(t, v, prod, At(k)) <==> Wrong(t, v, prod, At(k))
  {
    FlagExactly(t, v, SmtpSsl);
    FlagExactly(t, v, SmtpStarttls);
  }

  lemma TlsIsWrong(t: Text, v: Values, prod: bool)
    ensures Told(t, v, prod, Tls) <==> Wrong(t, v, prod, Tls)
  {
    FlagExactly(t, v, SmtpSsl);
    FlagExactly(t, v, SmtpStarttls);
  }

  lemma PortIsWrong(t: Text, v: Values, prod: bool)
    ensures Told(t, v, prod, At(SmtpPort)) <==> Wrong(t, v, prod, At(SmtpPort))
  {
  }

  lemma SenderIsWrong(t: Text, v: Values, prod: bool)
    ensures Told(t, v, prod, At(SmtpFromEmail)) <==> Wrong(t, v, prod, At(SmtpFromEmail))
  {
  }

  lemma HostIsWrong(t: Text, v: Values, prod: bool)
    ensures Told(t, v, prod, InternalHost) <==> Wrong(t, v, prod, InternalHost)
  {
  }

  lemma CredentialIsWrong(t: Text, v: Values, prod: bool, k: Key)
    requires k.SmtpUser? || k.SmtpPass?
    ensures Told(t, v, prod, At(k)) <==> Wrong(t, v, prod, At(k))
  {
  }

  lemma RouteModeIsWrong(t: Text, v: Values, prod: bool)
    ensures Told(t, v, prod, At(SmtpRouteMode)) <==> Wrong(t, v, prod, At(SmtpRouteMode))
  {
  }

  lemma OtherIsRight(t: Text, v: Values, prod: bool, k: Key)
    requires match k
             case SmtpHost | SmtpFromName | PostgresUser | PostgresPassword | SecretKey | PostgresDb => true
             case DatabaseUrl | AuthCookieSecure | ForwardedAllowIps | Other(_) => true
             case _ => false
    ensures !Told(t, v, prod, At(k)) && !Wrong(t, v, prod, At(k))
  {
  }

  lemma ToldIsWrong(t: Text, v: Values, prod: bool, x: Item)
    ensures Told(t, v, prod, x) <==> Wrong(t, v, prod, x)
  {
    match x {
      case Tls => TlsIsWrong(t, v, prod);
      case InternalHost => HostIsWrong(t, v, prod);
      case At(k) =>
        match k {
          case EmailDeliveryMode => ModeIsWrong(t, v, prod);
          case SmtpAccountLabel => LabelIsWrong(t, v, prod);
          case FrontendBaseUrl | CorsOrigins => UrlIsWrong(t, v, prod, k);
          case Env | AuthEmailVerificationRequired | AuthDebugReturnVerifyToken => NamedIsWrong(t, v, prod, k);
          case SmtpSsl | SmtpStarttls => FlagIsWrong(t, v, prod, k);
          case SmtpPort => PortIsWrong(t, v, prod);
          case SmtpFromEmail => SenderIsWrong(t, v, prod);
          case SmtpUser | SmtpPass => CredentialIsWrong(t, v, prod, k);
          case SmtpRouteMode => RouteModeIsWrong(t, v, prod);
          case _ => OtherIsRight(t, v, prod, k);
        }
    }
  }

  /** A route with everything required is refused exactly for what is wrong with it. */
  lemma WrongExactly(t: Text, v: Values, prod: bool, x: Item)
    ensures x in Errors(t, v, prod) <==> Wrong(t, v, prod, x)
    ensures Problem(t, v, prod).Some? && Problem(t, v, prod).value.Invalid? ==>
      (x in Problem(t, v, prod).value.items <==> Wrong(t, v, prod, x))
  {
    SettingsTold(t, v, prod, x);
    TransportTold(t, v, SettingErrors(t, v, prod), x);
    SecurityTold(t, v, prod, TransportErrors(t, v, SettingErrors(t, v, prod)), x);
    ToldIsWrong(t, v, prod, x);
  }

  lemma {:induction false} StarsExactly(n: nat)
    ensures |Stars(n)| == n && forall i :: 0 <= i < n ==> Stars(n)[i] == '*'
  {
    if n > 0 {
      StarsExactly(n - 1);
    }
  }

  /** Of an address only the first two characters of a longer local part stay readable, and the domain. */
  lemma MaskedExactly(address: string, local: string, domain: string)
    requires Strip(address) == local + "@" + domain && '@' !in local
    ensures MaskedEmail(address)
      == (if |local| <= 2 then Stars(|local|) else local[..2] + Stars(|local| - 2)) + "@" + domain
  {
    FirstAt(local, domain);
    PartsAround(local, domain);
  }

  lemma PartsAround(local: string, domain: string)
    ensures (local + "@" + domain)[|local| + 1..] == domain
    ensures |local| > 2 ==> (local + "@" + domain)[..2] == local[..2]
  {
  }

  lemma FirstAt(local: string, domain: string)
    requires '@' !in local
    ensures '@' in local + "@" + domain && IndexOf(local + "@" + domain, '@') == |local|
  {
    var text := local + "@" + domain;
    assert text[|local|] == '@';
    var i := IndexOf(text, '@');
    assert forall k :: 0 <= k < |local| ==> text[k] == local[k] && local[k] in local;
    assert forall k :: 0 <= k < i ==> text[k] in text[..i];
  }

  /** How a host is classified. */
  lemma ClassExactly(t: Text, host: string, prod: bool)
    ensures var key := HostKey(t, host);
      ClassifyHost(t, host, prod)
      == if key == "enm-mail-smtp" || key == "moneyflow-smtp-local" then InternalRelay
         else if key == "mailpit" || key == "localhost" || key == "127.0.0.1" || key == "::1" then InternalCapture
         else ExternalProvider
  {
  }

  lemma TlsExactly(t: Text, v: Values)
    requires Transport(t, v)
    ensures var tls := TlsOf(On(Flag(t, v, SmtpSsl)), On(Flag(t, v, SmtpStarttls)));
      && (tls == Ssl <==> SaysTrue(t, v, SmtpSsl)) && (tls == StartTls <==> SaysTrue(t, v, SmtpStarttls))
  {
    FlagExactly(t, v, SmtpSsl);
    FlagExactly(t, v, SmtpStarttls);
  }

  /** The summary of an accepted route. */
  lemma SummaryExactly(t: Text, v: Values, target: string, source: string, owner: string)
    requires Validated(t, v, target, source, owner).Ok?
    ensures var r := Validated(t, v, target, source, owner).value;
      Summarised(t, v, r.normalized, r.summary, source, owner) && Some(r.summary.prod) == IsProd(t, target)
      && (!r.summary.prod ==> r.normalized == v)
  {
    var prod := IsProd(t, target).value;
    ProblemExactly(t, v, prod);
    TlsExactly(t, v);
  }

  ghost predicate Summarised(t: Text, v: Values, n: Values, s: RouteSummary, source: string, owner: string) {
    && s.source == source && s.sourceOwner == owner
    && s.host == Strip(Get(v, SmtpHost)) && s.hostClass == ClassifyHost(t, s.host, s.prod)
    && t.number(Strip(Get(v, SmtpPort))) == Some(s.port)
    && (s.tls == Ssl <==> SaysTrue(t, v, SmtpSsl)) && (s.tls == StartTls <==> SaysTrue(t, v, SmtpStarttls))
    && s.fromEmail == MaskedEmail(Get(n, SmtpFromEmail)) && s.accountLabel == Get(n, SmtpAccountLabel)
    && (s.authPresent <==> !NoCredentials(v))
  }

  // ---------------------------------------------------------------------------
  // Normalising again changes nothing
  // ---------------------------------------------------------------------------

  /** The route itself, which production leaves alone: every variable that it does not fix. */
  ghost predicate SameRoute(v: Values, n: Values) {
    forall k :: !IsFixed(k) ==> Get(v, k) == Get(n, k)
  }

  ghost predicate HasFixed(n: Values, databaseUrl: string) {
    forall k :: IsFixed(k) ==> Get(n, k) == FixedValue(k, databaseUrl)
  }

  lemma NormalizedHas(v: Values, databaseUrl: string)
    ensures SameRoute(v, WithFixed(v, databaseUrl)) && HasFixed(WithFixed(v, databaseUrl), databaseUrl)
  {
  }

  lemma FixedTwice(v: Values, databaseUrl: string)
    ensures WithFixed(WithFixed(v, databaseUrl), databaseUrl) == WithFixed(v, databaseUrl)
  {
  }

  lemma Kept(n: Values, k: Key, value: string)
    requires Get(n, k) == value && value != "" && !IsSpace(value[0]) && !IsSpace(value[|value| - 1])
    ensures Trimmed(n, k) == value && GetOr(n, k, "") == value
  {
  }

  lemma FixedNames(n: Values, databaseUrl: string)
    requires HasFixed(n, databaseUrl)
    ensures Trimmed(n, Env) == "prod" && Trimmed(n, SmtpAccountLabel) == ACCOUNT_LABEL
    ensures GetOr(n, EmailDeliveryMode, "smtp") == "smtp" && Strip("smtp") == "smtp"
  {
    Kept(n, EmailDeliveryMode, "smtp");
    Kept(n, Env, "prod");
    Kept(n, SmtpAccountLabel, ACCOUNT_LABEL);
  }

  lemma FixedUrls(n: Values, databaseUrl: string)
    requires HasFixed(n, databaseUrl)
    ensures Trimmed(n, FrontendBaseUrl) == BASE_URL && Trimmed(n, CorsOrigins) == BASE_URL
  {
    Kept(n, FrontendBaseUrl, BASE_URL);
    Kept(n, CorsOrigins, BASE_URL);
  }

  lemma FixedFlags(n: Values, databaseUrl: string)
    requires HasFixed(n, databaseUrl)
    ensures Trimmed(n, AuthEmailVerificationRequired) == "true" && Trimmed(n, AuthDebugReturnVerifyToken) == "false"
  {
    Kept(n, AuthEmailVerificationRequired, "true");
    Kept(n, AuthDebugReturnVerifyToken, "false");
  }

  lemma FixedSettings(t: Text, n: Values, databaseUrl: string)
    requires HasFixed(n, databaseUrl) && t.lower("smtp") == "smtp"
    ensures Settings(t, n, true)
  {
    FixedNames(n, databaseUrl);
    FixedUrls(n, databaseUrl);
    FixedFlags(n, databaseUrl);
  }

  // The checks on transport and security read only the route.

  lemma SameReadings(t: Text, v: Values, n: Values)
    requires SameRoute(v, n)
    ensures PortOf(t, v) == PortOf(t, n) && AuthConfigured(v) == AuthConfigured(n)
    ensures Flag(t, v, SmtpSsl) == Flag(t, n, SmtpSsl) && Flag(t, v, SmtpStarttls) == Flag(t, n, SmtpStarttls)
  {
  }

  lemma SameTransport(t: Text, v: Values, n: Values)
    requires SameRoute(v, n)
    ensures Transport(t, v) == Transport(t, n)
  {
    SameReadings(t, v, n);
  }

  lemma SameSecurity(t: Text, v: Values, n: Values)
    requires SameRoute(v, n)
    ensures Secure(t, v, true) == Secure(t, n, true)
  {
    SameReadings(t, v, n);
    assert Get(v, SmtpRouteMode) == Get(n, SmtpRouteMode) && Get(v, SmtpHost) == Get(n, SmtpHost);
  }

  lemma SameSummary(t: Text, v: Values, n: Values, source: string, owner: string)
    requires SameRoute(v, n)
    ensures SummaryOf(t, v, n, true, source, owner) == SummaryOf(t, n, n, true, source, owner)
  {
    SameReadings(t, v, n);
  }

  lemma OnlyLabelIsFixed(k: Key)
    requires k in PROD_REQUIRED && IsFixed(k)
    ensures k == SmtpAccountLabel
  {
  }

  lemma RequiredStay(v: Values, n: Values, databaseUrl: string, k: Key)
    requires SameRoute(v, n) && HasFixed(n, databaseUrl) && k in PROD_REQUIRED && Trimmed(v, k) != ""
    ensures Trimmed(n, k) != ""
  {
    if IsFixed(k) {
      OnlyLabelIsFixed(k);
      FixedNames(n, databaseUrl);
    }
  }

  lemma RouteStays(t: Text, v: Values, n: Values, databaseUrl: string)
    requires RouteOk(t, v, true) && SameRoute(v, n) && HasFixed(n, databaseUrl) && t.lower("smtp") == "smtp"
    ensures RouteOk(t, n, true)
  {
    FixedSettings(t, n, databaseUrl);
    SameTransport(t, v, n);
    SameSecurity(t, v, n);
    forall k | k in Required(true) ensures Trimmed(n, k) != "" { RequiredStay(v, n, databaseUrl, k); }
  }

  lemma LowerSmtp(t: Text, v: Values)
    requires (forall x :: t.lower(t.lower(x)) == t.lower(x)) && Settings(t, v, true)
    ensures t.lower("smtp") == "smtp"
  {
  }

  lemma AcceptedStays(t: Text, v: Values, source: string, owner: string)
    ensures Accepted(t, Normalized(t, v, true), true, source, owner) == Accepted(t, v, true, source, owner)
  {
    var url := DatabaseUrlOf(t, v);
    var n := WithFixed(v, url);
    NormalizedHas(v, url);
    assert DatabaseUrlOf(t, n) == url;
    FixedTwice(v, url);
    SameSummary(t, v, n, source, owner);
  }

  lemma NormalizedIsOk(t: Text, v: Values, prod: bool)
    requires forall x :: t.lower(t.lower(x)) == t.lower(x)
    requires RouteOk(t, v, prod)
    ensures RouteOk(t, Normalized(t, v, prod), prod)
  {
    if prod {
      LowerSmtp(t, v);
      NormalizedHas(v, DatabaseUrlOf(t, v));
      RouteStays(t, v, Normalized(t, v, true), DatabaseUrlOf(t, v));
    }
  }

  lemma NormalizingIsIdempotent(t: Text, v: Values, prod: bool, source: string, owner: string)
    requires forall x :: t.lower(t.lower(x)) == t.lower(x)
    requires Problem(t, v, prod).None?
    ensures Problem(t, Accepted(t, v, prod, source, owner).normalized, prod).None?
    ensures Accepted(t, Accepted(t, v, prod, source, owner).normalized, prod, source, owner)
      == Accepted(t, v, prod, source, owner)
  {
    ProblemExactly(t, v, prod);
    NormalizedIsOk(t, v, prod);
    ProblemExactly(t, Normalized(t, v, prod), prod);
    if prod {
      AcceptedStays(t, v, source, owner);
    }
  }

  /** An accepted route is accepted again after normalising, with the same values and the same summary. */
  lemma ValidatingAgainChangesNothing(t: Text, v: Values, target: string, source: string, owner: string)
    requires forall x :: t.lower(t.lower(x)) == t.lower(x)
    requires Validated(t, v, target, source, owner).Ok?
    ensures var r := Validated(t, v, target, source, owner);
      Validated(t, r.value.normalized, target, source, owner) == r
  {
    NormalizingIsIdempotent(t, v, IsProd(t, target).value, source, owner);
  }
}
