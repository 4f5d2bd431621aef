/**
 * The static configuration record of frontend-config.js and the URL
 * resolution built on it: the page location decides one of three
 * environments, which selects a backend and a frontend base URL; a named
 * endpoint is resolved against the backend base URL.
 */
module Config {
  import opened Wrappers

  /** The two parts of the page location the script consults. */
  datatype Location = Location(hostname: string, protocol: string)

  /** The three environment variants of the URL tables. */
  datatype Environment = Local | Production | Clinic

  /** One URL per environment, as in `BACKEND_URL` and `FRONTEND_URL`. */
  datatype UrlGroup = UrlGroup(local: string, production: string, clinic: string)

  /** `FORM_SETTINGS` (the message toggles are data only: nothing modelled reads them). */
  datatype FormSettings = FormSettings(maxRetries: nat, timeout: int,
                                       showSuccessMessage: bool, showErrorMessage: bool)

  /** `SECURITY` (`enableRateLimiting` is never read by the script). */
  datatype SecuritySettings = SecuritySettings(enableCSRF: bool, enableRateLimiting: bool,
                                               maxRequestsPerMinute: nat)

  datatype Settings = Settings(form: FormSettings, security: SecuritySettings)

  const BackendUrls := UrlGroup("http://localhost/chanse-clinic/backend/",
                                "https://your-clinic-server.com/backend/",
                                "https://your-clinic-server.com/backend/")

  const FrontendUrls := UrlGroup("http://localhost/chanse-clinic/",
                                 "https://chanseclinic.com/",
                                 "https://chanseclinic.com/")

  /** `API_ENDPOINTS`: endpoint name to path relative to the backend base URL. */
  const ApiEndpoints: map<string, string> :=
    map["contact" := "routes/contact.php",
        "appointment" := "routes/appointment.php",
        "newsletter" := "routes/newsletter.php",
        "settings" := "routes/settings.php",
        "csrf" := "routes/csrf.php"]

  const DefaultSettings := Settings(FormSettings(3, 30000, true, true),
                                    SecuritySettings(true, true, 10))

  /** `isLocalhost`. */
  predicate IsLocalhost(loc: Location) {
    loc.hostname == "localhost" || loc.hostname == "127.0.0.1"
  }

  /** `isProduction`: note it does not exclude `127.0.0.1`. */
  predicate IsProduction(loc: Location) {
    loc.protocol == "https:" && loc.hostname != "localhost"
  }

  /** The environment both URL selections branch on, stated directly. */
  function EnvironmentOf(loc: Location): (e: Environment)
    ensures e == Local <==> loc.hostname in {"localhost", "127.0.0.1"}
    ensures e == Production <==> loc.hostname !in {"localhost", "127.0.0.1"} && loc.protocol == "https:"
    ensures e == Clinic <==> loc.hostname !in {"localhost", "127.0.0.1"} && loc.protocol != "https:"
  {
    if IsLocalhost(loc) then Local else if IsProduction(loc) then Production else Clinic
  }

  function Select(g: UrlGroup, e: Environment): string {
    match e
    case Local => g.local
    case Production => g.production
    case Clinic => g.clinic
  }

  /** `getBackendUrl`. */
  function GetBackendUrl(loc: Location): (url: string)
    ensures url == Select(BackendUrls, EnvironmentOf(loc))
  {
    if IsLocalhost(loc) then BackendUrls.local
    else if IsProduction(loc) then BackendUrls.production
    else BackendUrls.clinic
  }

  /** `getFrontendUrl`. */
  function GetFrontendUrl(loc: Location): (url: string)
    ensures url == Select(FrontendUrls, EnvironmentOf(loc))
  {
    if IsLocalhost(loc) then FrontendUrls.local
    else if IsProduction(loc) then FrontendUrls.production
    else FrontendUrls.clinic
  }

  /** `getApiUrl`: `None` is the script's `null` for an unknown endpoint. */
  function GetApiUrl(loc: Location, endpoint: string): (url: Option<string>)
    ensures url.None? <==> endpoint !in {"contact", "appointment", "newsletter", "settings", "csrf"}
    ensures url.Some? ==> url.value == GetBackendUrl(loc) + ApiEndpoints[endpoint]
  {
    var backendUrl := GetBackendUrl(loc);
    if endpoint !in ApiEndpoints || ApiEndpoints[endpoint] == "" then None
    else Some(backendUrl + ApiEndpoints[endpoint])
  }

  /** The backend and frontend selections always agree on the environment. */
  lemma SameVariant(loc: Location)
    ensures exists e :: GetBackendUrl(loc) == Select(BackendUrls, e) && GetFrontendUrl(loc) == Select(FrontendUrls, e)
  {
    var e := EnvironmentOf(loc);
    assert GetBackendUrl(loc) == Select(BackendUrls, e);
  }

  /** Only a local page talks to the local backend; the other two variants share one URL. */
  lemma LocalBackendOnlyOnLocalhost(loc: Location)
    ensures GetBackendUrl(loc) == BackendUrls.local <==> IsLocalhost(loc)
  {
    if !IsLocalhost(loc) {
      assert BackendUrls.local[8] != BackendUrls.production[8];
    }
  }

  /** Distinct endpoints resolve to distinct URLs, so the URL identifies the endpoint. */
  lemma ApiUrlInjective(loc: Location, a: string, b: string)
    requires GetApiUrl(loc, a).Some? && GetApiUrl(loc, a) == GetApiUrl(loc, b)
    ensures a == b
  {
    var base := GetBackendUrl(loc);
    var pa, pb := ApiEndpoints[a], ApiEndpoints[b];
    assert (base + pa)[|base|..] == pa;
    assert (base + pb)[|base|..] == pb;
    assert pa == pb;
  }
}
