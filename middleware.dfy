/**
 * The request middleware (middleware.ts): on a first visit it sets the init
 * flag cookie and, when there is no tasks cookie yet, seeds the default
 * tasks. The response's cookie list is an object the middleware fills in.
 */
module Middleware {
  import opened Constants
  import opened Page

  /** The `sameSite` attribute of a cookie. */
  datatype SameSite = Lax | Strict | Unrestricted

  /** The attributes a cookie is set with. */
  datatype CookieOptions = CookieOptions(path: string, sameSite: SameSite, secure: bool, httpOnly: bool, maxAge: int)

  /** One `Set-Cookie` of the response. */
  datatype SetCookie = SetCookie(value: string, options: CookieOptions)

  /** A year, in seconds. */
  const OneYear: int := 60 * 60 * 24 * 365

  /**
   * The attributes both cookies get: the whole site, lax same-site, secure
   * only in production, readable by page scripts, kept for a year.
   */
  function Options(production: bool): (o: CookieOptions)
    ensures o.path == "/" && o.sameSite == Lax && !o.httpOnly
    ensures o.secure <==> production
    ensures o.maxAge == 31536000
  {
    CookieOptions("/", Lax, production, false, OneYear)
  }

  /**
   * The cookies the middleware sets for a request with cookies `request`:
   * nothing once the flag cookie exists; otherwise the flag, plus the default
   * tasks when there is no tasks cookie either.
   */
  function ResponseCookies(request: Jar, production: bool): (r: map<string, SetCookie>)
    ensures InitFlagKey in request ==> r == map[]
    ensures InitFlagKey !in request ==> InitFlagKey in r && r[InitFlagKey] == SetCookie("true", Options(production))
    ensures TasksStorageKey in r <==> InitFlagKey !in request && TasksStorageKey !in request
    ensures TasksStorageKey in r ==> r[TasksStorageKey] == SetCookie(DefaultTasksJson, Options(production))
    ensures r.Keys <= {InitFlagKey, TasksStorageKey}
  {
    if InitFlagKey in request then map[]
    else if TasksStorageKey in request then map[InitFlagKey := SetCookie("true", Options(production))]
    else map[InitFlagKey := SetCookie("true", Options(production)),
             TasksStorageKey := SetCookie(DefaultTasksJson, Options(production))]
  }

  /** The browser's cookies after it stores the response's cookies. */
  function Store(jar: Jar, response: map<string, SetCookie>): (r: Jar)
    ensures r.Keys == jar.Keys + response.Keys
    ensures forall name :: name in response ==> r[name] == response[name].value
    ensures forall name :: name in jar && name !in response ==> r[name] == jar[name]
  {
    map name | name in jar.Keys + response.Keys ::
      if name in response then response[name].value else jar[name]
  }

  /** `response.cookies`: the cookies a response sets, filled in by `Set`. */
  class Response {
    var cookies: map<string, SetCookie>

    /** `NextResponse.next()`: a response that sets nothing yet. */
    constructor ()
      ensures cookies == map[]
    {
      cookies := map[];
    }

    /** `response.cookies.set`: the latest value for a name wins. */
    method Set(name: string, value: string, options: CookieOptions)
      modifies this`cookies
      ensures cookies == old(cookies)[name := SetCookie(value, options)]
    {
      cookies := cookies[name := SetCookie(value, options)];
    }
  }

  /** `middleware`: the response's cookies are exactly `ResponseCookies`. */
  method Run(request: Jar, production: bool) returns (response: Response)
    ensures fresh(response)
    ensures response.cookies == ResponseCookies(request, production)
  {
    response := new Response();
    var hasInitFlag := InitFlagKey in request;
    var hasTasks := TasksStorageKey in request;
    if !hasInitFlag {
      response.Set(InitFlagKey, "true", Options(production));
      if !hasTasks {
        response.Set(TasksStorageKey, DefaultTasksJson, Options(production));
      }
    }
  }

  // ------------------------------------------------------------ properties

  /** The middleware never overwrites a cookie the request already has. */
  lemma NeverOverwrites(request: Jar, production: bool)
    ensures forall name :: name in ResponseCookies(request, production) ==> name !in request
  {
  }

  /** Storing the response and running the middleware again sets nothing. */
  lemma Idempotent(jar: Jar, production: bool)
    ensures ResponseCookies(Store(jar, ResponseCookies(jar, production)), production) == map[]
  {
  }

  /**
   * A first visit (neither cookie) shows the default tasks, whether the page
   * sees the request's cookies or the ones the middleware just set, provided
   * parsing the stored defaults gives them back.
   */
  lemma FirstVisitShowsDefaults(jar: Jar, production: bool, parse: string -> ParseResult)
    requires InitFlagKey !in jar && TasksStorageKey !in jar
    requires parse(DefaultTasksJson) == Array(DefaultTasks)
    ensures InitialTasks(jar, parse) == DefaultTasks
    ensures InitialTasks(Store(jar, ResponseCookies(jar, production)), parse) == DefaultTasks
  {
    var stored := Store(jar, ResponseCookies(jar, production));
    assert stored[TasksStorageKey] == DefaultTasksJson;
    assert DefaultTasksJson != "";
  }

  /**
   * Once a visit has been handled (the stored flag is `"true"`), clearing
   * the tasks cookie never brings the defaults back: the next request starts
   * from an empty list.
   */
  lemma DefaultsNeverReintroduced(jar: Jar, production: bool, parse: string -> ParseResult)
    requires Initialized(jar) && !HasRawTasks(jar)
    ensures ResponseCookies(jar, production) == map[]
    ensures InitialTasks(jar, parse) == []
  {
  }

  /** After any visit, the stored flag makes later visits count as initialized unless it was already set otherwise. */
  lemma VisitInitializes(jar: Jar, production: bool)
    requires InitFlagKey !in jar || jar[InitFlagKey] == "true"
    ensures Initialized(Store(jar, ResponseCookies(jar, production)))
  {
  }
}
